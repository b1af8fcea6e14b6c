/** Two parsers of which one came from the other by sniffing are told apart by a single byte. */
module TellingApart {
  import opened Common
  import opened Sniffers

  const BANG: byte := 0x21  // no letter of a keyword and no line end

  predicate Filling(p: Parser) {
    p.state == FillUser || p.state == FillPass
  }

  /** At the same place of the same argument: the next byte may hide that the bytes there differ. */
  predicate SamePlace(p: Parser, q: Parser) {
    Filling(p) && q.state == p.state && q.writePtr == p.writePtr < MAX_CREDENTIALS_LEN - 1
  }

  predicate OnlyStateDiffers(p: Parser, q: Parser) {
    q == p.(state := q.state)
  }

  function NextLetter(p: Parser): byte
    requires p.Valid()
  {
    if p.state == UserCmd then USER_STR[p.readPtr] else PASS_STR[p.readPtr]
  }

  /** The byte that tells two different parsers apart. */
  function Telling(p: Parser, q: Parser): byte
    requires p.Valid() && q.Valid()
  {
    if !OnlyStateDiffers(p, q) then BANG
    else if Filling(p) || Filling(q) then (if p.writePtr + 1 == MAX_CREDENTIALS_LEN then NEWLINE else BANG)
    else if p.state == UnknownCmd then NextLetter(q)
    else NextLetter(p)
  }

  /** What BANG does: a keyword or an unknown line goes on as unknown, an argument goes on while there is room. */
  lemma FeedBang(p: Parser)
    requires p.Valid()
    ensures !Filling(p) ==> Feed(p, BANG) == p.(state := UnknownCmd)
    ensures Filling(p) && p.writePtr + 1 == MAX_CREDENTIALS_LEN ==> Feed(p, BANG) == p.(state := UnknownCmd)
    ensures Filling(p) && p.writePtr + 1 < MAX_CREDENTIALS_LEN ==>
              Feed(p, BANG).state == p.state && Feed(p, BANG).writePtr == p.writePtr + 1
    ensures Feed(p, BANG).passComplete == p.passComplete
  {
  }

  /** What the awaited letter does, to the keyword that awaits it and to another state. */
  lemma FeedLetter(p: Parser, q: Parser)
    requires p.Valid() && (p.state == UserCmd || p.state == PassCmd)
    requires OnlyStateDiffers(p, q) && q.state != p.state && !Filling(q)
    ensures Feed(p, NextLetter(p)) != Feed(q, NextLetter(p))
    ensures Feed(p, NextLetter(p)).passComplete == p.passComplete
  {
  }

  lemma TellApart(p: Parser, q: Parser)
    requires p.Valid() && q.Valid() && p != q && !SamePlace(p, q) && !p.passComplete && !q.passComplete
    ensures var b := Telling(p, q);
            Feed(p, b) != Feed(q, b) && !(Feed(p, b).passComplete && Feed(q, b).passComplete)
  {
    hide Feed;
    if !OnlyStateDiffers(p, q) || Filling(p) || Filling(q) {
      if Telling(p, q) == BANG {
        FeedBang(p);
        FeedBang(q);
      } else {
        FeedLineEnd(p, q);
      }
    } else if p.state == UnknownCmd {
      FeedLetter(q, p);
    } else {
      FeedLetter(p, q);
    }
  }

  lemma FeedLineEnd(p: Parser, q: Parser)
    requires p.Valid() && q.Valid() && p != q && OnlyStateDiffers(p, q) && (Filling(p) || Filling(q))
    requires p.writePtr + 1 == MAX_CREDENTIALS_LEN && !p.passComplete
    ensures Feed(p, NEWLINE) != Feed(q, NEWLINE)
    ensures !(Feed(p, NEWLINE).passComplete && Feed(q, NEWLINE).passComplete)
  {
  }

  // ---------------------------------------------------------------------------
  // No parser comes back to the same place of an argument
  // ---------------------------------------------------------------------------

  /** Past a place of an argument, for good. */
  predicate Past(user: bool, place: nat, p: Parser) {
    || p.passComplete
    || (user && p.writePtr > place)
    || (p.userComplete && p.state != UserCmd && p.state != FillUser && (user || p.writePtr > place))
  }

  lemma {:induction false} PastStays(user: bool, place: nat, p: Parser, s: seq<byte>)
    requires p.Valid() && Past(user, place, p)
    ensures Past(user, place, Consume(p, s))
    decreases |s|
  {
    if s != [] && !p.passComplete {
      PastStays(user, place, Feed(p, s[0]), s[1..]);
    }
  }

  lemma NeverBack(p: Parser, s: seq<byte>)
    requires p.Valid() && p.InOrder() && !p.passComplete && SamePlace(p, Consume(p, s)) && !Consume(p, s).passComplete
    ensures Consume(p, s) == p
  {
    if s != [] {
      PastStays(p.state == FillUser, p.writePtr, Feed(p, s[0]), s[1..]);
    }
  }

  /** Unless some bytes leave a parser as it is, one byte behind them shows that they were there. */
  lemma OneByteShows(p: Parser, left: seq<byte>)
    requires p.Valid() && p.InOrder() && !p.passComplete && Consume(p, left) != p
    ensures var q := Consume(p, left);
            if q.passComplete then !Feed(p, BANG).passComplete
            else
              var b := Telling(p, q);
              Feed(p, b) != Feed(q, b) && !(Feed(p, b).passComplete && Feed(q, b).passComplete)
  {
    hide Consume, Feed;
    var q := Consume(p, left);
    if q.passComplete {
      FeedBang(p);
    } else {
      if SamePlace(p, q) { NeverBack(p, left); }
      TellApart(p, q);
    }
  }
}
