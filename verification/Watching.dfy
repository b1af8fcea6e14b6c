/**
 * The sniffer beside the relay: what the parser of a connection becomes over a run, when it
 * is the same as one pass over the bytes that the client sent, and when it is not.
 */
module Watching {
  import opened Common
  import opened Buffers
  import opened SocketsIO
  import opened Selectors
  import opened Connections
  import opened Invariants
  import opened Preservation
  import opened Progress
  import opened Theorems
  import opened Journeys
  import opened TellingApart
  import Sniffers

  type Parser = p: Sniffers.Parser | p.Valid() witness Sniffers.NEW_PARSER

  /** A pair given to log_sniffer_info. */
  datatype Pair = Pair(user: seq<byte>, pass: seq<byte>)

  /** A parser and what was logged from it. */
  datatype Watch = Watch(parser: Parser, logged: seq<Pair>)

  // ---------------------------------------------------------------------------
  // One event
  // ---------------------------------------------------------------------------

  /** pop3_parse on a window of the request buffer, and the log of what it found. */
  function Look(w: Watch, window: seq<byte>): (r: Watch) {
    var q := Sniffers.Consume(w.parser, window);
    if q.userComplete && q.passComplete
    then Watch(Sniffers.Restart(q), w.logged + [Pair(CString(q.user), CString(q.pass))])
    else Watch(q, w.logged)
  }

  /** Whether a read from the client into this buffer is shown to the sniffer. */
  predicate Shown(b: Buf, env: Env)
    requires b.Valid()
  {
    b.CanWrite() && !CheckEOF(ReadCount(b, env.incoming)) && env.dissector
  }

  /** Whether the sniffer looks at the request buffer in an event. */
  predicate Looks(c: Conn, ev: Event)
    requires c.Valid()
  {
    ev.kind == Readable(ClientSide) && Dispatched(c, ev.kind) && c.State() == PROXY && Shown(c.originBuf, ev.env)
  }

  /** The sniffer always looks at the whole window, not just at what has arrived. */
  function Watched(c: Conn, w: Watch, ev: Event): Watch
    requires c.Valid()
  {
    if Looks(c, ev) then Look(w, ReadFrom(c.originBuf, ev.env.incoming).contents) else w
  }

  // ---------------------------------------------------------------------------
  // Runs
  // ---------------------------------------------------------------------------

  function WatchRun(c: Conn, w: Watch, events: seq<Event>): Watch
    requires c.Valid()
    decreases |events|
  {
    if events == [] || Step(c, events[0]).Crash? then w
    else WatchRun(Step(c, events[0]).conn, Watched(c, w, events[0]), events[1..])
  }

  function NewBytes(c: Conn, ev: Event): seq<byte>
    requires c.Valid()
  {
    if Looks(c, ev) then ReceivedBytes(c.originBuf, ev.env.incoming) else []
  }

  /** The bytes that arrived when the sniffer looked. */
  function Seen(c: Conn, events: seq<Event>): seq<byte>
    requires c.Valid()
    decreases |events|
  {
    if events == [] || Step(c, events[0]).Crash? then []
    else NewBytes(c, events[0]) + Seen(Step(c, events[0]).conn, events[1..])
  }

  /** Whenever the sniffer looks, the bytes that are still in the request buffer leave it as it is. */
  predicate Harmless(c: Conn, w: Watch, events: seq<Event>)
    requires c.Valid()
    decreases |events|
  {
    events == [] || Step(c, events[0]).Crash? ||
    (&& (Looks(c, events[0]) ==> Sniffers.Consume(w.parser, c.originBuf.contents) == w.parser)
     && Harmless(Step(c, events[0]).conn, Watched(c, w, events[0]), events[1..]))
  }

  /** In particular when there are none. */
  predicate OnEmpty(c: Conn, events: seq<Event>)
    requires c.Valid()
    decreases |events|
  {
    events == [] || Step(c, events[0]).Crash? ||
    (&& (Looks(c, events[0]) ==> !c.originBuf.CanRead())
     && OnEmpty(Step(c, events[0]).conn, events[1..]))
  }

  lemma {:induction false} EmptyIsHarmless(c: Conn, w: Watch, events: seq<Event>)
    requires c.Valid() && OnEmpty(c, events)
    ensures Harmless(c, w, events)
    decreases |events|
  {
    hide Step, Looks, Look;
    if events != [] && Step(c, events[0]).Next? {
      EmptyIsHarmless(Step(c, events[0]).conn, Watched(c, w, events[0]), events[1..]);
    }
  }

  lemma {:induction false} LogGrows(c: Conn, w: Watch, events: seq<Event>)
    requires c.Valid()
    ensures w.logged <= WatchRun(c, w, events).logged
    decreases |events|
  {
    hide Step, Looks, CString, Sniffers.Consume;
    if events != [] && Step(c, events[0]).Next? {
      LogGrows(Step(c, events[0]).conn, Watched(c, w, events[0]), events[1..]);
    }
  }

  /** A look at harmless bytes followed by new ones is a look at the new ones. */
  lemma HarmlessLook(c: Conn, w: Watch, ev: Event)
    requires c.Valid() && Looks(c, ev) && Sniffers.Consume(w.parser, c.originBuf.contents) == w.parser
    ensures Watched(c, w, ev) == Look(w, NewBytes(c, ev))
  {
    hide Sniffers.Consume, ReceivedBytes, Looks;
    Sniffers.ConsumeConcat(w.parser, c.originBuf.contents, NewBytes(c, ev));
  }

  /** One pass over the bytes seen, up to a complete pair, which is the next one logged. */
  predicate OnePass(w: Watch, seen: seq<byte>, r: Watch) {
    var q := Sniffers.Consume(w.parser, seen);
    if q.passComplete
    then w.logged + [Pair(CString(q.user), CString(q.pass))] <= r.logged
    else r == Watch(q, w.logged)
  }

  /**
   * For every run from any connection and any parser: if the bytes left in the request buffer
   * are harmless whenever the sniffer looks, then it sees what one pass over the bytes sent
   * by the client would see, however they were cut.
   */
  lemma {:induction false} SniffingIsOnePass(c: Conn, w: Watch, events: seq<Event>)
    requires c.Valid() && Harmless(c, w, events) && w.parser.InOrder() && !w.parser.passComplete
    ensures OnePass(w, Seen(c, events), WatchRun(c, w, events))
    decreases |events|
  {
    hide Step, Looks, CString, Sniffers.Consume, NewBytes;
    if events == [] || Step(c, events[0]).Crash? {
      Sniffers.ConsumeNothing(w.parser);
    } else {
      var ev, d := events[0], Step(c, events[0]).conn;
      var fed, rest := NewBytes(c, ev), Seen(d, events[1..]);
      var q := Sniffers.Consume(w.parser, fed);
      assert Watched(c, w, ev) == if Looks(c, ev) then Look(w, fed) else w by {
        if Looks(c, ev) { HarmlessLook(c, w, ev); }
      }
      assert !Looks(c, ev) ==> q == w.parser by {
        Sniffers.ConsumeNothing(w.parser);
        if !Looks(c, ev) { NothingNew(c, ev); }
      }
      Sniffers.ConsumeInOrder(w.parser, fed);
      Sniffers.ConsumeConcat(w.parser, fed, rest);
      var w' := Watched(c, w, ev);
      if q.passComplete {
        Sniffers.ConsumeStops(q, rest);
        LogGrows(d, w', events[1..]);
      } else {
        SniffingIsOnePass(d, w', events[1..]);
      }
    }
  }

  lemma NothingNew(c: Conn, ev: Event)
    requires c.Valid() && !Looks(c, ev)
    ensures NewBytes(c, ev) == []
  {
  }

  // ---------------------------------------------------------------------------
  // Every pair
  // ---------------------------------------------------------------------------

  /** What a sniffer that starts over right behind each pair would make of the bytes. */
  function EveryPair(w: Watch, s: seq<byte>): Watch
    decreases |s|
  {
    if s == [] then w else EveryPair(Look(w, s[..1]), s[1..])
  }

  lemma {:induction false} EveryPairConcat(w: Watch, a: seq<byte>, b: seq<byte>)
    ensures EveryPair(w, a + b) == EveryPair(EveryPair(w, a), b)
    decreases |a|
  {
    hide Look;
    if a == [] {
      assert a + b == b;
    } else {
      assert (a + b)[1..] == a[1..] + b && (a + b)[..1] == a[..1];
      EveryPairConcat(Look(w, a[..1]), a[1..], b);
    }
  }

  lemma {:induction false} EveryPairGrows(w: Watch, s: seq<byte>)
    ensures w.logged <= EveryPair(w, s).logged
    decreases |s|
  {
    hide Sniffers.Consume, CString;
    if s != [] {
      EveryPairGrows(Look(w, s[..1]), s[1..]);
    }
  }

  /** A look finds the first pair; the rest of the window is left. */
  lemma {:induction false} LookThenEveryPair(w: Watch, s: seq<byte>)
    requires w.parser.InOrder() && !w.parser.passComplete
    ensures EveryPair(w, s) == EveryPair(Look(w, s), Sniffers.Unread(w.parser, s))
    decreases |s|
  {
    hide Sniffers.Feed, CString;
    if s != [] {
      var p := Sniffers.Feed(w.parser, s[0]);
      assert s[..1] == [s[0]];
      Sniffers.ConsumeLast(w.parser, s[0]);
      Sniffers.ConsumeInOrder(w.parser, s[..1]);
      if p.passComplete {
        Sniffers.ConsumeStops(p, s[1..]);
      } else {
        LookThenEveryPair(Watch(p, w.logged), s[1..]);
      }
    }
  }

  lemma EveryPairStays(w: Watch, s: seq<byte>)
    requires w.parser.Fresh()
    ensures EveryPair(w, s) == w <==> Sniffers.Traceless(s, Sniffers.USER_STR)
  {
    hide Sniffers.Consume, CString, Sniffers.Unread, EveryPair, Sniffers.Traceless;
    Sniffers.TracelessExactly(w.parser, s);
    Sniffers.ConsumeInOrder(w.parser, s);
    LookThenEveryPair(w, s);
    if Sniffers.Consume(w.parser, s).passComplete {
      EveryPairGrows(Look(w, s), Sniffers.Unread(w.parser, s));
    } else {
      NothingUnread(w, s);
    }
  }

  lemma NothingUnread(w: Watch, s: seq<byte>)
    requires !Sniffers.Consume(w.parser, s).passComplete
    ensures Sniffers.Unread(w.parser, s) == []
    ensures forall r :: EveryPair(r, []) == r
  {
    Sniffers.UnreadConcat(w.parser, s, []);
    assert s + [] == s;
  }

  /**
   * One look at a window does what a sniffer would do that starts over behind each pair, if
   * and only if what follows the first pair in the window leaves no trace: a second login in
   * the same segment is lost.
   */
  lemma LookIsWholeExactly(w: Watch, s: seq<byte>)
    requires w.parser.InOrder() && !w.parser.passComplete
    ensures Look(w, s) == EveryPair(w, s) <==> Sniffers.Traceless(Sniffers.Unread(w.parser, s), Sniffers.USER_STR)
  {
    hide Sniffers.Consume, CString, Sniffers.Unread, EveryPair;
    LookThenEveryPair(w, s);
    Sniffers.ConsumeInOrder(w.parser, s);
    if Sniffers.Consume(w.parser, s).passComplete {
      EveryPairStays(Look(w, s), Sniffers.Unread(w.parser, s));
    } else {
      NothingUnread(w, s);
    }
  }

  /** Whenever the sniffer looks, nothing that could leave a trace follows the first pair among the new bytes. */
  predicate Whole(c: Conn, w: Watch, events: seq<Event>)
    requires c.Valid()
    decreases |events|
  {
    events == [] || Step(c, events[0]).Crash? ||
    (&& (Looks(c, events[0]) ==>
           Sniffers.Traceless(Sniffers.Unread(w.parser, NewBytes(c, events[0])), Sniffers.USER_STR))
     && Whole(Step(c, events[0]).conn, Watched(c, w, events[0]), events[1..]))
  }

  /** Then, and with harmless leftovers, a run logs every pair that the client sends, however it is cut. */
  lemma {:induction false} EveryPairIsLogged(c: Conn, w: Watch, events: seq<Event>)
    requires c.Valid() && w.parser.InOrder() && !w.parser.passComplete
    requires Harmless(c, w, events) && Whole(c, w, events)
    ensures WatchRun(c, w, events) == EveryPair(w, Seen(c, events))
    decreases |events|
  {
    hide Step, Looks, Look, CString, Sniffers.Consume, NewBytes, Sniffers.Traceless, Sniffers.Unread;
    if events != [] && Step(c, events[0]).Next? {
      var ev, d := events[0], Step(c, events[0]).conn;
      var fed, w' := NewBytes(c, ev), Watched(c, w, ev);
      if Looks(c, ev) {
        HarmlessLook(c, w, ev);
        LookIsWholeExactly(w, fed);
        LookKeepsOrder(w, fed);
      } else {
        NothingNew(c, ev);
      }
      EveryPairConcat(w, fed, Seen(d, events[1..]));
      EveryPairIsLogged(d, w', events[1..]);
    }
  }

  lemma LookKeepsOrder(w: Watch, s: seq<byte>)
    requires w.parser.InOrder() && !w.parser.passComplete
    ensures Look(w, s).parser.InOrder() && !Look(w, s).parser.passComplete
  {
    hide Sniffers.Consume, CString;
    Sniffers.ConsumeInOrder(w.parser, s);
  }

  // ---------------------------------------------------------------------------
  // The exact condition
  // ---------------------------------------------------------------------------

  /** What the sniffer makes of a read is what it makes of the bytes that this read brought. */
  predicate LooksRight(c: Conn, w: Watch, env: Env, incoming: Incoming)
    requires c.Valid()
  {
    var ev := Event(Readable(ClientSide), env.(incoming := incoming));
    Looks(c, ev) ==> Watched(c, w, ev) == Look(w, NewBytes(c, ev))
  }

  /**
   * Where the sniffer can look: it sees just the new bytes, whatever single byte arrives, if
   * and only if the bytes still in the request buffer leave the parser as it is; and then it
   * does so whatever the read meets. At the start of a line these are the whole lines that do
   * not begin like the awaited keyword.
   */
  lemma LookIsRightExactly(c: Conn, w: Watch, ev: Event)
    requires c.Valid() && Looks(c, ev) && w.parser.InOrder() && !w.parser.passComplete
    ensures (forall b: byte :: LooksRight(c, w, ev.env, Arrived([b])))
       <==> Sniffers.Consume(w.parser, c.originBuf.contents) == w.parser
    ensures Sniffers.Consume(w.parser, c.originBuf.contents) == w.parser ==>
              forall incoming: Incoming :: LooksRight(c, w, ev.env, incoming)
    ensures w.parser.Fresh() || w.parser.HasUser() ==>
              (Sniffers.Consume(w.parser, c.originBuf.contents) == w.parser
               <==> Sniffers.Traceless(c.originBuf.contents, Sniffers.AwaitedKeyword(w.parser)))
  {
    hide Sniffers.Consume, Looks, CString, Sniffers.Traceless;
    if Sniffers.Consume(w.parser, c.originBuf.contents) == w.parser {
      forall incoming: Incoming
        ensures LooksRight(c, w, ev.env, incoming)
      {
        var ev' := Event(Readable(ClientSide), ev.env.(incoming := incoming));
        if Looks(c, ev') { HarmlessLook(c, w, ev'); }
      }
    } else {
      var b := ResniffShows(c, w, ev);
    }
    if w.parser.Fresh() || w.parser.HasUser() {
      Sniffers.TracelessExactly(w.parser, c.originBuf.contents);
    }
  }

  /** A byte behind other bytes shows that they were sniffed again. */
  lemma ResniffShows(c: Conn, w: Watch, ev: Event) returns (b: byte)
    requires c.Valid() && Looks(c, ev) && w.parser.InOrder() && !w.parser.passComplete
    requires Sniffers.Consume(w.parser, c.originBuf.contents) != w.parser
    ensures !LooksRight(c, w, ev.env, Arrived([b]))
  {
    hide Sniffers.Consume, Sniffers.Feed, CString, Telling;
    var p, left := w.parser, c.originBuf.contents;
    var q := Sniffers.Consume(p, left);
    OneByteShows(p, left);
    b := if q.passComplete then BANG else Telling(p, q);
    var arrival := Event(Readable(ClientSide), ev.env.(incoming := Arrived([b])));
    assert Looks(c, arrival) && NewBytes(c, arrival) == [b];
    Sniffers.ConsumeConcat(p, left, [b]);
    Sniffers.ConsumeInOrder(p, left);
    Sniffers.ConsumeInOrder(p, [b]);
    Sniffers.ConsumeInOrder(q, [b]);
    Sniffers.ConsumeLast(p, b);
    if q.passComplete {
      Sniffers.ConsumeStops(q, [b]);
    } else {
      Sniffers.ConsumeLast(q, b);
    }
    LooksDiffer(w, left + [b], [b]);
  }

  /** Passes that come to different ends are seen as different. */
  lemma LooksDiffer(w: Watch, a: seq<byte>, b: seq<byte>)
    requires var q, r := Sniffers.Consume(w.parser, a), Sniffers.Consume(w.parser, b);
             q.InOrder() && r.InOrder() && q != r && !(q.passComplete && r.passComplete)
    ensures Look(w, a) != Look(w, b)
  {
    hide Sniffers.Consume, CString;
  }

  // ---------------------------------------------------------------------------
  // What is seen is what is read
  // ---------------------------------------------------------------------------

  predicate SwitchedOn(events: seq<Event>) {
    forall i :: 0 <= i < |events| ==> events[i].env.dissector
  }

  lemma CloseReadsNothing(c: Conn, asked: Ends)
    requires c.Valid()
    ensures CloseClient(c, asked).conn.h.readClient == c.h.readClient
  {
    hide CloseClient, EnableWrite;
    CloseClientClosedForm(c, asked);
  }

  lemma ProxyReadReads(c: Conn, side: Side, env: Env)
    requires c.Valid() && env.dissector
    ensures var r := HandleProxyRead(c, side, env);
            var fed := if side == ClientSide && Shown(c.originBuf, env)
                       then ReceivedBytes(c.originBuf, env.incoming) else [];
            r.Next? && r.conn.h.readClient == c.h.readClient + fed
  {
    hide CloseClient, ReadFrom;
    CloseReadsNothing(ReceiveFromClient(c, env.incoming), CLIENT_READ);
    CloseReadsNothing(ReceiveFromOrigin(c, env.incoming), ORIGIN_READ);
    assert c.h.readClient + [] == c.h.readClient;
  }

  lemma SendReadsNothing(c: Conn, side: Side, out: Outgoing)
    requires c.Valid()
    ensures Send(c, side, out).h.readClient == c.h.readClient
  {
    hide WriteOut, Accounted;
    var d := WriteOut(c, side, out);
    WriteReadsNothing(c, side, out);
    AccountReadsNothing(d.h, c.clientBuf, out);
    AccountReadsNothing(d.h, c.originBuf, out);
  }

  lemma WriteReadsNothing(c: Conn, side: Side, out: Outgoing)
    requires c.Valid()
    ensures WriteOut(c, side, out).h.readClient == c.h.readClient
  {
    hide WriteTo, SentBytes;
  }

  lemma AccountReadsNothing(h: History, b: Buf, out: Outgoing)
    requires b.Valid()
    ensures Accounted(h, b, out).readClient == h.readClient
  {
    hide SentBytes, BytesLeft;
  }

  lemma FailureReadsNothing(c: Conn)
    requires c.Valid()
    ensures CloseClient(c.(h := c.h.(clientFailed := true)), CLIENT_WRITE).conn.h.readClient == c.h.readClient
    ensures CloseClient(c.(h := c.h.(originFailed := true)), ORIGIN_WRITE).conn.h.readClient == c.h.readClient
  {
    hide CloseClient;
    CloseReadsNothing(c.(h := c.h.(clientFailed := true)), CLIENT_WRITE);
    CloseReadsNothing(c.(h := c.h.(originFailed := true)), ORIGIN_WRITE);
  }

  lemma ProxyWriteReads(c: Conn, side: Side, env: Env)
    requires c.Valid()
    ensures var r := HandleProxyWrite(c, side, env); r.Next? && r.conn.h.readClient == c.h.readClient
  {
    hide CloseClient, Send, Changed;
    CloseReadsNothing(c, CLIENT_WRITE);
    CloseReadsNothing(c, ORIGIN_WRITE);
    SendReadsNothing(c, side, env.outgoing);
    FailureReadsNothing(Send(c, side, env.outgoing));
  }

  lemma JumpReadsNothing(c: Conn, next: State)
    requires c.Valid()
    ensures Jump(c, next).h == c.h
  {
    hide EnableWrite;
  }

  /** Once connected, the client is only read from by the relay, and the sniffer sees all of it. */
  lemma StepReads(c: Conn, ev: Event)
    requires Inv(c) && c.h.connected && ev.env.dissector
    ensures c.Valid()
    ensures var r := Step(c, ev);
            r.Next? && r.conn.h.connected && r.conn.h.readClient == c.h.readClient + NewBytes(c, ev)
  {
    hide Inv, Dispatched, Jump, HandleProxyRead, HandleProxyWrite, Shown, ReceivedBytes;
    InvIsValid(c);
    StepFollows(c, ev);
    assert c.h.readClient + [] == c.h.readClient;
    if Dispatched(c, ev.kind) {
      ConnectedStates(c, ev.kind);
      match ev.kind
      case Readable(side) =>
        ProxyReadReads(c, side, ev.env);
        var r := HandleProxyRead(c, side, ev.env);
        JumpReadsNothing(r.conn, r.state);
      case Writable(side) =>
        ProxyWriteReads(c, side, ev.env);
        var r := HandleProxyWrite(c, side, ev.env);
        JumpReadsNothing(r.conn, r.state);
    }
  }

  lemma {:induction false} SeenIsRead(c: Conn, events: seq<Event>)
    requires Inv(c) && c.h.connected && SwitchedOn(events)
    ensures c.Valid()
    ensures var r := Run(c, events); r.Next? && r.conn.h.readClient == c.h.readClient + Seen(c, events)
    decreases |events|
  {
    hide Inv, Step, NewBytes;
    InvIsValid(c);
    if events == [] {
      assert c.h.readClient + [] == c.h.readClient;
    } else {
      assert events[0].env.dissector;
      StepReads(c, events[0]);
      StepKeeps(c, events[0]);
      var d := Step(c, events[0]).conn;
      SeenIsRead(d, events[1..]);
      Associate(c.h.readClient, NewBytes(c, events[0]), Seen(d, events[1..]));
    }
  }

  // ---------------------------------------------------------------------------
  // A login that is relayed
  // ---------------------------------------------------------------------------

  /** Bytes that spell a word of small letters and a blank, each letter in either case. */
  predicate Cased(s: seq<byte>, word: seq<byte>) {
    |s| == |word| &&
    forall i :: 0 <= i < |s| ==> s[i] == word[i] || (0x61 <= word[i] <= 0x7A && s[i] == word[i] - 32)
  }

  /** Lines that do not begin with a certain letter, in either case. */
  predicate OtherLines(lines: seq<seq<byte>>, letter: byte) {
    forall l :: l in lines ==> 0x0A !in l && (l == [] || (l[0] != letter && l[0] != letter - 32))
  }

  function AllLines(lines: seq<seq<byte>>): seq<byte> {
    if lines == [] then [] else lines[0] + [0x0A] + AllLines(lines[1..])
  }

  lemma {:induction false} AllLinesAre(lines: seq<seq<byte>>)
    ensures AllLines(lines) == Sniffers.Lines(lines)
    decreases |lines|
  {
    if lines != [] { AllLinesAre(lines[1..]); }
  }

  /** The same in the parser's own terms. */
  lemma LoginIs(l: Login)
    requires l.Valid()
    ensures Sniffers.Skippable(l.before, Sniffers.USER_STR) && Sniffers.Skippable(l.between, Sniffers.PASS_STR)
    ensures Sniffers.Matches(l.userKeyword, Sniffers.USER_STR) && Sniffers.Matches(l.passKeyword, Sniffers.PASS_STR)
    ensures AllLines(l.before) == Sniffers.Lines(l.before) && AllLines(l.between) == Sniffers.Lines(l.between)
  {
    hide Sniffers.Matches, Sniffers.Skippable, Cased, OtherLines, Sniffers.Lines, AllLines;
    AllLinesAre(l.before);
    AllLinesAre(l.between);
    OthersSkip(l.before, 0x75, Sniffers.USER_STR);
    OthersSkip(l.between, 0x70, Sniffers.PASS_STR);
    CasedMatches(l.userKeyword, [0x75, 0x73, 0x65, 0x72, 0x20], Sniffers.USER_STR);
    CasedMatches(l.passKeyword, [0x70, 0x61, 0x73, 0x73, 0x20], Sniffers.PASS_STR);
  }

  lemma OthersSkip(lines: seq<seq<byte>>, letter: byte, keyword: seq<byte>)
    requires OtherLines(lines, letter) && keyword != [] && Lower(keyword[0]) == letter && 0x61 <= letter <= 0x7A
    ensures Sniffers.Skippable(lines, keyword)
  {
  }

  lemma CasedMatches(s: seq<byte>, word: seq<byte>, keyword: seq<byte>)
    requires Cased(s, word) && |word| == |keyword| && forall i :: 0 <= i < |word| ==> Lower(keyword[i]) == word[i]
    ensures Sniffers.Matches(s, keyword)
  {
    forall i | 0 <= i < |s|
      ensures Lower(s[i]) == Lower(keyword[i])
    {
      assert Lower(keyword[i]) == word[i];
    }
  }

  /** All that a POP3 client sends, up to its password and beyond. */
  datatype Login = Login(
    before: seq<seq<byte>>, userKeyword: seq<byte>, user: seq<byte>,
    between: seq<seq<byte>>, passKeyword: seq<byte>, pass: seq<byte>, rest: seq<byte>
  ) {
    /** The other lines do not begin like the awaited keyword; the arguments have at most 39 bytes. */
    predicate Valid() {
      && OtherLines(before, 0x75) && OtherLines(between, 0x70)
      && Cased(userKeyword, [0x75, 0x73, 0x65, 0x72, 0x20]) && Cased(passKeyword, [0x70, 0x61, 0x73, 0x73, 0x20])
      && 0x0A !in user && 0x0A !in pass && |user| <= 39 && |pass| <= 39
    }

    function Bytes(): seq<byte> {
      AllLines(before) + (userKeyword + user + [0x0A]) + AllLines(between) + (passKeyword + pass + [0x0A]) + rest
    }
  }

  lemma OnePassFinds(w: Watch, l: Login, r: Watch)
    requires w.parser.Fresh() && l.Valid() && OnePass(w, l.Bytes(), r)
    ensures w.logged + [Pair(CString(l.user), CString(l.pass))] <= r.logged
  {
    hide CString, Sniffers.Consume, Sniffers.Unread;
    LookFinds(w, l);
  }

  /**
   * From any connection with a fresh parser: if the client sends a login, cut in any way,
   * and what the sniffer finds left in the request buffer is always harmless, that login is
   * the next one logged.
   */
  lemma LoginIsLogged(c: Conn, w: Watch, events: seq<Event>, l: Login)
    requires Inv(c) && c.h.connected && w.parser.Fresh() && l.Valid() && SwitchedOn(events)
    requires c.Valid() && Harmless(c, w, events) && Run(c, events).Next?
    requires Run(c, events).conn.h.readClient == c.h.readClient + l.Bytes()
    ensures w.logged + [Pair(CString(l.user), CString(l.pass))] <= WatchRun(c, w, events).logged
  {
    hide Inv, Run, CString, Sniffers.Consume, Harmless, WatchRun, OnePass, Seen;
    SniffingIsOnePass(c, w, events);
    SeenIsRead(c, events);
    SameRest(c.h.readClient, Seen(c, events), l.Bytes());
    OnePassFinds(w, l, WatchRun(c, w, events));
  }

  lemma SameRest(a: seq<byte>, b: seq<byte>, c: seq<byte>)
    requires a + b == a + c
    ensures b == c
  {
    assert b == (a + b)[|a|..] && c == (a + c)[|a|..];
  }

  // ---------------------------------------------------------------------------
  // A login that is lost
  // ---------------------------------------------------------------------------

  /** A look at a login, whatever follows it. */
  lemma LookFinds(w: Watch, l: Login)
    requires w.parser.Fresh() && l.Valid()
    ensures Look(w, l.Bytes()).logged == w.logged + [Pair(CString(l.user), CString(l.pass))]
    ensures Look(w, l.Bytes()).parser.Fresh() && Sniffers.Unread(w.parser, l.Bytes()) == l.rest
  {
    hide CString, Sniffers.Consume, Sniffers.Unread, Sniffers.Lines, AllLines;
    LoginIs(l);
    Sniffers.SniffsCredentials(w.parser, l.before, l.userKeyword, l.user, l.between, l.passKeyword, l.pass, l.rest);
    var q := Sniffers.Consume(w.parser, l.Bytes());
    Sniffers.CapturedString(q.user, l.user);
    Sniffers.CapturedString(q.pass, l.pass);
  }

  /** A second login in the same segment as the first is not logged, although it is complete. */
  lemma SecondLoginIsLost(p: Parser, l: Login, m: Login) returns (c: Conn)
    requires p.Fresh() && l.Valid() && m.Valid() && l.rest == m.Bytes() && |l.Bytes()| <= MIN_BUFFSIZE
    ensures Reachable(c) && c.Valid() && c.State() == PROXY && c.h.tried == [POP3_SERVER]
    ensures var w, events := Watch(p, []), [Chunk(l.Bytes())];
            && Seen(c, events) == l.Bytes()
            && WatchRun(c, w, events).logged == [Pair(CString(l.user), CString(l.pass))]
            && [Pair(CString(l.user), CString(l.pass)), Pair(CString(m.user), CString(m.pass))]
               <= EveryPair(w, l.Bytes()).logged
  {
    hide Inv, Step, Reachable, Look, Seen, WatchRun, EveryPair, CString, Sniffers.Consume, Sniffers.Unread;
    c := ReachesPop3Server();
    ReachableInv(c);
    EmptyIsRewound(c);
    var w := Watch(p, []);
    LookFinds(w, l);
    assert l.Bytes() != [] by { Sniffers.ConsumeNothing(p); LookOfNothing(w); }
    RelayRead(c, l.Bytes());
    OneEvent(c, w, Chunk(l.Bytes()));
    assert [] + l.Bytes() == l.Bytes();
    var w1 := Look(w, l.Bytes());
    LookThenEveryPair(w, l.Bytes());
    LookFinds(w1, m);
    LookThenEveryPair(w1, m.Bytes());
    EveryPairGrows(Look(w1, m.Bytes()), m.rest);
  }

  lemma LookOfNothing(w: Watch)
    requires !w.parser.passComplete
    ensures Look(w, []) == w
  {
  }

  lemma OneEvent(c: Conn, w: Watch, ev: Event)
    requires c.Valid() && Step(c, ev).Next?
    ensures Seen(c, [ev]) == NewBytes(c, ev) && WatchRun(c, w, [ev]) == Watched(c, w, ev)
  {
    hide Step, NewBytes, Watched;
    assert [ev][1..] == [];
    assert Seen(c, [ev]) == NewBytes(c, ev) + [];
  }

  // ---------------------------------------------------------------------------
  // A login that is corrupted
  // ---------------------------------------------------------------------------

  const FIRST: seq<byte> := [0x55, 0x53, 0x45, 0x52, 0x20, 0x61]                         // "USER a"
  const SECOND: seq<byte> := [0x62, 0x0A, 0x50, 0x41, 0x53, 0x53, 0x20, 0x63, 0x0A]      // "b", "PASS c"

  /** The first part is still in the buffer when the second arrives. */
  lemma SecondLook(p: Parser)
    requires p.Fresh()
    ensures var w := Look(Watch(p, []), FIRST);
            && Look(w, FIRST + SECOND).logged == [Pair([0x61] + FIRST + [0x62], [0x63])]
            && Look(Watch(p, []), FIRST + SECOND).logged == [Pair([0x61, 0x62], [0x63])]
  {
    hide Sniffers.Consume;
    Sniffers.OverlappingWindowsCorrupt(p);
    var line := Sniffers.PASS_STR + [0x63] + [Sniffers.NEWLINE];
    var whole := FIRST + [0x62, Sniffers.NEWLINE];
    assert FIRST == Sniffers.USER_STR + [0x61];
    assert [0x61] + Sniffers.USER_STR + [0x61, 0x62] == [0x61] + FIRST + [0x62];
    assert FIRST + SECOND == whole + line;
    var m := Sniffers.Filled(p, Sniffers.USER_STR, [0x61]);
    Sniffers.ConsumeConcat(m, whole, line);
    Sniffers.ConsumeConcat(p, whole, line);
    var once, twice := Sniffers.Consume(p, whole), Sniffers.Consume(m, whole);
    Sniffers.CapturePass(once, Sniffers.PASS_STR, [0x63]);
    Sniffers.CapturePass(twice, Sniffers.PASS_STR, [0x63]);
    Sniffers.PrefixCString(Sniffers.Consume(once, line).pass, [0x63]);
    Sniffers.PrefixCString(Sniffers.Consume(twice, line).pass, [0x63]);
  }

  lemma TwoEvents(c: Conn, w: Watch, first: Event, second: Event)
    requires c.Valid() && Step(c, first).Next? && Step(Step(c, first).conn, second).Next?
    ensures var d := Step(c, first).conn;
            && Seen(c, [first, second]) == NewBytes(c, first) + NewBytes(d, second)
            && WatchRun(c, w, [first, second]) == Watched(d, Watched(c, w, first), second)
  {
    hide Step, NewBytes, Watched;
    var d, events := Step(c, first).conn, [first, second];
    assert events[1..] == [second] && [second][1..] == [];
    assert Seen(d, [second]) == NewBytes(d, second) + [];
    assert WatchRun(d, Watched(c, w, first), [second]) == Watched(d, Watched(c, w, first), second);
  }

  /**
   * A client that sends a login in two parts, with no write to the origin in between: the
   * user name that is logged is not the one that was sent.
   */
  lemma SniffingIsCorrupted(p: Parser) returns (c: Conn)
    requires p.Fresh()
    ensures Reachable(c) && c.Valid() && c.State() == PROXY && c.h.tried == [POP3_SERVER]
    ensures var events := [Chunk(FIRST), Chunk(SECOND)];
            && Seen(c, events) == FIRST + SECOND
            && WatchRun(c, Watch(p, []), events).logged == [Pair([0x61] + FIRST + [0x62], [0x63])]
            && Look(Watch(p, []), Seen(c, events)).logged == [Pair([0x61, 0x62], [0x63])]
  {
    hide Inv, Step, Reachable, Look, Seen, WatchRun;
    c := ReachesPop3Server();
    ReachableInv(c);
    EmptyIsRewound(c);
    RelayRead(c, FIRST);
    StepKeeps(c, Chunk(FIRST));
    var d := Step(c, Chunk(FIRST)).conn;
    RelayRead(d, SECOND);
    var w := Look(Watch(p, []), FIRST);
    TwoEvents(c, Watch(p, []), Chunk(FIRST), Chunk(SECOND));
    assert [] + FIRST == FIRST;
    assert Watched(c, Watch(p, []), Chunk(FIRST)) == w;
    assert Watched(d, w, Chunk(SECOND)) == Look(w, FIRST + SECOND);
    SecondLook(p);
  }
}
