/** The POP3 credential sniffer of src/pop3_sniffer.c (USER and PASS of RFC 1939, section 7). */
module Sniffers {
  import opened Common
  import opened Buffers

  const MAX_CREDENTIALS_LEN: nat := 40
  const NEWLINE: byte := 0x0A
  const USER_STR: seq<byte> := [0x55, 0x53, 0x45, 0x52, 0x20]  // "USER "
  const PASS_STR: seq<byte> := [0x50, 0x41, 0x53, 0x53, 0x20]  // "PASS "

  datatype PopState = UserCmd | FillUser | PassCmd | FillPass | UnknownCmd

  /** The parser; `user` and `pass` are the whole arrays. */
  datatype Parser = Parser(
    state: PopState, userComplete: bool, passComplete: bool,
    user: seq<byte>, pass: seq<byte>, readPtr: nat, writePtr: nat
  ) {
    /** Both cursors stay inside the strings and arrays they index. */
    predicate Valid() {
      && |user| == MAX_CREDENTIALS_LEN && |pass| == MAX_CREDENTIALS_LEN
      && readPtr < |USER_STR| && writePtr < MAX_CREDENTIALS_LEN
    }

    /** PASS is looked for only after a USER line. */
    predicate InOrder() {
      state == PassCmd || state == FillPass || passComplete ==> userComplete
    }

    /** Waiting for a line that starts with USER. */
    predicate Fresh() {
      Valid() && state == UserCmd && !userComplete && !passComplete && readPtr == 0 && writePtr == 0
    }

    /** Waiting for a line that starts with PASS. */
    predicate HasUser() {
      Valid() && state == PassCmd && userComplete && !passComplete && readPtr == 0 && writePtr == 0
    }

    /** Waiting for a USER line with no room for an argument. */
    predicate StuckOnUser() {
      && Valid() && state == UserCmd && !userComplete && !passComplete && readPtr == 0
      && writePtr == MAX_CREDENTIALS_LEN - 1
    }

    /** Waiting for a PASS line with no room for an argument. */
    predicate StuckOnPass() {
      && Valid() && state == PassCmd && userComplete && !passComplete && readPtr == 0
      && writePtr == MAX_CREDENTIALS_LEN - 1
    }
  }

  /** What init_parser makes of zeroed memory. */
  const NEW_PARSER: Parser :=
    Parser(UserCmd, false, false, seq(MAX_CREDENTIALS_LEN, _ => 0), seq(MAX_CREDENTIALS_LEN, _ => 0), 0, 0)

  function Restart(p: Parser): Parser {
    p.(state := UserCmd, readPtr := 0, writePtr := 0, passComplete := false, userComplete := false)
  }

  function UnknownNext(p: Parser, c: byte): PopState {
    if c == NEWLINE then (if p.userComplete then PassCmd else UserCmd) else UnknownCmd
  }

  /** A character of a keyword; a mismatch leaves the cursor where it was. */
  function Keyword(p: Parser, c: byte, keyword: seq<byte>, again: PopState, full: PopState): (q: Parser)
    requires p.Valid() && |keyword| == |USER_STR|
    ensures q.Valid()
  {
    if Lower(c) == Lower(keyword[p.readPtr]) then
      if p.readPtr + 1 == |keyword| then p.(readPtr := 0, state := full)
      else p.(readPtr := p.readPtr + 1, state := again)
    else p.(state := UnknownNext(p, c))
  }

  /** One byte through the automaton. */
  function Feed(p: Parser, c: byte): (q: Parser)
    requires p.Valid()
    ensures q.Valid()
  {
    match p.state
    case UserCmd => Keyword(p, c, USER_STR, UserCmd, FillUser)
    case PassCmd => Keyword(p, c, PASS_STR, PassCmd, FillPass)
    case UnknownCmd => p.(state := UnknownNext(p, c))
    case FillUser =>
      if c == NEWLINE then p.(user := p.user[p.writePtr := 0], writePtr := 0, userComplete := true, state := PassCmd)
      else if p.writePtr + 1 == MAX_CREDENTIALS_LEN then p.(state := UnknownCmd)
      else p.(user := p.user[p.writePtr := c], writePtr := p.writePtr + 1)
    case FillPass =>
      if c == NEWLINE then p.(pass := p.pass[p.writePtr := 0], writePtr := 0, passComplete := true, state := PassCmd)
      else if p.writePtr + 1 == MAX_CREDENTIALS_LEN then p.(state := UnknownCmd)
      else p.(pass := p.pass[p.writePtr := c], writePtr := p.writePtr + 1)
  }

  /** pop3_consume: stops at the end of the input or at a complete pair. */
  function Consume(p: Parser, s: seq<byte>): (q: Parser)
    requires p.Valid()
    ensures q.Valid()
    decreases |s|
  {
    if s == [] || p.passComplete then p else Consume(Feed(p, s[0]), s[1..])
  }

  // ---------------------------------------------------------------------------
  // Chunks
  // ---------------------------------------------------------------------------

  /** What pop3_consume leaves: whatever follows a complete pair. */
  function Unread(p: Parser, s: seq<byte>): (r: seq<byte>)
    requires p.Valid()
    decreases |s|
  {
    if s == [] || p.passComplete then s else Unread(Feed(p, s[0]), s[1..])
  }

  lemma {:induction false} UnreadConcat(p: Parser, a: seq<byte>, b: seq<byte>)
    requires p.Valid() && !Consume(p, a).passComplete
    ensures Unread(p, a + b) == Unread(Consume(p, a), b)
    decreases |a|
  {
    hide Feed;
    if a == [] {
      assert a + b == b;
    } else {
      assert (a + b)[1..] == a[1..] + b;
      UnreadConcat(Feed(p, a[0]), a[1..], b);
    }
  }

  /** The byte that completes a pair is the last one read. */
  lemma UnreadAfter(p: Parser, a: seq<byte>, c: byte, rest: seq<byte>)
    requires p.Valid() && !Consume(p, a).passComplete && Feed(Consume(p, a), c).passComplete
    ensures Unread(p, a + [c] + rest) == rest
  {
    hide Consume, Feed;
    Associate(a, [c], rest);
    UnreadConcat(p, a, [c] + rest);
    assert ([c] + rest)[1..] == rest;
  }

  /** Consecutive chunks are the same as one pass over their concatenation. */
  lemma {:induction false} ConsumeConcat(p: Parser, a: seq<byte>, b: seq<byte>)
    requires p.Valid()
    ensures Consume(p, a + b) == Consume(Consume(p, a), b)
    decreases |a|
  {
    if a == [] {
      assert a + b == b;
    } else if !p.passComplete {
      assert (a + b)[1..] == a[1..] + b;
      ConsumeConcat(Feed(p, a[0]), a[1..], b);
    }
  }

  lemma ConsumeStops(p: Parser, s: seq<byte>)
    requires p.Valid() && p.passComplete
    ensures Consume(p, s) == p
  {
  }

  lemma {:induction false} ConsumeInOrder(p: Parser, s: seq<byte>)
    requires p.Valid() && p.InOrder()
    ensures Consume(p, s).InOrder()
    decreases |s|
  {
    if s != [] && !p.passComplete {
      ConsumeInOrder(Feed(p, s[0]), s[1..]);
    }
  }

  /**
   * But a window that still holds bytes of the previous one is sniffed again from its
   * start: "USER a" followed by "USER ab" and a line end yields "aUSER ab".
   */
  lemma OverlappingWindowsCorrupt(p: Parser)
    requires p.Fresh()
    ensures var a := USER_STR + [0x61];
            var whole := a + [0x62, NEWLINE];
            && Consume(p, whole).HasUser() && CString(Consume(p, whole).user) == [0x61, 0x62]
            && Consume(Consume(p, a), whole).HasUser()
            && CString(Consume(Consume(p, a), whole).user) == [0x61] + USER_STR + [0x61, 0x62]
  {
    var a := USER_STR + [0x61];
    var whole := a + [0x62, NEWLINE];
    var q := Filled(p, USER_STR, [0x61]);
    CaptureUser(p, USER_STR, [0x61, 0x62]);
    assert whole == USER_STR + [0x61, 0x62] + [NEWLINE];
    var rest := USER_STR + [0x61, 0x62];
    assert 0 !in rest && NEWLINE !in rest;
    FillUserLine(q, rest);
    assert whole == rest + [NEWLINE];
    var got := Consume(q, whole).user;
    assert got[..9] == [0x61] + rest + [0];
    PrefixCString(got, [0x61] + rest);
    PrefixCString(Consume(p, whole).user, [0x61, 0x62]);
    assert [0x61] + rest == [0x61] + USER_STR + [0x61, 0x62];
  }

  /** What a terminated argument reads as. */
  lemma CapturedString(s: seq<byte>, t: seq<byte>)
    requires |t| < |s| && s[..|t|] == t && s[|t|] == 0
    ensures CString(s) == CString(t)
  {
    assert s == t + [0] + s[|t| + 1..];
    CStringStops(t, s[|t| + 1..]);
  }

  lemma PrefixCString(s: seq<byte>, t: seq<byte>)
    requires |t| < |s| && s[..|t|] == t && s[|t|] == 0 && 0 !in t
    ensures CString(s) == t
  {
    assert s == t + [0] + s[|t| + 1..];
    CStringOfPlain(t, s[|t| + 1..]);
  }

  // ---------------------------------------------------------------------------
  // Skipped lines
  // ---------------------------------------------------------------------------

  lemma {:induction false} UnknownLine(p: Parser, line: seq<byte>)
    requires p.Valid() && p.state == UnknownCmd && !p.passComplete && NEWLINE !in line
    ensures Consume(p, line + [NEWLINE]) == p.(state := if p.userComplete then PassCmd else UserCmd)
    decreases |line|
  {
    var s := line + [NEWLINE];
    if line == [] {
      assert s[1..] == [];
    } else {
      assert s[0] == line[0] && line[0] in line;
      assert s[1..] == line[1..] + [NEWLINE];
      UnknownLine(p, line[1..]);
    }
  }

  /** What a line that began like the keyword leaves behind for good. */
  predicate Tainted(p: Parser) {
    && (p.readPtr > 0 || p.writePtr > 0 || p.userComplete || p.state == FillUser)
    && (p.state == PassCmd || p.state == FillPass ==> p.userComplete)
  }

  lemma {:induction false} TaintStays(p: Parser, s: seq<byte>)
    requires p.Valid() && Tainted(p)
    ensures Tainted(Consume(p, s))
    decreases |s|
  {
    if s != [] && !p.passComplete {
      TaintStays(Feed(p, s[0]), s[1..]);
    }
  }

  /**
   * A line is skipped without a trace exactly when it does not begin with the first
   * letter of USER, in either case.
   */
  lemma SkippedExactly(p: Parser, line: seq<byte>)
    requires p.Fresh() && NEWLINE !in line
    ensures Consume(p, line + [NEWLINE]) == p <==> line == [] || Lower(line[0]) != Lower(USER_STR[0])
  {
    var s := line + [NEWLINE];
    if line == [] {
      assert s[1..] == [];
    } else {
      assert s[0] == line[0] && line[0] in line;
      assert s[1..] == line[1..] + [NEWLINE];
      if Lower(line[0]) != Lower(USER_STR[0]) {
        UnknownLine(p.(state := UnknownCmd), line[1..]);
      } else {
        TaintStays(Feed(p, s[0]), s[1..]);
      }
    }
  }

  /** The same trace while waiting for PASS. */
  predicate TaintedPass(p: Parser) {
    && (p.readPtr > 0 || p.writePtr > 0 || p.passComplete || p.state == FillPass)
    && p.state != UserCmd && p.state != FillUser && p.userComplete
  }

  lemma {:induction false} TaintedPassStays(p: Parser, s: seq<byte>)
    requires p.Valid() && TaintedPass(p)
    ensures TaintedPass(Consume(p, s))
    decreases |s|
  {
    if s != [] && !p.passComplete {
      TaintedPassStays(Feed(p, s[0]), s[1..]);
    }
  }

  /** And while waiting for PASS, exactly the lines that do not begin with its first letter. */
  lemma SkippedBeforePass(p: Parser, line: seq<byte>)
    requires p.HasUser() && NEWLINE !in line
    ensures Consume(p, line + [NEWLINE]) == p <==> line == [] || Lower(line[0]) != Lower(PASS_STR[0])
  {
    var s := line + [NEWLINE];
    if line == [] {
      assert s[1..] == [];
    } else {
      assert s[0] == line[0] && line[0] in line;
      assert s[1..] == line[1..] + [NEWLINE];
      if Lower(line[0]) != Lower(PASS_STR[0]) {
        UnknownLine(p.(state := UnknownCmd), line[1..]);
      } else {
        TaintedPassStays(Feed(p, s[0]), s[1..]);
      }
    }
  }

  // ---------------------------------------------------------------------------
  // Bytes that are sniffed twice
  // ---------------------------------------------------------------------------

  predicate LineStart(s: seq<byte>, i: nat) {
    i < |s| && (i == 0 || s[i - 1] == NEWLINE)
  }

  /** Whole lines, none of which begins with the first letter of the keyword. */
  predicate Traceless(s: seq<byte>, keyword: seq<byte>)
    requires keyword != []
  {
    && (s == [] || s[|s| - 1] == NEWLINE)
    && forall i :: 0 <= i < |s| && LineStart(s, i) ==> Lower(s[i]) != Lower(keyword[0])
  }

  lemma FirstLine(s: seq<byte>) returns (line: seq<byte>, rest: seq<byte>)
    requires NEWLINE in s
    ensures NEWLINE !in line && s == line + [NEWLINE] + rest
  {
    var n: nat := 0;
    while s[n] != NEWLINE
      invariant n < |s| && NEWLINE in s[n..] && NEWLINE !in s[..n]
      decreases |s| - n
    {
      assert s[n..] == [s[n]] + s[n + 1..];
      n := n + 1;
    }
    line, rest := s[..n], s[n + 1..];
  }

  lemma LineStarts(line: seq<byte>, rest: seq<byte>, i: nat)
    requires NEWLINE !in line
    ensures var s := line + [NEWLINE] + rest;
            LineStart(s, i) <==> i == 0 || (i > |line| && LineStart(rest, i - |line| - 1))
  {
    var s, n := line + [NEWLINE] + rest, |line| + 1;
    if 0 < i < n {
      assert s[i - 1] == line[i - 1] && line[i - 1] in line;
    } else if n < i < |s| {
      assert s[i - 1] == rest[i - 1 - n];
    }
  }

  lemma TracelessLine(line: seq<byte>, rest: seq<byte>, keyword: seq<byte>)
    requires NEWLINE !in line && keyword != [] && Lower(keyword[0]) != NEWLINE
    ensures Traceless(line + [NEWLINE] + rest, keyword)
       <==> (line == [] || Lower(line[0]) != Lower(keyword[0])) && Traceless(rest, keyword)
  {
    hide Lower, LineStart;
    var s, n := line + [NEWLINE] + rest, |line| + 1;
    assert Lower(NEWLINE) == NEWLINE by { LowerNewline(); }
    assert s[0] == if line == [] then NEWLINE else line[0];
    assert s[|s| - 1] == if rest == [] then NEWLINE else rest[|rest| - 1];
    LineStarts(line, rest, 0);
    forall i | 0 <= i < |rest|
      ensures LineStart(rest, i) ==> LineStart(s, n + i) && s[n + i] == rest[i]
    {
      LineStarts(line, rest, n + i);
    }
    forall i | 0 <= i < |s|
      ensures LineStart(s, i) ==> i == 0 || (i >= n && LineStart(rest, i - n) && s[i] == rest[i - n])
    {
      LineStarts(line, rest, i);
    }
  }

  lemma LowerNewline()
    ensures Lower(NEWLINE) == NEWLINE
  {
  }

  lemma {:induction false} UnknownPart(p: Parser, s: seq<byte>)
    requires p.Valid() && p.state == UnknownCmd && !p.passComplete && NEWLINE !in s
    ensures Consume(p, s) == p
    decreases |s|
  {
    if s != [] {
      assert s[0] in s;
      UnknownPart(p, s[1..]);
    }
  }

  /** What a parser that waits at the start of a line waits for. */
  function AwaitedKeyword(p: Parser): seq<byte> {
    if p.Fresh() then USER_STR else PASS_STR
  }

  /**
   * At the start of a line, exactly the traceless bytes leave the parser as it was: these
   * can be sniffed any number of times.
   */
  lemma {:induction false} TracelessExactly(p: Parser, s: seq<byte>)
    requires p.Fresh() || p.HasUser()
    ensures Consume(p, s) == p <==> Traceless(s, AwaitedKeyword(p))
    decreases |s|
  {
    if NEWLINE in s {
      var line, rest := FirstLine(s);
      ConsumeConcat(p, line + [NEWLINE], rest);
      TracelessLine(line, rest, AwaitedKeyword(p));
      if p.Fresh() { SkippedExactly(p, line); } else { SkippedBeforePass(p, line); }
      if Consume(p, line + [NEWLINE]) == p {
        TracelessExactly(p, rest);
      } else {
        TraceIsForGood(p, line, rest);
      }
    } else if s != [] {
      assert s[0] in s && s[|s| - 1] in s;
      if Lower(s[0]) != Lower(AwaitedKeyword(p)[0]) {
        assert NEWLINE !in s[1..];
        UnknownPart(p.(state := UnknownCmd), s[1..]);
      } else {
        KeywordLetterTaints(p, s);
      }
    }
  }

  lemma KeywordLetterTaints(p: Parser, s: seq<byte>)
    requires p.Fresh() || p.HasUser()
    requires s != [] && Lower(s[0]) == Lower(AwaitedKeyword(p)[0])
    ensures Consume(p, s) != p
  {
    hide Consume;
    ConsumeOne(p, s);
    if p.Fresh() { TaintStays(Feed(p, s[0]), s[1..]); } else { TaintedPassStays(Feed(p, s[0]), s[1..]); }
  }

  lemma ConsumeOne(p: Parser, s: seq<byte>)
    requires p.Valid() && s != [] && !p.passComplete
    ensures Consume(p, s) == Consume(Feed(p, s[0]), s[1..])
  {
  }

  lemma TraceIsForGood(p: Parser, line: seq<byte>, rest: seq<byte>)
    requires p.Fresh() || p.HasUser()
    requires NEWLINE !in line && Consume(p, line + [NEWLINE]) != p
    ensures line != [] && Lower(line[0]) == Lower(AwaitedKeyword(p)[0]) && Consume(p, line + [NEWLINE] + rest) != p
  {
    hide Consume;
    if p.Fresh() { SkippedExactly(p, line); } else { SkippedBeforePass(p, line); }
    KeywordLetterTaints(p, line + [NEWLINE] + rest);
  }

  /**
   * Bytes left over from an earlier window can be sniffed again before whatever comes next
   * if and only if they leave the parser as it is.
   */
  lemma ResniffedExactly(p: Parser, left: seq<byte>)
    requires p.Valid()
    ensures (forall more :: Consume(p, left + more) == Consume(p, more)) <==> Consume(p, left) == p
  {
    hide Consume;
    if Consume(p, left) == p {
      forall more
        ensures Consume(p, left + more) == Consume(p, more)
      {
        ConsumeConcat(p, left, more);
      }
    } else {
      assert left + [] == left;
      ConsumeNothing(p);
      assert Consume(p, left + []) != Consume(p, []);
    }
  }

  lemma ConsumeNothing(p: Parser)
    requires p.Valid()
    ensures Consume(p, []) == p
  {
  }

  function Lines(lines: seq<seq<byte>>): seq<byte> {
    if lines == [] then [] else lines[0] + [NEWLINE] + Lines(lines[1..])
  }

  predicate Skippable(lines: seq<seq<byte>>, keyword: seq<byte>)
    requires keyword != []
  {
    forall l :: l in lines ==> NEWLINE !in l && (l == [] || Lower(l[0]) != Lower(keyword[0]))
  }

  lemma {:induction false} SkippedLines(p: Parser, lines: seq<seq<byte>>)
    requires p.Fresh() || p.HasUser()
    requires Skippable(lines, if p.Fresh() then USER_STR else PASS_STR)
    ensures Consume(p, Lines(lines)) == p
    decreases |lines|
  {
    if lines != [] {
      assert lines[0] in lines;
      if p.Fresh() { SkippedExactly(p, lines[0]); } else { SkippedBeforePass(p, lines[0]); }
      ConsumeConcat(p, lines[0] + [NEWLINE], Lines(lines[1..]));
      SkippedLines(p, lines[1..]);
    }
  }

  // ---------------------------------------------------------------------------
  // Captured arguments
  // ---------------------------------------------------------------------------

  /** The keyword in any mixture of cases. */
  predicate Matches(s: seq<byte>, keyword: seq<byte>) {
    |s| == |keyword| && forall i :: 0 <= i < |s| ==> Lower(s[i]) == Lower(keyword[i])
  }

  lemma {:induction false} KeywordMatched(p: Parser, s: seq<byte>, n: nat)
    requires p.Valid() && !p.passComplete && (p.state == UserCmd || p.state == PassCmd)
    requires Matches(s, if p.state == UserCmd then USER_STR else PASS_STR)
    requires n <= |s| && p.readPtr == |s| - n && n > 0
    ensures Consume(p, s[|s| - n..]) == p.(readPtr := 0, state := if p.state == UserCmd then FillUser else FillPass)
    decreases n
  {
    var t := s[|s| - n..];
    assert t[0] == s[p.readPtr];
    assert t[1..] == s[|s| - (n - 1)..];
    if n > 1 {
      KeywordMatched(Feed(p, t[0]), s, n - 1);
    } else {
      assert t[1..] == [];
    }
  }

  /** The part of an argument that has arrived so far. */
  lemma {:induction false} FillUserPart(p: Parser, arg: seq<byte>)
    requires p.Valid() && p.state == FillUser && !p.passComplete && NEWLINE !in arg
    requires p.writePtr + |arg| < MAX_CREDENTIALS_LEN
    ensures var q := Consume(p, arg);
            && q == p.(user := q.user, writePtr := p.writePtr + |arg|)
            && q.user[..q.writePtr] == p.user[..p.writePtr] + arg
    decreases |arg|
  {
    if arg != [] {
      assert arg[0] in arg;
      var p' := Feed(p, arg[0]);
      assert p'.user[..p'.writePtr] == p.user[..p.writePtr] + [arg[0]];
      FillUserPart(p', arg[1..]);
      assert p.user[..p.writePtr] + arg == (p.user[..p.writePtr] + [arg[0]]) + arg[1..];
    }
  }

  lemma {:induction false} FillPassPart(p: Parser, arg: seq<byte>)
    requires p.Valid() && p.state == FillPass && !p.passComplete && NEWLINE !in arg
    requires p.writePtr + |arg| < MAX_CREDENTIALS_LEN
    ensures var q := Consume(p, arg);
            && q == p.(pass := q.pass, writePtr := p.writePtr + |arg|)
            && q.pass[..q.writePtr] == p.pass[..p.writePtr] + arg
    decreases |arg|
  {
    if arg != [] {
      assert arg[0] in arg;
      var p' := Feed(p, arg[0]);
      assert p'.pass[..p'.writePtr] == p.pass[..p.writePtr] + [arg[0]];
      FillPassPart(p', arg[1..]);
      assert p.pass[..p.writePtr] + arg == (p.pass[..p.writePtr] + [arg[0]]) + arg[1..];
    }
  }

  lemma FillUserLine(p: Parser, arg: seq<byte>)
    requires p.Valid() && p.state == FillUser && !p.passComplete && NEWLINE !in arg
    requires p.writePtr + |arg| < MAX_CREDENTIALS_LEN
    ensures var q := Consume(p, arg + [NEWLINE]);
            var n := p.writePtr + |arg|;
            && q.user[..n] == p.user[..p.writePtr] + arg && q.user[n] == 0
            && q == p.(user := q.user, writePtr := 0, userComplete := true, state := PassCmd)
  {
    ConsumeConcat(p, arg, [NEWLINE]);
    FillUserPart(p, arg);
    var m := Consume(p, arg);
    assert Consume(m, [NEWLINE]) == Feed(m, NEWLINE);
  }

  /** The parser after the keyword and the beginning of an argument. */
  lemma Filled(p: Parser, keyword: seq<byte>, arg: seq<byte>) returns (q: Parser)
    requires p.Fresh() && Matches(keyword, USER_STR) && NEWLINE !in arg && |arg| < MAX_CREDENTIALS_LEN
    ensures q == Consume(p, keyword + arg)
    ensures q == p.(user := q.user, writePtr := |arg|, state := FillUser) && q.user[..|arg|] == arg
  {
    ConsumeConcat(p, keyword, arg);
    assert keyword[|keyword| - 5..] == keyword;
    KeywordMatched(p, keyword, 5);
    FillUserPart(p.(state := FillUser), arg);
    q := Consume(p, keyword + arg);
    assert p.user[..0] + arg == arg;
  }

  lemma CaptureUser(p: Parser, keyword: seq<byte>, arg: seq<byte>)
    requires p.Fresh() && Matches(keyword, USER_STR) && NEWLINE !in arg && |arg| < MAX_CREDENTIALS_LEN
    ensures var q := Consume(p, keyword + arg + [NEWLINE]);
            && q.HasUser() && q == p.(user := q.user, userComplete := true, state := PassCmd)
            && q.user[..|arg|] == arg && q.user[|arg|] == 0
  {
    var m := Filled(p, keyword, arg);
    ConsumeConcat(p, keyword + arg, [NEWLINE]);
    assert Consume(m, [NEWLINE]) == Feed(m, NEWLINE);
    assert m.user[|arg| := 0][..|arg|] == m.user[..|arg|];
  }

  lemma CapturePass(p: Parser, keyword: seq<byte>, arg: seq<byte>)
    requires p.HasUser() && Matches(keyword, PASS_STR) && NEWLINE !in arg && |arg| < MAX_CREDENTIALS_LEN
    ensures var q := Consume(p, keyword + arg + [NEWLINE]);
            && q.userComplete && q.passComplete && q.user == p.user
            && q.pass[..|arg|] == arg && q.pass[|arg|] == 0
    ensures var m := Consume(p, keyword + arg); !m.passComplete && Feed(m, NEWLINE).passComplete
  {
    ConsumeConcat(p, keyword, arg);
    assert keyword[|keyword| - 5..] == keyword;
    KeywordMatched(p, keyword, 5);
    FillPassPart(p.(state := FillPass), arg);
    ConsumeConcat(p, keyword + arg, [NEWLINE]);
    var m := Consume(p, keyword + arg);
    assert m.pass[..|arg|] == arg by { assert p.pass[..0] + arg == arg; }
    assert Consume(m, [NEWLINE]) == Feed(m, NEWLINE);
    assert m.pass[|arg| := 0][..|arg|] == m.pass[..|arg|];
  }

  /**
   * From a fresh parser: any lines not beginning like the awaited keyword are skipped, and
   * a USER and a PASS line with arguments of at most 39 bytes yield exactly those.
   */
  lemma SniffsCredentials(p: Parser, before: seq<seq<byte>>, userKeyword: seq<byte>, user: seq<byte>,
                          between: seq<seq<byte>>, passKeyword: seq<byte>, pass: seq<byte>, rest: seq<byte>)
    requires p.Fresh() && Skippable(before, USER_STR) && Skippable(between, PASS_STR)
    requires Matches(userKeyword, USER_STR) && Matches(passKeyword, PASS_STR)
    requires NEWLINE !in user && NEWLINE !in pass
    requires |user| < MAX_CREDENTIALS_LEN && |pass| < MAX_CREDENTIALS_LEN
    ensures var userLine := userKeyword + user + [NEWLINE];
            var passLine := passKeyword + pass + [NEWLINE];
            var q := Consume(p, Lines(before) + userLine + Lines(between) + passLine + rest);
            && q.userComplete && q.passComplete
            && q.user[..|user|] == user && q.user[|user|] == 0
            && q.pass[..|pass|] == pass && q.pass[|pass|] == 0
            && Unread(p, Lines(before) + userLine + Lines(between) + passLine + rest) == rest
  {
    hide Consume, Feed, Unread;
    var a, b := Lines(before), userKeyword + user + [NEWLINE];
    var c, d := Lines(between), passKeyword + pass + [NEWLINE];
    ConsumeConcat(p, a + b + c + d, rest);
    ConsumeConcat(p, a + b + c, d);
    ConsumeConcat(p, a + b, c);
    ConsumeConcat(p, a, b);
    SkippedLines(p, before);
    CaptureUser(p, userKeyword, user);
    var q := Consume(p, b);
    SkippedLines(q, between);
    CapturePass(q, passKeyword, pass);
    ConsumeStops(Consume(p, a + b + c + d), rest);
    var e := passKeyword + pass;
    ConsumeConcat(p, a + b + c, e);
    UnreadAfter(p, a + b + c + e, NEWLINE, rest);
    Associate(a + b + c, e, [NEWLINE]);
  }

  /** One byte too many turns the rest of the line into an unknown command. */
  lemma OverflowingLine(m: Parser, c: byte, tail: seq<byte>)
    requires m.Valid() && (m.state == FillUser || m.state == FillPass) && !m.passComplete
    requires m.writePtr == MAX_CREDENTIALS_LEN - 1
    requires c != NEWLINE && NEWLINE !in tail
    ensures Consume(m, [c] + (tail + [NEWLINE])) == m.(state := if m.userComplete then PassCmd else UserCmd)
  {
    assert ([c] + (tail + [NEWLINE]))[1..] == tail + [NEWLINE];
    UnknownLine(m.(state := UnknownCmd), tail);
  }

  /**
   * An argument of 40 bytes or more is not captured, so the bound in SniffsCredentials is
   * exact; its first 39 bytes are kept and the write cursor is left behind them.
   */
  lemma LongUserIsStuck(p: Parser, keyword: seq<byte>, arg: seq<byte>)
    requires p.Fresh() && Matches(keyword, USER_STR) && NEWLINE !in arg && |arg| >= MAX_CREDENTIALS_LEN
    ensures var q := Consume(p, keyword + arg + [NEWLINE]);
            q.StuckOnUser() && q.user[..q.writePtr] == arg[..q.writePtr]
  {
    hide Consume, Feed, Keyword;
    var n := MAX_CREDENTIALS_LEN - 1;
    var head, tail := arg[..n], arg[n + 1..];
    assert NEWLINE !in head && NEWLINE !in tail && arg[n] in arg;
    var m := Filled(p, keyword, head);
    OverflowingLine(m, arg[n], tail);
    assert keyword + arg + [NEWLINE] == (keyword + head) + ([arg[n]] + (tail + [NEWLINE]));
    ConsumeConcat(p, keyword + head, [arg[n]] + (tail + [NEWLINE]));
  }

  /**
   * There it stays: a later USER line leaves the parser as it is if and only if it has an
   * argument. One without completes the user name with the 39 bytes that were kept.
   */
  lemma StuckStaysStuck(p: Parser, keyword: seq<byte>, arg: seq<byte>)
    requires p.StuckOnUser() && Matches(keyword, USER_STR) && NEWLINE !in arg
    ensures var q := Consume(p, keyword + arg + [NEWLINE]);
            && (q == p <==> arg != [])
            && (arg == [] ==> q.HasUser() && q.user == p.user[p.writePtr := 0])
  {
    hide Consume, Keyword;
    assert keyword[|keyword| - 5..] == keyword;
    KeywordMatched(p, keyword, 5);
    var line, m := arg + [NEWLINE], p.(state := FillUser);
    assert keyword + arg + [NEWLINE] == keyword + line;
    ConsumeConcat(p, keyword, line);
    if arg == [] {
      assert line == [NEWLINE];
      ConsumeLast(m, NEWLINE);
    } else {
      assert arg[0] in arg && line == [arg[0]] + (arg[1..] + [NEWLINE]);
      OverflowingLine(m, arg[0], arg[1..]);
    }
  }

  lemma ConsumeLast(p: Parser, c: byte)
    requires p.Valid() && !p.passComplete
    ensures Consume(p, [c]) == Feed(p, c)
  {
    hide Feed;
    assert [c][1..] == [];
  }

  /** The same bound for PASS: a longer argument is not captured and blocks the later ones. */
  lemma LongPassIsStuck(p: Parser, keyword: seq<byte>, arg: seq<byte>)
    requires p.HasUser() && Matches(keyword, PASS_STR) && NEWLINE !in arg && |arg| >= MAX_CREDENTIALS_LEN
    ensures var q := Consume(p, keyword + arg + [NEWLINE]);
            q.StuckOnPass() && q.pass[..q.writePtr] == arg[..q.writePtr] && q.user == p.user
  {
    hide Consume, Feed, Keyword;
    var n := MAX_CREDENTIALS_LEN - 1;
    var head, tail := arg[..n], arg[n + 1..];
    assert NEWLINE !in head && NEWLINE !in tail && arg[n] in arg;
    assert keyword[|keyword| - 5..] == keyword;
    KeywordMatched(p, keyword, 5);
    ConsumeConcat(p, keyword, head);
    FillPassPart(p.(state := FillPass), head);
    assert p.pass[..0] + head == head;
    OverflowingLine(Consume(p, keyword + head), arg[n], tail);
    assert keyword + arg + [NEWLINE] == (keyword + head) + ([arg[n]] + (tail + [NEWLINE]));
    ConsumeConcat(p, keyword + head, [arg[n]] + (tail + [NEWLINE]));
  }

  /** And a PASS line without an argument completes the pair with the 39 bytes that were kept. */
  lemma StuckPassStaysStuck(p: Parser, keyword: seq<byte>, arg: seq<byte>)
    requires p.StuckOnPass() && Matches(keyword, PASS_STR) && NEWLINE !in arg
    ensures var q := Consume(p, keyword + arg + [NEWLINE]);
            && (q == p <==> arg != [])
            && (arg == [] ==> q.passComplete && q.user == p.user && q.pass == p.pass[p.writePtr := 0])
  {
    hide Consume, Keyword;
    assert keyword[|keyword| - 5..] == keyword;
    KeywordMatched(p, keyword, 5);
    var line, m := arg + [NEWLINE], p.(state := FillPass);
    assert keyword + arg + [NEWLINE] == keyword + line;
    ConsumeConcat(p, keyword, line);
    if arg == [] {
      assert line == [NEWLINE];
      ConsumeLast(m, NEWLINE);
    } else {
      assert arg[0] in arg && line == [arg[0]] + (arg[1..] + [NEWLINE]);
      OverflowingLine(m, arg[0], arg[1..]);
    }
  }

  // ---------------------------------------------------------------------------
  // The parser object
  // ---------------------------------------------------------------------------

  class Sniffer {
    var state: PopState
    var userComplete: bool
    var passComplete: bool
    const user: array<byte>
    const pass: array<byte>
    var readPtr: nat
    var writePtr: nat

    ghost predicate Valid()
      reads this, user, pass
    {
      user != pass && View().Valid()
    }

    ghost function View(): Parser
      reads this, user, pass
    {
      Parser(state, userComplete, passComplete, user[..], pass[..], readPtr, writePtr)
    }

    /** init_parser on fresh memory */
    constructor ()
      ensures Valid() && View().Fresh() && fresh(user) && fresh(pass)
    {
      user := new byte[MAX_CREDENTIALS_LEN];
      pass := new byte[MAX_CREDENTIALS_LEN];
      state, readPtr, writePtr, userComplete, passComplete := UserCmd, 0, 0, false, false;
    }

    method Init()
      requires Valid()
      modifies this
      ensures Valid() && View() == Restart(old(View())) && View().Fresh()
    {
      state := UserCmd;
      readPtr, writePtr := 0, 0;
      passComplete, userComplete := false, false;
    }

    method MatchKeyword(c: byte, keyword: seq<byte>, again: PopState, full: PopState) returns (next: PopState)
      requires Valid() && |keyword| == |USER_STR|
      modifies this`readPtr
      ensures View().(state := next) == Keyword(old(View()), c, keyword, again, full)
    {
      if Lower(c) == Lower(keyword[readPtr]) {
        readPtr := readPtr + 1;
        if readPtr == |keyword| {
          readPtr := 0;
          return full;
        }
        return again;
      }
      return UnknownNext(Parser(state, userComplete, passComplete, user[..], pass[..], readPtr, writePtr), c);
    }

    method Fill(target: array<byte>, c: byte) returns (done: bool, next: PopState)
      requires Valid() && (target == user || target == pass)
      modifies this`writePtr, target
      ensures writePtr < MAX_CREDENTIALS_LEN
      ensures done <==> c == NEWLINE
      ensures done ==> target[..] == old(target[..])[old(writePtr) := 0] && writePtr == 0
      ensures !done && old(writePtr) + 1 == MAX_CREDENTIALS_LEN ==>
                next == UnknownCmd && target[..] == old(target[..]) && writePtr == old(writePtr)
      ensures !done && old(writePtr) + 1 < MAX_CREDENTIALS_LEN ==>
                next == state && target[..] == old(target[..])[old(writePtr) := c] && writePtr == old(writePtr) + 1
    {
      if c == NEWLINE {
        target[writePtr] := 0;
        writePtr := 0;
        return true, PassCmd;
      }
      if writePtr + 1 == MAX_CREDENTIALS_LEN {
        return false, UnknownCmd;
      }
      target[writePtr] := c;
      writePtr := writePtr + 1;
      return false, state;
    }

    method Step(c: byte)
      requires Valid()
      modifies this, user, pass
      ensures Valid() && View() == Feed(old(View()), c)
    {
      match state
      case UserCmd => state := MatchKeyword(c, USER_STR, UserCmd, FillUser);
      case PassCmd => state := MatchKeyword(c, PASS_STR, PassCmd, FillPass);
      case UnknownCmd =>
        state := if c == NEWLINE then (if userComplete then PassCmd else UserCmd) else UnknownCmd;
      case FillUser =>
        var done, next := Fill(user, c);
        if done {
          userComplete, state := true, PassCmd;
        } else {
          state := next;
        }
      case FillPass =>
        var done, next := Fill(pass, c);
        if done {
          passComplete, state := true, PassCmd;
        } else {
          state := next;
        }
    }

    /** The loop of pop3_consume over the parser's own copy of the buffer's pointers. */
    method ConsumeAll(buf: Buffer)
      requires Valid() && buf.Valid() && buf.data != user && buf.data != pass
      modifies this, user, pass, buf
      ensures Valid() && View() == Consume(old(View()), old(buf.ReadWindow()))
    {
      while buf.CanRead() && !passComplete
        invariant Valid() && buf.Valid()
        invariant Consume(View(), buf.ReadWindow()) == Consume(old(View()), old(buf.ReadWindow()))
        decreases |buf.ReadWindow()|
      {
        ghost var window := buf.ReadWindow();
        var c := buf.Read();
        assert buf.ReadWindow() == window[1..] && c == window[0];
        Step(c);
      }
    }

    /** The request buffer is only read: neither its pointers nor its bytes change. */
    method Parse(request: Buffer) returns (found: bool)
      requires Valid() && request.Valid() && request.data != user && request.data != pass
      modifies this, user, pass
      ensures Valid() && request.Valid() && request.View() == old(request.View())
      ensures var q := Consume(old(View()), request.ReadWindow());
              && found == (q.userComplete && q.passComplete)
              && View() == if found then Restart(q) else q
    {
      var buf := new Buffer.Alias(request);
      ConsumeAll(buf);
      found := userComplete && passComplete;
      if found {
        Init();
      }
    }
  }
}
