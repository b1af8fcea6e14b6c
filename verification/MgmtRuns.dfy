/**
 * Two management sessions in full: one in which the response to USERS is dropped and one in
 * which the response to QUIT is never sent. The lengths are those of the server's messages.
 */
module MgmtRuns {
  import opened Common
  import opened SocketsIO
  import opened MgmtLexer
  import opened MgmtCommands
  import opened Mgmt

  // ---------------------------------------------------------------------------
  // Recognising whole lines
  // ---------------------------------------------------------------------------

  const TOKEN_LINE: seq<byte> := [0x74, 0x6F, 0x6B, 0x65, 0x6E, 0x20, 0x78]

  lemma LexCapa(cond: Condition, rest: seq<byte>)
    ensures Lex(cond, CAPA_WORD + [CR, LF] + rest) == Lexed(Capa, 6)
  {
    hide Lex;
    CommandLine(Capa, cond, CAPA_WORD, rest);
  }

  lemma LexEmpty(cond: Condition, rest: seq<byte>)
    ensures Lex(cond, [] + [CR, LF] + rest) == Lexed(InvalidCmd, 2)
  {
    hide Lex;
    assert !Known(cond, []);
    EveryLine(cond, [], rest);
  }

  lemma LexQuit(cond: Condition, rest: seq<byte>)
    ensures Lex(cond, QUIT_WORD + [CR, LF] + rest) == Lexed(Quit, 6)
  {
    hide Lex;
    CommandLine(Quit, cond, QUIT_WORD, rest);
  }

  lemma LexUsers(rest: seq<byte>)
    ensures Lex(TRNS, USERS_WORD + [CR, LF] + rest) == Lexed(ListUsers, 7)
  {
    hide Lex;
    CommandLine(ListUsers, TRNS, USERS_WORD, rest);
  }

  lemma LexToken(rest: seq<byte>)
    ensures Lex(PASS, TOKEN_LINE + [CR, LF] + rest) == Lexed(Token, 9)
  {
    hide Lex;
    assert TOKEN_LINE[5..] == [0x20] + [0x78] + [];
    assert Blank([0x20]) && Argument([0x78], false) && Blank([]);
    CommandLine(Token, PASS, TOKEN_LINE, rest);
  }

  // ---------------------------------------------------------------------------
  // Interpreting many of them
  // ---------------------------------------------------------------------------

  function Text(n: nat): (s: seq<byte>)
    ensures |s| == n
  {
    seq(n, _ => 0x2B)
  }

  /** A response that is measured in full. */
  function Plain(n: nat): Reaction {
    Reaction(false, n, Text(n))
  }

  function Times(line: seq<byte>, k: nat): seq<byte> {
    if k == 0 then [] else line + [CR, LF] + Times(line, k - 1)
  }

  lemma {:induction false} TimesLength(line: seq<byte>, k: nat)
    ensures |Times(line, k)| == k * (|line| + 2)
    decreases k
  {
    if k > 0 {
      TimesLength(line, k - 1);
    }
  }

  /** The lines of which any number may be sent in either condition. */
  predicate Harmless(line: seq<byte>) {
    line == CAPA_WORD || line == []
  }

  lemma LexHarmless(cond: Condition, line: seq<byte>, rest: seq<byte>)
    requires Harmless(line)
    ensures var lexed := Lex(cond, line + [CR, LF] + rest);
            lexed.length == |line| + 2 && lexed.command in {Capa, InvalidCmd}
  {
    hide Lex;
    if line == [] { LexEmpty(cond, rest); } else { LexCapa(cond, rest); }
  }

  /** Where a session stands: what is left to interpret and how much room there is. */
  predicate At(s: Session, cond: Condition, input: seq<byte>, space: int, n: nat, quitted: bool) {
    && Buffered(s) && !s.pendingBuf.CanRead() && s.open && NoneDropped(s.h.executed)
    && s.cond == cond && s.input == input && s.writeBuf.Space() == space && |s.h.executed| == n && s.quitted == quitted
  }

  /** The first command of an input. */
  predicate Says(cond: Condition, input: seq<byte>, command: Command, length: nat) {
    Lex(cond, input) == Lexed(command, length)
  }

  lemma SaysSo(cond: Condition, input: seq<byte>, command: Command, length: nat)
    requires Lex(cond, input) == Lexed(command, length)
    ensures Says(cond, input, command, length)
  {
    hide Lex;
  }

  /** Interpreting the one comes to interpreting the other. */
  predicate LeadsTo(s: Session, t: Session, world: World) {
    s.Valid() && t.Valid() && Process(s, world) == Process(t, world)
  }

  predicate Fits(s: Session, r: Reaction) {
    r.tested == |r.text| <= s.writeBuf.Space() && |r.text| < MGMT_BUFFSIZE
  }

  /** One command whose response fits. */
  lemma OneMore(s: Session, line: seq<byte>, rest: seq<byte>, command: Command, world: World) returns (t: Session)
    requires At(s, s.cond, line + [CR, LF] + rest, s.writeBuf.Space(), |s.h.executed|, s.quitted)
    requires Says(s.cond, s.input, command, |line| + 2) && command != Incomplete
    requires Fits(s, world(|s.h.executed|))
    ensures var r := world(|s.h.executed|);
            At(t, if command == Token && r.accepted then TRNS else s.cond, rest, s.writeBuf.Space() - |r.text|,
               |s.h.executed| + 1, s.quitted || command == Quit)
    ensures LeadsTo(s, t, world)
  {
    hide Lex, Execute, Process, NoneDropped, Buffered;
    BufferedIsValid(s);
    var lexed, r := Lex(s.cond, s.input), world(|s.h.executed|);
    ExecuteAdvances(s, lexed, r);
    ProcessUnfolds(s, world);
    t := Execute(s, lexed, r);
    AfterLine(line, rest);
    KeptLog(s, lexed, r);
  }

  lemma AfterLine(line: seq<byte>, rest: seq<byte>)
    ensures (line + [CR, LF] + rest)[|line| + 2..] == rest
  {
  }

  lemma KeptLog(s: Session, lexed: Lexed, r: Reaction)
    requires s.Valid() && lexed.length <= |s.input| && !Drops(s, r) && NoneDropped(s.h.executed)
    ensures NoneDropped(Execute(s, lexed, r).h.executed)
  {
  }

  lemma MulStep(k: nat, size: nat)
    requires k > 0
    ensures k * size == size + (k - 1) * size && (k - 1) * size >= 0
  {
  }

  /** The same line k times, each answered with `size` bytes. */
  lemma {:induction false} ManyMore(s: Session, line: seq<byte>, k: nat, rest: seq<byte>, size: nat, world: World)
    returns (t: Session)
    requires Harmless(line) && size < MGMT_BUFFSIZE && k * size <= s.writeBuf.Space()
    requires At(s, s.cond, Times(line, k) + rest, s.writeBuf.Space(), |s.h.executed|, s.quitted)
    requires forall i :: |s.h.executed| <= i < |s.h.executed| + k ==> world(i) == Plain(size)
    ensures At(t, s.cond, rest, s.writeBuf.Space() - k * size, |s.h.executed| + k, s.quitted)
    ensures LeadsTo(s, t, world)
    decreases k
  {
    hide Process, Lex, Buffered, NoneDropped, Harmless;
    BufferedIsValid(s);
    if k == 0 {
      assert Times(line, 0) + rest == rest;
      t := s;
    } else {
      var more := Times(line, k - 1) + rest;
      assert Times(line, k) + rest == line + [CR, LF] + more;
      MulStep(k, size);
      var u := AnotherLine(s, line, more, size, world);
      t := ManyMore(u, line, k - 1, rest, size, world);
    }
  }

  lemma AnotherLine(s: Session, line: seq<byte>, more: seq<byte>, size: nat, world: World) returns (t: Session)
    requires Harmless(line) && size < MGMT_BUFFSIZE && size <= s.writeBuf.Space()
    requires At(s, s.cond, line + [CR, LF] + more, s.writeBuf.Space(), |s.h.executed|, s.quitted)
    requires world(|s.h.executed|) == Plain(size)
    ensures At(t, s.cond, more, s.writeBuf.Space() - size, |s.h.executed| + 1, s.quitted)
    ensures LeadsTo(s, t, world)
  {
    hide Process, Lex, Buffered, NoneDropped, Harmless, Says;
    LexHarmless(s.cond, line, more);
    var command := Lex(s.cond, line + [CR, LF] + more).command;
    SaysSo(s.cond, s.input, command, |line| + 2);
    t := OneMore(s, line, more, command, world);
  }

  // ---------------------------------------------------------------------------
  // The two sessions
  // ---------------------------------------------------------------------------

  const GREETING_SIZE: nat := 79
  const WELCOME_SIZE: nat := 14
  const CAPA_SIZE: nat := 94
  const INVALID_SIZE: nat := 38
  const QUIT_SIZE: nat := 17

  /** A session in which everything arrives at once. */
  lemma Received(greeting: seq<byte>, input: seq<byte>, world: World) returns (s: Session)
    requires |greeting| == GREETING_SIZE && 0 < |input| <= MGMT_BUFFSIZE
    ensures At(s, PASS, input, MGMT_BUFFSIZE - GREETING_SIZE, 0, false)
    ensures Step(NewSession(greeting), Readable(Arrived(input)), world) == Process(s, world).(wantsWrite := true)
  {
    hide Process;
    var s0 := NewSession(greeting);
    assert Filled(s0, Arrived(input)) == input;
    assert s0.input + input == input;
    s := s0.(input := input);
  }

  function QuitWorld(n: nat): Reaction {
    if n < 20 then Plain(CAPA_SIZE) else if n < 22 then Plain(INVALID_SIZE) else Plain(QUIT_SIZE)
  }

  /** CAPA twenty times, two empty lines and QUIT. */
  function QuitInput(): (s: seq<byte>)
    ensures |s| == 130
  {
    TimesLength(CAPA_WORD, 20);
    TimesLength([], 2);
    Times(CAPA_WORD, 20) + (Times([], 2) + (QUIT_WORD + [CR, LF] + []))
  }

  lemma QuitSpills(s: Session)
    requires At(s, PASS, QuitInput(), MGMT_BUFFSIZE - GREETING_SIZE, 0, false)
    ensures var t := Process(s, QuitWorld);
            && Buffered(t) && t.open && t.quitted && NoneDropped(t.h.executed)
            && |t.pendingBuf.contents| == QUIT_SIZE && t.writeBuf.Space() == 13
  {
    hide Process, Lex, Execute;
    var rest := QUIT_WORD + [CR, LF] + [];
    var a := ManyMore(s, CAPA_WORD, 20, Times([], 2) + rest, CAPA_SIZE, QuitWorld);
    var b := ManyMore(a, [], 2, rest, INVALID_SIZE, QuitWorld);
    LexQuit(PASS, []);
    ExecuteAdvances(b, Lexed(Quit, 6), QuitWorld(22));
    KeptLog(b, Lexed(Quit, 6), QuitWorld(22));
    ProcessUnfolds(b, QuitWorld);
  }

  /**
   * A client that sends 130 bytes and then takes all it is sent: its session is closed with
   * the response to QUIT still pending, although no response was dropped.
   */
  lemma QuitIsCutShort(greeting: seq<byte>)
    requires |greeting| == GREETING_SIZE
    ensures var events := [Readable(Arrived(QuitInput())), Writable(Taken(MGMT_BUFFSIZE))];
            var t := Run(NewSession(greeting), events, QuitWorld);
            !t.open && NoneDropped(t.h.executed) && |t.pendingBuf.contents| == QUIT_SIZE && t.h.sent != t.h.responses
  {
    hide Process, Step, NoneDropped, Queued;
    var s0, read, write := NewSession(greeting), Readable(Arrived(QuitInput())), Writable(Taken(MGMT_BUFFSIZE));
    var s := Received(greeting, QuitInput(), QuitWorld);
    QuitSpills(s);
    var s1 := Step(s0, read, QuitWorld);
    var t := Step(s1, write, QuitWorld);
    RunTwo(s0, read, write, QuitWorld);
    assert Refilled(s1, QuitWorld) == s1;
    LastWrite(s1, MGMT_BUFFSIZE, QuitWorld);
    WriteLogs(s1, write, QuitWorld);
    NewSessionQueued(greeting);
    StepKeepsQueued(s0, read, QuitWorld);
    StepKeepsQueued(s1, write, QuitWorld);
    AllSent(t);
  }

  lemma RunTwo(s: Session, a: Event, b: Event, world: World)
    requires s.Valid()
    ensures Run(s, [a, b], world) == Step(Step(s, a, world), b, world)
  {
    hide Step;
    assert [a, b][1..] == [b] && [b][1..] == [];
    assert Run(Step(s, a, world), [b], world) == Run(Step(Step(s, a, world), b, world), [], world);
  }

  /** A write without a refill interprets nothing. */
  lemma WriteLogs(s: Session, ev: Event, world: World)
    requires s.Valid() && ev.Writable? && Refilled(s, world) == s
    ensures Step(s, ev, world).h.executed == s.h.executed
  {
    hide Refilled;
  }

  function UsersWorld(n: nat): Reaction {
    if n == 0 then Reaction(true, WELCOME_SIZE, Text(WELCOME_SIZE))
    else if n < 7 then Plain(CAPA_SIZE)
    else if n < 43 then Plain(INVALID_SIZE)
    else UsersReaction(Text(USERS_HEADER_SIZE), [])
  }

  /** TOKEN, CAPA six times, thirty-six empty lines and USERS. */
  function UsersInput(): (s: seq<byte>)
    ensures |s| == 124
  {
    TimesLength(CAPA_WORD, 6);
    TimesLength([], 36);
    TOKEN_LINE + [CR, LF] + (Times(CAPA_WORD, 6) + (Times([], 36) + (USERS_WORD + [CR, LF] + [])))
  }

  /** All but the last command leave room for the header of the list only. */
  lemma BeforeUsers(s: Session) returns (c: Session)
    requires At(s, PASS, UsersInput(), MGMT_BUFFSIZE - GREETING_SIZE, 0, false)
    ensures At(c, TRNS, USERS_WORD + [CR, LF] + [], 23, 43, false) && LeadsTo(s, c, UsersWorld)
  {
    hide Process, Lex, Execute, Buffered, NoneDropped;
    var rest := USERS_WORD + [CR, LF] + [];
    var lines := Times(CAPA_WORD, 6) + (Times([], 36) + rest);
    LexToken(lines);
    var a := OneMore(s, TOKEN_LINE, lines, Token, UsersWorld);
    var b := ManyMore(a, CAPA_WORD, 6, Times([], 36) + rest, CAPA_SIZE, UsersWorld);
    c := ManyMore(b, [], 36, rest, INVALID_SIZE, UsersWorld);
  }

  lemma UsersDrops(s: Session)
    requires At(s, PASS, UsersInput(), MGMT_BUFFSIZE - GREETING_SIZE, 0, false)
    ensures var t := Process(s, UsersWorld);
            && |t.h.executed| == 44 && t.h.executed[43].command == ListUsers && t.h.executed[43].dropped
            && t.open && !t.pendingBuf.CanRead()
  {
    hide Process, Lex, Execute, Buffered, NoneDropped;
    var c := BeforeUsers(s);
    BufferedIsValid(c);
    LexUsers([]);
    var r := UsersWorld(43);
    assert |r.text| == USERS_HEADER_SIZE + 3 && Drops(c, r);
    ExecuteAdvances(c, Lexed(ListUsers, 7), r);
    ProcessUnfolds(c, UsersWorld);
    var t := Execute(c, Lexed(ListUsers, 7), r);
    LastEntry(c, Lexed(ListUsers, 7), r);
    AfterLine(USERS_WORD, []);
    BufferedIsValid(t);
    NothingLeft(t, UsersWorld);
  }

  lemma LastEntry(s: Session, lexed: Lexed, r: Reaction)
    requires s.Valid() && lexed.length <= |s.input|
    ensures var log := Execute(s, lexed, r).h.executed;
            |log| == |s.h.executed| + 1 && log[|s.h.executed|].command == lexed.command
            && log[|s.h.executed|].dropped == Drops(s, r)
  {
  }

  lemma NothingLeft(s: Session, world: World)
    requires s.Valid() && s.input == []
    ensures Process(s, world) == s
  {
    assert Live([]);
  }

  /**
   * A client that authenticates and sends 124 bytes with an empty credential table: it never
   * gets an answer to USERS, which is neither sent nor to be sent nor pending.
   */
  lemma UsersIsDropped(greeting: seq<byte>)
    requires |greeting| == GREETING_SIZE
    ensures var t := Run(NewSession(greeting), [Readable(Arrived(UsersInput()))], UsersWorld);
            && t.open && |t.h.executed| == 44 && t.h.executed[43].command == ListUsers && t.h.executed[43].dropped
            && t.h.sent + t.writeBuf.contents + t.pendingBuf.contents != t.h.responses
  {
    hide Process, Step, Queued;
    var s0, read := NewSession(greeting), Readable(Arrived(UsersInput()));
    var s := Received(greeting, UsersInput(), UsersWorld);
    UsersDrops(s);
    assert [read][1..] == [];
    var t := Step(s0, read, UsersWorld);
    assert Run(s0, [read], UsersWorld) == t;
    NewSessionQueued(greeting);
    UsersWorldBounded();
    StepKeepsQueued(s0, read, UsersWorld);
    MissingBytes(t, 43);
  }

  lemma UsersWorldBounded()
    ensures Bounded(UsersWorld)
  {
    assert |NameLines([])| == 0;
  }

  lemma MissingBytes(t: Session, i: nat)
    requires Queued(t) && i < |t.h.executed| && t.h.executed[i].dropped
    ensures t.h.sent + t.writeBuf.contents + t.pendingBuf.contents != t.h.responses
  {
    assert !NoneDropped(t.h.executed);
  }
}
