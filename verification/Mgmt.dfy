/**
 * A management session of src/mgmt.c: commands are interpreted one after the other, their
 * responses pass through two buffers, and most of them need an accepted token first.
 */
module Mgmt {
  import opened Common
  import opened Buffers
  import opened SocketsIO
  import opened MgmtLexer
  import opened Users

  const MGMT_BUFFSIZE: nat := 2048

  /**
   * What executing a command comes to: whether a token is accepted, the length that is
   * compared with the free space, and the text that is written.
   */
  datatype Reaction = Reaction(accepted: bool, tested: nat, text: seq<byte>)

  /** The rest of the server, as the reaction to the n-th command. */
  type World = nat -> Reaction

  /** response_buf holds a terminator too. */
  ghost predicate Bounded(world: World) {
    forall n: nat :: |world(n).text| < MGMT_BUFFSIZE
  }

  /**
   * One interpreted command: the condition it was recognised in, whether it was an accepted
   * token, whether no response was pending, and whether its own response was dropped.
   */
  datatype Executed = Executed(command: Command, cond: Condition, accepted: bool, clear: bool, dropped: bool)

  datatype Log = Log(sent: seq<byte>, responses: seq<byte>, executed: seq<Executed>)

  datatype Session = Session(
    cond: Condition,
    input: seq<byte>,     // received and not yet interpreted
    writeBuf: Buf,
    pendingBuf: Buf,
    quitted: bool,
    open: bool,           // registered in the selector
    wantsWrite: bool,     // OP_WRITE is part of the interest; OP_READ always is
    h: Log
  ) {
    predicate Valid() {
      writeBuf.Valid() && pendingBuf.Valid()
    }
  }

  /** write_response: all or nothing */
  function WriteResponse(b: Buf, text: seq<byte>): (r: Buf)
    requires b.Valid()
    ensures r.Valid() && r.cap == b.cap
    ensures r.contents == if |text| <= b.Space() then b.contents + text else b.contents
  {
    if |text| > b.Space() then b else b.Append(text)
  }

  /** Whether a response has to wait, which also stops the interpretation. */
  predicate Spills(s: Session, r: Reaction) {
    r.tested > s.writeBuf.Space()
  }

  /** Whether a text is dropped: longer than the free space although its tested length is not. */
  predicate Drops(s: Session, r: Reaction) {
    r.tested <= s.writeBuf.Space() < |r.text|
  }

  function Execute(s: Session, lexed: Lexed, r: Reaction): (t: Session)
    requires s.Valid() && lexed.length <= |s.input|
    ensures t.Valid()
  {
    var granted := lexed.command == Token && r.accepted;
    s.(cond := if granted then TRNS else s.cond,
       input := s.input[lexed.length..],
       quitted := s.quitted || lexed.command == Quit,
       writeBuf := if Spills(s, r) then s.writeBuf else WriteResponse(s.writeBuf, r.text),
       pendingBuf := if Spills(s, r) then WriteResponse(s.pendingBuf, r.text) else s.pendingBuf,
       h := s.h.(responses := s.h.responses + r.text,
                 executed := s.h.executed
                             + [Executed(lexed.command, s.cond, granted, !s.pendingBuf.CanRead(), Drops(s, r))]))
  }

  /** processMgmtClient: every verdict but INCOMPLETE uses up input, so the loop ends. */
  function Process(s: Session, world: World): (t: Session)
    requires s.Valid()
    ensures t.Valid()
    decreases |s.input|
  {
    var lexed := Lex(s.cond, s.input);
    if lexed.command == Incomplete then s
    else
      var r := world(|s.h.executed|);
      var t := Execute(s, lexed, r);
      if Spills(s, r) then t else Process(t, world)
  }

  /** The bytes that fillBuffer can take. */
  function Filled(s: Session, incoming: Incoming): seq<byte> {
    if !incoming.Arrived? || |s.input| > MGMT_BUFFSIZE then []
    else incoming.bytes[..Min(|incoming.bytes|, MGMT_BUFFSIZE - |s.input|)]
  }

  function HandleRead(s: Session, incoming: Incoming, world: World): (t: Session)
    requires s.Valid()
    ensures t.Valid()
  {
    if s.pendingBuf.CanRead() then s
    else
      var got := Filled(s, incoming);
      if incoming.ReadError? || (incoming.Arrived? && got == []) then s.(open := false)
      else Process(s.(input := s.input + got), world).(wantsWrite := true)
  }

  /** copy_from_buf: all or nothing */
  function Unspilled(s: Session): (t: Session)
    requires s.Valid() && |s.pendingBuf.contents| <= s.writeBuf.Space()
    ensures t.Valid() && !t.pendingBuf.CanRead()
  {
    s.(writeBuf := s.writeBuf.Append(s.pendingBuf.contents),
       pendingBuf := s.pendingBuf.Advance(|s.pendingBuf.contents|))
  }

  /** The part of handle_mgmt_write before anything is sent. */
  function Refilled(s: Session, world: World): (t: Session)
    requires s.Valid()
    ensures t.Valid()
  {
    if s.pendingBuf.CanRead() && |s.pendingBuf.contents| <= s.writeBuf.Space() then Process(Unspilled(s), world) else s
  }

  function Flushed(s: Session, out: Outgoing): (t: Session)
    requires s.Valid()
    ensures t.Valid()
  {
    var left := BytesLeft(s.writeBuf, out);
    s.(writeBuf := WriteTo(s.writeBuf, out),
       h := s.h.(sent := s.h.sent + SentBytes(s.writeBuf, out)),
       open := if (left == 0 && s.quitted) || left < 0 then false else s.open)
  }

  function HandleWrite(s: Session, out: Outgoing, world: World): (t: Session)
    requires s.Valid()
    ensures t.Valid()
  {
    if !s.writeBuf.CanRead() && !s.pendingBuf.CanRead() then s.(wantsWrite := false)
    else Flushed(Refilled(s, world), out)
  }

  datatype Event = Readable(incoming: Incoming) | Writable(out: Outgoing)

  function Step(s: Session, ev: Event, world: World): (t: Session)
    requires s.Valid()
    ensures t.Valid()
  {
    if !s.open then s
    else
      match ev
      case Readable(incoming) => HandleRead(s, incoming, world)
      case Writable(out) => if s.wantsWrite then HandleWrite(s, out, world) else s
  }

  function Run(s: Session, events: seq<Event>, world: World): (t: Session)
    requires s.Valid()
    ensures t.Valid()
    decreases |events|
  {
    if events == [] then s else Run(Step(s, events[0], world), events[1..], world)
  }

  /** mgmt_master_read_handler: the greeting is written before anything is read. */
  function NewSession(greeting: seq<byte>): (s: Session)
    requires |greeting| < MGMT_BUFFSIZE
    ensures s.Valid()
  {
    Session(PASS, [], EmptyBuf(MGMT_BUFFSIZE).Append(greeting), EmptyBuf(MGMT_BUFFSIZE), false, true, true,
            Log([], greeting, []))
  }

  // ---------------------------------------------------------------------------
  // One response
  // ---------------------------------------------------------------------------

  /**
   * When a command is interpreted (which is only with nothing pending), its response is
   * kept if and only if it spills or really fits: what is lost is exactly a text that is
   * longer than the free space although its tested length is not.
   */
  lemma ResponseKeptExactly(s: Session, lexed: Lexed, r: Reaction)
    requires s.Valid() && lexed.length <= |s.input| && !s.pendingBuf.CanRead()
    requires s.pendingBuf.cap == MGMT_BUFFSIZE && |r.text| < MGMT_BUFFSIZE
    ensures var t := Execute(s, lexed, r);
            t.writeBuf.contents + t.pendingBuf.contents == s.writeBuf.contents + s.pendingBuf.contents + r.text
            <==> !Drops(s, r)
  {
    var t := Execute(s, lexed, r);
    var before, after := s.writeBuf.contents, t.writeBuf.contents + t.pendingBuf.contents;
    assert s.pendingBuf.contents == [];
    if Drops(s, r) {
      assert after == before;
      assert |before + s.pendingBuf.contents + r.text| > |before|;
    } else {
      assert after == before + r.text;
      assert before + s.pendingBuf.contents + r.text == before + r.text;
    }
  }

  /** snprintf of "+OK Listing users... " and a line end: 23 bytes, the only ones that are measured. */
  const USERS_HEADER_SIZE: nat := 23

  function NameLines(users: seq<User>): (s: seq<byte>)
    ensures ValidTable(users) ==> |s| <= 11 * |users|
  {
    if users == [] then []
    else
      var init := users[..|users| - 1];
      NameLines(init) + users[|users| - 1].name + [CR, LF]
  }

  /** The reaction to USERS: names and the final dot are appended after measuring. */
  function UsersReaction(header: seq<byte>, users: seq<User>): Reaction {
    Reaction(false, |header|, header + NameLines(users) + [0x2E, CR, LF])
  }

  /**
   * The one command that is not measured in full: its text fits the response buffer, is
   * always longer than what is tested, and is lost exactly when the free space is between
   * the two.
   */
  lemma UsersMayBeLost(s: Session, lexed: Lexed, header: seq<byte>, users: seq<User>)
    requires s.Valid() && lexed.length <= |s.input| && !s.pendingBuf.CanRead()
    requires s.pendingBuf.cap == MGMT_BUFFSIZE && |header| == USERS_HEADER_SIZE && ValidTable(users)
    ensures var r := UsersReaction(header, users);
            && r.tested < |r.text| < MGMT_BUFFSIZE
            && var t := Execute(s, lexed, r);
               t.writeBuf == s.writeBuf && t.pendingBuf == s.pendingBuf
               <==> USERS_HEADER_SIZE <= s.writeBuf.Space() < USERS_HEADER_SIZE + |NameLines(users)| + 3
  {
    var r := UsersReaction(header, users);
    ResponseKeptExactly(s, lexed, r);
    var t := Execute(s, lexed, r);
    if t.writeBuf == s.writeBuf && t.pendingBuf == s.pendingBuf {
      assert |s.writeBuf.contents + s.pendingBuf.contents + r.text|
          == |s.writeBuf.contents| + |s.pendingBuf.contents| + |r.text|;
    }
  }

  // ---------------------------------------------------------------------------
  // The response queue
  // ---------------------------------------------------------------------------

  predicate Buffered(s: Session) {
    s.Valid() && s.writeBuf.cap == MGMT_BUFFSIZE && s.pendingBuf.cap == MGMT_BUFFSIZE
  }

  /** What was sent, then what is to be sent, then what is pending. */
  function Held(s: Session): seq<byte> {
    s.h.sent + s.writeBuf.contents + s.pendingBuf.contents
  }

  predicate NoneDropped(log: seq<Executed>) {
    forall i :: 0 <= i < |log| ==> !log[i].dropped
  }

  /** All the responses in order while none was dropped; once one was, bytes are missing for good. */
  predicate Queued(s: Session) {
    if NoneDropped(s.h.executed) then Held(s) == s.h.responses else |Held(s)| < |s.h.responses|
  }

  lemma ExecuteHolds(s: Session, lexed: Lexed, r: Reaction)
    requires Buffered(s) && !s.pendingBuf.CanRead() && lexed.length <= |s.input| && |r.text| < MGMT_BUFFSIZE
    ensures var t := Execute(s, lexed, r);
            && Buffered(t) && (!Spills(s, r) ==> !t.pendingBuf.CanRead())
            && Held(t) == if Drops(s, r) then Held(s) else Held(s) + r.text
  {
    ResponseKeptExactly(s, lexed, r);
    var t := Execute(s, lexed, r);
    Associate(t.h.sent, t.writeBuf.contents, t.pendingBuf.contents);
    Associate(s.h.sent, s.writeBuf.contents, s.pendingBuf.contents);
    Associate(s.h.sent, s.writeBuf.contents + s.pendingBuf.contents, r.text);
  }

  lemma ExecuteKeepsQueued(s: Session, lexed: Lexed, r: Reaction)
    requires Buffered(s) && Queued(s) && !s.pendingBuf.CanRead() && lexed.length <= |s.input|
    requires |r.text| < MGMT_BUFFSIZE
    ensures var t := Execute(s, lexed, r); Buffered(t) && Queued(t) && (!Spills(s, r) ==> !t.pendingBuf.CanRead())
  {
    hide Held, WriteResponse;
    ExecuteHolds(s, lexed, r);
    var t, n := Execute(s, lexed, r), |s.h.executed|;
    assert t.h.executed[n].dropped == Drops(s, r) && t.h.executed[..n] == s.h.executed;
    assert NoneDropped(t.h.executed) <==> NoneDropped(s.h.executed) && !Drops(s, r) by {
      forall i | 0 <= i < n
        ensures t.h.executed[i] == s.h.executed[i]
      {
      }
      if NoneDropped(t.h.executed) {
        assert NoneDropped(s.h.executed);
      }
    }
  }

  lemma {:induction false} ProcessKeepsQueued(s: Session, world: World)
    requires Buffered(s) && Queued(s) && !s.pendingBuf.CanRead() && Bounded(world)
    ensures var t := Process(s, world); Buffered(t) && Queued(t)
    decreases |s.input|
  {
    hide Lex, Execute, Queued;
    var lexed := Lex(s.cond, s.input);
    if lexed.command != Incomplete {
      var r := world(|s.h.executed|);
      ExecuteKeepsQueued(s, lexed, r);
      if !Spills(s, r) {
        ExecuteShrinks(s, lexed, r);
        ProcessKeepsQueued(Execute(s, lexed, r), world);
      }
    }
  }

  lemma ExecuteShrinks(s: Session, lexed: Lexed, r: Reaction)
    requires s.Valid() && 0 < lexed.length <= |s.input|
    ensures |Execute(s, lexed, r).input| < |s.input|
  {
  }

  lemma UnspilledHolds(s: Session)
    requires Buffered(s) && |s.pendingBuf.contents| <= s.writeBuf.Space()
    ensures Buffered(Unspilled(s)) && Held(Unspilled(s)) == Held(s)
  {
    Associate(s.h.sent, s.writeBuf.contents, s.pendingBuf.contents);
    var all := s.h.sent + (s.writeBuf.contents + s.pendingBuf.contents);
    assert all + [] == all;
  }

  lemma FlushedHolds(s: Session, out: Outgoing)
    requires Buffered(s)
    ensures Buffered(Flushed(s, out)) && Held(Flushed(s, out)) == Held(s)
  {
    hide WriteTo, SentBytes, BytesLeft;
    Associate(s.h.sent, SentBytes(s.writeBuf, out), WriteTo(s.writeBuf, out).contents);
  }

  lemma RefilledKeepsQueued(s: Session, world: World)
    requires Buffered(s) && Queued(s) && Bounded(world)
    ensures Buffered(Refilled(s, world)) && Queued(Refilled(s, world))
  {
    hide Process, Held;
    if s.pendingBuf.CanRead() && |s.pendingBuf.contents| <= s.writeBuf.Space() {
      UnspilledHolds(s);
      ProcessKeepsQueued(Unspilled(s), world);
    }
  }

  lemma StepKeepsQueued(s: Session, ev: Event, world: World)
    requires Buffered(s) && Queued(s) && Bounded(world)
    ensures var t := Step(s, ev, world); Buffered(t) && Queued(t)
  {
    hide Process, Flushed, Refilled;
    match ev
    case Readable(incoming) =>
      if !s.pendingBuf.CanRead() {
        ProcessKeepsQueued(s.(input := s.input + Filled(s, incoming)), world);
      }
    case Writable(out) =>
      RefilledKeepsQueued(s, world);
      FlushedHolds(Refilled(s, world), out);
      FlushedLogs(Refilled(s, world), out);
  }

  lemma FlushedLogs(s: Session, out: Outgoing)
    requires s.Valid()
    ensures Flushed(s, out).h == s.h.(sent := Flushed(s, out).h.sent)
  {
  }

  lemma {:induction false} RunKeepsQueued(s: Session, events: seq<Event>, world: World)
    requires Buffered(s) && Queued(s) && Bounded(world)
    ensures var t := Run(s, events, world); Buffered(t) && Queued(t)
    decreases |events|
  {
    hide Step, Queued;
    if events != [] {
      StepKeepsQueued(s, events[0], world);
      RunKeepsQueued(Step(s, events[0], world), events[1..], world);
    }
  }

  /**
   * Over every session: the bytes sent, then those to be sent, then the pending ones are
   * the greeting followed by every response in the order of the commands, if and only if
   * no command was interpreted while its text, but not its tested length, exceeded the
   * free space; and as long as something is left the session waits to write.
   */
  lemma ResponsesInOrder(greeting: seq<byte>, events: seq<Event>, world: World)
    requires |greeting| < MGMT_BUFFSIZE && Bounded(world)
    ensures var t := Run(NewSession(greeting), events, world);
            && (t.h.sent + t.writeBuf.contents + t.pendingBuf.contents == t.h.responses
                <==> forall i :: 0 <= i < |t.h.executed| ==> !t.h.executed[i].dropped)
            && (t.open && (t.writeBuf.CanRead() || t.pendingBuf.CanRead()) ==> t.wantsWrite)
  {
    RunKeepsQueued(NewSession(greeting), events, world);
    AlwaysAwake(NewSession(greeting), events, world);
  }

  /** Anything left to send keeps the session interested in writing. */
  predicate Awake(s: Session) {
    s.open && (s.writeBuf.CanRead() || s.pendingBuf.CanRead()) ==> s.wantsWrite
  }

  lemma {:induction false} AlwaysAwake(s: Session, events: seq<Event>, world: World)
    requires s.Valid() && Awake(s)
    ensures Awake(Run(s, events, world))
    decreases |events|
  {
    if events != [] {
      StepKeepsAwake(s, events[0], world);
      hide Step, Awake;
      AlwaysAwake(Step(s, events[0], world), events[1..], world);
    }
  }

  lemma StepKeepsAwake(s: Session, ev: Event, world: World)
    requires s.Valid() && Awake(s)
    ensures Awake(Step(s, ev, world))
  {
    hide WriteTo, SentBytes, BytesLeft;
    ProcessKeepsInterest(Refillable(s), world);
  }

  function Refillable(s: Session): (t: Session)
    requires s.Valid()
    ensures t.Valid()
  {
    if |s.pendingBuf.contents| <= s.writeBuf.Space() then Unspilled(s) else s
  }

  lemma {:induction false} ProcessKeepsInterest(s: Session, world: World)
    requires s.Valid()
    ensures var t := Process(s, world); t.wantsWrite == s.wantsWrite && t.open == s.open
    decreases |s.input|
  {
    hide Lex;
    var lexed := Lex(s.cond, s.input);
    if lexed.command != Incomplete && !Spills(s, world(|s.h.executed|)) {
      ProcessKeepsInterest(Execute(s, lexed, world(|s.h.executed|)), world);
    }
  }

  // ---------------------------------------------------------------------------
  // Quitting
  // ---------------------------------------------------------------------------

  /**
   * Whether the commands at hand need more than `space` bytes for their responses, looked
   * at from the outside: the commands in the input and the reactions from the n-th on.
   */
  predicate Overflows(cond: Condition, input: seq<byte>, space: int, n: nat, world: World)
    decreases |input|
  {
    var lexed := Lex(cond, input);
    lexed.command != Incomplete &&
    var r := world(n);
    if r.tested > space then r.text != []
    else Overflows(if lexed.command == Token && r.accepted then TRNS else cond, input[lexed.length..],
                   if |r.text| <= space then space - |r.text| else space, n + 1, world)
  }

  /** What interpreting a command does to the quantities that Overflows looks at. */
  lemma ExecuteAdvances(s: Session, lexed: Lexed, r: Reaction)
    requires Buffered(s) && !s.pendingBuf.CanRead() && lexed.length <= |s.input| && |r.text| < MGMT_BUFFSIZE
    ensures var t := Execute(s, lexed, r);
            && Buffered(t) && t.input == s.input[lexed.length..] && |t.h.executed| == |s.h.executed| + 1
            && t.cond == (if lexed.command == Token && r.accepted then TRNS else s.cond)
            && t.quitted == (s.quitted || lexed.command == Quit) && t.open == s.open && t.wantsWrite == s.wantsWrite
            && (if Spills(s, r) then
                  t.writeBuf == s.writeBuf && t.pendingBuf.contents == r.text
                else
                  && t.pendingBuf == s.pendingBuf
                  && t.writeBuf.Space() == s.writeBuf.Space() - (if Drops(s, r) then 0 else |r.text|))
  {
  }

  lemma {:induction false} ProcessSpillsExactly(s: Session, world: World)
    requires Buffered(s) && !s.pendingBuf.CanRead() && Bounded(world)
    ensures Process(s, world).pendingBuf.CanRead() <==>
            Overflows(s.cond, s.input, s.writeBuf.Space(), |s.h.executed|, world)
    decreases |s.input|
  {
    hide Lex, Execute, Process, Overflows, Buffered;
    BufferedIsValid(s);
    ProcessUnfolds(s, world);
    OverflowsUnfolds(s.cond, s.input, s.writeBuf.Space(), |s.h.executed|, world);
    var lexed := Lex(s.cond, s.input);
    if lexed.command != Incomplete {
      var r := world(|s.h.executed|);
      ExecuteAdvances(s, lexed, r);
      if !Spills(s, r) {
        var t := Execute(s, lexed, r);
        assert t.writeBuf.Space() == s.writeBuf.Space() - (if |r.text| <= s.writeBuf.Space() then |r.text| else 0);
        ProcessSpillsExactly(t, world);
      }
    }
  }

  lemma BufferedIsValid(s: Session)
    requires Buffered(s)
    ensures s.Valid()
  {
  }

  lemma ProcessUnfolds(s: Session, world: World)
    requires s.Valid()
    ensures var lexed, r := Lex(s.cond, s.input), world(|s.h.executed|);
            Process(s, world) == if lexed.command == Incomplete then s
                                 else if Spills(s, r) then Execute(s, lexed, r)
                                 else Process(Execute(s, lexed, r), world)
  {
    hide Lex, Execute;
  }

  lemma OverflowsUnfolds(cond: Condition, input: seq<byte>, space: int, n: nat, world: World)
    ensures var lexed, r := Lex(cond, input), world(n);
            Overflows(cond, input, space, n, world) ==
            (lexed.command != Incomplete &&
             if r.tested > space then r.text != []
             else Overflows(if lexed.command == Token && r.accepted then TRNS else cond, input[lexed.length..],
                            if |r.text| <= space then space - |r.text| else space, n + 1, world))
  {
    hide Lex;
  }

  /** When a write leaves something pending, in terms of the session before it. */
  predicate StaysPending(s: Session, world: World) {
    s.pendingBuf.CanRead() &&
    (|s.pendingBuf.contents| > s.writeBuf.Space() ||
     Overflows(s.cond, s.input, s.writeBuf.Space() - |s.pendingBuf.contents|, |s.h.executed|, world))
  }

  lemma RefilledPending(s: Session, world: World)
    requires Buffered(s) && Bounded(world)
    ensures Refilled(s, world).pendingBuf.CanRead() <==> StaysPending(s, world)
  {
    hide Process, Overflows;
    if s.pendingBuf.CanRead() && |s.pendingBuf.contents| <= s.writeBuf.Space() {
      ProcessSpillsExactly(Unspilled(s), world);
    }
  }

  /**
   * A write that sends all it has ends a session that quitted. Over every run: such a
   * session has delivered all its responses if and only if none was dropped and nothing
   * stayed pending, which is when the pending bytes did not fit or the commands behind
   * them needed more room than was left.
   */
  lemma QuitDeliversExactly(greeting: seq<byte>, events: seq<Event>, world: World, n: nat)
    requires |greeting| < MGMT_BUFFSIZE && Bounded(world)
    ensures var s := Run(NewSession(greeting), events, world);
            var refilled := Refilled(s, world);
            s.open && (s.writeBuf.CanRead() || s.pendingBuf.CanRead())
            && refilled.quitted && n >= |refilled.writeBuf.contents| ==>
              var t := Step(s, Writable(Taken(n)), world);
              && !t.open
              && (t.h.sent == t.h.responses <==> NoneDropped(t.h.executed) && !StaysPending(s, world))
  {
    hide Run, Process, Refilled, Queued, StaysPending, Step;
    NewSessionQueued(greeting);
    RunKeepsQueued(NewSession(greeting), events, world);
    AlwaysAwake(NewSession(greeting), events, world);
    var s := Run(NewSession(greeting), events, world);
    if s.open && (s.writeBuf.CanRead() || s.pendingBuf.CanRead())
       && Refilled(s, world).quitted && n >= |Refilled(s, world).writeBuf.contents| {
      RefilledPending(s, world);
      StepKeepsQueued(s, Writable(Taken(n)), world);
      LastWrite(s, n, world);
      AllSent(Step(s, Writable(Taken(n)), world));
    }
  }

  lemma NewSessionQueued(greeting: seq<byte>)
    requires |greeting| < MGMT_BUFFSIZE
    ensures Buffered(NewSession(greeting)) && Queued(NewSession(greeting))
  {
  }

  lemma LastWrite(s: Session, n: nat, world: World)
    requires s.Valid() && s.open && s.wantsWrite && (s.writeBuf.CanRead() || s.pendingBuf.CanRead())
    requires Refilled(s, world).quitted && n >= |Refilled(s, world).writeBuf.contents|
    ensures var t := Step(s, Writable(Taken(n)), world);
            && !t.open && t.pendingBuf == Refilled(s, world).pendingBuf && !t.writeBuf.CanRead()
  {
    hide Refilled;
  }

  /** With nothing left to write, what was sent is everything exactly if nothing is pending or was dropped. */
  lemma AllSent(t: Session)
    requires Queued(t) && !t.writeBuf.CanRead()
    ensures t.h.sent == t.h.responses <==> NoneDropped(t.h.executed) && !t.pendingBuf.CanRead()
  {
    assert Held(t) == t.h.sent + t.pendingBuf.contents;
  }

  // ---------------------------------------------------------------------------
  // The token gate
  // ---------------------------------------------------------------------------

  predicate Granted(log: seq<Executed>) {
    exists j :: 0 <= j < |log| && log[j].accepted
  }

  /** Privileged commands only with a token accepted before them; the condition says whether there was one. */
  predicate GateKept(s: Session) {
    && (s.cond == TRNS <==> Granted(s.h.executed))
    && (forall i :: 0 <= i < |s.h.executed| ==> PermittedAt(s.h.executed, i))
  }

  predicate PermittedAt(log: seq<Executed>, i: nat)
    requires i < |log|
  {
    && log[i].clear
    && (log[i].accepted ==> log[i].command == Token)
    && (log[i].command.Privileged() ==> log[i].cond == TRNS)
    && (log[i].cond == TRNS <==> Granted(log[..i]))
  }

  lemma GrantedMore(log: seq<Executed>, e: Executed)
    ensures Granted(log + [e]) <==> Granted(log) || e.accepted
  {
    var more := log + [e];
    if Granted(log) {
      var j :| 0 <= j < |log| && log[j].accepted;
      assert more[j].accepted;
    }
    if e.accepted {
      assert more[|log|].accepted;
    }
  }

  lemma ExecuteKeepsGate(s: Session, r: Reaction)
    requires s.Valid() && GateKept(s) && !s.pendingBuf.CanRead() && Lex(s.cond, s.input).command != Incomplete
    ensures GateKept(Execute(s, Lex(s.cond, s.input), r))
  {
    hide Lex, Granted;
    var lexed := Lex(s.cond, s.input);
    var log, t := s.h.executed, Execute(s, lexed, r);
    var e := Executed(lexed.command, s.cond, lexed.command == Token && r.accepted, true, Drops(s, r));
    Gate(s.cond, s.input);
    GrantedMore(log, e);
    forall i | 0 <= i < |t.h.executed|
      ensures PermittedAt(t.h.executed, i)
    {
      if i < |log| {
        assert PermittedAt(log, i);
        assert t.h.executed[..i] == log[..i];
      } else {
        assert t.h.executed[..i] == log;
      }
    }
  }

  lemma {:induction false} ProcessKeepsGate(s: Session, world: World)
    requires s.Valid() && GateKept(s) && !s.pendingBuf.CanRead()
    ensures GateKept(Process(s, world))
    ensures s.h.executed <= Process(s, world).h.executed
    decreases |s.input|
  {
    hide GateKept;
    var lexed := Lex(s.cond, s.input);
    if lexed.command != Incomplete {
      var r := world(|s.h.executed|);
      ExecuteKeepsGate(s, r);
      if !Spills(s, r) {
        ProcessKeepsGate(Execute(s, lexed, r), world);
      }
    }
  }

  lemma StepKeepsGate(s: Session, ev: Event, world: World)
    requires s.Valid() && GateKept(s)
    ensures GateKept(Step(s, ev, world))
    ensures s.h.executed <= Step(s, ev, world).h.executed
  {
    hide Process, Granted, PermittedAt;
    match ev
    case Readable(incoming) =>
      if !s.pendingBuf.CanRead() {
        ProcessKeepsGate(s.(input := s.input + Filled(s, incoming)), world);
      }
    case Writable(out) =>
      if s.pendingBuf.CanRead() && |s.pendingBuf.contents| <= s.writeBuf.Space() {
        ProcessKeepsGate(Unspilled(s), world);
      }
  }

  lemma {:induction false} RunKeepsGate(s: Session, events: seq<Event>, world: World)
    requires s.Valid() && GateKept(s)
    ensures GateKept(Run(s, events, world))
    ensures s.h.executed <= Run(s, events, world).h.executed
    decreases |events|
  {
    hide Step, GateKept;
    if events != [] {
      StepKeepsGate(s, events[0], world);
      RunKeepsGate(Step(s, events[0], world), events[1..], world);
    }
  }

  /**
   * Over every session and every input: no command is interpreted while a response is
   * pending, each privileged command was preceded by an accepted token, and once a token
   * was accepted the condition never reverts.
   */
  lemma TokenGate(greeting: seq<byte>, events: seq<Event>, later: seq<Event>, world: World, i: nat)
    requires |greeting| < MGMT_BUFFSIZE
    ensures var t := Run(NewSession(greeting), events, world);
            var u := Run(t, later, world);
            && (i < |t.h.executed| ==> t.h.executed[i].clear)
            && (i < |t.h.executed| && t.h.executed[i].command.Privileged() ==>
                  exists j :: 0 <= j < i && t.h.executed[j].command == Token && t.h.executed[j].accepted)
            && (t.cond == TRNS ==> u.cond == TRNS)
  {
    hide Run;
    var s := NewSession(greeting);
    RunKeepsGate(s, events, world);
    var t := Run(s, events, world);
    RunKeepsGate(t, later, world);
    var u := Run(t, later, world);
    assert i < |t.h.executed| ==> PermittedAt(t.h.executed, i);
    if i < |t.h.executed| && t.h.executed[i].command.Privileged() {
      var j :| 0 <= j < |t.h.executed[..i]| && t.h.executed[..i][j].accepted;
      assert PermittedAt(t.h.executed, j);
      assert t.h.executed[j].accepted;
    }
    if t.cond == TRNS {
      var j :| 0 <= j < |t.h.executed| && t.h.executed[j].accepted;
      assert u.h.executed[j].accepted;
    }
  }

  // ---------------------------------------------------------------------------
  // The session object
  // ---------------------------------------------------------------------------

  class MgmtClient {
    var cond: Condition
    var input: seq<byte>
    const writeBuf: Buffer
    const pendingBuf: Buffer
    var quitted: bool
    var open: bool
    var wantsWrite: bool
    ghost var h: Log

    ghost predicate Valid()
      reads this, writeBuf, pendingBuf
    {
      writeBuf != pendingBuf && writeBuf.data != pendingBuf.data && writeBuf.Valid() && pendingBuf.Valid()
    }

    ghost function View(): (s: Session)
      requires Valid()
      reads this, writeBuf, writeBuf.data, pendingBuf, pendingBuf.data
      ensures s.Valid()
    {
      Session(cond, input, writeBuf.View(), pendingBuf.View(), quitted, open, wantsWrite, h)
    }

    constructor (greeting: seq<byte>)
      requires |greeting| < MGMT_BUFFSIZE
      ensures Valid() && View() == NewSession(greeting)
    {
      var writeRaw := new byte[MGMT_BUFFSIZE];
      var pendingRaw := new byte[MGMT_BUFFSIZE];
      cond, input, quitted, open, wantsWrite := PASS, [], false, true, true;
      writeBuf := new Buffer(writeRaw);
      pendingBuf := new Buffer(pendingRaw);
      h := Log([], greeting, []);
      new;
      writeBuf.Append(greeting);
    }

    /** write_response */
    static method WriteText(b: Buffer, text: seq<byte>)
      requires b.Valid()
      modifies b`write, b.data
      ensures b.Valid() && b.View() == WriteResponse(old(b.View()), text)
    {
      var size := b.WriteSpace();
      if |text| > size {
        return;
      }
      b.Append(text);
    }

    /** The end of the loop body: the response goes to one buffer or the other. */
    method StoreResponse(r: Reaction) returns (spilled: bool)
      requires Valid()
      modifies writeBuf, writeBuf.data, pendingBuf, pendingBuf.data
      ensures Valid() && spilled == Spills(old(View()), r)
      ensures View() == if spilled then old(View()).(pendingBuf := WriteResponse(old(View()).pendingBuf, r.text))
                        else old(View()).(writeBuf := WriteResponse(old(View()).writeBuf, r.text))
    {
      hide WriteResponse;
      var space := writeBuf.WriteSpace();
      spilled := r.tested > space;
      if spilled {
        WriteText(pendingBuf, r.text);
      } else {
        WriteText(writeBuf, r.text);
      }
    }

    /** One pass of the loop in processMgmtClient, after a verdict other than INCOMPLETE. */
    method ExecuteOne(lexed: Lexed, r: Reaction) returns (spilled: bool)
      requires Valid() && lexed.length <= |input|
      modifies this, writeBuf, writeBuf.data, pendingBuf, pendingBuf.data
      ensures Valid() && View() == Execute(old(View()), lexed, r)
      ensures spilled == Spills(old(View()), r)
    {
      hide WriteResponse;
      ghost var entry := Executed(lexed.command, cond, lexed.command == Token && r.accepted,
                                  !pendingBuf.CanRead(), Drops(View(), r));
      spilled := StoreResponse(r);
      h := h.(responses := h.responses + r.text, executed := h.executed + [entry]);
      input := input[lexed.length..];
      cond := if lexed.command == Token && r.accepted then TRNS else cond;
      quitted := quitted || lexed.command == Quit;
    }

    /** `world` reacts to the commands; `done` counts those interpreted before. */
    method ProcessMgmtClient(world: World, done: nat) returns (n: nat)
      requires Valid() && done == |h.executed|
      modifies this, writeBuf, writeBuf.data, pendingBuf, pendingBuf.data
      ensures Valid() && View() == Process(old(View()), world) && n == |h.executed|
    {
      hide Lex, Execute;
      n := done;
      var lexed := Lex(cond, input);
      while lexed.command != Incomplete
        invariant Valid() && n == |h.executed| && lexed == Lex(cond, input)
        invariant Process(View(), world) == Process(old(View()), world)
        decreases |input|
      {
        ghost var s := View();
        ExecuteShrinks(s, lexed, world(n));
        var spilled := ExecuteOne(lexed, world(n));
        ExecuteCounts(s, lexed, world(n));
        n := n + 1;
        if spilled {
          return;
        }
        lexed := Lex(cond, input);
      }
    }

    method HandleReadable(incoming: Incoming, world: World, done: nat) returns (n: nat)
      requires Valid() && done == |h.executed|
      modifies this, writeBuf, writeBuf.data, pendingBuf, pendingBuf.data
      ensures Valid() && View() == HandleRead(old(View()), incoming, world) && n == |h.executed|
    {
      hide Process;
      n := done;
      if pendingBuf.CanRead() {
        return;
      }
      var got: seq<byte> := [];
      if incoming.Arrived? && |input| <= MGMT_BUFFSIZE {
        got := incoming.bytes[..Min(|incoming.bytes|, MGMT_BUFFSIZE - |input|)];
      }
      if incoming.ReadError? || (incoming.Arrived? && got == []) {
        open := false;
        return;
      }
      input := input + got;
      n := ProcessMgmtClient(world, done);
      wantsWrite := true;
    }

    /** copy_from_buf, and the commands that may be interpreted again once nothing is pending */
    method Refill(world: World, done: nat) returns (n: nat)
      requires Valid() && done == |h.executed|
      modifies this, writeBuf, writeBuf.data, pendingBuf, pendingBuf.data
      ensures Valid() && View() == Refilled(old(View()), world) && n == |h.executed|
    {
      hide Process;
      n := done;
      var waiting := pendingBuf.ReadWindow();
      if |waiting| > 0 && |waiting| <= writeBuf.WriteSpace() {
        writeBuf.Append(waiting);
        pendingBuf.ReadAdv(|waiting|);
        n := ProcessMgmtClient(world, done);
      }
    }

    method HandleWritable(out: Outgoing, world: World, done: nat) returns (n: nat)
      requires Valid() && done == |h.executed|
      modifies this, writeBuf, writeBuf.data, pendingBuf, pendingBuf.data
      ensures Valid() && View() == HandleWrite(old(View()), out, world) && n == |h.executed|
    {
      hide Refilled, WriteTo, SentBytes, BytesLeft;
      n := done;
      if !writeBuf.CanRead() && !pendingBuf.CanRead() {
        wantsWrite := false;
        return;
      }
      n := Refill(world, done);
      h := h.(sent := h.sent + SentBytes(writeBuf.View(), out));
      var left := WriteToSock(writeBuf, out);
      if left == 0 {
        if quitted {
          open := false;
        }
      }
      if left < 0 {
        open := false;
      }
    }
  }

  lemma ExecuteCounts(s: Session, lexed: Lexed, r: Reaction)
    requires s.Valid() && lexed.length <= |s.input|
    ensures |Execute(s, lexed, r).h.executed| == |s.h.executed| + 1
  {
  }
}
