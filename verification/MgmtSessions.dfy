/**
 * Management sessions from the outside: the commands that are interpreted are those in the
 * bytes that arrived, however these were cut, and the events that close a session.
 */
module MgmtSessions {
  import opened Common
  import opened Buffers
  import opened SocketsIO
  import opened MgmtLexer
  import opened Mgmt

  // ---------------------------------------------------------------------------
  // Commands
  // ---------------------------------------------------------------------------

  /** The commands in a stream of bytes, as far as they are complete; the n-th reaction decides on the n-th token. */
  function Commands(cond: Condition, s: seq<byte>, n: nat, world: World): seq<Command>
    decreases |s|
  {
    var lexed := Lex(cond, s);
    if lexed.command == Incomplete then []
    else
      [lexed.command] + Commands(if lexed.command == Token && world(n).accepted then TRNS else cond,
                                 s[lexed.length..], n + 1, world)
  }

  function Names(log: seq<Executed>): (r: seq<Command>)
    ensures |r| == |log|
  {
    if log == [] then [] else Names(log[..|log| - 1]) + [log[|log| - 1].command]
  }

  /** What a session has interpreted, and what it would if some more bytes came. */
  function Interpreted(s: Session, more: seq<byte>, world: World): seq<Command> {
    Names(s.h.executed) + Commands(s.cond, s.input + more, |s.h.executed|, world)
  }

  /** The bytes that an event adds to the input. */
  function FilledBy(s: Session, ev: Event): seq<byte> {
    if s.open && ev.Readable? && !s.pendingBuf.CanRead() && !ev.incoming.ReadError? then Filled(s, ev.incoming) else []
  }

  function AllFilled(s: Session, events: seq<Event>, world: World): seq<byte>
    requires s.Valid()
    decreases |events|
  {
    if events == [] then [] else FilledBy(s, events[0]) + AllFilled(Step(s, events[0], world), events[1..], world)
  }

  lemma NamesMore(log: seq<Executed>, e: Executed)
    ensures Names(log + [e]) == Names(log) + [e.command]
  {
    assert (log + [e])[..|log|] == log;
  }

  lemma CommandsUnfold(cond: Condition, s: seq<byte>, n: nat, world: World)
    ensures var lexed := Lex(cond, s);
            Commands(cond, s, n, world) ==
            if lexed.command == Incomplete then []
            else [lexed.command] + Commands(if lexed.command == Token && world(n).accepted then TRNS else cond,
                                            s[lexed.length..], n + 1, world)
  {
    hide Lex;
  }

  lemma ExecuteInterprets(s: Session, more: seq<byte>, world: World)
    requires s.Valid() && Lex(s.cond, s.input).command != Incomplete
    ensures Interpreted(Execute(s, Lex(s.cond, s.input), world(|s.h.executed|)), more, world)
         == Interpreted(s, more, world)
  {
    hide Lex, Commands, Names, Spills, Drops, WriteResponse;
    var lexed, r := Lex(s.cond, s.input), world(|s.h.executed|);
    var t := Execute(s, lexed, r);
    VerdictIsStable(s.cond, s.input, more);
    CommandsUnfold(s.cond, s.input + more, |s.h.executed|, world);
    assert (s.input + more)[lexed.length..] == s.input[lexed.length..] + more;
    NamesMore(s.h.executed, t.h.executed[|s.h.executed|]);
    Grouped(Names(s.h.executed), [lexed.command], Commands(t.cond, t.input + more, |t.h.executed|, world));
  }

  lemma Grouped(a: seq<Command>, b: seq<Command>, c: seq<Command>)
    ensures (a + b) + c == a + (b + c)
  {
  }

  lemma {:induction false} ProcessInterprets(s: Session, more: seq<byte>, world: World)
    requires s.Valid()
    ensures Interpreted(Process(s, world), more, world) == Interpreted(s, more, world)
    decreases |s.input|
  {
    hide Lex, Execute, Interpreted, Process;
    ProcessUnfolds(s, world);
    var lexed := Lex(s.cond, s.input);
    if lexed.command != Incomplete {
      var t := Execute(s, lexed, world(|s.h.executed|));
      ExecuteInterprets(s, more, world);
      ExecuteShortens(s, lexed, world(|s.h.executed|));
      ProcessInterprets(t, more, world);
    }
  }

  lemma ExecuteShortens(s: Session, lexed: Lexed, r: Reaction)
    requires s.Valid() && 0 < lexed.length <= |s.input|
    ensures |Execute(s, lexed, r).input| < |s.input|
  {
  }

  /** Only these parts of a session matter to what it interprets. */
  lemma SameInterpreted(s: Session, t: Session, more: seq<byte>, world: World)
    requires t.cond == s.cond && t.input == s.input && t.h.executed == s.h.executed
    ensures Interpreted(t, more, world) == Interpreted(s, more, world)
  {
  }

  lemma StepInterprets(s: Session, ev: Event, more: seq<byte>, world: World)
    requires s.Valid()
    ensures Interpreted(Step(s, ev, world), more, world) == Interpreted(s, FilledBy(s, ev) + more, world)
  {
    hide Interpreted, Process, Filled, WriteTo, SentBytes, BytesLeft;
    assert [] + more == more;
    match ev
    case Readable(incoming) =>
      if s.open && !s.pendingBuf.CanRead() {
        var got := Filled(s, incoming);
        var t := s.(input := s.input + got);
        ProcessInterprets(t, more, world);
        FillInterprets(s, got, more, world);
        SameInterpreted(s, s.(open := false), more, world);
        SameInterpreted(Process(t, world), Process(t, world).(wantsWrite := true), more, world);
        if incoming.ReadError? { NothingFilled(s, incoming); }
      }
    case Writable(out) =>
      SameInterpreted(s, s.(wantsWrite := false), more, world);
      RefilledInterprets(s, more, world);
      SameInterpreted(Refilled(s, world), Flushed(Refilled(s, world), out), more, world);
  }

  lemma NothingFilled(s: Session, incoming: Incoming)
    requires !incoming.Arrived?
    ensures Filled(s, incoming) == []
  {
  }

  lemma FillInterprets(s: Session, got: seq<byte>, more: seq<byte>, world: World)
    ensures Interpreted(s.(input := s.input + got), more, world) == Interpreted(s, got + more, world)
  {
    hide Commands, Names;
    Associate(s.input, got, more);
  }

  lemma RefilledInterprets(s: Session, more: seq<byte>, world: World)
    requires s.Valid()
    ensures Interpreted(Refilled(s, world), more, world) == Interpreted(s, more, world)
  {
    hide Interpreted, Process;
    if s.pendingBuf.CanRead() && |s.pendingBuf.contents| <= s.writeBuf.Space() {
      SameInterpreted(s, Unspilled(s), more, world);
      ProcessInterprets(Unspilled(s), more, world);
    }
  }

  lemma {:induction false} RunInterprets(s: Session, events: seq<Event>, more: seq<byte>, world: World)
    requires s.Valid()
    ensures Interpreted(Run(s, events, world), more, world)
         == Interpreted(s, AllFilled(s, events, world) + more, world)
    decreases |events|
  {
    hide Interpreted, Step, FilledBy;
    if events == [] {
      assert [] + more == more;
    } else {
      var t := Step(s, events[0], world);
      RunInterprets(t, events[1..], more, world);
      StepInterprets(s, events[0], AllFilled(t, events[1..], world) + more, world);
      Associate(FilledBy(s, events[0]), AllFilled(t, events[1..], world), more);
    }
  }

  /**
   * Over every session, whatever comes later: the commands interpreted so far, followed by
   * those still to come, are the commands of all the bytes that arrived, as if these had come
   * at once and no response had ever had to wait.
   */
  lemma CommandsAreThoseSent(greeting: seq<byte>, events: seq<Event>, more: seq<byte>, world: World)
    requires |greeting| < MGMT_BUFFSIZE
    ensures var s, t := NewSession(greeting), Run(NewSession(greeting), events, world);
            Names(t.h.executed) + Commands(t.cond, t.input + more, |t.h.executed|, world)
            == Commands(PASS, AllFilled(s, events, world) + more, 0, world)
  {
    hide Commands, Run, AllFilled;
    var s := NewSession(greeting);
    RunInterprets(s, events, more, world);
    assert [] + (AllFilled(s, events, world) + more) == AllFilled(s, events, world) + more;
    assert Names([]) == [];
  }

  /** How many of the first bytes that arrived are taken: what fits into 2048 bytes of input. */
  lemma FilledExactly(s: Session, bytes: seq<byte>)
    ensures var got := Filled(s, Arrived(bytes));
            && got <= bytes
            && |got| == (if |s.input| >= 2048 then 0
                         else if |s.input| + |bytes| <= 2048 then |bytes| else 2048 - |s.input|)
  {
  }

  // ---------------------------------------------------------------------------
  // Closing
  // ---------------------------------------------------------------------------

  /**
   * What closes an open session. A read does, when nothing is pending and the stream is over,
   * the read fails, or 2048 bytes wait already. A write does, when there is
   * something to send and the send does not succeed, even if only for now, or takes all that a
   * session that quitted has.
   */
  lemma ClosesExactly(s: Session, ev: Event, world: World)
    requires s.Valid() && s.open
    ensures !Step(s, ev, world).open <==>
            match ev
            case Readable(incoming) =>
              && !s.pendingBuf.CanRead()
              && (incoming.ReadError? || (incoming.Arrived? && (incoming.bytes == [] || |s.input| >= 2048)))
            case Writable(out) =>
              && s.wantsWrite && (s.writeBuf.CanRead() || s.pendingBuf.CanRead())
              && (out.SendAgain? || out.SendError?
                  || (Refilled(s, world).quitted && |Refilled(s, world).writeBuf.contents| <= out.n))
  {
    hide Process, WriteTo, SentBytes;
    match ev
    case Readable(incoming) =>
      ProcessKeepsInterest(s.(input := s.input + Filled(s, incoming)), world);
    case Writable(out) =>
      RefilledStaysOpen(s, world);
      if out.Taken? { SentExactly(Refilled(s, world).writeBuf, out.n); }
  }

  /** A session with nothing to send is no longer asked about writing, and nothing else changes. */
  lemma IdleStopsAsking(s: Session, out: Outgoing, world: World)
    requires s.Valid() && s.open && s.wantsWrite && !s.writeBuf.CanRead() && !s.pendingBuf.CanRead()
    ensures Step(s, Writable(out), world) == s.(wantsWrite := false)
  {
  }

  lemma RefilledStaysOpen(s: Session, world: World)
    requires s.Valid()
    ensures Refilled(s, world).open == s.open
  {
    hide Process;
    if s.pendingBuf.CanRead() && |s.pendingBuf.contents| <= s.writeBuf.Space() {
      ProcessKeepsInterest(Unspilled(s), world);
    }
  }
}
