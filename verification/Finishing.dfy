/**
 * From every reachable state a connection can be brought to its end, with everything
 * delivered, by events that select() would report; what the end of a connection discards;
 * and the one way in which a handshake is cut short although its client goes on.
 */
module Finishing {
  import opened Common
  import opened Buffers
  import opened SocketsIO
  import opened Selectors
  import opened Handshake
  import opened Users
  import opened Connections
  import opened Invariants
  import opened Preservation
  import opened Progress
  import opened Theorems

  /** Every event is one that select() can report when its turn comes. */
  predicate AllEffective(c: Conn, events: seq<Event>)
    requires c.Valid()
    decreases |events|
  {
    events == [] ||
    (&& Effective(c, events[0].kind)
     && Step(c, events[0]).Next?
     && AllEffective(Step(c, events[0]).conn, events[1..]))
  }

  predicate Finishes(c: Conn, events: seq<Event>)
    requires c.Valid()
  {
    && AllEffective(c, events)
    && Run(c, events).Next?
    && Ended(Run(c, events).conn)
  }

  /** Ended without a failed send to the client, and with nothing kept back from an origin that took it all. */
  predicate Ended(c: Conn) {
    && c.State() == DONE && !c.h.clientFailed
    && (c.h.connected && !c.h.originFailed ==> !c.originBuf.CanRead())
  }

  /** Peers that are gone and a kernel that refuses new sockets. */
  const QUIET: Env :=
    Env(Arrived([]), Taken(0), [], 0, false, false, -1, None, Some(OtherError), [0, 0, 0, 0],
        [0, 0, 0, 0, 0, 0, 0, 0, 0, 0, 0, 0, 0, 0, 0, 0], [0, 0], [])

  lemma Prepend(c: Conn, ev: Event, rest: seq<Event>)
    requires c.Valid() && Effective(c, ev.kind) && Step(c, ev).Next? && Finishes(Step(c, ev).conn, rest)
    ensures Finishes(c, [ev] + rest)
  {
    hide Step;
    assert ([ev] + rest)[1..] == rest;
  }

  // ---------------------------------------------------------------------------
  // Relaying: drain, end of the origin's stream, end
  // ---------------------------------------------------------------------------

  lemma SendAll(c: Conn)
    requires Inv(c) && c.State() in {PROXY, WRITE_REMAINING} && c.clientBuf.CanRead()
    ensures var ev := Event(Writable(ClientSide), QUIET.(outgoing := Taken(|c.clientBuf.contents|)));
            && Effective(c, ev.kind) && c.Valid()
            && Step(c, ev).Next?
            && var d := Step(c, ev).conn;
               d.State() == c.State() && !d.clientBuf.CanRead() && d.originBuf == c.originBuf && d.ends == c.ends
  {
    hide CloseClient, Conserved, Gated, Counted, InListOrder, ClosedOnce, Replied;
  }

  lemma EndOrigin(c: Conn)
    requires Inv(c) && c.State() in {PROXY, WRITE_REMAINING} && !c.clientBuf.CanRead() && c.ends.originRead
    ensures var ev := Event(Readable(OriginSide), QUIET);
            && Effective(c, ev.kind) && c.Valid()
            && Step(c, ev).Next?
            && var d := Step(c, ev).conn;
               && d.State() in {PROXY, WRITE_REMAINING} && !d.clientBuf.CanRead() && !d.ends.originRead
               && d.originBuf == c.originBuf && d.ends.originWrite == c.ends.originWrite
  {
    hide CloseClient, EnableWrite, Conserved, Gated, Counted, InListOrder, ClosedOnce, Replied;
    CloseClientClosedForm(c, ORIGIN_READ);
    ReceivedNothing(c.clientBuf, QUIET.incoming);
    assert ReceiveFromOrigin(c, QUIET.incoming) == c;
  }

  lemma Finished(c: Conn)
    requires c.Valid() && Ended(c)
    ensures Finishes(c, [])
  {
  }

  /** What the client sent is handed over as long as the origin listens. */
  lemma DrainOrigin(c: Conn)
    requires Inv(c) && c.State() in {PROXY, WRITE_REMAINING} && !c.clientBuf.CanRead()
    requires c.ends.originWrite && c.originBuf.CanRead()
    ensures var ev := Event(Writable(OriginSide), QUIET.(outgoing := Taken(|c.originBuf.contents|)));
            && Effective(c, ev.kind) && c.Valid()
            && Step(c, ev).Next?
            && var d := Step(c, ev).conn;
               d.State() == c.State() && !d.clientBuf.CanRead() && !d.originBuf.CanRead()
  {
    hide CloseClient, Conserved, Gated, Counted, InListOrder, ClosedOnce, Replied;
  }

  lemma EndClient(c: Conn)
    requires Inv(c) && c.State() in {PROXY, WRITE_REMAINING} && !c.clientBuf.CanRead() && !c.ends.originRead
    ensures var ev := Event(Writable(ClientSide), QUIET);
            && Effective(c, ev.kind) && c.Valid()
            && Step(c, ev).Next?
            && var d := Step(c, ev).conn;
               && d.State() == DONE && !d.h.clientFailed && d.originBuf == c.originBuf
               && d.h.originFailed == c.h.originFailed && d.h.connected == c.h.connected
               && ((c.ends.originWrite ==> !c.originBuf.CanRead()) ==> Ended(d))
  {
    hide CloseClient, EnableWrite, Conserved, Gated, Counted, InListOrder, Replied;
    CloseClientClosedForm(c, CLIENT_WRITE);
  }

  lemma FinishRelay(c: Conn) returns (events: seq<Event>)
    requires Inv(c) && c.State() in {PROXY, WRITE_REMAINING}
    ensures c.Valid() && Finishes(c, events)
    decreases c.clientBuf.CanRead(), c.ends.originWrite && c.originBuf.CanRead(), c.ends.originRead
  {
    hide Inv, Step, Finishes, Effective, Ended;
    InvIsValid(c);
    if c.clientBuf.CanRead() {
      var ev := Event(Writable(ClientSide), QUIET.(outgoing := Taken(|c.clientBuf.contents|)));
      SendAll(c);
      StepKeeps(c, ev);
      var rest := FinishRelay(Step(c, ev).conn);
      Prepend(c, ev, rest);
      events := [ev] + rest;
    } else if c.ends.originWrite && c.originBuf.CanRead() {
      var ev := Event(Writable(OriginSide), QUIET.(outgoing := Taken(|c.originBuf.contents|)));
      DrainOrigin(c);
      StepKeeps(c, ev);
      var rest := FinishRelay(Step(c, ev).conn);
      Prepend(c, ev, rest);
      events := [ev] + rest;
    } else if c.ends.originRead {
      var ev := Event(Readable(OriginSide), QUIET);
      EndOrigin(c);
      StepKeeps(c, ev);
      var rest := FinishRelay(Step(c, ev).conn);
      Prepend(c, ev, rest);
      events := [ev] + rest;
    } else {
      var ev := Event(Writable(ClientSide), QUIET);
      EndClient(c);
      Finished(Step(c, ev).conn);
      Prepend(c, ev, []);
      events := [ev] + [];
    }
  }

  // ---------------------------------------------------------------------------
  // Before relaying
  // ---------------------------------------------------------------------------

  /** Where a dispatched read takes the state machine. */
  lemma ReadStep(c: Conn, env: Env, handler: Handler, next: State)
    requires c.Valid() && Dispatched(c, Readable(ClientSide)) && OnRead(c.State()) == Some(handler)
    requires var r := RunHandler(handler, c.(current := Some(c.State())), ClientSide, env); r.Next? && r.state == next
    ensures var r := Step(c, Event(Readable(ClientSide), env)); r.Next? && r.conn.State() == next
  {
    hide RunHandler, EnableWrite;
  }

  /** A client that leaves during the handshake. */
  lemma LeaveHandshake(c: Conn)
    requires Inv(c) && c.State().Handshaking()
    ensures var ev := Event(Readable(ClientSide), QUIET);
            && Effective(c, ev.kind) && c.Valid()
            && Step(c, ev).Next? && Step(c, ev).conn.State() == WRITE_REMAINING
  {
    hide Step, CloseClient, Refuse, EnableWrite, Conserved, Gated, Counted, InListOrder, ClosedOnce, Replied,
         ParseGreeting, ParseLogin, ParseRequest;
    var d := c.(current := Some(c.State()));
    ReceivedNothing(c.originBuf, QUIET.incoming);
    assert ReceiveFromClient(d, QUIET.incoming) == d;
    CloseClientClosedForm(d, CLIENT_READ);
    RefusalLeaves(d, CommandNotSupported);
    ReadStep(c, QUIET, OnRead(c.State()).value, WRITE_REMAINING);
  }

  lemma Resolve(c: Conn)
    requires Inv(c) && c.State() == RESOLVING
    ensures var ev := Event(ResolverDone, QUIET);
            && Effective(c, ev.kind) && c.Valid()
            && Step(c, ev).Next? && Step(c, ev).conn.State() == CONNECTING
  {
    hide Conserved, Gated, Counted, InListOrder, ClosedOnce, Replied;
  }

  /** The descriptor that a connection attempt waits for. */
  function Awaited(c: Conn): Side {
    if c.originItem.Used() then OriginSide else ClientSide
  }

  lemma FailToConnect(c: Conn)
    requires Inv(c) && c.State() == CONNECTING
    ensures var ev := Event(Writable(Awaited(c)), QUIET);
            && Effective(c, ev.kind) && c.Valid()
            && Step(c, ev).Next? && Step(c, ev).conn.State() == WRITE_REMAINING
  {
    hide CloseClient, Conserved, Gated, Counted, ClosedOnce, Replied, Refuse;
    var side := Awaited(c);
    var d := if side == ClientSide then c.Change(ClientSide, RemoveInterest(OP_WRITE))
             else c.(originItem := UNUSED_ITEM);
    RefusalLeaves(d, HostUnreachable);
    RefusalLeaves(d, CheckConnectionError(OtherError));
    var e := if side == ClientSide || |c.addrs| < 2 then d else d.(addrs := d.addrs[1..]);
    if e.addrs != [] {
      RefusalLeaves(e.(originSock := -1, originItem := UNUSED_ITEM,
                       h := e.h.(tried := e.h.tried + [e.addrs[0]])), ServerFailure);
    }
  }

  lemma RefusalLeaves(c: Conn, code: ReplyCode)
    requires c.Valid() && c.ends == CLIENT
    ensures var r := Refuse(c, code); r.Next? && r.state == WRITE_REMAINING
  {
    hide CloseClient, ReplyInto, EnableWrite;
    CloseClientClosedForm(ServerReply(c, FailureReply(code)), CLIENT_READ);
  }

  /** No state before the end is a dead end. */
  lemma FinishFrom(c: Conn) returns (events: seq<Event>)
    requires Inv(c) && c.State() != DONE
    ensures c.Valid() && Finishes(c, events)
    decreases c.State() == RESOLVING, c.State() == CONNECTING, c.State() != WRITE_REMAINING
  {
    hide Inv, Step, Finishes, Effective;
    InvIsValid(c);
    var ev: Event;
    match c.State() {
      case PROXY | WRITE_REMAINING =>
        events := FinishRelay(c);
        return;
      case AUTH_METHOD | PLAIN_AUTH | REQUEST =>
        ev := Event(Readable(ClientSide), QUIET);
        LeaveHandshake(c);
      case RESOLVING =>
        ev := Event(ResolverDone, QUIET);
        Resolve(c);
      case CONNECTING =>
        ev := Event(Writable(Awaited(c)), QUIET);
        FailToConnect(c);
    }
    StepKeeps(c, ev);
    var rest := FinishFrom(Step(c, ev).conn);
    Prepend(c, ev, rest);
    events := [ev] + rest;
  }

  /** In both directions: the client has all that was for it, and so has a connected origin that did not fail. */
  predicate AllDelivered(h: History) {
    && h.sentClient == h.replied + h.readOrigin
    && (h.connected && !h.originFailed ==> h.consumed + h.sentOrigin == h.readClient)
  }

  /**
   * From every reachable state, some events that select() would report end the
   * connection with everything delivered: every reply and every byte read from the origin
   * to the client, and every byte read from the client to a connected origin that takes it.
   */
  lemma CanAlwaysFinish(c: Conn)
    requires Reachable(c) && c.State() != DONE
    ensures c.Valid()
    ensures exists events :: Finishes(c, events) && AllDelivered(Run(c, events).conn.h)
  {
    hide Inv, Finishes, Reachable, Run;
    ReachableInv(c);
    var events := FinishFrom(c);
    Delivered(c, events);
  }

  lemma Delivered(c: Conn, events: seq<Event>)
    requires Inv(c) && c.Valid() && Finishes(c, events)
    ensures Run(c, events).Next? && AllDelivered(Run(c, events).conn.h)
  {
    hide Run, AllEffective, Shape;
    RunKeeps(c, events);
    var d := Run(c, events).conn;
    assert !d.ends.clientWrite by { DoneHasNoEnds(d); }
    assert d.h.sentClient + d.clientBuf.contents == d.h.sentClient;
    if !d.originBuf.CanRead() {
      assert d.h.consumed + d.h.sentOrigin + d.originBuf.contents == d.h.consumed + d.h.sentOrigin;
    }
  }

  lemma DoneHasNoEnds(d: Conn)
    requires Inv(d) && d.State() == DONE
    ensures d.ends.None()
  {
  }

  // ---------------------------------------------------------------------------
  // Teardown
  // ---------------------------------------------------------------------------

  lemma CloseKeepsClientWrite(c: Conn, asked: Ends)
    requires c.Valid() && !asked.clientWrite
    ensures CloseClient(c, asked).conn.ends.clientWrite == c.ends.clientWrite
  {
    hide CloseClient, CloseEnds, EnableWrite;
    CloseClientClosedForm(c, asked);
  }

  lemma ReadKeepsClientWrite(c: Conn, side: Side, env: Env)
    requires c.Valid()
    ensures var r := HandleProxyRead(c, side, env); r.Next? && r.conn.ends.clientWrite == c.ends.clientWrite
  {
    hide CloseClient, ReadFrom, ReceivedBytes, Changed;
    CloseKeepsClientWrite(ReceiveFromClient(c, env.incoming), CLIENT_READ);
    CloseKeepsClientWrite(ReceiveFromOrigin(c, env.incoming), ORIGIN_READ);
  }

  lemma OriginWriteKeepsClientWrite(c: Conn, env: Env)
    requires c.Valid()
    ensures var r := HandleProxyWrite(c, OriginSide, env); r.Next? && r.conn.ends.clientWrite == c.ends.clientWrite
  {
    hide CloseClient, Send, Changed;
    SentOnly(c, OriginSide, env.outgoing);
    var d := Send(c, OriginSide, env.outgoing);
    CloseKeepsClientWrite(c, ORIGIN_WRITE);
    CloseKeepsClientWrite(d.(h := d.h.(originFailed := true)), ORIGIN_WRITE);
  }

  /** What a write to the client can end: the request buffer stays as it was. */
  lemma ClientWriteEnds(c: Conn, env: Env)
    requires c.Valid() && c.State() in {PROXY, WRITE_REMAINING} && c.ends.clientWrite
    ensures var r := HandleProxyWrite(c, ClientSide, env);
            && r.Next? && r.conn.originBuf == c.originBuf
            && (!r.conn.ends.clientWrite ==>
                  if c.clientBuf.CanRead() then env.outgoing.SendError? && r.conn.h.clientFailed
                  else !c.ends.originRead && r.conn.h.clientFailed == c.h.clientFailed)
  {
    hide CloseClient, EnableWrite, Send, Changed;
    SentOnly(c, ClientSide, env.outgoing);
    var d := Send(c, ClientSide, env.outgoing);
    CloseClientClosedForm(c, CLIENT_WRITE);
    CloseClientClosedForm(d.(h := d.h.(clientFailed := true)), CLIENT_WRITE);
  }

  /** How a connected client comes to its end: what the origin was still to get is discarded. */
  predicate TornDown(c: Conn, ev: Event, d: Conn) {
    && ev.kind == Writable(ClientSide) && d.originBuf == c.originBuf
    && (d.h.clientFailed <==> c.clientBuf.CanRead() && ev.env.outgoing.SendError?)
    && (!d.h.clientFailed ==> !c.clientBuf.CanRead() && !c.ends.originRead)
    && (d.h.consumed + d.h.sentOrigin == d.h.readClient <==> !c.originBuf.CanRead())
  }

  lemma StepIntoDone(c: Conn, ev: Event)
    requires Inv(c) && c.h.connected && c.State() != DONE
    ensures c.Valid() && Step(c, ev).Next?
    ensures Step(c, ev).conn.State() == DONE ==> TornDown(c, ev, Step(c, ev).conn)
  {
    hide Inv, Jump, HandleProxyRead, HandleProxyWrite, Dispatched;
    StepKeeps(c, ev);
    InvIsValid(c);
    RelayFacts(c);
    var d := Step(c, ev).conn;
    if d.State() == DONE {
      DoneHasNoEnds(d);
      OriginBytes(d);
      if Dispatched(c, ev.kind) {
        ConnectedStates(c, ev.kind);
        match ev.kind
        case Readable(side) =>
          ReadKeepsClientWrite(c, side, ev.env);
          LandedFacts(HandleProxyRead(c, side, ev.env));
        case Writable(OriginSide) =>
          OriginWriteKeepsClientWrite(c, ev.env);
          LandedFacts(HandleProxyWrite(c, OriginSide, ev.env));
        case Writable(ClientSide) =>
          ClientWriteEnds(c, ev.env);
          LandedFacts(HandleProxyWrite(c, ClientSide, ev.env));
      }
    }
  }

  lemma RelayFacts(c: Conn)
    requires Inv(c) && c.h.connected && c.State() != DONE
    ensures c.State() in {PROXY, WRITE_REMAINING} && c.ends.clientWrite && !c.h.clientFailed
  {
  }

  lemma DoneStays(c: Conn, ev: Event)
    requires Inv(c) && c.State() == DONE
    ensures c.Valid() && Step(c, ev).Next?
    ensures var d := Step(c, ev).conn; d.State() == DONE && d.h == c.h
  {
    hide Conserved, Counted, Gated, Replied, InListOrder, ClosedOnce;
  }

  lemma {:induction false} DoneIsLast(c: Conn, events: seq<Event>)
    requires Inv(c) && c.State() == DONE
    ensures c.Valid() && Run(c, events).Next? && Run(c, events).conn.h == c.h
    decreases |events|
  {
    hide Inv, Step;
    InvIsValid(c);
    if events != [] {
      DoneStays(c, events[0]);
      StepKeeps(c, events[0]);
      DoneIsLast(Step(c, events[0]).conn, events[1..]);
    }
  }

  /**
   * Every run of a connected client to its end has a last write to the client: a failed one,
   * or the first that finds the client's buffer drained after the origin's end. Whatever the
   * origin was still to get at that moment is discarded, and nothing else: all that the client
   * sent was handed over if and only if the request buffer was empty then.
   */
  lemma {:induction false} TeardownDiscards(c: Conn, events: seq<Event>) returns (n: nat)
    requires Inv(c) && c.h.connected && c.State() != DONE
    requires c.Valid() && Run(c, events).Next? && Run(c, events).conn.State() == DONE
    ensures n < |events| && Run(c, events[..n]).Next? && Run(c, events[..n + 1]).Next?
    ensures var s, d := Run(c, events[..n]).conn, Run(c, events[..n + 1]).conn;
            s.State() != DONE && d.State() == DONE && TornDown(s, events[n], d) && Run(c, events).conn.h == d.h
    decreases |events|
  {
    hide Inv, Step, TornDown;
    assert events != [];
    var ev, rest := events[0], events[1..];
    StepKeeps(c, ev);
    var d := Step(c, ev).conn;
    InvIsValid(d);
    if d.State() == DONE {
      n := 0;
      StepIntoDone(c, ev);
      DoneIsLast(d, rest);
      assert events[..0] == [] && events[..1] == [ev];
      RunOne(c, ev);
    } else {
      ConnectedStays(c, ev);
      var m := TeardownDiscards(d, rest);
      n := m + 1;
      RunFirst(c, events, n);
      RunFirst(c, events, n + 1);
    }
  }

  lemma ConnectedStays(c: Conn, ev: Event)
    requires Inv(c) && c.h.connected
    ensures c.Valid() && Step(c, ev).Next? && Step(c, ev).conn.h.connected
  {
    hide Inv, Step;
    StepFollows(c, ev);
    InvIsValid(c);
  }

  lemma RunFirst(c: Conn, events: seq<Event>, n: nat)
    requires c.Valid() && 0 < n <= |events| && Step(c, events[0]).Next?
    ensures Run(c, events[..n]) == Run(Step(c, events[0]).conn, events[1..][..n - 1])
  {
    hide Step;
    assert events[..n][1..] == events[1..][..n - 1] && events[..n][0] == events[0];
  }

  lemma OriginBytes(c: Conn)
    requires Inv(c)
    ensures c.h.consumed + c.h.sentOrigin == c.h.readClient <==> !c.originBuf.CanRead()
  {
    hide Shape, Counted, Gated, Replied, InListOrder, ClosedOnce;
    var sent := c.h.consumed + c.h.sentOrigin;
    assert |sent + c.originBuf.contents| == |sent| + |c.originBuf.contents|;
    if !c.originBuf.CanRead() {
      assert sent + c.originBuf.contents == sent;
    }
  }

  // ---------------------------------------------------------------------------
  // Pipelining
  // ---------------------------------------------------------------------------

  /** A new connection on which a greeting arrives together with what follows it, filling the buffer. */
  lemma PipelinedRead(g: Greeting, tail: seq<byte>, users: seq<User>, buffsize: nat)
    requires g.version == 5 && |g.methods| < 256 && 0x02 in g.methods && users != [] && tail != []
    requires |EncodeGreeting(g)| + |tail| == buffsize <= IO_SIZE
    ensures var c := NewConnection(5, buffsize).(current := Some(AUTH_METHOD));
            var env := QUIET.(incoming := Arrived(EncodeGreeting(g) + tail), users := users);
            var r := ReadAuthMethod(c, ClientSide, env);
            && r.Next? && r.state == PLAIN_AUTH && r.conn.current == Some(AUTH_METHOD)
            && r.conn.originBuf == Buf(buffsize, |EncodeGreeting(g)|, tail)
  {
    hide ParseGreeting, EncodeGreeting, CloseClient;
    var msg, n := EncodeGreeting(g) + tail, |EncodeGreeting(g)|;
    var c := NewConnection(5, buffsize).(current := Some(AUTH_METHOD));
    assert ReceivedBytes(c.originBuf, Arrived(msg)) == msg;
    var d := ReceiveFromClient(c, Arrived(msg));
    assert d.originBuf.contents == msg && msg[n..] == tail;
    GreetingRoundTrip(g, tail);
    assert Select(g.methods, |users|) == UserAndPassword;
  }

  lemma PipelinedStep(g: Greeting, tail: seq<byte>, users: seq<User>, buffsize: nat) returns (c: Conn)
    requires g.version == 5 && |g.methods| < 256 && 0x02 in g.methods && users != [] && tail != []
    requires |EncodeGreeting(g)| + |tail| == buffsize && MIN_BUFFSIZE <= buffsize <= IO_SIZE
    ensures Reachable(c) && c.Valid()
    ensures c.State() == PLAIN_AUTH && c.originBuf == Buf(buffsize, |EncodeGreeting(g)|, tail)
  {
    hide ReadAuthMethod, EncodeGreeting;
    var env := QUIET.(incoming := Arrived(EncodeGreeting(g) + tail), users := users);
    var ev := Event(Readable(ClientSide), env);
    var c0 := NewConnection(5, buffsize);
    PipelinedRead(g, tail, users, buffsize);
    c := Step(c0, ev).conn;
    assert [ev][1..] == [];
    assert Run(c0, [ev]) == Run(c, []);
    assert ReachedBy(c, 5, buffsize, [ev]);
  }

  /** The longest greeting with the first 256 bytes of a login behind it, on the smallest buffer. */
  lemma PipelinedGreeting() returns (c: Conn)
    ensures Reachable(c) && c.Valid()
    ensures c.State() == PLAIN_AUTH && !c.originBuf.CanWrite()
    ensures ParseLogin(c.originBuf.contents, 0).NeedMore?
  {
    hide Reachable;
    var pad: seq<byte> := seq(254, _ => 0);
    var g := Greeting(5, [0x02] + pad);
    var tail := [PLAIN_AUTH_VERSION, 255] + pad;
    assert g.methods[0] == 0x02;
    c := PipelinedStep(g, tail, [User([0x61], [0x62])], MIN_BUFFSIZE);
    assert tail[1] == 255;
  }

  /**
   * So a client may send a well-formed beginning of its login and be cut off when it
   * goes on: whatever arrives next is read into no room and taken for the end.
   */
  lemma PipeliningStarvesTheHandshake(more: seq<byte>, env: Env)
    requires more != [] && env.incoming == Arrived(more)
    ensures exists c :: Reachable(c) && c.Valid() && c.State() == PLAIN_AUTH
              && ParseLogin(c.originBuf.contents, 0).NeedMore?
              && var r := Step(c, Event(Readable(ClientSide), env));
                 r.Next? && r.conn.State() == WRITE_REMAINING && !r.conn.ends.clientRead
  {
    hide Reachable;
    var c := PipelinedGreeting();
    ReachableInv(c);
    CutOff(c, env);
    assert Reachable(c) && c.Valid() && c.State() == PLAIN_AUTH;
  }

  lemma CutOff(c: Conn, env: Env)
    requires Inv(c) && c.State() == PLAIN_AUTH && !c.originBuf.CanWrite() && env.incoming.Arrived?
    ensures c.Valid()
    ensures var r := Step(c, Event(Readable(ClientSide), env));
            r.Next? && r.conn.State() == WRITE_REMAINING && !r.conn.ends.clientRead
  {
    hide CloseClient, EnableWrite, Conserved, Gated, Counted, InListOrder, ClosedOnce, Replied, ParseLogin;
    assert ReceiveFromClient(c, env.incoming).ends == c.ends;
    CloseClientClosedForm(ReceiveFromClient(c, env.incoming), CLIENT_READ);
  }
}
