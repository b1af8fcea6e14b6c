/** What every run of a connection satisfies, for every behaviour of the peers, the kernel and the resolver. */
module Theorems {
  import opened Common
  import opened SocketsIO
  import opened Handshake
  import opened Users
  import opened Connections
  import opened Invariants
  import opened Preservation
  import opened Progress

  /** The states that some sequence of events leads to, for some admitted buffer size. */
  ghost predicate Reachable(c: Conn) {
    exists sock, buffsize, events ::
      sock >= 0 && buffsize >= MIN_BUFFSIZE && ReachedBy(c, sock, buffsize, events)
  }

  ghost predicate ReachedBy(c: Conn, sock: int, buffsize: nat, events: seq<Event>) {
    var r := Run(NewConnection(sock, buffsize), events);
    r.Next? && r.conn == c
  }

  lemma ReachableInv(c: Conn)
    requires Reachable(c)
    ensures Inv(c) && c.Valid()
  {
    hide Inv, Run;
    var sock, buffsize, events :|
      sock >= 0 && buffsize >= MIN_BUFFSIZE && ReachedBy(c, sock, buffsize, events);
    NewConnectionInv(sock, buffsize);
    RunKeeps(NewConnection(sock, buffsize), events);
    InvIsValid(c);
  }

  lemma {:induction false} RunAppend(c: Conn, first: seq<Event>, second: seq<Event>)
    requires c.Valid() && Run(c, first).Next?
    ensures Run(c, first + second) == Run(Run(c, first).conn, second)
    decreases |first|
  {
    hide Step;
    if first == [] {
      assert first + second == second;
    } else {
      assert (first + second)[1..] == first[1..] + second;
      RunAppend(Step(c, first[0]).conn, first[1..], second);
    }
  }

  lemma {:induction false} RunState(c: Conn, events: seq<Event>)
    requires c.Valid()
    ensures Run(c, events).Next? ==> Run(c, events) == Next(Run(c, events).conn, Run(c, events).conn.State())
    decreases |events|
  {
    hide Step;
    if events != [] && Step(c, events[0]).Next? {
      RunState(Step(c, events[0]).conn, events[1..]);
    }
  }

  lemma RunOne(c: Conn, ev: Event)
    requires c.Valid() && Step(c, ev).Next?
    ensures Run(c, [ev]) == Next(Step(c, ev).conn, Step(c, ev).conn.State())
  {
    hide Step;
    assert [ev][1..] == [];
    assert Run(Step(c, ev).conn, []) == Next(Step(c, ev).conn, Step(c, ev).conn.State());
  }

  /** What a run leads to from a reachable state is reachable. */
  lemma ReachableRun(c: Conn, events: seq<Event>)
    requires Reachable(c)
    ensures c.Valid() && Run(c, events).Next? && Reachable(Run(c, events).conn)
  {
    hide Inv, Run;
    ReachableInv(c);
    RunKeeps(c, events);
    var sock, buffsize, before :|
      sock >= 0 && buffsize >= MIN_BUFFSIZE && ReachedBy(c, sock, buffsize, before);
    RunAppend(NewConnection(sock, buffsize), before, events);
    assert ReachedBy(Run(c, events).conn, sock, buffsize, before + events);
  }

  /** No run reaches an abort(), an assert or a null dereference in the handlers. */
  lemma NoRunAborts(sock: int, buffsize: nat, events: seq<Event>)
    requires sock >= 0 && buffsize >= MIN_BUFFSIZE
    ensures Run(NewConnection(sock, buffsize), events).Next?
  {
    hide Inv, Run;
    NewConnectionInv(sock, buffsize);
    RunKeeps(NewConnection(sock, buffsize), events);
  }

  /** Interest in an operation implies that the table has a handler for it. */
  lemma InterestHasHandler(c: Conn, side: Side)
    requires Reachable(c)
    ensures Dispatched(c, Readable(side)) ==> OnRead(c.State()).Some?
    ensures Dispatched(c, Writable(side)) ==> OnWrite(c.State()).Some?
    ensures Dispatched(c, ResolverDone) ==> OnBlock(c.State()).Some?
  {
    hide Inv, Reachable;
    ReachableInv(c);
    if Dispatched(c, Readable(side)) { ReadableStates(c, side); }
    if Dispatched(c, Writable(side)) { WritableStates(c, side); }
    if Dispatched(c, ResolverDone) { BlockableStates(c); }
  }

  // ---------------------------------------------------------------------------
  // Back-pressure
  // ---------------------------------------------------------------------------

  /**
   * While relaying, a source is masked only while the buffer it fills is full, a sink
   * with something to send or a stream to end is never masked, and so each direction
   * that is still open has an event that select() can report.
   */
  lemma BackPressureNeverWedges(c: Conn)
    requires Reachable(c)
    ensures c.State() in {PROXY, WRITE_REMAINING} ==> Unwedged(c)
  {
    hide Reachable;
    ReachableInv(c);
  }

  predicate Unwedged(c: Conn) {
    && (c.ends.clientRead && !Effective(c, Readable(ClientSide)) ==> !c.originBuf.CanWrite())
    && (c.ends.originRead && !Effective(c, Readable(OriginSide)) ==> !c.clientBuf.CanWrite())
    && (c.clientBuf.CanRead() || !c.ends.originRead ==> Effective(c, Writable(ClientSide)))
    && (c.ends.originWrite && (c.originBuf.CanRead() || !c.ends.clientRead) ==> Effective(c, Writable(OriginSide)))
    && (c.ends.originWrite ==> Effective(c, Readable(ClientSide)) || Effective(c, Writable(OriginSide)))
    && (Effective(c, Readable(OriginSide)) || Effective(c, Writable(ClientSide)))
  }

  // ---------------------------------------------------------------------------
  // Bytes
  // ---------------------------------------------------------------------------

  /** Every byte is delivered in order or still in its buffer, in both directions. */
  lemma BytesAreConserved(c: Conn)
    requires Reachable(c)
    ensures c.h.sentClient + c.clientBuf.contents == c.h.replied + c.h.readOrigin
    ensures c.h.consumed + c.h.sentOrigin + c.originBuf.contents == c.h.readClient
  {
    hide Reachable, Shape, Gated, Replied, InListOrder, ClosedOnce;
    ReachableInv(c);
  }

  /** The byte counter is exact if and only if no send was answered by EAGAIN while in PROXY. */
  lemma TransferredIsExact(c: Conn)
    requires Reachable(c)
    ensures c.h.transferred == c.h.relayed <==> c.h.retries == 0
  {
    hide Reachable, Shape, Gated, Replied, InListOrder, ClosedOnce, Conserved;
    ReachableInv(c);
  }

  // ---------------------------------------------------------------------------
  // Shutdown
  // ---------------------------------------------------------------------------

  /**
   * DONE is reached exactly by losing CLIENT_WRITE; unless a send to the client failed,
   * all that the handshake and the origin had for it was delivered. And while the
   * connection lives, the origin's write half is shut only when the client will send no
   * more and every byte of it was handed over, or when a send to the origin failed.
   */
  lemma OrderlyShutdown(c: Conn)
    requires Reachable(c)
    ensures c.State() == DONE <==> !c.ends.clientWrite
    ensures c.State() == DONE ==> c.ends.None() && !c.clientItem.Used() && !c.originItem.Used()
    ensures c.State() == DONE && !c.h.clientFailed ==> c.h.sentClient == c.h.replied + c.h.readOrigin
    ensures c.h.connected && c.State() != DONE && !c.ends.originWrite ==>
              !c.ends.clientRead && (c.h.originFailed || c.h.consumed + c.h.sentOrigin == c.h.readClient)
  {
    hide Reachable;
    ReachableInv(c);
    if c.State() == DONE && !c.h.clientFailed {
      assert c.h.sentClient + c.clientBuf.contents == c.h.sentClient;
    }
    if !c.originBuf.CanRead() {
      assert c.h.consumed + c.h.sentOrigin + c.originBuf.contents == c.h.consumed + c.h.sentOrigin;
    }
  }

  /** Any live end needs CLIENT_WRITE, CLIENT_READ needs ORIGIN_WRITE once connected, and each socket is closed once. */
  lemma EndsAndDescriptors(c: Conn)
    requires Reachable(c)
    ensures !c.ends.None() ==> c.ends.clientWrite
    ensures c.h.connected && c.ends.clientRead ==> c.ends.originWrite
    ensures c.h.clientClosed == if c.ends.Client() then 0 else 1
    ensures c.h.originClosed == if c.h.connected && !c.ends.Origin() then 1 else 0
    ensures c.ends.Client() ==> c.clientItem.Used()
    ensures c.h.connected ==> (c.originItem.Used() <==> c.ends.Origin())
  {
    hide Reachable;
    ReachableInv(c);
  }

  lemma {:induction false} RunFollows(c: Conn, events: seq<Event>)
    requires Inv(c)
    ensures var r := Run(c, events);
            && r.Next? && Grows(c.h, r.conn.h)
            && (c.h.connected ==> r.conn.ends.Within(c.ends))
    decreases |events|
  {
    hide Inv, Step, Grows;
    InvIsValid(c);
    if events == [] {
      OnwardSame(c);
      assert Grows(c.h, c.h);
    } else {
      StepKeeps(c, events[0]);
      StepFollows(c, events[0]);
      var d := Step(c, events[0]).conn;
      RunFollows(d, events[1..]);
      GrowsTrans(c.h, d.h, Run(d, events[1..]).conn.h);
    }
  }

  lemma GrowsTrans(h: History, k: History, l: History)
    requires Grows(h, k) && Grows(k, l)
    ensures Grows(h, l) && (h.connected ==> k.connected)
  {
  }

  lemma FailureStays(c: Conn, d: Conn)
    requires Inv(c) && Inv(d) && Grows(c.h, d.h)
    ensures c.h.replies != [] && !c.h.connected ==> !d.h.connected
    ensures d.State() == PROXY ==> d.h.connected
  {
    hide Conserved, Gated, Counted, InListOrder, ClosedOnce, Relaying, BeforeConnected;
    assert |c.h.replies| <= 1 && |d.h.replies| <= 1;
  }

  // ---------------------------------------------------------------------------
  // Replies and attempts
  // ---------------------------------------------------------------------------

  /**
   * At most one reply is ever given, in the layout of the RFC, as the last bytes of the
   * handshake; it says success exactly when the connection was made.
   */
  lemma AtMostOneReply(c: Conn)
    requires Reachable(c)
    ensures |c.h.replies| <= 1
    ensures c.h.connected <==> |c.h.replies| == 1 && c.h.replies[0].code == Succeeded
    ensures c.State() == PROXY ==> c.h.connected
    ensures |c.h.replies| == 1 ==>
              && c.h.replies[0].Valid()
              && var n := |c.h.replied| - |c.h.replies[0].Bytes()|;
                 n >= 0 && c.h.replied[n..] == c.h.replies[0].Bytes()
                 && OnTheWire(c.h.replied[n..], c.h.connected)
  {
    hide Reachable, Conserved, Gated, Counted, InListOrder, ClosedOnce, Relaying, BeforeConnected, OnTheWire;
    ReachableInv(c);
    if |c.h.replies| == 1 { WireLayout(c.h.replies[0]); }
  }

  /** Version 5, a number that is zero exactly for success, and an address of type 1 or 4 with its port. */
  predicate OnTheWire(s: seq<byte>, success: bool) {
    && |s| >= 4 && s[0] == 5 && (s[1] == 0 <==> success) && s[1] <= 8 && s[2] == 0
    && ((s[3] == 1 && |s| == 10) || (s[3] == 4 && |s| == 22))
  }

  lemma WireLayout(r: Reply)
    requires r.Valid()
    ensures OnTheWire(r.Bytes(), r.code == Succeeded)
  {
  }

  /**
   * The success reply is given exactly on the step that enters PROXY; after a failure
   * reply no run enters it.
   */
  lemma SuccessEntersProxy(c: Conn, ev: Event, later: seq<Event>)
    requires Reachable(c)
    ensures Step(c, ev).Next? && Run(c, later).Next?
    ensures var d := Step(c, ev).conn;
            (d.State() == PROXY && c.State() != PROXY) <==> (d.h.connected && !c.h.connected)
    ensures c.h.replies != [] && !c.h.connected ==> Run(c, later).conn.State() != PROXY
  {
    hide Reachable, Inv, Step, Run;
    ReachableInv(c);
    StepFollows(c, ev);
    StepKeeps(c, ev);
    RunFollows(c, later);
    RunKeeps(c, later);
    FailureStays(c, Run(c, later).conn);
    FailureStays(c, c) by { OnwardSame(c); }
  }

  /** Ends are never reopened once the origin is connected. */
  lemma EndsNeverReopen(c: Conn, events: seq<Event>)
    requires Reachable(c) && c.h.connected
    ensures Run(c, events).Next? && Run(c, events).conn.ends.Within(c.ends)
  {
    hide Reachable, Inv, Run;
    ReachableInv(c);
    RunFollows(c, events);
  }

  /** Addresses are tried in list order, none twice: what is left of the list only shrinks. */
  lemma AttemptsFollowTheList(c: Conn)
    requires Reachable(c)
    ensures c.h.tried <= c.h.candidates && |c.h.tried| <= |c.h.candidates|
    ensures c.State() == CONNECTING && c.originItem.Used() ==>
              c.addrs != [] && |c.h.tried| + |c.addrs| == |c.h.candidates| + 1
  {
    hide Reachable, Conserved, Gated, Counted, Replied, ClosedOnce, Relaying, BeforeConnected;
    ReachableInv(c);
    if c.State() == CONNECTING && c.originItem.Used() {
      assert |c.h.tried + c.addrs[1..]| == |c.h.candidates|;
    }
  }

  // ---------------------------------------------------------------------------
  // Authentication
  // ---------------------------------------------------------------------------

  /**
   * If a user existed when the greeting was handled, no run gets to the request or
   * beyond without credentials that the table held at the time they were checked.
   */
  lemma AuthenticationGate(c: Conn)
    requires Reachable(c)
    requires c.State() in {REQUEST, RESOLVING, CONNECTING, PROXY} || c.h.connected
    ensures c.h.greeted.Some?
    ensures c.h.greeted.value > 0 ==>
              c.h.login.Some?
              && Authenticates(c.h.login.value.users, c.h.login.value.name, c.h.login.value.pass)
  {
    hide Reachable, Conserved, Counted, Replied, ClosedOnce, InListOrder, Shape;
    ReachableInv(c);
  }

  // ---------------------------------------------------------------------------
  // Handshake capacity
  // ---------------------------------------------------------------------------

  /**
   * A handshake reader that waits for the rest of a message has room to read it, so
   * nothing that arrives is taken for the end of the stream; unless an earlier message
   * came with bytes of a later one behind it.
   */
  lemma HandshakeHasRoom(c: Conn, bytes: seq<byte>)
    requires Reachable(c) && c.State().Handshaking() && bytes != []
    ensures c.originBuf.Valid()
    ensures CheckEOF(ReadCount(c.originBuf, Arrived(bytes))) <==> !c.originBuf.CanWrite()
    ensures !c.originBuf.CanWrite() ==> c.h.pipelined && c.originBuf.start > 0
  {
    hide Reachable, Conserved, Gated, Counted, Replied, ClosedOnce, InListOrder;
    ReachableInv(c);
    ZeroSizedReadLooksLikeEOF(c.originBuf, bytes);
    IncompleteIsShort(c.originBuf.contents, 0);
  }
}
