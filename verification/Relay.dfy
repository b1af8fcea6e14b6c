/**
 * What each event does to a relaying connection, in terms of its ends, its buffers and what
 * select() is asked next; and what follows for the end of the client's stream and the count.
 */
module Relay {
  import opened Common
  import opened Buffers
  import opened SocketsIO
  import opened Selectors
  import opened Connections
  import opened Invariants
  import opened Preservation
  import opened Progress
  import opened Theorems
  import opened Finishing
  import opened Attempts

  // ---------------------------------------------------------------------------
  // Outcomes
  // ---------------------------------------------------------------------------

  /** Nothing but what select() is asked may differ. */
  predicate Unmoved(c: Conn, d: Conn) {
    d.State() == c.State() && d.ends == c.ends && d.clientBuf == c.clientBuf && d.originBuf == c.originBuf && d.h == c.h
  }

  /** Some ends are closed, and the rest goes on relaying, or writing out what remains. */
  predicate Closed(c: Conn, d: Conn, ends: Ends) {
    && d.ends == ends && d.clientBuf == c.clientBuf && d.originBuf == c.originBuf
    && SameBytes(c.h, d.h)
    && d.State() == (if ends.None() then DONE
                     else if ends.clientRead || ends.originRead then c.State() else WRITE_REMAINING)
  }

  /** The bytes read, sent and counted so far are the same. */
  predicate SameBytes(h: History, k: History) {
    && k.readClient == h.readClient && k.readOrigin == h.readOrigin
    && k.sentClient == h.sentClient && k.sentOrigin == h.sentOrigin
    && k.consumed == h.consumed && k.replied == h.replied && k.replies == h.replies
    && k.transferred == h.transferred && k.relayed == h.relayed && k.retries == h.retries
  }

  /** The end of a stream, or an error other than EAGAIN. */
  predicate Over(incoming: Incoming) {
    incoming.ReadError? || incoming == Arrived([])
  }

  // ---------------------------------------------------------------------------
  // The step of a relay event
  // ---------------------------------------------------------------------------

  predicate Relays(c: Conn) {
    Inv(c) && c.h.connected && c.State() in {PROXY, WRITE_REMAINING}
  }

  lemma ReadStepIs(c: Conn, side: Side, env: Env)
    requires Relays(c) && (if side == ClientSide then c.ends.clientRead else c.ends.originRead)
    ensures c.Valid() && c.State() == PROXY && c.current == Some(PROXY) && HandleProxyRead(c, side, env).Next?
    ensures Dispatched(c, Readable(side)) && c.Item(side).Used()
    ensures Step(c, Event(Readable(side), env))
         == Next(Landed(HandleProxyRead(c, side, env)), HandleProxyRead(c, side, env).state)
  {
    hide HandleProxyRead, Jump, Conserved, Gated, Counted, InListOrder, ClosedOnce, Replied;
    ProxyReadCarries(c, side, env);
  }

  lemma WriteStepIs(c: Conn, side: Side, env: Env)
    requires Relays(c) && (side == OriginSide ==> c.ends.originWrite)
    ensures c.Valid() && c.current == Some(c.State()) && c.ends.clientWrite && HandleProxyWrite(c, side, env).Next?
    ensures Dispatched(c, Writable(side)) && c.Item(side).Used()
    ensures c.ends.clientRead ==> c.ends.originWrite
    ensures Step(c, Event(Writable(side), env))
         == Next(Landed(HandleProxyWrite(c, side, env)), HandleProxyWrite(c, side, env).state)
  {
    hide HandleProxyWrite, Jump, Conserved, Gated, Counted, InListOrder, ClosedOnce, Replied;
    ProxyWriteCarries(c, side, env);
  }

  /** closeClient on some ends takes others along, and touches neither buffers nor bytes. */
  lemma CloseIs(c: Conn, asked: Ends)
    requires c.Valid() && c.State() in {PROXY, WRITE_REMAINING}
    ensures var r := CloseClient(c, asked);
            && r.conn.Valid() && Closed(c, Landed(r), c.ends.Minus(Cascade(c.ends, asked)))
            && r.conn.h.clientFailed == c.h.clientFailed && r.conn.h.originFailed == c.h.originFailed
  {
    hide CloseClient, CloseEnds, EnableWrite, Jump, SameBytes;
    CloseClientClosedForm(c, asked);
    CloseEndsIs(c, Cascade(c.ends, asked));
    LandedFacts(CloseClient(c, asked));
  }

  lemma CloseEndsIs(c: Conn, level: Ends)
    ensures var d := CloseEnds(c, level);
            && d.clientBuf == c.clientBuf && d.originBuf == c.originBuf && d.current == c.current && SameBytes(c.h, d.h)
            && d.h.clientFailed == c.h.clientFailed && d.h.originFailed == c.h.originFailed
  {
    hide Reduced;
  }

  // ---------------------------------------------------------------------------
  // Reading
  // ---------------------------------------------------------------------------

  /**
   * A client that can be read from. Without room nothing is read, and select() is not asked
   * again. At the end of the stream its read end is closed, and that alone. Otherwise what
   * arrived, which may be nothing yet, is waiting for the origin, and select() is asked for it.
   */
  lemma ReadsClient(c: Conn, env: Env)
    requires Relays(c) && c.ends.clientRead
    ensures c.Valid()
    ensures var r := Step(c, Event(Readable(ClientSide), env));
            && r.Next?
            && if !c.originBuf.CanWrite() then Unmoved(c, r.conn) && !Effective(r.conn, Readable(ClientSide))
               else if Over(env.incoming) then Closed(c, r.conn, c.ends.(clientRead := false))
               else
                 var got := ReceivedBytes(c.originBuf, env.incoming);
                 && r.conn.originBuf == c.originBuf.Append(got)
                 && Unmoved(c, r.conn.(originBuf := c.originBuf, h := c.h))
                 && r.conn.h == c.h.(readClient := c.h.readClient + got)
                 && (env.incoming.ReadAgain? ==> got == []) && Effective(r.conn, Writable(OriginSide))
  {
    hide Step, Inv, CloseClient, Jump, Changed, Closed, ReceivedBytes, CheckEOF, ReadCount;
    ReadStepIs(c, ClientSide, env);
    LandedFacts(HandleProxyRead(c, ClientSide, env));
    EndOfFileExactly(c.originBuf, env.incoming);
    if !c.originBuf.CanWrite() {
      MaskShows(c, ClientSide, OP_READ);
    } else if Over(env.incoming) {
      ReceivedNothing(c.originBuf, env.incoming);
      ReceivedNothingKeeps(c, env.incoming);
      CloseIs(c, CLIENT_READ);
    } else {
      NothingYet(c.originBuf);
      InterestIs(c);
      UnmaskShows(ReceiveFromClient(c, env.incoming), OriginSide, OP_WRITE);
    }
  }

  /** The same for an origin. */
  lemma ReadsOrigin(c: Conn, env: Env)
    requires Relays(c) && c.ends.originRead
    ensures c.Valid()
    ensures var r := Step(c, Event(Readable(OriginSide), env));
            && r.Next?
            && if !c.clientBuf.CanWrite() then Unmoved(c, r.conn) && !Effective(r.conn, Readable(OriginSide))
               else if Over(env.incoming) then Closed(c, r.conn, c.ends.(originRead := false))
               else
                 var got := ReceivedBytes(c.clientBuf, env.incoming);
                 && r.conn.clientBuf == c.clientBuf.Append(got)
                 && Unmoved(c, r.conn.(clientBuf := c.clientBuf, h := c.h))
                 && r.conn.h == c.h.(readOrigin := c.h.readOrigin + got)
                 && (env.incoming.ReadAgain? ==> got == []) && Effective(r.conn, Writable(ClientSide))
  {
    hide Step, Inv, CloseClient, Jump, Changed, Closed, ReceivedBytes, CheckEOF, ReadCount;
    ReadStepIs(c, OriginSide, env);
    LandedFacts(HandleProxyRead(c, OriginSide, env));
    EndOfFileExactly(c.clientBuf, env.incoming);
    if !c.clientBuf.CanWrite() {
      MaskShows(c, OriginSide, OP_READ);
    } else if Over(env.incoming) {
      ReceivedNothing(c.clientBuf, env.incoming);
      ReceivedNothingKeeps(c, env.incoming);
      CloseIs(c, ORIGIN_READ);
    } else {
      NothingYet(c.clientBuf);
      InterestIs(c);
      UnmaskShows(ReceiveFromOrigin(c, env.incoming), ClientSide, OP_WRITE);
    }
  }

  lemma MaskShows(c: Conn, side: Side, ops: Ops)
    requires c.Item(side).Used()
    ensures var d := c.Change(side, MaskInterest(ops));
            && (ops.read ==> !Effective(d, Readable(side))) && (ops.write ==> !Effective(d, Writable(side)))
            && d.current == c.current && Unmoved(c, d)
  {
  }

  lemma UnmaskShows(c: Conn, side: Side, ops: Ops)
    requires c.Item(side).Used()
    ensures var d := c.Change(side, UnmaskInterest(ops));
            && (ops.read ==> Effective(d, Readable(side)) == c.Item(side).interest.read)
            && (ops.write ==> Effective(d, Writable(side)) == c.Item(side).interest.write)
  {
  }

  /** While relaying, there is interest in exactly what the open ends are for. */
  lemma InterestIs(c: Conn)
    requires Relays(c)
    ensures c.clientItem.Used() && c.clientItem.interest == Ops(c.ends.clientRead, true)
    ensures c.ends.Origin() ==>
              c.originItem.Used() && c.originItem.interest == Ops(c.ends.originRead, c.ends.originWrite)
    ensures c.ends.clientRead ==> c.ends.originWrite
  {
    hide Conserved, Gated, Counted, InListOrder, ClosedOnce, Replied;
  }

  lemma ReceivedNothingKeeps(c: Conn, incoming: Incoming)
    requires c.Valid()
    ensures ReceivedBytes(c.originBuf, incoming) == [] ==> ReceiveFromClient(c, incoming) == c
    ensures ReceivedBytes(c.clientBuf, incoming) == [] ==> ReceiveFromOrigin(c, incoming) == c
  {
    hide ReceivedBytes;
    assert c.originBuf.contents + [] == c.originBuf.contents;
    assert c.clientBuf.contents + [] == c.clientBuf.contents;
    assert c.h.readClient + [] == c.h.readClient && c.h.readOrigin + [] == c.h.readOrigin;
  }

  lemma NothingYet(b: Buf)
    requires b.Valid()
    ensures ReceivedBytes(b, ReadAgain) == []
  {
  }

  // ---------------------------------------------------------------------------
  // Writing
  // ---------------------------------------------------------------------------

  /** Bytes that were sent are counted while in PROXY; a send that is put off counts for the whole buffer and one. */
  predicate SentOut(h: History, k: History, proxy: bool, b: Buf, out: Outgoing) {
    var sent := |SentBytes(b, out)|;
    && k.relayed == h.relayed + (if proxy then sent else 0)
    && k.transferred == h.transferred + (if !proxy then 0 else if out.SendAgain? then |b.contents| + 1 else sent)
  }

  /**
   * An origin that can be written to. With nothing to send, its write end is closed if the
   * client will send no more, and otherwise select() is not asked again. An error closes the
   * write end and with it the client's read end. Otherwise the bytes that were taken are gone
   * from the buffer and counted, and select() is asked for more of the client.
   */
  lemma WritesOrigin(c: Conn, env: Env)
    requires Relays(c) && c.ends.originWrite
    ensures c.Valid()
    ensures var r := Step(c, Event(Writable(OriginSide), env));
            && r.Next?
            && if !c.originBuf.CanRead() then
                 if c.ends.clientRead then Unmoved(c, r.conn) && !Effective(r.conn, Writable(OriginSide))
                 else Closed(c, r.conn, c.ends.(originWrite := false)) && r.conn.h.originFailed == c.h.originFailed
               else if env.outgoing.SendError? then
                 Closed(c, r.conn, c.ends.(originWrite := false, clientRead := false)) && r.conn.h.originFailed
               else
                 && r.conn.originBuf == WriteTo(c.originBuf, env.outgoing)
                 && Unmoved(c, r.conn.(originBuf := c.originBuf, h := c.h))
                 && r.conn.h.sentOrigin == c.h.sentOrigin + SentBytes(c.originBuf, env.outgoing)
                 && SentOut(c.h, r.conn.h, c.State() == PROXY, c.originBuf, env.outgoing)
                 && r.conn.h.sentClient == c.h.sentClient && r.conn.h.readClient == c.h.readClient
                 && (c.ends.clientRead ==> Effective(r.conn, Readable(ClientSide)))
  {
    hide Step, Inv, CloseClient, Jump, Changed, Closed, Send, WriteTo, SentBytes;
    WriteStepIs(c, OriginSide, env);
    LandedFacts(HandleProxyWrite(c, OriginSide, env));
    if !c.originBuf.CanRead() {
      if c.ends.clientRead { MaskShows(c, OriginSide, OP_WRITE); } else { CloseIs(c, ORIGIN_WRITE); }
    } else if env.outgoing.SendError? {
      SendErrorChangesNothing(c, OriginSide);
      FailedCloses(c, OriginSide);
    } else {
      SendIs(c, OriginSide, env.outgoing);
      InterestIs(c);
      UnmaskShows(Send(c, OriginSide, env.outgoing), ClientSide, OP_READ);
    }
  }

  /**
   * A client that is written to. With nothing to send, the connection is over if the origin
   * will send no more, and otherwise select() is not asked again; an error ends it at once.
   */
  lemma WritesClient(c: Conn, env: Env)
    requires Relays(c)
    ensures c.Valid()
    ensures var r := Step(c, Event(Writable(ClientSide), env));
            && r.Next?
            && if !c.clientBuf.CanRead() then
                 if c.ends.originRead then Unmoved(c, r.conn) && !Effective(r.conn, Writable(ClientSide))
                 else Closed(c, r.conn, Ends(false, false, false, false)) && r.conn.h.clientFailed == c.h.clientFailed
               else if env.outgoing.SendError? then
                 Closed(c, r.conn, Ends(false, false, false, false)) && r.conn.h.clientFailed
               else
                 && r.conn.clientBuf == WriteTo(c.clientBuf, env.outgoing)
                 && Unmoved(c, r.conn.(clientBuf := c.clientBuf, h := c.h))
                 && r.conn.h.sentClient == c.h.sentClient + SentBytes(c.clientBuf, env.outgoing)
                 && SentOut(c.h, r.conn.h, c.State() == PROXY, c.clientBuf, env.outgoing)
                 && r.conn.h.sentOrigin == c.h.sentOrigin && r.conn.h.readClient == c.h.readClient
                 && (c.ends.originRead ==> Effective(r.conn, Readable(OriginSide)))
  {
    hide Step, Inv, CloseClient, Jump, Changed, Closed, Send, WriteTo, SentBytes;
    WriteStepIs(c, ClientSide, env);
    LandedFacts(HandleProxyWrite(c, ClientSide, env));
    if !c.clientBuf.CanRead() {
      if c.ends.originRead { MaskShows(c, ClientSide, OP_WRITE); } else { CloseIs(c, CLIENT_WRITE); }
    } else if env.outgoing.SendError? {
      SendErrorChangesNothing(c, ClientSide);
      FailedCloses(c, ClientSide);
    } else {
      SendIs(c, ClientSide, env.outgoing);
      InterestIs(c);
      if c.ends.originRead { UnmaskShows(Send(c, ClientSide, env.outgoing), OriginSide, OP_READ); }
    }
  }

  lemma SendIs(c: Conn, side: Side, out: Outgoing)
    requires c.Valid() && !out.SendError?
    ensures var d := Send(c, side, out);
            if side == ClientSide then
              && d == c.(clientBuf := WriteTo(c.clientBuf, out), h := d.h)
              && d.h.sentClient == c.h.sentClient + SentBytes(c.clientBuf, out)
              && d.h.sentOrigin == c.h.sentOrigin && d.h.readClient == c.h.readClient
              && SentOut(c.h, d.h, c.State() == PROXY, c.clientBuf, out)
            else
              && d == c.(originBuf := WriteTo(c.originBuf, out), h := d.h)
              && d.h.sentOrigin == c.h.sentOrigin + SentBytes(c.originBuf, out)
              && d.h.sentClient == c.h.sentClient && d.h.readClient == c.h.readClient
              && SentOut(c.h, d.h, c.State() == PROXY, c.originBuf, out)
  {
    hide WriteTo, SentBytes, BytesLeft;
    SentExactly(c.clientBuf, if out.Taken? then out.n else 0);
    SentExactly(c.originBuf, if out.Taken? then out.n else 0);
  }

  lemma FailedCloses(c: Conn, side: Side)
    requires c.Valid() && c.State() in {PROXY, WRITE_REMAINING} && c.ends.clientWrite
    requires side == OriginSide ==> c.ends.originWrite
    ensures var d := if side == ClientSide then c.(h := c.h.(clientFailed := true))
                     else c.(h := c.h.(originFailed := true));
            var r := CloseClient(d, if side == ClientSide then CLIENT_WRITE else ORIGIN_WRITE);
            && r.conn.Valid()
            && (if side == ClientSide then
                  Landed(r).h.clientFailed && Closed(c, Landed(r), Ends(false, false, false, false))
                else
                  Landed(r).h.originFailed && Closed(c, Landed(r), c.ends.(originWrite := false, clientRead := false)))
  {
    hide CloseClient, Jump;
    var d := if side == ClientSide then c.(h := c.h.(clientFailed := true)) else c.(h := c.h.(originFailed := true));
    var asked := if side == ClientSide then CLIENT_WRITE else ORIGIN_WRITE;
    CloseIs(d, asked);
    LandedFacts(CloseClient(d, asked));
  }

  // ---------------------------------------------------------------------------
  // The end of the client's stream reaches the origin
  // ---------------------------------------------------------------------------

  /** What select() is asked in the client's direction as long as the origin can be written to. */
  lemma DirectionAwake(c: Conn)
    requires Relays(c) && c.ends.originWrite
    ensures !c.h.originFailed && c.Valid() && c.ends.clientWrite
    ensures c.ends.clientRead && c.originBuf.CanWrite() ==> Effective(c, Readable(ClientSide))
    ensures c.originBuf.CanRead() || !c.ends.clientRead ==> Effective(c, Writable(OriginSide))
    ensures !c.originBuf.CanWrite() ==> c.originBuf.CanRead()
  {
    hide Conserved, Gated, Counted, InListOrder, Replied;
  }

  /** The origin was told that the client is done, after all its bytes, and can still answer. */
  predicate ToldOfTheEnd(c: Conn, d: Conn) {
    && !d.ends.clientRead && !d.ends.originWrite && d.ends.originRead == c.ends.originRead && d.ends.clientWrite
    && d.State() == (if c.ends.originRead then PROXY else WRITE_REMAINING)
    && !d.h.originFailed && d.h.readClient == c.h.readClient
    && d.h.consumed + d.h.sentOrigin == d.h.readClient
  }

  /** With nothing left to send and a client that is done, the next write tells the origin. */
  lemma TellsOrigin(c: Conn, env: Env)
    requires Relays(c) && c.ends.originWrite && !c.ends.clientRead && !c.originBuf.CanRead()
    ensures c.Valid() && Step(c, Event(Writable(OriginSide), env)).Next?
    ensures ToldOfTheEnd(c, Step(c, Event(Writable(OriginSide), env)).conn)
  {
    hide Inv, Step;
    DirectionAwake(c);
    WritesOrigin(c, env);
    OriginBytes(c);
    RelayState(c);
  }

  lemma RelayState(c: Conn)
    requires Relays(c)
    ensures c.State() == (if c.ends.clientRead || c.ends.originRead then PROXY else WRITE_REMAINING)
  {
  }

  /** What the three kinds of steps on the way keep. */
  predicate OnTheWay(c: Conn, d: Conn) {
    Relays(d) && d.ends.originWrite && d.ends.originRead == c.ends.originRead && d.h.readClient == c.h.readClient
  }

  lemma StepRelays(c: Conn, ev: Event)
    requires Relays(c)
    ensures c.Valid() && Step(c, ev).Next?
    ensures var d := Step(c, ev).conn; Inv(d) && d.h.connected && (d.ends.clientWrite ==> Relays(d))
  {
    hide Inv, Step;
    InvIsValid(c);
    StepKeeps(c, ev);
    ConnectedStays(c, ev);
    StillRelays(Step(c, ev).conn);
  }

  lemma StillRelays(d: Conn)
    requires Inv(d) && d.h.connected
    ensures d.ends.clientWrite ==> d.State() in {PROXY, WRITE_REMAINING}
  {
  }

  lemma DrainStep(c: Conn)
    requires Relays(c) && c.ends.originWrite && c.originBuf.CanRead()
    ensures c.Valid()
    ensures var ev := Event(Writable(OriginSide), QUIET.(outgoing := Taken(|c.originBuf.contents|)));
            && Step(c, ev).Next? && OnTheWay(c, Step(c, ev).conn)
            && !Step(c, ev).conn.originBuf.CanRead() && Step(c, ev).conn.ends == c.ends
  {
    hide Inv, Step, WriteTo, SentBytes, BytesLeft, SentOut;
    var ev := Event(Writable(OriginSide), QUIET.(outgoing := Taken(|c.originBuf.contents|)));
    DirectionAwake(c);
    WritesOrigin(c, ev.env);
    StepRelays(c, ev);
    SentExactly(c.originBuf, |c.originBuf.contents|);
  }

  lemma EndStep(c: Conn)
    requires Relays(c) && c.ends.originWrite && c.ends.clientRead && c.originBuf.CanWrite()
    ensures c.Valid()
    ensures var ev := Event(Readable(ClientSide), QUIET);
            && Step(c, ev).Next? && OnTheWay(c, Step(c, ev).conn)
            && !Step(c, ev).conn.ends.clientRead && Step(c, ev).conn.originBuf == c.originBuf
  {
    hide Inv, Step;
    DirectionAwake(c);
    ReadsClient(c, QUIET);
    StepRelays(c, Event(Readable(ClientSide), QUIET));
  }

  /**
   * From every state in which the origin can be written to: if the client ends its stream and
   * the origin takes what is sent, some events that select() would report make the proxy tell
   * the origin, with every byte of the client handed over before, and the origin's own stream
   * left open.
   */
  lemma EndReachesOrigin(c: Conn) returns (events: seq<Event>)
    requires Relays(c) && c.ends.originWrite
    ensures c.Valid() && AllEffective(c, events) && Run(c, events).Next?
    ensures ToldOfTheEnd(c, Run(c, events).conn)
    decreases c.ends.clientRead, c.originBuf.CanRead()
  {
    hide Inv, Step, Effective;
    DirectionAwake(c);
    var ev := Event(Writable(OriginSide), QUIET);
    if c.ends.clientRead && c.originBuf.CanWrite() {
      ev := Event(Readable(ClientSide), QUIET);
      EndStep(c);
    } else if c.originBuf.CanRead() {
      ev := Event(Writable(OriginSide), QUIET.(outgoing := Taken(|c.originBuf.contents|)));
      DrainStep(c);
    } else {
      TellsOrigin(c, QUIET);
      events := [ev];
      assert [ev][1..] == [];
      return;
    }
    var rest := EndReachesOrigin(Step(c, ev).conn);
    events := [ev] + rest;
    assert events[1..] == rest;
  }

  /** The same for every reachable relay whose client still sends. */
  lemma HalfCloseReachesOrigin(c: Conn)
    requires Reachable(c) && c.State() == PROXY && c.ends.clientRead
    ensures c.Valid()
    ensures exists events :: AllEffective(c, events) && Run(c, events).Next? && ToldOfTheEnd(c, Run(c, events).conn)
  {
    hide Inv, Reachable, Run, AllEffective;
    ReachableInv(c);
    CanTell(c);
    var events := EndReachesOrigin(c);
  }

  lemma CanTell(c: Conn)
    requires Inv(c) && c.State() == PROXY && c.ends.clientRead
    ensures Relays(c) && c.ends.originWrite
  {
  }

  // ---------------------------------------------------------------------------
  // Counting
  // ---------------------------------------------------------------------------

  function Out(h: History): nat {
    |h.sentClient| + |h.sentOrigin|
  }

  lemma StepCounts(c: Conn, ev: Event)
    requires Relays(c)
    ensures c.Valid() && Step(c, ev).Next?
    ensures var d := Step(c, ev).conn;
            d.h.relayed - c.h.relayed == if c.State() == PROXY then Out(d.h) - Out(c.h) else 0
  {
    hide Inv, Handle, Dispatched, ReceivedBytes, SentBytes, WriteTo;
    InvIsValid(c);
    if Dispatched(c, ev.kind) {
      ConnectedStates(c, ev.kind);
      OpenEnds(c, ev.kind);
      match ev.kind
      case Readable(ClientSide) => ReadsClient(c, ev.env);
      case Readable(OriginSide) => ReadsOrigin(c, ev.env);
      case Writable(ClientSide) => WritesClient(c, ev.env);
      case Writable(OriginSide) => WritesOrigin(c, ev.env);
    }
  }

  lemma OpenEnds(c: Conn, kind: Kind)
    requires Relays(c) && Dispatched(c, kind)
    ensures kind == Readable(ClientSide) ==> c.ends.clientRead
    ensures kind == Readable(OriginSide) ==> c.ends.originRead
    ensures kind == Writable(OriginSide) ==> c.ends.originWrite
  {
    hide Conserved, Gated, Counted, InListOrder, ClosedOnce, Replied;
  }

  lemma ProxyBefore(c: Conn, ev: Event)
    requires Inv(c) && c.h.connected
    ensures c.Valid() && Step(c, ev).Next? && (Step(c, ev).conn.State() == PROXY ==> c.State() == PROXY)
  {
    hide Inv, Step, Grows;
    InvIsValid(c);
    StepFollows(c, ev);
  }

  lemma {:induction false} ProxyAllAlong(c: Conn, events: seq<Event>)
    requires Inv(c) && c.h.connected && c.Valid() && Run(c, events).Next? && Run(c, events).conn.State() == PROXY
    ensures c.State() == PROXY
    decreases |events|
  {
    hide Inv, Step;
    if events != [] {
      ProxyBefore(c, events[0]);
      StepKeeps(c, events[0]);
      ConnectedStays(c, events[0]);
      InvIsValid(Step(c, events[0]).conn);
      ProxyAllAlong(Step(c, events[0]).conn, events[1..]);
    }
  }

  /**
   * Over every run while relaying in PROXY, the count of relayed bytes grows by exactly the
   * bytes that were sent, in both directions together.
   */
  lemma {:induction false} RelayedIsSent(c: Conn, events: seq<Event>)
    requires Inv(c) && c.h.connected && c.Valid() && Run(c, events).Next? && Run(c, events).conn.State() == PROXY
    ensures var d := Run(c, events).conn; d.h.relayed - c.h.relayed == Out(d.h) - Out(c.h)
    decreases |events|
  {
    hide Inv, Step;
    ProxyAllAlong(c, events);
    if events != [] {
      StepCounts(c, events[0]);
      StepKeeps(c, events[0]);
      ConnectedStays(c, events[0]);
      InvIsValid(Step(c, events[0]).conn);
      RelayedIsSent(Step(c, events[0]).conn, events[1..]);
    }
  }

  /** So in PROXY it is all that was sent since the origin answered, and nothing of the handshake. */
  lemma RelayedSinceConnected(c: Conn, env: Env, events: seq<Event>)
    requires Inv(c) && c.State() == CONNECTING && c.originItem.Used() && env.soError.None?
    ensures var all := [Event(Writable(OriginSide), env)] + events;
            && c.Valid() && Run(c, all).Next?
            && var d := Run(c, all).conn;
               d.State() == PROXY ==> d.h.relayed == |d.h.sentOrigin| + |d.h.sentClient| - |c.h.sentClient|
  {
    hide Inv, Step, Run;
    var ev := Event(Writable(OriginSide), env);
    InvIsValid(c);
    NextStep(c, env);
    var d := Step(c, ev).conn;
    RunOne(c, ev);
    RunAppend(c, [ev], events);
    InvIsValid(d);
    RunKeeps(d, events);
    if Run(d, events).conn.State() == PROXY {
      ConnectedInProxy(d);
      RelayedIsSent(d, events);
    }
  }

  lemma ConnectedInProxy(c: Conn)
    requires Inv(c) && c.State() == PROXY
    ensures c.h.connected
  {
  }
}
