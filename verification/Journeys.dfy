/**
 * Whole runs of a connection: a handshake whose messages arrive cut in any way between
 * writes, and runs in which the relay does less than one might expect.
 */
module Journeys {
  import opened Common
  import opened SocketsIO
  import opened Selectors
  import opened Handshake
  import opened Users
  import opened Connections
  import opened Invariants
  import opened Preservation
  import opened Theorems
  import opened Finishing
  import opened Conversation
  import opened Attempts
  import opened Relay

  // ---------------------------------------------------------------------------
  // Fragments
  // ---------------------------------------------------------------------------

  predicate Fragment(ev: Event) {
    ev.kind == Readable(ClientSide) && ev.env.incoming.Arrived? && ev.env.incoming.bytes != []
  }

  /** Bytes from the client, or a chance to send it replies. */
  predicate Benign(ev: Event) {
    Fragment(ev) || (ev.kind == Writable(ClientSide) && !ev.env.outgoing.SendError?)
  }

  function BytesOf(ev: Event): seq<byte> {
    if Fragment(ev) then ev.env.incoming.bytes else []
  }

  /** What the client sent, in order. */
  function Sent(events: seq<Event>): seq<byte> {
    if events == [] then [] else BytesOf(events[0]) + Sent(events[1..])
  }

  predicate AllBenign(events: seq<Event>) {
    forall i :: 0 <= i < |events| ==> Benign(events[i])
  }

  /** Events by which a message arrives: in any fragments, between any writes, the last fragment last. */
  predicate Arrival(events: seq<Event>, message: seq<byte>) {
    events != [] && AllBenign(events) && Fragment(events[|events| - 1]) && Sent(events) == message
  }

  /** A message for the reader of a state: all of its proper beginnings are waited on. */
  ghost predicate MessageFor(state: State, message: seq<byte>) {
    && state.Handshaking() && |message| <= LONGEST_MESSAGE
    && forall n :: 0 <= n < |message| ==> NeedsMore(state, message[..n])
  }

  lemma GreetingMessage(g: Greeting)
    requires |g.methods| < 256
    ensures MessageFor(AUTH_METHOD, EncodeGreeting(g))
  {
    var message := EncodeGreeting(g);
    forall n | 0 <= n < |message|
      ensures ParseGreeting(message[..n]).NeedMore?
    {
      assert n >= 2 ==> message[..n][1] == |g.methods|;
    }
  }

  lemma LoginMessage(l: Login)
    requires |l.user| < 256 && |l.pass| < 256
    ensures MessageFor(PLAIN_AUTH, EncodeLogin(l))
  {
    var message := EncodeLogin(l);
    forall n | 0 <= n < |message|
      ensures ParseLogin(message[..n], 0).NeedMore?
    {
      if ParseLogin(message[..n], 0).Decided? {
        LoginStable(message[..n], message[n..], 0, 0);
        assert message[..n] + message[n..] == message + [];
        LoginRoundTrip(l, [], 0);
      }
    }
  }

  lemma RequestMessage(q: Request)
    requires ValidRequest(q)
    ensures MessageFor(REQUEST, EncodeRequest(q))
  {
    var message := EncodeRequest(q);
    forall n | 0 <= n < |message|
      ensures ParseRequest(message[..n]).NeedMore?
    {
      if ParseRequest(message[..n]).Decided? {
        RequestStable(message[..n], message[n..]);
        assert message[..n] + message[n..] == message + [];
        RequestRoundTrip(q, []);
      }
    }
  }

  // ---------------------------------------------------------------------------
  // Waiting
  // ---------------------------------------------------------------------------

  /** In a state, with part of a message in the rewound buffer and the history of another connection. */
  predicate WaitingWith(d: Conn, state: State, part: seq<byte>, c: Conn) {
    && d.State() == state && d.originBuf.start == 0 && d.originBuf.contents == part
    && d.h.consumed == c.h.consumed && d.h.replied == c.h.replied && d.h.replies == c.h.replies
  }

  /** A fragment that arrives whole, because there is room for the rest of any message. */
  lemma FragmentFits(c: Conn, bytes: seq<byte>)
    requires BuffersFit(c) && c.originBuf.start == 0 && |c.originBuf.contents| + |bytes| <= LONGEST_MESSAGE
    ensures ReceivedBytes(c.originBuf, Arrived(bytes)) == bytes
  {
  }

  lemma WaitRead(c: Conn, env: Env, part: seq<byte>)
    requires Inv(c) && c.State().Handshaking() && c.originBuf.start == 0 && c.originBuf.contents == part
    requires env.incoming.Arrived? && env.incoming.bytes != []
    requires |part + env.incoming.bytes| <= LONGEST_MESSAGE && NeedsMore(c.State(), part + env.incoming.bytes)
    ensures var r := Step(c, Event(Readable(ClientSide), env));
            r.Next? && WaitingWith(r.conn, c.State(), part + env.incoming.bytes, c)
  {
    hide Step, Inv, ParseGreeting, ParseLogin, ParseRequest, CloseClient, Refuse, AnswerGreeting, AnswerLogin,
         AnswerRequest;
    FragmentFits(c, env.incoming.bytes) by { FitsFromInv(c); }
    LoginStable(part + env.incoming.bytes, [], env.stale, 0);
    var d := ReadingStep(c, env, OnRead(c.State()).value);
  }

  lemma FitsFromInv(c: Conn)
    requires Inv(c)
    ensures BuffersFit(c)
  {
  }

  lemma WaitWrite(c: Conn, env: Env)
    requires Inv(c) && c.State().Handshaking() && !env.outgoing.SendError?
    ensures var r := Step(c, Event(Writable(ClientSide), env));
            r.Next? && r.conn.originBuf == c.originBuf && r.conn.State() == c.State()
            && r.conn.h.consumed == c.h.consumed && r.conn.h.replied == c.h.replied && r.conn.h.replies == c.h.replies
  {
    hide CloseClient, Conserved, Gated, Counted, InListOrder, ClosedOnce, Replied, WriteTo, SentBytes, BytesLeft;
  }

  lemma {:induction false} WaitRun(c: Conn, events: seq<Event>, message: seq<byte>, part: seq<byte>)
    requires Inv(c) && MessageFor(c.State(), message) && AllBenign(events)
    requires c.originBuf.start == 0 && c.originBuf.contents == part
    requires part + Sent(events) < message
    ensures c.Valid()
    ensures var r := Run(c, events);
            r.Next? && Inv(r.conn) && WaitingWith(r.conn, c.State(), part + Sent(events), c)
    decreases |events|
  {
    hide Inv, Step, NeedsMore;
    InvIsValid(c);
    if events == [] {
      assert part + Sent(events) == part;
    } else {
      var ev, more := events[0], BytesOf(events[0]);
      assert Benign(ev);
      Associate(part, more, Sent(events[1..]));
      StepKeeps(c, ev);
      if Fragment(ev) {
        assert part + more == message[..|part + more|];
        WaitRead(c, ev.env, part);
      } else {
        assert part + more == part;
        WaitWrite(c, ev.env);
      }
      WaitRun(Step(c, ev).conn, events[1..], message, part + more);
    }
  }

  // ---------------------------------------------------------------------------
  // A message arrives
  // ---------------------------------------------------------------------------

  lemma {:induction false} SentAppend(events: seq<Event>, ev: Event)
    ensures Sent(events + [ev]) == Sent(events) + BytesOf(ev)
    decreases |events|
  {
    if events == [] {
      assert ([ev])[1..] == [];
      assert [] + [ev] == [ev];
    } else {
      assert (events + [ev])[1..] == events[1..] + [ev];
      SentAppend(events[1..], ev);
      Associate(BytesOf(events[0]), Sent(events[1..]), BytesOf(ev));
    }
  }

  /** All but the last event of an arrival leave the connection ready for the last one to complete it. */
  lemma BeforeLast(c: Conn, events: seq<Event>, message: seq<byte>) returns (d: Conn)
    requires Inv(c) && MessageFor(c.State(), message) && c.originBuf.contents == [] && Arrival(events, message)
    ensures var last := events[|events| - 1];
            && c.Valid() && Run(c, events[..|events| - 1]) == Next(d, d.State()) && Inv(d) && d.State() == c.State()
            && d.Valid() && Completes(d, last.env, message, [])
            && d.h.consumed == c.h.consumed && d.h.replied == c.h.replied && d.h.replies == c.h.replies
            && Run(c, events) == Run(d, [last])
  {
    hide Inv, Step, MessageFor, Fragment, Run;
    var n := |events| - 1;
    var init, last := events[..n], events[n];
    assert events == init + [last];
    SentAppend(init, last);
    InvIsValid(c);
    LastCompletes(c, init, last, message);
    d := Run(c, init).conn;
    RunState(c, init);
    RunAppend(c, init, [last]);
  }

  lemma LastCompletes(c: Conn, init: seq<Event>, last: Event, message: seq<byte>)
    requires Inv(c) && MessageFor(c.State(), message) && c.originBuf.contents == []
    requires AllBenign(init) && Fragment(last) && Sent(init) + BytesOf(last) == message
    ensures c.Valid() && Run(c, init).Next?
    ensures var d := Run(c, init).conn;
            && Inv(d) && d.Valid() && d.State() == c.State() && Completes(d, last.env, message, [])
            && d.h.consumed == c.h.consumed && d.h.replied == c.h.replied && d.h.replies == c.h.replies
  {
    hide Inv, Step, NeedsMore, Run;
    InvIsValid(c);
    assert [] + Sent(init) == Sent(init);
    assert Sent(init) < message;
    WaitRun(c, init, message, []);
    var d := Run(c, init).conn;
    InvIsValid(d);
    FragmentFits(d, last.env.incoming.bytes) by { FitsFromInv(d); }
    assert message + [] == message;
  }

  // ---------------------------------------------------------------------------
  // The whole handshake
  // ---------------------------------------------------------------------------

  function Last(events: seq<Event>): Env
    requires events != []
  {
    events[|events| - 1].env
  }

  /** What a phase of the handshake leaves: the next state, with nothing left over. */
  predicate Phase(c: Conn, d: Conn, next: State, message: seq<byte>, answer: seq<byte>) {
    Inv(d) && d.State() == next && Answered(c, d, message, [], answer)
  }

  lemma GreetingPhase(c: Conn, events: seq<Event>, g: Greeting)
    requires Inv(c) && c.State() == AUTH_METHOD && c.originBuf.contents == []
    requires |g.methods| < 256 && g.version == 5 && Arrival(events, EncodeGreeting(g))
    requires (if Last(events).users == [] then 0x00 else 0x02) in g.methods
    ensures c.Valid()
    ensures var r := Run(c, events);
            && r.Next?
            && if Last(events).users == [] then Phase(c, r.conn, REQUEST, EncodeGreeting(g), [5, 0x00])
               else Phase(c, r.conn, PLAIN_AUTH, EncodeGreeting(g), [5, 0x02])
  {
    hide Inv, Step, Run, EncodeGreeting, Arrival, Completes, MessageFor;
    assert events != [] by { ArrivalIsSomething(events, EncodeGreeting(g)); }
    GreetingMessage(g);
    var d := BeforeLast(c, events, EncodeGreeting(g));
    var ev := events[|events| - 1];
    assert ev == Event(Readable(ClientSide), ev.env) by { LastIsRead(events, EncodeGreeting(g)); }
    GreetingIsAnswered(d, ev.env, g, []);
    StepKeeps(d, ev);
    RunOne(d, ev);
  }

  lemma ArrivalIsSomething(events: seq<Event>, message: seq<byte>)
    requires Arrival(events, message)
    ensures events != []
  {
  }

  lemma LastIsRead(events: seq<Event>, message: seq<byte>)
    requires Arrival(events, message)
    ensures events != [] && events[|events| - 1].kind == Readable(ClientSide)
  {
  }

  lemma LoginPhase(c: Conn, events: seq<Event>, l: Login)
    requires Inv(c) && c.State() == PLAIN_AUTH && c.originBuf.contents == []
    requires |l.user| < 256 && |l.pass| < 256 && l.version == 1 && Arrival(events, EncodeLogin(l))
    requires Authenticates(Last(events).users, CString(l.user), CString(l.pass))
    ensures c.Valid()
    ensures var r := Run(c, events); r.Next? && Phase(c, r.conn, REQUEST, EncodeLogin(l), [1, 0x00])
  {
    hide Inv, Step, Run, EncodeLogin, Arrival, Completes, MessageFor, Authenticates, CString;
    LastIsRead(events, EncodeLogin(l));
    LoginMessage(l);
    var d := BeforeLast(c, events, EncodeLogin(l));
    var ev := events[|events| - 1];
    assert ev == Event(Readable(ClientSide), ev.env);
    LoginIsAnswered(d, ev.env, l, []);
    StepKeeps(d, ev);
    RunOne(d, ev);
  }

  lemma RequestPhase(c: Conn, events: seq<Event>, q: Request)
    requires Inv(c) && c.State() == REQUEST && c.originBuf.contents == []
    requires ValidRequest(q) && q.cmd == 1 && Arrival(events, EncodeRequest(q)) && Last(events).memoryOk
    ensures c.Valid()
    ensures var r := Run(c, events); r.Next? && Requested(c, r.conn, q)
  {
    hide Inv, Step, Run, EncodeRequest, Arrival, Completes, MessageFor;
    LastIsRead(events, EncodeRequest(q));
    RequestMessage(q);
    var d := BeforeLast(c, events, EncodeRequest(q));
    var ev := events[|events| - 1];
    assert ev == Event(Readable(ClientSide), ev.env);
    RequestIsServed(d, ev.env, q, []);
    StepKeeps(d, ev);
    RunOne(d, ev);
  }

  /** On its way to the destination of a request: its address is the one to try, or its name the one to resolve. */
  predicate Requested(c: Conn, d: Conn, q: Request)
    requires ValidRequest(q)
  {
    && Inv(d) && d.originBuf.contents == [] && d.h.consumed == c.h.consumed + EncodeRequest(q) && d.h.replies == []
    && if q.dest.DomainName? then
         d.State() == RESOLVING && d.resolving && ResolverQuery(d) == Some((CString(q.dest.name), q.port))
       else
         d.State() == CONNECTING && d.addrs == [Address(q.dest, q.port)] && d.h.tried == []
  }

  /**
   * A client that sends a greeting, a login if users are declared, and a request to connect,
   * each cut in any way and with any writes in between, gets to the attempt to reach its
   * destination, with all its bytes used up.
   */
  lemma HandshakeArrives(sock: int, buffsize: nat, g: Greeting, greeting: seq<Event>,
                         l: Login, login: seq<Event>, q: Request, request: seq<Event>)
    requires sock >= 0 && buffsize >= MIN_BUFFSIZE
    requires g.version == 5 && |g.methods| < 256 && Arrival(greeting, EncodeGreeting(g))
    requires ValidRequest(q) && q.cmd == 1 && Arrival(request, EncodeRequest(q)) && Last(request).memoryOk
    requires if Last(greeting).users == [] then
               0x00 in g.methods && login == []
             else
               && 0x02 in g.methods && l.version == 1 && |l.user| < 256 && |l.pass| < 256
               && Arrival(login, EncodeLogin(l))
               && Authenticates(Last(login).users, CString(l.user), CString(l.pass))
    ensures var r := Run(NewConnection(sock, buffsize), greeting + login + request);
            && r.Next? && Reachable(r.conn) && r.conn.originBuf.contents == []
            && (if q.dest.DomainName? then
                  r.conn.State() == RESOLVING && ResolverQuery(r.conn) == Some((CString(q.dest.name), q.port))
                else
                  && r.conn.State() == CONNECTING && r.conn.addrs == [Address(q.dest, q.port)]
                  && r.conn.h.tried == [])
  {
    hide Inv, Step, Run, EncodeGreeting, EncodeLogin, EncodeRequest, Arrival, Authenticates, CString;
    LastIsRead(greeting, EncodeGreeting(g));
    LastIsRead(request, EncodeRequest(q));
    var c0 := NewConnection(sock, buffsize);
    NewConnectionInv(sock, buffsize);
    GreetingPhase(c0, greeting, g);
    var c1 := Run(c0, greeting).conn;
    InvIsValid(c1);
    RunAppend(c0, greeting, login);
    if Last(greeting).users == [] {
      assert greeting + login == greeting;
    } else {
      LastIsRead(login, EncodeLogin(l));
      LoginPhase(c1, login, l);
    }
    var c2 := Run(c0, greeting + login).conn;
    InvIsValid(c2);
    RequestPhase(c2, request, q);
    RunAppend(c0, greeting + login, request);
    var events := greeting + login + request;
    assert ReachedBy(Run(c0, events).conn, sock, buffsize, events);
  }

  // ---------------------------------------------------------------------------
  // A connection to a POP3 server
  // ---------------------------------------------------------------------------

  /** Bytes from the client, with memory to be had and sniffing switched on. */
  function Chunk(bytes: seq<byte>): Event {
    Event(Readable(ClientSide), QUIET.(incoming := Arrived(bytes), memoryOk := true, dissector := true))
  }

  lemma OneFragment(message: seq<byte>)
    requires message != []
    ensures Arrival([Chunk(message)], message)
  {
    assert [Chunk(message)][1..] == [];
    assert message + [] == message;
  }

  const POP3_SERVER: Address := Address(IPv4([192, 0, 2, 1]), [0, 110])

  lemma NothingTried(c: Conn)
    requires Inv(c) && c.State() == CONNECTING && c.h.tried == []
    ensures !c.originItem.Used()
  {
    hide Shape, Conserved, Counted, Gated, Replied, ClosedOnce;
  }

  /** A run that connects to port 110 without a login and leaves nothing to relay yet. */
  lemma ReachesPop3Server() returns (c: Conn)
    ensures Reachable(c) && c.State() == PROXY && c.ends == Ends(true, true, true, true)
    ensures c.originBuf.contents == [] && c.h.tried == [POP3_SERVER]
  {
    hide Inv, Run, Reachable, EncodeGreeting, EncodeRequest, Arrival;
    var g, q := Greeting(5, [0x00]), Request(1, POP3_SERVER.ip, POP3_SERVER.port);
    var greeting, request := [Chunk(EncodeGreeting(g))], [Chunk(EncodeRequest(q))];
    OneFragment(EncodeGreeting(g)) by { GreetingRoundTrip(g, []); }
    OneFragment(EncodeRequest(q)) by { RequestRoundTrip(q, []); }
    HandshakeArrives(5, MIN_BUFFSIZE, g, greeting, Login(1, [], []), [], q, request);
    var d := Run(NewConnection(5, MIN_BUFFSIZE), greeting + [] + request).conn;
    ReachableInv(d);
    NothingTried(d);
    var env := QUIET.(socket := 6, soError := None);
    AttemptsDecide(d, [env], env);
    var events := AttemptEvents([env] + [env]);
    ReachableRun(d, events);
    c := Run(d, events).conn;
    assert d.addrs[..1] == [POP3_SERVER];
  }

  /** A client's bytes, read while relaying with both of its ends and the origin's open. */
  lemma RelayRead(c: Conn, bytes: seq<byte>)
    requires Inv(c) && c.State() == PROXY && c.ends == Ends(true, true, true, true)
    requires bytes != [] && |c.originBuf.contents| + c.originBuf.start + |bytes| <= MIN_BUFFSIZE
    ensures c.Valid()
    ensures var r := Step(c, Chunk(bytes));
            && r.Next? && r.conn.State() == PROXY && r.conn.ends == c.ends
            && r.conn.originBuf.start == c.originBuf.start && r.conn.originBuf.contents == c.originBuf.contents + bytes
            && Dispatched(c, Readable(ClientSide)) && c.originBuf.CanWrite()
            && ReceivedBytes(c.originBuf, Arrived(bytes)) == bytes
  {
    hide CloseClient, Conserved, Gated, Counted, InListOrder, ClosedOnce, Replied, Changed;
  }

  /** What a send to the origin that is put off does to the counters. */
  lemma RelayPutOff(c: Conn, env: Env)
    requires Inv(c) && c.State() == PROXY && c.ends.originWrite && c.originBuf.CanRead() && env.outgoing.SendAgain?
    ensures c.Valid()
    ensures var r := Step(c, Event(Writable(OriginSide), env));
            r.Next? && r.conn.h.retries == c.h.retries + 1
  {
    hide CloseClient, Conserved, Gated, Counted, InListOrder, ClosedOnce, Replied, Changed;
  }

  /** The byte counter does go wrong: one send that is put off is enough. */
  lemma TransferredGoesWrong() returns (c: Conn)
    ensures Reachable(c) && c.h.retries > 0 && c.h.transferred > c.h.relayed
  {
    hide Inv, Run, Reachable, Step;
    var c0 := ReachesPop3Server();
    ReachableInv(c0);
    EmptyIsRewound(c0);
    RelayRead(c0, [0x55]);
    var chunk, putOff := Chunk([0x55]), Event(Writable(OriginSide), QUIET.(outgoing := SendAgain));
    StepKeeps(c0, chunk);
    var c1 := Step(c0, chunk).conn;
    RelayPutOff(c1, putOff.env);
    c := Step(c1, putOff).conn;
    ReachableStep(c0, chunk);
    ReachableStep(c1, putOff);
    ReachableInv(c);
    CountedFromInv(c);
  }

  /**
   * A client whose last bytes are discarded although no send failed: the origin ended its
   * stream while they were still in the request buffer.
   */
  lemma BytesAreDiscarded() returns (c: Conn)
    ensures Reachable(c) && c.State() == DONE && c.h.connected && !c.h.clientFailed && !c.h.originFailed
    ensures c.h.consumed + c.h.sentOrigin != c.h.readClient
  {
    hide Inv, Run, Reachable, Step, Effective;
    var c0 := ReachesPop3Server();
    ReachableInv(c0);
    EmptyIsRewound(c0);
    RelayRead(c0, [0x55]);
    ReachableStep(c0, Chunk([0x55]));
    var c1 := DrainedClient(Step(c0, Chunk([0x55])).conn);
    ReachableInv(c1);
    EndOrigin(c1);
    ReachableStep(c1, Event(Readable(OriginSide), QUIET));
    var c2 := Step(c1, Event(Readable(OriginSide), QUIET)).conn;
    ReachableInv(c2);
    ConnectedStays(c1, Event(Readable(OriginSide), QUIET));
    OriginStillFine(c2);
    EndClient(c2);
    ReachableStep(c2, Event(Writable(ClientSide), QUIET));
    c := Step(c2, Event(Writable(ClientSide), QUIET)).conn;
    ReachableInv(c);
    OriginBytes(c);
  }

  lemma DrainedClient(c: Conn) returns (d: Conn)
    requires Reachable(c) && c.State() == PROXY && c.ends == Ends(true, true, true, true) && c.originBuf.CanRead()
    ensures Reachable(d) && d.State() == PROXY && d.ends == c.ends && d.originBuf.CanRead()
    ensures !d.clientBuf.CanRead() && d.h.connected
  {
    hide Inv, Run, Reachable, Step, Effective;
    ReachableInv(c);
    d := c;
    if c.clientBuf.CanRead() {
      var ev := Event(Writable(ClientSide), QUIET.(outgoing := Taken(|c.clientBuf.contents|)));
      SendAll(c);
      ReachableStep(c, ev);
      d := Step(c, ev).conn;
      ReachableInv(d);
    }
    ConnectedInProxy(d);
  }

  lemma OriginStillFine(c: Conn)
    requires Inv(c) && c.ends.originWrite
    ensures !c.h.originFailed
  {
  }

  lemma EmptyIsRewound(c: Conn)
    requires Inv(c) && c.originBuf.contents == []
    ensures c.originBuf.start == 0
  {
  }

  lemma CountedFromInv(c: Conn)
    requires Inv(c)
    ensures c.h.transferred >= c.h.relayed + c.h.retries
  {
  }

  lemma ReachableStep(c: Conn, ev: Event)
    requires Reachable(c)
    ensures c.Valid() && Step(c, ev).Next? && Reachable(Step(c, ev).conn)
  {
    hide Inv, Run, Step, Reachable;
    ReachableInv(c);
    StepKeeps(c, ev);
    RunOne(c, ev);
    ReachableRun(c, [ev]);
  }

  // ---------------------------------------------------------------------------
  // A list that is given up
  // ---------------------------------------------------------------------------

  const NAME: Destination := DomainName([0x68])
  const DUAL: seq<Address> :=
    [Address(IPv6([0x20, 1, 0xD, 0xB8, 0, 0, 0, 0, 0, 0, 0, 0, 0, 0, 0, 1]), [0, 80]),
     Address(IPv4([192, 0, 2, 1]), [0, 80])]

  /** A run that resolves a name to an IPv6 and an IPv4 address. */
  lemma ReachesTwoAddresses() returns (c: Conn)
    ensures Reachable(c) && c.State() == CONNECTING && c.addrs == DUAL && c.h.tried == []
  {
    hide Inv, Run, Reachable, Step, EncodeGreeting, EncodeRequest, Arrival, CString;
    var g, q := Greeting(5, [0x00]), Request(1, NAME, [0, 80]);
    var greeting, request := [Chunk(EncodeGreeting(g))], [Chunk(EncodeRequest(q))];
    OneFragment(EncodeGreeting(g)) by { GreetingRoundTrip(g, []); }
    OneFragment(EncodeRequest(q)) by { RequestRoundTrip(q, []); }
    HandshakeArrives(5, MIN_BUFFSIZE, g, greeting, Login(1, [], []), [], q, request);
    var d := Run(NewConnection(5, MIN_BUFFSIZE), greeting + [] + request).conn;
    ReachableInv(d);
    var ev := Event(ResolverDone, QUIET.(resolution := DUAL));
    Resolved(d, ev.env);
    ReachableStep(d, ev);
    c := Step(d, ev).conn;
  }

  lemma Resolved(c: Conn, env: Env)
    requires Inv(c) && c.State() == RESOLVING
    ensures c.Valid()
    ensures var r := Step(c, Event(ResolverDone, env));
            r.Next? && r.conn.State() == CONNECTING && r.conn.addrs == env.resolution && r.conn.h.tried == []
  {
    hide Conserved, Gated, Counted, InListOrder, ClosedOnce, Replied;
  }

  /**
   * A client whose name has an IPv4 address that nobody tried: the network of its IPv6
   * address, which comes first, could not be reached.
   */
  lemma ListIsGivenUp() returns (c: Conn)
    ensures Reachable(c) && c.State() == WRITE_REMAINING && c.h.candidates == DUAL && c.h.tried == DUAL[..1]
    ensures exists before :: c.h.replied == before + RefusalBytes(3)
  {
    hide Inv, Run, Reachable;
    var d := ReachesTwoAddresses();
    ReachableInv(d);
    NothingTried(d);
    var env := QUIET.(socket := 6, connect := Some(ENETUNREACH));
    assert Refusal(env) == Some(3);
    AttemptsDecide(d, [], env);
    var events := AttemptEvents([] + [env]);
    ReachableRun(d, events);
    c := Run(d, events).conn;
  }
}
