/** Every handler keeps the joint invariant, and none of them aborts. */
module Preservation {
  import opened Common
  import opened Buffers
  import opened SocketsIO
  import opened Selectors
  import opened Handshake
  import opened Users
  import opened Connections
  import opened Invariants

  /** The connection after a handler's result has been passed to jump. */
  function Landed(r: Ret): (c: Conn)
    requires r.Next? && r.conn.Valid()
    ensures c.Valid()
  {
    Jump(r.conn, r.state)
  }

  lemma LandedFacts(r: Ret)
    requires r.Next? && r.conn.Valid()
    ensures Landed(r).State() == r.state && Landed(r).h == r.conn.h && Landed(r).ends == r.conn.ends
    ensures Landed(r).addrs == r.conn.addrs
    ensures Landed(r).clientBuf == r.conn.clientBuf && Landed(r).originBuf == r.conn.originBuf
    ensures r.conn.current == Some(r.state) ==> Landed(r) == r.conn
  {
    hide EnableWrite;
  }

  // ---------------------------------------------------------------------------
  // Replies fit
  // ---------------------------------------------------------------------------

  lemma SimpleReplyFits(c: Conn, version: byte, status: byte)
    requires BuffersFit(c) && c.clientBuf.start + |c.clientBuf.contents| <= 4
    ensures var d := SimpleReply(c, version, status);
            && d.clientBuf.contents == c.clientBuf.contents + [version, status]
            && d.clientBuf.start == c.clientBuf.start
            && (Conserved(c) && c.h.readOrigin == [] ==> Conserved(d))
  {
    var d := SimpleReply(c, version, status);
    assert d.clientBuf.contents == c.clientBuf.contents + [version, status];
    if Conserved(c) && c.h.readOrigin == [] {
      assert c.h.sentClient + d.clientBuf.contents == (c.h.sentClient + c.clientBuf.contents) + [version, status];
    }
  }

  lemma PutFour(b: Buf, w: byte, x: byte, y: byte, z: byte)
    requires b.Valid() && b.Space() >= 4
    ensures b.Put(w).Put(x).Put(y).Put(z) == Buf(b.cap, b.start, b.contents + [w, x, y, z])
  {
  }

  lemma ReplyFits(b: Buf, reply: Reply)
    requires b.Valid() && reply.Valid() && b.Space() >= |reply.Bytes()|
    ensures ReplyInto(b, reply) == Buf(b.cap, b.start, b.contents + reply.Bytes())
  {
    var atyp := if reply.bound.IPv4? then ATYP_IPV4 else ATYP_IPV6;
    var ip, port := reply.bound.ip, reply.port;
    var head := [SERVER_VERSION, reply.code.Code(), 0, atyp];
    PutFour(b, SERVER_VERSION, reply.code.Code(), 0, atyp);
    ReplyLayout(reply);
    Associate(b.contents, head, ip);
    Associate(b.contents, head + ip, port);
  }

  lemma ReplyLayout(reply: Reply)
    requires reply.Valid()
    ensures var atyp := if reply.bound.IPv4? then ATYP_IPV4 else ATYP_IPV6;
            reply.Bytes() == [SERVER_VERSION, reply.code.Code(), 0, atyp] + reply.bound.ip + reply.port
  {
  }

  lemma RepliedMore(c: Conn, b: Buf, bytes: seq<byte>)
    requires Conserved(c) && c.h.readOrigin == [] && b.contents == c.clientBuf.contents + bytes
    ensures c.h.sentClient + b.contents == (c.h.replied + bytes) + c.h.readOrigin
    ensures (c.h.replied + bytes)[|c.h.replied|..] == bytes
  {
    assert c.h.sentClient + b.contents == (c.h.sentClient + c.clientBuf.contents) + bytes;
  }

  lemma ServerReplyFits(c: Conn, reply: Reply)
    requires BuffersFit(c) && Conserved(c) && c.h.readOrigin == [] && reply.Valid()
    requires c.clientBuf.start + |c.clientBuf.contents| <= 4
    ensures var d := ServerReply(c, reply);
            && d.clientBuf.contents == c.clientBuf.contents + reply.Bytes()
            && Conserved(d)
            && d.h.replied[|c.h.replied|..] == reply.Bytes()
  {
    ReplyFits(c.clientBuf, reply);
    RepliedMore(c, ReplyInto(c.clientBuf, reply), reply.Bytes());
  }

  // ---------------------------------------------------------------------------
  // Giving up before the origin is connected
  // ---------------------------------------------------------------------------

  /** A connection that stops reading before any origin was connected. */
  predicate GivingUp(c: Conn) {
    && BuffersFit(c) && Conserved(c) && Counted(c) && Replied(c) && c.h.tried <= c.h.candidates
    && c.ends == CLIENT && c.clientItem.Used() && !c.originItem.Used() && !c.resolving
    && !c.h.connected && !c.h.clientFailed && !c.h.originFailed
    && c.h.clientClosed == 0 && c.h.originClosed == 0
    && c.current.Some? && c.State() in {AUTH_METHOD, PLAIN_AUTH, REQUEST, CONNECTING}
    && (c.h.login.Some? ==> Authenticates(c.h.login.value.users, c.h.login.value.name, c.h.login.value.pass))
  }

  lemma GivingUpKeeps(c: Conn)
    requires GivingUp(c)
    ensures var r := CloseClient(c, CLIENT_READ);
            r.state == WRITE_REMAINING && Inv(Landed(r))
  {
    hide CloseClient, Authenticates;
    CloseClientClosedForm(c, CLIENT_READ);
  }

  lemma RefuseKeeps(c: Conn, code: ReplyCode)
    requires GivingUp(c) && c.h.replies == [] && c.h.readOrigin == [] && code != Succeeded
    requires c.clientBuf.start + |c.clientBuf.contents| <= 4
    ensures var r := Refuse(c, code);
            r.Next? && r.state == WRITE_REMAINING && Inv(Landed(r))
  {
    var reply := FailureReply(code);
    ServerReplyFits(c, reply);
    GivingUpKeeps(ServerReply(c, reply));
  }

  // ---------------------------------------------------------------------------
  // Handshake
  // ---------------------------------------------------------------------------

  lemma ReceiveFromClientKeeps(c: Conn, incoming: Incoming)
    requires BuffersFit(c) && Conserved(c)
    ensures var d := ReceiveFromClient(c, incoming); BuffersFit(d) && Conserved(d)
  {
    var d, s := ReceiveFromClient(c, incoming), ReceivedBytes(c.originBuf, incoming);
    assert c.h.consumed + c.h.sentOrigin + d.originBuf.contents
        == (c.h.consumed + c.h.sentOrigin + c.originBuf.contents) + s;
  }

  lemma ConsumeKeeps(c: Conn, n: nat)
    requires BuffersFit(c) && Conserved(c) && c.h.sentOrigin == [] && 0 < n <= |c.originBuf.contents|
    ensures var d := Consume(c, n);
            && BuffersFit(d) && Conserved(d)
            && (d.originBuf.start == 0 ==> d.originBuf.contents == [])
            && (!d.h.pipelined ==> d.originBuf.start == 0)
  {
    var d := Consume(c, n);
    assert c.originBuf.contents == c.originBuf.contents[..n] + c.originBuf.contents[n..];
    assert d.h.consumed + d.h.sentOrigin + d.originBuf.contents
        == c.h.consumed + c.h.sentOrigin + c.originBuf.contents;
  }

  lemma ReadAuthMethodKeeps(c: Conn, env: Env)
    requires Inv(c) && c.current == Some(AUTH_METHOD)
    ensures var r := ReadAuthMethod(c, ClientSide, env); r.Next? && Inv(Landed(r))
  {
    var d := ReceiveFromClient(c, env.incoming);
    ReceiveFromClientKeeps(c, env.incoming);
    if CheckEOF(ReadCount(c.originBuf, env.incoming)) {
      GivingUpKeeps(d);
    } else {
      match ParseGreeting(d.originBuf.contents)
      case NeedMore =>
      case Decided(g, n) =>
        ConsumeKeeps(d, n);
        AnswerGreetingKeeps(Consume(d, n), g, env.users);
    }
  }

  predicate Between(c: Conn) {
    && BuffersFit(c) && Conserved(c) && Counted(c) && Replied(c) && InListOrder(c)
    && ClosedOnce(c) && BeforeConnected(c) && NoOriginYet(c) && !c.resolving
    && c.current.Some?
    && (!c.h.pipelined ==> c.originBuf.start == 0) && (c.originBuf.start == 0 ==> c.originBuf.contents == [])
  }

  /** Moving on to the next handshake message with a reply to send. */
  lemma MovingOnKeeps(c: Conn, next: State)
    requires Between(c) && next in {PLAIN_AUTH, REQUEST} && c.current != Some(next)
    requires c.clientItem.interest.read && (next == PLAIN_AUTH ==> |c.h.replied| <= 2)
    requires Gated(c.(current := Some(next)))
    ensures Inv(Landed(Next(c.Change(ClientSide, AddInterest(OP_WRITE)), next)))
  {
  }

  lemma AnswerGreetingKeeps(c: Conn, g: Greeting, users: seq<User>)
    requires Between(c) && c.State() == AUTH_METHOD && c.clientItem.interest == OP_READ
    requires c.h.login.None? && c.h.replied == []
    ensures var r := AnswerGreeting(c, g, users); r.Next? && Inv(Landed(r))
  {
    var d := c.(h := c.h.(greeted := Some(|users|)));
    var choice := if g.version != SERVER_VERSION then NoneAcceptable else Select(g.methods, |users|);
    SimpleReplyFits(d, SERVER_VERSION, choice.Code());
    var e := SimpleReply(d, SERVER_VERSION, choice.Code());
    match choice
    case NoAuthentication => MovingOnKeeps(e, REQUEST);
    case UserAndPassword => MovingOnKeeps(e, PLAIN_AUTH);
    case NoneAcceptable => GivingUpKeeps(e);
  }

  lemma ReadPlainAuthKeeps(c: Conn, env: Env)
    requires Inv(c) && c.current == Some(PLAIN_AUTH)
    ensures var r := ReadPlainAuth(c, ClientSide, env); r.Next? && Inv(Landed(r))
  {
    var d := ReceiveFromClient(c, env.incoming);
    ReceiveFromClientKeeps(c, env.incoming);
    if CheckEOF(ReadCount(c.originBuf, env.incoming)) {
      GivingUpKeeps(d);
    } else {
      LoginStable(d.originBuf.contents, [], env.stale, 0);
      match ParseLogin(d.originBuf.contents, env.stale)
      case NeedMore =>
      case Decided(l, n) =>
        ConsumeKeeps(d, n);
        AnswerLoginKeeps(Consume(d, n), l, env.users);
    }
  }

  lemma AnswerLoginKeeps(c: Conn, l: Login, users: seq<User>)
    requires Between(c) && Gated(c) && c.State() == PLAIN_AUTH && c.clientItem.interest == OP_BOTH
    requires |c.h.replied| <= 2
    ensures var r := AnswerLogin(c, l, users); r.Next? && Inv(Landed(r))
  {
    var name, pass := CString(l.user), CString(l.pass);
    if l.version != PLAIN_AUTH_VERSION {
      SimpleReplyFits(c, PLAIN_AUTH_VERSION, 0xFF);
      GivingUpKeeps(SimpleReply(c, PLAIN_AUTH_VERSION, 0xFF));
    } else if Authenticates(users, name, pass) {
      var d := c.(h := c.h.(login := Some(Credentials(users, name, pass))));
      SimpleReplyFits(d, PLAIN_AUTH_VERSION, 0x00);
      MovingOnKeeps(SimpleReply(d, PLAIN_AUTH_VERSION, 0x00), REQUEST);
    } else {
      SimpleReplyFits(c, PLAIN_AUTH_VERSION, 0x01);
      GivingUpKeeps(SimpleReply(c, PLAIN_AUTH_VERSION, 0x01));
    }
  }

  lemma ReadProxyRequestKeeps(c: Conn, env: Env)
    requires Inv(c) && c.current == Some(REQUEST)
    ensures var r := ReadProxyRequest(c, ClientSide, env); r.Next? && Inv(Landed(r))
  {
    var d := ReceiveFromClient(c, env.incoming);
    ReceiveFromClientKeeps(c, env.incoming);
    if CheckEOF(ReadCount(c.originBuf, env.incoming)) {
      RefuseKeeps(d, CommandNotSupported);
    } else {
      match ParseRequest(d.originBuf.contents)
      case NeedMore =>
      case Decided(q, n) =>
        if q.BadAddressType? {
          RefuseKeeps(d, AddressNotSupported);
        } else {
          ConsumeKeeps(d, n);
          AnswerRequestKeeps(Consume(d, n), q, env.memoryOk);
        }
    }
  }

  /** Entering RESOLVING or CONNECTING, with nothing more to read from the client for now. */
  predicate Requested(c: Conn) {
    && BuffersFit(c) && Conserved(c) && Counted(c) && Gated(c) && Replied(c) && InListOrder(c)
    && ClosedOnce(c) && BeforeConnected(c) && NoOriginYet(c) && !c.resolving
    && c.current.Some? && c.State() in {REQUEST, RESOLVING}
    && c.clientItem.interest == OP_WRITE
  }

  lemma ResolvingKeeps(c: Conn)
    requires Requested(c) && c.State() == REQUEST && ResolverQuery(c).Some?
    ensures Inv(Landed(Next(c, RESOLVING)))
  {
  }

  lemma ConnectingKeeps(c: Conn, list: seq<Address>)
    requires Requested(c)
    ensures Inv(Landed(Next(c.(addrs := list, h := c.h.(candidates := list)), CONNECTING)))
  {
  }

  lemma AnswerRequestKeeps(c: Conn, q: Request, memoryOk: bool)
    requires Between(c) && Gated(c) && c.State() == REQUEST && c.clientItem.interest == OP_BOTH && q.Request?
    ensures var r := AnswerRequest(c, q, memoryOk); r.Next? && Inv(Landed(r))
  {
    if q.cmd != CMD_CONNECT {
      RefuseKeeps(c, CommandNotSupported);
    } else {
      var d := c.Change(ClientSide, RemoveInterest(OP_READ));
      if !memoryOk {
        RefuseKeeps(d, ServerFailure);
      } else if q.dest.DomainName? {
        ResolvingKeeps(d.(domain := Some(Address(q.dest, q.port))));
      } else {
        ConnectingKeeps(d, [Address(q.dest, q.port)]);
      }
    }
  }

  // ---------------------------------------------------------------------------
  // Resolving and connecting
  // ---------------------------------------------------------------------------

  lemma FinishedResolutionKeeps(c: Conn, env: Env)
    requires Inv(c) && c.State() == RESOLVING
    ensures var r := HandleFinishedResolution(c.(resolving := false), env); r.Next? && Inv(Landed(r))
  {
    ConnectingKeeps(c.(resolving := false), env.resolution);
  }

  /** About to try the first of the remaining addresses. */
  predicate Trying(c: Conn) {
    && BuffersFit(c) && Conserved(c) && Counted(c) && Gated(c) && Replied(c)
    && ClosedOnce(c) && BeforeConnected(c) && !c.resolving
    && c.current == Some(CONNECTING)
    && c.clientItem.mask == OP_BOTH && c.clientItem.interest == OP_NOOP && !c.originItem.Used()
    && c.addrs != [] && c.h.tried + c.addrs == c.h.candidates
  }

  lemma TryConnectKeeps(c: Conn, env: Env)
    requires Trying(c)
    ensures var r := TryConnect(c, env); r.Next? && Inv(Landed(r))
  {
    var d := c.(originSock := env.socket, originItem := UNUSED_ITEM,
                h := c.h.(tried := c.h.tried + [c.addrs[0]]));
    assert d.h.tried + c.addrs[1..] == c.h.candidates by {
      assert [c.addrs[0]] + c.addrs[1..] == c.addrs;
    }
    if env.socket < 0 || (env.connect.None? && InvalidFd(env.socket)) {
      RefuseKeeps(d, ServerFailure);
    } else if env.connect.Some? {
      RefuseKeeps(d, CheckConnectionError(env.connect.value));
    }
  }

  lemma CheckConnectionKeeps(c: Conn, side: Side, env: Env)
    requires Inv(c) && c.State() == CONNECTING && Dispatched(c, Writable(side))
    ensures var r := OriginCheckConnection(c, side, env); r.Next? && Inv(Landed(r))
  {
    hide Refuse, TryConnect, ServerReply, Jump, Authenticates;
    if side == ClientSide {
      var d := c.Change(ClientSide, RemoveInterest(OP_WRITE));
      if d.addrs == [] {
        RefuseKeeps(d, HostUnreachable);
      } else {
        assert [] + d.addrs == d.addrs;
        TryConnectKeeps(d, env);
      }
    } else if env.soError.None? {
      ConnectedKeeps(c, env);
    } else {
      var d := c.(originItem := UNUSED_ITEM);
      if |d.addrs| > 1 {
        TryConnectKeeps(d.(addrs := d.addrs[1..]), env);
      } else {
        RefuseKeeps(d, CheckConnectionError(env.soError.value));
      }
    }
  }

  lemma ConnectedKeeps(c: Conn, env: Env)
    requires Inv(c) && c.State() == CONNECTING && c.originItem.Used() && env.soError.None?
    ensures var r := OriginCheckConnection(c, OriginSide, env); r.Next? && Inv(Landed(r))
  {
    var d := c.(ends := c.ends.(originWrite := true, originRead := true), h := c.h.(connected := true))
              .Change(OriginSide, SetInterest(OP_BOTH))
              .Change(ClientSide, SetInterest(OP_BOTH));
    ServerReplyFits(d, SuccessReply(c.addrs[0], env));
  }

  // ---------------------------------------------------------------------------
  // Relaying
  // ---------------------------------------------------------------------------

  predicate InRelay(c: Conn) {
    && c.current in {Some(PROXY), Some(WRITE_REMAINING)} && !c.resolving
    && (c.State() == PROXY <==> c.ends.clientRead || c.ends.originRead)
    && (c.State() == PROXY ==> c.h.connected)
  }

  /** Closing ends other than CLIENT_WRITE leaves the rest relaying, with the write ends awake. */
  lemma ReducedRelays(c: Conn, asked: Ends)
    requires Relaying(c) && !asked.clientWrite
    ensures Relaying(EnableWrite(CloseEnds(c, Cascade(c.ends, asked))))
  {
    hide ClientAwake, OriginAwake, EnableWrite;
    ClientStaysAwake(c, Cascade(c.ends, asked));
    OriginStaysAwake(c, Cascade(c.ends, asked));
  }

  lemma ClientStaysAwake(c: Conn, total: Ends)
    requires c.ends.clientWrite && ClientAwake(c) && !total.clientWrite
    ensures ClientAwake(EnableWrite(CloseEnds(c, total)))
  {
  }

  lemma OriginStaysAwake(c: Conn, total: Ends)
    requires OriginAwake(c)
    ensures OriginAwake(EnableWrite(CloseEnds(c, total)))
  {
  }

  /** ClosedOnce, but for what a send that just failed is about to cause. */
  predicate ClosedSoFar(c: Conn) {
    && c.ends.clientWrite
    && c.h.clientClosed == 0
    && (c.h.originClosed == if c.h.connected && !c.ends.Origin() then 1 else 0)
    && (!c.h.connected ==> !c.ends.Origin())
    && (c.h.connected && !c.ends.originWrite ==> c.h.originFailed || !c.originBuf.CanRead())
  }

  lemma ReducedClosedOnce(c: Conn, asked: Ends)
    requires ClosedSoFar(c) && !c.h.clientFailed && !asked.clientWrite
    requires c.ends.originWrite && c.h.originFailed ==> asked.originWrite
    requires c.ends.originWrite && asked.originWrite ==> c.h.originFailed || !c.originBuf.CanRead()
    ensures ClosedOnce(EnableWrite(CloseEnds(c, Cascade(c.ends, asked))))
  {
  }

  /** Everything but the closing of ends and the shape of the current state. */
  predicate SoundBut(c: Conn) {
    BuffersFit(c) && Conserved(c) && Counted(c) && Gated(c) && Replied(c) && InListOrder(c)
  }

  /** Closing touches neither the buffers nor what is known about them. */
  lemma SoundAfterClose(c: Conn, d: Conn)
    requires SoundBut(c)
    requires d.clientBuf == c.clientBuf && d.originBuf == c.originBuf
    requires d.h == c.h.(clientClosed := d.h.clientClosed, originClosed := d.h.originClosed)
    requires d.State() in {PROXY, WRITE_REMAINING, DONE} && (d.State() == PROXY ==> c.State() == PROXY)
    ensures SoundBut(d)
  {
  }

  /** Where closeClient and jump leave a connection, in closed form. */
  function AfterClose(c: Conn, asked: Ends): Conn {
    var d := CloseEnds(c, Cascade(c.ends, asked));
    if d.ends.None() then d.(current := Some(DONE))
    else if d.ends.clientRead || d.ends.originRead then EnableWrite(d)
    else if d.current == Some(WRITE_REMAINING) then d
    else EnableWrite(d).(current := Some(WRITE_REMAINING))
  }

  lemma CloseLands(c: Conn, asked: Ends)
    requires c.Valid() && c.current.Some?
    ensures Landed(CloseClient(c, asked)) == AfterClose(c, asked)
  {
    CloseClientClosedForm(c, asked);
  }

  /** In WRITE_REMAINING the write ends are already awake. */
  lemma AwakeRelays(d: Conn)
    requires Relaying(EnableWrite(d)) && ClosedOnce(EnableWrite(d))
    requires d.clientItem.Used() && d.clientItem.Effective().write
    requires d.ends.originWrite ==> d.originItem.Used() && d.originItem.Effective().write
    ensures Relaying(d) && ClosedOnce(d)
  {
  }

  predicate Closable(c: Conn, asked: Ends) {
    && InRelay(c) && Relaying(c) && ClosedSoFar(c)
    && !c.h.clientFailed && !asked.clientWrite
    && (c.ends.originWrite && c.h.originFailed ==> asked.originWrite)
    && (c.ends.originWrite && asked.originWrite ==> c.h.originFailed || !c.originBuf.CanRead())
  }

  lemma CloseSomeRelays(c: Conn, asked: Ends)
    requires Closable(c, asked)
    ensures var e := AfterClose(c, asked); Relaying(e) && ClosedOnce(e)
  {
    ReducedRelays(c, asked);
    ReducedClosedOnce(c, asked);
    var d := CloseEnds(c, Cascade(c.ends, asked));
    if !d.ends.clientRead && !d.ends.originRead && d.current == Some(WRITE_REMAINING) {
      AwakeRelays(d);
    }
  }

  lemma CloseSomeStays(c: Conn, asked: Ends)
    requires Closable(c, asked)
    ensures var e := AfterClose(c, asked);
            && InRelay(e) && (e.State() == PROXY ==> c.State() == PROXY)
            && e.clientBuf == c.clientBuf && e.originBuf == c.originBuf
            && e.h == c.h.(clientClosed := e.h.clientClosed, originClosed := e.h.originClosed)
  {
  }

  /** Closing ends other than CLIENT_WRITE. */
  lemma CloseSomeKeeps(c: Conn, asked: Ends)
    requires SoundBut(c) && Closable(c, asked)
    ensures Inv(Landed(CloseClient(c, asked)))
  {
    CloseLands(c, asked);
    CloseSomeRelays(c, asked);
    CloseSomeStays(c, asked);
    RelayInv(c, AfterClose(c, asked));
  }

  lemma RelayInv(c: Conn, e: Conn)
    requires SoundBut(c) && Relaying(e) && ClosedOnce(e) && InRelay(e)
    requires e.State() == PROXY ==> c.State() == PROXY
    requires e.clientBuf == c.clientBuf && e.originBuf == c.originBuf
    requires e.h == c.h.(clientClosed := e.h.clientClosed, originClosed := e.h.originClosed)
    ensures Inv(e)
  {
    SoundAfterClose(c, e);
  }

  lemma AllClosed(c: Conn)
    requires c.current.Some? && c.ends.clientWrite && (c.originItem.Used() ==> c.ends.Origin())
    ensures var d := AfterClose(c, CLIENT_WRITE);
            && d.current == Some(DONE) && d.ends.None() && !d.clientItem.Used() && !d.originItem.Used()
            && d.clientBuf == c.clientBuf && d.originBuf == c.originBuf
            && d.h == c.h.(clientClosed := c.h.clientClosed + 1,
                           originClosed := c.h.originClosed + if c.ends.Origin() then 1 else 0)
  {
  }

  /** Closing CLIENT_WRITE takes everything down. */
  lemma CloseAllKeeps(c: Conn)
    requires SoundBut(c) && c.current.Some? && c.State() != DONE && c.ends.clientWrite
    requires c.clientItem.Used() && (c.originItem.Used() ==> c.ends.Origin())
    requires c.h.clientClosed == 0 && (c.h.originClosed == if c.h.connected && !c.ends.Origin() then 1 else 0)
    requires !c.h.connected ==> !c.ends.Origin()
    requires c.h.clientFailed || !c.clientBuf.CanRead()
    ensures var d := Landed(CloseClient(c, CLIENT_WRITE)); d.State() == DONE && Inv(d)
  {
    hide AfterClose, CloseClient, Jump;
    CloseLands(c, CLIENT_WRITE);
    AllClosed(c);
    SoundAfterClose(c, AfterClose(c, CLIENT_WRITE));
  }

  lemma ReceiveFromOriginKeeps(c: Conn, incoming: Incoming)
    requires BuffersFit(c) && Conserved(c)
    ensures var d := ReceiveFromOrigin(c, incoming); BuffersFit(d) && Conserved(d)
  {
    var d, s := ReceiveFromOrigin(c, incoming), ReceivedBytes(c.clientBuf, incoming);
    assert c.h.sentClient + d.clientBuf.contents == (c.h.sentClient + c.clientBuf.contents) + s;
  }

  lemma SendConserves(c: Conn, side: Side, out: Outgoing)
    requires BuffersFit(c) && Conserved(c)
    ensures var d := Send(c, side, out); BuffersFit(d) && Conserved(d)
  {
    var d := Send(c, side, out);
    if side == ClientSide {
      Associate(c.h.sentClient, SentBytes(c.clientBuf, out), d.clientBuf.contents);
    } else {
      var sent, left := SentBytes(c.originBuf, out), d.originBuf.contents;
      Associate(c.h.consumed + c.h.sentOrigin, sent, left);
      Associate(c.h.consumed, c.h.sentOrigin, sent);
    }
  }

  /** Each EAGAIN counts the whole window and one more byte; nothing else is miscounted. */
  lemma SendCounts(c: Conn, side: Side, out: Outgoing)
    requires c.Valid() && Counted(c)
    ensures Counted(Send(c, side, out))
  {
  }

  lemma SendKeeps(c: Conn, side: Side, out: Outgoing)
    requires SoundBut(c)
    ensures SoundBut(Send(c, side, out))
  {
    SendConserves(c, side, out);
    SendCounts(c, side, out);
  }

  lemma ReceivedFromClientKeeps(c: Conn, incoming: Incoming)
    requires Inv(c) && c.State() == PROXY && c.ends.clientRead && c.originBuf.CanWrite()
    ensures var d := ReceiveFromClient(c, incoming);
            && SoundBut(d) && ClosedOnce(d)
            && Inv(d.Change(OriginSide, UnmaskInterest(OP_WRITE)))
  {
    ReceiveFromClientKeeps(c, incoming);
  }

  lemma ReceivedFromOriginKeeps(c: Conn, incoming: Incoming)
    requires Inv(c) && c.State() == PROXY && c.ends.originRead && c.clientBuf.CanWrite()
    ensures var d := ReceiveFromOrigin(c, incoming);
            && SoundBut(d) && ClosedOnce(d)
            && Inv(d.Change(ClientSide, UnmaskInterest(OP_WRITE)))
  {
    ReceiveFromOriginKeeps(c, incoming);
  }

  lemma ReceivedNothing(b: Buf, incoming: Incoming)
    requires b.Valid() && CheckEOF(ReadCount(b, incoming))
    ensures ReadFrom(b, incoming) == b && ReceivedBytes(b, incoming) == []
  {
  }

  lemma MaskedReadKeeps(c: Conn, side: Side)
    requires Inv(c) && c.State() == PROXY
    requires if side == ClientSide then !c.originBuf.CanWrite() else !c.clientBuf.CanWrite()
    ensures Inv(c.Change(side, MaskInterest(OP_READ)))
  {
  }

  /** End of file, or a failed read, on an end that is still open. */
  lemma EofKeeps(c: Conn, asked: Ends)
    requires Inv(c) && c.State() == PROXY && asked in {CLIENT_READ, ORIGIN_READ}
    ensures Inv(Landed(CloseClient(c, asked)))
  {
    CloseSomeKeeps(c, asked);
  }

  lemma StayingKeeps(c: Conn, s: State)
    requires Inv(c) && c.current == Some(s)
    ensures Inv(Landed(Next(c, s)))
  {
    hide Inv;
  }

  lemma ProxyReadClientKeeps(c: Conn, env: Env)
    requires Inv(c) && c.State() == PROXY && c.ends.clientRead
    ensures var r := HandleProxyRead(c, ClientSide, env); r.Next? && Inv(Landed(r))
  {
    hide Inv, Jump, CloseClient, ReadFrom, ReceivedBytes, ReadCount;
    InvIsValid(c);
    if !c.originBuf.CanWrite() {
      MaskedReadKeeps(c, ClientSide);
      StayingKeeps(c.Change(ClientSide, MaskInterest(OP_READ)), PROXY);
    } else if CheckEOF(ReadCount(c.originBuf, env.incoming)) {
      ReceivedNothing(c.originBuf, env.incoming);
      assert ReceiveFromClient(c, env.incoming) == c;
      EofKeeps(c, CLIENT_READ);
    } else {
      ReceivedFromClientKeeps(c, env.incoming);
      StayingKeeps(ReceiveFromClient(c, env.incoming).Change(OriginSide, UnmaskInterest(OP_WRITE)), PROXY);
    }
  }

  lemma ProxyReadOriginKeeps(c: Conn, env: Env)
    requires Inv(c) && c.State() == PROXY && c.ends.originRead
    ensures var r := HandleProxyRead(c, OriginSide, env); r.Next? && Inv(Landed(r))
  {
    hide Inv, Jump, CloseClient, ReadFrom, ReceivedBytes, ReadCount;
    InvIsValid(c);
    if !c.clientBuf.CanWrite() {
      MaskedReadKeeps(c, OriginSide);
      StayingKeeps(c.Change(OriginSide, MaskInterest(OP_READ)), PROXY);
    } else if CheckEOF(ReadCount(c.clientBuf, env.incoming)) {
      ReceivedNothing(c.clientBuf, env.incoming);
      assert ReceiveFromOrigin(c, env.incoming) == c;
      EofKeeps(c, ORIGIN_READ);
    } else {
      ReceivedFromOriginKeeps(c, env.incoming);
      StayingKeeps(ReceiveFromOrigin(c, env.incoming).Change(ClientSide, UnmaskInterest(OP_WRITE)), PROXY);
    }
  }

  lemma SentToOriginKeeps(c: Conn, out: Outgoing)
    requires Inv(c) && c.State() in {PROXY, WRITE_REMAINING} && c.ends.originWrite && !out.SendError?
    requires c.originBuf.CanRead()
    ensures Inv(Send(c, OriginSide, out).Change(ClientSide, UnmaskInterest(OP_READ)))
  {
    hide Send, Conserved, Counted, Replied, InListOrder, Authenticates;
    SendKeeps(c, OriginSide, out);
    SentOnly(c, OriginSide, out);
    ChangeKeepsSound(Send(c, OriginSide, out), ClientSide, UnmaskInterest(OP_READ));
  }

  lemma SentToClientKeeps(c: Conn, out: Outgoing)
    requires Inv(c) && c.State() in {PROXY, WRITE_REMAINING} && !out.SendError?
    requires c.clientBuf.CanRead()
    ensures Inv(Send(c, ClientSide, out).Change(OriginSide, UnmaskInterest(OP_READ)))
  {
    hide Send, Conserved, Counted, Replied, InListOrder, Authenticates;
    SendKeeps(c, ClientSide, out);
    SentOnly(c, ClientSide, out);
    ChangeKeepsSound(Send(c, ClientSide, out), OriginSide, UnmaskInterest(OP_READ));
  }

  lemma ChangeKeepsSound(c: Conn, side: Side, change: Change)
    requires SoundBut(c) && c.State() != CONNECTING
    ensures SoundBut(c.Change(side, change))
  {
    hide Changed, Authenticates;
  }

  /** What a send leaves as it is. */
  lemma SentOnly(c: Conn, side: Side, out: Outgoing)
    requires c.Valid()
    ensures var d := Send(c, side, out);
            && SentHistory(c.h, d.h)
            && (if side == ClientSide then d == c.(clientBuf := d.clientBuf, h := d.h)
                else d == c.(originBuf := d.originBuf, h := d.h))
  {
    hide WriteTo, SentBytes, BytesLeft;
  }

  /** The parts of a history that a send has nothing to do with. */
  predicate SentHistory(h: History, k: History) {
    && k.login == h.login && k.greeted == h.greeted && k.replies == h.replies && k.replied == h.replied
    && k.connected == h.connected && k.clientFailed == h.clientFailed && k.originFailed == h.originFailed
    && k.clientClosed == h.clientClosed && k.originClosed == h.originClosed
    && k.tried == h.tried && k.candidates == h.candidates
  }

  lemma SendErrorChangesNothing(c: Conn, side: Side)
    requires c.Valid()
    ensures Send(c, side, SendError) == c
  {
  }

  /** Nothing left for an origin whose client has finished. */
  lemma OriginDrainedKeeps(c: Conn)
    requires Inv(c) && c.State() in {PROXY, WRITE_REMAINING} && !c.originBuf.CanRead() && !c.ends.clientRead
    ensures Inv(Landed(CloseClient(c, ORIGIN_WRITE)))
  {
    CloseSomeKeeps(c, ORIGIN_WRITE);
  }

  lemma OriginFailureKeeps(c: Conn)
    requires Inv(c) && c.State() in {PROXY, WRITE_REMAINING} && c.ends.originWrite
    ensures Inv(Landed(CloseClient(c.(h := c.h.(originFailed := true)), ORIGIN_WRITE)))
  {
    CloseSomeKeeps(c.(h := c.h.(originFailed := true)), ORIGIN_WRITE);
  }

  lemma ClientDrainedKeeps(c: Conn)
    requires Inv(c) && c.State() in {PROXY, WRITE_REMAINING} && !c.clientBuf.CanRead()
    ensures Inv(Landed(CloseClient(c, CLIENT_WRITE)))
  {
    CloseAllKeeps(c);
  }

  lemma ClientFailureKeeps(c: Conn)
    requires Inv(c) && c.State() in {PLAIN_AUTH, REQUEST, RESOLVING, PROXY, WRITE_REMAINING}
    ensures Inv(Landed(CloseClient(c.(h := c.h.(clientFailed := true)), CLIENT_WRITE)))
  {
    CloseAllKeeps(c.(h := c.h.(clientFailed := true)));
  }

  /** With nothing to send the mask goes on, unless that would hide the end of the stream. */
  lemma MaskedWriteKeeps(c: Conn, side: Side)
    requires Inv(c) && c.State() in {PLAIN_AUTH, REQUEST, RESOLVING, PROXY}
    requires if side == ClientSide then !c.clientBuf.CanRead() && (c.State() == PROXY ==> c.ends.originRead)
             else !c.originBuf.CanRead() && c.ends.clientRead && c.State() == PROXY
    ensures Inv(c.Change(side, MaskInterest(OP_WRITE)))
  {
    hide Inv;
    if c.State() == PROXY {
      MaskedWhileRelaying(c, side);
    } else {
      MaskedBefore(c);
    }
  }

  lemma MaskedWhileRelaying(c: Conn, side: Side)
    requires Inv(c) && c.State() == PROXY
    requires if side == ClientSide then !c.clientBuf.CanRead() && c.ends.originRead
             else !c.originBuf.CanRead() && c.ends.clientRead
    ensures Inv(c.Change(side, MaskInterest(OP_WRITE)))
  {
  }

  lemma MaskedBefore(c: Conn)
    requires Inv(c) && c.State() in {PLAIN_AUTH, REQUEST, RESOLVING} && !c.clientBuf.CanRead()
    ensures Inv(c.Change(ClientSide, MaskInterest(OP_WRITE)))
  {
  }

  lemma ProxyWriteOriginKeeps(c: Conn, env: Env)
    requires Inv(c) && c.State() in {PROXY, WRITE_REMAINING} && c.ends.originWrite
    requires c.State() == WRITE_REMAINING ==> !c.ends.clientRead
    ensures var r := HandleProxyWrite(c, OriginSide, env); r.Next? && Inv(Landed(r))
  {
    hide Inv, Jump, CloseClient, Send;
    InvIsValid(c);
    if !c.originBuf.CanRead() {
      if c.ends.clientRead {
        MaskedWriteKeeps(c, OriginSide);
        StayingKeeps(c.Change(OriginSide, MaskInterest(OP_WRITE)), c.State());
      } else {
        OriginDrainedKeeps(c);
      }
    } else if env.outgoing.SendError? {
      OriginFailureKeeps(c);
      SendErrorChangesNothing(c, OriginSide);
    } else {
      SentToOriginKeeps(c, env.outgoing);
      StayingKeeps(Send(c, OriginSide, env.outgoing).Change(ClientSide, UnmaskInterest(OP_READ)), c.State());
    }
  }

  lemma ProxyWriteClientKeeps(c: Conn, env: Env)
    requires Inv(c) && c.State() in {PLAIN_AUTH, REQUEST, RESOLVING, PROXY, WRITE_REMAINING}
    requires c.State() == WRITE_REMAINING ==> !c.ends.originRead
    ensures var r := HandleProxyWrite(c, ClientSide, env); r.Next? && Inv(Landed(r))
  {
    hide Inv, Jump, CloseClient, Send;
    InvIsValid(c);
    if !c.clientBuf.CanRead() {
      if !c.ends.originRead && c.State().FromProxyOn() {
        ClientDrainedKeeps(c);
      } else {
        MaskedWriteKeeps(c, ClientSide);
        StayingKeeps(c.Change(ClientSide, MaskInterest(OP_WRITE)), c.State());
      }
    } else if env.outgoing.SendError? {
      ClientFailureKeeps(c);
      SendErrorChangesNothing(c, ClientSide);
    } else {
      if c.State() in {PROXY, WRITE_REMAINING} {
        SentToClientKeeps(c, env.outgoing);
      } else {
        FlushedKeeps(c, env.outgoing);
      }
      StayingKeeps(Send(c, ClientSide, env.outgoing).Change(OriginSide, UnmaskInterest(OP_READ)), c.State());
    }
  }

  /** The same handler flushes handshake replies before there is an origin. */
  lemma FlushedKeeps(c: Conn, out: Outgoing)
    requires Inv(c) && c.State() in {PLAIN_AUTH, REQUEST, RESOLVING} && !out.SendError? && c.clientBuf.CanRead()
    ensures Inv(Send(c, ClientSide, out).Change(OriginSide, UnmaskInterest(OP_READ)))
  {
    hide Send, Conserved, Counted, Replied, InListOrder, Authenticates, ParseGreeting, ParseLogin, ParseRequest;
    SendKeeps(c, ClientSide, out);
    FlushedOnly(c, out);
    UnmaskedUnused(Send(c, ClientSide, out));
  }

  lemma UnmaskedUnused(c: Conn)
    requires c.originItem == UNUSED_ITEM
    ensures c.Change(OriginSide, UnmaskInterest(OP_READ)) == c
  {
  }

  /** What a send before there is an origin leaves as it is. */
  lemma FlushedOnly(c: Conn, out: Outgoing)
    requires c.Valid() && c.State() != PROXY
    ensures var d := Send(c, ClientSide, out);
            && d == c.(clientBuf := d.clientBuf, h := c.h.(sentClient := d.h.sentClient))
            && d.clientBuf.start + |d.clientBuf.contents| <= c.clientBuf.start + |c.clientBuf.contents|
            && (d.clientBuf.CanRead() ==> c.clientBuf.CanRead())
  {
  }

  // ---------------------------------------------------------------------------
  // One event, and whole runs
  // ---------------------------------------------------------------------------

  /** A descriptor with interest in reading is in a state whose table entry can read from it. */
  lemma ReadableStates(c: Conn, side: Side)
    requires Inv(c) && Dispatched(c, Readable(side))
    ensures OnRead(c.State()).Some?
    ensures c.State() == PROXY || side == ClientSide
    ensures c.State() == PROXY ==> if side == ClientSide then c.ends.clientRead else c.ends.originRead
  {
  }

  /** The same for writing. */
  lemma WritableStates(c: Conn, side: Side)
    requires Inv(c) && Dispatched(c, Writable(side))
    ensures OnWrite(c.State()).Some?
    ensures c.State() in {CONNECTING, PROXY, WRITE_REMAINING} || side == ClientSide
    ensures c.State() in {PROXY, WRITE_REMAINING} && side == OriginSide ==> c.ends.originWrite
    ensures c.State() == WRITE_REMAINING ==> !c.ends.clientRead && !c.ends.originRead
  {
  }

  /** Which handler an event of a connected client gets. */
  lemma ConnectedStates(c: Conn, kind: Kind)
    requires Inv(c) && c.h.connected && Dispatched(c, kind)
    ensures c.current.Some?
    ensures match kind
            case Readable(_) => c.State() == PROXY
            case Writable(_) => OnWrite(c.State()) == Some(ProxyWriteHandler)
            case ResolverDone => false
  {
    hide Conserved, Gated, Counted, InListOrder, ClosedOnce, Replied;
  }

  lemma BlockableStates(c: Conn)
    requires Inv(c) && Dispatched(c, ResolverDone)
    ensures OnBlock(c.State()).Some? && c.current.Some?
  {
  }

  /** What the engine makes of a handler that keeps the invariant. */
  lemma HandleKeeps(c: Conn, handler: Handler, side: Side, env: Env)
    requires c.Valid() && c.current.Some?
    requires var r := RunHandler(handler, c, side, env); r.Next? && Inv(Landed(r))
    ensures var r := Handle(c, Some(handler), side, env); r.Next? && Inv(r.conn)
  {
    hide RunHandler, Inv, Jump;
  }

  lemma ReadableKeeps(c: Conn, side: Side, env: Env)
    requires Inv(c) && c.current.Some? && Dispatched(c, Readable(side))
    ensures var r := Handle(c, OnRead(c.State()), side, env); r.Next? && Inv(r.conn)
  {
    hide Handle, ReadAuthMethod, ReadPlainAuth, ReadProxyRequest, HandleProxyRead, Inv, Jump, Dispatched;
    InvIsValid(c);
    ReadableStates(c, side);
    match c.State() {
      case AUTH_METHOD => ReadAuthMethodKeeps(c, env);
      case PLAIN_AUTH => ReadPlainAuthKeeps(c, env);
      case REQUEST => ReadProxyRequestKeeps(c, env);
      case PROXY =>
        if side == ClientSide { ProxyReadClientKeeps(c, env); } else { ProxyReadOriginKeeps(c, env); }
    }
    HandleKeeps(c, OnRead(c.State()).value, side, env);
  }

  lemma WritableKeeps(c: Conn, side: Side, env: Env)
    requires Inv(c) && c.current.Some? && Dispatched(c, Writable(side))
    ensures var r := Handle(c, OnWrite(c.State()), side, env); r.Next? && Inv(r.conn)
  {
    hide Handle, OriginCheckConnection, HandleProxyWrite, Inv, Jump, Dispatched;
    InvIsValid(c);
    WritableStates(c, side);
    match c.State() {
      case CONNECTING => CheckConnectionKeeps(c, side, env);
      case PLAIN_AUTH | REQUEST | RESOLVING | PROXY | WRITE_REMAINING =>
        if side == ClientSide { ProxyWriteClientKeeps(c, env); } else { ProxyWriteOriginKeeps(c, env); }
    }
    HandleKeeps(c, OnWrite(c.State()).value, side, env);
  }

  /** handle_first changes nothing that the invariant looks at. */
  lemma FirstEvent(c: Conn, handler: Option<Handler>, side: Side, env: Env)
    requires c.Valid()
    ensures Handle(c, handler, side, env) == Handle(c.(current := Some(c.State())), handler, side, env)
    ensures forall kind :: Dispatched(c, kind) <==> Dispatched(c.(current := Some(c.State())), kind)
  {
    hide RunHandler, Jump;
  }

  lemma FirstEventInv(c: Conn)
    requires Inv(c)
    ensures Inv(c.(current := Some(c.State())))
  {
    if c.current.Some? {
      assert c.(current := Some(c.State())) == c;
    } else {
      assert c.State() == AUTH_METHOD;
    }
  }

  /** Every event the selector dispatches finds its handler, and none aborts. */
  lemma StepKeeps(c: Conn, ev: Event)
    requires Inv(c)
    ensures Step(c, ev).Next? && Inv(Step(c, ev).conn)
  {
    hide Handle, Inv, Dispatched;
    InvIsValid(c);
    if !Dispatched(c, ev.kind) {
      UndispatchedKeeps(c, ev);
    } else {
      var d := c.(current := Some(c.State()));
      FirstEventInv(c);
      match ev.kind
      case Readable(side) =>
        FirstEvent(c, OnRead(c.State()), side, ev.env);
        ReadableKeeps(d, side, ev.env);
      case Writable(side) =>
        FirstEvent(c, OnWrite(c.State()), side, ev.env);
        WritableKeeps(d, side, ev.env);
      case ResolverDone =>
        BlockableStates(c);
        FinishedResolutionKeeps(c, ev.env);
        HandleKeeps(c.(resolving := false), FinishedResolutionHandler, ClientSide, ev.env);
    }
  }

  lemma InvIsValid(c: Conn)
    requires Inv(c)
    ensures c.Valid()
  {
  }

  lemma UndispatchedKeeps(c: Conn, ev: Event)
    requires Inv(c) && !Dispatched(c, ev.kind)
    ensures Step(c, ev).Next? && Inv(Step(c, ev).conn)
  {
  }

  lemma {:induction false} RunKeeps(c: Conn, events: seq<Event>)
    requires Inv(c)
    ensures Run(c, events).Next? && Inv(Run(c, events).conn)
    decreases |events|
  {
    if events != [] {
      StepKeeps(c, events[0]);
      RunKeeps(Step(c, events[0]).conn, events[1..]);
    }
  }
}
