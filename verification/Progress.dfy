/** What a single event can and cannot do to a connection: histories grow, ends only close. */
module Progress {
  import opened Common
  import opened SocketsIO
  import opened Selectors
  import opened Handshake
  import opened Users
  import opened Connections
  import opened Invariants
  import opened Preservation

  /** Nothing that happened is undone. */
  predicate Grows(h: History, k: History) {
    && h.readClient <= k.readClient && h.readOrigin <= k.readOrigin
    && h.sentClient <= k.sentClient && h.sentOrigin <= k.sentOrigin
    && h.consumed <= k.consumed && h.replied <= k.replied
    && h.replies <= k.replies && h.tried <= k.tried
    && (h.connected ==> k.connected) && (h.clientFailed ==> k.clientFailed) && (h.originFailed ==> k.originFailed)
    && h.transferred <= k.transferred
  }

  /** Going on without connecting: ends only close. */
  predicate Onward(c: Conn, d: Conn) {
    Grows(c.h, d.h) && d.ends.Within(c.ends) && d.h.connected == c.h.connected && d.current == c.current
  }

  /**
   * Ends never reopen once connected; a connection becomes connected exactly on the
   * step that enters PROXY.
   */
  predicate Follows(c: Conn, d: Conn, next: State) {
    && Grows(c.h, d.h)
    && (c.h.connected ==> d.ends.Within(c.ends))
    && (d.h.connected && !c.h.connected ==> next == PROXY)
    && (next == PROXY ==> c.State() == PROXY || (d.h.connected && !c.h.connected))
  }

  lemma OnwardTrans(c: Conn, d: Conn, e: Conn)
    requires Onward(c, d) && Onward(d, e)
    ensures Onward(c, e)
  {
  }

  lemma ReceiveOnward(c: Conn, incoming: Incoming)
    requires c.Valid()
    ensures Onward(c, ReceiveFromClient(c, incoming)) && Onward(c, ReceiveFromOrigin(c, incoming))
  {
  }

  lemma ConsumeOnward(c: Conn, n: nat)
    requires c.Valid() && n <= |c.originBuf.contents|
    ensures Onward(c, Consume(c, n))
  {
  }

  lemma SimpleReplyOnward(c: Conn, version: byte, status: byte)
    requires c.Valid()
    ensures Onward(c, SimpleReply(c, version, status))
  {
  }

  lemma SendOnward(c: Conn, side: Side, out: Outgoing)
    requires c.Valid()
    ensures Onward(c, Send(c, side, out))
  {
    hide WriteTo, SentBytes;
  }

  lemma CloseOnward(c: Conn, asked: Ends)
    requires c.Valid()
    ensures var r := CloseClient(c, asked); Onward(c, r.conn) && (r.state == PROXY ==> c.State() == PROXY)
  {
    hide CloseClient, CloseEnds, EnableWrite, Grows;
    CloseClientClosedForm(c, asked);
    CloseEndsOnward(c, Cascade(c.ends, asked));
  }

  lemma CloseEndsOnward(c: Conn, level: Ends)
    ensures Onward(c, CloseEnds(c, level))
  {
    hide Reduced;
  }

  lemma RefuseOnward(c: Conn, code: ReplyCode)
    requires c.Valid()
    ensures var r := Refuse(c, code); r.Next? && Onward(c, r.conn) && (r.state == PROXY ==> c.State() == PROXY)
  {
    hide CloseClient, ReplyInto;
    var d := ServerReply(c, FailureReply(code));
    CloseOnward(d, CLIENT_READ);
    OnwardTrans(c, d, Refuse(c, code).conn);
  }

  /** What the three readers and the relay handlers do. */
  predicate Carries(c: Conn, r: Ret) {
    r.Next? && Onward(c, r.conn) && (r.state == PROXY ==> c.State() == PROXY)
  }

  lemma CarriesTrans(c: Conn, d: Conn, r: Ret)
    requires Onward(c, d) && Carries(d, r)
    ensures Carries(c, r)
  {
    hide Grows;
    OnwardTrans(c, d, r.conn);
  }

  lemma ReadAuthMethodCarries(c: Conn, env: Env)
    requires c.Valid()
    ensures Carries(c, ReadAuthMethod(c, ClientSide, env))
  {
    hide CloseClient, ReadFrom, ReadCount, ParseGreeting, Onward, AnswerGreeting;
    var d := ReceiveFromClient(c, env.incoming);
    ReceiveOnward(c, env.incoming);
    if CheckEOF(ReadCount(c.originBuf, env.incoming)) {
      CloseOnward(d, CLIENT_READ);
    } else {
      match ParseGreeting(d.originBuf.contents)
      case NeedMore =>
      case Decided(g, n) =>
        ConsumeOnward(d, n);
        AnswerGreetingCarries(Consume(d, n), g, env.users);
        CarriesTrans(d, Consume(d, n), AnswerGreeting(Consume(d, n), g, env.users));
    }
    CarriesTrans(c, d, ReadAuthMethod(c, ClientSide, env)) by {
      OnwardSame(d);
    }
  }

  lemma OnwardSame(c: Conn)
    ensures Onward(c, c)
  {
  }

  lemma AnswerGreetingCarries(c: Conn, g: Greeting, users: seq<User>)
    requires c.Valid()
    ensures Carries(c, AnswerGreeting(c, g, users))
  {
    hide CloseClient, Select, Grows, Changed;
    var d := c.(h := c.h.(greeted := Some(|users|)));
    var choice := if g.version != SERVER_VERSION then NoneAcceptable else Select(g.methods, |users|);
    var e := SimpleReply(d, SERVER_VERSION, choice.Code());
    GreetedOnward(c, |users|);
    SimpleReplyOnward(d, SERVER_VERSION, choice.Code());
    OnwardTrans(c, d, e);
    CloseOnward(e, CLIENT_READ);
    OnwardTrans(c, e, CloseClient(e, CLIENT_READ).conn);
  }

  lemma GreetedOnward(c: Conn, users: nat)
    ensures Onward(c, c.(h := c.h.(greeted := Some(users))))
  {
  }

  lemma ReadPlainAuthCarries(c: Conn, env: Env)
    requires c.Valid()
    ensures Carries(c, ReadPlainAuth(c, ClientSide, env))
  {
    hide CloseClient, ReadFrom, ReadCount, ParseLogin, Onward, AnswerLogin;
    var d := ReceiveFromClient(c, env.incoming);
    ReceiveOnward(c, env.incoming);
    if CheckEOF(ReadCount(c.originBuf, env.incoming)) {
      CloseOnward(d, CLIENT_READ);
    } else {
      match ParseLogin(d.originBuf.contents, env.stale)
      case NeedMore =>
      case Decided(l, n) =>
        ConsumeOnward(d, n);
        AnswerLoginCarries(Consume(d, n), l, env.users);
        CarriesTrans(d, Consume(d, n), AnswerLogin(Consume(d, n), l, env.users));
    }
    CarriesTrans(c, d, ReadPlainAuth(c, ClientSide, env)) by {
      OnwardSame(d);
    }
  }

  lemma AnswerLoginCarries(c: Conn, l: Login, users: seq<User>)
    requires c.Valid()
    ensures Carries(c, AnswerLogin(c, l, users))
  {
    hide CloseClient, CString, Authenticates;
    SimpleReplyOnward(c, PLAIN_AUTH_VERSION, 0xFF);
    SimpleReplyOnward(c, PLAIN_AUTH_VERSION, 0x01);
    var d, e := SimpleReply(c, PLAIN_AUTH_VERSION, 0xFF), SimpleReply(c, PLAIN_AUTH_VERSION, 0x01);
    CloseOnward(d, CLIENT_READ);
    OnwardTrans(c, d, CloseClient(d, CLIENT_READ).conn);
    CloseOnward(e, CLIENT_READ);
    OnwardTrans(c, e, CloseClient(e, CLIENT_READ).conn);
  }

  lemma ReadProxyRequestCarries(c: Conn, env: Env)
    requires c.Valid()
    ensures Carries(c, ReadProxyRequest(c, ClientSide, env))
  {
    hide Refuse, ReadFrom, ReadCount, ParseRequest, Onward, AnswerRequest;
    var d := ReceiveFromClient(c, env.incoming);
    ReceiveOnward(c, env.incoming);
    RefuseOnward(d, CommandNotSupported);
    RefuseOnward(d, AddressNotSupported);
    if !CheckEOF(ReadCount(c.originBuf, env.incoming)) {
      match ParseRequest(d.originBuf.contents)
      case NeedMore =>
      case Decided(q, n) =>
        if q.Request? {
          ConsumeOnward(d, n);
          AnswerRequestCarries(Consume(d, n), q, env.memoryOk);
          CarriesTrans(d, Consume(d, n), AnswerRequest(Consume(d, n), q, env.memoryOk));
        }
    }
    CarriesTrans(c, d, ReadProxyRequest(c, ClientSide, env)) by {
      OnwardSame(d);
    }
  }

  lemma AnswerRequestCarries(c: Conn, q: Request, memoryOk: bool)
    requires c.Valid() && q.Request?
    ensures Carries(c, AnswerRequest(c, q, memoryOk))
  {
    hide Refuse, Grows;
    var d := c.Change(ClientSide, RemoveInterest(OP_READ));
    ListedOnward(c, d);
    RefuseOnward(c, CommandNotSupported);
    RefuseOnward(d, ServerFailure);
    OnwardTrans(c, d, Refuse(d, ServerFailure).conn);
    if q.cmd == CMD_CONNECT && memoryOk {
      ListedOnward(c, AnswerRequest(c, q, memoryOk).conn);
    }
  }

  /** New addresses to try change nothing that happened. */
  lemma ListedOnward(c: Conn, d: Conn)
    requires d.h == c.h.(candidates := d.h.candidates) && d.ends == c.ends && d.current == c.current
    ensures Onward(c, d)
  {
  }

  lemma TryConnectCarries(c: Conn, env: Env)
    requires c.Valid() && c.addrs != [] && c.State() == CONNECTING
    ensures Carries(c, TryConnect(c, env))
  {
    hide Refuse;
    var d := c.(originSock := env.socket, originItem := UNUSED_ITEM,
                h := c.h.(tried := c.h.tried + [c.addrs[0]]));
    RefuseOnward(d, ServerFailure);
    OnwardTrans(c, d, Refuse(d, ServerFailure).conn);
    if env.connect.Some? {
      RefuseOnward(d, CheckConnectionError(env.connect.value));
      OnwardTrans(c, d, Refuse(d, CheckConnectionError(env.connect.value)).conn);
    }
  }

  lemma CheckConnectionFollows(c: Conn, side: Side, env: Env)
    requires c.Valid() && c.State() == CONNECTING && !c.h.connected
    requires side == OriginSide ==> c.addrs != []
    ensures var r := OriginCheckConnection(c, side, env); r.Next? && Follows(c, r.conn, r.state)
  {
    hide Refuse, TryConnect, ReplyInto;
    if side == ClientSide {
      var d := c.Change(ClientSide, RemoveInterest(OP_WRITE));
      if d.addrs == [] {
        RefuseOnward(d, HostUnreachable);
      } else {
        TryConnectCarries(d, env);
      }
    } else if env.soError.Some? {
      var d := c.(originItem := UNUSED_ITEM);
      if |d.addrs| > 1 {
        TryConnectCarries(d.(addrs := d.addrs[1..]), env);
      } else {
        RefuseOnward(d, CheckConnectionError(env.soError.value));
      }
    }
  }

  lemma ProxyReadCarries(c: Conn, side: Side, env: Env)
    requires c.Valid()
    ensures Carries(c, HandleProxyRead(c, side, env))
  {
    hide CloseClient, ReadFrom, ReadCount, Grows;
    ReceiveOnward(c, env.incoming);
    OnwardSame(c);
    var d := if side == ClientSide then ReceiveFromClient(c, env.incoming) else ReceiveFromOrigin(c, env.incoming);
    var asked := if side == ClientSide then CLIENT_READ else ORIGIN_READ;
    CloseOnward(d, asked);
    OnwardTrans(c, d, CloseClient(d, asked).conn);
  }

  lemma ProxyWriteCarries(c: Conn, side: Side, env: Env)
    requires c.Valid()
    ensures Carries(c, HandleProxyWrite(c, side, env))
  {
    hide CloseClient, Send, Grows, Changed;
    OnwardSame(c);
    SendOnward(c, side, env.outgoing);
    CloseOnward(c, CLIENT_WRITE);
    CloseOnward(c, ORIGIN_WRITE);
    if env.outgoing.SendError? {
      SendErrorChangesNothing(c, side);
      FailureCarries(c);
    }
  }

  lemma FailureCarries(c: Conn)
    requires c.Valid()
    ensures Carries(c, CloseClient(c.(h := c.h.(clientFailed := true)), CLIENT_WRITE))
    ensures Carries(c, CloseClient(c.(h := c.h.(originFailed := true)), ORIGIN_WRITE))
  {
    hide CloseClient, Onward;
    var d, e := c.(h := c.h.(clientFailed := true)), c.(h := c.h.(originFailed := true));
    FailureOnward(c);
    CloseOnward(d, CLIENT_WRITE);
    CloseOnward(e, ORIGIN_WRITE);
    OnwardTrans(c, d, CloseClient(d, CLIENT_WRITE).conn);
    OnwardTrans(c, e, CloseClient(e, ORIGIN_WRITE).conn);
  }

  lemma FailureOnward(c: Conn)
    ensures Onward(c, c.(h := c.h.(clientFailed := true)))
    ensures Onward(c, c.(h := c.h.(originFailed := true)))
  {
  }

  lemma CarriesFollows(c: Conn, r: Ret)
    requires Carries(c, r)
    ensures Follows(c, r.conn, r.state)
  {
    hide Grows;
  }

  lemma JumpFollows(c: Conn, d: Conn, next: State)
    requires d.Valid() && Follows(c, d, next)
    ensures Follows(c, Jump(d, next), next) && Jump(d, next).State() == next
  {
    hide Grows, EnableWrite;
  }

  /** One event. */
  lemma StepFollows(c: Conn, ev: Event)
    requires Inv(c)
    ensures var r := Step(c, ev); r.Next? && Follows(c, r.conn, r.conn.State())
  {
    hide Inv, Dispatched, Handle, Grows;
    InvIsValid(c);
    OnwardSame(c);
    if Dispatched(c, ev.kind) {
      var d := c.(current := Some(c.State()));
      FirstEventInv(c);
      match ev.kind
      case Readable(side) =>
        FirstEvent(c, OnRead(c.State()), side, ev.env);
        ReadFollows(d, side, ev.env);
      case Writable(side) =>
        FirstEvent(c, OnWrite(c.State()), side, ev.env);
        WriteFollows(d, side, ev.env);
      case ResolverDone =>
        BlockableStates(c);
        BlockFollows(c, ev.env);
    }
  }

  lemma ReadFollows(c: Conn, side: Side, env: Env)
    requires Inv(c) && c.current.Some? && Dispatched(c, Readable(side))
    ensures var r := Handle(c, OnRead(c.State()), side, env);
            r.Next? && Follows(c, r.conn, r.state) && r.conn.State() == r.state
  {
    hide Inv, Dispatched, Follows, Onward, Jump, ReadAuthMethod, ReadPlainAuth, ReadProxyRequest, HandleProxyRead;
    InvIsValid(c);
    ReadableStates(c, side);
    match c.State() {
      case AUTH_METHOD => ReadAuthMethodCarries(c, env);
      case PLAIN_AUTH => ReadPlainAuthCarries(c, env);
      case REQUEST => ReadProxyRequestCarries(c, env);
      case PROXY => ProxyReadCarries(c, side, env);
    }
    var r := RunHandler(OnRead(c.State()).value, c, side, env);
    CarriesFollows(c, r);
    JumpFollows(c, r.conn, r.state);
  }

  lemma WriteFollows(c: Conn, side: Side, env: Env)
    requires Inv(c) && c.current.Some? && Dispatched(c, Writable(side))
    ensures var r := Handle(c, OnWrite(c.State()), side, env);
            r.Next? && Follows(c, r.conn, r.state) && r.conn.State() == r.state
  {
    hide Inv, Dispatched, Follows, Onward, Jump, OriginCheckConnection, HandleProxyWrite;
    InvIsValid(c);
    WritableStates(c, side);
    match c.State() {
      case CONNECTING =>
        ConnectingFacts(c, side);
        CheckConnectionFollows(c, side, env);
      case PLAIN_AUTH | REQUEST | RESOLVING | PROXY | WRITE_REMAINING =>
        ProxyWriteCarries(c, side, env);
        CarriesFollows(c, HandleProxyWrite(c, side, env));
    }
    var r := RunHandler(OnWrite(c.State()).value, c, side, env);
    JumpFollows(c, r.conn, r.state);
  }

  lemma ConnectingFacts(c: Conn, side: Side)
    requires Inv(c) && c.State() == CONNECTING && Dispatched(c, Writable(side))
    ensures !c.h.connected && (side == OriginSide ==> c.addrs != [])
  {
  }

  lemma BlockFollows(c: Conn, env: Env)
    requires c.Valid() && c.State() == RESOLVING
    ensures var r := Handle(c.(resolving := false), OnBlock(c.State()), ClientSide, env);
            r.Next? && Follows(c, r.conn, r.conn.State())
  {
  }
}
