/**
 * One SOCKS5 connection as an event-driven state machine: the handlers of
 * src/clients.c and src/handshake.c and the engine of src/stm.c, as functions from
 * one state of the connection to the next. What the kernel, the resolver and the
 * credential table answer is a parameter of each event.
 */
module Connections {
  import opened Common
  import opened Buffers
  import opened SocketsIO
  import opened Selectors
  import opened Handshake
  import opened Users

  /** enum socks5_states, in order */
  datatype State =
    | AUTH_METHOD
    | PLAIN_AUTH
    | REQUEST
    | RESOLVING
    | CONNECTING
    | PROXY
    | DONE
    | WRITE_REMAINING
  {
    /** `>= PROXY` on the identifiers of the enumeration */
    predicate FromProxyOn() {
      PROXY? || DONE? || WRITE_REMAINING?
    }

    predicate Handshaking() {
      AUTH_METHOD? || PLAIN_AUTH? || REQUEST?
    }
  }

  datatype Side = ClientSide | OriginSide

  /** enum socket_ends as a set of flags */
  datatype Ends = Ends(clientWrite: bool, clientRead: bool, originWrite: bool, originRead: bool) {
    predicate Client() { clientWrite || clientRead }
    predicate Origin() { originWrite || originRead }
    predicate None() { !Client() && !Origin() }

    function And(e: Ends): Ends {
      Ends(clientWrite && e.clientWrite, clientRead && e.clientRead,
           originWrite && e.originWrite, originRead && e.originRead)
    }

    function Or(e: Ends): Ends {
      Ends(clientWrite || e.clientWrite, clientRead || e.clientRead,
           originWrite || e.originWrite, originRead || e.originRead)
    }

    function Minus(e: Ends): Ends {
      Ends(clientWrite && !e.clientWrite, clientRead && !e.clientRead,
           originWrite && !e.originWrite, originRead && !e.originRead)
    }

    predicate Within(e: Ends) {
      And(e) == this
    }
  }

  const CLIENT_WRITE := Ends(true, false, false, false)
  const CLIENT_READ := Ends(false, true, false, false)
  const ORIGIN_WRITE := Ends(false, false, true, false)
  const ORIGIN_READ := Ends(false, false, false, true)
  const CLIENT := Ends(true, true, false, false)
  const CLIENT_READ_AND_ORIGIN := Ends(false, true, true, true)

  type Ip4 = s: seq<byte> | |s| == 4 witness [0, 0, 0, 0]
  type Ip6 = s: seq<byte> | |s| == 16 witness [0, 0, 0, 0, 0, 0, 0, 0, 0, 0, 0, 0, 0, 0, 0, 0]
  type Port = s: seq<byte> | |s| == 2 witness [0, 0]

  /** One node of an addrinfo list (AF_INET exactly when it is IPv4), or a name still to be resolved. */
  datatype Address = Address(ip: Destination, port: seq<byte>)

  /** A successful try_credentials, with the table it was answered from. */
  datatype Credentials = Credentials(users: seq<User>, name: seq<byte>, pass: seq<byte>)

  /** What happened to a connection so far; the code keeps none of it but `transferred`. */
  datatype History = History(
    readClient: seq<byte>,         // bytes received from the client
    readOrigin: seq<byte>,         // bytes received from the origin
    sentClient: seq<byte>,         // bytes the kernel took for the client
    sentOrigin: seq<byte>,         // bytes the kernel took for the origin
    consumed: seq<byte>,           // bytes used up by the handshake readers
    replied: seq<byte>,            // bytes of all handshake replies
    replies: seq<Reply>,           // calls of server_reply
    candidates: seq<Address>,      // addresses to try
    tried: seq<Address>,           // calls of try_connect
    greeted: Option<nat>,          // users declared when the greeting was handled
    login: Option<Credentials>,
    connected: bool,               // ORIGIN was added to active_ends
    clientFailed: bool,            // a send to the client failed for good
    originFailed: bool,            // a send to the origin failed for good
    pipelined: bool,               // a handshake message left bytes behind it
    transferred: nat,              // what add_bytes was given
    relayed: nat,                  // bytes sent while in PROXY
    retries: nat,                  // sends answered by EAGAIN while in PROXY
    clientClosed: nat,             // times closeClient unregistered and closed client_sock
    originClosed: nat              // the same for origin_sock
  )

  datatype Conn = Conn(
    current: Option<State>,
    ends: Ends,
    clientBuf: Buf,     // towards the client
    originBuf: Buf,     // towards the origin
    clientSock: int,
    originSock: int,
    clientItem: Item,   // the selector's slot of client_sock
    originItem: Item,   // the selector's slot of origin_sock, unused when there is none
    domain: Option<Address>,  // dest_fqdn and dest_port, once a name was requested
    addrs: seq<Address>,  // the list from curr_addr on; NULL is []
    resolving: bool,      // a resolver thread has still to notify
    h: History
  ) {
    predicate Valid() {
      clientBuf.Valid() && originBuf.Valid()
    }

    /** stm_state */
    function State(): State {
      if current.None? then AUTH_METHOD else current.value
    }

    function Item(side: Side): Item {
      if side == ClientSide then clientItem else originItem
    }

    function WithItem(side: Side, item: Item): Conn {
      if side == ClientSide then this.(clientItem := item) else this.(originItem := item)
    }

    function Change(side: Side, change: Change): Conn {
      WithItem(side, Changed(Item(side), change))
    }
  }

  /** Everything outside the program that one event may depend on. */
  datatype Env = Env(
    incoming: Incoming,          // read()
    outgoing: Outgoing,          // send()
    users: seq<User>,            // the credential table at this moment
    stale: byte,                 // memory after the available bytes
    memoryOk: bool,              // malloc()
    dissector: bool,             // whether sniffing is switched on
    socket: int,                 // socket(), negative on failure
    connect: Option<Errno>,      // connect(): None is success or EINPROGRESS
    soError: Option<Errno>,      // getsockopt(SO_ERROR): None is zero
    bound4: Ip4,                 // getsockname()
    bound6: Ip6,
    boundPort: Port,
    resolution: seq<Address>     // what getaddrinfo() left; [] on failure
  )

  /** What a handler does: a new connection and the state it returns, or abort(). */
  datatype Ret = Next(conn: Conn, state: State) | Crash

  // ---------------------------------------------------------------------------
  // closeClient and enable_write
  // ---------------------------------------------------------------------------

  function EnableWrite(c: Conn): (r: Conn)
    ensures r == c.(clientItem := r.clientItem, originItem := r.originItem)
  {
    var c1 := if c.ends.clientWrite
              then c.Change(ClientSide, AddInterest(OP_WRITE)).Change(ClientSide, UnmaskInterest(OP_WRITE))
              else c;
    // the second unmask names client_sock too, as in the source
    if c.ends.originWrite
    then c1.Change(OriginSide, AddInterest(OP_WRITE)).Change(ClientSide, UnmaskInterest(OP_WRITE))
    else c1
  }

  /** A slot whose descriptor loses some directions, or is unregistered for having lost them all. */
  function Reduced(item: Item, ops: Ops, gone: bool): Item {
    if gone then UNUSED_ITEM else Changed(item, RemoveInterest(ops))
  }

  /** One pass of closeClient: the given active ends are shut, and descriptors left with none closed. */
  function CloseEnds(c: Conn, level: Ends): (d: Conn)
    ensures d.ends == c.ends.Minus(level) && (c.Valid() ==> d.Valid())
  {
    var rest := c.ends.Minus(level);
    var clientGone := level.Client() && !rest.Client();
    var originGone := level.Origin() && !rest.Origin();
    c.(ends := rest,
       clientItem := Reduced(c.clientItem, Ops(level.clientRead, level.clientWrite), clientGone),
       originItem := Reduced(c.originItem, Ops(level.originRead, level.originWrite), originGone),
       h := c.h.(clientClosed := c.h.clientClosed + (if clientGone then 1 else 0),
                 originClosed := c.h.originClosed + (if originGone then 1 else 0)))
  }

  /** Recursion follows the removal of an active write end, so the active ends run out. */
  function CloseClient(c: Conn, asked: Ends): (r: Ret)
    requires c.Valid()
    ensures r.Next? && r.conn.Valid()
    decreases c.ends.clientWrite, c.ends.originWrite
  {
    var level := asked.And(c.ends);
    var d := CloseEnds(c, level);
    if level.clientWrite then CloseClient(d, CLIENT_READ_AND_ORIGIN)
    else if level.originWrite then CloseClient(d, CLIENT_READ)
    else if d.ends.None() then Next(d, DONE)
    else if !d.ends.clientRead && !d.ends.originRead then Next(d, WRITE_REMAINING)
    else Next(EnableWrite(d), d.State())
  }

  // ---------------------------------------------------------------------------
  // Handshake handlers
  // ---------------------------------------------------------------------------

  /** read_from_sock on client_sock into origin_buf */
  function ReceiveFromClient(c: Conn, incoming: Incoming): (r: Conn)
    requires c.Valid()
    ensures r.Valid()
  {
    c.(originBuf := ReadFrom(c.originBuf, incoming),
       h := c.h.(readClient := c.h.readClient + ReceivedBytes(c.originBuf, incoming)))
  }

  function ReceiveFromOrigin(c: Conn, incoming: Incoming): (r: Conn)
    requires c.Valid()
    ensures r.Valid()
  {
    c.(clientBuf := ReadFrom(c.clientBuf, incoming),
       h := c.h.(readOrigin := c.h.readOrigin + ReceivedBytes(c.clientBuf, incoming)))
  }

  /** buffer_read_adv past a decided message */
  function Consume(c: Conn, n: nat): (r: Conn)
    requires c.Valid() && n <= |c.originBuf.contents|
    ensures r.Valid()
  {
    c.(originBuf := c.originBuf.Advance(n),
       h := c.h.(consumed := c.h.consumed + c.originBuf.contents[..n],
                 pipelined := c.h.pipelined || n < |c.originBuf.contents|))
  }

  function SimpleReply(c: Conn, version: byte, status: byte): (r: Conn)
    requires c.Valid()
    ensures r.Valid()
  {
    c.(clientBuf := c.clientBuf.Put(version).Put(status),
       h := c.h.(replied := c.h.replied + [version, status]))
  }

  /** Byte by byte up to the address type; the rest only if all of it fits. */
  function ReplyInto(b: Buf, reply: Reply): (r: Buf)
    requires b.Valid() && reply.Valid()
    ensures r.Valid()
  {
    var atyp := if reply.bound.IPv4? then ATYP_IPV4 else ATYP_IPV6;
    var b1 := b.Put(SERVER_VERSION).Put(reply.code.Code()).Put(0).Put(atyp);
    if b1.Space() < |reply.bound.ip| + |reply.port| then b1
    else b1.Append(reply.bound.ip).Append(reply.port)
  }

  function ServerReply(c: Conn, reply: Reply): (r: Conn)
    requires c.Valid() && reply.Valid()
    ensures r.Valid()
  {
    c.(clientBuf := ReplyInto(c.clientBuf, reply),
       h := c.h.(replied := c.h.replied + reply.Bytes(), replies := c.h.replies + [reply]))
  }

  /** A failure reply, after which nothing more is read from the client. */
  function Refuse(c: Conn, code: ReplyCode): (r: Ret)
    requires c.Valid()
    ensures r.Next? ==> r.conn.Valid()
  {
    CloseClient(ServerReply(c, FailureReply(code)), CLIENT_READ)
  }

  function ReadAuthMethod(c: Conn, side: Side, env: Env): (r: Ret)
    requires c.Valid()
    ensures r.Next? ==> r.conn.Valid()
  {
    if side != ClientSide then Crash
    else
      var d := ReceiveFromClient(c, env.incoming);
      if CheckEOF(ReadCount(c.originBuf, env.incoming)) then CloseClient(d, CLIENT_READ)
      else
        match ParseGreeting(d.originBuf.contents)
        case NeedMore => Next(d, d.State())
        case Decided(g, n) => AnswerGreeting(Consume(d, n), g, env.users)
  }

  function AnswerGreeting(c: Conn, g: Greeting, users: seq<User>): (r: Ret)
    requires c.Valid()
    ensures r.Next? ==> r.conn.Valid()
  {
    var d := c.(h := c.h.(greeted := Some(|users|)));
    var choice := if g.version != SERVER_VERSION then NoneAcceptable else Select(g.methods, |users|);
    var e := SimpleReply(d, SERVER_VERSION, choice.Code());
    match choice
    case NoAuthentication => Next(e.Change(ClientSide, AddInterest(OP_WRITE)), REQUEST)
    case UserAndPassword => Next(e.Change(ClientSide, AddInterest(OP_WRITE)), PLAIN_AUTH)
    case NoneAcceptable => CloseClient(e, CLIENT_READ)
  }

  function ReadPlainAuth(c: Conn, side: Side, env: Env): (r: Ret)
    requires c.Valid()
    ensures r.Next? ==> r.conn.Valid()
  {
    if side != ClientSide then Crash
    else
      var d := ReceiveFromClient(c, env.incoming);
      if CheckEOF(ReadCount(c.originBuf, env.incoming)) then CloseClient(d, CLIENT_READ)
      else
        match ParseLogin(d.originBuf.contents, env.stale)
        case NeedMore => Next(d, d.State())
        case Decided(l, n) => AnswerLogin(Consume(d, n), l, env.users)
  }

  /** The credentials are compared as C strings. */
  function AnswerLogin(c: Conn, l: Login, users: seq<User>): (r: Ret)
    requires c.Valid()
    ensures r.Next? ==> r.conn.Valid()
  {
    var name, pass := CString(l.user), CString(l.pass);
    if l.version != PLAIN_AUTH_VERSION then
      CloseClient(SimpleReply(c, PLAIN_AUTH_VERSION, 0xFF), CLIENT_READ)
    else if Authenticates(users, name, pass) then
      var d := c.(h := c.h.(login := Some(Credentials(users, name, pass))));
      Next(SimpleReply(d, PLAIN_AUTH_VERSION, 0x00).Change(ClientSide, AddInterest(OP_WRITE)), REQUEST)
    else
      CloseClient(SimpleReply(c, PLAIN_AUTH_VERSION, 0x01), CLIENT_READ)
  }

  function ReadProxyRequest(c: Conn, side: Side, env: Env): (r: Ret)
    requires c.Valid()
    ensures r.Next? ==> r.conn.Valid()
  {
    if side != ClientSide then Crash
    else
      var d := ReceiveFromClient(c, env.incoming);
      if CheckEOF(ReadCount(c.originBuf, env.incoming)) then Refuse(d, CommandNotSupported)
      else
        match ParseRequest(d.originBuf.contents)
        case NeedMore => Next(d, d.State())
        case Decided(q, n) =>
          if q.BadAddressType? then Refuse(d, AddressNotSupported)
          else AnswerRequest(Consume(d, n), q, env.memoryOk)
  }

  function AnswerRequest(c: Conn, q: Request, memoryOk: bool): (r: Ret)
    requires c.Valid() && q.Request?
    ensures r.Next? ==> r.conn.Valid()
  {
    if q.cmd != CMD_CONNECT then Refuse(c, CommandNotSupported)
    else
      var d := c.Change(ClientSide, RemoveInterest(OP_READ));
      if !memoryOk then Refuse(d, ServerFailure)
      else if q.dest.DomainName? then Next(d.(domain := Some(Address(q.dest, q.port))), RESOLVING)
      else
        var list := [Address(q.dest, q.port)];
        Next(d.(addrs := list, h := d.h.(candidates := list)), CONNECTING)
  }

  // ---------------------------------------------------------------------------
  // Resolving and connecting
  // ---------------------------------------------------------------------------

  /** What the resolver thread of a connection in RESOLVING passes to getaddrinfo: a C string and the port. */
  function ResolverQuery(c: Conn): (q: Option<(seq<byte>, seq<byte>)>) {
    if c.domain.Some? && c.domain.value.ip.DomainName?
    then Some((CString(c.domain.value.ip.name), c.domain.value.port)) else None
  }

  function HandleFinishedResolution(c: Conn, env: Env): (r: Ret)
    requires c.Valid()
    ensures r.Next? ==> r.conn.Valid()
  {
    Next(c.(addrs := env.resolution, h := c.h.(candidates := env.resolution)), CONNECTING)
  }

  function TryConnect(c: Conn, env: Env): (r: Ret)
    requires c.Valid()
    ensures r.Next? ==> r.conn.Valid()
  {
    if c.addrs == [] then Crash
    else
      var d := c.(originSock := env.socket, originItem := UNUSED_ITEM,
                  h := c.h.(tried := c.h.tried + [c.addrs[0]]));
      if env.socket < 0 then Refuse(d, ServerFailure)
      else if env.connect.Some? then Refuse(d, CheckConnectionError(env.connect.value))
      else if InvalidFd(env.socket) then Refuse(d, ServerFailure)
      else Next(d.(originItem := NewItem(env.socket, OP_WRITE)), CONNECTING)
  }

  function OriginCheckConnection(c: Conn, side: Side, env: Env): (r: Ret)
    requires c.Valid()
    ensures r.Next? ==> r.conn.Valid()
  {
    if side == ClientSide then
      var d := c.Change(ClientSide, RemoveInterest(OP_WRITE));
      if d.addrs == [] then Refuse(d, HostUnreachable) else TryConnect(d, env)
    else if c.addrs == [] then Crash
    else if env.soError.None? then
      var d := c.(ends := c.ends.(originWrite := true, originRead := true), h := c.h.(connected := true))
                .Change(OriginSide, SetInterest(OP_BOTH))
                .Change(ClientSide, SetInterest(OP_BOTH));
      Next(ServerReply(d, SuccessReply(c.addrs[0], env)), PROXY)
    else
      var d := c.(originItem := UNUSED_ITEM);
      if |d.addrs| > 1 then TryConnect(d.(addrs := d.addrs[1..]), env)
      else Refuse(d, CheckConnectionError(env.soError.value))
  }

  function SuccessReply(a: Address, env: Env): (r: Reply)
    ensures r.Valid() && r.code == Succeeded
  {
    Reply(Succeeded, if a.ip.IPv4? then IPv4(env.bound4) else IPv6(env.bound6), env.boundPort)
  }

  // ---------------------------------------------------------------------------
  // Relaying
  // ---------------------------------------------------------------------------

  function HandleProxyRead(c: Conn, side: Side, env: Env): (r: Ret)
    requires c.Valid()
    ensures r.Next? ==> r.conn.Valid()
  {
    if side == ClientSide then
      if !c.originBuf.CanWrite() then Next(c.Change(ClientSide, MaskInterest(OP_READ)), c.State())
      else
        var d := ReceiveFromClient(c, env.incoming);
        if CheckEOF(ReadCount(c.originBuf, env.incoming)) then CloseClient(d, CLIENT_READ)
        else Next(d.Change(OriginSide, UnmaskInterest(OP_WRITE)), d.State())
    else
      if !c.clientBuf.CanWrite() then Next(c.Change(OriginSide, MaskInterest(OP_READ)), c.State())
      else
        var d := ReceiveFromOrigin(c, env.incoming);
        if CheckEOF(ReadCount(c.clientBuf, env.incoming)) then CloseClient(d, ORIGIN_READ)
        else Next(d.Change(ClientSide, UnmaskInterest(OP_WRITE)), d.State())
  }

  /** write_to_sock */
  function WriteOut(c: Conn, side: Side, out: Outgoing): (r: Conn)
    requires c.Valid()
    ensures r.Valid() && r.current == c.current
  {
    if side == ClientSide
    then c.(clientBuf := WriteTo(c.clientBuf, out),
            h := c.h.(sentClient := c.h.sentClient + SentBytes(c.clientBuf, out)))
    else c.(originBuf := WriteTo(c.originBuf, out),
            h := c.h.(sentOrigin := c.h.sentOrigin + SentBytes(c.originBuf, out)))
  }

  /** The byte count: on EAGAIN the result -1 is subtracted too. */
  function Accounted(h: History, b: Buf, out: Outgoing): (r: History)
    requires b.Valid()
  {
    h.(transferred := h.transferred + (|b.contents| - BytesLeft(b, out)),
       relayed := h.relayed + |SentBytes(b, out)|,
       retries := h.retries + if out.SendAgain? then 1 else 0)
  }

  /** A send, accounted for while in PROXY. */
  function Send(c: Conn, side: Side, out: Outgoing): (r: Conn)
    requires c.Valid()
    ensures r.Valid() && r.current == c.current
  {
    var b := if side == ClientSide then c.clientBuf else c.originBuf;
    var d := WriteOut(c, side, out);
    if c.State() != PROXY || out.SendError? then d else d.(h := Accounted(d.h, b, out))
  }

  function HandleProxyWrite(c: Conn, side: Side, env: Env): (r: Ret)
    requires c.Valid()
    ensures r.Next? ==> r.conn.Valid()
  {
    if side == ClientSide then
      if !c.clientBuf.CanRead() then
        if !c.ends.originRead && c.State().FromProxyOn() then CloseClient(c, CLIENT_WRITE)
        else Next(c.Change(ClientSide, MaskInterest(OP_WRITE)), c.State())
      else
        var d := Send(c, ClientSide, env.outgoing);
        if env.outgoing.SendError? then CloseClient(d.(h := d.h.(clientFailed := true)), CLIENT_WRITE)
        else Next(d.Change(OriginSide, UnmaskInterest(OP_READ)), c.State())
    else
      if !c.originBuf.CanRead() then
        if !c.ends.clientRead then CloseClient(c, ORIGIN_WRITE)
        else Next(c.Change(OriginSide, MaskInterest(OP_WRITE)), c.State())
      else
        var d := Send(c, OriginSide, env.outgoing);
        if env.outgoing.SendError? then CloseClient(d.(h := d.h.(originFailed := true)), ORIGIN_WRITE)
        else Next(d.Change(ClientSide, UnmaskInterest(OP_READ)), c.State())
  }

  // ---------------------------------------------------------------------------
  // The state table and its engine
  // ---------------------------------------------------------------------------

  datatype Handler =
    | ReadAuthMethodHandler
    | ReadPlainAuthHandler
    | ReadProxyRequestHandler
    | FinishedResolutionHandler
    | CheckConnectionHandler
    | ProxyReadHandler
    | ProxyWriteHandler

  function OnRead(s: State): Option<Handler> {
    match s
    case AUTH_METHOD => Some(ReadAuthMethodHandler)
    case PLAIN_AUTH => Some(ReadPlainAuthHandler)
    case REQUEST => Some(ReadProxyRequestHandler)
    case PROXY => Some(ProxyReadHandler)
    case _ => None
  }

  function OnWrite(s: State): Option<Handler> {
    match s
    case PLAIN_AUTH | REQUEST | RESOLVING | PROXY | WRITE_REMAINING => Some(ProxyWriteHandler)
    case CONNECTING => Some(CheckConnectionHandler)
    case _ => None
  }

  function OnBlock(s: State): Option<Handler> {
    if s == RESOLVING then Some(FinishedResolutionHandler) else None
  }

  /** on_arrival: start_name_resolution, create_connection and enable_write */
  function Arrive(c: Conn, s: State): (r: Conn)
    requires c.Valid()
    ensures r.Valid()
  {
    match s
    case RESOLVING => c.(resolving := true)
    case CONNECTING => c.Change(ClientSide, AddInterest(OP_WRITE))
    case WRITE_REMAINING => EnableWrite(c)
    case _ => c
  }

  function Jump(c: Conn, next: State): (r: Conn)
    requires c.Valid()
    ensures r.Valid()
  {
    if c.current == Some(next) then c else Arrive(c.(current := Some(next)), next)
  }

  function RunHandler(handler: Handler, c: Conn, side: Side, env: Env): (r: Ret)
    requires c.Valid()
    ensures r.Next? ==> r.conn.Valid()
  {
    match handler
    case ReadAuthMethodHandler => ReadAuthMethod(c, side, env)
    case ReadPlainAuthHandler => ReadPlainAuth(c, side, env)
    case ReadProxyRequestHandler => ReadProxyRequest(c, side, env)
    case FinishedResolutionHandler => HandleFinishedResolution(c, env)
    case CheckConnectionHandler => OriginCheckConnection(c, side, env)
    case ProxyReadHandler => HandleProxyRead(c, side, env)
    case ProxyWriteHandler => HandleProxyWrite(c, side, env)
  }

  /** stm_handler_read, stm_handler_write and stm_handler_block: no handler is an abort(). */
  function Handle(c: Conn, handler: Option<Handler>, side: Side, env: Env): (r: Ret)
    requires c.Valid()
    ensures r.Next? ==> r.conn.Valid()
  {
    if handler.None? then Crash
    else
      var d := if c.current.None? then c.(current := Some(AUTH_METHOD)) else c;
      match RunHandler(handler.value, d, side, env)
      case Crash => Crash
      case Next(e, s) => Next(Jump(e, s), s)
  }

  // ---------------------------------------------------------------------------
  // Events
  // ---------------------------------------------------------------------------

  datatype Kind = Readable(side: Side) | Writable(side: Side) | ResolverDone

  datatype Event = Event(kind: Kind, env: Env)

  /**
   * When the selector dispatches: handle_iteration looks at the interest a descriptor
   * has at that moment (its mask only mattered when select() was called), and a
   * notification is passed on if the descriptor is still registered.
   */
  predicate Dispatched(c: Conn, kind: Kind) {
    match kind
    case Readable(side) => c.Item(side).Used() && c.Item(side).interest.read
    case Writable(side) => c.Item(side).Used() && c.Item(side).interest.write
    case ResolverDone => c.resolving && c.clientItem.Used()
  }

  /** When select() would report it too: also the mask lets it through. */
  predicate Effective(c: Conn, kind: Kind) {
    match kind
    case Readable(side) => c.Item(side).Effective().read
    case Writable(side) => c.Item(side).Effective().write
    case ResolverDone => c.resolving && c.clientItem.Used()
  }

  /** The state after one event, or Crash; an event nobody is interested in changes nothing. */
  function Step(c: Conn, ev: Event): (r: Ret)
    requires c.Valid()
    ensures r.Next? ==> r.conn.Valid()
  {
    if !Dispatched(c, ev.kind) then Next(if ev.kind.ResolverDone? then c.(resolving := false) else c, c.State())
    else
      match ev.kind
      case Readable(side) => Handle(c, OnRead(c.State()), side, ev.env)
      case Writable(side) => Handle(c, OnWrite(c.State()), side, ev.env)
      case ResolverDone => Handle(c.(resolving := false), OnBlock(c.State()), ClientSide, ev.env)
  }

  function Run(c: Conn, events: seq<Event>): (r: Ret)
    requires c.Valid()
    ensures r.Next? ==> r.conn.Valid()
    decreases |events|
  {
    if events == [] then Next(c, c.State())
    else
      match Step(c, events[0])
      case Crash => Crash
      case Next(d, _) => Run(d, events[1..])
  }

  const NO_HISTORY: History :=
    History([], [], [], [], [], [], [], [], [], None, None, false, false, false, false, 0, 0, 0, 0, 0)

  /** create_client and its registration, for the buffer size in force */
  function NewConnection(sock: int, buffsize: nat): (c: Conn)
    ensures c.Valid()
  {
    Conn(None, CLIENT, EmptyBuf(buffsize), EmptyBuf(buffsize), sock, -1,
         NewItem(sock, OP_READ), UNUSED_ITEM, None, [], false, NO_HISTORY)
  }
}
