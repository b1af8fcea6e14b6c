/**
 * The connection object of src/clients.c and the handlers that update it in place,
 * together with its two buffers and its two slots of the shared selector. Each method
 * is proved to do what the function of the same name in Connections says.
 */
module Clients {
  import opened Common
  import opened Buffers
  import opened SocketsIO
  import opened Selectors
  import opened Handshake
  import opened Users
  import opened Connections
  import opened Sniffers
  import Watching
  import Invariants
  import Preservation

  function Gone(c: Conn, side: Side): Conn {
    if side == ClientSide
    then c.(clientItem := UNUSED_ITEM, h := c.h.(clientClosed := c.h.clientClosed + 1))
    else c.(originItem := UNUSED_ITEM, h := c.h.(originClosed := c.h.originClosed + 1))
  }

  lemma CloseEndsInSteps(c: Conn, level: Ends)
    ensures var d := c.Change(ClientSide, RemoveInterest(Ops(level.clientRead, level.clientWrite)))
                      .Change(OriginSide, RemoveInterest(Ops(level.originRead, level.originWrite)))
                      .(ends := c.ends.Minus(level));
            var e := if level.Client() && !d.ends.Client() then Gone(d, ClientSide) else d;
            var f := if level.Origin() && !d.ends.Origin() then Gone(e, OriginSide) else e;
            f == CloseEnds(c, level)
  {
  }

  /** 110 in network byte order */
  const POP3_PORT: seq<byte> := [0, 110]

  /** The port is only looked up for IPv4. */
  predicate ToPop3(addrs: seq<Address>) {
    addrs != [] && addrs[0].ip.IPv4? && addrs[0].port == POP3_PORT
  }

  function TableEntry(state: State, kind: Kind): Option<Handler> {
    match kind
    case Readable(_) => OnRead(state)
    case Writable(_) => OnWrite(state)
    case ResolverDone => OnBlock(state)
  }

  function SideOf(kind: Kind): Side {
    if kind.ResolverDone? then ClientSide else kind.side
  }

  class Client {
    const clientSock: int
    var originSock: int
    const clientBuf: Buffer
    const originBuf: Buffer
    const selector: Selector
    const users: UserTable
    var activeEnds: Ends
    var current: Option<State>
    var domain: Option<Address>
    var currAddr: seq<Address>
    var sniffer: Sniffer?
    var resolving: bool  // a resolver thread has still to put a job in the selector's list
    ghost var h: History
    ghost var logged: seq<Watching.Pair>  // what log_sniffer_info was given

    ghost predicate Valid()
      reads this, clientBuf, originBuf, selector
    {
      && clientBuf != originBuf && clientBuf.data != originBuf.data
      && clientBuf.Valid() && originBuf.Valid() && selector.Valid()
      && |selector.fds| == FD_SETSIZE + 1
      && !InvalidFd(clientSock) && originSock != clientSock
    }

    ghost function Slot(fd: int): Item
      requires |selector.fds| == FD_SETSIZE + 1
      reads selector
    {
      if InvalidFd(fd) then UNUSED_ITEM else selector.fds[fd]
    }

    ghost function View(): (c: Conn)
      requires Valid()
      reads this, clientBuf, clientBuf.data, originBuf, originBuf.data, selector
      ensures c.Valid()
    {
      Conn(current, activeEnds, clientBuf.View(), originBuf.View(), clientSock, originSock,
           Slot(clientSock), Slot(originSock), domain, currAddr, resolving, h)
    }

    /** What the sniffer may write: nothing that the relay uses. */
    ghost function SnifferRepr(): set<object>
      reads this`sniffer
    {
      if sniffer == null then {} else {sniffer, sniffer.user, sniffer.pass}
    }

    ghost predicate SnifferOk()
      reads this`sniffer, SnifferRepr()
    {
      sniffer != null ==>
        sniffer.Valid() && {sniffer.user, sniffer.pass} !! {clientBuf.data, originBuf.data}
    }

    ghost function Watch(): Watching.Watch
      requires sniffer != null && SnifferOk()
      reads this`sniffer, this`logged, SnifferRepr()
    {
      Watching.Watch(sniffer.View(), logged)
    }

    /** The same sniffer, which has looked at a window if it was shown one, and logged what it found. */
    twostate predicate Noted(shown: bool, window: seq<byte>)
      requires old(SnifferOk())
      reads this, SnifferRepr()
    {
      && sniffer == old(sniffer) && SnifferOk()
      && if sniffer == null then logged == old(logged)
         else Watch() == if shown then Watching.Look(old(Watch()), window) else old(Watch())
    }

    /** Another sniffer than before is a fresh one, or none for want of memory; it has logged nothing. */
    twostate predicate OnlyFreshStart()
      reads this, SnifferRepr()
    {
      sniffer != old(sniffer) ==> logged == old(logged) && (sniffer != null ==> sniffer.View().Fresh())
    }

    /** A connection that is made to port 110 starts a sniffer, if there is memory for it; no other does. */
    twostate predicate StartedByPort(env: Env)
      reads this, SnifferRepr()
    {
      if env.soError.None? && old(currAddr) != [] && old(currAddr)[0].ip.IPv4? && old(currAddr)[0].port == [0, 110]
      then (if env.memoryOk then sniffer != null && sniffer.View().Fresh() else sniffer == null)
      else sniffer == old(sniffer)
    }

    /** What a new socket is: a descriptor that is not in use. */
    ghost predicate Fresh(fd: int)
      requires |selector.fds| == FD_SETSIZE + 1
      reads selector
    {
      fd != clientSock && Slot(fd) == UNUSED_ITEM
    }

    /** The slots of other connections are left alone. */
    twostate predicate OthersKept(newSock: int)
      requires old(|selector.fds|) == FD_SETSIZE + 1 == |selector.fds|
      reads this, selector
    {
      forall fd :: 0 <= fd <= FD_SETSIZE && fd != clientSock && fd != old(originSock) && fd != newSock ==>
        selector.fds[fd] == old(selector.fds[fd])
    }

    /** create_client, and its registration by master_read_handler */
    constructor (sock: int, buffsize: nat, s: Selector, table: UserTable)
      requires s.Valid() && |s.fds| == FD_SETSIZE + 1 && !InvalidFd(sock) && !s.fds[sock].Used()
      modifies s
      ensures Valid() && View() == NewConnection(sock, buffsize)
      ensures selector == s && users == table && SnifferOk() && sniffer == null && logged == []
      ensures fresh(clientBuf) && fresh(originBuf) && fresh(clientBuf.data) && fresh(originBuf.data)
      ensures forall fd :: 0 <= fd <= FD_SETSIZE && fd != sock ==> s.fds[fd] == old(s.fds[fd])
    {
      var clientRaw := new byte[buffsize];
      var originRaw := new byte[buffsize];
      clientSock, originSock, activeEnds, current := sock, -1, CLIENT, None;
      domain, currAddr := None, [];
      clientBuf := new Buffer(clientRaw);
      originBuf := new Buffer(originRaw);
      selector, users := s, table;
      sniffer, resolving, h, logged := null, false, NO_HISTORY, [];
      new;
      var status := s.Register(sock, OP_READ, false);
    }

    // -------------------------------------------------------------------------
    // Selector access
    // -------------------------------------------------------------------------

    method Change(side: Side, change: Change)
      requires Valid()
      modifies selector
      ensures Valid() && View() == old(View()).Change(side, change) && OthersKept(originSock)
    {
      var status := selector.ChangeInterest(if side == ClientSide then clientSock else originSock, change);
    }

    method Unregister(side: Side)
      requires Valid()
      modifies selector
      ensures Valid() && View() == old(View()).WithItem(side, UNUSED_ITEM) && OthersKept(originSock)
    {
      var status := selector.Unregister(if side == ClientSide then clientSock else originSock);
    }

    function State(): State
      reads this
    {
      if current.None? then AUTH_METHOD else current.value
    }

    // -------------------------------------------------------------------------
    // closeClient and enable_write
    // -------------------------------------------------------------------------

    method EnableWrite()
      requires Valid()
      modifies selector
      ensures Valid() && View() == Connections.EnableWrite(old(View())) && OthersKept(originSock)
    {
      if activeEnds.clientWrite {
        Change(ClientSide, AddInterest(OP_WRITE));
        Change(ClientSide, UnmaskInterest(OP_WRITE));
      }
      if activeEnds.originWrite {
        Change(OriginSide, AddInterest(OP_WRITE));
        Change(ClientSide, UnmaskInterest(OP_WRITE));
      }
    }

    method DropInterest(side: Side, ops: Ops, on: bool)
      requires Valid()
      modifies selector
      ensures Valid() && OthersKept(originSock)
      ensures View() == old(View()).Change(side, RemoveInterest(if on then ops else OP_NOOP))
    {
      if on {
        Change(side, RemoveInterest(ops));
      }
    }

    method DropSide(side: Side, read: bool, write: bool)
      requires Valid()
      modifies selector
      ensures Valid() && OthersKept(originSock)
      ensures View() == old(View()).Change(side, RemoveInterest(Ops(read, write)))
    {
      DropInterest(side, OP_READ, read);
      DropInterest(side, OP_WRITE, write);
    }

    /** The selector's part of closing the given ends. */
    method DropInterests(level: Ends)
      requires Valid()
      modifies selector
      ensures Valid() && OthersKept(originSock)
      ensures View() == old(View())
                        .Change(ClientSide, RemoveInterest(Ops(level.clientRead, level.clientWrite)))
                        .Change(OriginSide, RemoveInterest(Ops(level.originRead, level.originWrite)))
    {
      hide Changed;
      DropSide(ClientSide, level.clientRead, level.clientWrite);
      DropSide(OriginSide, level.originRead, level.originWrite);
    }

    /** selector_unregister_fd and close, for a descriptor whose last end is gone */
    method CloseDescriptor(side: Side, gone: bool)
      requires Valid()
      modifies this`h, selector
      ensures Valid() && View() == (if gone then Gone(old(View()), side) else old(View())) && OthersKept(originSock)
    {
      if gone {
        Unregister(side);
        h := if side == ClientSide then h.(clientClosed := h.clientClosed + 1)
             else h.(originClosed := h.originClosed + 1);
      }
    }

    method CloseEnds(level: Ends)
      requires Valid()
      modifies this`activeEnds, this`h, selector
      ensures Valid() && View() == Connections.CloseEnds(old(View()), level) && OthersKept(originSock)
    {
      DropInterests(level);
      activeEnds := activeEnds.Minus(level);
      CloseDescriptor(ClientSide, level.Client() && !activeEnds.Client());
      CloseDescriptor(OriginSide, level.Origin() && !activeEnds.Origin());
      CloseEndsInSteps(old(View()), level);
    }

    method CloseClient(asked: Ends) returns (next: State)
      requires Valid()
      modifies this`activeEnds, this`h, selector
      ensures Valid() && Next(View(), next) == Connections.CloseClient(old(View()), asked) && OthersKept(originSock)
      decreases activeEnds.clientWrite, activeEnds.originWrite
    {
      var level := asked.And(activeEnds);
      CloseEnds(level);
      if level.clientWrite {
        next := CloseClient(CLIENT_READ_AND_ORIGIN);
      } else if level.originWrite {
        next := CloseClient(CLIENT_READ);
      } else if activeEnds.None() {
        next := DONE;
      } else if !activeEnds.clientRead && !activeEnds.originRead {
        next := WRITE_REMAINING;
      } else {
        EnableWrite();
        next := State();
      }
    }

    // -------------------------------------------------------------------------
    // Replies
    // -------------------------------------------------------------------------

    method SimpleReply(version: byte, status: byte)
      requires Valid()
      modifies this`h, clientBuf, clientBuf.data
      ensures Valid() && View() == Connections.SimpleReply(old(View()), version, status)
    {
      clientBuf.Write(version);
      clientBuf.Write(status);
      h := h.(replied := h.replied + [version, status]);
    }

    method ServerReply(reply: Reply)
      requires Valid() && reply.Valid()
      modifies this`h, clientBuf, clientBuf.data
      ensures Valid() && View() == Connections.ServerReply(old(View()), reply)
    {
      ReplyIntoBuffer(reply);
      h := h.(replied := h.replied + reply.Bytes(), replies := h.replies + [reply]);
    }

    method ReplyIntoBuffer(reply: Reply)
      requires Valid() && reply.Valid()
      modifies clientBuf, clientBuf.data
      ensures Valid() && clientBuf.View() == ReplyInto(old(clientBuf.View()), reply)
    {
      clientBuf.Write(SERVER_VERSION);
      clientBuf.Write(reply.code.Code());
      clientBuf.Write(0);
      clientBuf.Write(if reply.bound.IPv4? then ATYP_IPV4 else ATYP_IPV6);
      var space := clientBuf.WriteSpace();
      if space < |reply.bound.ip| + |reply.port| {
        return;
      }
      clientBuf.Append(reply.bound.ip);
      clientBuf.Append(reply.port);
    }

    method Refuse(code: ReplyCode) returns (next: State)
      requires Valid()
      modifies this`activeEnds, this`h, selector, clientBuf, clientBuf.data
      ensures Valid() && Next(View(), next) == Connections.Refuse(old(View()), code) && OthersKept(originSock)
    {
      ServerReply(FailureReply(code));
      next := CloseClient(CLIENT_READ);
    }

    // -------------------------------------------------------------------------
    // Handshake handlers
    // -------------------------------------------------------------------------

    method ReceiveFromClient(incoming: Incoming) returns (count: Count)
      requires Valid()
      modifies this`h, originBuf, originBuf.data
      ensures Valid() && View() == Connections.ReceiveFromClient(old(View()), incoming)
      ensures count == ReadCount(old(View()).originBuf, incoming)
    {
      h := h.(readClient := h.readClient + ReceivedBytes(originBuf.View(), incoming));
      count := ReadFromSock(originBuf, incoming);
    }

    method ReceiveFromOrigin(incoming: Incoming) returns (count: Count)
      requires Valid()
      modifies this`h, clientBuf, clientBuf.data
      ensures Valid() && View() == Connections.ReceiveFromOrigin(old(View()), incoming)
      ensures count == ReadCount(old(View()).clientBuf, incoming)
    {
      h := h.(readOrigin := h.readOrigin + ReceivedBytes(clientBuf.View(), incoming));
      count := ReadFromSock(clientBuf, incoming);
    }

    method Consume(n: nat)
      requires Valid() && n <= |View().originBuf.contents|
      modifies this`h, originBuf
      ensures Valid() && View() == Connections.Consume(old(View()), n)
    {
      h := h.(consumed := h.consumed + originBuf.View().contents[..n],
              pipelined := h.pipelined || n < |originBuf.View().contents|);
      originBuf.ReadAdv(n);
    }

    /** `ok` is false where the C code would abort. */
    method ReadAuthMethod(side: Side, env: Env) returns (ok: bool, next: State)
      requires Valid() && env.users == users.users
      modifies this`activeEnds, this`h, selector, clientBuf, clientBuf.data, originBuf, originBuf.data
      ensures Valid() && OthersKept(originSock)
      ensures (if ok then Next(View(), next) else Crash) == Connections.ReadAuthMethod(old(View()), side, env)
    {
      hide Connections.CloseClient, Connections.AnswerGreeting, ParseGreeting, ReadCount;
      next := State();
      if side != ClientSide {
        return false, next;
      }
      var count := ReceiveFromClient(env.incoming);
      if CheckEOF(count) {
        next := CloseClient(CLIENT_READ);
        return true, next;
      }
      var parse := ParseGreeting(originBuf.ReadWindow());
      if parse.NeedMore? {
        return true, State();
      }
      Consume(parse.length);
      next := AnswerGreeting(parse.value);
      ok := true;
    }

    method AnswerGreeting(g: Greeting) returns (next: State)
      requires Valid()
      modifies this`activeEnds, this`h, selector, clientBuf, clientBuf.data
      ensures Valid() && OthersKept(originSock)
      ensures Next(View(), next) == Connections.AnswerGreeting(old(View()), g, users.users)
    {
      hide Connections.CloseClient, Connections.SimpleReply, Changed, Select;
      h := h.(greeted := Some(|users.users|));
      var choice := NoneAcceptable;
      if g.version == SERVER_VERSION {
        choice := SelectMethod(g.methods, |users.users|);
      }
      SimpleReply(SERVER_VERSION, choice.Code());
      match choice
      case NoAuthentication =>
        Change(ClientSide, AddInterest(OP_WRITE));
        next := REQUEST;
      case UserAndPassword =>
        Change(ClientSide, AddInterest(OP_WRITE));
        next := PLAIN_AUTH;
      case NoneAcceptable =>
        next := CloseClient(CLIENT_READ);
    }

    method ReadPlainAuth(side: Side, env: Env) returns (ok: bool, next: State)
      requires Valid() && env.users == users.users
      modifies this`activeEnds, this`h, selector, clientBuf, clientBuf.data, originBuf, originBuf.data
      ensures Valid() && OthersKept(originSock)
      ensures (if ok then Next(View(), next) else Crash) == Connections.ReadPlainAuth(old(View()), side, env)
    {
      hide Connections.CloseClient, Connections.AnswerLogin, ParseLogin, ReadCount;
      next := State();
      if side != ClientSide {
        return false, next;
      }
      var count := ReceiveFromClient(env.incoming);
      if CheckEOF(count) {
        next := CloseClient(CLIENT_READ);
        return true, next;
      }
      var parse := ParseLogin(originBuf.ReadWindow(), env.stale);
      if parse.NeedMore? {
        return true, State();
      }
      Consume(parse.length);
      next := AnswerLogin(parse.value);
      ok := true;
    }

    /** A two-byte refusal, after which nothing more is read from the client. */
    method TurnAway(version: byte, status: byte) returns (next: State)
      requires Valid()
      modifies this`activeEnds, this`h, selector, clientBuf, clientBuf.data
      ensures Valid() && OthersKept(originSock)
      ensures Next(View(), next)
           == Connections.CloseClient(Connections.SimpleReply(old(View()), version, status), CLIENT_READ)
    {
      hide Connections.CloseClient;
      SimpleReply(version, status);
      next := CloseClient(CLIENT_READ);
    }

    method AnswerLogin(l: Login) returns (next: State)
      requires Valid()
      modifies this`activeEnds, this`h, selector, clientBuf, clientBuf.data
      ensures Valid() && OthersKept(originSock)
      ensures Next(View(), next) == Connections.AnswerLogin(old(View()), l, users.users)
    {
      hide Connections.CloseClient, Connections.SimpleReply, CString, Changed, Authenticates;
      if l.version != PLAIN_AUTH_VERSION {
        next := TurnAway(PLAIN_AUTH_VERSION, 0xFF);
        return;
      }
      var name, pass := CString(l.user), CString(l.pass);
      var accepted := users.TryCredentials(name, pass);
      if accepted {
        h := h.(login := Some(Credentials(users.users, name, pass)));
        SimpleReply(PLAIN_AUTH_VERSION, 0x00);
        Change(ClientSide, AddInterest(OP_WRITE));
        next := REQUEST;
      } else {
        next := TurnAway(PLAIN_AUTH_VERSION, 0x01);
      }
    }

    method ReadProxyRequest(side: Side, env: Env) returns (ok: bool, next: State)
      requires Valid()
      modifies this`activeEnds, this`domain, this`currAddr, this`h, selector,
               clientBuf, clientBuf.data, originBuf, originBuf.data
      ensures Valid() && OthersKept(originSock)
      ensures (if ok then Next(View(), next) else Crash) == Connections.ReadProxyRequest(old(View()), side, env)
    {
      hide Connections.Refuse, Connections.AnswerRequest, ParseRequest, ReadCount;
      next := State();
      if side != ClientSide {
        return false, next;
      }
      ok := true;
      var count := ReceiveFromClient(env.incoming);
      if CheckEOF(count) {
        next := Refuse(CommandNotSupported);
        return;
      }
      var parse := ParseRequest(originBuf.ReadWindow());
      if parse.NeedMore? {
        return true, State();
      }
      if parse.value.BadAddressType? {
        next := Refuse(AddressNotSupported);
        return;
      }
      Consume(parse.length);
      next := AnswerRequest(parse.value, env.memoryOk);
    }

    method AnswerRequest(q: Request, memoryOk: bool) returns (next: State)
      requires Valid() && q.Request?
      modifies this`activeEnds, this`domain, this`currAddr, this`h, selector, clientBuf, clientBuf.data
      ensures Valid() && OthersKept(originSock)
      ensures Next(View(), next) == Connections.AnswerRequest(old(View()), q, memoryOk)
    {
      hide Connections.Refuse;
      if q.cmd != CMD_CONNECT {
        next := Refuse(CommandNotSupported);
        return;
      }
      Change(ClientSide, RemoveInterest(OP_READ));
      if !memoryOk {
        next := Refuse(ServerFailure);
      } else if q.dest.DomainName? {
        domain := Some(Address(q.dest, q.port));
        next := RESOLVING;
      } else {
        currAddr := [Address(q.dest, q.port)];
        h := h.(candidates := currAddr);
        next := CONNECTING;
      }
    }

    // -------------------------------------------------------------------------
    // Resolving and connecting
    // -------------------------------------------------------------------------

    method HandleFinishedResolution(env: Env) returns (next: State)
      requires Valid()
      modifies this`currAddr, this`h
      ensures Valid() && Next(View(), next) == Connections.HandleFinishedResolution(old(View()), env)
    {
      currAddr := env.resolution;
      h := h.(candidates := env.resolution);
      next := CONNECTING;
    }

    method TryConnect(env: Env) returns (ok: bool, next: State)
      requires Valid() && Fresh(env.socket)
      modifies this`activeEnds, this`originSock, this`h, selector, clientBuf, clientBuf.data
      ensures Valid() && OthersKept(env.socket) && originSock in {old(originSock), env.socket}
      ensures (if ok then Next(View(), next) else Crash) == Connections.TryConnect(old(View()), env)
    {
      hide Connections.Refuse;
      next := State();
      if currAddr == [] {
        return false, next;
      }
      ok := true;
      originSock := env.socket;
      h := h.(tried := h.tried + [currAddr[0]]);
      if originSock < 0 {
        next := Refuse(ServerFailure);
      } else if env.connect.Some? {
        next := Refuse(CheckConnectionError(env.connect.value));
      } else {
        var status := selector.Register(originSock, OP_WRITE, false);
        if status != Success {
          next := Refuse(ServerFailure);
        } else {
          next := CONNECTING;
        }
      }
    }

    /** init_parser on a new parser, unless there is no memory for it */
    method StartSniffing(memoryOk: bool)
      requires Valid() && SnifferOk()
      modifies this`sniffer
      ensures Valid() && SnifferOk() && View() == old(View())
      ensures if memoryOk then sniffer != null && sniffer.View().Fresh() && fresh(SnifferRepr()) else sniffer == null
    {
      sniffer := null;
      if memoryOk {
        sniffer := new Sniffer();
      }
    }

    method OpenOrigin()
      requires Valid()
      modifies this`activeEnds, this`h, selector
      ensures Valid() && OthersKept(originSock)
      ensures var c := old(View());
              View() == c.(ends := c.ends.(originWrite := true, originRead := true), h := c.h.(connected := true))
                         .Change(OriginSide, SetInterest(OP_BOTH)).Change(ClientSide, SetInterest(OP_BOTH))
    {
      hide Changed;
      activeEnds := activeEnds.(originWrite := true, originRead := true);
      h := h.(connected := true);
      Change(OriginSide, SetInterest(OP_BOTH));
      Change(ClientSide, SetInterest(OP_BOTH));
    }

    /** The origin answered: all ends are open from here on. */
    method Connected(env: Env)
      requires Valid() && SnifferOk() && currAddr != []
      modifies this`activeEnds, this`sniffer, this`h, selector, clientBuf, clientBuf.data
      ensures Valid() && SnifferOk() && OthersKept(originSock)
      ensures env.soError.None? ==>
                Next(View(), PROXY) == Connections.OriginCheckConnection(old(View()), OriginSide, env)
      ensures env.soError.None? ==> StartedByPort(env)
    {
      hide Connections.Refuse, Connections.TryConnect, Connections.ServerReply, Changed;
      OpenOrigin();
      ServerReply(SuccessReply(currAddr[0], env));
      if ToPop3(currAddr) {
        StartSniffing(env.memoryOk);
      }
    }

    method OriginCheckConnection(side: Side, env: Env) returns (ok: bool, next: State)
      requires Valid() && SnifferOk() && Fresh(env.socket)
      modifies this`activeEnds, this`originSock, this`currAddr, this`sniffer, this`h, selector,
               clientBuf, clientBuf.data
      ensures SnifferOk()
      ensures Valid() && OthersKept(env.socket) && originSock in {old(originSock), env.socket}
      ensures (if ok then Next(View(), next) else Crash) == Connections.OriginCheckConnection(old(View()), side, env)
      ensures if side == OriginSide then StartedByPort(env) else sniffer == old(sniffer)
    {
      hide Connections.Refuse, Connections.TryConnect, Connections.ServerReply, Changed;
      next := State();
      if side == ClientSide {
        ok := true;
        Change(ClientSide, RemoveInterest(OP_WRITE));
        if currAddr == [] {
          next := Refuse(HostUnreachable);
        } else {
          ok, next := TryConnect(env);
        }
      } else if currAddr == [] {
        ok := false;
      } else if env.soError.None? {
        ok := true;
        Connected(env);
        next := PROXY;
      } else {
        ok, next := AttemptFailed(env);
      }
    }

    /** The next address of the list, or the reply that says why there is none. */
    method AttemptFailed(env: Env) returns (ok: bool, next: State)
      requires Valid() && Fresh(env.socket) && currAddr != [] && env.soError.Some?
      modifies this`activeEnds, this`originSock, this`currAddr, this`h, selector, clientBuf, clientBuf.data
      ensures Valid() && OthersKept(env.socket) && originSock in {old(originSock), env.socket}
      ensures (if ok then Next(View(), next) else Crash)
           == Connections.OriginCheckConnection(old(View()), OriginSide, env)
    {
      hide Connections.Refuse, Connections.TryConnect, Connections.ServerReply, Changed;
      ok := true;
      Unregister(OriginSide);
      if |currAddr| > 1 {
        currAddr := currAddr[1..];
        ok, next := TryConnect(env);
      } else {
        next := Refuse(CheckConnectionError(env.soError.value));
      }
    }

    // -------------------------------------------------------------------------
    // Relaying
    // -------------------------------------------------------------------------

    method ReadFromClient(env: Env) returns (next: State)
      requires Valid() && SnifferOk()
      modifies this`activeEnds, this`h, this`logged, selector, originBuf, originBuf.data, SnifferRepr()
      ensures Valid() && SnifferOk() && OthersKept(originSock)
      ensures Next(View(), next) == Connections.HandleProxyRead(old(View()), ClientSide, env)
      ensures Noted(Watching.Shown(old(originBuf.View()), env), ReadFrom(old(originBuf.View()), env.incoming).contents)
    {
      hide Connections.CloseClient, ReadCount, ReadFrom, Changed, ReceivedBytes, Watching.Look;
      if !originBuf.CanWrite() {
        Change(ClientSide, MaskInterest(OP_READ));
        return State();
      }
      next := TakeFromClient(env);
    }

    method TakeFromClient(env: Env) returns (next: State)
      requires Valid() && SnifferOk() && originBuf.CanWrite()
      modifies this`activeEnds, this`h, this`logged, selector, originBuf, originBuf.data, SnifferRepr()
      ensures Valid() && SnifferOk() && OthersKept(originSock)
      ensures Next(View(), next) == Connections.HandleProxyRead(old(View()), ClientSide, env)
      ensures Noted(Watching.Shown(old(originBuf.View()), env), ReadFrom(old(originBuf.View()), env.incoming).contents)
    {
      hide Connections.CloseClient, ReadCount, ReadFrom, Changed, ReceivedBytes, Watching.Look;
      var count := ReceiveFromClient(env.incoming);
      if CheckEOF(count) {
        next := CloseClient(CLIENT_READ);
        return;
      }
      PassOnToOrigin(env.dissector);
      next := State();
    }

    /** The origin may be written to again, and the sniffer looks at what is waiting. */
    method PassOnToOrigin(dissector: bool)
      requires Valid() && SnifferOk()
      modifies this`logged, selector, SnifferRepr()
      ensures Valid() && SnifferOk() && OthersKept(originSock)
      ensures Noted(dissector, originBuf.ReadWindow())
      ensures View() == old(View()).Change(OriginSide, UnmaskInterest(OP_WRITE))
    {
      hide Changed;
      Change(OriginSide, UnmaskInterest(OP_WRITE));
      Sniff(dissector);
    }

    method ReadFromOrigin(env: Env) returns (next: State)
      requires Valid() && SnifferOk()
      modifies this`activeEnds, this`sniffer, this`h, selector, clientBuf, clientBuf.data
      ensures Valid() && SnifferOk() && OthersKept(originSock)
      ensures Next(View(), next) == Connections.HandleProxyRead(old(View()), OriginSide, env)
      ensures OnlyFreshStart() && (old(sniffer) != null ==> Noted(false, []))
    {
      hide Connections.CloseClient, ReadCount, ReadFrom, Changed, ReceivedBytes, Watching.Look;
      if !clientBuf.CanWrite() {
        Change(OriginSide, MaskInterest(OP_READ));
        return State();
      }
      var count := ReceiveFromOrigin(env.incoming);
      if CheckEOF(count) {
        next := CloseClient(ORIGIN_READ);
        return;
      }
      PassOnToClient(env.memoryOk);
      next := State();
    }

    /** The client may be written to again, and a response that looks like POP3 starts a sniffer. */
    method PassOnToClient(memoryOk: bool)
      requires Valid() && SnifferOk() && clientBuf.data.Length > 0
      modifies this`sniffer, selector
      ensures Valid() && SnifferOk() && OthersKept(originSock)
      ensures View() == old(View()).Change(ClientSide, UnmaskInterest(OP_WRITE))
      ensures old(sniffer) != null ==> sniffer == old(sniffer)
      ensures old(sniffer) == null && sniffer != null ==> sniffer.View().Fresh() && fresh(SnifferRepr())
    {
      hide Changed;
      Change(ClientSide, UnmaskInterest(OP_WRITE));
      SniffResponse(memoryOk);
    }

    /**
     * Besides relaying, the request buffer is shown to the sniffer, and a response that
     * looks like POP3 starts one: neither changes anything of the connection.
     */
    method HandleProxyRead(side: Side, env: Env) returns (next: State)
      requires Valid() && SnifferOk()
      modifies this`activeEnds, this`sniffer, this`h, this`logged, selector, clientBuf, clientBuf.data,
               originBuf, originBuf.data, SnifferRepr()
      ensures Valid() && SnifferOk() && OthersKept(originSock)
      ensures Next(View(), next) == Connections.HandleProxyRead(old(View()), side, env)
      ensures side == ClientSide || old(sniffer) != null ==>
                Noted(side == ClientSide && Watching.Shown(old(originBuf.View()), env),
                      ReadFrom(old(originBuf.View()), env.incoming).contents)
      ensures OnlyFreshStart()
    {
      hide Connections.HandleProxyRead;
      if side == ClientSide {
        next := ReadFromClient(env);
      } else {
        next := ReadFromOrigin(env);
      }
    }

    /** The whole window is shown, whatever of it was shown before; a complete pair is logged. */
    method Sniff(dissector: bool)
      requires Valid() && SnifferOk()
      modifies this`logged, SnifferRepr()
      ensures Valid() && SnifferOk() && View() == old(View())
      ensures Noted(dissector, originBuf.ReadWindow())
    {
      hide Sniffers.Consume;
      if dissector && sniffer != null {
        var found := sniffer.Parse(originBuf);
        if found {
          logged := logged + [Watching.Pair(CString(sniffer.user[..]), CString(sniffer.pass[..]))];
        }
      }
    }

    /** The byte at the read pointer, which is stale if nothing was received. */
    method SniffResponse(memoryOk: bool)
      requires Valid() && SnifferOk() && clientBuf.data.Length > 0
      modifies this`sniffer
      ensures Valid() && SnifferOk() && View() == old(View())
      ensures var first := clientBuf.data[clientBuf.read];
              if old(sniffer) == null && memoryOk && first in {0x2B, 0x2D}
              then sniffer != null && sniffer.View().Fresh() && fresh(SnifferRepr())
              else sniffer == old(sniffer)
    {
      if sniffer == null {
        var first := clientBuf.data[clientBuf.read];
        if first == 0x2B || first == 0x2D {
          StartSniffing(memoryOk);
        }
      }
    }

    method WriteOut(side: Side, out: Outgoing) returns (size: nat, left: int)
      requires Valid()
      modifies this`h, clientBuf, originBuf
      ensures Valid() && View() == Connections.WriteOut(old(View()), side, out)
      ensures var b := if side == ClientSide then old(View()).clientBuf else old(View()).originBuf;
              size == |b.contents| && left == BytesLeft(b, out)
    {
      hide WriteTo, SentBytes, BytesLeft;
      if side == ClientSide {
        size := |clientBuf.ReadWindow()|;
        h := h.(sentClient := h.sentClient + SentBytes(clientBuf.View(), out));
        left := WriteToSock(clientBuf, out);
      } else {
        size := |originBuf.ReadWindow()|;
        h := h.(sentOrigin := h.sentOrigin + SentBytes(originBuf.View(), out));
        left := WriteToSock(originBuf, out);
      }
    }

    /** add_bytes */
    method AddBytes(size: nat, left: int, out: Outgoing, ghost b: Buf)
      requires b.Valid() && size == |b.contents| && left == BytesLeft(b, out)
      modifies this`h
      ensures h == Accounted(old(h), b, out)
    {
      h := h.(transferred := h.transferred + (size - left),
              relayed := h.relayed + |SentBytes(b, out)|,
              retries := h.retries + if out.SendAgain? then 1 else 0);
    }

    /** write_to_sock, and add_bytes of what it reports while in PROXY */
    method Send(side: Side, out: Outgoing) returns (left: int)
      requires Valid()
      modifies this`h, clientBuf, originBuf
      ensures Valid() && View() == Connections.Send(old(View()), side, out)
      ensures left == BytesLeft(if side == ClientSide then old(View()).clientBuf else old(View()).originBuf, out)
    {
      hide SentBytes, BytesLeft, Connections.WriteOut, Accounted;
      ghost var b := if side == ClientSide then clientBuf.View() else originBuf.View();
      var size;
      size, left := WriteOut(side, out);
      if State() == PROXY && !out.SendError? {
        AddBytes(size, left, out, b);
      }
    }

    method HandleProxyWrite(side: Side, env: Env) returns (next: State)
      requires Valid()
      modifies this`activeEnds, this`h, selector, clientBuf, originBuf
      ensures Valid() && OthersKept(originSock)
      ensures Next(View(), next) == Connections.HandleProxyWrite(old(View()), side, env)
    {
      hide Connections.CloseClient, Connections.Send;
      if side == ClientSide {
        if !clientBuf.CanRead() {
          if !activeEnds.originRead && State().FromProxyOn() {
            next := CloseClient(CLIENT_WRITE);
          } else {
            Change(ClientSide, MaskInterest(OP_WRITE));
            next := State();
          }
          return;
        }
        var left := Send(ClientSide, env.outgoing);
        if left < 0 && env.outgoing.SendError? {
          h := h.(clientFailed := true);
          next := CloseClient(CLIENT_WRITE);
          return;
        }
        Change(OriginSide, UnmaskInterest(OP_READ));
      } else {
        if !originBuf.CanRead() {
          if !activeEnds.clientRead {
            next := CloseClient(ORIGIN_WRITE);
          } else {
            Change(OriginSide, MaskInterest(OP_WRITE));
            next := State();
          }
          return;
        }
        var left := Send(OriginSide, env.outgoing);
        if left < 0 && env.outgoing.SendError? {
          h := h.(originFailed := true);
          next := CloseClient(ORIGIN_WRITE);
          return;
        }
        Change(ClientSide, UnmaskInterest(OP_READ));
      }
      next := State();
    }

    // -------------------------------------------------------------------------
    // The engine of src/stm.c
    // -------------------------------------------------------------------------

    method Jump(next: State)
      requires Valid()
      modifies this`current, this`resolving, selector
      ensures Valid() && View() == Connections.Jump(old(View()), next) && OthersKept(originSock)
    {
      if current == Some(next) {
        return;
      }
      current := Some(next);
      match next
      case RESOLVING => resolving := true;
      case CONNECTING => Change(ClientSide, AddInterest(OP_WRITE));
      case WRITE_REMAINING => EnableWrite();
      case _ =>
    }

    /** The three handshake readers and the end of a resolution, which know nothing of a sniffer. */
    method RunReader(handler: Handler, side: Side, env: Env) returns (ok: bool, next: State)
      requires Valid() && env.users == users.users
      requires !handler.CheckConnectionHandler? && !handler.ProxyReadHandler? && !handler.ProxyWriteHandler?
      modifies this`activeEnds, this`domain, this`currAddr, this`h, selector,
               clientBuf, clientBuf.data, originBuf, originBuf.data
      ensures Valid() && OthersKept(originSock)
      ensures (if ok then Next(View(), next) else Crash) == Connections.RunHandler(handler, old(View()), side, env)
    {
      hide Connections.ReadAuthMethod, Connections.ReadPlainAuth, Connections.ReadProxyRequest;
      match handler
      case ReadAuthMethodHandler => ok, next := ReadAuthMethod(side, env);
      case ReadPlainAuthHandler => ok, next := ReadPlainAuth(side, env);
      case ReadProxyRequestHandler => ok, next := ReadProxyRequest(side, env);
      case FinishedResolutionHandler =>
        ok := true;
        next := HandleFinishedResolution(env);
    }

    /** The two handlers of the relay. */
    method RunRelay(handler: Handler, side: Side, env: Env) returns (next: State)
      requires Valid() && SnifferOk() && handler in {ProxyReadHandler, ProxyWriteHandler}
      modifies this`activeEnds, this`sniffer, this`h, this`logged, selector, clientBuf, clientBuf.data,
               originBuf, originBuf.data, SnifferRepr()
      ensures Valid() && SnifferOk() && OthersKept(originSock)
      ensures Next(View(), next) == Connections.RunHandler(handler, old(View()), side, env)
      ensures OnlyFreshStart()
      ensures old(sniffer) != null ==>
                Noted(handler == ProxyReadHandler && side == ClientSide && Watching.Shown(old(originBuf.View()), env),
                      ReadFrom(old(originBuf.View()), env.incoming).contents)
    {
      hide Connections.HandleProxyRead, Connections.HandleProxyWrite, Watching.Look, Watching.Shown, ReadFrom;
      match handler
      case ProxyReadHandler => next := HandleProxyRead(side, env);
      case ProxyWriteHandler => next := HandleProxyWrite(side, env);
    }

    method RunHandler(handler: Handler, side: Side, env: Env) returns (ok: bool, next: State)
      requires Valid() && SnifferOk() && env.users == users.users && Fresh(env.socket)
      modifies this`activeEnds, this`originSock, this`domain, this`currAddr, this`sniffer, this`h, this`logged,
               selector, clientBuf, clientBuf.data, originBuf, originBuf.data, SnifferRepr()
      ensures SnifferOk()
      ensures Valid() && OthersKept(env.socket) && originSock in {old(originSock), env.socket}
      ensures (if ok then Next(View(), next) else Crash) == Connections.RunHandler(handler, old(View()), side, env)
      ensures OnlyFreshStart()
      ensures handler == CheckConnectionHandler && side == OriginSide ==> StartedByPort(env)
      ensures old(sniffer) != null && handler != CheckConnectionHandler ==>
                Noted(handler == ProxyReadHandler && side == ClientSide && Watching.Shown(old(originBuf.View()), env),
                      ReadFrom(old(originBuf.View()), env.incoming).contents)
    {
      hide Connections.ReadAuthMethod, Connections.ReadPlainAuth, Connections.ReadProxyRequest,
           Connections.OriginCheckConnection, Connections.HandleProxyRead, Connections.HandleProxyWrite,
           Watching.Look, Watching.Shown, ReadFrom;
      ok := true;
      match handler
      case CheckConnectionHandler => ok, next := OriginCheckConnection(side, env);
      case ProxyReadHandler | ProxyWriteHandler => next := RunRelay(handler, side, env);
      case _ => ok, next := RunReader(handler, side, env);
    }

    /** stm_handler_read, stm_handler_write and stm_handler_block, for the handler the table gives */
    method Handle(handler: Option<Handler>, side: Side, env: Env) returns (ok: bool, next: State)
      requires Valid() && SnifferOk() && env.users == users.users && Fresh(env.socket)
      modifies this, selector, clientBuf, clientBuf.data, originBuf, originBuf.data, SnifferRepr()
      ensures SnifferOk()
      ensures Valid() && OthersKept(env.socket) && originSock in {old(originSock), env.socket}
      ensures (if ok then Next(View(), next) else Crash) == Connections.Handle(old(View()), handler, side, env)
      ensures OnlyFreshStart()
      ensures handler == Some(CheckConnectionHandler) && side == OriginSide ==> StartedByPort(env)
      ensures old(sniffer) != null && handler != Some(CheckConnectionHandler) ==>
                Noted(handler == Some(ProxyReadHandler) && side == ClientSide
                      && Watching.Shown(old(originBuf.View()), env),
                      ReadFrom(old(originBuf.View()), env.incoming).contents)
    {
      hide Connections.RunHandler, Connections.Jump, Watching.Look, Watching.Shown, ReadFrom;
      if handler.None? {
        return false, State();
      }
      HandleFirst();
      ok, next := RunAndJump(handler.value, side, env);
    }

    method RunAndJump(handler: Handler, side: Side, env: Env) returns (ok: bool, next: State)
      requires Valid() && SnifferOk() && env.users == users.users && Fresh(env.socket)
      modifies this, selector, clientBuf, clientBuf.data, originBuf, originBuf.data, SnifferRepr()
      ensures SnifferOk()
      ensures Valid() && OthersKept(env.socket) && originSock in {old(originSock), env.socket}
      ensures var r := Connections.RunHandler(handler, old(View()), side, env);
              ok == r.Next? && (ok ==> View() == Connections.Jump(r.conn, r.state) && next == r.state)
      ensures OnlyFreshStart()
      ensures handler == CheckConnectionHandler && side == OriginSide ==> StartedByPort(env)
      ensures old(sniffer) != null && handler != CheckConnectionHandler ==>
                Noted(handler == ProxyReadHandler && side == ClientSide && Watching.Shown(old(originBuf.View()), env),
                      ReadFrom(old(originBuf.View()), env.incoming).contents)
    {
      hide Connections.RunHandler, Connections.Jump, Watching.Look, Watching.Shown, ReadFrom;
      ok, next := RunHandler(handler, side, env);
      if ok {
        Jump(next);
      }
    }

    /** handle_first: the initial state is entered by the first event */
    method HandleFirst()
      requires Valid()
      modifies this`current
      ensures Valid() && View() == old(View()).(current := Some(old(State())))
    {
      if current.None? {
        current := Some(AUTH_METHOD);
      }
    }

    /** What the selector looks at before it calls a handler. */
    predicate Due(kind: Kind)
      requires Valid()
      reads this, clientBuf, clientBuf.data, originBuf, originBuf.data, selector
      ensures Due(kind) == Dispatched(View(), kind)
    {
      var client := selector.fds[clientSock];
      var origin := if InvalidFd(originSock) then UNUSED_ITEM else selector.fds[originSock];
      match kind
      case Readable(side) =>
        var slot := if side == ClientSide then client else origin;
        slot.Used() && slot.interest.read
      case Writable(side) =>
        var slot := if side == ClientSide then client else origin;
        slot.Used() && slot.interest.write
      case ResolverDone => resolving && client.Used()
    }

    /**
     * One event, as the selector delivers it. In any state that satisfies the joint
     * invariant nothing aborts, and the invariant is restored.
     */
    method Dispatch(ev: Event)
      requires Valid() && SnifferOk() && Invariants.Inv(View())
      requires ev.env.users == users.users && Fresh(ev.env.socket)
      modifies this, selector, clientBuf, clientBuf.data, originBuf, originBuf.data, SnifferRepr()
      ensures Valid() && SnifferOk() && OthersKept(ev.env.socket)
      ensures Step(old(View()), ev).Next? && View() == Step(old(View()), ev).conn
      ensures OnlyFreshStart()
      ensures old(State()) == CONNECTING && ev.kind == Writable(OriginSide) && Dispatched(old(View()), ev.kind) ==>
                StartedByPort(ev.env)
      ensures old(sniffer) != null && old(State()) != CONNECTING ==>
                sniffer == old(sniffer) && Watch() == Watching.Watched(old(View()), old(Watch()), ev)
      ensures Invariants.Inv(View())
    {
      hide Connections.Handle, Invariants.Inv, Watching.Look, Watching.Shown, ReadFrom, Dispatched;
      Preservation.StepKeeps(View(), ev);
      var due := Due(ev.kind);
      var ok, next := true, State();
      if ev.kind.ResolverDone? {
        resolving := false;
      }
      if due {
        ok, next := Handle(TableEntry(State(), ev.kind), SideOf(ev.kind), ev.env);
      }
    }
  }
}
