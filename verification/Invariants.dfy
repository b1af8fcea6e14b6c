/**
 * closeClient without recursion, and the joint invariant of a connection over its state, its
 * active ends, its buffers and its two slots in the selector.
 */
module Invariants {
  import opened Selectors
  import opened Handshake
  import opened Users
  import opened Connections

  // ---------------------------------------------------------------------------
  // closeClient without recursion
  // ---------------------------------------------------------------------------

  /** The ends that are closed in the end: the write ends take others with them. */
  function Cascade(ends: Ends, asked: Ends): Ends {
    var level := asked.And(ends);
    if level.clientWrite then ends
    else if level.originWrite then level.(clientRead := ends.clientRead)
    else level
  }

  function Verdict(d: Conn): Ret {
    if d.ends.None() then Next(d, DONE)
    else if !d.ends.clientRead && !d.ends.originRead then Next(d, WRITE_REMAINING)
    else Next(EnableWrite(d), d.State())
  }

  /** Two passes are one pass over both sets of ends. */
  lemma CloseTwice(c: Conn, a: Ends, b: Ends)
    requires a.Within(c.ends) && b.Within(c.ends.Minus(a))
    ensures CloseEnds(CloseEnds(c, a), b) == CloseEnds(c, a.Or(b))
  {
    hide Reduced;
    var two, one := CloseEnds(CloseEnds(c, a), b), CloseEnds(c, a.Or(b));
    var rest := c.ends.Minus(a);
    assert two.ends == one.ends;
    ReducedTwice(c.clientItem, Ops(a.clientRead, a.clientWrite), Ops(b.clientRead, b.clientWrite),
                 a.Client() && !rest.Client(), b.Client() && !two.ends.Client());
    ReducedTwice(c.originItem, Ops(a.originRead, a.originWrite), Ops(b.originRead, b.originWrite),
                 a.Origin() && !rest.Origin(), b.Origin() && !two.ends.Origin());
    assert two.h == one.h;
  }

  lemma ReducedTwice(item: Item, a: Ops, b: Ops, first: bool, second: bool)
    ensures Reduced(Reduced(item, a, first), b, second) == Reduced(item, a.Or(b), first || second)
  {
  }

  /**
   * For every connection and every argument, closeClient does in one step what its
   * recursion does in at most three: in particular each descriptor that loses its
   * last end is unregistered and closed once.
   */
  lemma {:induction false} CloseClientClosedForm(c: Conn, asked: Ends)
    requires c.Valid()
    ensures CloseClient(c, asked) == Verdict(CloseEnds(c, Cascade(c.ends, asked)))
    decreases c.ends.clientWrite, c.ends.originWrite
  {
    hide CloseEnds, EnableWrite;
    var level := asked.And(c.ends);
    var d := CloseEnds(c, level);
    if level.clientWrite {
      CloseClientClosedForm(d, CLIENT_READ_AND_ORIGIN);
      CloseTwice(c, level, Cascade(d.ends, CLIENT_READ_AND_ORIGIN));
      assert level.Or(Cascade(d.ends, CLIENT_READ_AND_ORIGIN)) == c.ends;
    } else if level.originWrite {
      CloseClientClosedForm(d, CLIENT_READ);
      CloseTwice(c, level, Cascade(d.ends, CLIENT_READ));
      assert level.Or(Cascade(d.ends, CLIENT_READ)) == level.(clientRead := c.ends.clientRead);
    }
  }

  /**
   * closeClient only removes ends, at least those asked for, and answers DONE exactly
   * when none is left.
   */
  lemma CloseClientEnds(c: Conn, asked: Ends)
    requires c.Valid() && c.State() != DONE
    ensures var r := CloseClient(c, asked);
            && r.conn.ends.Within(c.ends)
            && r.conn.ends.And(asked).None()
            && (r.state == DONE <==> r.conn.ends.None())
            && (r.state == WRITE_REMAINING || r.state == DONE || r.state == c.State())
            && (asked.And(c.ends).clientWrite ==> r.conn.ends.None())
            && (asked.And(c.ends).originWrite ==> !r.conn.ends.clientRead)
  {
    hide CloseClient, EnableWrite;
    CloseClientClosedForm(c, asked);
  }

  // ---------------------------------------------------------------------------
  // The invariant
  // ---------------------------------------------------------------------------

  /** The sizes that SET-BUFFSIZE admits are over 512; the default is 2048. */
  const MIN_BUFFSIZE: nat := 513

  predicate BuffersFit(c: Conn) {
    c.Valid() && c.clientBuf.cap >= MIN_BUFFSIZE && c.originBuf.cap >= MIN_BUFFSIZE
  }

  /** No byte is lost, duplicated or reordered, in either direction. */
  predicate Conserved(c: Conn) {
    && c.h.sentClient + c.clientBuf.contents == c.h.replied + c.h.readOrigin
    && c.h.consumed + c.h.sentOrigin + c.originBuf.contents == c.h.readClient
  }

  predicate Counted(c: Conn) {
    c.h.transferred >= c.h.relayed + c.h.retries && (c.h.retries == 0 ==> c.h.transferred == c.h.relayed)
  }

  /** Past the greeting with users declared, only with credentials from the table. */
  predicate Gated(c: Conn) {
    && (c.h.login.Some? ==> Authenticates(c.h.login.value.users, c.h.login.value.name, c.h.login.value.pass))
    && (c.State() == PLAIN_AUTH ==> c.h.greeted.Some?)
    && (c.State() in {REQUEST, RESOLVING, CONNECTING, PROXY} || c.h.connected ==>
          c.h.greeted.Some? && (c.h.greeted.value > 0 ==> c.h.login.Some?))
  }

  /** At most one reply, whose bytes close the handshake; it says success exactly if connected. */
  predicate Replied(c: Conn) {
    && |c.h.replies| <= 1
    && (c.h.connected <==> |c.h.replies| == 1 && c.h.replies[0].code == Succeeded)
    && (|c.h.replies| == 1 ==>
          && c.h.replies[0].Valid()
          && var n := |c.h.replied| - |c.h.replies[0].Bytes()|;
             n >= 0 && c.h.replied[n..] == c.h.replies[0].Bytes())
  }

  /** Addresses are tried in list order, each once. */
  predicate InListOrder(c: Conn) {
    && c.h.tried <= c.h.candidates
    && (c.State() == CONNECTING ==>
          if c.originItem.Used()
          then c.addrs != [] && c.h.tried != [] && c.h.tried + c.addrs[1..] == c.h.candidates
          else c.h.tried == [] && c.addrs == c.h.candidates)
  }

  /** Before the origin is connected. */
  predicate BeforeConnected(c: Conn) {
    && c.ends == CLIENT
    && c.clientItem.Used() && c.clientItem.mask.read
    && c.h.replies == [] && !c.h.connected && !c.h.clientFailed && !c.h.originFailed
    && c.h.readOrigin == [] && c.h.sentOrigin == [] && c.h.relayed == 0
    && c.h.clientClosed == 0 && c.h.originClosed == 0
    && c.clientBuf.start + |c.clientBuf.contents| <= |c.h.replied| <= 4
  }

  predicate NoOriginYet(c: Conn) {
    c.originItem == UNUSED_ITEM && c.h.tried == [] && c.h.candidates == [] && c.addrs == []
  }

  /**
   * While a reader waits on a rewound buffer, it has not been given a whole message;
   * the buffer is not rewound only if messages were pipelined.
   */
  predicate Waiting(c: Conn) {
    && (!c.h.pipelined ==> c.originBuf.start == 0)
    && (c.originBuf.start == 0 ==>
          && (c.State() == AUTH_METHOD ==> ParseGreeting(c.originBuf.contents).NeedMore?)
          && (c.State() == PLAIN_AUTH ==> ParseLogin(c.originBuf.contents, 0).NeedMore?)
          && (c.State() == REQUEST ==> ParseRequest(c.originBuf.contents).NeedMore?))
  }

  /** Interest follows the active ends; a mask holds only while there is nothing to gain by lifting it. */
  predicate Relaying(c: Conn) {
    c.ends.clientWrite && (c.ends.clientRead ==> c.ends.originWrite) && ClientAwake(c) && OriginAwake(c)
  }

  predicate ClientAwake(c: Conn) {
    && c.clientItem.Used()
    && c.clientItem.interest == Ops(c.ends.clientRead, true)
    && (c.ends.clientRead && !c.clientItem.mask.read ==> !c.originBuf.CanWrite())
    && (!c.clientItem.mask.write ==> !c.clientBuf.CanRead() && c.ends.originRead)
  }

  predicate OriginAwake(c: Conn) {
    if c.ends.Origin() then
      && c.originItem.Used()
      && c.originItem.interest == Ops(c.ends.originRead, c.ends.originWrite)
      && (c.ends.originRead && !c.originItem.mask.read ==> !c.clientBuf.CanWrite())
      && (c.ends.originWrite && !c.originItem.mask.write ==> !c.originBuf.CanRead() && c.ends.clientRead)
    else !c.originItem.Used()
  }

  /** How often descriptors were closed, and what closing the write ends implies. */
  predicate ClosedOnce(c: Conn) {
    && (c.h.clientClosed == if c.ends.Client() then 0 else 1)
    && (c.h.originClosed == if c.h.connected && !c.ends.Origin() then 1 else 0)
    && (!c.h.connected ==> !c.ends.Origin())
    && (c.ends.clientWrite ==> !c.h.clientFailed)
    && (c.ends.originWrite ==> !c.h.originFailed)
    && (!c.ends.clientWrite ==> c.h.clientFailed || !c.clientBuf.CanRead())
    && (c.ends.clientWrite && c.h.connected && !c.ends.originWrite ==> c.h.originFailed || !c.originBuf.CanRead())
  }

  /** What holds in each state. */
  predicate Shape(c: Conn) {
    match c.State()
    case AUTH_METHOD =>
      && BeforeConnected(c) && NoOriginYet(c) && Waiting(c) && !c.resolving
      && c.clientItem.interest == OP_READ && c.h.replied == []
      && c.h.greeted.None? && c.h.login.None? && !c.h.pipelined
    case PLAIN_AUTH =>
      && BeforeConnected(c) && NoOriginYet(c) && Waiting(c) && !c.resolving
      && c.clientItem.interest == OP_BOTH && |c.h.replied| <= 2
      && (c.clientItem.mask.write || !c.clientBuf.CanRead())
    case REQUEST =>
      && BeforeConnected(c) && NoOriginYet(c) && Waiting(c) && !c.resolving
      && c.clientItem.interest == OP_BOTH
      && (c.clientItem.mask.write || !c.clientBuf.CanRead())
    case RESOLVING =>
      && BeforeConnected(c) && NoOriginYet(c) && c.resolving && ResolverQuery(c).Some?
      && c.clientItem.interest == OP_WRITE
    case CONNECTING =>
      && BeforeConnected(c) && !c.resolving && c.clientItem.mask == OP_BOTH
      && (if c.originItem.Used()
          then c.clientItem.interest == OP_NOOP && c.originItem.interest == OP_WRITE && c.originItem.mask == OP_BOTH
          else c.clientItem.interest == OP_WRITE)
    case PROXY =>
      && Relaying(c) && c.h.connected && !c.resolving && (c.ends.clientRead || c.ends.originRead)
    case WRITE_REMAINING =>
      && Relaying(c) && !c.ends.clientRead && !c.ends.originRead && !c.resolving
    case DONE =>
      c.ends.None() && !c.clientItem.Used() && !c.originItem.Used()
  }

  predicate Inv(c: Conn) {
    && BuffersFit(c) && Conserved(c) && Counted(c) && Gated(c) && Replied(c) && InListOrder(c)
    && ClosedOnce(c) && Shape(c)
  }

  lemma NewConnectionInv(sock: int, buffsize: nat)
    requires sock >= 0 && buffsize >= MIN_BUFFSIZE
    ensures Inv(NewConnection(sock, buffsize))
  {
  }
}
