/** The attempts to reach an origin, from the list of addresses to the success or the refusal. */
module Attempts {
  import opened Common
  import opened Selectors
  import opened Handshake
  import opened Connections
  import opened Invariants
  import opened Preservation
  import opened Theorems
  import opened Conversation

  // ---------------------------------------------------------------------------
  // What an attempt comes to
  // ---------------------------------------------------------------------------

  /** The number by which a client is told of an error: 1 is a general failure. */
  function Reason(e: Errno): byte {
    match e
    case ECONNRESET => 2
    case ENETUNREACH => 3
    case EHOSTUNREACH => 4
    case ECONNREFUSED => 5
    case ETIMEDOUT => 6
    case EADDRNOTAVAIL => 8
    case OtherError => 1
  }

  /** Why an attempt cannot start, if so: no socket, an error that connect() gives at once, or no slot. */
  function Refusal(env: Env): Option<byte> {
    if env.socket < 0 then Some(1)
    else if env.connect.Some? then Some(Reason(env.connect.value))
    else if env.socket >= 1024 then Some(1)
    else None
  }

  predicate Waits(d: Conn, tried: seq<Address>, left: seq<Address>, replied: seq<byte>) {
    d.State() == CONNECTING && d.originItem.Used() && d.h.tried == tried && d.addrs == left && d.h.replied == replied
  }

  /** Nothing more is read, and the refusal with this number follows what the client was told before. */
  predicate GivesUp(d: Conn, tried: seq<Address>, replied: seq<byte>, n: byte) {
    && d.State() == WRITE_REMAINING && d.ends == Ends(true, false, false, false)
    && d.h.tried == tried && d.h.replied == replied + RefusalBytes(n)
  }

  /** All four ends are open, and the reply carries the local address in the family that was tried. */
  predicate Connects(d: Conn, tried: seq<Address>, replied: seq<byte>, a: Address, env: Env) {
    && d.State() == PROXY && d.ends == Ends(true, true, true, true) && d.h.tried == tried
    && d.h.replied == replied + ((if a.ip.IPv4? then [5, 0, 0, 1] + env.bound4 else [5, 0, 0, 4] + env.bound6)
                                 + env.boundPort)
  }

  lemma SuccessBytes(a: Address, env: Env)
    ensures SuccessReply(a, env).Bytes()
         == (if a.ip.IPv4? then [5, 0, 0, 1] + env.bound4 else [5, 0, 0, 4] + env.bound6) + env.boundPort
  {
  }

  lemma ReasonIs(e: Errno)
    ensures CheckConnectionError(e).Code() == Reason(e)
  {
  }

  // ---------------------------------------------------------------------------
  // One event
  // ---------------------------------------------------------------------------

  lemma TryDecides(c: Conn, env: Env)
    requires c.Valid() && c.ends == CLIENT && c.addrs != [] && c.h.replies == []
    ensures var r := TryConnect(c, env);
            && r.Next? && r.conn.originBuf == c.originBuf
            && r.conn.h.tried == c.h.tried + [c.addrs[0]] && r.conn.h.candidates == c.h.candidates
            && match Refusal(env)
               case Some(n) =>
                 && r.state == WRITE_REMAINING && r.conn.ends == Ends(true, false, false, false)
                 && r.conn.h.replied == c.h.replied + RefusalBytes(n)
               case None =>
                 && r.state == CONNECTING && r.conn.current == c.current && r.conn.originItem.Used()
                 && r.conn.addrs == c.addrs && r.conn.h.replied == c.h.replied
  {
    hide Refuse, FailureReply, CheckConnectionError, RefusalBytes;
    var d := c.(originSock := env.socket, originItem := UNUSED_ITEM, h := c.h.(tried := c.h.tried + [c.addrs[0]]));
    RefusalReplies(d, ServerFailure);
    if env.connect.Some? {
      RefusalReplies(d, CheckConnectionError(env.connect.value));
      ReasonIs(env.connect.value);
    }
  }

  /** The step that a report on a connecting client's descriptor causes. */
  lemma AttemptStep(c: Conn, side: Side, env: Env)
    requires Inv(c) && c.State() == CONNECTING && c.originItem.Used() == (side == OriginSide)
    ensures c.Valid() && c.ends == CLIENT && c.h.replies == [] && c.current == Some(CONNECTING)
    ensures if c.originItem.Used() then c.addrs != [] else c.h.tried == [] && c.h.candidates == c.addrs
    ensures c.h.sentOrigin == [] && c.h.relayed == 0
    ensures var r := OriginCheckConnection(c, side, env);
            r.Next? ==> Step(c, Event(Writable(side), env)) == Next(Landed(r), r.state)
  {
    hide OriginCheckConnection, Jump, Conserved, Gated, Counted, ClosedOnce, Replied;
  }

  /** The first address is tried when the client's descriptor is reported; without one the name is unknown. */
  lemma FirstStep(c: Conn, env: Env)
    requires Inv(c) && c.State() == CONNECTING && !c.originItem.Used()
    ensures c.Valid()
    ensures var r := Step(c, Event(Writable(ClientSide), env));
            && r.Next? && Inv(r.conn) && r.conn.originBuf == c.originBuf && r.conn.h.candidates == c.addrs
            && if c.addrs == [] then GivesUp(r.conn, [], c.h.replied, 4)
               else if Refusal(env).Some? then GivesUp(r.conn, [c.addrs[0]], c.h.replied, Refusal(env).value)
               else Waits(r.conn, [c.addrs[0]], c.addrs, c.h.replied)
  {
    hide Step, Inv, Refuse, TryConnect, Jump, Changed, Refusal, FailureReply, RefusalBytes;
    AttemptStep(c, ClientSide, env);
    StepKeeps(c, Event(Writable(ClientSide), env));
    var d := c.Change(ClientSide, RemoveInterest(OP_WRITE));
    if c.addrs == [] {
      RefusalReplies(d, HostUnreachable);
      LandedFacts(Refuse(d, HostUnreachable));
    } else {
      TryDecides(d, env);
      LandedFacts(TryConnect(d, env));
    }
  }

  /** A report on the attempt at hand: success, the next address, or the end. */
  lemma NextStep(c: Conn, env: Env)
    requires Inv(c) && c.State() == CONNECTING && c.originItem.Used()
    ensures c.Valid() && c.addrs != []
    ensures var r := Step(c, Event(Writable(OriginSide), env));
            && r.Next? && Inv(r.conn) && r.conn.originBuf == c.originBuf && r.conn.h.candidates == c.h.candidates
            && if env.soError.None? then
                 && Connects(r.conn, c.h.tried, c.h.replied, c.addrs[0], env)
                 && r.conn.h.sentClient == c.h.sentClient && r.conn.h.sentOrigin == [] && r.conn.h.relayed == 0
               else if |c.addrs| == 1 then
                 GivesUp(r.conn, c.h.tried, c.h.replied, Reason(env.soError.value))
               else if Refusal(env).Some? then
                 GivesUp(r.conn, c.h.tried + [c.addrs[1]], c.h.replied, Refusal(env).value)
               else
                 Waits(r.conn, c.h.tried + [c.addrs[1]], c.addrs[1..], c.h.replied)
  {
    hide Step, Inv, Refuse, TryConnect, Jump, Changed, Refusal, FailureReply, CheckConnectionError, ReplyInto,
         SuccessReply, RefusalBytes;
    AttemptStep(c, OriginSide, env);
    StepKeeps(c, Event(Writable(OriginSide), env));
    var d := c.(originItem := UNUSED_ITEM);
    if env.soError.None? {
      SuccessBytes(c.addrs[0], env);
    } else {
      if |c.addrs| == 1 {
        RefusalReplies(d, CheckConnectionError(env.soError.value));
        ReasonIs(env.soError.value);
      } else {
        TryDecides(d.(addrs := d.addrs[1..]), env);
      }
    }
    LandedFacts(OriginCheckConnection(c, OriginSide, env));
  }

  // ---------------------------------------------------------------------------
  // Runs
  // ---------------------------------------------------------------------------

  /** The first report is on the client's descriptor, the others on that of the attempt at hand. */
  function AttemptEvents(envs: seq<Env>): (events: seq<Event>)
    ensures |events| == |envs|
  {
    if envs == [] then []
    else AttemptEvents(envs[..|envs| - 1])
         + [Event(Writable(if |envs| == 1 then ClientSide else OriginSide), envs[|envs| - 1])]
  }

  /** Attempts that all started, each after the one before it had failed. */
  predicate Underway(envs: seq<Env>) {
    forall i :: 0 <= i < |envs| ==> Refusal(envs[i]).None? && (i > 0 ==> envs[i].soError.Some?)
  }

  /** What becomes of n attempts with the next report. */
  predicate Decided(c: Conn, n: nat, last: Env, d: Conn)
    requires n <= |c.addrs|
  {
    if n > 0 && last.soError.None? then
      Connects(d, c.addrs[..n], c.h.replied, c.addrs[n - 1], last)
    else if n == |c.addrs| then
      GivesUp(d, c.addrs, c.h.replied, if n == 0 then 4 else Reason(last.soError.value))
    else if Refusal(last).Some? then
      GivesUp(d, c.addrs[..n + 1], c.h.replied, Refusal(last).value)
    else
      Waits(d, c.addrs[..n + 1], c.addrs[n..], c.h.replied)
  }

  /**
   * The attempts over any list of addresses, decided for every answer of the kernel. As long
   * as attempts start and then fail, the addresses are tried in turn. The first that answers
   * is connected and reported; after the last one the client is told why that one failed; and
   * an attempt that cannot even start ends it all, whatever is left of the list.
   */
  lemma {:induction false} AttemptsDecide(c: Conn, envs: seq<Env>, last: Env)
    requires Inv(c) && c.State() == CONNECTING && !c.originItem.Used()
    requires Underway(envs) && |envs| <= |c.addrs|
    ensures c.Valid()
    ensures var r := Run(c, AttemptEvents(envs + [last]));
            && r.Next? && Inv(r.conn) && r.conn.originBuf == c.originBuf && r.conn.h.candidates == c.addrs
            && Decided(c, |envs|, last, r.conn)
    decreases |envs|
  {
    hide Inv, Step, Run, Refusal, Connects, GivesUp, AttemptEvents;
    InvIsValid(c);
    var n := |envs|;
    var ev := Event(Writable(if n == 0 then ClientSide else OriginSide), last);
    AttemptEventsMore(envs, last);
    if n == 0 {
      FirstStep(c, last);
      RunOne(c, ev);
      assert c.addrs != [] ==> c.addrs[..1] == [c.addrs[0]];
    } else {
      assert envs == envs[..n - 1] + [envs[n - 1]];
      AttemptsDecide(c, envs[..n - 1], envs[n - 1]);
      var d := Run(c, AttemptEvents(envs)).conn;
      StepDecides(c, d, n, last);
      RunOne(d, ev);
      RunAppend(c, AttemptEvents(envs), [ev]);
    }
  }

  lemma AttemptEventsMore(envs: seq<Env>, last: Env)
    ensures AttemptEvents(envs + [last])
         == AttemptEvents(envs) + [Event(Writable(if envs == [] then ClientSide else OriginSide), last)]
    ensures AttemptEvents([]) == []
    ensures envs == [] ==> AttemptEvents(envs + [last]) == [Event(Writable(ClientSide), last)]
  {
    assert (envs + [last])[..|envs|] == envs;
  }

  lemma StepDecides(c: Conn, d: Conn, n: nat, last: Env)
    requires Inv(d) && 0 < n <= |c.addrs| && Waits(d, c.addrs[..n], c.addrs[n - 1..], c.h.replied)
    ensures d.Valid()
    ensures var r := Step(d, Event(Writable(OriginSide), last));
            && r.Next? && Inv(r.conn) && r.conn.originBuf == d.originBuf && r.conn.h.candidates == d.h.candidates
            && Decided(c, n, last, r.conn)
  {
    hide Inv, Step, Refusal, Reason, Connects, GivesUp;
    NextStep(d, last);
    Advanced(c.addrs, n);
  }

  lemma Advanced(addrs: seq<Address>, n: nat)
    requires 0 < n <= |addrs|
    ensures addrs[n - 1..][0] == addrs[n - 1] && addrs[n - 1..][1..] == addrs[n..]
    ensures n == |addrs| ==> addrs[..n] == addrs
    ensures n < |addrs| ==> addrs[n - 1..][1] == addrs[n] && addrs[..n] + [addrs[n]] == addrs[..n + 1]
  {
  }

  /** After at most one report more than there are addresses, the attempts are over. */
  lemma AttemptsEnd(c: Conn, envs: seq<Env>) returns (n: nat)
    requires Inv(c) && c.State() == CONNECTING && !c.originItem.Used() && |envs| > |c.addrs|
    ensures n <= |c.addrs| && Underway(envs[..n])
    ensures c.Valid() && Run(c, AttemptEvents(envs[..n + 1])).Next?
    ensures Run(c, AttemptEvents(envs[..n + 1])).conn.State() in {PROXY, WRITE_REMAINING}
  {
    hide Inv, Run, Refusal, AttemptEvents;
    n := 0;
    while n < |c.addrs| && Refusal(envs[n]).None? && (n > 0 ==> envs[n].soError.Some?)
      invariant n <= |c.addrs| && Underway(envs[..n])
    {
      n := n + 1;
    }
    assert envs[..n + 1] == envs[..n] + [envs[n]];
    AttemptsDecide(c, envs[..n], envs[n]);
  }

  /**
   * A client that is refused was refused only after every address was tried if and only if
   * no attempt before the one at the last address was kept from starting.
   */
  lemma RefusedAfterAllExactly(c: Conn, envs: seq<Env>, last: Env)
    requires Inv(c) && c.State() == CONNECTING && !c.originItem.Used()
    requires Underway(envs) && |envs| <= |c.addrs|
    ensures c.Valid() && Run(c, AttemptEvents(envs + [last])).Next?
    ensures var d := Run(c, AttemptEvents(envs + [last])).conn;
            var all := envs + [last];
            d.State() == WRITE_REMAINING ==>
              (d.h.tried == c.addrs
               <==> forall i :: 0 <= i < |all| && i + 1 < |c.addrs| ==> Refusal(all[i]).None?)
  {
    hide Inv, Run, Refusal, RefusalBytes;
    AttemptsDecide(c, envs, last);
    var n, all := |envs|, envs + [last];
    assert all[n] == last && forall i :: 0 <= i < n ==> all[i] == envs[i];
    if n + 1 < |c.addrs| {
      assert |c.addrs[..n + 1]| != |c.addrs|;
    } else if n + 1 == |c.addrs| {
      assert c.addrs[..n + 1] == c.addrs;
    }
  }
}
