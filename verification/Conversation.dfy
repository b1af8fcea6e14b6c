/**
 * What a client that follows the RFCs gets: each message of the handshake is answered as it
 * should by the event that completes it.
 */
module Conversation {
  import opened Common
  import opened SocketsIO
  import opened Selectors
  import opened Handshake
  import opened Users
  import opened Connections
  import opened Invariants
  import opened Preservation

  /** What has arrived before and what arrives now make up `message`, and maybe more. */
  predicate Completes(c: Conn, env: Env, message: seq<byte>, rest: seq<byte>)
    requires c.Valid()
  {
    var got := ReceivedBytes(c.originBuf, env.incoming);
    got != [] && c.originBuf.contents + got == message + rest
  }

  /** The connection with the message used up and the rest left for later. */
  lemma Received(c: Conn, env: Env, message: seq<byte>, rest: seq<byte>)
    requires c.Valid() && Completes(c, env, message, rest)
    ensures !CheckEOF(ReadCount(c.originBuf, env.incoming))
    ensures var d := ReceiveFromClient(c, env.incoming);
            && d.originBuf.contents == message + rest
            && |message| <= |d.originBuf.contents|
            && var e := Consume(d, |message|);
               e.originBuf.contents == rest && e.h.consumed == c.h.consumed + message
  {
    var d := ReceiveFromClient(c, env.incoming);
    assert (message + rest)[..|message|] == message && (message + rest)[|message|..] == rest;
  }

  /** What one event leaves besides the state: the message consumed, and what was answered. */
  predicate Answered(c: Conn, d: Conn, message: seq<byte>, rest: seq<byte>, answer: seq<byte>) {
    && d.h.consumed == c.h.consumed + message
    && d.originBuf.contents == rest
    && d.h.replied == c.h.replied + answer
  }

  lemma JumpKeepsAnswer(c: Conn, d: Conn, next: State, message: seq<byte>, rest: seq<byte>, answer: seq<byte>)
    requires d.Valid() && Answered(c, d, message, rest, answer)
    ensures Answered(c, Jump(d, next), message, rest, answer) && Jump(d, next).State() == next
    ensures Jump(d, next).addrs == d.addrs && Jump(d, next).h == d.h
  {
    hide EnableWrite;
  }

  lemma ClosingKeepsAnswer(c: Conn, d: Conn, message: seq<byte>, rest: seq<byte>, answer: seq<byte>)
    requires d.Valid() && d.ends == CLIENT && Answered(c, d, message, rest, answer)
    ensures var r := CloseClient(d, CLIENT_READ);
            && r.state == WRITE_REMAINING && Answered(c, r.conn, message, rest, answer)
            && r.conn.h.replies == d.h.replies && r.conn.h.greeted == d.h.greeted && r.conn.h.login == d.h.login
  {
    hide CloseClient, EnableWrite;
    CloseClientClosedForm(d, CLIENT_READ);
  }

  /** The step that a completed message causes. */
  lemma ReadingStep(c: Conn, env: Env, handler: Handler) returns (d: Conn)
    requires Inv(c) && c.State().Handshaking() && OnRead(c.State()) == Some(handler)
    ensures c.Valid() && d == c.(current := Some(c.State())) && Inv(d)
    ensures RunHandler(handler, d, ClientSide, env).Next? ==>
              Step(c, Event(Readable(ClientSide), env))
              == Next(Landed(RunHandler(handler, d, ClientSide, env)), RunHandler(handler, d, ClientSide, env).state)
  {
    hide RunHandler, Jump, Conserved, Gated, Counted, InListOrder, ClosedOnce, Replied;
    d := c.(current := Some(c.State()));
    FirstEventInv(c);
  }

  /**
   * The greeting: version 5 and an acceptable method lead on, with the method in the reply;
   * anything else is answered by 0xFF and nothing more is read.
   */
  lemma GreetingIsAnswered(c: Conn, env: Env, g: Greeting, rest: seq<byte>)
    requires Inv(c) && c.State() == AUTH_METHOD && |g.methods| < 256
    requires Completes(c, env, EncodeGreeting(g), rest)
    ensures var r := Step(c, Event(Readable(ClientSide), env));
            && r.Next? && r.conn.h.greeted == Some(|env.users|)
            && if g.version == 5 && env.users == [] && 0x00 in g.methods then
                 r.conn.State() == REQUEST && Answered(c, r.conn, EncodeGreeting(g), rest, [5, 0x00])
               else if g.version == 5 && env.users != [] && 0x02 in g.methods then
                 r.conn.State() == PLAIN_AUTH && Answered(c, r.conn, EncodeGreeting(g), rest, [5, 0x02])
               else
                 r.conn.State() == WRITE_REMAINING && Answered(c, r.conn, EncodeGreeting(g), rest, [5, 0xFF])
  {
    hide Step, Inv, ParseGreeting, ReadCount, ReadFrom, CloseClient, Jump, EncodeGreeting;
    var d := ReadingStep(c, env, ReadAuthMethodHandler);
    var message := EncodeGreeting(g);
    Received(d, env, message, rest);
    GreetingRoundTrip(g, rest);
    var e := Consume(ReceiveFromClient(d, env.incoming), |message|);
    AnswerGreetingReplies(c, e, g, env.users, message, rest) by { EndsBefore(d); }
    var r := AnswerGreeting(e, g, env.users);
    JumpKeepsAnswer(c, r.conn, r.state, message, rest, r.conn.h.replied[|c.h.replied|..]);
  }

  lemma EndsBefore(c: Conn)
    requires Inv(c) && c.State().Handshaking()
    ensures c.ends == CLIENT && c.h.replies == [] && c.h.tried == []
  {
  }

  lemma ReplySuffix(before: seq<byte>, answer: seq<byte>)
    ensures (before + [] + answer)[|before|..] == answer && before + [] + answer == before + answer
  {
  }

  lemma AnswerGreetingReplies(c: Conn, e: Conn, g: Greeting, users: seq<User>, message: seq<byte>, rest: seq<byte>)
    requires e.Valid() && e.ends == CLIENT && Answered(c, e, message, rest, [])
    ensures var r := AnswerGreeting(e, g, users);
            && r.Next?
            && r.conn.h.greeted == Some(|users|)
            && var choice := if g.version != 5 then NoneAcceptable else Select(g.methods, |users|);
               && Answered(c, r.conn, message, rest, [5, choice.Code()])
               && r.conn.h.replied[|c.h.replied|..] == [5, choice.Code()]
               && (r.state == match choice
                              case NoAuthentication => REQUEST
                              case UserAndPassword => PLAIN_AUTH
                              case NoneAcceptable => WRITE_REMAINING)
  {
    hide CloseClient, Select, Changed;
    var choice := if g.version != 5 then NoneAcceptable else Select(g.methods, |users|);
    var f := SimpleReply(e.(h := e.h.(greeted := Some(|users|))), SERVER_VERSION, choice.Code());
    ReplySuffix(c.h.replied, [5, choice.Code()]);
    if choice == NoneAcceptable {
      ClosingKeepsAnswer(c, f, message, rest, [5, choice.Code()]);
    }
  }

  /**
   * The login: accepted exactly for version 1 and a pair that the table holds, both taken
   * as C strings.
   */
  lemma LoginIsAnswered(c: Conn, env: Env, l: Login, rest: seq<byte>)
    requires Inv(c) && c.State() == PLAIN_AUTH && |l.user| < 256 && |l.pass| < 256
    requires Completes(c, env, EncodeLogin(l), rest)
    ensures var r := Step(c, Event(Readable(ClientSide), env));
            var known := Authenticates(env.users, CString(l.user), CString(l.pass));
            && r.Next?
            && r.conn.State() == (if l.version == 1 && known then REQUEST else WRITE_REMAINING)
            && (r.conn.State() == REQUEST ==>
                  r.conn.h.login == Some(Credentials(env.users, CString(l.user), CString(l.pass))))
            && Answered(c, r.conn, EncodeLogin(l), rest,
                        [1, if l.version != 1 then 0xFF else if known then 0x00 else 0x01])
  {
    hide Step, Inv, ParseLogin, ReadCount, ReadFrom, CloseClient, Jump, EncodeLogin, AnswerLogin;
    var d := ReadingStep(c, env, ReadPlainAuthHandler);
    var message := EncodeLogin(l);
    Received(d, env, message, rest);
    LoginRoundTrip(l, rest, env.stale);
    var e := Consume(ReceiveFromClient(d, env.incoming), |message|);
    assert c.h.replied == c.h.replied + [];
    AnswerLoginReplies(c, e, l, env.users, message, rest) by { EndsBefore(d); }
    var r := AnswerLogin(e, l, env.users);
    var known := Authenticates(env.users, CString(l.user), CString(l.pass));
    JumpKeepsAnswer(c, r.conn, r.state, message, rest,
                    [1, if l.version != 1 then 0xFF else if known then 0x00 else 0x01]);
  }

  lemma AnswerLoginReplies(c: Conn, e: Conn, l: Login, users: seq<User>, message: seq<byte>, rest: seq<byte>)
    requires e.Valid() && e.ends == CLIENT && Answered(c, e, message, rest, [])
    ensures var r := AnswerLogin(e, l, users);
            var known := Authenticates(users, CString(l.user), CString(l.pass));
            && r.Next?
            && r.state == (if l.version == 1 && known then REQUEST else WRITE_REMAINING)
            && (r.state == REQUEST ==> r.conn.h.login == Some(Credentials(users, CString(l.user), CString(l.pass))))
            && Answered(c, r.conn, message, rest, [1, if l.version != 1 then 0xFF else if known then 0x00 else 0x01])
  {
    hide CloseClient, CString, Authenticates;
    ClosingKeepsAnswer(c, SimpleReply(e, PLAIN_AUTH_VERSION, 0xFF), message, rest, [1, 0xFF]);
    ClosingKeepsAnswer(c, SimpleReply(e, PLAIN_AUTH_VERSION, 0x01), message, rest, [1, 0x01]);
  }

  /**
   * The request: CONNECT to a numeric address is tried at once and to a name is resolved
   * first; other commands are refused with the reply that says so.
   */
  lemma RequestIsServed(c: Conn, env: Env, q: Request, rest: seq<byte>)
    requires Inv(c) && c.State() == REQUEST && ValidRequest(q)
    requires Completes(c, env, EncodeRequest(q), rest)
    ensures var r := Step(c, Event(Readable(ClientSide), env));
            && r.Next?
            && var d := r.conn;
               && d.h.consumed == c.h.consumed + EncodeRequest(q) && d.originBuf.contents == rest
               && (if q.cmd != 1 then
                     d.State() == WRITE_REMAINING && d.h.replied == c.h.replied + RefusalBytes(7)
                   else if !env.memoryOk then
                     d.State() == WRITE_REMAINING && d.h.replied == c.h.replied + RefusalBytes(1)
                   else if q.dest.DomainName? then
                     && d.State() == RESOLVING && d.resolving && d.h.replies == []
                     && ResolverQuery(d) == Some((CString(q.dest.name), q.port))
                   else
                     && d.State() == CONNECTING && d.addrs == [Address(q.dest, q.port)]
                     && d.h.replies == [] && d.h.tried == [])
  {
    hide Step, Inv, ParseRequest, ReadCount, ReadFrom, CloseClient, EncodeRequest, AnswerRequest, Refuse, Jump;
    var d := ReadingStep(c, env, ReadProxyRequestHandler);
    var message := EncodeRequest(q);
    Received(d, env, message, rest);
    RequestRoundTrip(q, rest);
    var e := Consume(ReceiveFromClient(d, env.incoming), |message|);
    AnswerRequestServes(c, e, q, env.memoryOk, message, rest) by { EndsBefore(d); }
    var r := AnswerRequest(e, q, env.memoryOk);
    JumpFacts(r.conn, r.state);
  }

  lemma JumpFacts(d: Conn, next: State)
    requires d.Valid()
    ensures var e := Jump(d, next);
            && e.State() == next && e.h == d.h && e.addrs == d.addrs && e.domain == d.domain
            && e.originBuf == d.originBuf
            && (next == RESOLVING && d.current != Some(next) ==> e.resolving)
  {
    hide EnableWrite;
  }

  lemma AnswerRequestServes(c: Conn, e: Conn, q: Request, memoryOk: bool, message: seq<byte>, rest: seq<byte>)
    requires e.Valid() && e.ends == CLIENT && q.Request? && e.h.replies == [] && e.h.tried == []
    requires e.h.consumed == c.h.consumed + message && e.originBuf.contents == rest
    ensures var r := AnswerRequest(e, q, memoryOk);
            && r.Next? && r.conn.h.consumed == e.h.consumed && r.conn.originBuf == e.originBuf
            && (r.state == RESOLVING ==> r.conn.current == e.current)
            && (if q.cmd != 1 then
                  r.state == WRITE_REMAINING && r.conn.h.replied == e.h.replied + RefusalBytes(7)
                else if !memoryOk then
                  r.state == WRITE_REMAINING && r.conn.h.replied == e.h.replied + RefusalBytes(1)
                else if q.dest.DomainName? then
                  && r.state == RESOLVING && r.conn.h.replies == []
                  && r.conn.domain == Some(Address(q.dest, q.port))
                else
                  && r.state == CONNECTING && r.conn.addrs == [Address(q.dest, q.port)]
                  && r.conn.h.replies == [] && r.conn.h.tried == [])
  {
    hide Refuse, FailureReply;
    RefusalReplies(e, CommandNotSupported);
    RefusalReplies(e.Change(ClientSide, RemoveInterest(OP_READ)), ServerFailure);
  }

  /** The reply of RFC 1928, section 6, that refuses a request: 0.0.0.0 and port 0 behind its number. */
  function RefusalBytes(n: byte): seq<byte> {
    [5, n, 0, 1, 0, 0, 0, 0, 0, 0]
  }

  lemma FailureBytes(code: ReplyCode)
    ensures FailureReply(code).Bytes() == RefusalBytes(code.Code())
  {
  }

  lemma RefusalReplies(c: Conn, code: ReplyCode)
    requires c.Valid() && c.ends == CLIENT
    ensures var r := Refuse(c, code);
            && r.Next? && r.state == WRITE_REMAINING
            && r.conn.h.replies == c.h.replies + [FailureReply(code)]
            && r.conn.h.replied == c.h.replied + RefusalBytes(code.Code())
            && r.conn.h.consumed == c.h.consumed && r.conn.originBuf == c.originBuf
            && r.conn.h.tried == c.h.tried && r.conn.h.candidates == c.h.candidates
            && r.conn.ends == Ends(true, false, false, false)
  {
    hide CloseClient, EnableWrite, ReplyInto, RefusalBytes;
    CloseClientClosedForm(ServerReply(c, FailureReply(code)), CLIENT_READ);
    FailureBytes(code);
  }

  /** A request for an address type other than 1, 3 and 4 is refused at once, with nothing used up. */
  lemma BadAddressIsRefused(c: Conn, env: Env, message: seq<byte>)
    requires Inv(c) && c.State() == REQUEST && Completes(c, env, message, [])
    requires |message| >= 5 && message[3] !in {1, 3, 4}
    ensures var r := Step(c, Event(Readable(ClientSide), env));
            && r.Next? && r.conn.State() == WRITE_REMAINING && !r.conn.ends.clientRead
            && r.conn.h.replied == c.h.replied + RefusalBytes(8) && r.conn.h.consumed == c.h.consumed
  {
    hide Step, Inv, ReadCount, ReadFrom, Refuse, Jump, RefusalBytes;
    var d := ReadingStep(c, env, ReadProxyRequestHandler);
    Received(d, env, message, []);
    assert message + [] == message;
    var e := ReceiveFromClient(d, env.incoming);
    assert ParseRequest(e.originBuf.contents) == Decided(BadAddressType, 0);
    RefusalReplies(e, AddressNotSupported) by { EndsBefore(d); }
    LandedFacts(Refuse(e, AddressNotSupported));
  }

  // ---------------------------------------------------------------------------
  // Reads that bring nothing
  // ---------------------------------------------------------------------------

  /** The reader of each state waits on these bytes. */
  predicate NeedsMore(state: State, s: seq<byte>) {
    match state
    case AUTH_METHOD => ParseGreeting(s).NeedMore?
    case PLAIN_AUTH => ParseLogin(s, 0).NeedMore?
    case REQUEST => ParseRequest(s).NeedMore?
    case _ => false
  }

  /** A read that finds nothing yet changes nothing, as long as the message is incomplete. */
  lemma WaitsForMore(c: Conn, env: Env)
    requires Inv(c) && c.State().Handshaking() && NeedsMore(c.State(), c.originBuf.contents)
    requires env.incoming.ReadAgain?
    ensures c.Valid() && Step(c, Event(Readable(ClientSide), env)) == Next(c.(current := Some(c.State())), c.State())
  {
    hide Step, Inv, ParseGreeting, ParseLogin, ParseRequest, CloseClient, Refuse, AnswerGreeting, AnswerLogin,
         AnswerRequest;
    var d := ReadingStep(c, env, OnRead(c.State()).value);
    assert c.originBuf.contents + [] == c.originBuf.contents && c.h.readClient + [] == c.h.readClient;
    LoginStable(c.originBuf.contents, [], env.stale, 0);
    assert ReceiveFromClient(d, env.incoming) == d;
  }

  lemma ClosingStops(c: Conn)
    requires c.Valid() && c.ends == CLIENT
    ensures var r := CloseClient(c, CLIENT_READ);
            && r.state == WRITE_REMAINING && r.conn.ends == Ends(true, false, false, false)
            && r.conn.originBuf == c.originBuf && r.conn.h.consumed == c.h.consumed && r.conn.h.replied == c.h.replied
  {
    hide CloseClient, EnableWrite, Reduced;
    CloseClientClosedForm(c, CLIENT_READ);
  }

  /**
   * A client that is gone, or a read that fails: nothing more is read from it, and only an
   * unfinished request is answered.
   */
  lemma StopsAtTheEnd(c: Conn, env: Env)
    requires Inv(c) && c.State().Handshaking() && (env.incoming.ReadError? || env.incoming == Arrived([]))
    ensures c.Valid()
    ensures var r := Step(c, Event(Readable(ClientSide), env));
            && r.Next? && r.conn.State() == WRITE_REMAINING && r.conn.ends == Ends(true, false, false, false)
            && r.conn.originBuf == c.originBuf && r.conn.h.consumed == c.h.consumed
            && r.conn.h.replied == c.h.replied + (if c.State() == REQUEST then RefusalBytes(7) else [])
  {
    hide Step, Inv, ParseGreeting, ParseLogin, ParseRequest, CloseClient, Refuse, AnswerGreeting, AnswerLogin,
         AnswerRequest, EnableWrite, Jump, RefusalBytes, CheckEOF, ReadCount, ReceivedBytes;
    var d := ReadingStep(c, env, OnRead(c.State()).value);
    EndOfFileExactly(c.originBuf, env.incoming);
    ReceivedNothing(c.originBuf, env.incoming);
    assert c.originBuf.contents + [] == c.originBuf.contents && c.h.readClient + [] == c.h.readClient;
    assert c.h.replied + [] == c.h.replied;
    assert ReceiveFromClient(d, env.incoming) == d;
    EndsBefore(d);
    ClosingStops(d);
    RefusalReplies(d, CommandNotSupported);
    LandedFacts(RunHandler(OnRead(c.State()).value, d, ClientSide, env));
  }
}
