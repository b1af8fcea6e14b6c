/**
 * The messages of src/handshake.c: the greeting and the request of RFC 1928
 * (sections 3 and 4), the user name and password message of RFC 1929 (section 2)
 * and the reply of RFC 1928 (section 6).
 */
module Handshake {
  import opened Common

  const SERVER_VERSION: byte := 5
  const PLAIN_AUTH_VERSION: byte := 1
  const CMD_CONNECT: byte := 1
  const ATYP_IPV4: byte := 1
  const ATYP_DOMAIN_NAME: byte := 3
  const ATYP_IPV6: byte := 4

  /** A reader either waits for more bytes or decides, using up `length` of them. */
  datatype Parse<T> = NeedMore | Decided(value: T, length: nat)

  // ---------------------------------------------------------------------------
  // The three incremental readers
  // ---------------------------------------------------------------------------

  datatype Greeting = Greeting(version: byte, methods: seq<byte>)

  function ParseGreeting(s: seq<byte>): (p: Parse<Greeting>)
    ensures p.Decided? ==> 0 < p.length <= |s|
  {
    if |s| < 2 then NeedMore
    else
      var n: nat := s[1];
      if |s| < n + 2 then NeedMore else Decided(Greeting(s[0], s[2..2 + n]), n + 2)
  }

  datatype Login = Login(version: byte, user: seq<byte>, pass: seq<byte>)

  /**
   * `stale` stands for the byte after the available ones, which the code reads as the
   * password length when exactly the user name has arrived.
   */
  function ParseLogin(s: seq<byte>, stale: byte): (p: Parse<Login>)
    ensures p.Decided? ==> 0 < p.length <= |s|
  {
    if |s| < 2 then NeedMore
    else
      var userLen: nat := s[1];
      if |s| < 2 + userLen then NeedMore
      else
        var passLen: nat := if |s| > 2 + userLen then s[2 + userLen] else stale;
        if |s| < 3 + userLen + passLen then NeedMore
        else
          Decided(Login(s[0], s[2..2 + userLen], s[3 + userLen..3 + userLen + passLen]),
                  3 + userLen + passLen)
  }

  datatype Destination =
    | IPv4(ip: seq<byte>)
    | IPv6(ip: seq<byte>)
    | DomainName(name: seq<byte>)

  datatype Request =
    | Request(cmd: byte, dest: Destination, port: seq<byte>)
    | BadAddressType

  /** An unknown address type is refused at once, with nothing used up. */
  function ParseRequest(s: seq<byte>): (p: Parse<Request>)
    ensures p.Decided? ==> p.length <= |s|
    ensures p.Decided? && p.value.Request? ==>
              p.length > 0 && |p.value.port| == 2
              && (p.value.dest.IPv4? ==> |p.value.dest.ip| == 4)
              && (p.value.dest.IPv6? ==> |p.value.dest.ip| == 16)
  {
    if |s| < 5 then NeedMore
    else
      var atyp := s[3];
      if atyp != ATYP_IPV4 && atyp != ATYP_IPV6 && atyp != ATYP_DOMAIN_NAME then Decided(BadAddressType, 0)
      else
        var nameLen: nat := s[4];
        var addrLen: nat := if atyp == ATYP_IPV4 then 4 else if atyp == ATYP_IPV6 then 16 else 1 + nameLen;
        if |s| < 6 + addrLen then NeedMore
        else
          var dest :=
            if atyp == ATYP_IPV4 then IPv4(s[4..8])
            else if atyp == ATYP_IPV6 then IPv6(s[4..20])
            else DomainName(s[5..4 + addrLen]);
          Decided(Request(s[1], dest, s[4 + addrLen..6 + addrLen]), addrLen + 6)
  }

  // ---------------------------------------------------------------------------
  // The encodings of the RFCs, and decoding as their inverse
  // ---------------------------------------------------------------------------

  function EncodeGreeting(g: Greeting): (s: seq<byte>)
    requires |g.methods| < 256
  {
    [g.version, |g.methods|] + g.methods
  }

  function EncodeLogin(l: Login): (s: seq<byte>)
    requires |l.user| < 256 && |l.pass| < 256
  {
    [l.version, |l.user|] + l.user + [|l.pass|] + l.pass
  }

  predicate ValidRequest(r: Request) {
    && r.Request? && |r.port| == 2
    && match r.dest
       case IPv4(ip) => |ip| == 4
       case IPv6(ip) => |ip| == 16
       case DomainName(name) => |name| < 256
  }

  function EncodeDestination(d: Destination): seq<byte>
    requires d.DomainName? ==> |d.name| < 256
  {
    match d
    case IPv4(ip) => [1] + ip
    case IPv6(ip) => [4] + ip
    case DomainName(name) => [3, |name|] + name
  }

  function EncodeRequest(r: Request): (s: seq<byte>)
    requires ValidRequest(r)
  {
    [5, r.cmd, 0] + EncodeDestination(r.dest) + r.port
  }

  /** The version and the reserved byte of a request are never looked at. */
  lemma RequestIgnores(s: seq<byte>, version: byte, reserved: byte)
    requires |s| >= 3
    ensures ParseRequest(s[0 := version][2 := reserved]) == ParseRequest(s)
  {
    var t := s[0 := version][2 := reserved];
    assert t[3..] == s[3..];
    assert forall i, j :: 3 <= i <= j <= |s| ==> t[i..j] == s[i..j];
  }

  lemma GreetingRoundTrip(g: Greeting, rest: seq<byte>)
    requires |g.methods| < 256
    ensures ParseGreeting(EncodeGreeting(g) + rest) == Decided(g, |EncodeGreeting(g)|)
  {
    var s := EncodeGreeting(g) + rest;
    assert s[2..2 + |g.methods|] == g.methods;
  }

  lemma LoginRoundTrip(l: Login, rest: seq<byte>, stale: byte)
    requires |l.user| < 256 && |l.pass| < 256
    ensures ParseLogin(EncodeLogin(l) + rest, stale) == Decided(l, |EncodeLogin(l)|)
  {
    var s := EncodeLogin(l) + rest;
    var u := |l.user|;
    assert s[2..2 + u] == l.user;
    assert s[2 + u] == |l.pass|;
    assert s[3 + u..3 + u + |l.pass|] == l.pass;
  }

  lemma RequestRoundTrip(r: Request, rest: seq<byte>)
    requires ValidRequest(r)
    ensures ParseRequest(EncodeRequest(r) + rest) == Decided(r, |EncodeRequest(r)|)
  {
    var s, d := EncodeRequest(r) + rest, EncodeDestination(r.dest);
    var n := 3 + |d|;
    RequestLayout(r, rest);
    assert s[3] == s[3..n][0] && s[4..n] == s[3..n][1..];
    match r.dest
    case IPv4(ip) => assert d[1..] == ip;
    case IPv6(ip) => assert d[1..] == ip;
    case DomainName(name) =>
      assert s[4] == s[3..n][1] && s[5..n] == s[3..n][2..];
      assert d[2..] == name;
  }

  lemma RequestLayout(r: Request, rest: seq<byte>)
    requires ValidRequest(r)
    ensures var s, d := EncodeRequest(r) + rest, EncodeDestination(r.dest);
            && |EncodeRequest(r)| == 3 + |d| + 2 && s[1] == r.cmd
            && s[3..3 + |d|] == d && s[3 + |d|..3 + |d| + 2] == r.port
  {
    hide EncodeDestination;
  }

  // ---------------------------------------------------------------------------
  // Prefix stability, and independence of the fragmentation
  // ---------------------------------------------------------------------------

  /** Once a reader has decided, no further byte changes the decision. */
  lemma GreetingStable(s: seq<byte>, more: seq<byte>)
    requires ParseGreeting(s).Decided?
    ensures ParseGreeting(s + more) == ParseGreeting(s)
  {
    var t := s + more;
    var n: nat := s[1];
    assert t[2..2 + n] == s[2..2 + n];
  }

  /** Also for any value of the byte past the available ones, before and after. */
  lemma LoginStable(s: seq<byte>, more: seq<byte>, stale: byte, stale': byte)
    ensures ParseLogin(s, stale) == ParseLogin(s, stale')
    ensures ParseLogin(s, stale).Decided? ==> ParseLogin(s + more, stale') == ParseLogin(s, stale)
  {
    if ParseLogin(s, stale).Decided? {
      var t := s + more;
      var u: nat := s[1];
      assert t[2..2 + u] == s[2..2 + u];
      var p: nat := s[2 + u];
      assert t[3 + u..3 + u + p] == s[3 + u..3 + u + p];
    }
  }

  lemma RequestStable(s: seq<byte>, more: seq<byte>)
    requires ParseRequest(s).Decided?
    ensures ParseRequest(s + more) == ParseRequest(s)
  {
    var t, p := s + more, ParseRequest(s);
    if p.value.Request? {
      var n := p.length;
      assert t[n - 2..n] == s[n - 2..n];
      assert forall i, j :: 0 <= i <= j <= n ==> t[i..j] == s[i..j];
    }
  }

  function Concat(chunks: seq<seq<byte>>): seq<byte> {
    if chunks == [] then [] else chunks[0] + Concat(chunks[1..])
  }

  /** A reader of the available bytes and of the byte that happens to follow them. */
  type Reader<!T> = (seq<byte>, byte) -> Parse<T>

  const GREETING_READER: Reader<Greeting> := (s: seq<byte>, stale: byte) => ParseGreeting(s)
  const LOGIN_READER: Reader<Login> := (s: seq<byte>, stale: byte) => ParseLogin(s, stale)
  const REQUEST_READER: Reader<Request> := (s: seq<byte>, stale: byte) => ParseRequest(s)

  ghost predicate PrefixStable<T(!new)>(reader: Reader<T>) {
    && (forall s, a, b :: reader(s, a) == reader(s, b))
    && (forall s, more, a :: reader(s, a).Decided? ==> reader(s + more, a) == reader(s, a))
  }

  /** A reader fed chunk by chunk, tried after each, and stopped by its first decision. */
  function Feed<T>(reader: Reader<T>, acc: seq<byte>, chunks: seq<seq<byte>>, stale: nat -> byte): Parse<T>
    decreases |chunks|
  {
    if chunks == [] then reader(acc, stale(0))
    else
      var verdict := reader(acc + chunks[0], stale(|chunks|));
      if verdict.Decided? then verdict else Feed(reader, acc + chunks[0], chunks[1..], stale)
  }

  lemma {:induction false} FeedIsWhole<T(!new)>(reader: Reader<T>, acc: seq<byte>, chunks: seq<seq<byte>>,
                                                stale: nat -> byte, any: byte)
    requires PrefixStable(reader)
    ensures Feed(reader, acc, chunks, stale) == reader(acc + Concat(chunks), any)
    decreases |chunks|
  {
    if chunks == [] {
      assert acc + Concat(chunks) == acc;
    } else {
      var next, rest := acc + chunks[0], Concat(chunks[1..]);
      assert acc + Concat(chunks) == next + rest;
      if reader(next, stale(|chunks|)).Decided? {
        assert reader(next + rest, stale(|chunks|)) == reader(next, stale(|chunks|));
      } else {
        FeedIsWhole(reader, next, chunks[1..], stale, any);
      }
    }
  }

  /**
   * However the bytes of a message are cut, and whatever follows them in memory, the
   * verdict of each reader and the length it uses up are those of the whole.
   */
  lemma FragmentationIndependence(chunks: seq<seq<byte>>, stale: nat -> byte, any: byte)
    ensures Feed(GREETING_READER, [], chunks, stale) == ParseGreeting(Concat(chunks))
    ensures Feed(LOGIN_READER, [], chunks, stale) == ParseLogin(Concat(chunks), any)
    ensures Feed(REQUEST_READER, [], chunks, stale) == ParseRequest(Concat(chunks))
  {
    assert [] + Concat(chunks) == Concat(chunks);
    assert PrefixStable(GREETING_READER) by {
      forall s, more | ParseGreeting(s).Decided? { GreetingStable(s, more); }
    }
    FeedIsWhole(GREETING_READER, [], chunks, stale, any);
    assert PrefixStable(LOGIN_READER) by {
      forall s, a, b { LoginStable(s, [], a, b); }
      forall s, more, a | ParseLogin(s, a).Decided?
        ensures ParseLogin(s + more, a) == ParseLogin(s, a)
      {
        LoginStable(s, more, a, a);
      }
    }
    FeedIsWhole(LOGIN_READER, [], chunks, stale, any);
    assert PrefixStable(REQUEST_READER) by {
      forall s, more | ParseRequest(s).Decided? { RequestStable(s, more); }
    }
    FeedIsWhole(REQUEST_READER, [], chunks, stale, any);
  }

  // ---------------------------------------------------------------------------
  // Capacity
  // ---------------------------------------------------------------------------

  /** The longest message: RFC 1929 with two fields of 255 bytes. */
  const LONGEST_MESSAGE: nat := 513

  /** An incomplete message is always shorter than the longest one... */
  lemma IncompleteIsShort(s: seq<byte>, stale: byte)
    ensures ParseGreeting(s).NeedMore? ==> |s| < LONGEST_MESSAGE
    ensures ParseLogin(s, stale).NeedMore? ==> |s| < LONGEST_MESSAGE
    ensures ParseRequest(s).NeedMore? ==> |s| < LONGEST_MESSAGE
  {
  }

  /** ...and the bound is tight: an RFC 1929 message can lack a single byte of it. */
  lemma LongestMessageIsReached(stale: byte)
    ensures exists s :: |s| == LONGEST_MESSAGE - 1 && ParseLogin(s, stale).NeedMore?
  {
    var pad: seq<byte> := seq(255, _ => 0);
    var s := [PLAIN_AUTH_VERSION, 255] + pad + [255] + pad[..254];
    assert s[1] == 255 && s[257] == 255;
    assert |s| == LONGEST_MESSAGE - 1 && ParseLogin(s, stale).NeedMore?;
  }

  // ---------------------------------------------------------------------------
  // Method selection
  // ---------------------------------------------------------------------------

  /** What the greeting is answered with. */
  datatype Selection = NoAuthentication | UserAndPassword | NoneAcceptable {
    function Code(): byte {
      match this
      case NoAuthentication => 0x00
      case UserAndPassword => 0x02
      case NoneAcceptable => 0xFF
    }
  }

  /** With users declared only user and password will do; without, only no authentication. */
  function Select(methods: seq<byte>, nUsers: nat): Selection {
    if nUsers == 0 && 0x00 in methods then NoAuthentication
    else if nUsers != 0 && 0x02 in methods then UserAndPassword
    else NoneAcceptable
  }

  method SelectMethod(methods: seq<byte>, nUsers: nat) returns (r: Selection)
    ensures r == Select(methods, nUsers)
  {
    var i := 0;
    while i < |methods|
      invariant 0 <= i <= |methods|
      invariant forall j :: 0 <= j < i ==>
                  (methods[j] == 0x00 ==> nUsers != 0) && (methods[j] == 0x02 ==> nUsers == 0)
    {
      if methods[i] == 0x00 {
        if nUsers == 0 {
          return NoAuthentication;
        }
      } else if methods[i] == 0x02 {
        if nUsers != 0 {
          return UserAndPassword;
        }
      }
      i := i + 1;
    }
    return NoneAcceptable;
  }

  // ---------------------------------------------------------------------------
  // Replies
  // ---------------------------------------------------------------------------

  datatype ReplyCode =
    | Succeeded
    | ServerFailure
    | NotAllowed
    | NetworkUnreachable
    | HostUnreachable
    | ConnectionRefused
    | TtlExpired
    | CommandNotSupported
    | AddressNotSupported
  {
    function Code(): (b: byte)
      ensures b <= 8
    {
      match this
      case Succeeded => 0
      case ServerFailure => 1
      case NotAllowed => 2
      case NetworkUnreachable => 3
      case HostUnreachable => 4
      case ConnectionRefused => 5
      case TtlExpired => 6
      case CommandNotSupported => 7
      case AddressNotSupported => 8
    }
  }

  /** A reply with a numeric bound address; the proxy never replies with a domain name. */
  datatype Reply = Reply(code: ReplyCode, bound: Destination, port: seq<byte>) {
    predicate Valid() {
      && |port| == 2
      && ((bound.IPv4? && |bound.ip| == 4) || (bound.IPv6? && |bound.ip| == 16))
    }

    /** VER, REP, RSV, ATYP, BND.ADDR, BND.PORT */
    function Bytes(): (s: seq<byte>)
      requires Valid()
      ensures |s| == if bound.IPv4? then 10 else 22
    {
      [SERVER_VERSION, code.Code(), 0, if bound.IPv4? then ATYP_IPV4 else ATYP_IPV6] + bound.ip + port
    }
  }

  function FailureReply(code: ReplyCode): (r: Reply)
    ensures r.Valid() && |r.Bytes()| == 10
  {
    Reply(code, IPv4([0, 0, 0, 0]), [0, 0])
  }

  /** A client that reads the layout of section 6 of RFC 1928. */
  function DecodeReply(s: seq<byte>): (r: Option<(byte, Destination, seq<byte>)>) {
    if |s| < 4 || s[0] != 5 || s[2] != 0 then None
    else if s[3] == 1 && |s| == 10 then Some((s[1], IPv4(s[4..8]), s[8..10]))
    else if s[3] == 4 && |s| == 22 then Some((s[1], IPv6(s[4..20]), s[20..22]))
    else None
  }

  lemma ReplyRoundTrip(r: Reply)
    requires r.Valid()
    ensures DecodeReply(r.Bytes()) == Some((r.code.Code(), r.bound, r.port))
  {
    var s := r.Bytes();
    if r.bound.IPv4? {
      assert s[4..8] == r.bound.ip && s[8..10] == r.port;
    } else {
      assert s[4..20] == r.bound.ip && s[20..22] == r.port;
    }
  }

  /** The failures that connect() and SO_ERROR report. */
  datatype Errno =
    | EADDRNOTAVAIL
    | ECONNRESET
    | ECONNREFUSED
    | ENETUNREACH
    | EHOSTUNREACH
    | ETIMEDOUT
    | OtherError

  function CheckConnectionError(e: Errno): (r: ReplyCode)
    ensures r != Succeeded
  {
    match e
    case EADDRNOTAVAIL => AddressNotSupported
    case ECONNRESET => NotAllowed
    case ECONNREFUSED => ConnectionRefused
    case ENETUNREACH => NetworkUnreachable
    case EHOSTUNREACH => HostUnreachable
    case ETIMEDOUT => TtlExpired
    case OtherError => ServerFailure
  }
}
