/** The bridge between sockets and buffers of src/socketsIO.c. */
module SocketsIO {
  import opened Common
  import opened Buffers

  const IO_SIZE: nat := 2048

  /**
   * What a read() meets: the bytes the peer has sent so far (none left means end of
   * file), nothing yet, or an error other than EAGAIN.
   */
  datatype Incoming = Arrived(bytes: seq<byte>) | ReadAgain | ReadError

  /** What a send() does: accept up to n bytes, accept nothing yet, or fail. */
  datatype Outgoing = Taken(n: nat) | SendAgain | SendError

  /** A ssize_t result together with errno. */
  datatype Count = Bytes(n: nat) | Again | Fatal

  /** checkEOF: a count of zero is taken for end of file, whatever produced it. */
  predicate CheckEOF(count: Count) {
    count.Fatal? || count == Bytes(0)
  }

  /** The bytes that a read with the given room returns; none when there is no room. */
  function ReceivedBytes(b: Buf, incoming: Incoming): (s: seq<byte>)
    requires b.Valid()
    ensures |s| <= b.Space()
  {
    match incoming
    case Arrived(bytes) => bytes[..Min(|bytes|, Min(b.Space(), IO_SIZE))]
    case _ => []
  }

  function ReadCount(b: Buf, incoming: Incoming): Count
    requires b.Valid()
  {
    match incoming
    case Arrived(_) => Bytes(|ReceivedBytes(b, incoming)|)
    case ReadAgain => Again
    case ReadError => Fatal
  }

  function ReadFrom(b: Buf, incoming: Incoming): (r: Buf)
    requires b.Valid()
    ensures r.Valid() && r.cap == b.cap && r.contents == b.contents + ReceivedBytes(b, incoming)
  {
    b.Append(ReceivedBytes(b, incoming))
  }

  /** The bytes that a send of the whole window passes to the kernel. */
  function SentBytes(b: Buf, out: Outgoing): (s: seq<byte>)
    ensures s <= b.contents
  {
    match out
    case Taken(n) => b.contents[..Min(n, |b.contents|)]
    case _ => []
  }

  function WriteTo(b: Buf, out: Outgoing): (r: Buf)
    requires b.Valid()
    ensures r.Valid() && r.cap == b.cap && SentBytes(b, out) + r.contents == b.contents
  {
    if out.Taken? then b.Advance(|SentBytes(b, out)|) else b
  }

  /** The ssize_t that write_to_sock returns: what is left, or -1 on any error. */
  function BytesLeft(b: Buf, out: Outgoing): (n: int)
    requires b.Valid()
    ensures -1 <= n <= |b.contents|
  {
    if out.Taken? then |b.contents| - |SentBytes(b, out)| else -1
  }

  /**
   * With something arrived, a read is taken for end of file exactly when the buffer
   * has no room: then read() is asked for zero bytes.
   */
  lemma ZeroSizedReadLooksLikeEOF(b: Buf, bytes: seq<byte>)
    requires b.Valid() && bytes != []
    ensures CheckEOF(ReadCount(b, Arrived(bytes))) <==> !b.CanWrite()
  {
    assert |ReceivedBytes(b, Arrived(bytes))| == Min(|bytes|, Min(b.Space(), IO_SIZE));
  }

  /**
   * What is taken for the end of a stream: an error other than EAGAIN, a stream that has
   * ended, and a read into no room; never a read that finds nothing yet.
   */
  lemma EndOfFileExactly(b: Buf, incoming: Incoming)
    requires b.Valid()
    ensures CheckEOF(ReadCount(b, incoming)) <==>
            incoming.ReadError? || (incoming.Arrived? && (incoming.bytes == [] || !b.CanWrite()))
  {
    if incoming.Arrived? && incoming.bytes != [] { ZeroSizedReadLooksLikeEOF(b, incoming.bytes); }
  }

  /** How many of the first bytes that arrived a read takes. */
  lemma ReceivedExactly(b: Buf, bytes: seq<byte>)
    requires b.Valid()
    ensures var got := ReceivedBytes(b, Arrived(bytes));
            && got <= bytes && (got == bytes || |got| == b.Space() || |got| == 2048)
            && |got| <= b.Space() && |got| <= 2048
  {
  }

  /** How many of the first bytes at hand a send passes on, and what stays. */
  lemma SentExactly(b: Buf, n: nat)
    requires b.Valid()
    ensures SentBytes(b, Taken(n)) + WriteTo(b, Taken(n)).contents == b.contents
    ensures |SentBytes(b, Taken(n))| == (if n < |b.contents| then n else |b.contents|)
    ensures BytesLeft(b, Taken(n)) == |WriteTo(b, Taken(n)).contents| == |b.contents| - |SentBytes(b, Taken(n))|
    ensures WriteTo(b, SendAgain) == b == WriteTo(b, SendError)
    ensures BytesLeft(b, SendAgain) == -1 == BytesLeft(b, SendError)
  {
    var sent, left := SentBytes(b, Taken(n)), WriteTo(b, Taken(n)).contents;
    assert |sent + left| == |sent| + |left|;
  }

  method ReadFromSock(b: Buffer, incoming: Incoming) returns (count: Count)
    requires b.Valid()
    modifies b`write, b.data
    ensures b.Valid() && b.View() == ReadFrom(old(b.View()), incoming)
    ensures count == ReadCount(old(b.View()), incoming)
  {
    match incoming
    case Arrived(bytes) =>
      var size := Min(b.WriteSpace(), IO_SIZE);
      var received := bytes[..Min(|bytes|, size)];
      if |received| > 0 {
        b.Append(received);
      }
      count := Bytes(|received|);
    case ReadAgain =>
      count := Again;
    case ReadError =>
      count := Fatal;
  }

  method WriteToSock(b: Buffer, out: Outgoing) returns (left: int)
    requires b.Valid()
    modifies b`read, b`write
    ensures b.Valid() && b.View() == WriteTo(old(b.View()), out)
    ensures left == BytesLeft(old(b.View()), out)
  {
    var size := |b.ReadWindow()|;
    if !out.Taken? {
      return -1;
    }
    var sent := Min(out.n, size);
    b.ReadAdv(sent);
    left := size - sent;
  }
}
