/**
 * The linear byte buffer of src/buffer.c: a read and a write pointer over a fixed
 * array, rewound to the start of the array each time it becomes empty.
 */
module Buffers {
  import opened Common

  /**
   * A buffer as a value: `contents` is the unread window and `start` the offset of
   * the read pointer. `start` matters to callers, because the space before it is
   * not reusable until the buffer is rewound or compacted.
   */
  datatype Buf = Buf(cap: nat, start: nat, contents: seq<byte>) {

    /** R <= W <= limit, and an empty buffer is rewound. */
    predicate Valid() {
      && start + |contents| <= cap
      && (contents == [] ==> start == 0)
    }

    function Space(): (n: int) {
      cap - start - |contents|
    }

    predicate CanWrite() {
      Space() > 0
    }

    predicate CanRead() {
      contents != []
    }

    /** Bytes copied at the write pointer, which then advances past them. */
    function Append(s: seq<byte>): (b: Buf)
      requires Valid() && |s| <= Space()
      ensures b.Valid() && b.cap == cap && b.contents == contents + s
    {
      Buf(cap, start, contents + s)
    }

    /** buffer_write: a byte offered to a full buffer is dropped. */
    function Put(x: byte): (b: Buf)
      requires Valid()
      ensures b.Valid() && b.cap == cap
      ensures b.contents == if CanWrite() then contents + [x] else contents
    {
      if CanWrite() then Append([x]) else this
    }

    /** buffer_read_adv: the read pointer advances; an emptied buffer is rewound. */
    function Advance(n: nat): (b: Buf)
      requires Valid() && n <= |contents|
      ensures b.Valid() && b.cap == cap && b.contents == contents[n..]
      ensures n == |contents| ==> b.Space() == cap
    {
      if n == |contents| then Buf(cap, 0, []) else Buf(cap, start + n, contents[n..])
    }

    /** buffer_compact: all the unused capacity becomes writable again. */
    function Compact(): (b: Buf)
      requires Valid()
      ensures b.Valid() && b.cap == cap && b.contents == contents
      ensures b.Space() == cap - |contents|
    {
      Buf(cap, 0, contents)
    }
  }

  function EmptyBuf(cap: nat): (b: Buf)
    ensures b.Valid() && b.Space() == cap && !b.CanRead()
  {
    Buf(cap, 0, [])
  }

  /** What carries the back-pressure argument: a full buffer always holds something to send. */
  lemma FullIsNotEmpty(b: Buf)
    requires b.Valid() && b.cap > 0 && !b.CanWrite()
    ensures b.CanRead()
  {
  }

  // ---------------------------------------------------------------------------
  // Runs of buffer operations against a plain byte queue
  // ---------------------------------------------------------------------------

  datatype Op =
    | WriteBytes(bytes: seq<byte>)  // copy at buffer_write_ptr, then buffer_write_adv
    | WriteByte(b: byte)            // buffer_write
    | ReadBytes(count: int)         // copy from buffer_read_ptr, then buffer_read_adv
    | ReadByte                      // buffer_read
    | Compaction                    // buffer_compact

  /** What callers of src/buffer.c must respect: the asserts in the two _adv functions. */
  predicate Allowed(b: Buf, op: Op) {
    match op
    case WriteBytes(s) => |s| <= b.Space()
    case ReadBytes(n) => n <= |b.contents|
    case _ => true
  }

  /** Bytes that an operation adds to the buffer. */
  function Accepted(b: Buf, op: Op): seq<byte> {
    match op
    case WriteBytes(s) => s
    case WriteByte(x) => if b.CanWrite() then [x] else []
    case _ => []
  }

  /** Bytes that an operation hands to the reader. */
  function Delivered(b: Buf, op: Op): seq<byte>
    requires b.Valid() && Allowed(b, op)
  {
    match op
    case ReadBytes(n) => if n > -1 then b.contents[..n] else []
    case ReadByte => if b.CanRead() then b.contents[..1] else []
    case _ => []
  }

  function Apply(b: Buf, op: Op): (r: Buf)
    requires b.Valid() && Allowed(b, op)
    ensures r.Valid() && r.cap == b.cap
  {
    match op
    case WriteBytes(s) => b.Append(s)
    case WriteByte(x) => b.Put(x)
    case ReadBytes(n) => if n > -1 then b.Advance(n) else b
    case ReadByte => if b.CanRead() then b.Advance(1) else b
    case Compaction => b.Compact()
  }

  datatype Trace = Trace(buf: Buf, accepted: seq<byte>, delivered: seq<byte>)

  predicate AllAllowed(b: Buf, ops: seq<Op>)
    requires b.Valid()
    decreases |ops|
  {
    ops == [] || (Allowed(b, ops[0]) && AllAllowed(Apply(b, ops[0]), ops[1..]))
  }

  function RunOps(t: Trace, ops: seq<Op>): Trace
    requires t.buf.Valid() && AllAllowed(t.buf, ops)
    decreases |ops|
  {
    if ops == [] then t
    else
      RunOps(Trace(Apply(t.buf, ops[0]),
                   t.accepted + Accepted(t.buf, ops[0]),
                   t.delivered + Delivered(t.buf, ops[0])), ops[1..])
  }

  /**
   * First in, first out, for every sequence of operations on a new buffer: what was
   * delivered, followed by what the buffer holds, is exactly what was accepted; and
   * the buffer is rewound whenever it is empty.
   */
  lemma FifoRefinement(cap: nat, ops: seq<Op>)
    requires AllAllowed(EmptyBuf(cap), ops)
    ensures var t := RunOps(Trace(EmptyBuf(cap), [], []), ops);
            && t.delivered + t.buf.contents == t.accepted
            && t.buf.Valid() && t.buf.cap == cap
            && (!t.buf.CanRead() ==> t.buf.Space() == cap)
  {
    FifoStep(Trace(EmptyBuf(cap), [], []), ops);
  }

  lemma OpConserves(b: Buf, op: Op)
    requires b.Valid() && Allowed(b, op)
    ensures Delivered(b, op) + Apply(b, op).contents == b.contents + Accepted(b, op)
  {
  }

  lemma Regroup(a: seq<byte>, b: seq<byte>, c: seq<byte>, d: seq<byte>, e: seq<byte>)
    requires b + c == d + e
    ensures (a + b) + c == (a + d) + e
  {
    Associate(a, b, c);
    Associate(a, d, e);
  }

  lemma {:induction false} FifoStep(t: Trace, ops: seq<Op>)
    requires t.buf.Valid() && AllAllowed(t.buf, ops)
    requires t.delivered + t.buf.contents == t.accepted
    ensures var r := RunOps(t, ops);
            && r.delivered + r.buf.contents == r.accepted
            && r.buf.Valid() && r.buf.cap == t.buf.cap
    decreases |ops|
  {
    if ops != [] {
      hide Apply, Delivered, Accepted, Allowed;
      var op := ops[0];
      OpConserves(t.buf, op);
      var b, into, out := Apply(t.buf, op), Accepted(t.buf, op), Delivered(t.buf, op);
      Regroup(t.delivered, out, b.contents, t.buf.contents, into);
      FifoStep(Trace(b, t.accepted + into, t.delivered + out), ops[1..]);
    }
  }

  // ---------------------------------------------------------------------------
  // The buffer itself
  // ---------------------------------------------------------------------------

  class Buffer {
    const data: array<byte>
    var read: nat
    var write: nat

    ghost predicate InBounds()
      reads this
    {
      read <= write <= data.Length
    }

    ghost predicate Valid()
      reads this
    {
      InBounds() && (read == write ==> read == 0)
    }

    ghost function View(): (b: Buf)
      requires Valid()
      reads this, data
      ensures b.Valid()
    {
      Buf(data.Length, read, data[read..write])
    }

    /** buffer_init over a caller's array */
    constructor (raw: array<byte>)
      ensures data == raw && Valid() && View() == EmptyBuf(raw.Length)
    {
      data := raw;
      read, write := 0, 0;
    }

    /** A copy of another buffer's pointers over the same array, as pop3_parse makes. */
    constructor Alias(other: Buffer)
      requires other.Valid()
      ensures data == other.data && Valid() && View() == other.View()
    {
      data := other.data;
      read, write := other.read, other.write;
    }

    predicate CanWrite()
      requires Valid()
      reads this, data
      ensures CanWrite() == View().CanWrite()
    {
      data.Length - write > 0
    }

    predicate CanRead()
      requires Valid()
      reads this, data
      ensures CanRead() == View().CanRead()
    {
      write - read > 0
    }

    /** The size that buffer_write_ptr reports. */
    function WriteSpace(): (n: nat)
      requires Valid()
      reads this, data
      ensures n == View().Space()
    {
      data.Length - write
    }

    /** The window that buffer_read_ptr exposes. */
    function ReadWindow(): (s: seq<byte>)
      requires Valid()
      reads this, data
      ensures s == View().contents
    {
      data[read..write]
    }

    /** memcpy to buffer_write_ptr, then buffer_write_adv. */
    method Append(s: seq<byte>)
      requires Valid() && |s| <= View().Space()
      modifies this`write, data
      ensures Valid() && View() == old(View()).Append(s)
    {
      forall i | 0 <= i < |s| { data[write + i] := s[i]; }
      write := write + |s|;
      assert data[old(write)..write] == s;
      assert data[read..write] == data[read..old(write)] + data[old(write)..write];
      assert data[read..old(write)] == old(data[read..write]);
    }

    method ReadAdv(bytes: int)
      requires Valid() && bytes <= |View().contents|
      modifies this`read, this`write
      ensures Valid() && View() == if bytes > -1 then old(View()).Advance(bytes) else old(View())
    {
      if bytes > -1 {
        read := read + bytes;
        if read == write {
          Compact();  // the cheap case: only the pointers move
        }
      }
    }

    /** buffer_read: zero when there is nothing to read */
    method Read() returns (x: byte)
      requires Valid()
      modifies this`read, this`write
      ensures Valid()
      ensures if old(View()).CanRead()
              then x == old(View()).contents[0] && View() == old(View()).Advance(1)
              else x == 0 && View() == old(View())
    {
      if CanRead() {
        x := data[read];
        ReadAdv(1);
      } else {
        x := 0;
      }
    }

    method Write(x: byte)
      requires Valid()
      modifies this`write, data
      ensures Valid() && View() == old(View()).Put(x)
    {
      if CanWrite() {
        Append([x]);
      }
    }

    /** Total on any pointers in bounds; the array is written only when there is something to move. */
    method Compact()
      requires InBounds()
      modifies this`read, this`write, if read < write then {data} else {}
      ensures Valid() && View() == Buf(data.Length, 0, old(data[read..write]))
    {
      if read == 0 {
        // nothing to do
      } else if read == write {
        read, write := 0, 0;
      } else {
        var n := write - read;
        forall i | 0 <= i < n { data[i] := data[read + i]; }
        read, write := 0, n;
      }
    }
  }
}
