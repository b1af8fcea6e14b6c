/**
 * The I/O multiplexer's table of src/selector.c: one slot per file descriptor, with
 * the derived data that pselect() needs kept up to date incrementally.
 */
module Selectors {
  import opened Common

  const FD_SETSIZE: nat := 1024
  const FD_UNUSED: int := -1

  /** fd_interest: a set of the two flags OP_READ and OP_WRITE */
  datatype Ops = Ops(read: bool, write: bool) {
    function Or(o: Ops): Ops { Ops(read || o.read, write || o.write) }
    function And(o: Ops): Ops { Ops(read && o.read, write && o.write) }
    function Minus(o: Ops): Ops { Ops(read && !o.read, write && !o.write) }
  }

  const OP_NOOP := Ops(false, false)
  const OP_READ := Ops(true, false)
  const OP_WRITE := Ops(false, true)
  const OP_BOTH := Ops(true, true)

  datatype Item = Item(fd: int, interest: Ops, mask: Ops) {
    predicate Used() { fd != FD_UNUSED }

    /** What select() is asked about. */
    function Effective(): Ops {
      if Used() then interest.And(mask) else OP_NOOP
    }
  }

  const UNUSED_ITEM := Item(FD_UNUSED, OP_NOOP, OP_NOOP)

  function NewItem(fd: int, interest: Ops): Item {
    Item(fd, interest, OP_BOTH)
  }

  /** The five operations on the interest of a registered descriptor. */
  datatype Change =
    | SetInterest(ops: Ops)
    | AddInterest(ops: Ops)
    | RemoveInterest(ops: Ops)
    | UnmaskInterest(ops: Ops)
    | MaskInterest(ops: Ops)

  /** A change to an unused slot has no effect; what the others do to select() is in InterestShows. */
  function Changed(item: Item, change: Change): (r: Item)
    ensures r.fd == item.fd
    ensures !item.Used() ==> r == item
    ensures change.AddInterest? && item.Used() ==>
              (change.ops.read ==> r.Effective().read) && (change.ops.write ==> r.Effective().write)
  {
    if !item.Used() then item
    else
      match change
      case SetInterest(o) => item.(interest := o)
      case AddInterest(o) => item.(interest := item.interest.Or(o), mask := item.mask.Or(o))
      case RemoveInterest(o) => item.(interest := item.interest.Minus(o))
      case UnmaskInterest(o) => item.(mask := item.mask.Or(o))
      case MaskInterest(o) => item.(mask := item.mask.Minus(o))
  }

  datatype Status =
    | Success
    | NoMemory
    | MaxFd
    | InvalidArgs
    | FdInUse
    | OutOfBounds  // the C code would index outside fds: undefined behaviour

  predicate InvalidFd(fd: int) {
    fd < 0 || fd >= FD_SETSIZE
  }

  // ---------------------------------------------------------------------------
  // Derived data, recomputed from the table
  // ---------------------------------------------------------------------------

  ghost function ReadSet(fds: seq<Item>): set<int> {
    set i | 0 <= i < |fds| && fds[i].Effective().read
  }

  ghost function WriteSet(fds: seq<Item>): set<int> {
    set i | 0 <= i < |fds| && fds[i].Effective().write
  }

  /** The largest used descriptor, or 0 when there is none. */
  ghost predicate IsMaxFd(fds: seq<Item>, max: int) {
    && (forall i :: 0 <= i < |fds| && fds[i].Used() ==> i <= max)
    && (max == 0 || (0 < max < |fds| && fds[max].Used()))
  }

  /** A used slot stores its own index; nothing but the mark is ever looked at in an unused one. */
  ghost predicate SlotsConsistent(fds: seq<Item>) {
    forall i :: 0 <= i < |fds| ==>
      if fds[i].Used() then fds[i].fd == i && i < FD_SETSIZE else fds[i] == UNUSED_ITEM
  }

  lemma MaxFdUnique(fds: seq<Item>, a: int, b: int)
    requires IsMaxFd(fds, a) && IsMaxFd(fds, b)
    ensures a == b
  {
    if a > 0 { assert fds[a].Used(); }
    if b > 0 { assert fds[b].Used(); }
  }

  /** Whether select() is asked about an operation after a change, where `on` is whether the change names it. */
  predicate AskedAfter(change: Change, on: bool, interested: bool, unmasked: bool, asked: bool) {
    match change
    case MaskInterest(_) => asked && !on
    case UnmaskInterest(_) => if on then interested else asked
    case AddInterest(_) => asked || on
    case RemoveInterest(_) => asked && !on
    case SetInterest(_) => on && unmasked
  }

  /** The two sets before and after a change to a slot: no other descriptor is affected. */
  ghost predicate SetsFollow(change: Change, item: Item, fd: int,
                             r: set<int>, w: set<int>, r': set<int>, w': set<int>)
  {
    && (fd in r' <==> AskedAfter(change, change.ops.read, item.interest.read, item.mask.read, fd in r))
    && (fd in w' <==> AskedAfter(change, change.ops.write, item.interest.write, item.mask.write, fd in w))
    && r' - {fd} == r - {fd} && w' - {fd} == w - {fd}
  }

  /**
   * What select() is asked after a change, operation by operation: masked and removed ones
   * are left out, unmasked ones are asked for exactly if there is interest, added ones always,
   * and setting replaces the interest under the mask in force. Masking touches no interest,
   * removing and setting touch no mask.
   */
  lemma InterestShows(fds: seq<Item>, fd: int, change: Change)
    requires 0 <= fd < |fds| && fds[fd].Used()
    ensures var after := fds[fd := Changed(fds[fd], change)];
            SetsFollow(change, fds[fd], fd, ReadSet(fds), WriteSet(fds), ReadSet(after), WriteSet(after))
    ensures var item, after := fds[fd], Changed(fds[fd], change);
            && (change.MaskInterest? || change.UnmaskInterest? ==> after.interest == item.interest)
            && (change.RemoveInterest? || change.SetInterest? ==> after.mask == item.mask)
            && (change.SetInterest? ==> after.interest == change.ops)
            && (change.RemoveInterest? ==>
                  && after.interest.read == (item.interest.read && !change.ops.read)
                  && after.interest.write == (item.interest.write && !change.ops.write))
  {
    var after := fds[fd := Changed(fds[fd], change)];
    assert forall i :: 0 <= i < |fds| && i != fd ==> after[i] == fds[i];
  }

  // ---------------------------------------------------------------------------
  // Capacity
  // ---------------------------------------------------------------------------

  function Pow2(n: nat): (r: nat)
    ensures r > 0
  {
    if n == 0 then 1 else 2 * Pow2(n - 1)
  }

  lemma {:induction false} Pow2Monotone(a: nat, b: nat)
    requires a <= b
    ensures Pow2(a) <= Pow2(b)
    decreases b
  {
    if a < b { Pow2Monotone(a, b - 1); }
  }

  /** The size of a table that is made to hold index n. */
  ghost predicate CapacityFor(n: nat, capacity: nat) {
    exists k :: 0 <= k && n < Pow2(k) && (k == 0 || Pow2(k - 1) <= n) && capacity == Min(Pow2(k), FD_SETSIZE) + 1
  }

  /** Below 512 elements the table ends before the last valid descriptor, from 512 on after it. */
  lemma CapacityBelow(n: nat, capacity: nat)
    requires CapacityFor(n, capacity) && n <= FD_SETSIZE
    ensures capacity < FD_SETSIZE <==> n < 512
    ensures n >= 512 ==> capacity == FD_SETSIZE + 1
  {
    var k :| 0 <= k && n < Pow2(k) && (k == 0 || Pow2(k - 1) <= n) && capacity == Min(Pow2(k), FD_SETSIZE) + 1;
    assert Pow2(4) == 16 && Pow2(8) == 16 * Pow2(4) && Pow2(9) == 512 && Pow2(10) == 1024;
    if k >= 10 {
      Pow2Monotone(10, k);
      Pow2Monotone(9, k - 1);
    } else {
      Pow2Monotone(k, 9);
    }
  }

  /**
   * One more than the least power of two above n, where the power is capped at
   * FD_SETSIZE: always room for index n as long as n <= FD_SETSIZE.
   */
  method NextCapacity(n: nat) returns (capacity: nat)
    ensures n <= FD_SETSIZE ==> n < capacity <= FD_SETSIZE + 1
    ensures CapacityFor(n, capacity)
  {
    var bits: nat, tmp, size := 0, n, 1;
    BracketStart(n);
    while tmp != 0
      invariant size == Pow2(bits) && Bracket(tmp, size, n)
      invariant bits > 0 ==> Pow2(bits - 1) <= n
    {
      BracketStep(tmp, size, n);
      tmp, bits, size := tmp / 2, bits + 1, 2 * size;
    }
    BracketEnd(size, n);
    assert n < Pow2(bits) && (bits == 0 || Pow2(bits - 1) <= n);
    capacity := Min(size, FD_SETSIZE) + 1;
  }

  /** After shifting n right until it is tmp, by a factor of size in all. */
  predicate Bracket(tmp: nat, size: nat, n: nat) {
    tmp * size <= n < (tmp + 1) * size
  }

  lemma BracketStart(n: nat)
    ensures Bracket(n, 1, n)
  {
  }

  lemma BracketStep(tmp: nat, size: nat, n: nat)
    requires tmp > 0 && Bracket(tmp, size, n)
    ensures Bracket(tmp / 2, 2 * size, n) && size <= n
  {
    var h := tmp / 2;
    assert h * (2 * size) == (2 * h) * size;
    assert (h + 1) * (2 * size) == (2 * h + 2) * size;
    MulMonotone(2 * h, tmp, size);
    MulMonotone(tmp + 1, 2 * h + 2, size);
    MulMonotone(1, tmp, size);
  }

  lemma BracketEnd(size: nat, n: nat)
    requires Bracket(0, size, n)
    ensures n < size
  {
  }

  lemma MulMonotone(a: nat, b: nat, c: nat)
    requires a <= b
    ensures a * c <= b * c
  {
  }

  // ---------------------------------------------------------------------------
  // The selector
  // ---------------------------------------------------------------------------

  class Selector {
    var fds: seq<Item>
    var maxFd: nat
    var masterR: set<int>
    var masterW: set<int>

    /** The derived data agrees with its recomputation from the table. */
    ghost predicate Valid()
      reads this
    {
      && |fds| <= FD_SETSIZE + 1
      && SlotsConsistent(fds)
      && IsMaxFd(fds, maxFd)
      && masterR == ReadSet(fds)
      && masterW == WriteSet(fds)
    }

    /** What malloc and memset leave: no table yet. */
    constructor ()
      ensures Valid() && fds == []
    {
      fds, maxFd, masterR, masterW := [], 0, {}, {};
    }

    /**
     * selector_new: null when the table cannot be had. The one built by src/proxy.c asks for
     * 1024 elements and gets 1025, a slot for every valid descriptor.
     */
    static method Create(initialElements: nat, memoryOk: bool) returns (s: Selector?)
      ensures s == null <==> initialElements > FD_SETSIZE || !memoryOk
      ensures s != null ==>
                && fresh(s) && s.Valid() && initialElements < |s.fds| && CapacityFor(initialElements, |s.fds|)
                && (forall i :: 0 <= i < |s.fds| ==> s.fds[i] == UNUSED_ITEM)
                && (initialElements == FD_SETSIZE ==> |s.fds| == FD_SETSIZE + 1)
    {
      var table := new Selector();
      var status := table.EnsureCapacity(initialElements, memoryOk);
      s := if status == Success then table else null;
    }

    /**
     * Registering the descriptor just past a new table leaves the array if and only if fewer
     * than 512 elements were asked for; for a larger table that number is no valid descriptor.
     */
    static method RegisterPastTheTable(initialElements: nat, interest: Ops) returns (status: Status)
      requires initialElements <= FD_SETSIZE
      ensures status == OutOfBounds <==> initialElements < 512
      ensures initialElements >= 512 ==> status == InvalidArgs
    {
      var s := Create(initialElements, true);
      CapacityBelow(initialElements, |s.fds|);
      status := s.Register(|s.fds|, interest, true);
    }

    /** `memoryOk` is whether calloc or realloc succeeds. */
    method EnsureCapacity(n: nat, memoryOk: bool) returns (status: Status)
      requires Valid()
      modifies this`fds
      ensures Valid()
      ensures status == if n < old(|fds|) then Success
                        else if n > FD_SETSIZE then MaxFd
                        else if memoryOk then Success else NoMemory
      ensures status == Success ==> n < |fds|
      ensures status == Success && n >= old(|fds|) ==> CapacityFor(n, |fds|)
      ensures |fds| >= old(|fds|) && fds[..old(|fds|)] == old(fds)
      ensures forall i :: old(|fds|) <= i < |fds| ==> fds[i] == UNUSED_ITEM
      ensures n < old(|fds|) || status != Success ==> fds == old(fds)
    {
      if n < |fds| {
        status := Success;
      } else if n > FD_SETSIZE {
        status := MaxFd;
      } else {
        var newSize := NextCapacity(n);
        if !memoryOk {
          status := NoMemory;
        } else {
          status := Success;
          ItemsInit(newSize);
        }
      }
    }

    /** The slots that a larger table gains are marked unused one by one. */
    method ItemsInit(newSize: nat)
      requires Valid() && |fds| <= newSize <= FD_SETSIZE + 1
      modifies this`fds
      ensures Valid() && |fds| == newSize && fds[..old(|fds|)] == old(fds)
      ensures forall i :: old(|fds|) <= i < |fds| ==> fds[i] == UNUSED_ITEM
    {
      while |fds| < newSize
        invariant old(|fds|) <= |fds| <= newSize && fds[..old(|fds|)] == old(fds)
        invariant forall i :: old(|fds|) <= i < |fds| ==> fds[i] == UNUSED_ITEM
      {
        fds := fds + [UNUSED_ITEM];
      }
      assert forall i :: 0 <= i < old(|fds|) ==> fds[i] == old(fds)[i];
      assert ReadSet(fds) == ReadSet(old(fds));
      assert WriteSet(fds) == WriteSet(old(fds));
    }

    /** The largest descriptor among the slots up to the previous maximum. */
    method ItemsMaxFd() returns (max: nat)
      requires SlotsConsistent(fds)
      requires forall i :: 0 <= i < |fds| && fds[i].Used() ==> i <= maxFd
      requires maxFd < |fds| || maxFd == 0
      ensures IsMaxFd(fds, max)
    {
      max := 0;
      var i := 0;
      while i <= maxFd && i < |fds|
        invariant 0 <= i <= maxFd + 1
        invariant forall j :: 0 <= j < i && j < |fds| && fds[j].Used() ==> j <= max
        invariant max == 0 || (0 < max < |fds| && fds[max].Used())
      {
        if fds[i].Used() && fds[i].fd > max {
          max := fds[i].fd;
        }
        i := i + 1;
      }
    }

    /** items_update_fdset_for_fd, for a slot whose descriptor is `fd` */
    method UpdateFdSets(fd: int, item: Item)
      modifies this`masterR, this`masterW
      ensures masterR == old(masterR) - {fd} + (if item.Effective().read then {fd} else {})
      ensures masterW == old(masterW) - {fd} + (if item.Effective().write then {fd} else {})
    {
      masterR, masterW := masterR - {fd}, masterW - {fd};
      if item.Used() {
        if item.interest.And(item.mask).read {
          masterR := masterR + {fd};
        }
        if item.interest.And(item.mask).write {
          masterW := masterW + {fd};
        }
      }
    }

    /** Where C would leave the array: the test before growing is `>` and not `>=`. */
    method Register(fd: int, interest: Ops, memoryOk: bool) returns (status: Status)
      requires Valid()
      modifies this
      ensures Valid()
      ensures status == OutOfBounds <==> !InvalidFd(fd) && fd == old(|fds|)
      ensures status == InvalidArgs <==> InvalidFd(fd)
      ensures status == FdInUse <==> 0 <= fd < old(|fds|) && !InvalidFd(fd) && old(fds)[fd].Used()
      ensures status == NoMemory <==> !InvalidFd(fd) && fd > old(|fds|) && !memoryOk
      ensures status != MaxFd
      ensures |fds| >= old(|fds|)
      ensures status == Success ==>
                && fd < |fds| && fds[fd] == NewItem(fd, interest)
                && (forall i :: 0 <= i < |fds| && i != fd ==>
                      fds[i] == if i < old(|fds|) then old(fds)[i] else UNUSED_ITEM)
      ensures status != Success ==> fds == old(fds)
    {
      if InvalidFd(fd) {
        return InvalidArgs;
      }
      if fd > |fds| {
        status := EnsureCapacity(fd, memoryOk);
        if status != Success {
          return;
        }
      }
      if fd == |fds| {
        return OutOfBounds;
      }
      if fds[fd].Used() {
        return FdInUse;
      }
      ghost var before := fds;
      fds := fds[fd := NewItem(fd, interest)];
      if fd > maxFd {
        maxFd := fd;
      }
      UpdateFdSets(fd, fds[fd]);
      SetsAfterUpdate(before, fd, fds[fd]);
      status := Success;
    }

    method Unregister(fd: int) returns (status: Status)
      requires Valid()
      modifies this
      ensures Valid()
      ensures status == OutOfBounds <==> !InvalidFd(fd) && fd >= old(|fds|)
      ensures status == Success <==> 0 <= fd < old(|fds|) && old(fds)[fd].Used()
      ensures status in {Success, InvalidArgs, OutOfBounds}
      ensures fds == if status == Success then old(fds)[fd := UNUSED_ITEM] else old(fds)
    {
      if InvalidFd(fd) {
        return InvalidArgs;
      }
      if fd >= |fds| {
        return OutOfBounds;
      }
      if !fds[fd].Used() {
        return InvalidArgs;
      }
      UpdateFdSets(fd, fds[fd].(interest := OP_NOOP));
      SetsAfterUpdate(fds, fd, UNUSED_ITEM);
      fds := fds[fd := UNUSED_ITEM];
      maxFd := ItemsMaxFd();
      status := Success;
    }

    /** The five interest operations, which share everything but the change itself. */
    method ChangeInterest(fd: int, change: Change) returns (status: Status)
      requires Valid()
      modifies this`fds, this`masterR, this`masterW
      ensures Valid()
      ensures status == OutOfBounds <==> !InvalidFd(fd) && fd >= old(|fds|)
      ensures status == Success <==> 0 <= fd < old(|fds|) && old(fds)[fd].Used()
      ensures status in {Success, InvalidArgs, OutOfBounds}
      ensures fds == if status == Success then old(fds)[fd := Changed(old(fds)[fd], change)] else old(fds)
      ensures status == Success ==>
                SetsFollow(change, old(fds)[fd], fd, old(masterR), old(masterW), masterR, masterW)
    {
      if InvalidFd(fd) {
        return InvalidArgs;
      }
      if fd >= |fds| {
        return OutOfBounds;
      }
      if !fds[fd].Used() {
        return InvalidArgs;
      }
      ghost var before := fds;
      fds := fds[fd := Changed(fds[fd], change)];
      UpdateFdSets(fd, fds[fd]);
      SetsAfterUpdate(before, fd, fds[fd]);
      InterestShows(before, fd, change);
      status := Success;
    }
  }

  /** Changing one slot changes the recomputed sets at that descriptor only. */
  lemma SetsAfterUpdate(fds: seq<Item>, fd: int, item: Item)
    requires 0 <= fd < |fds|
    ensures ReadSet(fds[fd := item]) == ReadSet(fds) - {fd} + (if item.Effective().read then {fd} else {})
    ensures WriteSet(fds[fd := item]) == WriteSet(fds) - {fd} + (if item.Effective().write then {fd} else {})
  {
  }
}
