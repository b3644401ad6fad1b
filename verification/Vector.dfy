/** The growable buffer: a C array reached through realloc and memmove, proved to be a sequence. */
module Vector {

  const SIZE_MAX := 0xFFFF_FFFF_FFFF_FFFF
  const SIZE_COUNT := 0x1_0000_0000_0000_0000
  const HALF_COUNT := 0x8000_0000_0000_0000
  const MIN_CAPACITY := 16

  datatype Error = LengthError | BadAlloc | ContainerEmpty | OutOfRange | InvalidIterator | EndBeforeBegin | OutsideBuffer

  datatype Result<+R> = Ok(value: R) | Fail(error: Error)

  // ----- growth

  /** The capacity _auto_capacity asks for; doubling is done in a machine word. */
  function Grown(capacity: nat, needed: nat): nat {
    if needed <= capacity then capacity
    else if needed < MIN_CAPACITY then MIN_CAPACITY
    else
      var doubled := capacity * 2 % SIZE_COUNT;
      if needed < doubled then doubled else needed
  }

  predicate TooLong(elemSize: nat, capacity: nat)
    requires 0 < elemSize
  {
    SIZE_MAX / elemSize < capacity
  }

  /** Sizes, how many elements reallocations have carried, and how many were pushed or asked room for. */
  datatype Shape = Shape(size: nat, capacity: nat, carried: nat, pushes: nat, asked: nat)

  datatype Op = Push(outOfMemory: bool) | Remove(count: nat) | Reserve(needed: nat, outOfMemory: bool) | Reset

  const EMPTY := Shape(0, 0, 0, 0, 0)

  function Reallocated(s: Shape, needed: nat): Shape {
    var capacity := Grown(s.capacity, needed);
    if capacity == s.capacity then s else s.(capacity := capacity, carried := s.carried + s.capacity)
  }

  /** Whether making room for `needed` elements throws. */
  predicate Refused(elemSize: nat, s: Shape, needed: nat, outOfMemory: bool)
    requires 0 < elemSize
  {
    s.capacity < needed && (TooLong(elemSize, Grown(s.capacity, needed)) || outOfMemory)
  }

  /** Pop, both erases and clear remove elements; a call that throws changes nothing. */
  function Apply(elemSize: nat, s: Shape, op: Op): Shape
    requires 0 < elemSize
  {
    match op
    case Push(oom) =>
      if Refused(elemSize, s, s.size + 1, oom) then s
      else Reallocated(s, s.size + 1).(size := s.size + 1, pushes := s.pushes + 1)
    case Remove(count) => if count <= s.size then s.(size := s.size - count) else s
    case Reserve(needed, oom) =>
      if Refused(elemSize, s, needed, oom) then s else Reallocated(s, needed).(asked := s.asked + needed)
    case Reset => s.(size := 0, capacity := 0)
  }

  function Run(elemSize: nat, ops: seq<Op>): Shape
    requires 0 < elemSize
  {
    if ops == [] then EMPTY else Apply(elemSize, Run(elemSize, ops[..|ops| - 1]), ops[|ops| - 1])
  }

  predicate Sized(elemSize: nat, s: Shape) {
    s.size <= s.capacity && (s.capacity == 0 || MIN_CAPACITY <= s.capacity) && s.capacity * elemSize <= SIZE_MAX
  }

  lemma {:induction false} Fits(elemSize: nat, capacity: nat)
    requires 0 < elemSize && !TooLong(elemSize, capacity)
    ensures capacity * elemSize <= SIZE_MAX
  {
    var q := SIZE_MAX / elemSize;
    assert q * elemSize <= SIZE_MAX;
    assert capacity * elemSize <= q * elemSize;
  }

  /** The limit is exact: a capacity is refused if and only if its bytes cannot be counted in a machine word. */
  lemma {:induction false} TooLongIff(elemSize: nat, capacity: nat)
    requires 0 < elemSize
    ensures TooLong(elemSize, capacity) <==> SIZE_MAX < capacity * elemSize
  {
    if !TooLong(elemSize, capacity) {
      Fits(elemSize, capacity);
    } else {
      var q := SIZE_MAX / elemSize;
      assert SIZE_MAX < (q + 1) * elemSize;
      assert (q + 1) * elemSize <= capacity * elemSize;
    }
  }

  /** With memory to be had, a push is refused if and only if the vector is full and twice its capacity is too
      long, though one more element might still fit. Elements of one byte are the exception, where doubling wraps. */
  lemma PushRefusedIff(elemSize: nat, s: Shape)
    requires 2 <= elemSize && Sized(elemSize, s)
    ensures Refused(elemSize, s, s.size + 1, false) <==>
      s.size == s.capacity && SIZE_MAX < (if s.capacity == 0 then 16 else 2 * s.capacity) * elemSize
  {
    Twice(elemSize, s.capacity);
    FullGrows(s.capacity);
    TooLongIff(elemSize, Grown(s.capacity, s.capacity + 1));
  }

  lemma {:induction false} Twice(elemSize: nat, capacity: nat)
    requires 2 <= elemSize
    ensures 2 * capacity <= capacity * elemSize
  {
  }

  /** A full vector doubles, from nothing to 16. */
  lemma {:induction false} FullGrows(capacity: nat)
    requires capacity == 0 || MIN_CAPACITY <= capacity
    ensures 2 * capacity <= SIZE_MAX ==> Grown(capacity, capacity + 1) == if capacity == 0 then 16 else 2 * capacity
  {
  }

  /** Making room keeps the sizes right even if doubling wraps. */
  lemma {:induction false} RoomIsSized(elemSize: nat, s: Shape, needed: nat)
    requires 0 < elemSize && Sized(elemSize, s) && !Refused(elemSize, s, needed, false)
    ensures Sized(elemSize, Reallocated(s, needed)) && needed <= Reallocated(s, needed).capacity
  {
    if s.capacity < needed {
      Fits(elemSize, Grown(s.capacity, needed));
    }
  }

  lemma {:induction false} RunSized(elemSize: nat, ops: seq<Op>)
    requires 0 < elemSize
    ensures Sized(elemSize, Run(elemSize, ops))
  {
    if ops != [] {
      var s, op := Run(elemSize, ops[..|ops| - 1]), ops[|ops| - 1];
      RunSized(elemSize, ops[..|ops| - 1]);
      if op.Push? && !Refused(elemSize, s, s.size + 1, op.outOfMemory) {
        RoomIsSized(elemSize, s, s.size + 1);
      } else if op.Reserve? && !Refused(elemSize, s, op.needed, op.outOfMemory) {
        RoomIsSized(elemSize, s, op.needed);
      }
    }
  }

  // ----- the cost of growing

  /** Each pushed element and each element of room asked for brings 2 to pay for carrying. What is left covers
      twice the elements that are not in the newest half of the buffer, so the next growth is paid for. */
  predicate Paid(s: Shape) {
    var left := 2 * (s.pushes + s.asked) - s.carried;
    var newest := if s.capacity <= MIN_CAPACITY then 0 else s.capacity - MIN_CAPACITY;
    0 <= left && s.size <= s.capacity && 2 * s.size - newest <= left
  }

  lemma {:induction false} ApplyPaid(elemSize: nat, s: Shape, op: Op)
    requires 0 < elemSize && Paid(s) && (s.capacity == 0 || MIN_CAPACITY <= s.capacity)
    requires Apply(elemSize, s, op).capacity <= HALF_COUNT
    ensures Paid(Apply(elemSize, s, op))
  {
    if op.Push? && !Refused(elemSize, s, s.size + 1, op.outOfMemory) {
      PushPaid(s);
    } else if op.Reserve? && !Refused(elemSize, s, op.needed, op.outOfMemory) {
      ReservePaid(s, op.needed);
    }
  }

  /** Growth that ends below the half has not wrapped. */
  lemma {:induction false} Doubled(capacity: nat, needed: nat)
    requires capacity < needed && Grown(capacity, needed) <= HALF_COUNT
    ensures Grown(capacity, needed) ==
      if needed < MIN_CAPACITY then MIN_CAPACITY else if needed < 2 * capacity then 2 * capacity else needed
  {
  }

  lemma {:induction false} PushPaid(s: Shape)
    requires Paid(s) && (s.capacity == 0 || MIN_CAPACITY <= s.capacity) && Grown(s.capacity, s.size + 1) <= HALF_COUNT
    ensures Paid(Reallocated(s, s.size + 1).(size := s.size + 1, pushes := s.pushes + 1))
  {
    if s.size == s.capacity {
      Doubled(s.capacity, s.size + 1);
    }
  }

  lemma {:induction false} ReservePaid(s: Shape, needed: nat)
    requires Paid(s) && (s.capacity == 0 || MIN_CAPACITY <= s.capacity) && Grown(s.capacity, needed) <= HALF_COUNT
    ensures Paid(Reallocated(s, needed).(asked := s.asked + needed))
  {
    if s.capacity < needed {
      Doubled(s.capacity, needed);
    }
  }

  /** At no point of the run has the capacity reached the half of the address space that doubling wraps at. */
  predicate BelowHalf(elemSize: nat, ops: seq<Op>)
    requires 0 < elemSize
  {
    forall n :: 0 <= n <= |ops| ==> Run(elemSize, ops[..n]).capacity <= HALF_COUNT
  }

  lemma {:induction false} RunPaid(elemSize: nat, ops: seq<Op>)
    requires 0 < elemSize && BelowHalf(elemSize, ops)
    ensures Paid(Run(elemSize, ops))
  {
    if ops != [] {
      var n := |ops| - 1;
      assert forall m :: 0 <= m <= n ==> ops[..n][..m] == ops[..m];
      RunPaid(elemSize, ops[..n]);
      RunSized(elemSize, ops[..n]);
      assert ops[..|ops|] == ops;
      ApplyPaid(elemSize, Run(elemSize, ops[..n]), ops[n]);
    }
  }

  lemma {:induction false} NeverWraps(elemSize: nat, capacity: nat)
    requires 2 <= elemSize && capacity * elemSize <= SIZE_MAX
    ensures capacity <= HALF_COUNT
  {
    assert capacity * 2 <= capacity * elemSize;
  }

  /** Over any run of pushes, removals, reserves and resets, reallocation carries at most twice as many elements
      as were pushed or asked for. It needs that doubling has not wrapped, which only a vector of single bytes
      could reach. */
  lemma Amortized(elemSize: nat, ops: seq<Op>)
    requires 0 < elemSize
    ensures var s := Run(elemSize, ops);
      elemSize != 1 || BelowHalf(elemSize, ops) ==> s.carried <= 2 * (s.pushes + s.asked)
  {
    if elemSize != 1 {
      forall n | 0 <= n <= |ops|
        ensures Run(elemSize, ops[..n]).capacity <= HALF_COUNT
      {
        RunSized(elemSize, ops[..n]);
        NeverWraps(elemSize, Run(elemSize, ops[..n]).capacity);
      }
    }
    if BelowHalf(elemSize, ops) {
      RunPaid(elemSize, ops);
    }
  }

  /** Only elements come and go: push, pop, erase and clear. */
  predicate Plain(ops: seq<Op>) {
    forall i :: 0 <= i < |ops| ==> ops[i].Push? || ops[i].Remove?
  }

  lemma {:induction false} PlainGrows(elemSize: nat, ops: seq<Op>, n: nat)
    requires 0 < elemSize && Plain(ops) && n <= |ops|
    ensures Run(elemSize, ops[..n]).capacity <= Run(elemSize, ops).capacity && Run(elemSize, ops).asked == 0
    decreases |ops|
  {
    if ops != [] {
      var m := |ops| - 1;
      var k := if n < m then n else m;
      PlainGrows(elemSize, ops[..m], k);
      assert ops[..m][..k] == ops[..k];
      PlainStep(elemSize, Run(elemSize, ops[..m]), ops[m]);
    }
    if n == |ops| {
      assert ops[..n] == ops;
    }
  }

  lemma {:induction false} PlainStep(elemSize: nat, s: Shape, op: Op)
    requires 0 < elemSize && (op.Push? || op.Remove?)
    ensures s.capacity <= Apply(elemSize, s, op).capacity && Apply(elemSize, s, op).asked == s.asked
  {
  }

  /** With pushes and removals alone, the bound is twice the pushes, and it is enough that the final capacity has
      not passed half of the address space. */
  lemma PushesPay(elemSize: nat, ops: seq<Op>)
    requires 0 < elemSize && Plain(ops)
    ensures var s := Run(elemSize, ops);
      elemSize != 1 || s.capacity <= HALF_COUNT ==> s.carried <= 2 * s.pushes
  {
    forall n | 0 <= n <= |ops|
      ensures Run(elemSize, ops[..n]).capacity <= Run(elemSize, ops).capacity
    {
      PlainGrows(elemSize, ops, n);
    }
    PlainGrows(elemSize, ops, 0);
    Amortized(elemSize, ops);
  }

  /** One more, in a machine word. */
  function NextSize(size: nat): (n: nat)
    requires size <= SIZE_MAX
    ensures n == if size == SIZE_MAX then 0 else size + 1
  {
    (size + 1) % SIZE_COUNT
  }

  // ----- the class

  class Vector<T(0)> {
    const elemSize: nat
    var ptr: array?<T>
    var size: nat
    var capacity: nat
    ghost var carried: nat
    ghost var pushes: nat
    ghost var asked: nat

    ghost function View(): Shape
      reads this
    {
      Shape(size, capacity, carried, pushes, asked)
    }

    ghost predicate Valid()
      reads this
    {
      0 < elemSize && Sized(elemSize, View()) && (if ptr == null then capacity == 0 else ptr.Length == capacity)
    }

    ghost function Contents(): (s: seq<T>)
      requires Valid()
      reads this, ptr
      ensures |s| == size
    {
      if ptr == null then [] else ptr[..size]
    }

    constructor (elemSize: nat)
      requires 0 < elemSize
      ensures Valid() && Contents() == [] && View() == EMPTY && ptr == null && this.elemSize == elemSize
    {
      this.elemSize := elemSize;
      ptr, size, capacity, carried, pushes, asked := null, 0, 0, 0, 0, 0;
    }

    /** What realloc does with the old block. */
    static method CarryOver(from: array<T>, to: array<T>)
      requires from != to && from.Length <= to.Length
      modifies to
      ensures forall n :: 0 <= n <= from.Length ==> to[..n] == from[..n]
    {
      var i := 0;
      while i < from.Length
        invariant 0 <= i <= from.Length
        invariant forall j :: 0 <= j < i ==> to[j] == from[j]
      {
        to[i] := from[i];
        i := i + 1;
      }
    }

    /** _mem_reserve: realloc carries the whole old block over. */
    method MemReserve(newCapacity: nat, outOfMemory: bool) returns (r: Result<()>)
      requires Valid() && capacity < newCapacity && MIN_CAPACITY <= newCapacity
      modifies this
      ensures Valid() && size == old(size) && pushes == old(pushes) && asked == old(asked) && Contents() == old(Contents())
      ensures r == if TooLong(elemSize, newCapacity) then Fail(LengthError)
                   else if outOfMemory then Fail(BadAlloc) else Ok(())
      ensures r.Fail? ==> View() == old(View()) && ptr == old(ptr)
      ensures r.Ok? ==> capacity == newCapacity && carried == old(carried) + old(capacity) && ptr != null && fresh(ptr)
    {
      if SIZE_MAX / elemSize < newCapacity {
        return Fail(LengthError);
      }
      if outOfMemory {
        return Fail(BadAlloc);
      }
      Fits(elemSize, newCapacity);
      var block := new T[newCapacity];
      if ptr != null {
        CarryOver(ptr, block);
      }
      ptr := block;
      carried := carried + capacity;
      capacity := newCapacity;
      return Ok(());
    }

    /** _auto_capacity. */
    method AutoCapacity(needed: nat, outOfMemory: bool) returns (r: Result<()>)
      requires Valid() && needed <= SIZE_MAX
      modifies this
      ensures Valid() && Contents() == old(Contents())
      ensures r.Fail? <==> Refused(elemSize, old(View()), needed, outOfMemory)
      ensures View() == if r.Ok? then Reallocated(old(View()), needed) else old(View())
      ensures r.Ok? ==> needed <= capacity
      ensures r.Fail? ==> r.error == if TooLong(elemSize, Grown(capacity, needed)) then LengthError else BadAlloc
      ensures ptr == old(ptr) || fresh(ptr)
    {
      if needed <= capacity {
        return Ok(());
      }
      if needed < MIN_CAPACITY {
        r := MemReserve(MIN_CAPACITY, outOfMemory);
      } else {
        var doubled := capacity * 2 % SIZE_COUNT;
        r := MemReserve(if needed < doubled then doubled else needed, outOfMemory);
      }
    }

    /** reserve. */
    method Reserve(needed: nat, outOfMemory: bool) returns (r: Result<()>)
      requires Valid() && needed <= SIZE_MAX
      modifies this
      ensures Valid() && Contents() == old(Contents()) && (r.Ok? ==> needed <= capacity)
      ensures View() == Apply(elemSize, old(View()), Op.Reserve(needed, outOfMemory))
      ensures r.Fail? <==> Refused(elemSize, old(View()), needed, outOfMemory)
    {
      r := AutoCapacity(needed, outOfMemory);
      if r.Ok? {
        asked := asked + needed;
      }
    }

    /** push_back. With SIZE_MAX elements the new size wraps to 0, no room is made, and the element would be
        put behind the buffer. */
    method PushBack(x: T, outOfMemory: bool) returns (r: Result<()>)
      requires Valid()
      modifies this, ptr
      ensures Valid() && View() == Apply(elemSize, old(View()), Push(outOfMemory))
      ensures r.Fail? <==> Refused(elemSize, old(View()), old(size) + 1, outOfMemory)
      ensures r == Fail(OutsideBuffer) <==> old(size) == SIZE_MAX
      ensures Contents() == if r.Ok? then old(Contents()) + [x] else old(Contents())
      ensures ptr == old(ptr) || fresh(ptr)
    {
      var newSize;
      r, newSize := MakeRoom(outOfMemory);
      if r.Ok? {
        Place(x, newSize);
      }
    }

    /** The part of push_back ahead of the write. */
    method MakeRoom(outOfMemory: bool) returns (r: Result<()>, newSize: nat)
      requires Valid()
      modifies this
      ensures Valid() && Contents() == old(Contents()) && (ptr == old(ptr) || fresh(ptr))
      ensures r.Fail? <==> Refused(elemSize, old(View()), old(size) + 1, outOfMemory)
      ensures r == Fail(OutsideBuffer) <==> old(size) == SIZE_MAX
      ensures View() == if r.Ok? then Reallocated(old(View()), old(size) + 1) else old(View())
      ensures r.Ok? ==> size < capacity && newSize == size + 1
    {
      Sizes(elemSize, size, capacity);
      newSize := NextSize(size);
      r := AutoCapacity(newSize, outOfMemory);
      if r.Ok? && size == capacity {
        NoRoom(elemSize, View());
        r := Fail(OutsideBuffer);
      }
    }

    /** The placement new of push_back, with room made. */
    method Place(x: T, newSize: nat)
      requires Valid() && size < capacity && newSize == size + 1
      modifies this`size, this`pushes, ptr
      ensures Valid() && Contents() == old(Contents()) + [x]
      ensures View() == old(View()).(size := old(size) + 1, pushes := old(pushes) + 1)
    {
      ptr[size] := x;
      size := newSize;
      pushes := pushes + 1;
    }

    /** pop_back. */
    method PopBack() returns (r: Result<()>)
      requires Valid()
      modifies this`size
      ensures Valid() && r == if old(size) == 0 then Fail(ContainerEmpty) else Ok(())
      ensures View() == Apply(elemSize, old(View()), Remove(1))
      ensures Contents() == if r.Ok? then old(Contents())[..old(size) - 1] else old(Contents())
    {
      if size == 0 {
        return Fail(ContainerEmpty);
      }
      size := size - 1;
      return Ok(());
    }

    /** clear: destroys from the back and keeps the buffer. */
    method Clear()
      requires Valid()
      modifies this`size
      ensures Valid() && Contents() == []
      ensures View() == Apply(elemSize, old(View()), Remove(old(size)))
    {
      while 0 < size
        invariant size <= old(size)
        modifies this`size
      {
        size := size - 1;
      }
    }

    /** reset. */
    method Reset()
      requires Valid()
      modifies this
      ensures Valid() && Contents() == [] && ptr == null && View() == Apply(elemSize, old(View()), Op.Reset)
    {
      Clear();
      capacity := 0;
      ptr := null;
    }

    /** memmove towards the front: the parts may overlap. */
    method MoveDown(to: nat, from: nat, count: nat)
      requires ptr != null && to <= from && from + count <= ptr.Length
      modifies ptr
      ensures ptr[..] == old(ptr[..to] + ptr[from..from + count] + ptr[to + count..])
    {
      ghost var was := ptr[..];
      var i := 0;
      while i < count
        invariant 0 <= i <= count
        invariant forall j :: 0 <= j < to ==> ptr[j] == was[j]
        invariant forall j :: to <= j < to + i ==> ptr[j] == was[j + (from - to)]
        invariant forall j :: to + i <= j < ptr.Length ==> ptr[j] == was[j]
      {
        ptr[to + i] := ptr[from + i];
        i := i + 1;
      }
      MovedDown(ptr[..], was, to, from, count);
    }

    /** erase of one element, at an iterator counted from the first element. */
    method Erase(at: int) returns (r: Result<int>)
      requires Valid()
      modifies this`size, ptr
      ensures Valid() && (r.Ok? <==> 0 <= at < old(size)) && (r.Fail? ==> r.error == InvalidIterator)
      ensures r.Ok? ==> r.value == at && Contents() == old(Contents())[..at] + old(Contents())[at + 1..]
      ensures r.Fail? ==> Contents() == old(Contents())
      ensures View() == if r.Ok? then Apply(elemSize, old(View()), Remove(1)) else old(View())
    {
      if at < 0 || size <= at {
        return Fail(InvalidIterator);
      }
      var dist := size - at - 1;
      if dist == 0 {
        var popped := PopBack();
        return Ok(size);
      }
      ghost var was := ptr[..];
      MoveDown(at, at + 1, dist);
      CutOut(ptr[..], was, size, at, at + 1);
      size := size - 1;
      assert ptr[..][..size] == ptr[..size];
      return Ok(at);
    }

    /** erase of a range; an empty range is not even checked. */
    method EraseRange(first: int, last: int) returns (r: Result<int>)
      requires Valid()
      modifies this`size, ptr
      ensures Valid() && (r.Ok? <==> first == last || 0 <= first < last <= old(size))
      ensures r.Fail? ==> r.error == if 0 <= last < first <= old(size) then EndBeforeBegin else InvalidIterator
      ensures r.Ok? ==> r.value == first
      ensures Contents() == if r.Ok? && first != last then old(Contents())[..first] + old(Contents())[last..] else old(Contents())
      ensures View() == if r.Ok? then Apply(elemSize, old(View()), Remove(last - first)) else old(View())
    {
      if first == last {
        return Ok(last);
      }
      if first < 0 || size < first || last < 0 || size < last {
        return Fail(InvalidIterator);
      }
      if last < first {
        return Fail(EndBeforeBegin);
      }
      CloseGap(first, last);
      return Ok(first);
    }

    /** The move of a range erase, with its iterators checked. */
    method CloseGap(first: nat, last: nat)
      requires Valid() && first < last <= size
      modifies this`size, ptr
      ensures Valid() && Contents() == old(Contents())[..first] + old(Contents())[last..]
      ensures size == old(size) - (last - first)
    {
      ghost var was, length := ptr[..], size;
      var dist := size - last;
      size := size - (last - first);
      if 0 < dist {
        MoveDown(first, last, dist);
      }
      CutOut(ptr[..], was, length, first, last);
      assert ptr[..][..size] == ptr[..size];
    }

    /** at. */
    method At(idx: nat) returns (r: Result<T>)
      requires Valid()
      ensures r == if idx < size then Ok(Contents()[idx]) else Fail(OutOfRange)
    {
      if idx < size {
        return Ok(ptr[idx]);
      }
      return Fail(OutOfRange);
    }

    /** swap, also of a vector with itself. */
    method Swap(other: Vector<T>)
      requires Valid() && other.Valid() && elemSize == other.elemSize
      modifies this, other
      ensures Valid() && other.Valid()
      ensures View() == old(other.View()) && other.View() == old(View())
      ensures ptr == old(other.ptr) && other.ptr == old(ptr)
      ensures Contents() == old(other.Contents()) && other.Contents() == old(Contents())
    {
      ptr, other.ptr := other.ptr, ptr;
      size, other.size := other.size, size;
      capacity, other.capacity := other.capacity, capacity;
      carried, other.carried := other.carried, carried;
      pushes, other.pushes := other.pushes, pushes;
      asked, other.asked := other.asked, asked;
    }

    /** The copy constructor: room for the other's size, not its capacity. */
    static method Copy(other: Vector<T>, outOfMemory: bool) returns (r: Result<Vector<T>>)
      requires other.Valid()
      ensures r.Fail? <==> other.size != 0 && Refused(other.elemSize, EMPTY, other.size, outOfMemory)
      ensures r.Ok? ==> fresh(r.value) && r.value.Valid() && (r.value.ptr == null || fresh(r.value.ptr))
      ensures r.Ok? ==> r.value.elemSize == other.elemSize && r.value.Contents() == other.Contents()
      ensures r.Ok? ==> r.value.capacity == Grown(0, other.size)
    {
      var v := new Vector<T>(other.elemSize);
      if other.size == 0 {
        return Ok(v);
      }
      Sizes(other.elemSize, other.size, other.capacity);
      var room := v.AutoCapacity(other.size, outOfMemory);
      if room.Fail? {
        return Fail(room.error);
      }
      v.CopyIn(other);
      return Ok(v);
    }

    /** The memcpy of the copy constructor. */
    method CopyIn(other: Vector<T>)
      requires Valid() && other.Valid() && ptr != null && other.ptr != null && ptr != other.ptr
      requires other != this && other.size <= capacity
      modifies this`size, ptr
      ensures Valid() && Contents() == other.Contents() && size == other.size
    {
      var i := 0;
      while i < other.size
        invariant 0 <= i <= other.size
        invariant forall j :: 0 <= j < i ==> ptr[j] == other.ptr[j]
        modifies ptr
      {
        ptr[i] := other.ptr[i];
        i := i + 1;
      }
      size := other.size;
    }

    /** Copy assignment: copy and swap, so a throw leaves both vectors as they were. */
    method Assign(other: Vector<T>, outOfMemory: bool) returns (r: Result<()>)
      requires Valid() && other.Valid() && elemSize == other.elemSize
      modifies this
      ensures Valid() && Contents() == if r.Ok? then old(other.Contents()) else old(Contents())
      ensures r.Fail? <==> this != other && old(other.size) != 0 && Refused(elemSize, EMPTY, old(other.size), outOfMemory)
      ensures r.Ok? ==> other.Valid() && other.Contents() == old(other.Contents())
      ensures r.Ok? && this != other ==> ptr == null || fresh(ptr)
    {
      if this == other {
        return Ok(());
      }
      var copy := Copy(other, outOfMemory);
      if copy.Fail? {
        return Fail(copy.error);
      }
      Swap(copy.value);
      return Ok(());
    }

    /** Move assignment: the contents move over and the source is left empty. */
    method MoveAssign(other: Vector<T>)
      requires Valid() && other.Valid() && elemSize == other.elemSize
      modifies this, other
      ensures Valid() && other.Valid() && Contents() == old(other.Contents())
      ensures ptr == old(other.ptr) && capacity == old(other.capacity)
      ensures this != other ==> other.Contents() == [] && other.capacity == 0
    {
      if this != other {
        Reset();
        Swap(other);
      }
    }

    /** release: hands the buffer out and leaves an empty vector. */
    method Release() returns (block: array?<T>, length: nat, room: nat)
      requires Valid()
      modifies this
      ensures Valid() && Contents() == [] && capacity == 0 && ptr == null
      ensures block == old(ptr) && length == old(size) && room == old(capacity)
      ensures (if block == null then [] else block[..length]) == old(Contents())
    {
      block, length, room := ptr, size, capacity;
      ptr, size, capacity := null, 0, 0;
    }
  }

  lemma {:induction false} MovedDown<T>(now: seq<T>, was: seq<T>, to: nat, from: nat, count: nat)
    requires |now| == |was| && to <= from && from + count <= |was|
    requires forall j :: 0 <= j < to ==> now[j] == was[j]
    requires forall j :: to <= j < to + count ==> now[j] == was[j + (from - to)]
    requires forall j :: to + count <= j < |now| ==> now[j] == was[j]
    ensures now == was[..to] + was[from..from + count] + was[to + count..]
  {
    assert now[to..to + count] == was[from..from + count];
    assert now == now[..to] + now[to..to + count] + now[to + count..];
  }

  /** What is left of the first `size` elements once those behind a gap have moved down into it. */
  lemma {:induction false} CutOut<T>(now: seq<T>, was: seq<T>, size: nat, first: nat, last: nat)
    requires first < last <= size <= |was|
    requires now == was[..first] + was[last..size] + was[first + (size - last)..] || (last == size && now == was)
    ensures size <= |now| && now[..size - (last - first)] == was[..size][..first] + was[..size][last..]
  {
    assert was[..size][..first] == was[..first] && was[..size][last..] == was[last..size];
  }

  lemma {:induction false} NoRoom(elemSize: nat, s: Shape)
    requires 0 < elemSize && s.size == s.capacity == SIZE_MAX
    ensures Refused(elemSize, s, s.size + 1, false)
  {
    var quotient := SIZE_MAX / elemSize;
    assert quotient * elemSize <= SIZE_MAX && quotient * 1 <= quotient * elemSize;
  }

  lemma {:induction false} Sizes(elemSize: nat, size: nat, capacity: nat)
    requires 0 < elemSize && size <= capacity && capacity * elemSize <= SIZE_MAX
    ensures size <= SIZE_MAX
  {
    assert capacity * 1 <= capacity * elemSize;
  }
}
