/**
 A ring buffer that grows by doubling.  The live elements are the `count`
 slots reached from `startIndex` by forward steps that wrap at `capacity`;
 `endIndex` is the slot the next push writes.

 The source's growth loop stops one slot early on a full buffer, so it copies
 `capacity - 1` elements, and it never brings `count` back in line.
 `PushAsWritten` is that code; `Push` copies every live element and is the one
 whose contract states the documented intent.
*/
module Circular {

  /** Capacity of a queue made by the default initializer. */
  const DefaultCapacity := 16

  function Abs(x: int): int { if x < 0 then -x else x }

  /** Swift's `%` on `Int`: division truncates, so the remainder takes the sign of the dividend. */
  function SwiftRemainder(a: int, b: int): int
    requires b != 0
  {
    if a >= 0 then a % Abs(b) else -((-a) % Abs(b))
  }

  class CircularQueue<T(0)> {
    var buffer: array<T>
    var capacity: int
    var count: int
    var startIndex: int
    var endIndex: int
    ghost var Repr: set<object>

    /** Every field is in range; nothing ties `endIndex` to `count`. */
    ghost predicate WellFormed()
      reads this, Repr
    {
      && this in Repr && buffer in Repr
      && buffer.Length == capacity && 0 < capacity
      && 0 <= count <= capacity
      && 0 <= startIndex < capacity
      && 0 <= endIndex < capacity
    }

    /** The ring invariant: `endIndex` is `count` forward steps from `startIndex`. */
    ghost predicate Valid()
      reads this, Repr
    {
      WellFormed() && endIndex == Slot(count)
    }

    /** The slot `k` forward steps from `startIndex`, for `0 <= k <= capacity`. */
    ghost function Slot(k: int): int
      reads this
    {
      if startIndex + k < capacity then startIndex + k else startIndex + k - capacity
    }

    /** The live elements in logical order: `count` slots from `startIndex`, wrapping. */
    function Contents(): seq<T>
      reads this, Repr
      requires WellFormed()
    {
      if startIndex + count <= capacity then buffer[startIndex..startIndex + count]
      else buffer[startIndex..] + buffer[..startIndex + count - capacity]
    }

    lemma ContentsAt(k: int)
      requires WellFormed() && 0 <= k < count
      ensures |Contents()| == count && Contents()[k] == buffer[Slot(k)]
    {
    }

    /** A queue of the default capacity, holding nothing. */
    constructor ()
      ensures Valid() && fresh(Repr)
      ensures capacity == DefaultCapacity && count == 0 && startIndex == 0 && endIndex == 0
      ensures Contents() == []
    {
      buffer := new T[DefaultCapacity];
      capacity := DefaultCapacity;
      count, startIndex, endIndex := 0, 0, 0;
      Repr := {this, buffer};
    }

    /** A queue of the given capacity, holding nothing. */
    constructor WithCapacity(capacity: int)
      requires capacity > 0
      ensures Valid() && fresh(Repr)
      ensures this.capacity == capacity && count == 0 && startIndex == 0 && endIndex == 0
      ensures Contents() == []
    {
      buffer := new T[capacity];
      this.capacity := capacity;
      count, startIndex, endIndex := 0, 0, 0;
      Repr := {this, buffer};
    }

    /** The index after `i`, wrapping to 0 past the last slot. */
    function IndexAfter(i: int): (r: int)
      reads this
      requires capacity != 0
      ensures capacity > 0 && 0 <= i ==> 0 <= r < capacity
      ensures capacity > 0 && 0 <= i < capacity - 1 ==> r == i + 1
      ensures capacity > 0 && i == capacity - 1 ==> r == 0
    {
      SwiftRemainder(i + 1, capacity)
    }

    function IsEmpty(): (r: bool)
      reads this, Repr
      requires WellFormed()
      ensures r <==> Contents() == []
    {
      count == 0
    }

    function IsFull(): (r: bool)
      reads this, Repr
      requires WellFormed()
      ensures r <==> |Contents()| == capacity
    {
      count == capacity
    }

    /** Whether `i` is an occupied slot, allowing for a range that wraps. */
    function CheckBounds(i: int): bool
      reads this
    {
      if endIndex >= startIndex then
        i >= startIndex && i < endIndex
      else
        (i >= startIndex && i < capacity) || (i < endIndex && i >= 0)
    }

    /**
     Below capacity, `CheckBounds` accepts exactly the slots that hold live
     elements; on a full buffer `endIndex == startIndex`, so it accepts none.
    */
    lemma CheckBoundsMeansOccupied(i: int)
      requires Valid()
      ensures !IsFull() ==> (CheckBounds(i) <==> exists k :: 0 <= k < count && Slot(k) == i)
      ensures IsFull() ==> !CheckBounds(i)
    {
      if !IsFull() && CheckBounds(i) {
        var k := if i >= startIndex then i - startIndex else i + capacity - startIndex;
        assert 0 <= k < count && Slot(k) == i;
      }
    }

    /** The first `n` slots from `startIndex` wrap as IndexAfter steps through them. */
    lemma IndexAfterSlot(n: int)
      requires WellFormed() && 0 <= n < capacity
      ensures IndexAfter(Slot(n)) == Slot(n + 1)
    {
    }

    /**
     Appends `newElement`.  Below capacity it writes the slot at `endIndex`.
     On a full buffer it first grows (Grow) and then pushes into the larger
     buffer, which is never full, so the recursion is one level deep.
    */
    method Push(newElement: T)
      requires Valid()
      modifies Repr
      ensures Valid() && fresh(Repr - old(Repr))
      ensures Contents() == old(Contents()) + [newElement]
      ensures count == old(count) + 1
      ensures old(count) < old(capacity) ==>
        && buffer == old(buffer) && capacity == old(capacity)
        && startIndex == old(startIndex) && endIndex == old(IndexAfter(endIndex))
        && buffer[old(endIndex)] == newElement
        && forall k :: 0 <= k < capacity && k != old(endIndex) ==> buffer[k] == old(buffer[k])
      ensures old(count) == old(capacity) ==>
        capacity == 2 * old(capacity) && startIndex == 0
        && endIndex == if old(count) + 1 < capacity then old(count) + 1 else 0
      decreases if count == capacity then 1 else 0
    {
      if !IsFull() {
        buffer[endIndex] := newElement;
        endIndex := IndexAfter(endIndex);
        count := count + 1;
      } else {
        Grow();
        Push(newElement);
      }
    }

    /**
     The growth step of Push as the source's comments ask for it ("create new
     buffer that is twice the size", "copy over elements"): a buffer of twice
     the capacity that holds every live element, in order, from slot 0.
    */
    method Grow()
      requires Valid() && IsFull()
      modifies this
      ensures Valid() && Repr == {this, buffer} && fresh(buffer)
      ensures Contents() == old(Contents())
      ensures capacity == 2 * old(capacity) && count == old(count)
      ensures startIndex == 0 && endIndex == old(count)
    {
      var newBuffer, j := CopyLive();
      startIndex := 0;
      endIndex := j;
      capacity := capacity * 2;
      buffer := newBuffer;
      Repr := {this, buffer};
      assert Contents() == newBuffer[..count];
    }

    /** The corrected copy loop: `count` steps from `startIndex` into a buffer twice as large. */
    method CopyLive() returns (newBuffer: array<T>, j: int)
      requires Valid()
      ensures fresh(newBuffer) && newBuffer.Length == 2 * capacity
      ensures j == count && newBuffer[..count] == Contents()
    {
      newBuffer := new T[capacity * 2];
      var i := startIndex;
      j := 0;
      while j < count
        invariant 0 <= j <= count && i == Slot(j)
        invariant forall k :: 0 <= k < j ==> newBuffer[k] == buffer[Slot(k)]
      {
        IndexAfterSlot(j);
        newBuffer[j] := buffer[i];
        j := j + 1;
        i := IndexAfter(i);
      }
      forall k | 0 <= k < count ensures newBuffer[k] == Contents()[k] {
        ContentsAt(k);
      }
    }

    /**
     The number of slots the source's growth loop copies: it starts at
     `startIndex` and stops at the slot whose successor is `endIndex`, so on
     a full buffer (`endIndex == startIndex`) it is `capacity - 1`.
    */
    ghost function CopiedAsWritten(): int
      reads this
    {
      if endIndex > startIndex then endIndex - startIndex - 1
      else endIndex - startIndex - 1 + capacity
    }

    /** The source's push, with its growth step as written (GrowAsWritten). */
    method PushAsWritten(newElement: T)
      requires WellFormed()
      modifies Repr
      ensures WellFormed() && fresh(Repr - old(Repr))
      ensures count == old(count) + 1
      ensures old(count) < old(capacity) ==>
        && buffer == old(buffer) && capacity == old(capacity)
        && startIndex == old(startIndex) && endIndex == old(IndexAfter(endIndex))
        && buffer[old(endIndex)] == newElement
        && forall k :: 0 <= k < capacity && k != old(endIndex) ==> buffer[k] == old(buffer[k])
      ensures old(count) == old(capacity) ==>
        && capacity == 2 * old(capacity) && startIndex == 0
        && endIndex == old(CopiedAsWritten()) + 1
        && buffer[old(CopiedAsWritten())] == newElement
        && forall k :: 0 <= k < old(CopiedAsWritten()) ==> buffer[k] == old(buffer[Slot(k)])
      ensures old(Valid()) && old(count) == old(capacity) ==>
        endIndex == old(capacity) && count == old(capacity) + 1 && !Valid()
      decreases if count == capacity then 1 else 0
    {
      if !IsFull() {
        buffer[endIndex] := newElement;
        endIndex := IndexAfter(endIndex);
        count := count + 1;
      } else {
        GrowAsWritten();
        PushAsWritten(newElement);
      }
    }

    /**
     The source's growth step: the copy loop (CopyAsWritten) runs while the
     successor of `i` is not `endIndex`, and `count` is left as it was.
    */
    method GrowAsWritten()
      requires WellFormed() && IsFull()
      modifies this
      ensures WellFormed() && Repr == {this, buffer} && fresh(buffer)
      ensures capacity == 2 * old(capacity) && count == old(count)
      ensures startIndex == 0 && endIndex == old(CopiedAsWritten())
      ensures forall k :: 0 <= k < endIndex ==> buffer[k] == old(buffer[Slot(k)])
    {
      var newBuffer, j := CopyAsWritten();
      startIndex := 0;
      endIndex := j;
      capacity := capacity * 2;
      buffer := newBuffer;
      Repr := {this, buffer};
    }

    /** The source's copy loop, into a buffer twice as large. */
    method CopyAsWritten() returns (newBuffer: array<T>, j: int)
      requires WellFormed()
      ensures fresh(newBuffer) && newBuffer.Length == 2 * capacity
      ensures j == CopiedAsWritten() && 0 <= j < capacity
      ensures forall k :: 0 <= k < j ==> newBuffer[k] == buffer[Slot(k)]
    {
      newBuffer := new T[capacity * 2];
      var i := startIndex;
      j := 0;
      while IndexAfter(i) != endIndex
        invariant 0 <= j <= CopiedAsWritten() && i == Slot(j)
        invariant forall k :: 0 <= k < j ==> newBuffer[k] == buffer[Slot(k)]
        decreases CopiedAsWritten() - j
      {
        IndexAfterSlot(j);
        newBuffer[j] := buffer[i];
        j := j + 1;
        i := IndexAfter(i);
      }
      IndexAfterSlot(j);
    }

    /** The source's shrink operation has an empty body; it changes nothing. */
    method ShrinkToFix()
      requires WellFormed()
      ensures WellFormed() && Valid() == old(Valid()) && Contents() == old(Contents())
    {
    }
  }

  /**
   Capacity 2, push 0, 1, 2 with the source's push: the buffer grows to 4,
   but its first slots hold 0 and 2, and `count` is 3 while `endIndex` is 2.
   A traversal from `startIndex` for `count` steps does not give 0, 1, 2.
  */
  method GrowthDropsElement() returns (slots: seq<int>, traversal: seq<int>,
                                       capacity: int, count: int, endIndex: int)
    ensures capacity == 4 && count == 3 && endIndex == 2
    ensures slots == [0, 2]
    ensures |traversal| == 3 && traversal[..2] == [0, 2] && traversal != [0, 1, 2]
  {
    var q := new CircularQueue<int>.WithCapacity(2);
    q.PushAsWritten(0);
    q.PushAsWritten(1);
    q.PushAsWritten(2);
    slots := q.buffer[..q.endIndex];
    traversal := q.buffer[q.startIndex..q.startIndex + q.count];
    capacity, count, endIndex := q.capacity, q.count, q.endIndex;
  }

  /** The same scenario with the corrected push keeps 0, 1, 2 in order. */
  method GrowthKeepsElements() returns (traversal: seq<int>, capacity: int, count: int, endIndex: int)
    ensures capacity == 4 && count == 3 && endIndex == 3
    ensures traversal == [0, 1, 2]
  {
    var q := new CircularQueue<int>.WithCapacity(2);
    q.Push(0);
    q.Push(1);
    q.Push(2);
    traversal := q.buffer[q.startIndex..q.startIndex + q.count];
    capacity, count, endIndex := q.capacity, q.count, q.endIndex;
  }

  /** Pushing any sequence into a queue of any capacity keeps every element, in push order. */
  method PushAll<T(0)>(initialCapacity: int, xs: seq<T>) returns (traversal: seq<T>, count: int)
    requires initialCapacity > 0
    ensures traversal == xs && count == |xs|
  {
    var q := new CircularQueue<T>.WithCapacity(initialCapacity);
    var n := 0;
    while n < |xs|
      invariant 0 <= n <= |xs|
      invariant q.Valid() && fresh(q.Repr)
      invariant q.Contents() == xs[..n] && q.count == n
    {
      q.Push(xs[n]);
      n := n + 1;
    }
    traversal := q.Contents();
    count := q.count;
  }

  /** The values the repository's test prints for `index(after:)` at the default capacity. */
  lemma DefaultIndexAfterTable<T(0)>(q: CircularQueue<T>)
    requires q.capacity == DefaultCapacity
    ensures forall i :: 0 <= i < 15 ==> q.IndexAfter(i) == i + 1
    ensures q.IndexAfter(15) == 0
    ensures forall i :: 16 <= i < 20 ==> q.IndexAfter(i) == i - 15
  {
    forall i | 16 <= i < 20 ensures q.IndexAfter(i) == i - 15 {
      assert i + 1 == 16 + (i - 15);
    }
  }
}
