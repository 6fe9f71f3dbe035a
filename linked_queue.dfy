/**
 A singly-linked first-in first-out queue: a `root` pointer to the first node,
 a `tail` pointer to the last one and an element `count`.

 `Dequeue` never clears `tail`.  Once it removes the last node, `root` is null
 but `tail` still points at the removed node (a "stale tail"); a later
 `Enqueue` links onto that detached node, so `root` stays null for good.  The
 object invariant admits that state, and the abstraction functions say what
 each part of the list means:
   - Contents(): the elements reachable from `root`, front first;
   - Lost(): the elements enqueued after the queue was drained, which hang off
     the stale node; they are counted, but only the last of them is still
     referenced, by `tail`.
*/
module Linked {
  import opened Wrappers

  /** A list node: one element and the link to its successor. */
  class LinkedNode<T> {
    var element: T
    var next: LinkedNode?<T>

    constructor (element: T, next: LinkedNode?<T>)
      ensures this.element == element && this.next == next
    {
      this.element := element;
      this.next := next;
    }
  }

  class LinkedQueue<T> {
    var root: LinkedNode?<T>
    var tail: LinkedNode?<T>
    var count: int

    // The chain of nodes that ends at `tail`, in link order.  While the queue
    // has not been drained it starts at `root`; after a drain it starts at the
    // stale node that `tail` was left pointing at.
    ghost var Chain: seq<LinkedNode<T>>
    // The elements stored in the nodes of Chain.
    ghost var Items: seq<T>
    ghost var Repr: set<object>

    /** Elements reachable from `root`, front first. */
    ghost function Contents(): seq<T>
      reads this
    {
      if root == null then [] else Items
    }

    /** Elements linked after a stale tail: counted, but unreachable from `root`. */
    ghost function Lost(): seq<T>
      reads this
    {
      if root == null && Items != [] then Items[1..] else []
    }

    /** The state the as-written `Dequeue` leaves behind when it drains the queue. */
    ghost predicate StaleTail()
      reads this
    {
      root == null && tail != null
    }

    ghost predicate Valid()
      reads this, Repr
    {
      && this in Repr
      && |Items| == |Chain|
      && (forall i :: 0 <= i < |Chain| ==> Chain[i] in Repr)
      && (forall i, j :: 0 <= i < j < |Chain| ==> Chain[i] != Chain[j])
      && (forall i :: 0 <= i < |Chain| ==> Chain[i].element == Items[i])
      && (forall i :: 0 <= i < |Chain| - 1 ==> Chain[i].next == Chain[i + 1])
      && (Chain == [] ==> root == null && tail == null)
      && (Chain != [] ==> tail == Chain[|Chain| - 1] && tail.next == null)
      && (root != null ==> Chain != [] && root == Chain[0])
      && count == |Contents()| + |Lost()|
    }

    /** The empty queue: no nodes and a count of zero. */
    constructor ()
      ensures Valid() && fresh(Repr)
      ensures Contents() == [] && Lost() == [] && !StaleTail() && count == 0
    {
      root := null;
      tail := null;
      count := 0;
      Chain := [];
      Items := [];
      Repr := {this};
    }

    /** First element of the queue, if any. */
    function Front(): (r: Option<T>)
      reads this, Repr
      requires Valid()
      ensures r == if Contents() == [] then None else Some(Contents()[0])
    {
      if root == null then None else Some(root.element)
    }

    /** Last element of the queue, if any. */
    function Back(): (r: Option<T>)
      reads this, Repr
      requires Valid()
      ensures !StaleTail() ==> r == if Contents() == [] then None else Some(Contents()[|Contents()| - 1])
      ensures StaleTail() ==> r.Some?
      ensures StaleTail() && Lost() != [] ==> r == Some(Lost()[|Lost()| - 1])
    {
      if tail == null then None else Some(tail.element)
    }

    /** True when `count` is zero. */
    function IsEmpty(): (r: bool)
      reads this, Repr
      requires Valid()
      ensures r <==> Contents() == [] && Lost() == []
      ensures !StaleTail() ==> (r <==> Contents() == [])
    {
      count == 0
    }

    /** Links a new node holding `newElement` after `tail`. */
    method Enqueue(newElement: T)
      requires Valid()
      modifies Repr
      ensures Valid() && fresh(Repr - old(Repr))
      ensures count == old(count) + 1
      ensures Back() == Some(newElement)
      ensures StaleTail() == old(StaleTail())
      ensures !old(StaleTail()) ==> Contents() == old(Contents()) + [newElement] && Lost() == []
      ensures old(StaleTail()) ==> Contents() == [] && Lost() == old(Lost()) + [newElement]
    {
      if tail != null {
        LinkAfterTail(newElement);
      } else {
        StartList(newElement);
      }
    }

    /** The `tail != nil` branch of `Enqueue`. */
    method LinkAfterTail(newElement: T)
      requires Valid() && tail != null
      modifies Repr
      ensures Valid() && fresh(Repr - old(Repr))
      ensures count == old(count) + 1
      ensures Back() == Some(newElement)
      ensures StaleTail() == old(StaleTail())
      ensures !old(StaleTail()) ==> Contents() == old(Contents()) + [newElement] && Lost() == []
      ensures old(StaleTail()) ==> Contents() == [] && Lost() == old(Lost()) + [newElement]
    {
      var t := tail;
      var n := new LinkedNode(newElement, null);
      t.next := n;
      tail := t.next;
      Chain := Chain + [n];
      Items := Items + [newElement];
      Repr := Repr + {n};
      assert (old(Items) + [newElement])[1..] == old(Items)[1..] + [newElement];
      count := count + 1;
    }

    /** The `tail == nil` branch of `Enqueue`. */
    method StartList(newElement: T)
      requires Valid() && tail == null
      modifies this
      ensures Valid() && fresh(Repr - old(Repr))
      ensures count == old(count) + 1
      ensures Back() == Some(newElement)
      ensures !StaleTail() && !old(StaleTail())
      ensures Contents() == old(Contents()) + [newElement] && Lost() == []
    {
      root := new LinkedNode(newElement, null);
      tail := root;
      Chain := [root];
      Items := [newElement];
      Repr := Repr + {root};
      count := count + 1;
    }

    /**
     Unlinks the root node and returns its element, as the source does:
     `tail` is left alone, so draining the queue leaves a stale tail.
    */
    method Dequeue() returns (element: T)
      requires Valid()
      requires root != null
      modifies this
      ensures Valid() && Repr == old(Repr)
      ensures element == old(Contents())[0]
      ensures Contents() == old(Contents())[1..]
      ensures Lost() == []
      ensures count == old(count) - 1
      ensures |old(Contents())| > 1 ==> !StaleTail()
      ensures |old(Contents())| == 1 ==> StaleTail() && count == 0 && Back() == Some(element)
    {
      assert |Chain| > 1 ==> root.next == Chain[1];
      element := root.element;
      root := root.next;
      count := count - 1;
      if root != null {
        Chain := Chain[1..];
        Items := Items[1..];
      } else {
      }
    }

    /**
     Dequeue with the missing step added: when the last node goes, `tail`
     is cleared too, so the queue never reaches a stale tail.
    */
    method DequeueClearingTail() returns (element: T)
      requires Valid()
      requires root != null
      modifies this
      ensures Valid() && Repr == old(Repr)
      ensures element == old(Contents())[0]
      ensures Contents() == old(Contents())[1..]
      ensures !StaleTail() && Lost() == [] && count == |Contents()|
      ensures count == old(count) - 1
    {
      assert |Chain| > 1 ==> root.next == Chain[1];
      element := root.element;
      root := root.next;
      count := count - 1;
      if root != null {
        Chain := Chain[1..];
        Items := Items[1..];
      } else {
        tail := null;
        Chain := [];
        Items := [];
      }
    }

    /**
     Removes and returns the front element when `count` is not zero, and
     returns None otherwise.  It tests `count`, not `root`, so after a drain
     followed by an enqueue it reaches the fatal `Dequeue` on an empty list;
     the precondition excludes exactly that state.
    */
    method SafeDequeue() returns (r: Option<T>)
      requires Valid()
      requires count != 0 ==> root != null
      modifies this
      ensures Valid() && Repr == old(Repr)
      ensures old(count) == 0 ==> r == None && unchanged(this) && Contents() == old(Contents()) && count == 0
      ensures old(count) != 0 ==> r == Some(old(Contents())[0]) && Contents() == old(Contents())[1..]
      ensures old(count) != 0 ==> Lost() == [] && count == old(count) - 1
    {
      if !IsEmpty() {
        var element := Dequeue();
        r := Some(element);
      } else {
        r := None;
      }
    }

    /**
     Walks the list from `root` along the `next` links.  The callback's
     effects are not modelled: the result is the sequence of elements it is
     called on, in call order.
    */
    method ForEach() returns (visited: seq<T>)
      requires Valid()
      ensures visited == Contents()
    {
      visited := [];
      var node := root;
      ghost var k := 0;
      while node != null
        invariant 0 <= k <= |Contents()|
        invariant node == if k < |Contents()| then Chain[k] else null
        invariant visited == Contents()[..k]
        decreases |Contents()| - k
      {
        visited := visited + [node.element];
        node := node.next;
        k := k + 1;
      }
    }

    /** `transform` applied to each element reachable from `root`, in list order. */
    method Map<U>(transform: T -> U) returns (result: seq<U>)
      requires Valid()
      ensures |result| == |Contents()|
      ensures forall i :: 0 <= i < |result| ==> result[i] == transform(Contents()[i])
    {
      result := [];
      var node := root;
      ghost var k := 0;
      while node != null
        invariant 0 <= k <= |Contents()|
        invariant node == if k < |Contents()| then Chain[k] else null
        invariant |result| == k
        invariant forall i :: 0 <= i < k ==> result[i] == transform(Contents()[i])
        decreases |Contents()| - k
      {
        result := result + [transform(node.element)];
        node := node.next;
        k := k + 1;
      }
    }
  }

  /** First in, first out: enqueue every element of `xs`, then dequeue as many. */
  method FifoLaw<T>(xs: seq<T>) returns (ys: seq<T>, remaining: int)
    ensures ys == xs && remaining == 0
  {
    var q := new LinkedQueue<T>();
    var i := 0;
    while i < |xs|
      invariant 0 <= i <= |xs|
      invariant q.Valid() && fresh(q.Repr) && !q.StaleTail()
      invariant q.Contents() == xs[..i] && q.count == i
    {
      q.Enqueue(xs[i]);
      i := i + 1;
    }
    ys := [];
    while |ys| < |xs|
      invariant |ys| <= |xs|
      invariant q.Valid() && fresh(q.Repr)
      invariant q.Contents() == xs[|ys|..] && ys == xs[..|ys|]
      invariant q.count == |xs| - |ys|
    {
      var x := q.Dequeue();
      ys := ys + [x];
    }
    remaining := q.count;
  }

  /**
   The drain defect: one enqueue and one dequeue leave `back` reporting the
   removed element while `count` is zero; the next enqueue leaves `front`
   empty while `count` is one.
  */
  method DrainThenEnqueue<T>(x: T, y: T)
    returns (backAfterDrain: Option<T>, countAfterDrain: int,
             frontAfterRefill: Option<T>, countAfterRefill: int, isEmptyAfterRefill: bool)
    ensures backAfterDrain == Some(x) && countAfterDrain == 0
    ensures frontAfterRefill == None && countAfterRefill == 1 && !isEmptyAfterRefill
  {
    var q := new LinkedQueue<T>();
    q.Enqueue(x);
    var _ := q.Dequeue();
    backAfterDrain, countAfterDrain := q.Back(), q.count;
    q.Enqueue(y);
    frontAfterRefill, countAfterRefill, isEmptyAfterRefill := q.Front(), q.count, q.IsEmpty();
  }

  /** With the corrected dequeue, a drained queue can be refilled and emptied again. */
  method RefillAfterDrain<T>(x: T, y: T) returns (first: T, second: T, frontAfterRefill: Option<T>)
    ensures first == x && second == y && frontAfterRefill == Some(y)
  {
    var q := new LinkedQueue<T>();
    q.Enqueue(x);
    first := q.DequeueClearingTail();
    q.Enqueue(y);
    frontAfterRefill := q.Front();
    second := q.DequeueClearingTail();
  }
}
