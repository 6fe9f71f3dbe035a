# Threading: sequential containers and queue labels

This project models the sequential core of the Threading library, a small
Swift package of thread-safe containers. It covers:

- `LinkedQueue<T>`: a singly-linked FIFO queue with `root`, `tail` and
  `count`. It is modelled as a class over `LinkedNode` objects. A ghost chain
  of nodes and a ghost footprint (`Repr`) describe the heap.
- `CircularQueue<T>`: a ring buffer that doubles when full. It is modelled as
  a class over an `array<T>` with `capacity`, `count`, `startIndex` and
  `endIndex`.
- The two `LabelDispatch` counters. One hands out `Int` ids and the other hands
  out `"com.threading.dispatchqueue_<id>"` labels. Each is modelled as a class
  with a `nextId` field.

Modules: `Wrappers` (the `Option` type behind Swift optionals), `Linked`,
`Circular`, `QueueIds` (Sources/Threading/LabelDispatch.swift) and
`QueueLabels` (Sources/Threading/Components/LabelDispatch.swift).

## How the two defects are modelled

The linked queue's `dequeue` never clears `tail`. The object invariant
`LinkedQueue.Valid()` allows the resulting state, called `StaleTail()`, where
`root` is null but `tail` is not. Two abstraction functions split the list:

- `Contents()`: the elements reachable from `root`.
- `Lost()`: the elements linked after the stale node. They are counted, but only
  the last of them is still referenced, by `tail`.

The invariant keeps `count == |Contents()| + |Lost()|`. One would expect
`count == 0` exactly when `root` and `tail` are both nil. `dequeue` stops that
from holding after a drain (LinkedQueue.swift:90), and the model follows the
code.

The circular queue's growth loop copies one element too few. The model has two
versions:

- `PushAsWritten` with `GrowAsWritten`: the loop exactly as the source writes it.
  It copies `CopiedAsWritten()` slots, which is `capacity - 1` on a full buffer
  whose `endIndex == startIndex`.
- `Push` with `Grow`: what the source's comments "Create new buffer that is
  twice the size" and "Copy over elements" (CircularQueue.swift:63, 67) call
  for. Every live element moves, in order, to slots `[0, count)`.

`WellFormed()` says only that the fields are in range. `Valid()` adds the ring
invariant `endIndex == Slot(count)`. The source's growth code breaks `Valid()`;
`PushAsWritten` states this in its contract.

## Model

| member | source | states |
|---|---|---|
| `Linked.LinkedNode.constructor` | Sources/Threading/Components/LinkedQueue.swift:18-26 | a node holds the given element and successor |
| `Linked.LinkedQueue.constructor` | Sources/Threading/Components/LinkedQueue.swift:28-32 | a new queue has null `root` and `tail`, `count == 0` and no elements |
| `Linked.LinkedQueue.Front` | Sources/Threading/Components/LinkedQueue.swift:41-43 | None when nothing is reachable from `root`; otherwise the first reachable element |
| `Linked.LinkedQueue.Back` | Sources/Threading/Components/LinkedQueue.swift:46-48 | the last element when the tail is not stale; with a stale tail it is still Some (the removed element, or the last lost one) |
| `Linked.LinkedQueue.IsEmpty` | Sources/Threading/Components/LinkedQueue.swift:51-53 | true iff no element is reachable or lost; without a stale tail, true iff nothing is reachable from `root` |
| `Linked.LinkedQueue.Enqueue` | Sources/Threading/Components/LinkedQueue.swift:67-76 | `count` goes up by one and `back` is the new element; on a queue that was never drained the element is appended to the contents; after a drain it joins the lost chain and the contents stay empty |
| `Linked.LinkedQueue.Dequeue` | Sources/Threading/Components/LinkedQueue.swift:85-93 | requires `root != nil` (the fatal error); returns the front element, drops it from the contents and decrements `count`; removing the last element leaves a stale tail with `back` still reporting the removed element |
| `Linked.LinkedQueue.DequeueClearingTail` | Sources/Threading/Components/LinkedQueue.swift:85-93 | corrected dequeue: same result and contents, and the queue never has a stale tail, so `count` equals the number of reachable elements |
| `Linked.LinkedQueue.SafeDequeue` | Sources/Threading/Collections/ThreadedQueue.swift:112-120 | None and no change to the queue when `count` is zero; otherwise the front element is removed and returned, `count` drops by one and nothing is lost |
| `Linked.LinkedQueue.ForEach` | Sources/Threading/Components/LinkedQueue.swift:108-116 | visits exactly the elements reachable from `root`, in link order, and changes nothing |
| `Linked.LinkedQueue.Map` | Sources/Threading/Components/LinkedQueue.swift:124-130 | one output per reachable element, the i-th being `transform` of the i-th element |
| `Linked.FifoLaw` | Sources/Threading/Components/LinkedQueue.swift:10-12 | enqueuing e1..en and then dequeuing n times yields e1..en in order and leaves `count` at 0 |
| `Linked.DrainThenEnqueue` | Sources/Threading/Components/LinkedQueue.swift:67-93 | enqueue x and dequeue: `back == x` while `count == 0`; then enqueue y: `front` is None while `count == 1` and `isEmpty` is false |
| `Linked.RefillAfterDrain` | Sources/Threading/Components/LinkedQueue.swift:67-93 | with the corrected dequeue, enqueue x, dequeue, enqueue y, dequeue returns x then y |
| `Circular.CircularQueue.constructor` | Sources/Threading/Components/CircularQueue.swift:27-32 | capacity 16, `count == 0`, `startIndex == endIndex == 0`, no elements |
| `Circular.CircularQueue.WithCapacity` | Sources/Threading/Components/CircularQueue.swift:34-37 | the given capacity, `count == 0`, both indices 0, no elements |
| `Circular.CircularQueue.IndexAfter` | Sources/Threading/Components/CircularQueue.swift:100-102 | for `0 <= i` the result lies in `[0, capacity)`; it is `i + 1` below the last slot and wraps the last slot to 0 |
| `Circular.DefaultIndexAfterTable` | Tests/ThreadingTests/ThreadingTests.swift:38-43 | at capacity 16, indices 0..14 map to i+1, 15 maps to 0, and 16..19 map to i-15 |
| `Circular.CircularQueue.IsEmpty` | Sources/Threading/Components/CircularQueue.swift:46-48 | true iff the queue holds no elements |
| `Circular.CircularQueue.IsFull` | Sources/Threading/Components/CircularQueue.swift:111-113 | true iff the number of live elements equals the capacity |
| `Circular.CircularQueue.CheckBoundsMeansOccupied` | Sources/Threading/Components/CircularQueue.swift:116-122 | below capacity, `checkBounds(i)` holds iff `i` is one of the `count` slots reached from `startIndex`; on a full buffer it holds for no `i` |
| `Circular.CircularQueue.Push` | Sources/Threading/Components/CircularQueue.swift:57-88 | corrected push: the contents gain the new element at the end and `count` goes up by one; below capacity only the slot at `endIndex` changes and `endIndex` advances; when full, the capacity doubles and `startIndex` becomes 0 |
| `Circular.CircularQueue.Grow` | Sources/Threading/Components/CircularQueue.swift:63-83 | corrected growth: twice the capacity, same contents, laid out from slot 0, `endIndex == count` |
| `Circular.CircularQueue.PushAsWritten` | Sources/Threading/Components/CircularQueue.swift:57-88 | the source's push: below capacity as `Push`; when full, only `CopiedAsWritten()` old slots are carried over before the new element; from a consistent full queue this leaves `endIndex` equal to the old capacity and `count` one more than that, which breaks the ring invariant |
| `Circular.CircularQueue.GrowAsWritten` | Sources/Threading/Components/CircularQueue.swift:63-83 | the source's growth: twice the capacity, `startIndex == 0`, `endIndex` = number of slots copied (one short of the live count on a full buffer), `count` unchanged |
| `Circular.CircularQueue.ShrinkToFix` | Sources/Threading/Components/CircularQueue.swift:90-92 | accepts any well-formed state and changes nothing: validity and contents stay as they were |
| `Circular.GrowthDropsElement` | Sources/Threading/Components/CircularQueue.swift:57-88 | capacity 2, push 0, 1, 2 with the source's push: capacity 4, slots `[0, 2]`, `endIndex == 2`, `count == 3`, and the traversal is not 0, 1, 2 |
| `Circular.GrowthKeepsElements` | Sources/Threading/Components/CircularQueue.swift:57-88 | the same pushes with the corrected push: capacity 4, `count == 3`, traversal 0, 1, 2 |
| `Circular.PushAll` | Sources/Threading/Components/CircularQueue.swift:57-88 | for any positive capacity, pushing any sequence keeps every element in push order, and `count` equals the number of pushes |
| `QueueIds.LabelDispatch.constructor` | Sources/Threading/LabelDispatch.swift:12 | `nextId` starts at 0 |
| `QueueIds.LabelDispatch.Get` | Sources/Threading/LabelDispatch.swift:14-18 | returns the value `nextId` had on entry and increases `nextId` by exactly one |
| `QueueIds.FirstIds` | Sources/Threading/LabelDispatch.swift:12-18 | from start-up, the k-th call returns k, so results are strictly increasing and pairwise distinct |
| `QueueLabels.NatDecimal` | Sources/Threading/Components/LabelDispatch.swift:15 | the rendering of a non-negative id is a non-empty string of decimal digits with no leading zero |
| `QueueLabels.ParseNatDecimal` | Sources/Threading/Components/LabelDispatch.swift:15 | reading the decimal digits back gives the number they render |
| `QueueLabels.LabelRoundTrip` | Sources/Threading/Components/LabelDispatch.swift:15 | stripping the prefix and parsing the rest of a label gives back its id, for every `Int` |
| `QueueLabels.LabelInjective` | Sources/Threading/Components/LabelDispatch.swift:12-16 | two different ids never give the same label |
| `QueueLabels.LabelDispatch.constructor` | Sources/Threading/Components/LabelDispatch.swift:10 | `nextId` starts at 0 |
| `QueueLabels.LabelDispatch.Get` | Sources/Threading/Components/LabelDispatch.swift:12-16 | returns the label of the value `nextId` had on entry and increases `nextId` by exactly one |
| `QueueLabels.FirstLabels` | Sources/Threading/Components/LabelDispatch.swift:10-16 | from start-up, the k-th label is the prefix followed by the decimal digits of k, and no two labels are equal |

## Left out

- Concurrency: the dispatch-queue wrappers, the `Atomic` types, the threaded
  collections and the thread safety of the static `nextId` counters are not
  modelled. Every operation here is sequential.
- The static counters are modelled as a field of one issuer object. The
  methods that start at 0 (`FirstIds`, `FirstLabels`) create that object
  themselves, which stands for process start-up.
- Raw memory in `CircularQueue` is modelled as a Dafny `array`. The model has
  no uninitialised slots and does not track deinitialisation or deallocation
  of the old buffer. It makes no amortised-cost claims.
- `Circular.CircularQueue.WithCapacity`: requires a positive capacity. The
  source accepts 0 at construction, but its first push then divides by zero
  in `index(after:)`. A negative capacity traps in `allocate`.
- `startIndex` and `endIndex` are publicly settable in the source. The model
  assumes only the queue's own methods change them.
- `Linked.LinkedQueue.ForEach`: the callback is treated as a pure function,
  and its effects and `rethrows` error paths are not modelled. The method
  returns the sequence of elements the callback would be called on, in order.
- `Linked.LinkedQueue.Map`: `transform` is a total pure function; the
  `rethrows` path is not modelled.
- Struct copies of `LinkedQueue` share nodes in the source. The model has one
  queue instance and no aliasing between copies.
- `Int` overflow traps on `count += 1` and `nextId += 1` are not modelled.
  Integers are unbounded.
- `Circular.CircularQueue.Push`: the overflow trap of `capacity * 2`
  (CircularQueue.swift:65, 82) is not modelled, since integers are unbounded.
- `Circular.CircularQueue`: the element type is restricted to `T(0)`, types
  with a default value. Dafny needs one to allocate the array, while the
  source's raw buffer is generic over every `T` and leaves new slots
  uninitialised.
- Struct copies of `CircularQueue` share one raw buffer in the source. The
  model has one queue instance and no aliasing between copies.
- `CircularQueue` has no pop or read operation in the source, and
  `shrinkToFix` is empty. The model adds neither.
- `Linked.LinkedQueue.SafeDequeue` requires that `root` is non-null whenever
  `count` is non-zero. The source checks `count` and then calls the fatal
  `dequeue`, so it crashes after a drain followed by an enqueue.

## Findings

| source | as written | input that shows it | evidently intended | confidence | as-written member | corrected member |
|---|---|---|---|---|---|---|
| Sources/Threading/Components/LinkedQueue.swift:90 | `dequeue` advances `root` but never clears `tail`, so a drained queue keeps a stale tail; the next `enqueue` links onto the detached node and leaves `root` nil | enqueue x, dequeue, enqueue y: `back` was x at `count == 0`, then `front` is nil with `count == 1` and a further dequeue is fatal | clear `tail` when the last node is removed, so the queue stays a FIFO after being emptied | not executed | `Linked.DrainThenEnqueue` | `Linked.LinkedQueue.DequeueClearingTail` |
| Sources/Threading/Components/CircularQueue.swift:70 | the growth loop stops when `index(after: i) == endIndex`; on a full buffer `endIndex == startIndex`, so only `capacity - 1` elements are copied, and `count` is not reset to the number copied | capacity 2, push 0, 1, 2: capacity 4, slots `[0, 2]`, `endIndex == 2`, `count == 3`; element 1 is lost | copy all `count` live elements in order to `[0, count)` before pushing | not executed | `Circular.GrowthDropsElement` | `Circular.CircularQueue.Push` |
