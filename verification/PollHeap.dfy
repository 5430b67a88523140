/** The scheduler's min-heap: container/heap's algorithms over the repository's
    Less, Swap, Push and Pop.

    A poll item is a pointer in the program; here it is the number of the item in
    order of creation.  `slots` is the slice, `index` holds every item's index
    field, and `next` (a parameter, because no heap operation writes it) holds
    every item's NextPollMs.  The slice may hold an item twice: some
    interleavings of the scheduler bring that about.  */
module PollHeap {

  datatype Heap = Heap(slots: seq<nat>, index: seq<int>)

  /** Every slot holds an existing item. */
  ghost predicate InRange(h: Heap) {
    forall k | 0 <= k < |h.slots| :: h.slots[k] < |h.index|
  }

  /** ... and every item has a next poll time. */
  ghost predicate Timed(h: Heap, next: seq<int>) {
    InRange(h) && |next| == |h.index|
  }

  /** An item with a non-negative index field sits at that slot.  Holds in every
      interleaving, so heap.Remove(item.index) never misses. */
  ghost predicate Tracked(h: Heap) {
    InRange(h) && forall x: nat | x < |h.index| :: TrackedAt(h, x)
  }

  ghost predicate TrackedAt(h: Heap, x: nat)
    requires x < |h.index|
  {
    h.index[x] == -1 || (0 <= h.index[x] < |h.slots| && h.slots[h.index[x]] == x)
  }

  /** Every slot is the one its item's index field names: no item occurs twice. */
  ghost predicate Exact(h: Heap) {
    InRange(h) && forall k: nat | k < |h.slots| :: ExactAt(h, k)
  }

  ghost predicate ExactAt(h: Heap, k: nat)
    requires InRange(h) && k < |h.slots|
  {
    h.index[h.slots[k]] == k
  }

  ghost predicate SameShape(h: Heap, r: Heap) {
    InRange(r) && |r.index| == |h.index| && |r.slots| == |h.slots|
  }

  /** `r` holds the same items as `h`, in some order. */
  ghost predicate Rearranged(h: Heap, r: Heap) {
    && SameShape(h, r)
    && multiset(r.slots) == multiset(h.slots)
    && (Tracked(h) ==> Tracked(r))
    && (Exact(h) ==> Exact(r))
  }

  function Parent(j: nat): nat {
    if j == 0 then 0 else (j - 1) / 2
  }

  function At(h: Heap, next: seq<int>, k: nat): int
    requires Timed(h, next) && k < |h.slots|
  {
    next[h.slots[k]]
  }

  predicate Less(h: Heap, next: seq<int>, i: nat, j: nat)
    requires Timed(h, next) && i < |h.slots| && j < |h.slots|
  {
    At(h, next, i) < At(h, next, j)
  }

  function Swap(h: Heap, i: nat, j: nat): (r: Heap)
    requires InRange(h) && i < |h.slots| && j < |h.slots|
    ensures SameShape(h, r)
  {
    var a, b := h.slots[i], h.slots[j];
    Heap(h.slots[i := b][j := a], h.index[b := i][a := j])
  }

  /** Moves slot j towards the root. */
  function Up(h: Heap, next: seq<int>, j: nat): (r: Heap)
    requires Timed(h, next) && j < |h.slots|
    ensures SameShape(h, r)
    decreases j
  {
    var i := Parent(j);
    if i == j || !Less(h, next, j, i) then h
    else Up(Swap(h, i, j), next, i)
  }

  /** The child of slot i that down looks at. */
  function SmallerChild(h: Heap, next: seq<int>, i: nat, n: nat): (j: nat)
    requires Timed(h, next) && 2 * i + 1 < n <= |h.slots|
    ensures i < j < n && Parent(j) == i
    ensures forall k | 0 < k < n && Parent(k) == i :: At(h, next, j) <= At(h, next, k)
  {
    var j1 := 2 * i + 1;
    if j1 + 1 < n && Less(h, next, j1 + 1, j1) then j1 + 1 else j1
  }

  /** Moves slot i towards the leaves of the first n slots and says where it
      came to rest. */
  function Down(h: Heap, next: seq<int>, i: nat, n: nat): (r: (Heap, nat))
    requires Timed(h, next) && i < n <= |h.slots|
    ensures SameShape(h, r.0)
    ensures i <= r.1 < n && (r.1 == i ==> r.0 == h)
    decreases n - i
  {
    if 2 * i + 1 >= n then (h, i)
    else
      var j := SmallerChild(h, next, i, n);
      if !Less(h, next, j, i) then (h, i)
      else Down(Swap(h, i, j), next, j, n)
  }

  /** PollHeap.Push followed by up: heap.Push. */
  function Push(h: Heap, next: seq<int>, x: nat): (r: Heap)
    requires Timed(h, next) && x < |h.index|
    ensures InRange(r) && |r.index| == |h.index| && |r.slots| == |h.slots| + 1
  {
    Up(Append(h, x), next, |h.slots|)
  }

  /** PollHeap.Push: append the item and set its index field. */
  function Append(h: Heap, x: nat): (r: Heap)
    requires InRange(h) && x < |h.index|
    ensures InRange(r) && |r.index| == |h.index| && |r.slots| == |h.slots| + 1
  {
    Heap(h.slots + [x], h.index[x := |h.slots|])
  }

  /** PollHeap.Pop: drop the last slot and clear its item's index field. */
  function DropLast(h: Heap): (r: Heap)
    requires InRange(h) && |h.slots| > 0
    ensures InRange(r) && |r.index| == |h.index| && |r.slots| == |h.slots| - 1
  {
    var n := |h.slots| - 1;
    Heap(h.slots[..n], h.index[h.slots[n] := -1])
  }

  /** Moves slot i down among the first n slots or, when it stays, up. */
  function Resift(h: Heap, next: seq<int>, i: nat, n: nat): (r: Heap)
    requires Timed(h, next) && i < n <= |h.slots|
    ensures SameShape(h, r)
  {
    var (h1, pos) := Down(h, next, i, n);
    if pos > i then h1 else Up(h1, next, i)
  }

  /** The heap just before the last step of heap.Remove(h, i). */
  function Unhook(h: Heap, next: seq<int>, i: nat): (r: Heap)
    requires Timed(h, next) && i < |h.slots|
    ensures SameShape(h, r)
  {
    var n := |h.slots| - 1;
    if n == i then h else Resift(Swap(h, i, n), next, i, n)
  }

  /** heap.Remove(h, i). */
  function Remove(h: Heap, next: seq<int>, i: nat): (r: Heap)
    requires Timed(h, next) && i < |h.slots|
    ensures InRange(r) && |r.index| == |h.index| && |r.slots| == |h.slots| - 1
  {
    DropLast(Unhook(h, next, i))
  }

  /** The heap just before the last step of heap.Pop. */
  function Unroot(h: Heap, next: seq<int>): (r: Heap)
    requires Timed(h, next) && |h.slots| > 0
    ensures SameShape(h, r)
  {
    var n := |h.slots| - 1;
    var h1 := Swap(h, 0, n);
    if n == 0 then h1 else Down(h1, next, 0, n).0
  }

  /** heap.Pop. */
  function Pop(h: Heap, next: seq<int>): (r: Heap)
    requires Timed(h, next) && |h.slots| > 0
    ensures InRange(r) && |r.index| == |h.index| && |r.slots| == |h.slots| - 1
  {
    DropLast(Unroot(h, next))
  }

  // ----- what is in the heap, whatever its order -----

  lemma SwapRearranges(h: Heap, i: nat, j: nat)
    requires InRange(h) && i < |h.slots| && j < |h.slots|
    ensures Rearranged(h, Swap(h, i, j))
  {
    var r := Swap(h, i, j);
    if Tracked(h) {
      forall y: nat | y < |h.index|
        ensures TrackedAt(r, y)
      {
        assert TrackedAt(h, y);
      }
    }
    if Exact(h) {
      assert ExactAt(h, i) && ExactAt(h, j);
      forall k: nat | k < |h.slots|
        ensures ExactAt(r, k)
      {
        assert ExactAt(h, k);
      }
    }
  }

  lemma {:induction false} UpRearranges(h: Heap, next: seq<int>, j: nat)
    requires Timed(h, next) && j < |h.slots|
    ensures Rearranged(h, Up(h, next, j))
    ensures forall k | j < k < |h.slots| :: Up(h, next, j).slots[k] == h.slots[k]
    decreases j
  {
    var i := Parent(j);
    if i != j && Less(h, next, j, i) {
      SwapRearranges(h, i, j);
      UpRearranges(Swap(h, i, j), next, i);
    }
  }

  lemma {:induction false} DownRearranges(h: Heap, next: seq<int>, i: nat, n: nat)
    requires Timed(h, next) && i < n <= |h.slots|
    ensures Rearranged(h, Down(h, next, i, n).0)
    ensures forall k | n <= k < |h.slots| :: Down(h, next, i, n).0.slots[k] == h.slots[k]
    decreases n - i
  {
    if 2 * i + 1 < n {
      var j := SmallerChild(h, next, i, n);
      if Less(h, next, j, i) {
        SwapRearranges(h, i, j);
        DownRearranges(Swap(h, i, j), next, j, n);
      }
    }
  }

  /** `r` is `h` with one occurrence of x put in. */
  ghost predicate PutIn(h: Heap, x: nat, r: Heap) {
    && InRange(r)
    && |r.index| == |h.index|
    && multiset(r.slots) == multiset(h.slots) + multiset{x}
    && (Tracked(h) ==> Tracked(r))
    && (Exact(h) && x !in h.slots ==> Exact(r))
  }

  /** `r` is `h` with one occurrence of x taken out. */
  ghost predicate TakenOut(h: Heap, x: nat, r: Heap) {
    && InRange(r)
    && |r.index| == |h.index|
    && multiset(h.slots) == multiset(r.slots) + multiset{x}
    && (Tracked(h) ==> Tracked(r))
    && (Exact(h) ==> Exact(r) && x !in r.slots)
  }

  lemma PushPutsIn(h: Heap, next: seq<int>, x: nat)
    requires Timed(h, next) && x < |h.index|
    ensures PutIn(h, x, Push(h, next, x))
  {
    var h1 := Append(h, x);
    UpRearranges(h1, next, |h.slots|);
    if Tracked(h) {
      forall y: nat | y < |h.index|
        ensures TrackedAt(h1, y)
      {
        assert TrackedAt(h, y);
      }
    }
    if Exact(h) && x !in h.slots {
      forall k: nat | k < |h1.slots|
        ensures ExactAt(h1, k)
      {
        assert k < |h.slots| ==> ExactAt(h, k) && h.slots[k] in h.slots;
      }
    }
  }

  lemma DropLastTakesOut(h: Heap)
    requires InRange(h) && |h.slots| > 0
    ensures TakenOut(h, h.slots[|h.slots| - 1], DropLast(h))
  {
    var n := |h.slots| - 1;
    var r := DropLast(h);
    assert h.slots == h.slots[..n] + [h.slots[n]];
    if Tracked(h) {
      forall y: nat | y < |h.index|
        ensures TrackedAt(r, y)
      {
        assert TrackedAt(h, y);
      }
    }
    if Exact(h) {
      assert ExactAt(h, n);
      forall k: nat | k < n
        ensures ExactAt(r, k) && r.slots[k] != h.slots[n]
      {
        assert ExactAt(h, k);
      }
    }
  }

  lemma RearrangedTwice(h: Heap, h1: Heap, h2: Heap)
    requires Rearranged(h, h1) && Rearranged(h1, h2)
    ensures Rearranged(h, h2)
  {
  }

  lemma ResiftRearranges(h: Heap, next: seq<int>, i: nat, n: nat)
    requires Timed(h, next) && i < n <= |h.slots|
    ensures Rearranged(h, Resift(h, next, i, n))
    ensures forall k | n <= k < |h.slots| :: Resift(h, next, i, n).slots[k] == h.slots[k]
  {
    DownRearranges(h, next, i, n);
    if Down(h, next, i, n).1 == i {
      UpRearranges(h, next, i);
    }
  }

  lemma UnhookRearranges(h: Heap, next: seq<int>, i: nat)
    requires Timed(h, next) && i < |h.slots|
    ensures Rearranged(h, Unhook(h, next, i))
    ensures Unhook(h, next, i).slots[|h.slots| - 1] == h.slots[i]
  {
    var n := |h.slots| - 1;
    if i != n {
      var h1 := Swap(h, i, n);
      SwapRearranges(h, i, n);
      ResiftRearranges(h1, next, i, n);
      RearrangedTwice(h, h1, Resift(h1, next, i, n));
    }
  }

  lemma UnrootRearranges(h: Heap, next: seq<int>)
    requires Timed(h, next) && |h.slots| > 0
    ensures Rearranged(h, Unroot(h, next))
    ensures Unroot(h, next).slots[|h.slots| - 1] == h.slots[0]
  {
    var n := |h.slots| - 1;
    var h1 := Swap(h, 0, n);
    SwapRearranges(h, 0, n);
    if n > 0 {
      DownRearranges(h1, next, 0, n);
      RearrangedTwice(h, h1, Down(h1, next, 0, n).0);
    }
  }

  lemma RearrangedThenTakenOut(h: Heap, h1: Heap, x: nat, r: Heap)
    requires Rearranged(h, h1) && TakenOut(h1, x, r)
    ensures TakenOut(h, x, r)
  {
  }

  /** heap.Remove takes out exactly the item at slot i, in any order of the heap. */
  lemma RemoveTakesOut(h: Heap, next: seq<int>, i: nat)
    requires Timed(h, next) && i < |h.slots|
    ensures TakenOut(h, h.slots[i], Remove(h, next, i))
  {
    var h1 := Unhook(h, next, i);
    UnhookRearranges(h, next, i);
    DropLastTakesOut(h1);
    RearrangedThenTakenOut(h, h1, h.slots[i], DropLast(h1));
  }

  /** heap.Pop takes out exactly the item at the root, in any order of the heap. */
  lemma PopTakesOut(h: Heap, next: seq<int>)
    requires Timed(h, next) && |h.slots| > 0
    ensures TakenOut(h, h.slots[0], Pop(h, next))
  {
    var h1 := Unroot(h, next);
    UnrootRearranges(h, next);
    DropLastTakesOut(h1);
    RearrangedThenTakenOut(h, h1, h.slots[0], DropLast(h1));
  }

  // ----- heap order -----

  /** Slot k is no earlier than its parent. */
  ghost predicate OrderedAt(h: Heap, next: seq<int>, k: nat)
    requires Timed(h, next) && k < |h.slots|
  {
    At(h, next, Parent(k)) <= At(h, next, k)
  }

  /** The first n slots form a min-heap on NextPollMs. */
  ghost predicate OrderedTo(h: Heap, next: seq<int>, n: nat)
    requires Timed(h, next) && n <= |h.slots|
  {
    forall k: nat | k < n :: OrderedAt(h, next, k)
  }

  ghost predicate OrderedBut(h: Heap, next: seq<int>, i: nat, n: nat)
    requires Timed(h, next) && n <= |h.slots|
  {
    forall k: nat | k < n && k != i :: OrderedAt(h, next, k)
  }

  ghost predicate Ordered(h: Heap, next: seq<int>) {
    Timed(h, next) && OrderedTo(h, next, |h.slots|)
  }

  /** The children of slot j are no earlier than the parent of j. */
  ghost predicate SpansOver(h: Heap, next: seq<int>, j: nat, n: nat)
    requires Timed(h, next) && j < n <= |h.slots|
  {
    j > 0 ==> forall k: nat | 0 < k < n && Parent(k) == j :: At(h, next, Parent(j)) <= At(h, next, k)
  }

  lemma {:induction false} UpRestoresOrder(h: Heap, next: seq<int>, j: nat, n: nat)
    requires Timed(h, next) && j < n <= |h.slots|
    requires OrderedBut(h, next, j, n) && SpansOver(h, next, j, n)
    ensures OrderedTo(Up(h, next, j), next, n)
    decreases j
  {
    var i := Parent(j);
    if i != j && Less(h, next, j, i) {
      var h1 := Swap(h, i, j);
      forall k: nat | k < n && k != i
        ensures OrderedAt(h1, next, k)
      {
        assert OrderedAt(h, next, k) || k == j;
      }
      forall k: nat | 0 < i && 0 < k < n && Parent(k) == i
        ensures At(h1, next, Parent(i)) <= At(h1, next, k)
      {
        assert OrderedAt(h, next, i);
        assert k != j ==> OrderedAt(h, next, k);
      }
      UpRestoresOrder(h1, next, i, n);
    }
  }

  /** Everything but slot i and its children is in order, and the children of i
      are no earlier than the parent of i: what down needs, and keeps. */
  ghost predicate Sinking(h: Heap, next: seq<int>, i: nat, n: nat)
    requires Timed(h, next) && i < n <= |h.slots|
  {
    && SpansOver(h, next, i, n)
    && forall k: nat | k < n && k != i && Parent(k) != i :: OrderedAt(h, next, k)
  }

  lemma ParentOf(k: nat, i: nat)
    ensures k > 0 ==> Parent(k) < k && (Parent(k) == i <==> k == 2 * i + 1 || k == 2 * i + 2)
  {
  }

  lemma SinkOneLevel(h: Heap, next: seq<int>, i: nat, j: nat, n: nat)
    requires Timed(h, next) && 2 * i + 1 < n <= |h.slots|
    requires Sinking(h, next, i, n)
    requires j == SmallerChild(h, next, i, n) && Less(h, next, j, i)
    ensures var h1 := Swap(h, i, j);
            Sinking(h1, next, j, n) && OrderedAt(h1, next, j) && OrderedAt(h1, next, i)
  {
    var h1 := Swap(h, i, j);
    forall k: nat | k < n && Parent(k) != j
      ensures OrderedAt(h1, next, k)
    {
      ParentOf(k, i);
      assert k != i && Parent(k) != i ==> OrderedAt(h, next, k);
    }
    forall k: nat | 0 < k < n && Parent(k) == j
      ensures At(h1, next, Parent(j)) <= At(h1, next, k)
    {
      ParentOf(k, j);
      assert OrderedAt(h, next, k);
    }
  }

  lemma RestsAt(h: Heap, next: seq<int>, i: nat, n: nat)
    requires Timed(h, next) && i < n <= |h.slots|
    requires Sinking(h, next, i, n)
    requires 2 * i + 1 < n ==> !Less(h, next, SmallerChild(h, next, i, n), i)
    ensures OrderedBut(h, next, i, n)
  {
    forall k: nat | k < n && k != i
      ensures OrderedAt(h, next, k)
    {
      ParentOf(k, i);
    }
  }

  /** After down from slot i, only slot i itself can still be earlier than its
      parent, and only when nothing moved. */
  lemma {:induction false} DownRestoresOrder(h: Heap, next: seq<int>, i: nat, n: nat)
    requires Timed(h, next) && i < n <= |h.slots|
    requires Sinking(h, next, i, n)
    ensures OrderedBut(Down(h, next, i, n).0, next, i, n)
    ensures Down(h, next, i, n).1 > i ==> OrderedAt(Down(h, next, i, n).0, next, i)
    decreases n - i
  {
    if 2 * i + 1 < n {
      var j := SmallerChild(h, next, i, n);
      if Less(h, next, j, i) {
        var h1 := Swap(h, i, j);
        SinkOneLevel(h, next, i, j, n);
        DownRestoresOrder(h1, next, j, n);
        var down := Down(h1, next, j, n);
        assert Down(h, next, i, n) == down;
        forall k: nat | k < n
          ensures OrderedAt(down.0, next, k)
        {
          if k == j && down.1 == j {
            assert down.0 == h1;
          }
        }
      } else {
        RestsAt(h, next, i, n);
      }
    } else {
      RestsAt(h, next, i, n);
    }
  }

  /** Putting the last slot's item in slot i leaves a heap that down can repair. */
  lemma ReplaceByLast(h: Heap, next: seq<int>, i: nat)
    requires Ordered(h, next) && i < |h.slots| - 1
    ensures Sinking(Swap(h, i, |h.slots| - 1), next, i, |h.slots| - 1)
  {
    var n := |h.slots| - 1;
    var h1 := Swap(h, i, n);
    forall k: nat | k < n && k != i && Parent(k) != i
      ensures OrderedAt(h1, next, k)
    {
      ParentOf(k, i);
      assert OrderedAt(h, next, k);
    }
    forall k: nat | 0 < i && 0 < k < n && Parent(k) == i
      ensures At(h1, next, Parent(i)) <= At(h1, next, k)
    {
      ParentOf(k, i);
      assert OrderedAt(h, next, k) && OrderedAt(h, next, i);
    }
  }

  lemma {:induction false} RootIsEarliest(h: Heap, next: seq<int>, k: nat)
    requires Ordered(h, next) && k < |h.slots|
    ensures At(h, next, 0) <= At(h, next, k)
    decreases k
  {
    if k > 0 {
      assert OrderedAt(h, next, k);
      RootIsEarliest(h, next, Parent(k));
    }
  }

  lemma PushKeepsOrder(h: Heap, next: seq<int>, x: nat)
    requires Ordered(h, next) && x < |h.index|
    ensures Ordered(Push(h, next, x), next)
  {
    var n := |h.slots|;
    var h1 := Append(h, x);
    forall k: nat | k < n + 1 && k != n
      ensures OrderedAt(h1, next, k)
    {
      assert OrderedAt(h, next, k);
    }
    UpRestoresOrder(h1, next, n, n + 1);
  }

  lemma DropLastKeepsOrder(h: Heap, next: seq<int>)
    requires Timed(h, next) && |h.slots| > 0
    requires OrderedTo(h, next, |h.slots| - 1)
    ensures Ordered(DropLast(h), next)
  {
    var r := DropLast(h);
    forall k: nat | k < |r.slots|
      ensures OrderedAt(r, next, k)
    {
      assert OrderedAt(h, next, k);
    }
  }

  lemma ResiftRestoresOrder(h: Heap, next: seq<int>, i: nat, n: nat)
    requires Timed(h, next) && i < n <= |h.slots|
    requires Sinking(h, next, i, n)
    ensures OrderedTo(Resift(h, next, i, n), next, n)
  {
    DownRestoresOrder(h, next, i, n);
    if Down(h, next, i, n).1 == i {
      UpRestoresOrder(h, next, i, n);
    }
  }

  lemma UnhookKeepsOrder(h: Heap, next: seq<int>, i: nat)
    requires Ordered(h, next) && i < |h.slots| - 1
    ensures OrderedTo(Unhook(h, next, i), next, |h.slots| - 1)
  {
    ReplaceByLast(h, next, i);
    ResiftRestoresOrder(Swap(h, i, |h.slots| - 1), next, i, |h.slots| - 1);
  }

  lemma RemoveKeepsOrder(h: Heap, next: seq<int>, i: nat)
    requires Ordered(h, next) && i < |h.slots|
    ensures Ordered(Remove(h, next, i), next)
  {
    if i < |h.slots| - 1 {
      UnhookKeepsOrder(h, next, i);
    }
    DropLastKeepsOrder(Unhook(h, next, i), next);
  }

  lemma UnrootKeepsOrder(h: Heap, next: seq<int>)
    requires Ordered(h, next) && |h.slots| > 0
    ensures OrderedTo(Unroot(h, next), next, |h.slots| - 1)
  {
    var n := |h.slots| - 1;
    if n > 0 {
      var h1 := Swap(h, 0, n);
      ReplaceByLast(h, next, 0);
      DownRestoresOrder(h1, next, 0, n);
      assert Unroot(h, next) == Down(h1, next, 0, n).0;
    }
  }

  lemma PopKeepsOrder(h: Heap, next: seq<int>)
    requires Ordered(h, next) && |h.slots| > 0
    ensures Ordered(Pop(h, next), next)
  {
    UnrootKeepsOrder(h, next);
    DropLastKeepsOrder(Unroot(h, next), next);
  }
}
