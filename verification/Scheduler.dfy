/** The scheduler as the program writes it: items updated in place, a slice heap with
    back-pointers, and container/heap's loops.  Every method is the step of
    SchedulerModel that bears its name; the lock makes each of them atomic. */
module SchedulerClass {
  import opened PollerKeys
  import H = PollHeap
  import M = SchedulerModel

  class PollItem {
    const key: PollerKey
    var nextPollMs: int
    var intervalMs: nat
    var polling: bool
    var index: int
    ghost const id: nat // the number of the item in order of creation

    constructor (key: PollerKey, nextPollMs: int, intervalMs: nat, ghost id: nat)
      ensures this.key == key && this.nextPollMs == nextPollMs && this.intervalMs == intervalMs
      ensures this.id == id && !polling && index == -1
    {
      this.key, this.nextPollMs, this.intervalMs, this.id := key, nextPollMs, intervalMs, id;
      polling, index := false, -1; // push overwrites index before anyone reads it
    }
  }

  /** The slice with its back-pointers. */
  class ItemHeap {
    var slots: seq<PollItem>
    ghost var items: seq<PollItem> // every item ever created, in that order
    ghost var repr: set<PollItem>  // the same items

    /** `h` and `next` are what the slice and the items say. */
    ghost predicate Shows(h: H.Heap, next: seq<int>)
      reads this, repr`nextPollMs, repr`index
    {
      && H.Timed(h, next)
      && |items| == |next|
      && |slots| == |h.slots|
      && (forall i: nat {:trigger items[i]} | i < |items| ::
            items[i] in repr && items[i].id == i && items[i].nextPollMs == next[i] && items[i].index == h.index[i])
      && (forall k: nat {:trigger slots[k]} | k < |slots| :: h.slots[k] < |items| && slots[k] == items[h.slots[k]])
    }

    constructor ()
      ensures slots == [] && items == [] && repr == {}
    {
      slots, items, repr := [], [], {};
    }

    method Swap(i: nat, j: nat, ghost h: H.Heap, ghost next: seq<int>)
      requires Shows(h, next) && i < |slots| && j < |slots|
      modifies this`slots, repr`index
      ensures Shows(H.Swap(h, i, j), next)
    {
      var a, b := slots[i], slots[j];
      slots := slots[i := b][j := a];
      b.index := i;
      a.index := j;
    }

    method Up(j0: nat, ghost h0: H.Heap, ghost next: seq<int>)
      requires Shows(h0, next) && j0 < |slots|
      modifies this`slots, repr`index
      ensures Shows(H.Up(h0, next, j0), next)
    {
      var j := j0;
      var i: nat := H.Parent(j);
      ghost var h := h0;
      while i != j && slots[j].nextPollMs < slots[i].nextPollMs
        invariant Shows(h, next) && i <= j < |slots| && i == H.Parent(j)
        invariant H.Up(h, next, j) == H.Up(h0, next, j0)
        decreases j
      {
        Swap(i, j, h, next);
        h := H.Swap(h, i, j);
        j := i;
        i := H.Parent(j);
      }
    }

    method SmallerChild(i: nat, n: nat, ghost h: H.Heap, ghost next: seq<int>) returns (j: nat)
      requires Shows(h, next) && 2 * i + 1 < n <= |slots|
      ensures j == H.SmallerChild(h, next, i, n)
    {
      j := 2 * i + 1;
      if j + 1 < n && slots[j + 1].nextPollMs < slots[j].nextPollMs {
        j := j + 1;
      }
    }

    method Down(i0: nat, n: nat, ghost h0: H.Heap, ghost next: seq<int>)
      returns (moved: bool)
      requires Shows(h0, next) && i0 < n <= |slots|
      modifies this`slots, repr`index
      ensures Shows(H.Down(h0, next, i0, n).0, next)
      ensures moved <==> H.Down(h0, next, i0, n).1 > i0
    {
      hide H.Swap;
      var i := i0;
      ghost var h := h0;
      while 2 * i + 1 < n
        invariant Shows(h, next) && i0 <= i < n <= |slots|
        invariant H.Down(h, next, i, n) == H.Down(h0, next, i0, n)
        decreases n - i
      {
        var j := SmallerChild(i, n, h, next);
        if !(slots[j].nextPollMs < slots[i].nextPollMs) {
          break;
        }
        Swap(i, j, h, next);
        h := H.Swap(h, i, j);
        i := j;
      }
      moved := i > i0;
    }

    /** PollHeap.Push, then up. */
    method Push(item: PollItem, ghost h: H.Heap, ghost next: seq<int>)
      requires Shows(h, next) && item.id < |items| && items[item.id] == item
      modifies this`slots, repr`index
      ensures Shows(H.Push(h, next, item.id), next)
    {
      item.index := |slots|;
      slots := slots + [item];
      Up(|slots| - 1, H.Append(h, item.id), next);
    }

    /** PollHeap.Pop: the last slot. */
    method DropLast(ghost h: H.Heap, ghost next: seq<int>)
      returns (item: PollItem)
      requires Shows(h, next) && |slots| > 0
      modifies this`slots, repr`index
      ensures Shows(H.DropLast(h), next)
      ensures item == old(slots)[|old(slots)| - 1]
    {
      var n := |slots| - 1;
      item := slots[n];
      item.index := -1;
      slots := slots[..n];
    }

    /** heap.Pop: the root. */
    method Pop(ghost h: H.Heap, ghost next: seq<int>)
      returns (item: PollItem)
      requires Shows(h, next) && |slots| > 0
      modifies this`slots, repr`index
      ensures Shows(H.Pop(h, next), next)
      ensures item == old(slots)[0]
    {
      H.UnrootRearranges(h, next);
      hide H.Down, H.Swap, H.DropLast, H.Rearranged;
      var n := |slots| - 1;
      Swap(0, n, h, next);
      if n > 0 {
        var _ := Down(0, n, H.Swap(h, 0, n), next);
      }
      item := DropLast(H.Unroot(h, next), next);
    }

    /** heap.Remove: slot i. */
    method Remove(i: nat, ghost h: H.Heap, ghost next: seq<int>)
      returns (item: PollItem)
      requires Shows(h, next) && i < |slots|
      modifies this`slots, repr`index
      ensures Shows(H.Remove(h, next, i), next)
      ensures item == old(slots)[i]
    {
      H.UnhookRearranges(h, next, i);
      hide H.Resift, H.Rearranged, H.DropLast;
      var n := |slots| - 1;
      if n != i {
        SwapAndResift(i, n, h, next);
      }
      item := DropLast(H.Unhook(h, next, i), next);
    }

    /** The part of heap.Remove for a slot that is not the last. */
    method SwapAndResift(i: nat, n: nat, ghost h: H.Heap, ghost next: seq<int>)
      requires Shows(h, next) && i < n == |slots| - 1
      modifies this`slots, repr`index
      ensures Shows(H.Unhook(h, next, i), next)
    {
      hide H.Up, H.Down, H.Swap;
      ghost var h1 := H.Swap(h, i, n);
      Swap(i, n, h, next);
      var moved := Down(i, n, h1, next);
      if !moved {
        Up(i, h1, next);
      }
    }
  }

  /** Its methods take, as a ghost, the abstract state they start from. */
  class Scheduler {
    const heap: ItemHeap
    var heapIdx: map<string, PollItem>
    var jobs: seq<PollerKey>
    const queueSize: nat
    var dueItems: seq<PollItem>      // processDueItems' local list, and its clock reading
    var passNow: int
    var running: multiset<PollerKey> // the workers' current jobs

    /** The fields say what the abstract state says. */
    ghost predicate Is(s: M.State)
      reads this, heap, heap.repr
    {
      && ItemsAre(s)
      && IndexIs(s.idx)
      && ListsItems(dueItems, s.due)
      && jobs == s.jobs && queueSize == s.queueSize && passNow == s.passNow && running == s.running
    }

    ghost predicate IndexIs(idx: map<string, nat>)
      reads this`heapIdx, heap`items
    {
      && heapIdx.Keys == idx.Keys
      && forall k {:trigger heapIdx[k]} | k in heapIdx ::
           idx[k] < |heap.items| && heapIdx[k] == heap.items[idx[k]]
    }

    ghost predicate ListsItems(list: seq<PollItem>, ids: seq<nat>)
      reads heap`items
    {
      && |list| == |ids|
      && forall k: nat {:trigger list[k]} | k < |list| :: ids[k] < |heap.items| && list[k] == heap.items[ids[k]]
    }

    ghost predicate ItemsAre(s: M.State)
      reads heap, heap.repr
    {
      heap.Shows(s.heap, s.next) && Written(s.key, s.interval, s.polling)
    }

    ghost predicate Written(key: seq<PollerKey>, interval: seq<nat>, polling: seq<bool>)
      reads heap`items, heap`repr, heap.repr`intervalMs, heap.repr`polling
    {
      && |heap.items| == |key| == |interval| == |polling|
      && forall i: nat {:trigger heap.items[i]} | i < |heap.items| ::
           && heap.items[i] in heap.repr
           && heap.items[i].key == key[i]
           && heap.items[i].intervalMs == interval[i]
           && heap.items[i].polling == polling[i]
    }

    constructor (queueSize: nat, now: int)
      ensures fresh(heap) && Is(M.Init(queueSize, now))
    {
      heap := new ItemHeap();
      heapIdx, jobs, dueItems, running := map[], [], [], multiset{};
      this.queueSize, passNow := queueSize, now;
    }

    // ----- the operations -----

    method Add(key: PollerKey, intervalMs: nat, jitter: nat, now: int, ghost s: M.State)
      requires M.Sane(s) && Is(s) && M.Enabled(s, M.Add(key, intervalMs, jitter, now))
      modifies heap, this`heapIdx, heap.repr`index
      ensures Is(M.Next(s, M.Add(key, intervalMs, jitter, now)))
      ensures old(heap.repr) <= heap.repr && fresh(heap.repr - old(heap.repr))
    {
      hide M.Next, M.Effect, M.Sane, M.AddStep, M.PushItem, M.Enabled, H.Push, PollerKey.String, ItemHeap.Shows, Scheduler.Written;
      AddFields(s, key, intervalMs, jitter, now);
      var keyStr := key.String();
      if keyStr in heapIdx {
        return;
      }
      var item := NewItem(key, now + jitter, intervalMs, s);
      heap.Push(item, H.Heap(s.heap.slots, s.heap.index + [-1]), s.next + [now + jitter]);
      heapIdx := heapIdx[keyStr := item];
    }

    method NewItem(key: PollerKey, nextPollMs: int, intervalMs: nat, ghost s: M.State) returns (item: PollItem)
      requires ItemsAre(s) && |s.key| == |s.next|
      modifies heap`items, heap`repr
      ensures item.id == |s.next| == |old(heap.items)| && heap.items == old(heap.items) + [item]
      ensures fresh(item) && heap.repr == old(heap.repr) + {item}
      ensures heap.Shows(H.Heap(s.heap.slots, s.heap.index + [-1]), s.next + [nextPollMs])
      ensures Written(s.key + [key], s.interval + [intervalMs], s.polling + [false])
    {
      item := new PollItem(key, nextPollMs, intervalMs, |heap.items|);
      heap.items, heap.repr := heap.items + [item], heap.repr + {item};
    }

    method Remove(key: PollerKey, now: int, ghost s: M.State)
      requires M.Sane(s) && Is(s) && M.Enabled(s, M.Remove(key, now))
      modifies heap`slots, this`heapIdx, heap.repr`index
      ensures Is(M.Next(s, M.Remove(key, now)))
    {
      hide M.Next, M.Effect, M.Sane, M.RemoveStep, M.TakeOut, H.Remove;
      RemoveFields(s, key, now);
      var keyStr := key.String();
      if keyStr in heapIdx {
        var item := heapIdx[keyStr];
        if item.index >= 0 {
          var _ := heap.Remove(item.index, s.heap, s.next);
        }
        heapIdx := heapIdx - {keyStr};
      }
    }

    method UpdateInterval(key: PollerKey, intervalMs: nat, now: int, ghost s: M.State)
      requires M.Sane(s) && Is(s) && M.Enabled(s, M.UpdateInterval(key, intervalMs, now))
      modifies heap.repr`intervalMs
      ensures Is(M.Next(s, M.UpdateInterval(key, intervalMs, now)))
    {
      UpdateIntervalFields(s, key, intervalMs, now);
      var keyStr := key.String();
      if keyStr in heapIdx {
        var item := heapIdx[keyStr];
        item.intervalMs := intervalMs;
      }
    }

    method Pause(key: PollerKey, now: int, ghost s: M.State)
      requires M.Sane(s) && Is(s) && M.Enabled(s, M.Pause(key, now))
      modifies heap`slots, heap.repr`index
      ensures Is(M.Next(s, M.Pause(key, now)))
    {
      hide M.Next, M.Effect, M.Sane, M.PauseStep, M.TakeOut, H.Remove;
      PauseFields(s, key, now);
      var keyStr := key.String();
      if keyStr in heapIdx {
        var item := heapIdx[keyStr];
        if item.index >= 0 {
          var _ := heap.Remove(item.index, s.heap, s.next);
          item.index := -1; // it is -1 already
        }
      }
    }

    method Resume(key: PollerKey, now: int, ghost s: M.State)
      requires M.Sane(s) && Is(s) && M.Enabled(s, M.Resume(key, now))
      modifies heap`slots, heap.repr`index, heap.repr`nextPollMs, heap.repr`polling
      ensures Is(M.Next(s, M.Resume(key, now)))
    {
      hide M.Next, M.Effect, M.Sane, M.ResumeStep, H.Push;
      ResumeFields(s, key, now);
      var keyStr := key.String();
      if keyStr in heapIdx {
        var item := heapIdx[keyStr];
        if item.index < 0 {
          Requeue(item, now, s);
        }
      }
    }

    /** A new poll time, and no longer marked Polling. */
    method Reset(item: PollItem, time: int, ghost s: M.State)
      requires ItemsAre(s)
      requires item.id < |heap.items| && heap.items[item.id] == item
      modifies heap.repr`nextPollMs, heap.repr`polling
      ensures heap.Shows(s.heap, s.next[item.id := time])
      ensures Written(s.key, s.interval, s.polling[item.id := false])
    {
      item.nextPollMs := time;
      item.polling := false;
    }

    /** The writes with which a poller goes back into the heap. */
    method Requeue(item: PollItem, time: int, ghost s: M.State)
      requires ItemsAre(s)
      requires item.id < |heap.items| && heap.items[item.id] == item
      modifies heap`slots, heap.repr`index, heap.repr`nextPollMs, heap.repr`polling
      ensures heap.Shows(H.Push(s.heap, s.next[item.id := time], item.id), s.next[item.id := time])
      ensures Written(s.key, s.interval, s.polling[item.id := false])
    {
      hide H.Push;
      Reset(item, time, s);
      heap.Push(item, s.heap, s.next[item.id := time]);
    }

    method Mark(item: PollItem, ghost key: seq<PollerKey>, ghost interval: seq<nat>, ghost polling: seq<bool>)
      requires Written(key, interval, polling) && item.id < |heap.items| && heap.items[item.id] == item
      requires forall i: nat {:trigger heap.items[i]} | i < |heap.items| :: heap.items[i].id == i
      modifies heap.repr`polling
      ensures Written(key, interval, polling[item.id := true])
    {
      item.polling := true;
    }

    /** Phase 1 of processDueItems: under the lock. */
    method CollectDueItems(now: int, at: int, ghost s: M.State)
      requires M.Sane(s) && Is(s) && M.Enabled(s, M.Collect(now, at))
      modifies heap`slots, this`dueItems, this`passNow, heap.repr`index, heap.repr`polling
      ensures Is(M.Next(s, M.Collect(now, at)))
    {
      hide M.Next, M.Effect, M.Sane, M.CollectStep, M.CollectDue, M.Enabled, H.Pop, PollerKey.String, Scheduler.IndexIs;
      CollectFields(s, now, at);
      var due: seq<PollItem> := [];
      ghost var h, polling, taken: seq<nat> := s.heap, s.polling, [];
      while |heap.slots| > 0
        invariant heap.Shows(h, s.next) && Written(s.key, s.interval, polling)
        invariant ListsItems(due, taken)
        invariant Continues(M.CollectDue(s.heap, s.next, s.polling, now), taken,
                            M.CollectDue(h, s.next, polling, now))
        decreases |heap.slots|
      {
        CollectTurn(h, s.next, polling, now, taken);
        var next := heap.slots[0];
        if next.nextPollMs > now {
          break;
        }
        var polled := next.polling;
        assert next.id < |heap.items| && heap.items[next.id] == next;
        var item := heap.Pop(h, s.next);
        h := H.Pop(h, s.next);
        if polled {
          continue;
        }
        Mark(item, s.key, s.interval, polling);
        polling := polling[item.id := true];
        due := due + [item];
        taken := taken + [item.id];
      }
      CollectEnds(h, s.next, polling, now);
      dueItems, passNow := due, now;
    }

    /** A pass that has taken these items and goes on as `rest` ends as `whole`. */
    static ghost predicate Continues(whole: M.Collected, taken: seq<nat>, rest: M.Collected) {
      whole.heap == rest.heap && whole.polling == rest.polling && whole.taken == taken + rest.taken
    }

    /** One turn of phase 2: send the first collected item's job or, when the queue
        is full, put the item back. */
    method QueueFirst(at: int, ghost s: M.State)
      requires M.Sane(s) && Is(s) && dueItems != [] && at >= s.clock && |jobs| <= queueSize
      modifies heap`slots, this`dueItems, this`jobs
      modifies heap.repr`index, heap.repr`nextPollMs, heap.repr`polling
      ensures |jobs| <= queueSize && |dueItems| == |old(dueItems)| - 1 && Is(Sent(s, at))
    {
      hide M.Next, M.Effect, M.Sane, M.EnqueueStep, M.RescheduleStep, H.Push;
      SentFields(s, at);
      var item := dueItems[0];
      assert item.id == s.due[0];
      dueItems := dueItems[1..];
      assert ListsItems(dueItems, s.due[1..]);
      if |jobs| < queueSize {
        jobs := jobs + [item.key];
      } else {
        Requeue(item, passNow + 10, s);
      }
    }

    /** The select in phase 2 when no worker waits on the channel. */
    static ghost function Sent(s: M.State, at: int): (r: M.State)
      requires M.Sane(s) && s.clock <= at && |s.jobs| <= s.queueSize && s.due != []
      ensures M.Sane(r)
    {
      M.Next(s, if |s.jobs| < s.queueSize then M.Enqueue(at) else M.Reschedule(at))
    }

    /** The queueing phase that no other step interrupts. */
    static ghost function Drained(s: M.State, at: int): (r: M.State)
      requires M.Sane(s) && s.clock <= at && |s.jobs| <= s.queueSize
      ensures M.Sane(r)
      decreases |s.due|
    {
      if s.due == [] then s else Drained(Sent(s, at), at)
    }

    /** processDueItems when no other step comes in between. */
    method ProcessDueItems(now: int, at: int, ghost s: M.State)
      requires M.Sane(s) && Is(s) && M.Enabled(s, M.Collect(now, at)) && |jobs| <= queueSize
      modifies heap`slots, this`dueItems, this`passNow, this`jobs
      modifies heap.repr`index, heap.repr`nextPollMs, heap.repr`polling
      ensures dueItems == [] && Is(Drained(M.Next(s, M.Collect(now, at)), at))
    {
      hide M.Sane, M.Effect, Scheduler.ItemsAre, Scheduler.IndexIs, M.CollectStep;
      CollectDueItems(now, at, s);
      ghost var t := M.Next(s, M.Collect(now, at));
      while dueItems != []
        invariant M.Sane(t) && Is(t) && t.clock == at && |jobs| <= queueSize
        invariant Drained(t, at) == Drained(M.Next(s, M.Collect(now, at)), at)
        decreases |dueItems|
      {
        QueueFirst(at, t);
        t := Sent(t, at);
      }
    }

    /** A worker receives a job. */
    method TakeJob(at: int, ghost s: M.State) returns (job: PollerKey)
      requires M.Sane(s) && Is(s) && M.Enabled(s, M.Take(at))
      modifies this`jobs, this`running
      ensures job == old(jobs)[0] && Is(M.Next(s, M.Take(at)))
    {
      ReceivedFields(s, at);
      job := jobs[0];
      jobs := jobs[1..];
      running := running + multiset{job};
    }

    /** A waiting worker receives a job the moment it is sent. */
    method HandOff(at: int, ghost s: M.State) returns (job: PollerKey)
      requires M.Sane(s) && Is(s) && M.Enabled(s, M.HandOff(at))
      modifies this`dueItems, this`running
      ensures job == old(dueItems[0].key) && Is(M.Next(s, M.HandOff(at)))
    {
      ReceivedFields(s, at);
      job := dueItems[0].key;
      dueItems := dueItems[1..];
      running := running + multiset{job};
    }

    method MarkComplete(key: PollerKey, now: int, ghost s: M.State)
      requires M.Sane(s) && Is(s) && M.Enabled(s, M.Complete(key, now))
      modifies heap`slots, this`running, heap.repr`index, heap.repr`nextPollMs, heap.repr`polling
      ensures Is(M.Next(s, M.Complete(key, now)))
    {
      hide M.Next, M.Effect, M.Sane, M.CompleteStep, M.Enabled, H.Push, PollerKey.String;
      CompleteFields(s, key, now);
      running := running - multiset{key};
      var keyStr := key.String();
      if keyStr !in heapIdx {
        return;
      }
      var item := heapIdx[keyStr];
      var time := now + item.intervalMs;
      PutBack(item, time, s);
    }

    /** MarkComplete's writes to the item. */
    method PutBack(item: PollItem, time: int, ghost s: M.State)
      requires ItemsAre(s) && item.id < |heap.items| && heap.items[item.id] == item
      modifies heap`slots, heap.repr`index, heap.repr`nextPollMs, heap.repr`polling
      ensures heap.Shows(if old(item.index) < 0 then H.Push(s.heap, s.next[item.id := time], item.id) else s.heap,
                         s.next[item.id := time])
      ensures Written(s.key, s.interval, s.polling[item.id := false])
    {
      hide H.Push;
      Reset(item, time, s);
      if item.index < 0 {
        heap.Push(item, s.heap, s.next[item.id := time]);
      }
    }
  }

  // ----- the steps field by field -----

  ghost function Requeued(s: M.State, x: nat, time: int): M.State
    requires H.Timed(s.heap, s.next) && x < |s.next| == |s.polling|
  {
    var next := s.next[x := time];
    s.(heap := H.Push(s.heap, next, x), next := next, polling := s.polling[x := false], parked := s.parked - {x})
  }

  lemma AddFields(s: M.State, k: PollerKey, interval: nat, jitter: nat, at: int)
    requires M.Sane(s) && M.Enabled(s, M.Add(k, interval, jitter, at))
    ensures H.Timed(s.heap, s.next) && |s.next| == |s.key|
    ensures var r := M.Next(s, M.Add(k, interval, jitter, at));
            if k.String() in s.idx then r == s.(clock := at)
            else
              var h := H.Heap(s.heap.slots, s.heap.index + [-1]);
              var next := s.next + [at + jitter];
              && H.Timed(h, next)
              && r == s.(heap := H.Push(h, next, |s.next|), next := next, interval := s.interval + [interval],
                         polling := s.polling + [false], key := s.key + [k],
                         idx := s.idx[k.String() := |s.next|], parked := s.parked - {|s.next|}, clock := at)
  {
  }

  lemma RemoveFields(s: M.State, k: PollerKey, at: int)
    requires M.Sane(s) && M.Enabled(s, M.Remove(k, at))
    ensures H.Timed(s.heap, s.next)
    ensures var r := M.Next(s, M.Remove(k, at));
            if k.String() !in s.idx then r == s.(clock := at)
            else
              && s.idx[k.String()] < |s.heap.index|
              && var i := s.heap.index[s.idx[k.String()]];
              && (i >= 0 ==> i < |s.heap.slots|)
              && r == s.(heap := if i >= 0 then H.Remove(s.heap, s.next, i) else s.heap,
                         idx := s.idx - {k.String()}, clock := at)
  {
    if k.String() in s.idx {
      assert H.TrackedAt(s.heap, s.idx[k.String()]);
    }
  }

  lemma UpdateIntervalFields(s: M.State, k: PollerKey, interval: nat, at: int)
    requires M.Sane(s) && M.Enabled(s, M.UpdateInterval(k, interval, at))
    ensures var r := M.Next(s, M.UpdateInterval(k, interval, at));
            if k.String() !in s.idx then r == s.(clock := at)
            else
              && s.idx[k.String()] < |s.interval|
              && r == s.(interval := s.interval[s.idx[k.String()] := interval], clock := at)
  {
  }

  /** What a worker receives is counted as running until it is complete. */
  lemma ReceivedFields(s: M.State, at: int)
    requires M.Sane(s)
    ensures M.Enabled(s, M.Take(at)) ==>
              M.Next(s, M.Take(at)) == s.(jobs := s.jobs[1..], running := s.running + multiset{s.jobs[0]}, clock := at)
    ensures M.Enabled(s, M.HandOff(at)) ==>
              && s.due[0] < |s.key|
              && M.Next(s, M.HandOff(at))
                 == s.(due := s.due[1..], running := s.running + multiset{s.key[s.due[0]]}, clock := at)
  {
  }

  lemma PauseFields(s: M.State, k: PollerKey, at: int)
    requires M.Sane(s) && M.Enabled(s, M.Pause(k, at))
    ensures H.Timed(s.heap, s.next)
    ensures var r := M.Next(s, M.Pause(k, at));
            if k.String() !in s.idx then r == s.(clock := at)
            else
              && s.idx[k.String()] < |s.heap.index|
              && var i := s.heap.index[s.idx[k.String()]];
              && (i >= 0 ==> i < |s.heap.slots|)
              && if i < 0 then r == s.(clock := at)
                 else
                   && r == s.(heap := H.Remove(s.heap, s.next, i), parked := s.parked + {s.idx[k.String()]},
                              clock := at)
                   && r.heap.index[s.idx[k.String()]] == -1
  {
    if k.String() in s.idx {
      var x := s.idx[k.String()];
      assert H.TrackedAt(s.heap, x);
      if s.heap.index[x] >= 0 {
        H.UnhookRearranges(s.heap, s.next, s.heap.index[x]);
      }
    }
  }

  lemma ResumeFields(s: M.State, k: PollerKey, at: int)
    requires M.Sane(s) && M.Enabled(s, M.Resume(k, at))
    ensures H.Timed(s.heap, s.next) && |s.polling| == |s.next|
    ensures var r := M.Next(s, M.Resume(k, at));
            if k.String() !in s.idx then r == s.(clock := at)
            else
              && s.idx[k.String()] < |s.next|
              && if s.heap.index[s.idx[k.String()]] >= 0 then r == s.(clock := at)
                 else
                   r == Requeued(s, s.idx[k.String()], at).(clock := at)
  {
  }

  lemma CollectFields(s: M.State, now: int, at: int)
    requires M.Sane(s) && M.Enabled(s, M.Collect(now, at))
    ensures H.Timed(s.heap, s.next) && |s.polling| == |s.next|
    ensures var c := M.CollectDue(s.heap, s.next, s.polling, now);
            M.Next(s, M.Collect(now, at))
            == s.(heap := c.heap, polling := c.polling, due := c.taken, passNow := now, clock := at)
  {
  }

  /** One turn of the collecting loop. */
  lemma CollectTurn(h: H.Heap, next: seq<int>, polling: seq<bool>, now: int, taken: seq<nat>)
    requires H.Timed(h, next) && |polling| == |next| && |h.slots| > 0
    ensures next[h.slots[0]] <= now ==>
      var x := h.slots[0];
      var c := M.CollectDue(h, next, polling, now);
      if polling[x] then c == M.CollectDue(H.Pop(h, next), next, polling, now)
      else
        var r := M.CollectDue(H.Pop(h, next), next, polling[x := true], now);
        c.heap == r.heap && c.polling == r.polling && taken + c.taken == taken + [x] + r.taken
  {
    var x := h.slots[0];
    if next[x] <= now && !polling[x] {
      var r := M.CollectDue(H.Pop(h, next), next, polling[x := true], now);
      assert taken + ([x] + r.taken) == taken + [x] + r.taken;
    }
  }

  lemma CollectEnds(h: H.Heap, next: seq<int>, polling: seq<bool>, now: int)
    requires H.Timed(h, next) && |polling| == |next|
    requires |h.slots| > 0 ==> next[h.slots[0]] > now
    ensures M.CollectDue(h, next, polling, now) == M.Collected(h, polling, [])
  {
  }

  lemma SentFields(s: M.State, at: int)
    requires M.Sane(s) && s.clock <= at && |s.jobs| <= s.queueSize && s.due != []
    ensures H.Timed(s.heap, s.next) && s.due[0] < |s.key| == |s.next| == |s.polling|
    ensures var r := Scheduler.Sent(s, at);
            if |s.jobs| < s.queueSize
            then r == s.(jobs := s.jobs + [s.key[s.due[0]]], due := s.due[1..], clock := at)
            else
              r == Requeued(s.(due := s.due[1..]), s.due[0], s.passNow + 10).(clock := at)
  {
  }

  lemma CompleteFields(s: M.State, k: PollerKey, at: int)
    requires M.Sane(s) && M.Enabled(s, M.Complete(k, at))
    ensures H.Timed(s.heap, s.next) && |s.next| == |s.interval| == |s.polling|
    ensures var r := M.Next(s, M.Complete(k, at));
            && r.running == s.running - multiset{k}
            && r.key == s.key && r.interval == s.interval && r.idx == s.idx
            && r.due == s.due && r.jobs == s.jobs && r.queueSize == s.queueSize && r.passNow == s.passNow
            && r.clock == at
            && if k.String() !in s.idx then r.heap == s.heap && r.next == s.next && r.polling == s.polling
                                            && r.parked == s.parked
               else
                 && s.idx[k.String()] < |s.next|
                 && var x := s.idx[k.String()];
                    && r.next == s.next[x := at + s.interval[x]]
                    && r.polling == s.polling[x := false]
                    && r.heap == (if s.heap.index[x] < 0 then H.Push(s.heap, r.next, x) else s.heap)
                    && r.parked == if s.heap.index[x] < 0 then s.parked - {x} else s.parked
  {
  }
}
