/** The table of pollers after a run, told key by key from the calls. */
module PollerTables {
  import opened Text
  import opened PollerKeys
  import opened PollerIndexes
  import C = ConfigLayers

  /** What one call makes of a key's poller.  A new poller is disabled unless it says
      otherwise, and has version 1; an update replaces all but the version, which it
      counts on. */
  function Told(was: C.Option<Poller>, step: Step, k: PollerKey): C.Option<Poller> {
    match step
    case Load(rows) => LastRow(rows, k)
    case Create(p, nameOk, storeOk) =>
      if p.key == k && was.None? && nameOk && storeOk
      then C.Some(Poller(k, if p.admin == "" then "disabled" else p.admin, 1, p.intervalMs))
      else was
    case Update(p, storeOk) =>
      if p.key == k && was.Some? && storeOk
      then C.Some(Poller(k, p.admin, was.value.version + 1, p.intervalMs))
      else was
    case Delete(l, storeOk) => if l == k && storeOk then C.None else was
    case Fill(p) => if p.key == k then C.Some(p) else was
    case Forget(l) => if l == k then C.None else was
  }

  function LastRow(rows: seq<Poller>, k: PollerKey): C.Option<Poller> {
    if rows == [] then C.None
    else if rows[|rows| - 1].key == k then C.Some(rows[|rows| - 1])
    else LastRow(rows[..|rows| - 1], k)
  }

  function ToldBy(was: C.Option<Poller>, steps: seq<Step>, k: PollerKey): C.Option<Poller>
    decreases |steps|
  {
    if steps == [] then was else ToldBy(Told(was, steps[0], k), steps[1..], k)
  }

  function Found(s: State, k: PollerKey): C.Option<Poller> {
    if k.String() in s.pollers then C.Some(s.pollers[k.String()]) else C.None
  }

  lemma {:induction false} LoadTells(rows: seq<Poller>, k: PollerKey)
    requires PlainStep(Load(rows)) && Plain(k)
    ensures Found(Loaded(rows), k) == LastRow(rows, k)
  {
    if rows != [] {
      var n := |rows| - 1;
      LoadTells(rows[..n], k);
      SameString(rows[n].key, k);
      hide Plain, PollerKey.String;
    }
  }

  lemma SameString(k: PollerKey, l: PollerKey)
    requires Plain(k) && Plain(l)
    ensures k.String() == l.String() <==> k == l
  {
    if k.String() == l.String() {
      StringInjective(k, l);
    }
  }

  function KeyOf(step: Step): PollerKey
    requires !step.Load?
  {
    match step
    case Create(p, _, _) => p.key
    case Update(p, _) => p.key
    case Delete(k, _) => k
    case Fill(p) => p.key
    case Forget(k) => k
  }

  lemma StepTells(s: State, step: Step, k: PollerKey)
    requires PlainStep(step) && Plain(k)
    requires Found(s, k).Some? ==> Found(s, k).value.key == k
    ensures Found(Next(s, step), k) == Told(Found(s, k), step, k)
    ensures Told(Found(s, k), step, k).Some? ==> Told(Found(s, k), step, k).value.key == k
  {
    if step.Load? {
      LoadTells(step.rows, k);
      RowHasKey(step.rows, k);
    } else {
      SameString(KeyOf(step), k);
      hide Plain, PollerKey.String, TargetKey;
    }
  }

  lemma {:induction false} RowHasKey(rows: seq<Poller>, k: PollerKey)
    ensures LastRow(rows, k).Some? ==> LastRow(rows, k).value.key == k
  {
    if rows != [] {
      RowHasKey(rows[..|rows| - 1], k);
    }
  }

  lemma {:induction false} RunTells(s: State, steps: seq<Step>, k: PollerKey)
    requires (forall i | 0 <= i < |steps| :: PlainStep(steps[i])) && Plain(k)
    requires Found(s, k).Some? ==> Found(s, k).value.key == k
    ensures Found(Run(s, steps), k) == ToldBy(Found(s, k), steps, k)
    decreases |steps|
  {
    if steps != [] {
      assert PlainStep(steps[0]);
      StepTells(s, steps[0], k);
      RunTells(Next(s, steps[0]), steps[1..], k);
    }
  }

  /** After any calls with slash-free namespaces and targets the table has, for each key,
      exactly what the calls for that key tell. */
  lemma TableIsTold(steps: seq<Step>, k: PollerKey)
    requires (forall i | 0 <= i < |steps| :: PlainStep(steps[i])) && Plain(k)
    ensures Found(Run(Empty, steps), k) == ToldBy(C.None, steps, k)
  {
    RunTells(Empty, steps, k);
  }
}
