/** The poller manager's table and its two secondary indexes. */
module PollerIndexes {
  import opened Text
  import opened PollerKeys
  import opened TagIndexing
  import C = ConfigLayers

  /** intervalMs is the polling configuration's own interval, if it has one. */
  datatype Poller = Poller(key: PollerKey, admin: string, version: nat, intervalMs: C.Option<nat>)

  /** The poller's own interval, or the resolved one, or a second; `resolved` is what the
      resolver answers. */
  function EffectiveInterval(p: Poller, resolved: C.Option<nat>): nat {
    p.intervalMs.GetOr(resolved.GetOr(1000))
  }

  /** pollers and byTarget go by strings; a set of an index holds poller strings. */
  datatype State = State(
    pollers: map<string, Poller>,
    byNamespace: map<string, set<string>>,
    byTarget: map<string, set<string>>)

  const Empty: State := State(map[], map[], map[])

  function TargetKey(ns: string, target: string): string {
    ns + "/" + target
  }

  /** Fill is how Get stores what it found in the store: it does not look again whether
      the table has the poller by now.  Forget is InvalidateCache.  The flags are the
      store's answers. */
  datatype Step =
    | Load(rows: seq<Poller>)
    | Create(p: Poller, nameOk: bool, storeOk: bool)
    | Update(p: Poller, storeOk: bool)
    | Delete(k: PollerKey, storeOk: bool)
    | Fill(p: Poller)
    | Forget(k: PollerKey)

  function Indexed(s: State, k: PollerKey): State {
    s.(byNamespace := With(s.byNamespace, k.ns, k.String()),
       byTarget := With(s.byTarget, TargetKey(k.ns, k.target), k.String()))
  }

  function Unindexed(s: State, k: PollerKey): State {
    s.(byNamespace := Without(s.byNamespace, k.ns, k.String()),
       byTarget := Without(s.byTarget, TargetKey(k.ns, k.target), k.String()))
  }

  function Stored(s: State, p: Poller): State {
    s.(pollers := s.pollers[p.key.String() := p])
  }

  function Loaded(rows: seq<Poller>): State {
    if rows == [] then Empty
    else
      var p := rows[|rows| - 1];
      Indexed(Stored(Loaded(rows[..|rows| - 1]), p), p.key)
  }

  function Next(s: State, step: Step): State {
    match step
    case Load(rows) => Loaded(rows)
    case Create(p, nameOk, storeOk) =>
      if p.key.String() in s.pollers || !nameOk || !storeOk then s
      else Indexed(Stored(s, p.(admin := if p.admin == "" then "disabled" else p.admin, version := 1)), p.key)
    case Update(p, storeOk) =>
      if p.key.String() !in s.pollers || !storeOk then s
      else Stored(s, p.(version := s.pollers[p.key.String()].version + 1))
    case Delete(k, storeOk) =>
      if k.String() !in s.pollers || !storeOk then s
      else Unindexed(s.(pollers := s.pollers - {k.String()}), k)
    case Fill(p) => Stored(s, p)
    case Forget(k) => s.(pollers := s.pollers - {k.String()})
  }

  predicate PlainStep(step: Step) {
    match step
    case Load(rows) => forall i | 0 <= i < |rows| :: Plain(rows[i].key)
    case Create(p, _, _) => Plain(p.key)
    case Update(p, _) => Plain(p.key)
    case Delete(k, _) => Plain(k)
    case Fill(p) => Plain(p.key)
    case Forget(k) => Plain(k)
  }

  function Run(s: State, steps: seq<Step>): State
    decreases |steps|
  {
    if steps == [] then s else Run(Next(s, steps[0]), steps[1..])
  }

  // ----- a filter over the table -----

  ghost function InTarget(s: State, ns: string, target: string): set<string> {
    set x | x in s.pollers && s.pollers[x].key.ns == ns && s.pollers[x].key.target == target
  }

  ghost function InNamespace(s: State, ns: string): set<string> {
    set x | x in s.pollers && s.pollers[x].key.ns == ns
  }

  /** The pollers List and ListInNamespace go through. */
  ghost function Listed(s: State, index: map<string, set<string>>, k: string): set<string> {
    Get(index, k) * s.pollers.Keys
  }

  // ----- without Fill and Forget: the indexes are exact -----

  ghost predicate OwnString(s: State, x: string)
    requires x in s.pollers
  {
    s.pollers[x].key.String() == x && Plain(s.pollers[x].key)
  }

  ghost predicate Exact(s: State) {
    && (forall x | x in s.pollers :: OwnString(s, x))
    && NoneEmpty(s.byNamespace) && NoneEmpty(s.byTarget)
    && (forall ns :: NamespaceExact(s, ns))
    && (forall k :: TargetExact(s, k))
  }

  ghost predicate NamespaceExact(s: State, ns: string) {
    Get(s.byNamespace, ns) == InNamespace(s, ns)
  }

  ghost predicate TargetExact(s: State, k: string) {
    Get(s.byTarget, k) == set x | x in s.pollers && TargetKey(s.pollers[x].key.ns, s.pollers[x].key.target) == k
  }

  lemma StoreAndIndexKeepsExact(s: State, p: Poller)
    requires Exact(s) && Plain(p.key)
    ensures Exact(Indexed(Stored(s, p), p.key))
  {
    var r := Indexed(Stored(s, p), p.key);
    forall ns ensures NamespaceExact(r, ns) {
      StoreKeepsNamespaceExact(s, p, ns);
    }
    forall k ensures TargetExact(r, k) {
      StoreKeepsTargetExact(s, p, k);
    }
    forall x | x in r.pollers ensures OwnString(r, x) {
      assert x != p.key.String() ==> OwnString(s, x);
    }
  }

  lemma StoreKeepsNamespaceExact(s: State, p: Poller, ns: string)
    requires Exact(s) && Plain(p.key)
    ensures NamespaceExact(Indexed(Stored(s, p), p.key), ns)
  {
    SameKeySamePlace(s, p.key);
    assert NamespaceExact(s, ns);
    hide Plain, PollerKey.String, TargetKey;
  }

  lemma StoreKeepsTargetExact(s: State, p: Poller, k: string)
    requires Exact(s) && Plain(p.key)
    ensures TargetExact(Indexed(Stored(s, p), p.key), k)
  {
    SameKeySamePlace(s, p.key);
    assert TargetExact(s, k);
    hide Plain, PollerKey.String, TargetKey;
  }

  /** A poller found under a plain key's string has that key. */
  lemma SameKeySamePlace(s: State, k: PollerKey)
    requires Plain(k) && forall x | x in s.pollers :: OwnString(s, x)
    ensures k.String() in s.pollers ==> s.pollers[k.String()].key == k
  {
    if k.String() in s.pollers {
      assert OwnString(s, k.String());
      StringInjective(s.pollers[k.String()].key, k);
    }
  }

  lemma {:induction false} LoadedIsExact(rows: seq<Poller>)
    requires PlainStep(Load(rows))
    ensures Exact(Loaded(rows))
  {
    if rows != [] {
      LoadedIsExact(rows[..|rows| - 1]);
      StoreAndIndexKeepsExact(Loaded(rows[..|rows| - 1]), rows[|rows| - 1]);
    }
  }

  lemma UpdateKeepsExact(s: State, p: Poller)
    requires Exact(s) && Plain(p.key) && p.key.String() in s.pollers
    ensures Exact(Stored(s, p))
  {
    var r := Stored(s, p);
    SameKeySamePlace(s, p.key);
    forall ns ensures NamespaceExact(r, ns) {
      assert NamespaceExact(s, ns);
      assert InNamespace(r, ns) == InNamespace(s, ns);
    }
    forall k ensures TargetExact(r, k) {
      assert TargetExact(s, k);
    }
    forall x | x in r.pollers ensures OwnString(r, x) {
      assert x != p.key.String() ==> OwnString(s, x);
    }
  }

  lemma DeleteKeepsExact(s: State, k: PollerKey)
    requires Exact(s) && Plain(k) && k.String() in s.pollers
    ensures Exact(Unindexed(s.(pollers := s.pollers - {k.String()}), k))
  {
    var r := Unindexed(s.(pollers := s.pollers - {k.String()}), k);
    SameKeySamePlace(s, k);
    forall ns ensures NamespaceExact(r, ns) {
      assert NamespaceExact(s, ns);
    }
    forall t ensures TargetExact(r, t) {
      assert TargetExact(s, t);
    }
    forall x | x in r.pollers ensures OwnString(r, x) {
      assert OwnString(s, x);
    }
  }

  predicate Managed(step: Step) {
    PlainStep(step) && !step.Fill? && !step.Forget?
  }

  lemma StepKeepsExact(s: State, step: Step)
    requires Exact(s) && Managed(step)
    ensures Exact(Next(s, step))
  {
    match step
    case Load(rows) => LoadedIsExact(rows);
    case Create(p, nameOk, storeOk) =>
      if !(p.key.String() in s.pollers || !nameOk || !storeOk) {
        StoreAndIndexKeepsExact(s, p.(admin := if p.admin == "" then "disabled" else p.admin, version := 1));
      }
    case Update(p, storeOk) =>
      if p.key.String() in s.pollers && storeOk {
        UpdateKeepsExact(s, p.(version := s.pollers[p.key.String()].version + 1));
      }
    case Delete(k, storeOk) =>
      if k.String() in s.pollers && storeOk {
        DeleteKeepsExact(s, k);
      }
  }

  lemma {:induction false} RunKeepsExact(s: State, steps: seq<Step>)
    requires Exact(s) && forall i | 0 <= i < |steps| :: Managed(steps[i])
    ensures Exact(Run(s, steps))
    decreases |steps|
  {
    if steps != [] {
      StepKeepsExact(s, steps[0]);
      RunKeepsExact(Next(s, steps[0]), steps[1..]);
    }
  }

  /** A target key stands for one namespace and one target. */
  lemma TargetKeyInjective(ns: string, target: string, ns': string, target': string)
    requires SlashFree(ns) && SlashFree(ns') && TargetKey(ns, target) == TargetKey(ns', target')
    ensures ns == ns' && target == target'
  {
    CutAtSlash(ns, target);
    CutAtSlash(ns', target');
  }

  lemma TargetFilter(s: State, ns: string, target: string)
    requires (forall x | x in s.pollers :: OwnString(s, x)) && SlashFree(ns)
    ensures (set x | x in s.pollers && TargetKey(s.pollers[x].key.ns, s.pollers[x].key.target) == TargetKey(ns, target))
            == InTarget(s, ns, target)
  {
    forall x | x in s.pollers && TargetKey(s.pollers[x].key.ns, s.pollers[x].key.target) == TargetKey(ns, target)
      ensures x in InTarget(s, ns, target)
    {
      assert OwnString(s, x);
      TargetKeyInjective(s.pollers[x].key.ns, s.pollers[x].key.target, ns, target);
    }
  }

  /** After any loads, creates, updates and deletes, the lists and the count are a
      filter over the table, and no index keeps an empty set. */
  lemma ListsAreFilters(steps: seq<Step>, ns: string, target: string)
    requires forall i | 0 <= i < |steps| :: Managed(steps[i])
    requires SlashFree(ns)
    ensures var s := Run(Empty, steps);
            && Listed(s, s.byTarget, TargetKey(ns, target)) == InTarget(s, ns, target)
            && |Get(s.byTarget, TargetKey(ns, target))| == |InTarget(s, ns, target)|
            && Listed(s, s.byNamespace, ns) == InNamespace(s, ns)
            && NoneEmpty(s.byNamespace) && NoneEmpty(s.byTarget)
  {
    RunKeepsExact(Empty, steps);
    ExactLists(Run(Empty, steps), ns, target);
  }

  lemma ExactLists(s: State, ns: string, target: string)
    requires Exact(s) && SlashFree(ns)
    ensures Listed(s, s.byTarget, TargetKey(ns, target)) == Get(s.byTarget, TargetKey(ns, target)) == InTarget(s, ns, target)
    ensures Listed(s, s.byNamespace, ns) == InNamespace(s, ns)
  {
    TargetFilter(s, ns, target);
    assert TargetExact(s, TargetKey(ns, target)) && NamespaceExact(s, ns);
  }

  // ----- with Fill and Forget: the lists are sound -----

  /** x is the string of a plain key with this namespace. */
  ghost predicate NamedIn(x: string, ns: string) {
    exists k: PollerKey :: Plain(k) && k.String() == x && k.ns == ns
  }

  ghost predicate NamedUnder(x: string, t: string) {
    exists k: PollerKey :: Plain(k) && k.String() == x && TargetKey(k.ns, k.target) == t
  }

  ghost predicate Sound(s: State) {
    && (forall x | x in s.pollers :: OwnString(s, x))
    && NoneEmpty(s.byNamespace) && NoneEmpty(s.byTarget)
    && (forall ns, x | x in Get(s.byNamespace, ns) :: NamedIn(x, ns))
    && (forall t, x | x in Get(s.byTarget, t) :: NamedUnder(x, t))
  }

  lemma ExactIsSound(s: State)
    requires Exact(s)
    ensures Sound(s)
  {
    forall ns, x | x in Get(s.byNamespace, ns) ensures NamedIn(x, ns) {
      assert NamespaceExact(s, ns) && OwnString(s, x);
    }
    forall t, x | x in Get(s.byTarget, t) ensures NamedUnder(x, t) {
      assert TargetExact(s, t) && OwnString(s, x);
    }
  }

  lemma StoringKeepsSound(s: State, p: Poller)
    requires Sound(s) && Plain(p.key)
    ensures Sound(Stored(s, p)) && Sound(Indexed(Stored(s, p), p.key))
  {
    var r := Indexed(Stored(s, p), p.key);
    forall x | x in r.pollers ensures OwnString(Stored(s, p), x) && OwnString(r, x) {
      assert x != p.key.String() ==> OwnString(s, x);
    }
    assert NamedIn(p.key.String(), p.key.ns) && NamedUnder(p.key.String(), TargetKey(p.key.ns, p.key.target));
    forall ns, x | x in Get(r.byNamespace, ns) ensures NamedIn(x, ns) {
      assert x in Get(s.byNamespace, ns) || (x == p.key.String() && ns == p.key.ns);
    }
    forall t, x | x in Get(r.byTarget, t) ensures NamedUnder(x, t) {
      assert x in Get(s.byTarget, t) || (x == p.key.String() && t == TargetKey(p.key.ns, p.key.target));
    }
  }

  lemma DroppingKeepsSound(s: State, k: PollerKey)
    requires Sound(s)
    ensures var t := s.(pollers := s.pollers - {k.String()}); Sound(t) && Sound(Unindexed(t, k))
  {
    var t := s.(pollers := s.pollers - {k.String()});
    var r := Unindexed(t, k);
    forall x | x in t.pollers ensures OwnString(t, x) && OwnString(r, x) {
      assert OwnString(s, x);
    }
    forall ns, x | x in Get(r.byNamespace, ns) ensures NamedIn(x, ns) {
      assert x in Get(s.byNamespace, ns);
    }
    forall u, x | x in Get(r.byTarget, u) ensures NamedUnder(x, u) {
      assert x in Get(s.byTarget, u);
    }
  }

  lemma StepKeepsSound(s: State, step: Step)
    requires Sound(s) && PlainStep(step)
    ensures Sound(Next(s, step))
  {
    match step
    case Load(rows) =>
      LoadedIsExact(rows);
      ExactIsSound(Loaded(rows));
    case Create(p, _, _) =>
      StoringKeepsSound(s, p.(admin := if p.admin == "" then "disabled" else p.admin, version := 1));
    case Update(p, _) =>
      if p.key.String() in s.pollers {
        StoringKeepsSound(s, p.(version := s.pollers[p.key.String()].version + 1));
      }
    case Delete(k, _) => DroppingKeepsSound(s, k);
    case Fill(p) => StoringKeepsSound(s, p);
    case Forget(k) => DroppingKeepsSound(s, k);
  }

  lemma {:induction false} RunKeepsSound(s: State, steps: seq<Step>)
    requires Sound(s) && forall i | 0 <= i < |steps| :: PlainStep(steps[i])
    ensures Sound(Run(s, steps))
    decreases |steps|
  {
    if steps != [] {
      StepKeepsSound(s, steps[0]);
      RunKeepsSound(Next(s, steps[0]), steps[1..]);
    }
  }

  /** Whatever is called, the lists hold only the right pollers. */
  lemma ListsAreSound(steps: seq<Step>, ns: string, target: string)
    requires forall i | 0 <= i < |steps| :: PlainStep(steps[i])
    requires SlashFree(ns)
    ensures var s := Run(Empty, steps);
            && Listed(s, s.byTarget, TargetKey(ns, target)) <= InTarget(s, ns, target)
            && Listed(s, s.byNamespace, ns) <= InNamespace(s, ns)
  {
    var s := Run(Empty, steps);
    RunKeepsSound(Empty, steps);
    SoundLists(s, ns, target);
  }

  lemma SoundLists(s: State, ns: string, target: string)
    requires Sound(s) && SlashFree(ns)
    ensures Listed(s, s.byTarget, TargetKey(ns, target)) <= InTarget(s, ns, target)
    ensures Listed(s, s.byNamespace, ns) <= InNamespace(s, ns)
  {
    forall x | x in Listed(s, s.byTarget, TargetKey(ns, target))
      ensures x in InTarget(s, ns, target)
    {
      assert NamedUnder(x, TargetKey(ns, target)) && OwnString(s, x);
      var k: PollerKey :| Plain(k) && k.String() == x && TargetKey(k.ns, k.target) == TargetKey(ns, target);
      StringInjective(k, s.pollers[x].key);
      TargetKeyInjective(k.ns, k.target, ns, target);
    }
    forall x | x in Listed(s, s.byNamespace, ns)
      ensures x in InNamespace(s, ns)
    {
      assert NamedIn(x, ns) && OwnString(s, x);
      var k: PollerKey :| Plain(k) && k.String() == x && k.ns == ns;
      StringInjective(k, s.pollers[x].key);
    }
  }

  /** Both indexes have the key, or neither has. */
  ghost predicate Tandem(s: State, k: PollerKey) {
    k.String() in Get(s.byTarget, TargetKey(k.ns, k.target)) <==> k.String() in Get(s.byNamespace, k.ns)
  }

  ghost predicate Paired(s: State) {
    forall k: PollerKey | Plain(k) :: Tandem(s, k)
  }

  lemma ExactIsPaired(s: State)
    requires Exact(s)
    ensures Paired(s)
  {
    forall k: PollerKey | Plain(k) ensures Tandem(s, k) {
      assert NamespaceExact(s, k.ns) && TargetExact(s, TargetKey(k.ns, k.target));
      SameKeySamePlace(s, k);
    }
  }

  lemma StaysTandem(s: State, x: PollerKey, k: PollerKey)
    requires Plain(x) && Plain(k) && Tandem(s, k)
    requires NoneEmpty(s.byNamespace) && NoneEmpty(s.byTarget)
    ensures Tandem(Indexed(s, x), k) && Tandem(Unindexed(s, x), k)
  {
    if k.String() == x.String() {
      StringInjective(k, x);
    }
    hide Plain, PollerKey.String, TargetKey;
  }

  /** Only loading, and what adds or removes one key, touches the indexes. */
  lemma StepKeepsPaired(s: State, step: Step)
    requires Sound(s) && Paired(s) && PlainStep(step)
    ensures Paired(Next(s, step))
  {
    if step.Load? {
      LoadedIsExact(step.rows);
      ExactIsPaired(Loaded(step.rows));
      return;
    }
    forall k: PollerKey | Plain(k) ensures Tandem(Next(s, step), k) {
      StepKeepsTandem(s, step, k);
    }
  }

  lemma StepKeepsTandem(s: State, step: Step, k: PollerKey)
    requires Sound(s) && Plain(k) && Tandem(s, k) && PlainStep(step) && !step.Load?
    ensures Tandem(Next(s, step), k)
  {
    if step.Create? {
      StaysTandem(s, step.p.key, k);
    } else if step.Delete? {
      StaysTandem(s, step.k, k);
    }
    hide Plain, PollerKey.String, TargetKey, With, Without;
  }

  /** However the manager is called, its indexes have the same keys. */
  lemma {:induction false} RunKeepsPaired(s: State, steps: seq<Step>)
    requires Sound(s) && Paired(s) && forall i | 0 <= i < |steps| :: PlainStep(steps[i])
    ensures Sound(Run(s, steps)) && Paired(Run(s, steps))
    decreases |steps|
  {
    if steps != [] {
      StepKeepsSound(s, steps[0]);
      StepKeepsPaired(s, steps[0]);
      RunKeepsPaired(Next(s, steps[0]), steps[1..]);
    }
  }

  /** Every poller of the table is in its target's set. */
  ghost predicate Complete(s: State) {
    forall x | x in s.pollers :: InItsSet(s, x)
  }

  ghost predicate InItsSet(s: State, x: string)
    requires x in s.pollers
  {
    x in Get(s.byTarget, TargetKey(s.pollers[x].key.ns, s.pollers[x].key.target))
  }

  ghost predicate ListIsFilter(s: State, ns: string, target: string) {
    Listed(s, s.byTarget, TargetKey(ns, target)) == InTarget(s, ns, target)
  }

  ghost predicate NamespaceIsFilter(s: State, ns: string) {
    Listed(s, s.byNamespace, ns) == InNamespace(s, ns)
  }

  /** Then, and only then, is List the filter for every target; and then, and only then,
      is ListInNamespace the filter for every namespace. */
  lemma CompleteIffListIsFilter(s: State)
    requires Sound(s) && Paired(s)
    ensures Complete(s) <==> forall ns, target | SlashFree(ns) :: ListIsFilter(s, ns, target)
    ensures Complete(s) <==> forall ns | SlashFree(ns) :: NamespaceIsFilter(s, ns)
  {
    if Complete(s) {
      forall ns, target | SlashFree(ns) ensures ListIsFilter(s, ns, target) {
        SoundLists(s, ns, target);
        forall x | x in InTarget(s, ns, target) ensures x in Listed(s, s.byTarget, TargetKey(ns, target)) {
          assert InItsSet(s, x);
        }
      }
      forall ns | SlashFree(ns) ensures NamespaceIsFilter(s, ns) {
        SoundLists(s, ns, "");
        forall x | x in InNamespace(s, ns) ensures x in Listed(s, s.byNamespace, ns) {
          assert InItsSet(s, x) && OwnString(s, x) && Tandem(s, s.pollers[x].key);
        }
      }
    } else {
      var x :| x in s.pollers && !InItsSet(s, x);
      var k := s.pollers[x].key;
      assert OwnString(s, x) && Tandem(s, k);
      assert x in InTarget(s, k.ns, k.target) && x in InNamespace(s, k.ns);
      assert !ListIsFilter(s, k.ns, k.target) && !NamespaceIsFilter(s, k.ns);
    }
  }

  /** What CountInTarget counts though the table has forgotten it, and what it misses. */
  ghost function Stale(s: State, ns: string, target: string): set<string> {
    Get(s.byTarget, TargetKey(ns, target)) - s.pollers.Keys
  }

  ghost function Missed(s: State, ns: string, target: string): set<string> {
    InTarget(s, ns, target) - Get(s.byTarget, TargetKey(ns, target))
  }

  /** Whatever is called: CountInTarget is too high by the stale keys and too low by the
      pollers missed. */
  lemma CountIsOffBy(s: State, ns: string, target: string)
    requires Sound(s) && SlashFree(ns)
    ensures |Get(s.byTarget, TargetKey(ns, target))| - |InTarget(s, ns, target)|
            == |Stale(s, ns, target)| - |Missed(s, ns, target)|
  {
    SoundLists(s, ns, target);
    var counted, right := Get(s.byTarget, TargetKey(ns, target)), InTarget(s, ns, target);
    assert counted * s.pollers.Keys <= right <= s.pollers.Keys;
    hide *;
    DifferBy(counted, right, s.pollers.Keys);
  }

  lemma DifferBy(a: set<string>, b: set<string>, m: set<string>)
    requires a * m <= b <= m
    ensures |a| - |b| == |a - m| - |b - a|
  {
    assert a == a * b + (a - m) && b == a * b + (b - a);
    assert |a| == |a * b| + |a - m| && |b| == |a * b| + |b - a|;
  }

  /** A step keeps List complete exactly if it does not fill in a poller that the
      index does not have. */
  lemma CompleteKeptIff(s: State, step: Step)
    requires Sound(s) && PlainStep(step) && Complete(s)
    ensures Complete(Next(s, step)) <==>
              (step.Fill? ==> step.p.key.String() in Get(s.byTarget, TargetKey(step.p.key.ns, step.p.key.target)))
  {
    match step
    case Load(rows) =>
      LoadedIsExact(rows);
      forall x | x in Loaded(rows).pollers ensures InItsSet(Loaded(rows), x) {
        var k := Loaded(rows).pollers[x].key;
        assert TargetExact(Loaded(rows), TargetKey(k.ns, k.target));
      }
    case Create(p, _, _) =>
      SameKeySamePlace(s, p.key);
      StillComplete(s, step, p.key);
    case Update(p, _) =>
      SameKeySamePlace(s, p.key);
      StillComplete(s, step, p.key);
    case Delete(k, _) =>
      SameKeySamePlace(s, k);
      StillComplete(s, step, k);
    case Fill(p) =>
      var r := Next(s, step);
      var x := p.key.String();
      assert InItsSet(r, x) <==> x in Get(s.byTarget, TargetKey(p.key.ns, p.key.target));
      forall y | y in r.pollers && y != x ensures InItsSet(r, y) {
        assert InItsSet(s, y);
      }
    case Forget(k) =>
      StillComplete(s, step, k);
  }

  lemma StillComplete(s: State, step: Step, k: PollerKey)
    requires Complete(s) && !step.Load? && !step.Fill?
    requires k == (if step.Create? || step.Update? then step.p.key else step.k)
    requires k.String() in s.pollers && !step.Forget? ==> s.pollers[k.String()].key == k
    ensures Complete(Next(s, step))
  {
    var r := Next(s, step);
    forall x | x in r.pollers ensures InItsSet(r, x) {
      if x in s.pollers {
        assert InItsSet(s, x);
      }
    }
  }

  // ----- when the indexes stay exact -----

  /** A cache fill finds the poller still in the table, a forget does not. */
  predicate Harmless(s: State, step: Step) {
    match step
    case Fill(p) => p.key.String() in s.pollers
    case Forget(k) => k.String() !in s.pollers
    case _ => true
  }

  lemma ExactKeptIff(s: State, step: Step)
    requires Exact(s) && PlainStep(step)
    ensures Exact(Next(s, step)) <==> Harmless(s, step)
  {
    match step
    case Fill(p) =>
      if p.key.String() in s.pollers {
        UpdateKeepsExact(s, p);
      } else {
        TableAlone(s, Next(s, step), p.key);
      }
    case Forget(k) =>
      if k.String() in s.pollers {
        TableAlone(s, Next(s, step), k);
      } else {
        assert s.pollers - {k.String()} == s.pollers;
      }
    case _ => StepKeepsExact(s, step);
  }

  /** When a poller comes or goes in the table alone, its target's set is wrong. */
  lemma TableAlone(s: State, r: State, k: PollerKey)
    requires Exact(s) && Plain(k) && r.byTarget == s.byTarget
    requires k.String() in s.pollers <==> k.String() !in r.pollers
    requires k.String() in r.pollers ==> r.pollers[k.String()].key == k
    ensures !Exact(r)
  {
    var t := TargetKey(k.ns, k.target);
    SameKeySamePlace(s, k);
    assert TargetExact(s, t);
    assert k.String() in Get(s.byTarget, t) <==> k.String() in s.pollers;
    assert !TargetExact(r, t);
  }

  ghost predicate HarmlessRun(s: State, steps: seq<Step>)
    decreases |steps|
  {
    steps == [] || (Harmless(s, steps[0]) && HarmlessRun(Next(s, steps[0]), steps[1..]))
  }

  ghost predicate ExactThroughout(s: State, steps: seq<Step>)
    decreases |steps|
  {
    Exact(s) && (steps == [] || ExactThroughout(Next(s, steps[0]), steps[1..]))
  }

  /** The lists and the count stay filters in exactly these runs. */
  lemma {:induction false} ExactThroughoutIff(s: State, steps: seq<Step>)
    requires Exact(s) && forall i | 0 <= i < |steps| :: PlainStep(steps[i])
    ensures ExactThroughout(s, steps) <==> HarmlessRun(s, steps)
    decreases |steps|
  {
    if steps != [] {
      ExactKeptIff(s, steps[0]);
      if Harmless(s, steps[0]) {
        ExactThroughoutIff(Next(s, steps[0]), steps[1..]);
      }
    }
  }

  // ----- the manager -----

  class PollerManager {
    var pollers: map<string, Poller>
    var byNamespace: map<string, set<string>>
    var byTarget: map<string, set<string>>

    function Now(): State
      reads this
    {
      State(pollers, byNamespace, byTarget)
    }

    constructor ()
      ensures Now() == Empty
    {
      pollers, byNamespace, byTarget := map[], map[], map[];
    }

    method AddToIndexes(ns: string, target: string, key: string)
      modifies this`byNamespace, this`byTarget
      ensures byNamespace == With(old(byNamespace), ns, key)
      ensures byTarget == With(old(byTarget), TargetKey(ns, target), key)
    {
      if ns !in byNamespace {
        byNamespace := byNamespace[ns := {}];
      }
      byNamespace := byNamespace[ns := byNamespace[ns] + {key}];
      var targetKey := ns + "/" + target;
      if targetKey !in byTarget {
        byTarget := byTarget[targetKey := {}];
      }
      byTarget := byTarget[targetKey := byTarget[targetKey] + {key}];
    }

    method RemoveFromIndexes(ns: string, target: string, key: string)
      requires NoneEmpty(byNamespace) && NoneEmpty(byTarget)
      modifies this`byNamespace, this`byTarget
      ensures byNamespace == Without(old(byNamespace), ns, key)
      ensures byTarget == Without(old(byTarget), TargetKey(ns, target), key)
    {
      if ns in byNamespace {
        byNamespace := byNamespace[ns := byNamespace[ns] - {key}];
        if byNamespace[ns] == {} {
          byNamespace := byNamespace - {ns};
        }
      }
      var targetKey := ns + "/" + target;
      if targetKey in byTarget {
        byTarget := byTarget[targetKey := byTarget[targetKey] - {key}];
        if byTarget[targetKey] == {} {
          byTarget := byTarget - {targetKey};
        }
      }
    }

    method Load(rows: seq<Poller>)
      modifies this
      ensures Now() == Next(old(Now()), Step.Load(rows))
    {
      pollers, byNamespace, byTarget := map[], map[], map[];
      for i := 0 to |rows|
        invariant Now() == Loaded(rows[..i])
      {
        var p := rows[i];
        assert rows[..i + 1][..i] == rows[..i];
        var key := p.key.String();
        pollers := pollers[key := p];
        AddToIndexes(p.key.ns, p.key.target, key);
      }
      assert rows[..|rows|] == rows;
    }

    method Create(p: Poller, nameOk: bool, storeOk: bool) returns (ok: bool)
      modifies this
      ensures Now() == Next(old(Now()), Step.Create(p, nameOk, storeOk))
      ensures ok <==> p.key.String() !in old(pollers) && nameOk && storeOk
      ensures ok ==>
                && pollers.Keys == old(pollers.Keys) + {p.key.String()}
                && var q := pollers[p.key.String()];
                   && q.key == p.key && q.intervalMs == p.intervalMs && q.version == 1
                   && q.admin == if p.admin == "" then "disabled" else p.admin
    {
      var key := p.key.String();
      if key in pollers || !nameOk {
        return false;
      }
      var q := p;
      if q.admin == "" {
        q := q.(admin := "disabled");
      }
      if !storeOk {
        return false;
      }
      q := q.(version := 1); // the store sets it
      pollers := pollers[key := q];
      AddToIndexes(p.key.ns, p.key.target, key);
      return true;
    }

    /** `before` and `after` are what the resolver answers at the two moments; `notified`
        is the interval that the scheduler is told. */
    method Update(p: Poller, storeOk: bool, before: C.Option<nat>, after: C.Option<nat>)
      returns (ok: bool, notified: C.Option<nat>)
      modifies this`pollers
      ensures Now() == Next(old(Now()), Step.Update(p, storeOk))
      ensures ok <==> p.key.String() in old(pollers) && storeOk
      ensures ok ==>
                && var q, was := pollers[p.key.String()], old(pollers)[p.key.String()];
                   q.key == p.key && q.intervalMs == p.intervalMs && q.admin == p.admin && q.version == was.version + 1
      ensures notified.Some? <==>
                ok && EffectiveInterval(old(pollers)[p.key.String()], before) != EffectiveInterval(p, after)
      ensures notified.Some? ==>
                notified.value == if p.intervalMs.Some? then p.intervalMs.value
                                  else if after.Some? then after.value
                                  else 1000
    {
      var key := p.key.String();
      if key !in pollers {
        return false, C.None;
      }
      var q := p.(version := pollers[key].version);
      var oldInterval := EffectiveInterval(pollers[key], before);
      if !storeOk {
        return false, C.None;
      }
      q := q.(version := q.version + 1); // the store counts the version on
      pollers := pollers[key := q];
      var newInterval := EffectiveInterval(q, after);
      if oldInterval != newInterval {
        return true, C.Some(newInterval);
      }
      return true, C.None;
    }

    method Delete(k: PollerKey, storeOk: bool) returns (ok: bool)
      requires NoneEmpty(byNamespace) && NoneEmpty(byTarget)
      modifies this
      ensures Now() == Next(old(Now()), Step.Delete(k, storeOk))
      ensures ok <==> k.String() in old(pollers) && storeOk
    {
      var key := k.String();
      if key !in pollers || !storeOk {
        return false;
      }
      pollers := pollers - {key};
      RemoveFromIndexes(k.ns, k.target, key);
      return true;
    }

    /** Get when nothing comes in between; `stored` is what the store has for k. */
    method GetPoller(k: PollerKey, found: bool, stored: Poller) returns (ok: bool, p: Poller)
      requires found ==> stored.key == k
      modifies this`pollers
      ensures Now() == if k.String() in old(pollers) || !found then old(Now()) else Next(old(Now()), Fill(stored))
      ensures ok <==> k.String() in old(pollers) || found
      ensures ok ==> k.String() in pollers && p == pollers[k.String()]
    {
      var key := k.String();
      p := stored;
      if key in pollers {
        return true, pollers[key];
      }
      if !found {
        return false, p;
      }
      pollers := pollers[key := stored];
      return true, stored;
    }

    method InvalidateCache(k: PollerKey)
      modifies this`pollers
      ensures Now() == Next(old(Now()), Forget(k))
    {
      pollers := pollers - {k.String()};
    }

    /** Each poller once, in any order. */
    ghost predicate Lists(result: seq<Poller>, keys: set<string>)
      reads this
    {
      && keys <= pollers.Keys
      && (forall x | x in keys :: pollers[x] in result)
      && (forall i | 0 <= i < |result| :: result[i].key.String() in keys && pollers[result[i].key.String()] == result[i])
      && (forall i, j | 0 <= i < j < |result| :: result[i].key.String() != result[j].key.String())
    }

    method Collected(keys: set<string>) returns (result: seq<Poller>)
      requires Sound(Now())
      ensures Lists(result, keys * pollers.Keys)
    {
      var todo := keys;
      result := [];
      while todo != {}
        invariant todo <= keys && Lists(result, (keys - todo) * pollers.Keys)
        decreases |todo|
      {
        var key :| key in todo;
        todo := todo - {key};
        if key in pollers {
          assert OwnString(Now(), key);
          result := result + [pollers[key]];
        }
      }
    }

    method List(ns: string, target: string) returns (result: seq<Poller>)
      requires Sound(Now())
      ensures Lists(result, Listed(Now(), byTarget, TargetKey(ns, target)))
      ensures Exact(Now()) && SlashFree(ns) ==> Lists(result, InTarget(Now(), ns, target))
    {
      if Exact(Now()) && SlashFree(ns) {
        ExactLists(Now(), ns, target);
      }
      var targetKey := ns + "/" + target;
      if targetKey !in byTarget {
        return [];
      }
      result := Collected(byTarget[targetKey]);
    }

    method ListInNamespace(ns: string) returns (result: seq<Poller>)
      requires Sound(Now())
      ensures Lists(result, Listed(Now(), byNamespace, ns))
      ensures Exact(Now()) ==> Lists(result, InNamespace(Now(), ns))
    {
      if Exact(Now()) {
        assert NamespaceExact(Now(), ns);
      }
      if ns !in byNamespace {
        return [];
      }
      result := Collected(byNamespace[ns]);
    }

    method CountInTarget(ns: string, target: string) returns (n: nat)
      ensures n == |Get(byTarget, TargetKey(ns, target))|
      ensures Exact(Now()) && SlashFree(ns) ==> n == |InTarget(Now(), ns, target)|
    {
      if Exact(Now()) && SlashFree(ns) {
        ExactLists(Now(), ns, target);
      }
      var targetKey := ns + "/" + target;
      if targetKey in byTarget {
        return |byTarget[targetKey]|;
      }
      return 0;
    }
  }
}
