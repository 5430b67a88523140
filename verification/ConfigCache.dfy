/** The cache in front of the configuration resolver.  A Resolve that misses reads four
    rows, each at its own moment, and stores its result at a later one; an invalidation
    of a target or namespace drops entries one by one; other calls may come in between. */
module ConfigCache {
  import opened Text
  import opened PollerKeys

  /** 30 seconds, in nanoseconds. */
  const CACHE_TTL: int := 30_000_000_000

  /** A Resolve reads four tables: server, namespace, target, poller, each at its moment. */
  const READS: nat := 4

  /** A cached result: for whom, when its rows were read, when it was stored. */
  datatype Entry = Entry(asked: PollerKey, readAt: seq<int>, createdAt: int)

  /** A Resolve that missed: the moments of its reads so far. */
  datatype Flight = Flight(asked: PollerKey, readAt: seq<int>)

  /** One InvalidateTarget or InvalidateNamespace: since when it goes through the keys
      beyond its prefix, and which of those found then it has yet to drop. */
  datatype Sweep = Sweep(prefix: string, since: int, todo: set<string>, done: bool)

  datatype State = State(cache: map<string, Entry>, flights: seq<Flight>, sweeps: seq<Sweep>, clock: int)

  datatype Step =
    | Fetch(k: PollerKey, at: int)    // a miss, and the first read
    | Read(i: nat, at: int)
    | Fail(i: nat, at: int)           // a read fails
    | Keep(i: nat, at: int)
    | Invalidate(k: PollerKey, at: int)
    | SweepStart(prefix: string, at: int)
    | SweepDrop(j: nat, key: string, at: int)
    | SweepEnd(j: nat, at: int)
    | InvalidateAll(at: int)

  function Hit(s: State, k: PollerKey, now: int): bool {
    k.String() in s.cache && now - s.cache[k.String()].createdAt < CACHE_TTL
  }

  function TargetPrefix(ns: string, target: string): string {
    ns + "/" + target + "/"
  }

  function NamespacePrefix(ns: string): string {
    ns + "/"
  }

  /** Longer than the prefix and starting with it. */
  predicate Beyond(key: string, prefix: string) {
    prefix < key
  }

  /** sync.Map.Range goes through the keys there at its start, and may also meet keys
      stored meanwhile. */
  predicate Enabled(s: State, step: Step) {
    && s.clock <= step.at
    && match step
       case Fetch(k, at) => !Hit(s, k, at)
       case Read(i, _) => i < |s.flights| && |s.flights[i].readAt| < READS
       case Fail(i, _) => i < |s.flights|
       case Keep(i, _) => i < |s.flights| && |s.flights[i].readAt| == READS
       case SweepDrop(j, key, _) => j < |s.sweeps| && !s.sweeps[j].done && Beyond(key, s.sweeps[j].prefix)
       case SweepEnd(j, _) => j < |s.sweeps| && !s.sweeps[j].done && s.sweeps[j].todo == {}
       case _ => true
  }

  function Next(s: State, step: Step): State
    requires Enabled(s, step)
  {
    match step
    case Fetch(k, at) => s.(flights := s.flights + [Flight(k, [at])], clock := at)
    case Read(i, at) =>
      var f := s.flights[i];
      s.(flights := s.flights[i := f.(readAt := f.readAt + [at])], clock := at)
    case Fail(i, at) => s.(flights := s.flights[..i] + s.flights[i + 1..], clock := at)
    case Keep(i, at) =>
      var f := s.flights[i];
      s.(cache := s.cache[f.asked.String() := Entry(f.asked, f.readAt, at)],
         flights := s.flights[..i] + s.flights[i + 1..], clock := at)
    case Invalidate(k, at) => s.(cache := s.cache - {k.String()}, clock := at)
    case SweepStart(prefix, at) =>
      s.(sweeps := s.sweeps + [Sweep(prefix, at, set key | key in s.cache && Beyond(key, prefix), false)], clock := at)
    case SweepDrop(j, key, at) =>
      var w := s.sweeps[j];
      s.(cache := s.cache - {key}, sweeps := s.sweeps[j := w.(todo := w.todo - {key})], clock := at)
    case SweepEnd(j, at) => s.(sweeps := s.sweeps[j := s.sweeps[j].(done := true)], clock := at)
    case InvalidateAll(at) => s.(cache := map[], clock := at)
  }

  /** steps lead from s to t; a result is stored at most `delay` after its first read. */
  ghost predicate Run(delay: nat, s: State, steps: seq<Step>, t: State)
    decreases |steps|
  {
    if steps == [] then s == t
    else
      && Enabled(s, steps[0])
      && InTime(delay, s, steps[0])
      && Run(delay, Next(s, steps[0]), steps[1..], t)
  }

  ghost predicate InTime(delay: nat, s: State, step: Step)
    requires Enabled(s, step)
  {
    step.Keep? ==> s.flights[step.i].readAt[0] + delay >= step.at
  }

  const Empty: State := State(map[], [], [], 0)

  // ----- whose result, and how old -----

  /** Moments in order, none later than `now`. */
  ghost predicate InOrder(readAt: seq<int>, now: int) {
    && (forall i, j | 0 <= i < j < |readAt| :: readAt[i] <= readAt[j])
    && forall i | 0 <= i < |readAt| :: readAt[i] <= now
  }

  ghost predicate Dated(delay: nat, s: State) {
    && (forall key | key in s.cache :: EntryDated(delay, s, key))
    && forall i: nat | i < |s.flights| :: FlightDated(s, i)
  }

  ghost predicate EntryDated(delay: nat, s: State, key: string)
    requires key in s.cache
  {
    var e := s.cache[key];
    && e.asked.String() == key && |e.readAt| == READS && InOrder(e.readAt, e.createdAt)
    && e.createdAt <= e.readAt[0] + delay && e.createdAt <= s.clock
  }

  ghost predicate FlightDated(s: State, i: nat)
    requires i < |s.flights|
  {
    1 <= |s.flights[i].readAt| <= READS && InOrder(s.flights[i].readAt, s.clock)
  }

  lemma StepKeepsDated(delay: nat, s: State, step: Step)
    requires Dated(delay, s) && Enabled(s, step) && InTime(delay, s, step)
    ensures Dated(delay, Next(s, step))
  {
    var r := Next(s, step);
    if step.Keep? {
      assert FlightDated(s, step.i);
    }
    forall key | key in r.cache
      ensures EntryDated(delay, r, key)
    {
      if !(step.Keep? && key == s.flights[step.i].asked.String()) {
        assert EntryDated(delay, s, key);
      }
    }
    forall i: nat | i < |r.flights|
      ensures FlightDated(r, i)
    {
      FlightFrom(s, step, i);
    }
  }

  lemma FlightFrom(s: State, step: Step, i: nat)
    requires Enabled(s, step) && i < |Next(s, step).flights|
    requires forall i: nat | i < |s.flights| :: FlightDated(s, i)
    ensures FlightDated(Next(s, step), i)
  {
    if i < |s.flights| {
      assert FlightDated(s, i);
    }
    if i + 1 < |s.flights| {
      assert FlightDated(s, i + 1);
    }
  }

  lemma {:induction false} RunKeepsDated(delay: nat, s: State, steps: seq<Step>, t: State)
    requires Dated(delay, s) && Run(delay, s, steps, t)
    ensures Dated(delay, t)
    decreases |steps|
  {
    if steps != [] {
      StepKeepsDated(delay, s, steps[0]);
      RunKeepsDated(delay, Next(s, steps[0]), steps[1..], t);
    }
  }

  /** A hit answers what the rows said for the key's string, each layer at the moment of
      its own read, and all four moments lie less than the time to live plus the delay
      ago; with slash-free namespaces and targets, what they said for the key itself.
      Without delay that is less than 30 seconds ago. */
  lemma HitsAreRecent(delay: nat, steps: seq<Step>, t: State, k: PollerKey, now: int)
    requires Run(delay, Empty, steps, t) && t.clock <= now && Hit(t, k, now)
    ensures var e := t.cache[k.String()];
            && e.asked.String() == k.String()
            && |e.readAt| == 4
            && (forall i | 0 <= i < |e.readAt| :: now - 30_000_000_000 - delay < e.readAt[i] <= now)
            && (Plain(k) && Plain(e.asked) ==> e.asked == k)
  {
    RunKeepsDated(delay, Empty, steps, t);
    assert EntryDated(delay, t, k.String());
    if Plain(k) && Plain(t.cache[k.String()].asked) {
      StringInjective(t.cache[k.String()].asked, k);
    }
  }

  /** The delay counts: the answer's age can come as close to that bound as you like. */
  lemma HitsCanBeThatOld(delay: nat, k: PollerKey) returns (steps: seq<Step>, t: State, now: int)
    ensures Run(delay, Empty, steps, t) && t.clock <= now && Hit(t, k, now)
    ensures |t.cache[k.String()].readAt| == READS
    ensures forall i | 0 <= i < READS :: t.cache[k.String()].readAt[i] == now - CACHE_TTL - delay + 1
  {
    hide PollerKey.String, AllRead;
    var m := Next(Empty, Fetch(k, 0));
    var a := ReadOn(delay, m, 0);
    var f := AllRead(Flight(k, [0]), 0);
    var s := m.(flights := m.flights[0 := f]);
    assert f.readAt[0] == [0][0];
    t := Next(s, Keep(0, delay));
    now := delay + CACHE_TTL - 1;
    assert ([Keep(0, delay)])[1..] == [] && Run(delay, t, [], t);
    assert Run(delay, s, [Keep(0, delay)], t);
    RunAppend(delay, m, a, s, [Keep(0, delay)], t);
    RunCons(delay, Empty, Fetch(k, 0), a + [Keep(0, delay)], t);
    steps := [Fetch(k, 0)] + (a + [Keep(0, delay)]);
  }

  lemma RunCons(delay: nat, s: State, step: Step, rest: seq<Step>, t: State)
    requires Enabled(s, step) && InTime(delay, s, step) && Run(delay, Next(s, step), rest, t)
    ensures Run(delay, s, [step] + rest, t)
  {
    hide Next, Enabled, InTime;
    assert ([step] + rest)[1..] == rest;
  }

  lemma {:induction false} RunAppend(delay: nat, s: State, a: seq<Step>, m: State, b: seq<Step>, t: State)
    requires Run(delay, s, a, m) && Run(delay, m, b, t)
    ensures Run(delay, s, a + b, t)
    decreases |a|
  {
    hide Next, Enabled, InTime;
    if a == [] {
      assert a + b == b;
    } else {
      RunAppend(delay, Next(s, a[0]), a[1..], m, b, t);
      assert (a + b)[1..] == a[1..] + b;
    }
  }

  /** The remaining reads of a flight, all at the present moment. */
  function AllRead(f: Flight, at: int): Flight
    decreases READS - |f.readAt|
  {
    if |f.readAt| >= READS then f else AllRead(f.(readAt := f.readAt + [at]), at)
  }

  lemma {:induction false} ReadOn(delay: nat, s: State, i: nat) returns (steps: seq<Step>)
    requires i < |s.flights| && 1 <= |s.flights[i].readAt| <= READS
    ensures Run(delay, s, steps, s.(flights := s.flights[i := AllRead(s.flights[i], s.clock)]))
    ensures var f := AllRead(s.flights[i], s.clock);
            && |f.readAt| == READS && f.asked == s.flights[i].asked && s.flights[i].readAt <= f.readAt
            && forall n | |s.flights[i].readAt| <= n < READS :: f.readAt[n] == s.clock
    decreases READS - |s.flights[i].readAt|
  {
    if |s.flights[i].readAt| == READS {
      steps := [];
      assert s.flights[i := s.flights[i]] == s.flights;
    } else {
      var step := Read(i, s.clock);
      var r := Next(s, step);
      steps := ReadOn(delay, r, i);
      var f := AllRead(s.flights[i], s.clock);
      assert r.flights[i := f] == s.flights[i := f];
      RunCons(delay, s, step, steps, s.(flights := s.flights[i := f]));
      steps := [step] + steps;
    }
  }

  // ----- every Resolve that missed is accounted for -----

  function Begun(steps: seq<Step>): nat
    decreases |steps|
  {
    if steps == [] then 0 else (if steps[0].Fetch? then 1 else 0) + Begun(steps[1..])
  }

  function Ended(steps: seq<Step>): nat
    decreases |steps|
  {
    if steps == [] then 0 else (if steps[0].Keep? || steps[0].Fail? then 1 else 0) + Ended(steps[1..])
  }

  /** Over any run: those that missed have stored their result, failed, or are under way,
      and the clock shows the last step. */
  lemma {:induction false} MissesAreCounted(delay: nat, s: State, steps: seq<Step>, t: State)
    requires Run(delay, s, steps, t)
    ensures |s.flights| + Begun(steps) == |t.flights| + Ended(steps)
    ensures t.clock == if steps == [] then s.clock else steps[|steps| - 1].at
    decreases |steps|
  {
    if steps != [] {
      MissesAreCounted(delay, Next(s, steps[0]), steps[1..], t);
    }
  }

  // ----- what the invalidations drop -----

  /** With slash-free namespaces and targets, InvalidateTarget drops the target's
      pollers, all but one with an empty name. */
  lemma InvalidateTargetIsExact(ns: string, target: string, k: PollerKey)
    requires SlashFree(ns) && SlashFree(target) && Plain(k)
    ensures Beyond(k.String(), TargetPrefix(ns, target)) <==> k.ns == ns && k.target == target && k.poller != ""
  {
    var prefix, key := TargetPrefix(ns, target), k.String();
    if prefix < key {
      var rest := PollerKey(ns, target, key[|prefix|..]);
      assert rest.String() == key;
      StringInjective(rest, k);
    }
    if k.ns == ns && k.target == target {
      assert key == prefix + k.poller;
    }
  }

  lemma InvalidateNamespaceIsExact(ns: string, k: PollerKey)
    requires SlashFree(ns) && Plain(k)
    ensures Beyond(k.String(), NamespacePrefix(ns)) <==> k.ns == ns
  {
    var prefix, key := NamespacePrefix(ns), k.String();
    assert key == k.ns + "/" + (k.target + "/" + k.poller);
    CutAtSlash(k.ns, k.target + "/" + k.poller);
    if prefix < key {
      assert key == ns + "/" + key[|prefix|..];
      CutAtSlash(ns, key[|prefix|..]);
    }
  }

  lemma InvalidateIsExact(k: PollerKey, l: PollerKey)
    requires Plain(k) && Plain(l)
    ensures k.String() == l.String() <==> k == l
  {
    if k.String() == l.String() {
      StringInjective(k, l);
    }
  }

  /** For any names: an entry goes with a namespace exactly if the two namespaces are the
      same, or the entry's own has a slash and goes on from the dropped one's after it.
      Validated names have no slash. */
  lemma InvalidateNamespaceIff(ns: string, k: PollerKey)
    requires SlashFree(ns)
    ensures Beyond(k.String(), NamespacePrefix(ns)) <==> k.ns == ns || NamespacePrefix(ns) <= k.ns
  {
    var prefix, key := NamespacePrefix(ns), k.String();
    assert key == k.ns + ("/" + k.target + "/" + k.poller);
    forall i | 0 <= i < |ns| ensures prefix[i] != '/' {
      assert ns[i] in ns;
    }
    if prefix < key && |k.ns| < |prefix| {
      assert prefix[..|k.ns|] == key[..|k.ns|] == k.ns;
      assert key[|k.ns|] == '/';
    }
  }

  // ----- what an invalidation promises -----

  /** No result for this string, some row of which was read before `since`, still waits
      to be stored. */
  ghost predicate NoneOlder(s: State, key: string, since: int) {
    forall i: nat | i < |s.flights| && s.flights[i].asked.String() == key :: ReadSince(s.flights[i].readAt, since)
  }

  /** The first read, and so every read, is at `since` or later. */
  ghost predicate ReadSince(readAt: seq<int>, since: int) {
    |readAt| >= 1 && since <= readAt[0]
  }

  ghost predicate Older(s: State, key: string, since: int) {
    key in s.cache && !ReadSince(s.cache[key].readAt, since)
  }

  /** Whatever is or will be answered for this string was read at `since` or later. */
  ghost predicate NewerThan(s: State, key: string, since: int) {
    !Older(s, key, since) && NoneOlder(s, key, since)
  }

  lemma StepKeepsNoneOlder(s: State, step: Step, key: string, since: int)
    requires Enabled(s, step) && since <= s.clock && NoneOlder(s, key, since)
    ensures NoneOlder(Next(s, step), key, since)
    ensures Older(Next(s, step), key, since) ==> Older(s, key, since)
  {
    var r := Next(s, step);
    forall i: nat | i < |r.flights| && r.flights[i].asked.String() == key
      ensures ReadSince(r.flights[i].readAt, since)
    {
      assert i < |s.flights| && s.flights[i].asked.String() == key ==> ReadSince(s.flights[i].readAt, since);
      assert i + 1 < |s.flights| && s.flights[i + 1].asked.String() == key ==> ReadSince(s.flights[i + 1].readAt, since);
    }
  }

  lemma {:induction false} RunKeepsNewer(delay: nat, s: State, steps: seq<Step>, t: State, key: string, since: int)
    requires Run(delay, s, steps, t) && since <= s.clock && NewerThan(s, key, since)
    ensures NewerThan(t, key, since)
    decreases |steps|
  {
    if steps != [] {
      StepKeepsNoneOlder(s, steps[0], key, since);
      RunKeepsNewer(delay, Next(s, steps[0]), steps[1..], t, key, since);
    }
  }

  /** From this state on, every answer for k comes from rows read at `since` or later,
      whatever is called in between. */
  ghost predicate AnswersSince(s: State, k: PollerKey, since: int) {
    forall delay, steps, t, now | Run(delay, s, steps, t) && t.clock <= now && Hit(t, k, now) ::
      ReadSince(t.cache[k.String()].readAt, since)
  }

  /** An older result that waits can be stored, and then is the answer. */
  lemma WaitingResultAnswers(s: State, i: nat, k: PollerKey, since: int)
    requires i < |s.flights| && 1 <= |s.flights[i].readAt| <= READS && s.flights[i].readAt[0] <= s.clock
    requires s.flights[i].asked.String() == k.String() && !ReadSince(s.flights[i].readAt, since)
    ensures !AnswersSince(s, k, since)
  {
    var delay: nat := s.clock - s.flights[i].readAt[0];
    var a := ReadOn(delay, s, i);
    var m := s.(flights := s.flights[i := AllRead(s.flights[i], s.clock)]);
    var keep := Keep(i, s.clock);
    var t := Next(m, keep);
    assert ([keep])[1..] == [] && Run(delay, t, [], t);
    assert Run(delay, m, [keep], t);
    RunAppend(delay, s, a, m, [keep], t);
    assert Hit(t, k, s.clock);
  }

  /** Flights as they come about: at least one read, none later than now. */
  ghost predicate FlightsDated(s: State) {
    forall i: nat | i < |s.flights| :: FlightDated(s, i)
  }

  /** After a step that drops the entry at once, every later answer comes from rows read
      then or later exactly if no older result still waits to be stored. */
  lemma InvalidationRefreshesIff(s: State, step: Step, k: PollerKey)
    requires Enabled(s, step) && FlightsDated(s)
    requires step.InvalidateAll? || (step.Invalidate? && step.k.String() == k.String())
    ensures AnswersSince(Next(s, step), k, step.at) <==> NoneOlder(s, k.String(), step.at)
  {
    var r := Next(s, step);
    if NoneOlder(s, k.String(), step.at) {
      StepKeepsNoneOlder(s.(clock := step.at), step, k.String(), step.at);
      forall delay, steps, t, now | Run(delay, r, steps, t) && t.clock <= now && Hit(t, k, now)
        ensures ReadSince(t.cache[k.String()].readAt, step.at)
      {
        RunKeepsNewer(delay, r, steps, t, k.String(), step.at);
      }
    } else {
      var i: nat :| i < |s.flights| && s.flights[i].asked.String() == k.String()
                    && !ReadSince(s.flights[i].readAt, step.at);
      assert FlightDated(s, i);
      WaitingResultAnswers(r, i, k, step.at);
    }
  }

  // ----- what a sweep promises -----

  /** While it goes on, an older entry is still to be dropped. */
  ghost predicate Sweeping(s: State, j: nat, key: string, since: int) {
    && j < |s.sweeps|
    && NoneOlder(s, key, since)
    && (Older(s, key, since) ==> key in s.sweeps[j].todo)
    && (s.sweeps[j].done ==> s.sweeps[j].todo == {})
  }

  lemma {:induction false} RunKeepsSweeping(delay: nat, s: State, steps: seq<Step>, t: State,
                                            j: nat, key: string, since: int)
    requires Run(delay, s, steps, t) && since <= s.clock && Sweeping(s, j, key, since)
    ensures Sweeping(t, j, key, since)
    decreases |steps|
  {
    if steps != [] {
      StepKeepsNoneOlder(s, steps[0], key, since);
      RunKeepsSweeping(delay, Next(s, steps[0]), steps[1..], t, j, key, since);
    }
  }

  /** Whenever the sweep begun here has ended, every answer comes from rows read at its
      start or later. */
  ghost predicate SweepRefreshes(s: State, prefix: string, at: int, k: PollerKey)
    requires s.clock <= at
  {
    forall delay, steps, t, now |
      && Run(delay, Next(s, SweepStart(prefix, at)), steps, t)
      && |s.sweeps| < |t.sweeps| && t.sweeps[|s.sweeps|].done
      && t.clock <= now && Hit(t, k, now) ::
      ReadSince(t.cache[k.String()].readAt, at)
  }

  /** It does so exactly if, at its start, no older result still waits to be stored. */
  lemma SweepRefreshesIff(s: State, prefix: string, at: int, k: PollerKey)
    requires s.clock <= at && Beyond(k.String(), prefix) && FlightsDated(s)
    ensures SweepRefreshes(s, prefix, at, k) <==> NoneOlder(s, k.String(), at)
  {
    var r := Next(s, SweepStart(prefix, at));
    var j := |s.sweeps|;
    if NoneOlder(s, k.String(), at) {
      forall delay, steps, t, now |
        && Run(delay, r, steps, t) && |s.sweeps| < |t.sweeps| && t.sweeps[|s.sweeps|].done
        && t.clock <= now && Hit(t, k, now)
        ensures ReadSince(t.cache[k.String()].readAt, at)
      {
        RunKeepsSweeping(delay, r, steps, t, j, k.String(), at);
      }
    } else {
      var i: nat :| i < |s.flights| && s.flights[i].asked.String() == k.String()
                    && !ReadSince(s.flights[i].readAt, at);
      assert FlightDated(s, i);
      StaleAfterSweep(s, prefix, at, k, i);
    }
  }

  lemma StaleAfterSweep(s: State, prefix: string, at: int, k: PollerKey, i: nat)
    requires s.clock <= at && i < |s.flights| && FlightDated(s, i)
    requires s.flights[i].asked.String() == k.String() && !ReadSince(s.flights[i].readAt, at)
    ensures !SweepRefreshes(s, prefix, at, k)
  {
    var r := Next(s, SweepStart(prefix, at));
    var m := Swept(s, prefix, at);
    WaitingResultAnswers(m, i, k, at);
    var delay, steps, t, now :| Run(delay, m, steps, t) && t.clock <= now && Hit(t, k, now)
                                && !ReadSince(t.cache[k.String()].readAt, at);
    var a := SweepThrough(delay, r, |s.sweeps|);
    SweepsStay(delay, m, steps, t, |s.sweeps|);
    assert m == r.(cache := r.cache - r.sweeps[|s.sweeps|].todo,
                   sweeps := r.sweeps[|s.sweeps| := r.sweeps[|s.sweeps|].(todo := {}, done := true)]);
    RunAppend(delay, r, a, m, steps, t);
  }

  /** The state after a sweep with nothing in between. */
  function Swept(s: State, prefix: string, at: int): State {
    var todo := set key | key in s.cache && Beyond(key, prefix);
    s.(cache := s.cache - todo, sweeps := s.sweeps + [Sweep(prefix, at, {}, true)], clock := at)
  }

  /** What is left of a sweep, with nothing in between. */
  lemma {:induction false} SweepThrough(delay: nat, s: State, j: nat) returns (steps: seq<Step>)
    requires j < |s.sweeps| && !s.sweeps[j].done
    requires forall key | key in s.sweeps[j].todo :: Beyond(key, s.sweeps[j].prefix)
    ensures Run(delay, s, steps, s.(cache := s.cache - s.sweeps[j].todo,
                                    sweeps := s.sweeps[j := s.sweeps[j].(todo := {}, done := true)]))
    decreases |s.sweeps[j].todo|
  {
    var w := s.sweeps[j];
    var end := s.(cache := s.cache - w.todo, sweeps := s.sweeps[j := w.(todo := {}, done := true)]);
    if w.todo == {} {
      steps := [SweepEnd(j, s.clock)];
      assert s.cache - w.todo == s.cache;
      assert steps[1..] == [] && Run(delay, end, [], end);
    } else {
      var key :| key in w.todo;
      var step := SweepDrop(j, key, s.clock);
      var r := Next(s, step);
      steps := SweepThrough(delay, r, j);
      assert r.cache - r.sweeps[j].todo == s.cache - w.todo;
      assert r.sweeps[j := r.sweeps[j].(todo := {}, done := true)] == end.sweeps;
      RunCons(delay, s, step, steps, end);
      steps := [step] + steps;
    }
  }

  lemma {:induction false} SweepsStay(delay: nat, s: State, steps: seq<Step>, t: State, j: nat)
    requires Run(delay, s, steps, t) && j < |s.sweeps| && s.sweeps[j].done
    ensures j < |t.sweeps| && t.sweeps[j].done
    decreases |steps|
  {
    if steps != [] {
      SweepsStay(delay, Next(s, steps[0]), steps[1..], t, j);
    }
  }

  // ----- calls with nothing in between -----

  /** An InvalidateTarget or InvalidateNamespace. */
  lemma SweptIsARun(delay: nat, s: State, prefix: string, at: int) returns (steps: seq<Step>)
    requires s.clock <= at
    ensures Run(delay, s, steps, Swept(s, prefix, at))
  {
    var r := Next(s, SweepStart(prefix, at));
    var rest := SweepThrough(delay, r, |s.sweeps|);
    assert Swept(s, prefix, at)
        == r.(cache := r.cache - r.sweeps[|s.sweeps|].todo,
              sweeps := r.sweeps[|s.sweeps| := r.sweeps[|s.sweeps|].(todo := {}, done := true)]);
    RunCons(delay, s, SweepStart(prefix, at), rest, Swept(s, prefix, at));
    steps := [SweepStart(prefix, at)] + rest;
  }

  lemma KeepStores(s: State, i: nat, at: int)
    requires Enabled(s, Keep(i, at))
    ensures var f := s.flights[i];
            Next(s, Keep(i, at)).cache == s.cache[f.asked.String() := Entry(f.asked, f.readAt, at)]
  {
  }

  /** A Resolve that misses. */
  function Resolved(s: State, k: PollerKey, readAt: seq<int>, at: int): State {
    s.(cache := s.cache[k.String() := Entry(k, readAt, at)], clock := at)
  }

  lemma ResolvedIsARun(delay: nat, s: State, k: PollerKey, readAt: seq<int>, at: int) returns (steps: seq<Step>)
    requires |readAt| == READS && s.clock <= readAt[0] && InOrder(readAt, at) && at <= readAt[0] + delay
    requires !Hit(s, k, readAt[0])
    ensures Run(delay, s, steps, Resolved(s, k, readAt, at))
  {
    var i := |s.flights|;
    var f := Flight(k, readAt);
    var m := s.(flights := s.flights + [f], clock := readAt[3]);
    var t := Resolved(s, k, readAt, at);
    assert m.flights[..i] + m.flights[i + 1..] == s.flights;
    assert Next(m, Keep(i, at)) == t && ([Keep(i, at)])[1..] == [] && Run(delay, t, [], t);
    assert Run(delay, m, [Keep(i, at)], t);
    var s1 := Next(s, Fetch(k, readAt[0]));
    var s2 := s.(flights := s.flights + [Flight(k, readAt[..2])], clock := readAt[1]);
    var s3 := s.(flights := s.flights + [Flight(k, readAt[..3])], clock := readAt[2]);
    assert readAt[..2] == [readAt[0]] + [readAt[1]] && readAt[..3] == readAt[..2] + [readAt[2]]
        && readAt == readAt[..3] + [readAt[3]];
    assert Next(s1, Read(i, readAt[1])) == s2 && Next(s2, Read(i, readAt[2])) == s3 && Next(s3, Read(i, readAt[3])) == m;
    steps := [Keep(i, at)];
    RunCons(delay, s3, Read(i, readAt[3]), steps, t);
    steps := [Read(i, readAt[3])] + steps;
    RunCons(delay, s2, Read(i, readAt[2]), steps, t);
    steps := [Read(i, readAt[2])] + steps;
    RunCons(delay, s1, Read(i, readAt[1]), steps, t);
    steps := [Read(i, readAt[1])] + steps;
    RunCons(delay, s, Fetch(k, readAt[0]), steps, t);
    steps := [Fetch(k, readAt[0])] + steps;
  }
}
