/** A target's ring buffer of samples and its running statistics. */
module TargetBuffer {

  datatype Sample = Sample(timestampMs: int, counter: nat, text: string, valid: bool, error: string, pollMs: int)

  const POLLING := "polling"
  const UNREACHABLE := "unreachable"

  function LastN(s: seq<Sample>, n: nat): (r: seq<Sample>) {
    if n >= |s| then s else s[|s| - n..]
  }

  /** i % n for an index that has run over the end at most once. */
  lemma WrapOnce(i: nat, n: nat)
    requires 0 < n && i < 2 * n
    ensures i % n == if i < n then i else i - n
  {
    if i >= n {
      assert i == n + (i - n);
      assert (i - n) % n == i - n;
      assert (n + (i - n)) % n == (i - n) % n;
    }
  }

  /** The program's index arithmetic. */
  method Wrap(i: nat, n: nat) returns (r: nat)
    requires 0 < n && i < 2 * n
    ensures r == if i < n then i else i - n
  {
    WrapOnce(i, n);
    r := i % n;
  }

  // ----- what the statistics mean -----

  function ValidCount(h: seq<Sample>): (n: nat)
    ensures n <= |h|
  {
    if h == [] then 0 else ValidCount(h[..|h| - 1]) + if h[|h| - 1].valid then 1 else 0
  }

  /** The length of the run of failures at the end. */
  function FailureRun(h: seq<Sample>): (n: nat)
    ensures n <= |h|
    ensures forall i | |h| - n <= i < |h| :: !h[i].valid
    ensures n < |h| ==> h[|h| - n - 1].valid
  {
    if h == [] || h[|h| - 1].valid then 0 else 1 + FailureRun(h[..|h| - 1])
  }

  function TotalMs(h: seq<Sample>): int {
    if h == [] then 0 else TotalMs(h[..|h| - 1]) + h[|h| - 1].pollMs
  }

  /** The program's running minimum; -1 stands for none. */
  function MinMs(h: seq<Sample>): int {
    if h == [] then -1
    else
      var m := MinMs(h[..|h| - 1]);
      if m < 0 || h[|h| - 1].pollMs < m then h[|h| - 1].pollMs else m
  }

  function MaxMs(h: seq<Sample>): int {
    if h == [] then 0
    else
      var m := MaxMs(h[..|h| - 1]);
      if h[|h| - 1].pollMs > m then h[|h| - 1].pollMs else m
  }

  ghost predicate Timed(h: seq<Sample>) {
    forall i | 0 <= i < |h| :: h[i].pollMs >= 0
  }

  ghost predicate Occurs(h: seq<Sample>, ms: int) {
    exists i :: 0 <= i < |h| && h[i].pollMs == ms
  }

  ghost predicate Bounds(h: seq<Sample>, lo: int, hi: int) {
    forall i | 0 <= i < |h| :: lo <= h[i].pollMs <= hi
  }

  /** For polls that took no negative time the running minimum and maximum are the
      least and the greatest. */
  lemma {:induction false} ExtremesAreRight(h: seq<Sample>)
    requires Timed(h) && h != []
    ensures Occurs(h, MinMs(h)) && Occurs(h, MaxMs(h))
    ensures Bounds(h, MinMs(h), MaxMs(h)) && MinMs(h) >= 0
  {
    var n := |h| - 1;
    var g := h[..n];
    assert h[n].pollMs >= 0;
    if g == [] {
      assert MinMs(g) == -1 && MaxMs(g) == 0;
    } else {
      ExtremesAreRight(g);
      OccursInLonger(g, h, MinMs(g));
      OccursInLonger(g, h, MaxMs(g));
      assert forall i | 0 <= i < n :: h[i] == g[i];
    }
  }

  lemma {:induction false} TotalIsBetween(h: seq<Sample>, lo: int, hi: int)
    requires Bounds(h, lo, hi)
    ensures |h| * lo <= TotalMs(h) <= |h| * hi
  {
    if h != [] {
      var n := |h| - 1;
      assert forall i | 0 <= i < n :: h[..n][i] == h[i];
      TotalIsBetween(h[..n], lo, hi);
      hide Bounds;
      OneMoreTime(n, lo);
      OneMoreTime(n, hi);
    }
  }

  lemma OneMoreTime(n: nat, x: int)
    ensures (n + 1) * x == n * x + x
  {
  }

  lemma OccursInLonger(g: seq<Sample>, h: seq<Sample>, ms: int)
    requires g <= h && Occurs(g, ms)
    ensures Occurs(h, ms)
  {
    var i :| 0 <= i < |g| && g[i].pollMs == ms;
    assert h[i] == g[i];
  }

  lemma Scaled(n: nat, a: int, b: int)
    requires a <= b
    ensures n * a <= n * b
  {
  }

  /** Go's division of int64, which truncates towards zero. */
  function TruncDiv(a: int, b: nat): int
    requires b > 0
  {
    if a >= 0 then a / b else -((-a) / b)
  }

  /** It is the largest multiple that fits, towards zero. */
  lemma TruncDivIs(a: int, b: nat)
    requires b > 0
    ensures a >= 0 ==> b * TruncDiv(a, b) <= a < b * (TruncDiv(a, b) + 1)
    ensures a < 0 ==> b * (TruncDiv(a, b) - 1) < a <= b * TruncDiv(a, b)
  {
    QuotientIs(if a >= 0 then a else -a, b);
  }

  lemma QuotientIs(a: nat, b: nat)
    requires b > 0
    ensures b * (a / b) <= a < b * (a / b + 1) && b * (0 - a / b - 1) < 0 - a <= b * (0 - a / b)
  {
    var q := a / b;
    assert a == b * q + a % b;
    Signs(b, q);
  }

  lemma Signs(b: nat, q: nat)
    ensures b * (q + 1) == b * q + b && b * (0 - q) == 0 - b * q && b * (0 - q - 1) == 0 - b * q - b
  {
  }

  /** The sum and the count are those of the parts. */
  lemma {:induction false} SumsAdd(g: seq<Sample>, h: seq<Sample>)
    ensures TotalMs(g + h) == TotalMs(g) + TotalMs(h)
    ensures ValidCount(g + h) == ValidCount(g) + ValidCount(h)
    decreases |h|
  {
    if h == [] {
      assert g + h == g;
    } else {
      var n := |h| - 1;
      assert (g + h)[..|g + h| - 1] == g + h[..n] && (g + h)[|g + h| - 1] == h[n];
      SumsAdd(g, h[..n]);
    }
  }

  lemma SumsOfOne(s: Sample)
    ensures TotalMs([s]) == s.pollMs && TotalMs([]) == 0
    ensures ValidCount([s]) == (if s.valid then 1 else 0) && ValidCount([]) == 0
  {
    assert [s][..0] == [];
  }

  lemma TimedTotal(h: seq<Sample>)
    requires Timed(h)
    ensures TotalMs(h) >= 0
  {
    if h != [] {
      ExtremesAreRight(h);
      TotalIsBetween(h, MinMs(h), MaxMs(h));
      Scaled(|h|, 0, MinMs(h));
    }
  }

  /** The last three samples there are were all failures. */
  predicate ThreeFailures(h: seq<Sample>) {
    |h| >= 3 && !h[|h| - 1].valid && !h[|h| - 2].valid && !h[|h| - 3].valid
  }

  lemma ThreeFailuresIff(h: seq<Sample>)
    ensures FailureRun(h) >= 3 <==> ThreeFailures(h)
  {
  }

  /** The reported average lies between the reported minimum and maximum. */
  lemma AverageIsBetween(h: seq<Sample>)
    requires Timed(h) && h != []
    ensures MinMs(h) <= TruncDiv(TotalMs(h), |h|) <= MaxMs(h)
  {
    ExtremesAreRight(h);
    TotalIsBetween(h, MinMs(h), MaxMs(h));
    assert 0 <= |h| * MinMs(h) by { Scaled(|h|, 0, MinMs(h)); }
    Quotient(TotalMs(h), |h|, MinMs(h), MaxMs(h));
  }

  lemma Quotient(t: nat, n: nat, lo: int, hi: int)
    requires n > 0 && n * lo <= t <= n * hi
    ensures lo <= t / n <= hi
  {
    var q := t / n;
    assert n * q <= t < n * (q + 1);
    if q < lo { Scaled(n, q + 1, lo); }
    if q > hi { Scaled(n, hi + 1, q); }
  }

  // ----- runs on the abstract buffer -----

  datatype Op = Write(s: Sample) | Resize(size: nat)

  /** The buffer's contents and capacity after a run. */
  function Replay(cap: nat, ops: seq<Op>): (seq<Sample>, nat) {
    if ops == [] then ([], cap)
    else
      var (c, n) := Replay(cap, ops[..|ops| - 1]);
      match ops[|ops| - 1]
      case Write(s) => (LastN(c + [s], n), n)
      case Resize(m) => (LastN(c, m), m)
  }

  function Written(ops: seq<Op>): seq<Sample> {
    if ops == [] then []
    else Written(ops[..|ops| - 1]) + match ops[|ops| - 1] case Write(s) => [s] case Resize(_) => []
  }

  /** How many samples are left after a run: a write adds one up to the capacity, a
      resize cuts to the new size. */
  function Kept(cap: nat, ops: seq<Op>): (nat, nat) {
    if ops == [] then (0, cap)
    else
      var (k, n) := Kept(cap, ops[..|ops| - 1]);
      match ops[|ops| - 1]
      case Write(_) => (if k < n then k + 1 else n, n)
      case Resize(m) => (if k < m then k else m, m)
  }

  ghost predicate Resizable(ops: seq<Op>) {
    forall i | 0 <= i < |ops| && ops[i].Resize? :: ops[i].size >= 1
  }

  lemma LastNTwice(w: seq<Sample>, k: nat, m: nat)
    ensures LastN(LastN(w, k), m) == LastN(w, if k < m then k else m)
  {
  }

  lemma LastNSnoc(w: seq<Sample>, k: nat, s: Sample)
    requires k <= |w|
    ensures LastN(w, k) + [s] == LastN(w + [s], k + 1)
  {
  }

  /** After any run the buffer holds the most recent samples of all those written:
      how many depends on the sizes only. */
  lemma {:induction false} ReplayKeepsMostRecent(cap: nat, ops: seq<Op>)
    requires cap >= 1 && Resizable(ops)
    ensures Kept(cap, ops).0 <= Kept(cap, ops).1 && Kept(cap, ops).0 <= |Written(ops)|
    ensures Replay(cap, ops) == (LastN(Written(ops), Kept(cap, ops).0), Kept(cap, ops).1)
  {
    hide LastN;
    if ops == [] {
      LastNone([], 0);
    } else {
      var pre := ops[..|ops| - 1];
      assert forall i | 0 <= i < |pre| :: pre[i] == ops[i];
      ReplayKeepsMostRecent(cap, pre);
      var k, n, w := Kept(cap, pre).0, Kept(cap, pre).1, Written(pre);
      match ops[|ops| - 1] {
        case Write(s) =>
          LastNSnoc(w, k, s);
          LastNTwice(w + [s], k + 1, n);
        case Resize(m) =>
          assert Written(ops) == w + [];
          assert w + [] == w;
          LastNTwice(w, k, m);
      }
    }
  }

  /** Without resizes that is the last `cap` samples. */
  lemma {:induction false} WritesKeepLastCap(cap: nat, ops: seq<Op>)
    requires cap >= 1 && forall i | 0 <= i < |ops| :: ops[i].Write?
    ensures Replay(cap, ops) == (LastN(Written(ops), cap), cap)
  {
    hide LastN;
    if ops == [] {
      LastNone([], cap);
    } else {
      var pre := ops[..|ops| - 1];
      WritesKeepLastCap(cap, pre);
      LastOfLonger(Written(pre), ops[|ops| - 1].s, cap);
    }
  }

  lemma LastOfLonger(w: seq<Sample>, s: Sample, n: nat)
    requires n >= 1
    ensures LastN(LastN(w, n) + [s], n) == LastN(w + [s], n)
  {
  }

  // ----- the buffer -----

  /** Where the k-th oldest of `count` samples sits in a ring of n slots. */
  function Slot(n: nat, writeIdx: nat, count: nat, k: nat): (i: nat)
    requires writeIdx < n && k < count <= n
    ensures i < n
  {
    var i := writeIdx + n - count + k;
    if i < n then i else i - n
  }

  /** The samples in a ring, oldest first. */
  function View(ring: seq<Sample>, writeIdx: nat, count: nat): (v: seq<Sample>)
    requires writeIdx < |ring| && count <= |ring|
    ensures |v| == count
    ensures forall k: nat {:trigger v[k]} | k < count :: v[k] == ring[Slot(|ring|, writeIdx, count, k)]
  {
    seq(count, k requires 0 <= k < count => ring[Slot(|ring|, writeIdx, count, k)])
  }

  lemma PutView(ring: seq<Sample>, writeIdx: nat, count: nat, s: Sample)
    requires writeIdx < |ring| && count <= |ring|
    ensures var n := |ring|;
            View(ring[writeIdx := s], if writeIdx + 1 == n then 0 else writeIdx + 1,
                 if count < n then count + 1 else count)
            == LastN(View(ring, writeIdx, count) + [s], n)
  {
    var n := |ring|;
    var v := View(ring, writeIdx, count);
    var m := if count < n then count + 1 else count;
    var r := View(ring[writeIdx := s], if writeIdx + 1 == n then 0 else writeIdx + 1, m);
    forall k: nat | k < m
      ensures r[k] == LastN(v + [s], n)[k]
    {
      assert k + 1 < m ==> v[if count < n then k else k + 1] == r[k];
    }
  }

  lemma SuffixSnoc(h: seq<Sample>, count: nat, s: Sample, n: nat)
    requires count <= |h| && count <= n && n >= 1
    ensures LastN(h[|h| - count..] + [s], n)
            == (h + [s])[|h| + 1 - (if count < n then count + 1 else n)..]
  {
  }

  lemma SuffixLast(h: seq<Sample>, count: nat, n: nat)
    requires count <= |h|
    ensures var m := if n > count then count else n;
            LastN(h[|h| - count..], n) == LastN(h, m) == LastN(h[|h| - count..], m)
  {
  }

  lemma LastOfAll(v: seq<Sample>, n: nat)
    requires |v| <= n
    ensures LastN(v, n) == v
  {
  }

  lemma LastSuffix(h: seq<Sample>, m: nat)
    requires m <= |h|
    ensures LastN(h, m) == h[|h| - m..]
  {
  }

  lemma LastNone(v: seq<Sample>, n: nat)
    requires n == 0 || v == []
    ensures LastN(v, n) == []
  {
  }

  lemma SnocStats(h: seq<Sample>, s: Sample)
    ensures var g := h + [s];
      && ValidCount(g) == ValidCount(h) + (if s.valid then 1 else 0)
      && FailureRun(g) == (if s.valid then 0 else 1 + FailureRun(h))
      && TotalMs(g) == TotalMs(h) + s.pollMs
      && MinMs(g) == (if MinMs(h) < 0 || s.pollMs < MinMs(h) then s.pollMs else MinMs(h))
      && MaxMs(g) == (if s.pollMs > MaxMs(h) then s.pollMs else MaxMs(h))
  {
    assert (h + [s])[..|h|] == h;
  }

  class Target {
    var state: string
    var lastPollMs: int
    var lastError: string
    var errCount: nat
    var pollsTotal: nat
    var pollsOK: nat
    var pollsFailed: nat
    var pollMsTotal: int
    var pollMsMin: int
    var pollMsMax: int

    var buffer: array<Sample>
    var bufSize: nat
    var writeIdx: nat
    var count: nat

    ghost var history: seq<Sample> // every sample ever written

    ghost predicate Valid()
      reads this, buffer
    {
      && ShapeOk()
      && count <= |history| && Contents() == history[|history| - count..]
      && StatsOk()
    }

    ghost predicate ShapeOk()
      reads this
    {
      buffer.Length == bufSize && writeIdx < bufSize && count <= bufSize
    }

    /** The statistics are those of everything ever written. */
    ghost predicate StatsOk()
      reads this
    {
      CountsOk(history) && StateOk(history) && TimingOk(history)
    }

    ghost predicate CountsOk(h: seq<Sample>)
      reads this`pollsTotal, this`pollsOK, this`pollsFailed
    {
      pollsTotal == |h| && pollsOK == ValidCount(h) && pollsFailed == |h| - ValidCount(h)
    }

    ghost predicate StateOk(h: seq<Sample>)
      reads this`errCount, this`state, this`lastPollMs, this`lastError
    {
      && errCount == FailureRun(h)
      && state == (if FailureRun(h) >= 3 then UNREACHABLE else POLLING)
      && lastPollMs == (if h == [] then 0 else h[|h| - 1].timestampMs)
      && lastError == (if h == [] || h[|h| - 1].valid then "" else h[|h| - 1].error)
    }

    ghost predicate TimingOk(h: seq<Sample>)
      reads this`pollMsTotal, this`pollMsMin, this`pollMsMax
    {
      pollMsTotal == TotalMs(h) && pollMsMin == MinMs(h) && pollMsMax == MaxMs(h)
    }

    /** The buffered samples, oldest first. */
    ghost function Contents(): (c: seq<Sample>)
      requires ShapeOk()
      reads this, buffer
      ensures |c| == count
    {
      View(buffer[..], writeIdx, count)
    }

    constructor (bufSize: nat, blank: Sample)
      requires bufSize >= 1 // with 0 the first write divides by zero
      ensures Valid() && fresh(buffer) && this.bufSize == bufSize && Contents() == [] && history == []
    {
      state, lastPollMs, lastError, errCount := POLLING, 0, "", 0;
      pollsTotal, pollsOK, pollsFailed := 0, 0, 0;
      pollMsTotal, pollMsMin, pollMsMax := 0, -1, 0;
      buffer := new Sample[bufSize](_ => blank);
      this.bufSize, writeIdx, count, history := bufSize, 0, 0, [];
    }

    method WriteSample(s: Sample)
      requires Valid()
      modifies this, buffer
      ensures Valid() && buffer == old(buffer) && bufSize == old(bufSize)
      ensures history == old(history) + [s]
      ensures Contents() == LastN(old(Contents()) + [s], bufSize)
      ensures Reports(s)
    {
      hide Target.CountsOk, Target.StateOk, Target.TimingOk, Target.Reports, View, LastN;
      Put(s);
      Account(s);
      SuffixSnoc(old(history), old(count), s, bufSize);
    }

    method Put(s: Sample)
      requires ShapeOk()
      modifies this`writeIdx, this`count, buffer
      ensures ShapeOk() && Contents() == LastN(old(Contents()) + [s], bufSize)
      ensures count == if old(count) < bufSize then old(count) + 1 else bufSize
    {
      PutView(buffer[..], writeIdx, count, s);
      ghost var ring := buffer[..];
      buffer[writeIdx] := s;
      assert buffer[..] == ring[writeIdx := s];
      writeIdx := Wrap(writeIdx + 1, bufSize);
      if count < bufSize {
        count := count + 1;
      }
    }

    /** What clients are told after s: the target is unreachable exactly when the last
        three samples ever written were failures. */
    ghost predicate Reports(s: Sample)
      reads this`state, this`lastPollMs, this`lastError, this`pollsTotal, this`pollsOK, this`pollsFailed, this`history
    {
      && state == (if ThreeFailures(history) then "unreachable" else "polling")
      && lastPollMs == s.timestampMs && lastError == (if s.valid then "" else s.error)
      && pollsTotal == |history| && pollsOK == ValidCount(history) && pollsFailed == |history| - pollsOK
    }

    method Account(s: Sample)
      requires StatsOk()
      modifies this`state, this`lastPollMs, this`lastError, this`errCount, this`pollsTotal, this`pollsOK
      modifies this`pollsFailed, this`pollMsTotal, this`pollMsMin, this`pollMsMax, this`history
      ensures StatsOk() && history == old(history) + [s] && Reports(s)
    {
      hide Target.CountsOk, Target.StateOk, Target.TimingOk, Target.Reports;
      AccountState(s);
      AccountTiming(s);
      AccountCounts(s);
      history := history + [s];
      ReportsAfter(s);
    }

    lemma ReportsAfter(s: Sample)
      requires CountsOk(history) && StateOk(history) && history != [] && history[|history| - 1] == s
      ensures Reports(s)
    {
      ThreeFailuresIff(history);
    }

    method AccountCounts(s: Sample)
      requires CountsOk(history)
      modifies this`pollsTotal, this`pollsOK, this`pollsFailed
      ensures CountsOk(history + [s])
    {
      SnocStats(history, s);
      pollsTotal := pollsTotal + 1;
      if s.valid {
        pollsOK := pollsOK + 1;
      } else {
        pollsFailed := pollsFailed + 1;
      }
    }

    method AccountState(s: Sample)
      requires StateOk(history)
      modifies this`errCount, this`state, this`lastPollMs, this`lastError
      ensures StateOk(history + [s])
    {
      SnocStats(history, s);
      hide FailureRun;
      lastPollMs := s.timestampMs;
      if s.valid {
        state, lastError, errCount := POLLING, "", 0;
      } else {
        lastError := s.error;
        errCount := errCount + 1;
        if errCount >= 3 {
          state := UNREACHABLE;
        }
      }
    }

    method AccountTiming(s: Sample)
      requires TimingOk(history)
      modifies this`pollMsTotal, this`pollMsMin, this`pollMsMax
      ensures TimingOk(history + [s])
    {
      SnocStats(history, s);
      pollMsTotal := pollMsTotal + s.pollMs;
      if pollMsMin < 0 || s.pollMs < pollMsMin {
        pollMsMin := s.pollMs;
      }
      if s.pollMs > pollMsMax {
        pollMsMax := s.pollMs;
      }
    }

    method ReadLastN(n: nat) returns (result: seq<Sample>)
      requires Valid()
      ensures result == LastN(Contents(), n)
      ensures result == LastN(history, if n < count then n else count)
    {
      hide Target.StatsOk, View, LastN;
      SuffixLast(history, count, n);
      var m := if n > count then count else n;
      if m == 0 {
        LastNone(Contents(), n);
        return [];
      }
      result := CopyLast(m);
    }

    method CopyLast(n: nat) returns (result: seq<Sample>)
      requires ShapeOk() && 1 <= n <= count
      ensures result == LastN(Contents(), n)
    {
      result := [];
      var start := Wrap(writeIdx - n + bufSize, bufSize);
      for i := 0 to n
        invariant |result| == i
        invariant forall k | 0 <= k < i :: result[k] == Contents()[count - n + k]
      {
        var idx := Wrap(start + i, bufSize);
        assert idx == Slot(bufSize, writeIdx, count, count - n + i);
        result := result + [buffer[idx]];
      }
    }

    method ResizeBuffer(newSize: nat, blank: Sample)
      requires Valid() && newSize >= 1 // with 0 the new write index divides by zero
      modifies this
      ensures Valid() && bufSize == newSize && history == old(history)
      ensures if newSize == old(bufSize) then buffer == old(buffer) else fresh(buffer)
      ensures Contents() == LastN(old(Contents()), newSize)
    {
      hide Target.CountsOk, Target.StateOk, Target.TimingOk, View, LastN;
      if newSize == bufSize {
        LastOfAll(Contents(), newSize);
        return;
      }
      SuffixLast(history, count, newSize);
      LastSuffix(history, if count > newSize then newSize else count);
      var samplesToKeep := if count > newSize then newSize else count;
      var samples := Newest(samplesToKeep);
      Replace(samples, newSize, blank);
    }

    /** A new ring that starts with these samples. */
    method Replace(samples: seq<Sample>, newSize: nat, blank: Sample)
      requires 1 <= newSize && |samples| <= newSize
      modifies this`buffer, this`bufSize, this`count, this`writeIdx
      ensures fresh(buffer) && bufSize == newSize && count == |samples|
      ensures ShapeOk() && Contents() == samples
    {
      buffer := new Sample[newSize](_ => blank);
      bufSize, count := newSize, |samples|;
      writeIdx := Wrap(|samples|, newSize);
      for i := 0 to |samples|
        invariant ShapeOk() && fresh(buffer) && bufSize == newSize && count == |samples|
        invariant writeIdx == if count < bufSize then count else 0
        invariant forall k | 0 <= k < i :: buffer[k] == samples[k]
      {
        buffer[i] := samples[i];
      }
      assert forall k: nat | k < count :: Slot(bufSize, writeIdx, count, k) == k;
    }

    /** The newest samples, oldest of them first. */
    method Newest(keep: nat) returns (samples: seq<Sample>)
      requires ShapeOk() && keep <= count
      ensures samples == LastN(Contents(), keep)
    {
      samples := [];
      if keep > 0 {
        var skipCount := count - keep;
        var start := Wrap(writeIdx - count + skipCount + bufSize, bufSize);
        for i := 0 to keep
          invariant |samples| == i
          invariant forall k | 0 <= k < i :: samples[k] == Contents()[skipCount + k]
        {
          var idx := Wrap(start + i, bufSize);
          assert idx == Slot(bufSize, writeIdx, count, skipCount + i);
          samples := samples + [buffer[idx]];
        }
      }
    }

    /** The timing figures reported to clients. */
    method Timing() returns (avg: int, min: int, max: int)
      requires Valid()
      ensures history == [] ==> avg == 0 && min == 0 && max == 0
      ensures history != [] && Timed(history) ==> min == MinMs(history) && max == MaxMs(history) && min <= avg <= max
      ensures history != [] ==>
                var n, sum := |history|, TotalMs(history);
                && (Timed(history) ==> sum >= 0)
                && (sum >= 0 ==> n * avg <= sum < n * (avg + 1))
                && (sum < 0 ==> n * (avg - 1) < sum <= n * avg)
                && min == (if MinMs(history) < 0 then 0 else MinMs(history)) && max == MaxMs(history)
    {
      hide TruncDiv;
      avg := 0;
      if pollsTotal > 0 {
        avg := TruncDiv(pollMsTotal, pollsTotal);
        TruncDivIs(pollMsTotal, pollsTotal);
      }
      min := pollMsMin;
      if min < 0 {
        min := 0;
      }
      max := pollMsMax;
      if history != [] && Timed(history) {
        ExtremesAreRight(history);
        AverageIsBetween(history);
        TimedTotal(history);
      }
    }
  }
}
