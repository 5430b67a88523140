/** The sync manager: the sample buffer, and the flushes of samples and states. */
module Syncing {
  import opened SampleFlow
  import F = StateFlush
  import P = PollerStates

  class SyncManager {
    const sampleBatchSize: nat
    var sampleBuffer: Batch
    var samples: multiset<Sample>      // the table of samples
    var stateRows: map<string, F.Saved> // the table of states

    ghost predicate Is(s: State)
      reads this
    {
      sampleBuffer == s.buffer && sampleBatchSize == s.batchSize && samples == s.stored
    }

    constructor (batchSize: nat)
      ensures Is(Init(batchSize)) && stateRows == map[]
    {
      sampleBatchSize, sampleBuffer := batchSize, [];
      samples, stateRows := multiset{}, map[];
    }

    // ----- samples -----

    /** AddSample's lock section. */
    method Append(x: Sample, ghost s: State) returns (shouldFlush: bool)
      requires Is(s)
      modifies this`sampleBuffer
      ensures Is(Next(s, Add(x)))
      ensures shouldFlush <==> Next(s, Add(x)).owed == s.owed + 1
    {
      sampleBuffer := sampleBuffer + [x];
      shouldFlush := |sampleBuffer| >= sampleBatchSize;
    }

    /** AddSample when nothing comes in between; ok says whether an insert works. */
    method AddSample(x: Sample, ok: bool, ghost s: State)
      requires Is(s) && s.owed == 0
      modifies this`sampleBuffer, this`samples
      ensures var r := Next(s, Add(x));
              Is(if r.owed == 0 then r else Next(Next(r, Flush), Insert(|s.taken|, ok)))
    {
      var shouldFlush := Append(x, s);
      if shouldFlush {
        FlushSamples(ok);
      }
    }

    /** flushSamples when nothing comes in between. */
    method FlushSamples(ok: bool)
      modifies this`sampleBuffer, this`samples
      ensures samples == old(samples) + if ok then multiset(old(sampleBuffer)) else multiset{}
      ensures sampleBuffer == []
    {
      if |sampleBuffer| == 0 {
        return;
      }
      var taken := sampleBuffer;
      sampleBuffer := [];
      if ok {
        samples := samples + multiset(taken);
      }
    }

    /** The sample part of Stop, once the loop has ended: its own flush. */
    static ghost function AfterStop(s: State, ok: bool): State
      requires s.phase.Serving? && s.mine == []
    {
      var t := Next(Next(Next(s, Close), LoopEnds), StopFlush);
      Next(if s.buffer == [] then t else Next(t, LoopInsert(ok)), Return)
    }

    /** Stop, with no call under way and none in between; the flags say whether the
        writes of states and samples work. */
    method Stop(states: map<string, P.PollerState>, statesOk: bool, ok: bool, ghost s: State)
      requires Is(s) && s.phase.Serving? && s.mine == [] && OwnKeys(states)
      modifies this`sampleBuffer, this`samples, this`stateRows, (set k | k in states :: states[k])`dirty
      ensures Is(AfterStop(s, ok))
      ensures ok && Conserved(s) && s.taken == [] && s.lost == multiset{} ==> samples == s.added
      ensures statesOk ==> forall k | k in states :: !states[k].dirty
    {
      StopStores(s, ok);
      hide AfterStop, Next, Conserved;
      FlushStates(states, statesOk);
      FlushSamples(ok);
    }

    static lemma StopStores(s: State, ok: bool)
      requires s.phase.Serving? && s.mine == []
      ensures var r := AfterStop(s, ok);
              && r.buffer == [] && r.batchSize == s.batchSize
              && r.stored == s.stored + (if ok then multiset(s.buffer) else multiset{})
              && (ok && Conserved(s) && s.taken == [] && s.lost == multiset{} ==> r.stored == s.added)
    {
    }

    // ----- states -----

    static function Snapshot(p: P.PollerState): F.Saved
      reads p
    {
      F.Saved(p.operState, HealthText(p.health), p.lastError, p.consecutiveFailures)
    }

    static function HealthText(h: P.HealthState): string {
      match h
      case Unknown => "unknown"
      case Up => "up"
      case Degraded => "degraded"
      case Down => "down"
    }

    /** What a row holds of a state. */
    static lemma SnapshotIs(p: P.PollerState)
      ensures var row := Snapshot(p);
              && row.oper == p.operState && row.lastError == p.lastError && row.failures == p.consecutiveFailures
              && (row.health == "unknown" <==> p.health.Unknown?) && (row.health == "up" <==> p.health.Up?)
              && (row.health == "degraded" <==> p.health.Degraded?) && (row.health == "down" <==> p.health.Down?)
    {
    }

    static ghost predicate Distinct(states: seq<P.PollerState>) {
      forall i, j | 0 <= i < j < |states| :: states[i].key != states[j].key
    }

    static ghost predicate OwnKeys(states: map<string, P.PollerState>) {
      forall k | k in states :: states[k].key == k
    }

    /** StateManager.GetDirty: in any order. */
    method GetDirty(states: map<string, P.PollerState>) returns (dirty: seq<P.PollerState>)
      requires OwnKeys(states)
      ensures forall p | p in dirty :: p.key in states && states[p.key] == p && p.dirty
      ensures forall k | k in states && states[k].dirty :: states[k] in dirty
      ensures Distinct(dirty)
    {
      var todo := states.Keys;
      dirty := [];
      while todo != {}
        invariant todo <= states.Keys
        invariant forall p | p in dirty :: p.key in states.Keys - todo && states[p.key] == p && p.dirty
        invariant forall k | k in states.Keys - todo && states[k].dirty :: states[k] in dirty
        invariant Distinct(dirty)
        decreases |todo|
      {
        var k :| k in todo;
        todo := todo - {k};
        if states[k].dirty {
          dirty := dirty + [states[k]];
        }
      }
    }

    /** flushStates when nothing comes in between. */
    method FlushStates(states: map<string, P.PollerState>, ok: bool)
      requires OwnKeys(states)
      modifies this`stateRows, (set k | k in states :: states[k])`dirty
      ensures stateRows.Keys == old(stateRows.Keys)
      ensures forall k | k in stateRows ::
                stateRows[k] == if ok && k in states && old(states[k].dirty) then old(Snapshot(states[k]))
                                else old(stateRows[k])
      ensures forall k | k in states :: states[k].dirty == (!ok && old(states[k].dirty))
    {
      var dirty := GetDirty(states);
      if |dirty| == 0 {
        return;
      }
      var copies := Copies(dirty);
      if !ok {
        return;
      }
      Write(dirty, copies);
      ClearDirty(dirty);
    }

    method Copies(dirty: seq<P.PollerState>) returns (copies: seq<F.Saved>)
      ensures |copies| == |dirty| && forall j | 0 <= j < |dirty| :: copies[j] == Snapshot(dirty[j])
    {
      copies := [];
      for i := 0 to |dirty|
        invariant |copies| == i
        invariant forall j | 0 <= j < i :: copies[j] == Snapshot(dirty[j])
      {
        copies := copies + [Snapshot(dirty[i])];
      }
    }

    /** BatchUpdatePollerStates: existing rows are updated, none is inserted. */
    method Write(dirty: seq<P.PollerState>, copies: seq<F.Saved>)
      requires |copies| == |dirty| && Distinct(dirty)
      modifies this`stateRows
      ensures stateRows.Keys == old(stateRows.Keys)
      ensures forall j | 0 <= j < |dirty| && dirty[j].key in stateRows :: stateRows[dirty[j].key] == copies[j]
      ensures forall k | k in stateRows && (forall p | p in dirty :: p.key != k) :: stateRows[k] == old(stateRows[k])
    {
      for i := 0 to |dirty|
        invariant stateRows.Keys == old(stateRows.Keys)
        invariant forall j | 0 <= j < i && dirty[j].key in stateRows :: stateRows[dirty[j].key] == copies[j]
        invariant forall k | k in stateRows && (forall p | p in dirty :: p.key != k) :: stateRows[k] == old(stateRows[k])
      {
        if dirty[i].key in stateRows {
          stateRows := stateRows[dirty[i].key := copies[i]];
        }
      }
    }

    method ClearDirty(dirty: seq<P.PollerState>)
      modifies (set p | p in dirty)`dirty
      ensures forall p | p in dirty :: !p.dirty
    {
      for i := 0 to |dirty|
        invariant forall j | 0 <= j < i :: !dirty[j].dirty
      {
        dirty[i].dirty := false;
      }
    }
  }
}
