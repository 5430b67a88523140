/** Delivering a poll result: the target's sample and state, and the state index. */
module SampleDispatching {
  import opened TargetBuffer
  import opened TagIndexing
  import opened IndicesModel

  /** The target is registered with its current state. */
  ghost predicate InStep(t: Target, id: string, indices: Indices)
    reads t`state, indices`reg
  {
    id in indices.reg && indices.reg[id].state == t.state
  }

  /** The sample is written, and the index follows when the state has changed; no other
      target's entry does.  A result for a target that is gone changes nothing. */
  method DispatchSample(targets: map<string, Target>, id: string, s: Sample, indices: Indices)
    requires indices.Valid()
    requires id in targets ==> targets[id].Valid() && InStep(targets[id], id, indices)
    modifies if id in targets then {targets[id], targets[id].buffer} else {}
    modifies indices`byState, indices`reg
    ensures indices.Valid()
    ensures id !in targets ==> indices.byState == old(indices.byState) && indices.reg == old(indices.reg)
    ensures id in targets ==>
              && targets[id].Valid() && InStep(targets[id], id, indices)
              && targets[id].history == old(targets[id].history) + [s]
              && forall v :: id in Get(indices.byState, v) <==>
                   v == if ThreeFailures(targets[id].history) then "unreachable" else "polling"
    ensures indices.reg.Keys == old(indices.reg.Keys)
    ensures forall o | o in indices.reg && o != id :: indices.reg[o] == old(indices.reg[o])
  {
    hide Target.Valid, Indices.Valid;
    if id !in targets {
      return;
    }
    var t := targets[id];
    var oldState := t.state;
    t.WriteSample(s);
    var newState := t.state;
    if oldState != newState {
      indices.UpdateState(id, oldState, newState);
    }
    StatesIndexed(indices, id);
  }

  /** A registered target is in its own state's set only. */
  lemma StatesIndexed(indices: Indices, id: string)
    requires indices.Valid() && id in indices.reg
    ensures forall v :: id in Get(indices.byState, v) <==> v == indices.reg[id].state
  {
    ExactlyOneSet(indices.byState, indices.reg, StateOf, id);
  }
}
