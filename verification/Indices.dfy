/** The secondary indices over targets, and the combined query. */
module IndicesModel {
  import opened Text
  import opened TagPaths
  import opened TagIndexing

  datatype Registered = Registered(state: string, protocol: string, host: string)

  datatype Filter = Filter(tags: seq<string>, state: string, protocol: string, host: string) {
    predicate IsEmpty() {
      |tags| == 0 && state == "" && protocol == "" && host == ""
    }
  }

  /** A result set or Go's nil. */
  datatype Answer = Nil | Ids(ids: set<string>) {
    function Found(): set<string> {
      if Nil? then {} else ids
    }
  }

  // ----- narrowing -----

  /** One filter's set applied to what the filters before it left. */
  function Apply(sofar: Answer, s: set<string>): Answer {
    if s == {} then (if sofar.Nil? then Nil else Ids({}))
    else if sofar.Nil? then Ids(s)
    else Ids(sofar.ids * s)
  }

  function ApplyAll(sofar: Answer, sets: seq<set<string>>): Answer
    decreases |sets|
  {
    if sets == [] then sofar else ApplyAll(Apply(sofar, sets[0]), sets[1..])
  }

  ghost predicate InAll(x: string, sets: seq<set<string>>) {
    forall i | 0 <= i < |sets| :: x in sets[i]
  }

  /** How many filters at the front match nothing. */
  function EmptyLead(sets: seq<set<string>>): (n: nat)
    ensures n <= |sets|
    ensures forall i | 0 <= i < n :: sets[i] == {}
    ensures n < |sets| ==> sets[n] != {}
  {
    if sets == [] || sets[0] != {} then 0 else 1 + EmptyLead(sets[1..])
  }

  function FromLead(sets: seq<set<string>>): seq<set<string>> {
    sets[EmptyLead(sets)..]
  }

  /** The same, told from the first part of a list. */
  lemma LeadOf(first: seq<set<string>>, rest: seq<set<string>>)
    requires |first| <= 1
    ensures FromLead(first + rest) == if first != [] && first[0] != {} then first + rest else FromLead(rest)
  {
    var all := first + rest;
    if first == [] {
      assert all == rest;
    } else if first[0] == {} {
      assert all[1..] == rest;
    }
  }

  lemma {:induction false} ApplyAllNarrows(start: set<string>, sets: seq<set<string>>)
    ensures ApplyAll(Ids(start), sets).Ids?
    ensures forall x :: x in ApplyAll(Ids(start), sets).ids <==> x in start && InAll(x, sets)
    decreases |sets|
  {
    if sets != [] {
      assert Apply(Ids(start), sets[0]) == Ids(start * sets[0]);
      ApplyAllNarrows(start * sets[0], sets[1..]);
      forall x
        ensures InAll(x, sets) <==> x in sets[0] && InAll(x, sets[1..])
      {
        assert forall i | 0 < i < |sets| :: sets[i] == sets[1..][i - 1];
      }
    }
  }

  /** Leading filters that match nothing are skipped, the others are intersected;
      with none left the answer is nil. */
  lemma {:induction false} ApplyAllSkipsEmptyLead(sets: seq<set<string>>)
    ensures ApplyAll(Nil, sets).Nil? <==> EmptyLead(sets) == |sets|
    ensures EmptyLead(sets) < |sets| ==>
      forall x :: x in ApplyAll(Nil, sets).ids <==> InAll(x, sets[EmptyLead(sets)..])
    decreases |sets|
  {
    if sets != [] {
      if sets[0] == {} {
        ApplyAllSkipsEmptyLead(sets[1..]);
        assert sets[1..][EmptyLead(sets[1..])..] == sets[EmptyLead(sets)..];
      } else {
        ApplyAllNarrows(sets[0], sets[1..]);
        forall x
          ensures InAll(x, sets[0..]) <==> x in sets[0] && InAll(x, sets[1..])
        {
          assert forall i | 0 < i < |sets| :: sets[i] == sets[1..][i - 1];
        }
      }
    }
  }

  /** The answer never misses what satisfies every filter, and is exactly that if and
      only if the first filter matches something, or no filter does, or nothing
      satisfies the filters that are left after the empty ones at the front. */
  lemma ExactIff(sets: seq<set<string>>)
    requires sets != []
    ensures forall x :: InAll(x, sets) ==> x in ApplyAll(Nil, sets).Found()
    ensures (forall x :: x in ApplyAll(Nil, sets).Found() ==> InAll(x, sets)) <==>
              || sets[0] != {}
              || EmptyLead(sets) == |sets|
              || (forall x :: !InAll(x, sets[EmptyLead(sets)..]))
  {
    ApplyAllSkipsEmptyLead(sets);
    var n := EmptyLead(sets);
    forall x | InAll(x, sets)
      ensures x in ApplyAll(Nil, sets).Found()
    {
      assert x in sets[0];
      assert n == 0;
      assert sets[0..] == sets;
    }
    if n == 0 {
      assert sets[0..] == sets;
    } else if n < |sets| {
      forall x
        ensures !InAll(x, sets)
      {
        assert x !in sets[0];
      }
    }
  }

  // ----- the indices -----

  /** The ids registered with this value. */
  ghost function IdsWith(reg: map<string, Registered>, value: Registered -> string, v: string): set<string> {
    set id | id in reg && value(reg[id]) == v
  }

  ghost predicate Partitions(index: map<string, set<string>>, reg: map<string, Registered>,
                             value: Registered -> string)
  {
    NoneEmpty(index) && forall v :: Get(index, v) == IdsWith(reg, value, v)
  }

  function StateOf(r: Registered): string { r.state }
  function ProtocolOf(r: Registered): string { r.protocol }
  function HostOf(r: Registered): string { r.host }

  /** Every registered id lies in exactly one set of an index, and nothing else
      lies in any. */
  lemma ExactlyOneSet(index: map<string, set<string>>, reg: map<string, Registered>,
                      value: Registered -> string, id: string)
    requires Partitions(index, reg, value)
    ensures id in reg ==> forall v :: (v in index && id in index[v]) <==> v == value(reg[id])
    ensures id !in reg ==> forall v | v in index :: id !in index[v]
  {
    forall v
      ensures (v in index && id in index[v]) <==> id in reg && v == value(reg[id])
    {
      assert Get(index, v) == IdsWith(reg, value, v);
      assert id in Get(index, v) <==> id in IdsWith(reg, value, v);
    }
  }

  function HasWildcard(pattern: string): bool {
    '*' in pattern || '?' in pattern
  }

  class Indices {
    const tags: TagIndex
    const glob: (string, string) -> bool // path.Match; a malformed pattern matches nothing
    var byState: map<string, set<string>>
    var byProtocol: map<string, set<string>>
    var byHost: map<string, set<string>>
    ghost var reg: map<string, Registered> // the values each target was registered with

    ghost predicate Valid()
      reads this, tags
    {
      && Partitions(byState, reg, StateOf)
      && Partitions(byProtocol, reg, ProtocolOf)
      && Partitions(byHost, reg, HostOf)
      && tags.Valid()
      && tags.targetToTags.Keys <= reg.Keys
    }

    constructor (glob: (string, string) -> bool)
      ensures Valid() && fresh(tags) && reg == map[] && this.glob == glob
    {
      tags := new TagIndex();
      this.glob := glob;
      byState, byProtocol, byHost, reg := map[], map[], map[], map[];
    }

    /** The caller removes a target before it registers it with other values. */
    method Add(id: string, state: string, protocol: string, host: string, tagList: seq<string>)
      requires Valid()
      requires id in reg ==> reg[id] == Registered(state, protocol, host)
      modifies this, tags
      ensures Valid() && reg == old(reg)[id := Registered(state, protocol, host)]
      ensures tags.targetToTags == if tagList == [] then old(tags.targetToTags) - {id}
                                   else old(tags.targetToTags)[id := tagList]
    {
      ghost var r := Registered(state, protocol, host);
      PutPartitions(byState, reg, StateOf, id, r);
      PutPartitions(byProtocol, reg, ProtocolOf, id, r);
      PutPartitions(byHost, reg, HostOf, id, r);
      byState := With(byState, state, id);
      byProtocol := With(byProtocol, protocol, id);
      byHost := With(byHost, host, id);
      tags.Add(id, tagList);
      reg := reg[id := r];
    }

    /** The caller passes the values the target is registered with. */
    method Remove(id: string, state: string, protocol: string, host: string)
      requires Valid()
      requires id in reg ==> reg[id] == Registered(state, protocol, host)
      modifies this, tags
      ensures Valid() && reg == old(reg) - {id}
      ensures tags.targetToTags == old(tags.targetToTags) - {id}
    {
      ghost var r := Registered(state, protocol, host);
      TakePartitions(byState, reg, StateOf, id, r);
      TakePartitions(byProtocol, reg, ProtocolOf, id, r);
      TakePartitions(byHost, reg, HostOf, id, r);
      byState := Without(byState, state, id);
      byProtocol := Without(byProtocol, protocol, id);
      byHost := Without(byHost, host, id);
      tags.RemoveLocked(id);
      reg := reg - {id};
    }

    method UpdateState(id: string, oldState: string, newState: string)
      requires Valid()
      requires id in reg && reg[id].state == oldState
      modifies this`byState, this`reg
      ensures Valid() && reg == old(reg)[id := old(reg)[id].(state := newState)]
    {
      if oldState == newState {
        assert reg == reg[id := reg[id].(state := newState)];
        return;
      }
      ghost var r := reg[id].(state := newState);
      TakePartitions(byState, reg, StateOf, id, reg[id]);
      byState := Without(byState, oldState, id);
      PutPartitions(byState, reg - {id}, StateOf, id, r);
      byState := With(byState, newState, id);
      assert (reg - {id})[id := r] == reg[id := r];
      SameValues(byProtocol, reg, ProtocolOf, id, r);
      SameValues(byHost, reg, HostOf, id, r);
      reg := reg[id := r];
    }

    method UpdateTags(id: string, add: seq<string>, remove: seq<string>, set_: seq<string>)
      returns (newTags: seq<string>)
      requires Valid() && id in reg
      modifies tags
      ensures Valid()
      ensures tags.targetToTags == if newTags == [] then old(tags.targetToTags) - {id}
                                   else old(tags.targetToTags)[id := newTags]
    {
      newTags := tags.UpdateTags(id, add, remove, set_);
    }

    // ----- queries -----

    predicate HostMatches(pattern: string, host: string) {
      if HasWildcard(pattern) then glob(pattern, host) else host == pattern
    }

    ghost function HostSet(pattern: string): set<string>
      reads this
    {
      set id | id in reg && HostMatches(pattern, reg[id].host)
    }

    method QueryByHost(pattern: string) returns (result: set<string>)
      requires Valid()
      ensures result == HostSet(pattern)
      ensures '*' in pattern || '?' in pattern ==> forall id :: id in result <==> id in reg && glob(pattern, reg[id].host)
      ensures '*' !in pattern && '?' !in pattern ==> forall id :: id in result <==> id in reg && reg[id].host == pattern
    {
      if !HasWildcard(pattern) {
        assert Get(byHost, pattern) == IdsWith(reg, HostOf, pattern);
        return Get(byHost, pattern);
      }
      result := {};
      var rest := byHost.Keys;
      while rest != {}
        invariant rest <= byHost.Keys
        invariant result == set id | id in reg && reg[id].host in byHost.Keys - rest && glob(pattern, reg[id].host)
        decreases rest
      {
        var host :| host in rest;
        assert Get(byHost, host) == IdsWith(reg, HostOf, host);
        if glob(pattern, host) {
          result := result + byHost[host];
        }
        rest := rest - {host};
      }
      forall id | id in reg
        ensures reg[id].host in byHost
      {
        ExactlyOneSet(byHost, reg, HostOf, id);
      }
    }

    method QueryByTags(tagList: seq<string>) returns (result: set<string>)
      requires Valid()
      ensures tagList != [] ==> result == MatchingAll(tags.targetToTags, tagList)
      ensures tagList == [] ==> result == {}
    {
      if |tagList| == 0 {
        return {};
      }
      var targets := tags.QueryAND(tagList);
      result := set id | id in targets;
    }

    /** What each active filter matches by itself, in the program's order. */
    ghost function ActiveSets(f: Filter): (sets: seq<set<string>>)
      requires Valid()
      reads this, tags
      ensures f.IsEmpty() <==> sets == []
    {
      StatePart(f) + (ProtocolPart(f) + (TagsPart(f) + HostPart(f)))
    }

    ghost function StatePart(f: Filter): seq<set<string>>
      reads this
    {
      if f.state != "" then [IdsWith(reg, StateOf, f.state)] else []
    }

    ghost function ProtocolPart(f: Filter): seq<set<string>>
      reads this
    {
      if f.protocol != "" then [IdsWith(reg, ProtocolOf, f.protocol)] else []
    }

    ghost function TagsPart(f: Filter): seq<set<string>>
      reads this, tags
    {
      if |f.tags| > 0 then [MatchingAll(tags.targetToTags, f.tags)] else []
    }

    ghost function HostPart(f: Filter): seq<set<string>>
      reads this
    {
      if f.host != "" then [HostSet(f.host)] else []
    }

    /** The target satisfies every active filter. */
    ghost predicate Matches(id: string, f: Filter)
      reads this, tags
    {
      && id in reg
      && (f.state != "" ==> reg[id].state == f.state)
      && (f.protocol != "" ==> reg[id].protocol == f.protocol)
      && (|f.tags| > 0 ==> id in MatchingAll(tags.targetToTags, f.tags))
      && (f.host != "" ==> HostMatches(f.host, reg[id].host))
    }

    lemma MatchesIsInAll(f: Filter, id: string)
      requires Valid() && !f.IsEmpty()
      ensures InAll(id, ActiveSets(f)) <==> Matches(id, f)
    {
      var a, b, c, d := StatePart(f), ProtocolPart(f), TagsPart(f), HostPart(f);
      InAllSplit(id, c, d);
      InAllSplit(id, b, c + d);
      InAllSplit(id, a, b + (c + d));
      InAllOne(id, IdsWith(reg, StateOf, f.state));
      InAllOne(id, IdsWith(reg, ProtocolOf, f.protocol));
      InAllOne(id, MatchingAll(tags.targetToTags, f.tags));
      InAllOne(id, HostSet(f.host));
    }

    /** The filter without the conditions at its front that no target satisfies. */
    ghost function Living(f: Filter): Filter
      requires Valid()
      reads this, tags
    {
      if f.state != "" && IdsWith(reg, StateOf, f.state) != {} then f
      else
        var f1 := f.(state := "");
        if f1.protocol != "" && IdsWith(reg, ProtocolOf, f1.protocol) != {} then f1
        else
          var f2 := f1.(protocol := "");
          if |f2.tags| > 0 && MatchingAll(tags.targetToTags, f2.tags) != {} then f2
          else
            var f3 := f2.(tags := []);
            if f3.host != "" && HostSet(f3.host) != {} then f3 else f3.(host := "")
    }

    /** The sets from the first that is not empty on. */
    ghost function Lived(f: Filter): seq<set<string>>
      requires Valid()
      reads this, tags
    {
      FromLead(ActiveSets(f))
    }

    lemma WithoutState(f: Filter)
      requires Valid()
      ensures f.state != "" && IdsWith(reg, StateOf, f.state) != {} ==> Lived(f) == ActiveSets(f)
      ensures !(f.state != "" && IdsWith(reg, StateOf, f.state) != {}) ==> Lived(f) == Lived(f.(state := ""))
    {
      hide FromLead, EmptyLead, IdsWith, MatchingAll, Indices.HostSet;
      var g := f.(state := "");
      LeadOf(StatePart(f), ProtocolPart(f) + (TagsPart(f) + HostPart(f)));
      assert ActiveSets(g) == ProtocolPart(f) + (TagsPart(f) + HostPart(f));
    }

    lemma WithoutProtocol(f: Filter)
      requires Valid() && f.state == ""
      ensures f.protocol != "" && IdsWith(reg, ProtocolOf, f.protocol) != {} ==> Lived(f) == ActiveSets(f)
      ensures !(f.protocol != "" && IdsWith(reg, ProtocolOf, f.protocol) != {}) ==>
                Lived(f) == Lived(f.(protocol := ""))
    {
      hide FromLead, EmptyLead, IdsWith, MatchingAll, Indices.HostSet;
      var g := f.(protocol := "");
      LeadOf(ProtocolPart(f), TagsPart(f) + HostPart(f));
      assert ActiveSets(f) == ProtocolPart(f) + (TagsPart(f) + HostPart(f));
      assert ActiveSets(g) == TagsPart(f) + HostPart(f);
    }

    lemma WithoutTags(f: Filter)
      requires Valid() && f.state == "" && f.protocol == ""
      ensures |f.tags| > 0 && MatchingAll(tags.targetToTags, f.tags) != {} ==> Lived(f) == ActiveSets(f)
      ensures !(|f.tags| > 0 && MatchingAll(tags.targetToTags, f.tags) != {}) ==> Lived(f) == Lived(f.(tags := []))
    {
      hide FromLead, EmptyLead, IdsWith, MatchingAll, Indices.HostSet;
      var g := f.(tags := []);
      LeadOf(TagsPart(f), HostPart(f));
      assert ActiveSets(f) == TagsPart(f) + HostPart(f);
      assert ActiveSets(g) == HostPart(f);
    }

    lemma WithoutHost(f: Filter)
      requires Valid() && f.state == "" && f.protocol == "" && f.tags == []
      ensures f.host != "" && HostSet(f.host) != {} ==> Lived(f) == ActiveSets(f)
      ensures !(f.host != "" && HostSet(f.host) != {}) ==> Lived(f) == []
    {
      hide IdsWith, MatchingAll, Indices.HostSet;
      LeadOf(HostPart(f), []);
      assert HostPart(f) + [] == HostPart(f);
      assert ActiveSets(f) == HostPart(f);
    }

    lemma LivingSets(f: Filter)
      requires Valid()
      ensures ActiveSets(Living(f)) == Lived(f)
    {
      hide Indices.ActiveSets, Indices.Lived, IdsWith, MatchingAll, Indices.HostSet;
      var f1 := f.(state := "");
      var f2 := f1.(protocol := "");
      var f3 := f2.(tags := []);
      WithoutState(f);
      WithoutProtocol(f1);
      WithoutTags(f2);
      WithoutHost(f3);
    }

    /** What the combined query answers: nil when no condition lives, and otherwise
        exactly what satisfies the living ones. */
    ghost predicate AnswersLiving(f: Filter, r: Answer)
      requires Valid()
      reads this, tags
    {
      && (r.Nil? <==> Living(f).IsEmpty())
      && (!Living(f).IsEmpty() ==> forall id :: id in r.Found() <==> Matches(id, Living(f)))
    }

    /** It never misses a match, and is exactly the matches if and only if the filter's first
        condition is satisfied by some target, or none of its conditions lives, or nothing
        satisfies the living ones. */
    ghost predicate ExactWhenLiving(f: Filter, r: Answer)
      requires Valid() && !f.IsEmpty()
      reads this, tags
    {
      && (forall id :: Matches(id, f) ==> id in r.Found())
      && ((forall id :: id in r.Found() <==> Matches(id, f)) <==>
            || ActiveSets(f)[0] != {}
            || Living(f).IsEmpty()
            || (forall id :: !Matches(id, Living(f))))
    }

    lemma AnswerIsLiving(f: Filter)
      requires Valid() && !f.IsEmpty()
      ensures AnswersLiving(f, ApplyAll(Nil, ActiveSets(f)))
    {
      var sets := ActiveSets(f);
      ApplyAllSkipsEmptyLead(sets);
      LivingSets(f);
      if !Living(f).IsEmpty() {
        forall id
          ensures InAll(id, ActiveSets(Living(f))) <==> Matches(id, Living(f))
        {
          MatchesIsInAll(Living(f), id);
        }
      }
    }

    lemma AnswerIsExactIff(f: Filter)
      requires Valid() && !f.IsEmpty()
      ensures ExactWhenLiving(f, ApplyAll(Nil, ActiveSets(f)))
    {
      var sets := ActiveSets(f);
      AnswerIsLiving(f);
      ExactIff(sets);
      LivingSets(f);
      forall id
        ensures InAll(id, sets) <==> Matches(id, f)
      {
        MatchesIsInAll(f, id);
      }
      if !Living(f).IsEmpty() {
        forall id
          ensures InAll(id, Lived(f)) <==> Matches(id, Living(f))
        {
          MatchesIsInAll(Living(f), id);
        }
      }
    }

    /** The combined query. */
    method Query(f: Filter) returns (result: Answer)
      requires Valid()
      ensures f.IsEmpty() ==> result == Nil
      ensures !f.IsEmpty() ==> AnswersLiving(f, result) && ExactWhenLiving(f, result)
    {
      if f.IsEmpty() {
        return Nil;
      }
      AnswerIsLiving(f);
      AnswerIsExactIff(f);
      hide Indices.AnswersLiving, Indices.ExactWhenLiving, Indices.ActiveSets, ApplyAll;
      result := Narrowed(f);
    }

    /** The filters in the program's order. */
    method Narrowed(f: Filter) returns (result: Answer)
      requires Valid()
      ensures result == ApplyAll(Nil, ActiveSets(f))
    {
      hide Apply, IdsWith, MatchingAll, Indices.HostSet;
      result := Nil;
      ghost var done := [];
      if f.state != "" {
        assert Get(byState, f.state) == IdsWith(reg, StateOf, f.state);
        ApplySnoc(Nil, done, Get(byState, f.state));
        result := Apply(result, Get(byState, f.state));
        done := done + [IdsWith(reg, StateOf, f.state)];
      }
      if f.protocol != "" {
        assert Get(byProtocol, f.protocol) == IdsWith(reg, ProtocolOf, f.protocol);
        ApplySnoc(Nil, done, Get(byProtocol, f.protocol));
        result := Apply(result, Get(byProtocol, f.protocol));
        done := done + [IdsWith(reg, ProtocolOf, f.protocol)];
      }
      if |f.tags| > 0 {
        var byTags := QueryByTags(f.tags);
        ApplySnoc(Nil, done, byTags);
        result := Apply(result, byTags);
        done := done + [byTags];
      }
      if f.host != "" {
        var byHosts := QueryByHost(f.host);
        ApplySnoc(Nil, done, byHosts);
        result := Apply(result, byHosts);
        done := done + [byHosts];
      }
      assert done == ActiveSets(f);
    }
  }

  lemma InAllOne(x: string, s: set<string>)
    ensures InAll(x, [s]) <==> x in s
  {
    assert [s][0] == s;
  }

  lemma InAllSplit(x: string, a: seq<set<string>>, b: seq<set<string>>)
    ensures InAll(x, a + b) <==> InAll(x, a) && InAll(x, b)
  {
    if InAll(x, a + b) {
      assert forall i | 0 <= i < |a| :: (a + b)[i] == a[i];
      assert forall i | 0 <= i < |b| :: (a + b)[|a| + i] == b[i];
    }
  }

  lemma {:induction false} ApplySnoc(sofar: Answer, sets: seq<set<string>>, s: set<string>)
    ensures ApplyAll(sofar, sets + [s]) == Apply(ApplyAll(sofar, sets), s)
    decreases |sets|
  {
    if sets == [] {
      assert (sets + [s])[1..] == [];
    } else {
      assert (sets + [s])[1..] == sets[1..] + [s];
      ApplySnoc(Apply(sofar, sets[0]), sets[1..], s);
    }
  }

  lemma PutPartitions(index: map<string, set<string>>, reg: map<string, Registered>,
                      value: Registered -> string, id: string, r: Registered)
    requires Partitions(index, reg, value)
    requires id in reg ==> value(reg[id]) == value(r)
    ensures Partitions(With(index, value(r), id), reg[id := r], value)
  {
    var m := With(index, value(r), id);
    forall v
      ensures Get(m, v) == IdsWith(reg[id := r], value, v)
    {
      assert Get(index, v) == IdsWith(reg, value, v);
    }
  }

  lemma TakePartitions(index: map<string, set<string>>, reg: map<string, Registered>,
                       value: Registered -> string, id: string, r: Registered)
    requires Partitions(index, reg, value)
    requires id in reg ==> reg[id] == r
    ensures Partitions(Without(index, value(r), id), reg - {id}, value)
  {
    var m := Without(index, value(r), id);
    forall v
      ensures Get(m, v) == IdsWith(reg - {id}, value, v)
    {
      assert Get(index, v) == IdsWith(reg, value, v);
    }
  }

  lemma SameValues(index: map<string, set<string>>, reg: map<string, Registered>,
                   value: Registered -> string, id: string, r: Registered)
    requires Partitions(index, reg, value)
    requires id in reg && value(reg[id]) == value(r)
    ensures Partitions(index, reg[id := r], value)
  {
    forall v
      ensures Get(index, v) == IdsWith(reg[id := r], value, v)
    {
      assert Get(index, v) == IdsWith(reg, value, v);
    }
  }
}
