/** The hierarchical tag index. */
module TagIndexing {
  import opened Text
  import opened TagPaths

  /** The stored set for a key; a missing key reads as the empty set. */
  function Get(m: map<string, set<string>>, k: string): set<string> {
    if k in m then m[k] else {}
  }

  ghost predicate NoneEmpty(m: map<string, set<string>>) {
    forall k | k in m :: m[k] != {}
  }

  /** The map after one id is put under, or taken from under, one key. */
  function With(m: map<string, set<string>>, k: string, id: string): map<string, set<string>> {
    m[k := Get(m, k) + {id}]
  }

  function Without(m: map<string, set<string>>, k: string, id: string): map<string, set<string>> {
    if Get(m, k) - {id} == {} then m - {k} else m[k := m[k] - {id}]
  }

  lemma WithGets(m: map<string, set<string>>, k: string, id: string)
    requires NoneEmpty(m)
    ensures NoneEmpty(With(m, k, id))
    ensures forall p :: Get(With(m, k, id), p) == Get(m, p) + if p == k then {id} else {}
  {
  }

  lemma WithoutGets(m: map<string, set<string>>, k: string, id: string)
    requires NoneEmpty(m)
    ensures NoneEmpty(Without(m, k, id))
    ensures forall p :: Get(Without(m, k, id), p) == Get(m, p) - if p == k then {id} else {}
  {
  }

  /** A naive scan of the explicit tags: the ids with a tag under p. */
  ghost function Matching(tags: map<string, seq<string>>, p: string): set<string> {
    set id | id in tags && AnyUnder(tags[id], p)
  }

  ghost function MatchingAll(tags: map<string, seq<string>>, ps: seq<string>): set<string> {
    set id | id in tags && forall p | p in ps :: AnyUnder(tags[id], p)
  }

  ghost function MatchingAny(tags: map<string, seq<string>>, ps: seq<string>): set<string> {
    set id | id in tags && exists p | p in ps :: AnyUnder(tags[id], p)
  }

  /** The ids with exactly this tag. */
  ghost function Direct(tags: map<string, seq<string>>, p: string): set<string> {
    set id | id in tags && p in tags[id]
  }

  /** The index agrees with the scan, key by key, and stores no empty set. */
  ghost predicate Agrees(index: map<string, set<string>>, tags: map<string, seq<string>>) {
    NoneEmpty(index) && forall p :: Get(index, p) == Matching(tags, p)
  }

  /** So the explicit tags determine the index: it does not matter by which adds,
      removes and updates they came about. */
  lemma IndexIsDetermined(a: map<string, set<string>>, b: map<string, set<string>>, tags: map<string, seq<string>>)
    requires Agrees(a, tags) && Agrees(b, tags)
    ensures a == b
  {
    forall p
      ensures p in a <==> p in b
      ensures p in a ==> a[p] == b[p]
    {
      assert Get(a, p) == Matching(tags, p) && Get(b, p) == Matching(tags, p);
    }
  }

  /** Taking one target's tags away, or giving it others, leaves every other
      target's entries as they are. */
  lemma OthersUnchanged(a: map<string, set<string>>, b: map<string, set<string>>,
                        tags: map<string, seq<string>>, tags': map<string, seq<string>>, id: string)
    requires Agrees(a, tags) && Agrees(b, tags')
    requires forall o | o != id :: (o in tags <==> o in tags') && (o in tags ==> tags[o] == tags'[o])
    ensures forall p, o | o != id :: o in Get(a, p) <==> o in Get(b, p)
  {
    forall p, o | o != id
      ensures o in Get(a, p) <==> o in Get(b, p)
    {
      assert Get(a, p) == Matching(tags, p) && Get(b, p) == Matching(tags', p);
    }
  }

  // ----- children -----

  ghost predicate CleanTags(tags: map<string, seq<string>>) {
    forall id, i | id in tags && 0 <= i < |tags[id]| :: NoEmptySegment(tags[id][i])
  }

  /** The segments that ListChildren finds in the keys of the index. */
  ghost function Segments(index: map<string, set<string>>, prefix: string): set<string> {
    (set k | k in index :: NextSegment(k, prefix)) - {""}
  }

  /** A segment s such that some explicit tag lies under the child s of prefix. */
  ghost predicate IsChild(tags: map<string, seq<string>>, prefix: string, s: string) {
    s != "" && SlashFree(s) && Matching(tags, Child(prefix, s)) != {}
  }

  /** For tags without empty segments ListChildren's directories are exactly the
      next segments. */
  lemma SegmentsAreChildren(index: map<string, set<string>>, tags: map<string, seq<string>>, prefix: string)
    requires Agrees(index, tags) && CleanTags(tags)
    ensures forall s :: s in Segments(index, prefix) <==> IsChild(tags, prefix, s)
  {
    forall s
      ensures s in Segments(index, prefix) <==> IsChild(tags, prefix, s)
    {
      if s in Segments(index, prefix) {
        var k :| k in index && NextSegment(k, prefix) == s;
        SegmentIsChild(index, tags, prefix, k);
      }
      if IsChild(tags, prefix, s) {
        ChildHasNextSegment(prefix, s);
        assert Get(index, Child(prefix, s)) == Matching(tags, Child(prefix, s));
        assert Child(prefix, s) in index;
      }
    }
  }

  lemma SegmentIsChild(index: map<string, set<string>>, tags: map<string, seq<string>>, prefix: string, k: string)
    requires Agrees(index, tags) && CleanTags(tags) && k in index && NextSegment(k, prefix) != ""
    ensures IsChild(tags, prefix, NextSegment(k, prefix))
  {
    assert Get(index, k) == Matching(tags, k);
    var id :| id in index[k];
    assert id in Matching(tags, k);
    var i :| 0 <= i < |tags[id]| && Under(tags[id][i], k);
    PrefixHasNoEmptySegment(tags[id][i], k);
    NextSegmentIsChild(k, prefix);
    UnderTransitive(tags[id][i], k, Child(prefix, NextSegment(k, prefix)));
    assert id in Matching(tags, Child(prefix, NextSegment(k, prefix)));
  }

  /** A query for a non-empty prefix finds the targets tagged exactly with it and
      those that the queries for its children find. */
  lemma QueryIsDirectAndChildren(index: map<string, set<string>>, tags: map<string, seq<string>>, prefix: string)
    requires Agrees(index, tags) && CleanTags(tags) && prefix != ""
    ensures forall id :: id in Matching(tags, prefix) <==>
              id in Direct(tags, prefix)
              || exists s :: s in Segments(index, prefix) && id in Matching(tags, Child(prefix, s))
  {
    SegmentsAreChildren(index, tags, prefix);
    forall id
      ensures id in Matching(tags, prefix) <==>
              id in Direct(tags, prefix)
              || exists s :: s in Segments(index, prefix) && id in Matching(tags, Child(prefix, s))
    {
      if id in Matching(tags, prefix) && id !in Direct(tags, prefix) {
        var i :| 0 <= i < |tags[id]| && Under(tags[id][i], prefix);
        var s := UnderSomeChild(tags[id][i], prefix);
        assert id in Matching(tags, Child(prefix, s));
        assert IsChild(tags, prefix, s);
      }
      if s :| s in Segments(index, prefix) && id in Matching(tags, Child(prefix, s)) {
        var i :| 0 <= i < |tags[id]| && Under(tags[id][i], Child(prefix, s));
        ChildIsUnder(tags[id][i], prefix, s);
      }
      if id in Direct(tags, prefix) {
        var i :| 0 <= i < |tags[id]| && tags[id][i] == prefix;
        assert Under(tags[id][i], prefix);
      }
    }
  }

  // ----- the index -----

  /** The tag set UpdateTags arrives at. */
  function UpdatedTags(current: seq<string>, add: seq<string>, remove: seq<string>): set<string> {
    (set t | t in current) - (set t | t in remove) + ((set t | t in add) - {""})
  }

  /** A tag that is removed and added at once is there. */
  lemma UpdatedTagsAre(current: seq<string>, add: seq<string>, remove: seq<string>)
    ensures forall t :: t in UpdatedTags(current, add, remove) <==>
              (t in current && t !in remove) || (t in add && t != "")
  {
  }

  class TagIndex {
    var tagToTargets: map<string, set<string>>
    var targetToTags: map<string, seq<string>>

    ghost predicate Valid()
      reads this
    {
      Agrees(tagToTargets, targetToTags) && forall id | id in targetToTags :: targetToTags[id] != []
    }

    constructor ()
      ensures Valid() && targetToTags == map[]
    {
      tagToTargets, targetToTags := map[], map[];
    }

    /** Puts the id under every prefix of the tag. */
    method AddTag(id: string, tag: string)
      requires NoneEmpty(tagToTargets)
      modifies this`tagToTargets
      ensures NoneEmpty(tagToTargets)
      ensures forall p :: Get(tagToTargets, p) == Get(old(tagToTargets), p) + if Under(tag, p) then {id} else {}
    {
      hide Split, Join, With, Without, Get, NoneEmpty, Under, PrefixBefore;
      PrefixesBefore(tag, 1);
      var parts := Split(tag);
      ghost var m0 := tagToTargets;
      for i := 1 to |parts| + 1
        invariant NoneEmpty(tagToTargets)
        invariant forall p :: Get(tagToTargets, p) ==
                    Get(m0, p) + if PrefixBefore(tag, i, p) then {id} else {}
      {
        var prefix := Join(parts[..i]);
        ghost var m1 := tagToTargets;
        tagToTargets := With(tagToTargets, prefix, id);
        WithGets(m1, prefix, id);
        PrefixesBefore(tag, i);
      }
      AllPrefixesAreAbove(tag);
    }

    /** Takes the id from under every prefix of the tag. */
    method RemoveTag(id: string, tag: string)
      requires NoneEmpty(tagToTargets)
      modifies this`tagToTargets
      ensures NoneEmpty(tagToTargets)
      ensures forall p :: Get(tagToTargets, p) == Get(old(tagToTargets), p) - if Under(tag, p) then {id} else {}
    {
      hide Split, Join, With, Without, Get, NoneEmpty, Under, PrefixBefore;
      PrefixesBefore(tag, 1);
      var parts := Split(tag);
      ghost var m0 := tagToTargets;
      for i := 1 to |parts| + 1
        invariant NoneEmpty(tagToTargets)
        invariant forall p :: Get(tagToTargets, p) ==
                    Get(m0, p) - if PrefixBefore(tag, i, p) then {id} else {}
      {
        var prefix := Join(parts[..i]);
        ghost var m1 := tagToTargets;
        tagToTargets := Without(tagToTargets, prefix, id);
        WithoutGets(m1, prefix, id);
        PrefixesBefore(tag, i);
      }
      AllPrefixesAreAbove(tag);
    }

    method AddTags(id: string, tags: seq<string>)
      requires Valid() && id !in targetToTags && tags != []
      modifies this
      ensures Valid() && targetToTags == old(targetToTags)[id := tags]
    {
      targetToTags := targetToTags[id := tags];
      ghost var m0 := tagToTargets;
      for i := 0 to |tags|
        invariant NoneEmpty(tagToTargets)
        invariant targetToTags == old(targetToTags)[id := tags]
        invariant forall p :: Get(tagToTargets, p) == Get(m0, p) + if AnyUnder(tags[..i], p) then {id} else {}
      {
        AddTag(id, tags[i]);
        assert forall p :: AnyUnder(tags[..i + 1], p) <==> AnyUnder(tags[..i], p) || Under(tags[i], p) by {
          AnyUnderSnoc(tags, i);
        }
      }
      assert tags[..|tags|] == tags;
      forall p
        ensures Get(tagToTargets, p) == Matching(targetToTags, p)
      {
        assert Get(m0, p) == Matching(old(targetToTags), p);
      }
    }

    method RemoveLocked(id: string)
      requires Valid()
      modifies this
      ensures Valid() && targetToTags == old(targetToTags) - {id}
    {
      if id !in targetToTags {
        return;
      }
      var tags := targetToTags[id];
      targetToTags := targetToTags - {id};
      ghost var m0 := tagToTargets;
      for i := 0 to |tags|
        invariant NoneEmpty(tagToTargets)
        invariant targetToTags == old(targetToTags) - {id}
        invariant forall p :: Get(tagToTargets, p) == Get(m0, p) - if AnyUnder(tags[..i], p) then {id} else {}
      {
        RemoveTag(id, tags[i]);
        assert forall p :: AnyUnder(tags[..i + 1], p) <==> AnyUnder(tags[..i], p) || Under(tags[i], p) by {
          AnyUnderSnoc(tags, i);
        }
      }
      assert tags[..|tags|] == tags;
      forall p
        ensures Get(tagToTargets, p) == Matching(targetToTags, p)
      {
        assert Get(m0, p) == Matching(old(targetToTags), p);
      }
    }

    /** Replaces the target's tags; no tags unregisters it. */
    method Add(id: string, tags: seq<string>)
      requires Valid()
      modifies this
      ensures Valid()
      ensures targetToTags == if tags == [] then old(targetToTags) - {id} else old(targetToTags)[id := tags]
    {
      RemoveLocked(id);
      if |tags| == 0 {
        return;
      }
      AddTags(id, tags);
    }

    method Remove(id: string)
      requires Valid()
      modifies this
      ensures Valid() && targetToTags == old(targetToTags) - {id}
    {
      RemoveLocked(id);
    }

    /** `set`, if not empty, replaces the tags; otherwise tags are added and removed.
        The target ends with the sorted new tags, or unregistered when none are left. */
    method UpdateTags(id: string, add: seq<string>, remove: seq<string>, set_: seq<string>)
      returns (newTags: seq<string>)
      requires Valid()
      modifies this
      ensures Valid()
      ensures set_ != [] ==> NonDescending(newTags) && multiset(newTags) == multiset(set_)
      ensures set_ == [] ==>
        Lists(newTags, UpdatedTags(if id in old(targetToTags) then old(targetToTags)[id] else [], add, remove))
      ensures set_ == [] ==>
        var current := if id in old(targetToTags) then old(targetToTags)[id] else [];
        forall t :: t in newTags <==> (t in current && t !in remove) || (t in add && t != "")
      ensures targetToTags == if newTags == [] then old(targetToTags) - {id} else old(targetToTags)[id := newTags]
    {
      hide UpdatedTags, NonDescending, StrLeq;
      if |set_| > 0 {
        newTags := set_;
      } else {
        var currentTags := if id in targetToTags then targetToTags[id] else [];
        var tagSet := Gather(currentTags, add, remove);
        newTags := Slice(tagSet);
      }
      RemoveLocked(id);
      if |newTags| > 0 {
        ghost var unsorted := newTags;
        newTags := SortStrings(newTags);
        assert |newTags| == |multiset(newTags)| == |multiset(unsorted)| == |unsorted|;
        AddTags(id, newTags);
      }
      if set_ == [] {
        var current := if id in old(targetToTags) then old(targetToTags)[id] else [];
        SortedSetLists(newTags, UpdatedTags(current, add, remove));
        UpdatedTagsAre(current, add, remove);
      }
    }

    /** The three loops over the current, removed and added tags. */
    static method Gather(current: seq<string>, add: seq<string>, remove: seq<string>) returns (tagSet: set<string>)
      ensures tagSet == UpdatedTags(current, add, remove)
    {
      tagSet := {};
      for i := 0 to |current|
        invariant tagSet == set t | t in current[..i]
      {
        assert current[..i + 1] == current[..i] + [current[i]];
        tagSet := tagSet + {current[i]};
      }
      assert current[..|current|] == current;
      for i := 0 to |remove|
        invariant tagSet == (set t | t in current) - (set t | t in remove[..i])
      {
        assert remove[..i + 1] == remove[..i] + [remove[i]];
        tagSet := tagSet - {remove[i]};
      }
      assert remove[..|remove|] == remove;
      for i := 0 to |add|
        invariant tagSet == (set t | t in current) - (set t | t in remove) + ((set t | t in add[..i]) - {""})
      {
        assert add[..i + 1] == add[..i] + [add[i]];
        if add[i] != "" {
          tagSet := tagSet + {add[i]};
        }
      }
      assert add[..|add|] == add;
    }

    // ----- queries -----

    method Query(tag: string) returns (result: seq<string>)
      requires Valid()
      ensures Lists(result, Matching(targetToTags, tag))
    {
      result := SortedSlice(Get(tagToTargets, tag));
    }

    method Count(tag: string) returns (n: nat)
      requires Valid()
      ensures n == |Matching(targetToTags, tag)|
    {
      n := |Get(tagToTargets, tag)|;
    }

    method HasTag(id: string, tag: string) returns (has: bool)
      requires Valid()
      ensures has <==> id in targetToTags && AnyUnder(targetToTags[id], tag)
    {
      assert Get(tagToTargets, tag) == Matching(targetToTags, tag);
      has := id in Get(tagToTargets, tag);
    }

    method QueryAND(tags: seq<string>) returns (result: seq<string>)
      requires Valid()
      ensures tags == [] ==> result == []
      ensures tags != [] ==> Lists(result, MatchingAll(targetToTags, tags))
    {
      if |tags| == 0 {
        return [];
      }
      var smallest, smallestSize := Smallest(tags);
      AllIsWithin(targetToTags, tags, smallest);
      if smallestSize == 0 {
        assert Matching(targetToTags, smallest) == {};
        return [];
      }
      var found := Filter(smallest, tags);
      result := SortedSlice(found);
    }

    /** The tag with the fewest targets. */
    method Smallest(tags: seq<string>) returns (smallest: string, smallestSize: nat)
      requires Valid() && tags != []
      ensures smallest in tags && smallestSize == |Matching(targetToTags, smallest)|
      ensures forall t | t in tags :: smallestSize <= |Matching(targetToTags, t)|
    {
      smallest, smallestSize := tags[0], |Get(tagToTargets, tags[0])|;
      for i := 1 to |tags|
        invariant smallest in tags && smallestSize == |Get(tagToTargets, smallest)|
        invariant forall j | 0 <= j < i :: smallestSize <= |Get(tagToTargets, tags[j])|
      {
        var size := |Get(tagToTargets, tags[i])|;
        if size < smallestSize {
          smallest, smallestSize := tags[i], size;
        }
      }
      forall t | t in tags
        ensures smallestSize <= |Matching(targetToTags, t)|
      {
        assert Get(tagToTargets, t) == Matching(targetToTags, t);
      }
    }

    /** The targets of one of the tags that have all of them. */
    method Filter(tag: string, tags: seq<string>) returns (found: set<string>)
      requires Valid() && tag in tags
      ensures found == MatchingAll(targetToTags, tags)
    {
      assert Get(tagToTargets, tag) == Matching(targetToTags, tag);
      AllIsWithin(targetToTags, tags, tag);
      var rest := Get(tagToTargets, tag);
      found := {};
      while rest != {}
        invariant rest <= Get(tagToTargets, tag)
        invariant found == (Get(tagToTargets, tag) - rest) * MatchingAll(targetToTags, tags)
        decreases rest
      {
        var id :| id in rest;
        var matchAll := InAll(id, tags);
        if matchAll {
          found := found + {id};
        }
        rest := rest - {id};
      }
    }

    method InAll(id: string, tags: seq<string>) returns (matchAll: bool)
      requires Valid() && id in targetToTags
      ensures matchAll <==> id in MatchingAll(targetToTags, tags)
    {
      for i := 0 to |tags|
        invariant forall j | 0 <= j < i :: AnyUnder(targetToTags[id], tags[j])
      {
        assert Get(tagToTargets, tags[i]) == Matching(targetToTags, tags[i]);
        if id !in Get(tagToTargets, tags[i]) {
          return false;
        }
      }
      return true;
    }

    method QueryOR(tags: seq<string>) returns (result: seq<string>)
      requires Valid()
      ensures Lists(result, MatchingAny(targetToTags, tags))
    {
      var seen: set<string> := {};
      for i := 0 to |tags|
        invariant seen == MatchingAny(targetToTags, tags[..i])
      {
        assert Get(tagToTargets, tags[i]) == Matching(targetToTags, tags[i]);
        assert tags[..i + 1] == tags[..i] + [tags[i]];
        seen := seen + Get(tagToTargets, tags[i]);
      }
      assert tags[..|tags|] == tags;
      result := SortedSlice(seen);
    }

    method ListChildren(prefix: string) returns (dirs: seq<string>, targetIDs: seq<string>)
      requires Valid()
      ensures Lists(dirs, Segments(tagToTargets, prefix))
      ensures Lists(targetIDs, Direct(targetToTags, prefix))
      ensures CleanTags(targetToTags) ==> forall s :: s in dirs <==> IsChild(targetToTags, prefix, s)
    {
      var dirSet := SegmentsOf(prefix);
      dirs := SortedSlice(dirSet);
      var found := TaggedExactly(prefix);
      targetIDs := SortedSlice(found);
      if CleanTags(targetToTags) {
        SegmentsAreChildren(tagToTargets, targetToTags, prefix);
      }
    }

    method SegmentsOf(prefix: string) returns (dirSet: set<string>)
      ensures dirSet == Segments(tagToTargets, prefix)
    {
      dirSet := {};
      var rest := tagToTargets.Keys;
      while rest != {}
        invariant rest <= tagToTargets.Keys
        invariant dirSet == (set k | k in tagToTargets.Keys - rest :: NextSegment(k, prefix)) - {""}
        decreases rest
      {
        var tag :| tag in rest;
        var segment := "";
        if prefix == "" {
          segment := FirstSegment(tag);
        } else if prefix + "/" <= tag {
          segment := FirstSegment(tag[|prefix| + 1..]);
        }
        if segment != "" {
          dirSet := dirSet + {segment};
        }
        assert tagToTargets.Keys - (rest - {tag}) == tagToTargets.Keys - rest + {tag};
        rest := rest - {tag};
      }
    }

    method TaggedExactly(prefix: string) returns (found: set<string>)
      ensures found == Direct(targetToTags, prefix)
    {
      found := {};
      var rest := targetToTags.Keys;
      while rest != {}
        invariant rest <= targetToTags.Keys
        invariant found == Direct(targetToTags, prefix) - rest
        decreases rest
      {
        var id :| id in rest;
        if prefix in targetToTags[id] {
          found := found + {id};
        }
        rest := rest - {id};
      }
    }
  }

  lemma PrefixesAreAbove(tag: string, p: string)
    ensures Under(tag, p) <==> exists j :: 1 <= j < |Split(tag)| + 1 && Prefix(tag, j) == p
  {
    if Under(tag, p) {
      var i := AboveIsPrefix(tag, p);
    }
    if j :| 1 <= j < |Split(tag)| + 1 && Prefix(tag, j) == p {
      PrefixIsAbove(tag, j);
    }
  }

  /** One of the first prefixes of the tag, those before the i-th. */
  ghost predicate PrefixBefore(tag: string, i: nat, p: string)
    requires i <= |Split(tag)| + 1
  {
    exists j :: 1 <= j < i && Prefix(tag, j) == p
  }

  lemma PrefixesBefore(tag: string, i: nat)
    requires 1 <= i <= |Split(tag)|
    ensures forall p :: PrefixBefore(tag, i + 1, p) <==> PrefixBefore(tag, i, p) || p == Prefix(tag, i)
    ensures forall p :: !PrefixBefore(tag, 1, p)
  {
    forall p ensures PrefixBefore(tag, i + 1, p) <==> PrefixBefore(tag, i, p) || p == Prefix(tag, i) {
      if p == Prefix(tag, i) {
        assert 1 <= i < i + 1;
      }
    }
  }

  lemma AllPrefixesAreAbove(tag: string)
    ensures forall p :: Under(tag, p) <==> PrefixBefore(tag, |Split(tag)| + 1, p)
  {
    forall p ensures Under(tag, p) <==> PrefixBefore(tag, |Split(tag)| + 1, p) {
      PrefixesAreAbove(tag, p);
    }
  }

  lemma AllIsWithin(tags: map<string, seq<string>>, ps: seq<string>, p: string)
    requires p in ps
    ensures MatchingAll(tags, ps) <= Matching(tags, p)
  {
  }

  lemma AnyUnderSnoc(tags: seq<string>, i: nat)
    requires i < |tags|
    ensures forall p :: AnyUnder(tags[..i + 1], p) <==> AnyUnder(tags[..i], p) || Under(tags[i], p)
  {
    forall p
      ensures AnyUnder(tags[..i + 1], p) <==> AnyUnder(tags[..i], p) || Under(tags[i], p)
    {
      var upTo, next := tags[..i], tags[..i + 1];
      assert next == upTo + [tags[i]];
      if AnyUnder(upTo, p) {
        var j :| 0 <= j < |upTo| && Under(upTo[j], p);
        assert next[j] == upTo[j];
      }
      if AnyUnder(next, p) {
        var j :| 0 <= j < |next| && Under(next[j], p);
        assert j < i ==> upTo[j] == next[j];
      }
      assert next[i] == tags[i];
    }
  }
}
