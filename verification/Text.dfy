/** The parts of Go's strings package the program relies on, for the separator "/". */
module Text {

  predicate SlashFree(s: string) {
    '/' !in s
  }

  /** strings.Index(s, "/"): the first slash, or |s| when there is none. */
  function FirstSlash(s: string): (i: nat)
    ensures i <= |s| && SlashFree(s[..i])
    ensures i < |s| ==> s[i] == '/'
    ensures i == |s| <==> SlashFree(s)
  {
    if s == "" || s[0] == '/' then 0
    else
      var i := FirstSlash(s[1..]);
      assert s[..i + 1] == [s[0]] + s[1..][..i];
      assert s == [s[0]] + s[1..];
      1 + i
  }

  /** strings.Split(s, "/"). */
  function Split(s: string): (parts: seq<string>)
    ensures |parts| >= 1
    ensures forall k | 0 <= k < |parts| :: SlashFree(parts[k])
    decreases |s|
  {
    var i := FirstSlash(s);
    if i == |s| then [s] else [s[..i]] + Split(s[i + 1..])
  }

  /** strings.SplitN(s, "/", n). */
  function SplitN(s: string, n: nat): (parts: seq<string>)
    requires n >= 1
    ensures 1 <= |parts| <= n
    ensures forall k | 0 <= k < |parts| && k < n - 1 :: SlashFree(parts[k])
    decreases n
  {
    var i := FirstSlash(s);
    if n == 1 || i == |s| then [s] else [s[..i]] + SplitN(s[i + 1..], n - 1)
  }

  /** strings.Join(parts, "/"). */
  function Join(parts: seq<string>): string {
    if |parts| == 0 then ""
    else if |parts| == 1 then parts[0]
    else parts[0] + "/" + Join(parts[1..])
  }

  lemma {:induction false} FirstSlashIs(s: string, n: nat)
    requires n < |s| && s[n] == '/' && SlashFree(s[..n])
    ensures FirstSlash(s) == n
    decreases n
  {
    if n > 0 {
      assert s[..n][0] == s[0] && s[..n][1..] == s[1..][..n - 1];
      FirstSlashIs(s[1..], n - 1);
    }
  }

  lemma CutAtSlash(before: string, after: string)
    requires SlashFree(before)
    ensures var s := before + "/" + after;
            FirstSlash(s) == |before| && s[..|before|] == before && s[|before| + 1..] == after
  {
    var s := before + "/" + after;
    assert s[..|before|] == before;
    FirstSlashIs(s, |before|);
  }

  lemma Glue(s: string, i: nat)
    requires i < |s| && s[i] == '/'
    ensures s[..i] + "/" + s[i + 1..] == s
  {
  }

  lemma GlueTwice(a: string, i: nat, b: string)
    requires i < |a| && a[i] == '/'
    ensures a + "/" + b == a[..i] + "/" + (a[i + 1..] + "/" + b)
  {
    Glue(a, i);
  }

  lemma JoinCons(head: string, tail: seq<string>)
    requires |tail| >= 1
    ensures Join([head] + tail) == head + "/" + Join(tail)
  {
    assert ([head] + tail)[1..] == tail;
  }

  lemma {:induction false} JoinSplit(s: string)
    ensures Join(Split(s)) == s
    decreases |s|
  {
    var i := FirstSlash(s);
    if i < |s| {
      JoinSplit(s[i + 1..]);
      JoinCons(s[..i], Split(s[i + 1..]));
      Glue(s, i);
    }
  }

  lemma {:induction false} JoinSplitN(s: string, n: nat)
    requires n >= 1
    ensures Join(SplitN(s, n)) == s
    decreases n
  {
    var i := FirstSlash(s);
    if n > 1 && i < |s| {
      JoinSplitN(s[i + 1..], n - 1);
      JoinCons(s[..i], SplitN(s[i + 1..], n - 1));
      Glue(s, i);
    }
  }

  lemma SplitCons(head: string, tail: string)
    requires SlashFree(head)
    ensures Split(head + "/" + tail) == [head] + Split(tail)
  {
    CutAtSlash(head, tail);
  }

  lemma {:induction false} SplitJoin(parts: seq<string>)
    requires |parts| >= 1
    requires forall k | 0 <= k < |parts| :: SlashFree(parts[k])
    ensures Split(Join(parts)) == parts
    decreases |parts|
  {
    if |parts| > 1 {
      SplitCons(parts[0], Join(parts[1..]));
      SplitJoin(parts[1..]);
    }
  }

  lemma SplitAtFirst(s: string)
    ensures var i := FirstSlash(s);
            Split(s) == if i == |s| then [s] else [s[..i]] + Split(s[i + 1..])
  {
  }

  /** Splitting at a slash splits both sides. */
  lemma {:induction false} SplitAppend(a: string, b: string)
    ensures Split(a + "/" + b) == Split(a) + Split(b)
    decreases |a|
  {
    SplitAtFirst(a);
    hide Split, FirstSlash;
    var i := FirstSlash(a);
    if i == |a| {
      SplitCons(a, b);
    } else {
      var head, rest := a[..i], a[i + 1..];
      GlueTwice(a, i, b);
      SplitCons(head, rest + "/" + b);
      SplitAppend(rest, b);
    }
  }

  lemma {:induction false} JoinAppend(p: seq<string>, q: seq<string>)
    requires |p| >= 1 && |q| >= 1
    ensures Join(p + q) == Join(p) + "/" + Join(q)
    decreases |p|
  {
    if |p| == 1 {
      JoinCons(p[0], q);
      assert p + q == [p[0]] + q;
    } else {
      JoinAppend(p[1..], q);
      JoinCons(p[0], p[1..] + q);
      JoinCons(p[0], p[1..]);
      assert p + q == [p[0]] + (p[1..] + q) && p == [p[0]] + p[1..];
      assert p[0] + "/" + (Join(p[1..]) + "/" + Join(q)) == (p[0] + "/" + Join(p[1..])) + "/" + Join(q);
    }
  }

  // ----- the order of sort.Strings -----

  predicate StrLeq(a: string, b: string)
    decreases |a|
  {
    if a == "" then true
    else if b == "" then false
    else if a[0] != b[0] then a[0] < b[0]
    else StrLeq(a[1..], b[1..])
  }

  predicate StrLess(a: string, b: string) {
    StrLeq(a, b) && a != b
  }

  lemma {:induction false} StrLeqTotal(a: string, b: string)
    ensures StrLeq(a, b) || StrLeq(b, a)
    ensures StrLeq(a, a)
    decreases |a|
  {
    if a != "" {
      StrLeqTotal(a[1..], if b == "" then "" else b[1..]);
    }
  }

  lemma {:induction false} StrLeqAntisymmetric(a: string, b: string)
    requires StrLeq(a, b) && StrLeq(b, a)
    ensures a == b
    decreases |a|
  {
    if a != "" {
      StrLeqAntisymmetric(a[1..], b[1..]);
      assert a == [a[0]] + a[1..] && b == [b[0]] + b[1..];
    }
  }

  lemma {:induction false} StrLeqTransitive(a: string, b: string, c: string)
    requires StrLeq(a, b) && StrLeq(b, c)
    ensures StrLeq(a, c)
    decreases |a|
  {
    if a != "" && a[0] == b[0] && b[0] == c[0] {
      StrLeqTransitive(a[1..], b[1..], c[1..]);
    }
  }

  lemma StrLessTransitive(a: string, b: string, c: string)
    requires StrLess(a, b) && StrLess(b, c)
    ensures StrLess(a, c)
  {
    StrLeqTransitive(a, b, c);
    if a == c {
      StrLeqAntisymmetric(a, b);
    }
  }

  /** Ascending without repetition. */
  ghost predicate Ascending(s: seq<string>) {
    forall i, j | 0 <= i < j < |s| :: StrLess(s[i], s[j])
  }

  /** `s` lists the members of `m` in ascending order, each once. */
  ghost predicate Lists(s: seq<string>, m: set<string>) {
    Ascending(s) && (forall x :: x in s <==> x in m)
  }

  /** A set has one listing. */
  lemma {:induction false} ListingUnique(s: seq<string>, t: seq<string>, m: set<string>)
    requires Lists(s, m) && Lists(t, m)
    ensures s == t
    decreases |s|
  {
    if s == [] {
      ListingSize(s, m);
      ListingSize(t, m);
    } else {
      assert s[0] in m && s[0] in t;
      assert t[0] in m && t[0] in s;
      if s[0] != t[0] {
        StrLeqAntisymmetric(s[0], t[0]);
      }
      assert s == [s[0]] + s[1..] && t == [t[0]] + t[1..];
      forall x
        ensures x in s[1..] <==> x in m - {s[0]}
        ensures x in t[1..] <==> x in m - {s[0]}
      {
        assert x in s <==> x == s[0] || x in s[1..];
        assert x in t <==> x == t[0] || x in t[1..];
      }
      ListingUnique(s[1..], t[1..], m - {s[0]});
    }
  }

  lemma {:induction false} ListingSize(s: seq<string>, m: set<string>)
    requires Lists(s, m)
    ensures |s| == |m|
    decreases |s|
  {
    if s == [] {
      assert m == set x | x in s;
    } else {
      assert s == [s[0]] + s[1..];
      forall x
        ensures x in s[1..] <==> x in m - {s[0]}
      {
        assert x in s <==> x == s[0] || x in s[1..];
      }
      assert s[0] in m;
      ListingSize(s[1..], m - {s[0]});
    }
  }

  /** Where x belongs in an ascending sequence. */
  function Place(s: seq<string>, x: string): (i: nat)
    ensures i <= |s|
    ensures forall k | 0 <= k < i :: !StrLeq(x, s[k])
    ensures i < |s| ==> StrLeq(x, s[i])
  {
    if s == [] || StrLeq(x, s[0]) then 0
    else
      var i := Place(s[1..], x);
      assert forall k | 0 < k < 1 + i :: s[k] == s[1..][k - 1];
      1 + i
  }

  /** Collecting a set into a slice and sorting it. */
  method SortedSlice(m: set<string>) returns (s: seq<string>)
    ensures Lists(s, m)
  {
    s := [];
    var rest := m;
    while rest != {}
      invariant rest <= m
      invariant Lists(s, m - rest)
      decreases rest
    {
      var x :| x in rest;
      var i := Place(s, x);
      InsertLists(s, x, i, m - rest);
      s := s[..i] + [x] + s[i..];
      assert m - rest + {x} == m - (rest - {x});
      rest := rest - {x};
    }
    assert m - rest == m;
  }

  lemma InsertLists(s: seq<string>, x: string, i: nat, m: set<string>)
    requires Lists(s, m) && x !in m && i == Place(s, x)
    ensures Lists(s[..i] + [x] + s[i..], m + {x})
  {
    var t := s[..i] + [x] + s[i..];
    assert x !in s;
    forall a, b | 0 <= a < b < |t|
      ensures StrLess(t[a], t[b])
    {
      if b == i {
        StrLeqTotal(x, s[a]);
      } else if a == i && b > i + 1 {
        StrLessTransitive(x, s[i], s[b - 1]);
      }
    }
    forall y
      ensures y in t <==> y in m + {x}
    {
      assert s == s[..i] + s[i..];
      assert y in s <==> y in s[..i] || y in s[i..];
    }
  }

  /** Ascending, with repetition. */
  ghost predicate NonDescending(s: seq<string>) {
    forall i, j | 0 <= i < j < |s| :: StrLeq(s[i], s[j])
  }

  lemma InsertNonDescending(s: seq<string>, x: string, i: nat)
    requires NonDescending(s) && i == Place(s, x)
    ensures NonDescending(s[..i] + [x] + s[i..])
  {
    var t := s[..i] + [x] + s[i..];
    forall a, b | 0 <= a < b < |t|
      ensures StrLeq(t[a], t[b])
    {
      if b == i {
        StrLeqTotal(x, s[a]);
      } else if a == i && b > i + 1 {
        StrLeqTransitive(x, s[i], s[b - 1]);
      }
    }
  }

  lemma InsertCounts(s: seq<string>, x: string, i: nat)
    requires i <= |s|
    ensures multiset(s[..i] + [x] + s[i..]) == multiset(s) + multiset{x}
  {
    assert s == s[..i] + s[i..];
  }

  lemma NothingDescends()
    ensures NonDescending([])
  {
  }

  /** sort.Strings. */
  method SortStrings(s: seq<string>) returns (t: seq<string>)
    ensures NonDescending(t) && multiset(t) == multiset(s)
  {
    hide Place, NonDescending;
    t := [];
    assert NonDescending(t) by {
      NothingDescends();
    }
    for k := 0 to |s|
      invariant NonDescending(t) && multiset(t) == multiset(s[..k])
    {
      var i := Place(t, s[k]);
      InsertNonDescending(t, s[k], i);
      InsertCounts(t, s[k], i);
      t := t[..i] + [s[k]] + t[i..];
      assert s[..k + 1] == s[..k] + [s[k]];
    }
    assert s[..|s|] == s;
  }

  /** A set's members in some order. */
  method Slice(m: set<string>) returns (s: seq<string>)
    ensures multiset(s) == multiset(m)
  {
    s := [];
    var rest := m;
    while rest != {}
      invariant rest <= m && multiset(s) == multiset(m - rest)
      decreases rest
    {
      var x :| x in rest;
      s := s + [x];
      assert m - (rest - {x}) == m - rest + {x};
      rest := rest - {x};
    }
    assert m - rest == m;
  }

  /** Sorting the members of a set lists the set. */
  lemma SortedSetLists(s: seq<string>, m: set<string>)
    requires NonDescending(s) && multiset(s) == multiset(m)
    ensures Lists(s, m)
  {
    forall i, j | 0 <= i < j < |s|
      ensures StrLess(s[i], s[j])
    {
      if s[i] == s[j] {
        TwiceCounts(s, i, j);
      }
    }
    forall x
      ensures x in s <==> x in m
    {
      assert x in s <==> x in multiset(s);
    }
  }

  lemma TwiceCounts(s: seq<string>, i: nat, j: nat)
    requires i < j < |s| && s[i] == s[j]
    ensures multiset(s)[s[i]] >= 2
  {
    assert s == s[..j] + s[j..];
    assert s[..j][i] in multiset(s[..j]) && s[j..][0] in multiset(s[j..]);
    assert multiset(s) == multiset(s[..j]) + multiset(s[j..]);
  }
}
