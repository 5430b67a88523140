/** SQL's LIKE, without an escape character: '%' stands for any text, '_' for any one
    character. */
module Likes {

  predicate Like(s: string, p: string)
    decreases |p| + |s|
  {
    if p == "" then s == ""
    else if p[0] == '%' then Like(s, p[1..]) || (s != "" && Like(s[1..], p))
    else s != "" && (p[0] == '_' || p[0] == s[0]) && Like(s[1..], p[1..])
  }

  predicate WildcardFree(p: string) {
    '%' !in p && '_' !in p
  }

  lemma {:induction false} AnythingIsLikePercent(s: string)
    ensures Like(s, "%")
    decreases |s|
  {
    if s != "" {
      AnythingIsLikePercent(s[1..]);
    }
  }

  /** A text is like itself, even one with wildcards, and so is all that starts with it. */
  lemma {:induction false} LikeItself(p: string, rest: string)
    ensures Like(p + rest, p + "%")
    decreases |p|
  {
    if p == "" {
      AnythingIsLikePercent(rest);
      assert p + rest == rest && p + "%" == "%";
    } else {
      LikeItself(p[1..], rest);
      assert (p + rest)[1..] == p[1..] + rest && (p + "%")[1..] == p[1..] + "%";
      if p[0] == '%' {
        assert Like((p + rest)[1..], p + "%");
      }
    }
  }

  /** What extends a match of such a pattern matches. */
  lemma {:induction false} LikeMore(s: string, rest: string, p: string)
    requires Like(s, p + "%")
    ensures Like(s + rest, p + "%")
    decreases |p| + |s|
  {
    if p == "" {
      assert p + "%" == "%";
      AnythingIsLikePercent(s + rest);
    } else {
      assert (p + "%")[1..] == p[1..] + "%";
      if p[0] == '%' && Like(s, p[1..] + "%") {
        LikeMore(s, rest, p[1..]);
      } else {
        assert (s + rest)[1..] == s[1..] + rest;
        LikeMore(s[1..], rest, if p[0] == '%' then p else p[1..]);
      }
    }
  }

  lemma {:induction false} LikePrefix(s: string, p: string)
    requires WildcardFree(p)
    ensures Like(s, p + "%") <==> p <= s
    decreases |p|
  {
    if p == "" {
      assert p + "%" == "%";
      AnythingIsLikePercent(s);
    } else {
      assert (p + "%")[1..] == p[1..] + "%" && p[0] in p;
      assert forall c :: c in p[1..] ==> c in p;
      if s != "" {
        LikePrefix(s[1..], p[1..]);
        assert s[0] == p[0] && p[1..] <= s[1..] ==> p <= s;
      }
    }
  }

  /** The pattern with every wildcard replaced by one letter. */
  function Instance(p: string): (s: string)
    ensures |s| == |p|
    ensures forall i | 0 <= i < |p| :: s[i] == if p[i] == '%' || p[i] == '_' then 'x' else p[i]
  {
    if p == "" then "" else [if p[0] == '%' || p[0] == '_' then 'x' else p[0]] + Instance(p[1..])
  }

  lemma {:induction false} InstanceIsLike(p: string, rest: string)
    ensures Like(Instance(p) + rest, p + "%")
    decreases |p|
  {
    if p == "" {
      AnythingIsLikePercent(rest);
      assert Instance(p) + rest == rest && p + "%" == "%";
    } else {
      InstanceIsLike(p[1..], rest);
      assert (Instance(p) + rest)[1..] == Instance(p[1..]) + rest && (p + "%")[1..] == p[1..] + "%";
      if p[0] == '%' {
        assert Like((Instance(p) + rest)[1..], p + "%");
      }
    }
  }

  predicate MeansPrefix(s: string, p: string) {
    Like(s, p + "%") <==> p <= s
  }

  /** LIKE 'p%' means "starts with p" exactly for a p without wildcards. */
  lemma LikePrefixIff(p: string)
    ensures WildcardFree(p) <==> forall s :: MeansPrefix(s, p)
  {
    if WildcardFree(p) {
      forall s ensures MeansPrefix(s, p) {
        LikePrefix(s, p);
      }
    } else {
      InstanceIsNoPrefix(p);
      assert !MeansPrefix(Instance(p), p);
    }
  }

  lemma InstanceIsNoPrefix(p: string)
    requires !WildcardFree(p)
    ensures Like(Instance(p), p + "%") && !(p <= Instance(p))
  {
    InstanceIsLike(p, "");
    assert Instance(p) + "" == Instance(p);
    var i :| 0 <= i < |p| && (p[i] == '%' || p[i] == '_');
    assert Instance(p)[i] != p[i];
  }
}
