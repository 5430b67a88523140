/** Tags as paths: what it means for one tag to lie under another. */
module TagPaths {
  import opened Text

  /** `p` is `tag` or a prefix of it that ends where a segment ends. */
  predicate Under(tag: string, p: string) {
    p == tag || p + "/" <= tag
  }

  /** Some of the tags lies under p. */
  predicate AnyUnder(tags: seq<string>, p: string) {
    exists i :: 0 <= i < |tags| && Under(tags[i], p)
  }

  /** The program's prefixes of a tag: the first i segments joined, for i >= 1. */
  function Prefix(tag: string, i: nat): string
    requires 1 <= i <= |Split(tag)|
  {
    Join(Split(tag)[..i])
  }

  /** The program's prefixes are exactly what the tag lies under. */
  lemma PrefixIsAbove(tag: string, i: nat)
    requires 1 <= i <= |Split(tag)|
    ensures Under(tag, Prefix(tag, i))
  {
    hide Split, Join;
    var parts := Split(tag);
    JoinSplit(tag);
    if i == |parts| {
      assert parts[..i] == parts;
    } else {
      JoinAppend(parts[..i], parts[i..]);
      assert parts[..i] + parts[i..] == parts;
    }
  }

  lemma AboveIsPrefix(tag: string, p: string) returns (i: nat)
    requires Under(tag, p)
    ensures 1 <= i <= |Split(tag)| && Prefix(tag, i) == p
  {
    hide Split, Join;
    var parts := Split(tag);
    JoinSplit(p);
    if p == tag {
      i := |parts|;
      assert parts[..i] == parts;
    } else {
      var rest := tag[|p| + 1..];
      assert tag == p + "/" + rest;
      SplitAppend(p, rest);
      i := |Split(p)|;
      assert parts[..i] == Split(p);
    }
  }

  lemma UnderTransitive(tag: string, q: string, p: string)
    requires Under(tag, q) && Under(q, p)
    ensures Under(tag, p)
  {
  }

  /** No empty segment: no leading, trailing or double slash, and not empty. */
  predicate NoEmptySegment(tag: string) {
    && tag != ""
    && forall i | 0 <= i < |tag| && tag[i] == '/' :: 0 < i < |tag| - 1 && tag[i + 1] != '/'
  }

  lemma PrefixHasNoEmptySegment(tag: string, p: string)
    requires NoEmptySegment(tag) && Under(tag, p)
    ensures NoEmptySegment(p)
  {
    if p != tag {
      assert tag[|p|] == '/';
      forall i | 0 <= i < |p| && p[i] == '/'
        ensures 0 < i < |p| - 1 && p[i + 1] != '/'
      {
        assert tag[i] == '/' && tag[i + 1] != '/';
      }
    }
  }

  /** A path below p. */
  function Child(p: string, segment: string): string {
    if p == "" then segment else p + "/" + segment
  }

  /** What ListChildren takes from an indexed tag as the next segment under prefix:
      "" when there is none. */
  function NextSegment(tag: string, prefix: string): string {
    if prefix == "" then FirstSegment(tag)
    else if prefix + "/" <= tag then FirstSegment(tag[|prefix| + 1..])
    else ""
  }

  /** Up to the first slash, unless that is the first character. */
  function FirstSegment(s: string): string {
    var i := FirstSlash(s);
    if 0 < i < |s| then s[..i] else s
  }

  /** What comes before the first slash, if anything does; otherwise all of it. */
  lemma FirstSegmentIs(s: string, rest: string)
    ensures SlashFree(s) && s != "" ==> FirstSegment(s + "/" + rest) == s
    ensures SlashFree(s) ==> FirstSegment(s) == s
    ensures FirstSegment("/" + rest) == "/" + rest
  {
    if SlashFree(s) {
      CutAtSlash(s, rest);
    }
  }

  lemma FirstSegmentIsAbove(s: string)
    requires s != "" && s[0] != '/'
    ensures FirstSegment(s) != "" && SlashFree(FirstSegment(s)) && Under(s, FirstSegment(s))
  {
    var i := FirstSlash(s);
    if i < |s| {
      assert s[..i] + "/" == s[..i + 1];
    }
  }

  lemma UnderBelow(prefix: string, tag: string, p: string)
    requires Under(tag, p)
    ensures Under(Child(prefix, tag), Child(prefix, p))
  {
    if prefix != "" && p != tag {
      assert prefix + "/" + p + "/" == prefix + "/" + (p + "/");
    }
  }

  lemma RestStartsSegment(tag: string, prefix: string)
    requires NoEmptySegment(tag) && prefix + "/" <= tag
    ensures |prefix| + 1 < |tag| && tag[|prefix| + 1] != '/'
    ensures tag == prefix + "/" + tag[|prefix| + 1..]
  {
    assert tag[|prefix|] == '/';
  }

  /** Without empty segments, what ListChildren takes is a segment, and the tag lies
      under the child it names. */
  lemma NextSegmentIsChild(tag: string, prefix: string)
    requires NoEmptySegment(tag) && NextSegment(tag, prefix) != ""
    ensures var s := NextSegment(tag, prefix); SlashFree(s) && Under(tag, Child(prefix, s))
  {
    if prefix == "" {
      FirstSegmentIsAbove(tag);
    } else {
      RestStartsSegment(tag, prefix);
      var rest := tag[|prefix| + 1..];
      FirstSegmentIsAbove(rest);
      UnderBelow(prefix, rest, FirstSegment(rest));
    }
  }

  lemma ChildHasNextSegment(prefix: string, s: string)
    requires SlashFree(s) && s != ""
    ensures NextSegment(Child(prefix, s), prefix) == s
  {
    if prefix != "" {
      assert (prefix + "/" + s)[|prefix| + 1..] == s;
    }
  }

  /** A tag strictly under p lies under a child of p. */
  lemma UnderSomeChild(tag: string, p: string) returns (s: string)
    requires NoEmptySegment(tag) && p != "" && p + "/" <= tag
    ensures s != "" && SlashFree(s) && Under(tag, Child(p, s))
  {
    s := NextSegment(tag, p);
    RestStartsSegment(tag, p);
    FirstSegmentIsAbove(tag[|p| + 1..]);
    NextSegmentIsChild(tag, p);
  }

  lemma ChildIsUnder(tag: string, p: string, s: string)
    requires p != "" && Under(tag, Child(p, s))
    ensures Under(tag, p)
  {
    assert p + "/" <= Child(p, s);
  }
}
