/** Poller keys and their string form, the key of the scheduler's index. */
module PollerKeys {
  import opened Text

  datatype PollerKey = PollerKey(ns: string, target: string, poller: string) {
    function String(): string {
      ns + "/" + target + "/" + poller
    }
  }

  /** No slash in the namespace or the target; the poller name may hold slashes. */
  predicate Plain(k: PollerKey) {
    SlashFree(k.ns) && SlashFree(k.target)
  }

  datatype ParseResult = Parsed(key: PollerKey) | InvalidKey(text: string)

  function ParsePollerKey(s: string): ParseResult {
    var parts := SplitN(s, 3);
    if |parts| != 3 then InvalidKey(s)
    else Parsed(PollerKey(parts[0], parts[1], parts[2]))
  }

  function SlashCount(s: string): nat {
    if s == "" then 0 else (if s[0] == '/' then 1 else 0) + SlashCount(s[1..])
  }

  lemma SplitNCons(head: string, tail: string, n: nat)
    requires SlashFree(head) && n >= 2
    ensures SplitN(head + "/" + tail, n) == [head] + SplitN(tail, n - 1)
  {
    CutAtSlash(head, tail);
  }

  lemma SplitThree(k: PollerKey)
    requires Plain(k)
    ensures SplitN(k.String(), 3) == [k.ns, k.target, k.poller]
  {
    var tail := k.target + "/" + k.poller;
    assert k.String() == k.ns + "/" + tail;
    SplitNCons(k.ns, tail, 3);
    SplitNCons(k.target, k.poller, 2);
  }

  /** Parsing undoes String exactly for plain keys. */
  lemma ParseUndoesString(k: PollerKey)
    ensures ParsePollerKey(k.String()) == Parsed(k) <==> Plain(k)
  {
    if Plain(k) {
      SplitThree(k);
    }
  }

  lemma JoinThree(a: string, b: string, c: string)
    ensures Join([a, b, c]) == a + "/" + b + "/" + c
  {
    JoinCons(b, [c]);
    JoinCons(a, [b, c]);
    assert [a] + [b, c] == [a, b, c] && [b] + [c] == [b, c];
    assert a + "/" + (b + "/" + c) == a + "/" + b + "/" + c;
  }

  /** Whatever parses is the string form of the key it parses to. */
  lemma StringUndoesParse(s: string)
    ensures ParsePollerKey(s).Parsed? ==> ParsePollerKey(s).key.String() == s
  {
    JoinSplitN(s, 3);
    var p := SplitN(s, 3);
    if |p| == 3 {
      JoinThree(p[0], p[1], p[2]);
      assert p == [p[0], p[1], p[2]];
    }
  }

  lemma {:induction false} SlashCountCut(s: string)
    ensures var i := FirstSlash(s);
            SlashCount(s) == if i == |s| then 0 else 1 + SlashCount(s[i + 1..])
    decreases |s|
  {
    if s != "" && s[0] != '/' {
      SlashCountCut(s[1..]);
      var i := FirstSlash(s);
      if i < |s| {
        assert s[1..][i..] == s[i + 1..];
      }
    }
  }

  /** A string parses exactly when it has at least two slashes. */
  lemma ParsesIffTwoSlashes(s: string)
    ensures ParsePollerKey(s).Parsed? <==> SlashCount(s) >= 2
  {
    SlashCountCut(s);
    var i := FirstSlash(s);
    if i < |s| {
      SlashCountCut(s[i + 1..]);
    }
  }

  /** Plain keys never share an index entry. */
  lemma StringInjective(k: PollerKey, l: PollerKey)
    requires Plain(k) && Plain(l)
    requires k.String() == l.String()
    ensures k == l
  {
    ParseUndoesString(k);
    ParseUndoesString(l);
  }
}
