/** Listing targets page by page: the server's browse list and the store's. */
module Pagination {
  import opened Text

  const DEFAULT_BROWSE_LIMIT := 100
  const MAX_BROWSE_LIMIT := 1000

  datatype Page = Page(items: seq<string>, next: string, hasMore: bool)

  /** What is left after the cursor; all of it without one. */
  function After(ids: seq<string>, cursor: string): (rest: seq<string>)
    ensures |rest| <= |ids|
  {
    if cursor == "" then ids
    else
      var i := Place(ids, cursor);
      if i < |ids| && ids[i] == cursor then ids[i + 1..] else ids[i..]
  }

  /** One page. */
  function PageAfter(ids: seq<string>, cursor: string, limit: nat): Page
    requires limit >= 1
  {
    var rest := After(ids, cursor);
    if |rest| > limit then Page(rest[..limit], rest[limit - 1], true) else Page(rest, "", false)
  }

  /** After is what it should be: in an ascending list, exactly the later ids, which
      are a tail of the list. */
  lemma AfterIsLater(ids: seq<string>, cursor: string)
    requires Ascending(ids) && cursor != ""
    ensures forall x :: x in After(ids, cursor) <==> x in ids && StrLess(cursor, x)
    ensures After(ids, cursor) == ids[|ids| - |After(ids, cursor)|..]
  {
    hide StrLeq, Place;
    var i := Place(ids, cursor);
    var k := if i < |ids| && ids[i] == cursor then i + 1 else i;
    assert After(ids, cursor) == ids[k..];
    forall x
      ensures x in ids[k..] <==> x in ids && StrLess(cursor, x)
    {
      IsLater(ids, cursor, i, k, x);
    }
  }

  lemma IsLater(ids: seq<string>, cursor: string, i: nat, k: nat, x: string)
    requires Ascending(ids) && i == Place(ids, cursor)
    requires k == if i < |ids| && ids[i] == cursor then i + 1 else i
    ensures x in ids[k..] <==> x in ids && StrLess(cursor, x)
  {
    hide StrLeq, Place, Ascending;
    if x in ids[k..] {
      var j :| k <= j < |ids| && ids[j] == x;
      if j > i {
        LaterThanPlace(ids, cursor, i, j);
      }
    }
    if x in ids && StrLess(cursor, x) {
      var j :| 0 <= j < |ids| && ids[j] == x;
      assert j >= k;
      assert ids[k..][j - k] == x;
    }
  }

  lemma LaterThanPlace(ids: seq<string>, cursor: string, i: nat, j: nat)
    requires Ascending(ids) && i < j < |ids| && StrLeq(cursor, ids[i])
    ensures StrLess(cursor, ids[j])
  {
    assert StrLess(ids[i], ids[j]);
    StrLeqTransitive(cursor, ids[i], ids[j]);
    if cursor == ids[j] {
      StrLeqAntisymmetric(ids[i], ids[j]);
    }
  }

  /** From a member's place on, After is the rest behind it. */
  lemma AfterMember(ids: seq<string>, k: nat)
    requires Ascending(ids) && k < |ids| && ids[k] != ""
    ensures After(ids, ids[k]) == ids[k + 1..]
  {
    var i := Place(ids, ids[k]);
    StrLeqTotal(ids[k], ids[k]);
    assert i <= k;
    if i < k {
      assert StrLess(ids[i], ids[k]);
      StrLeqAntisymmetric(ids[i], ids[k]);
    }
  }

  // ----- following the cursors -----

  /** The pages' items, one after the other, until no next cursor is given. */
  function Follow(ids: seq<string>, cursor: string, limit: nat): seq<string>
    requires limit >= 1 && Ascending(ids)
    decreases |After(ids, cursor)|
  {
    var page := PageAfter(ids, cursor, limit);
    if page.next == "" then page.items
    else
      NextIsLater(ids, cursor, limit);
      page.items + Follow(ids, page.next, limit)
  }

  /** A next cursor leaves exactly what the page has not shown. */
  lemma NextIsLater(ids: seq<string>, cursor: string, limit: nat)
    requires limit >= 1 && Ascending(ids)
    ensures var page := PageAfter(ids, cursor, limit);
            page.next != "" ==>
              && After(ids, cursor) == page.items + After(ids, page.next)
              && |After(ids, page.next)| < |After(ids, cursor)|
  {
    var page := PageAfter(ids, cursor, limit);
    var rest := After(ids, cursor);
    var from := StartOfRest(ids, cursor);
    if page.next != "" {
      var k := from + limit - 1;
      assert page.next == rest[limit - 1] == ids[k] && page.items == rest[..limit];
      AfterMember(ids, k);
      hide After, Ascending, PageAfter;
      Cut(ids, from, limit);
    }
  }

  lemma Cut(ids: seq<string>, from: nat, limit: nat)
    requires from + limit <= |ids|
    ensures ids[from..] == ids[from..][..limit] + ids[from + limit..]
  {
  }

  lemma StartOfRest(ids: seq<string>, cursor: string) returns (from: nat)
    ensures from <= |ids| && After(ids, cursor) == ids[from..]
  {
    from := if cursor == "" then 0 else
      var i := Place(ids, cursor);
      if i < |ids| && ids[i] == cursor then i + 1 else i;
  }

  lemma {:induction false} FollowIsRest(ids: seq<string>, cursor: string, limit: nat)
    requires limit >= 1 && Ascending(ids) && (cursor != "" || limit > 1 || "" !in ids)
    ensures Follow(ids, cursor, limit) == After(ids, cursor)
    decreases |After(ids, cursor)|
  {
    var page := PageAfter(ids, cursor, limit);
    if page.hasMore && page.next == "" {
      EmptyComesFirst(ids, cursor, limit);
    }
    if page.next != "" {
      NextIsLater(ids, cursor, limit);
      FollowIsRest(ids, page.next, limit);
    }
  }

  lemma EmptyIsFirst(ids: seq<string>, k: nat)
    requires Ascending(ids) && k < |ids| && ids[k] == ""
    ensures k == 0
  {
    assert k > 0 ==> StrLess(ids[0], ids[k]);
  }

  /** Only the empty id could give an empty cursor; it sorts first. */
  lemma EmptyComesFirst(ids: seq<string>, cursor: string, limit: nat)
    requires limit >= 1 && Ascending(ids)
    requires PageAfter(ids, cursor, limit).hasMore && PageAfter(ids, cursor, limit).next == ""
    ensures cursor == "" && limit == 1 && "" in ids
  {
    var from := StartOfRest(ids, cursor);
    var rest := After(ids, cursor);
    assert rest[limit - 1] == "" && rest[limit - 1] in rest;
    EmptyIsFirst(ids, from + limit - 1);
    if cursor != "" {
      AfterIsLater(ids, cursor);
    }
  }

  /** Following the cursors from the start lists every id once, in ascending order,
      exactly unless the empty id is alone on the first of several pages. */
  lemma FollowListsAllIff(ids: seq<string>, m: set<string>, limit: nat)
    requires limit >= 1 && Lists(ids, m)
    ensures Lists(Follow(ids, "", limit), m) <==> !(limit == 1 && "" in m && |m| > 1)
  {
    ListingSize(ids, m);
    if limit == 1 && "" in m && |m| > 1 {
      var k :| 0 <= k < |ids| && ids[k] == "";
      EmptyIsFirst(ids, k);
      assert Follow(ids, "", 1) == ids[..1];
      assert ids[1] in m && StrLess(ids[0], ids[1]);
      assert ids[1] !in ids[..1];
    } else if limit > 1 || "" !in m {
      FollowIsRest(ids, "", limit);
    } else {
      assert Follow(ids, "", limit) == ids;
    }
  }

  // ----- the server's list -----

  /** sort.SearchStrings: binary search. */
  method SearchStrings(a: seq<string>, x: string) returns (i: nat)
    requires Ascending(a)
    ensures i == Place(a, x)
  {
    var lo, hi := 0, |a|;
    while lo < hi
      invariant 0 <= lo <= hi <= |a|
      invariant forall k | 0 <= k < lo :: !StrLeq(x, a[k])
      invariant forall k | hi <= k < |a| :: StrLeq(x, a[k])
    {
      var h := (lo + hi) / 2;
      if !StrLeq(x, a[h]) {
        forall k | 0 <= k < h + 1 ensures !StrLeq(x, a[k]) {
          if k < h && StrLeq(x, a[k]) {
            assert StrLess(a[k], a[h]);
            StrLeqTransitive(x, a[k], a[h]);
          }
        }
        lo := h + 1;
      } else {
        forall k | h <= k < |a| ensures StrLeq(x, a[k]) {
          if k > h {
            assert StrLess(a[h], a[k]);
            StrLeqTransitive(x, a[h], a[k]);
          }
        }
        hi := h;
      }
    }
    i := lo;
    PlaceIs(a, x, i);
  }

  lemma PlaceIs(a: seq<string>, x: string, i: nat)
    requires i <= |a| && forall k | 0 <= k < i :: !StrLeq(x, a[k])
    requires i < |a| ==> StrLeq(x, a[i])
    ensures Place(a, x) == i
  {
    var _ := Place(a, x);
  }

  method ClampLimit(requested: int) returns (limit: nat)
    ensures limit == (if requested <= 0 then 100 else if requested > 1000 then 1000 else requested)
  {
    var l := requested;
    if l <= 0 {
      l := DEFAULT_BROWSE_LIMIT;
    }
    if l > MAX_BROWSE_LIMIT {
      l := MAX_BROWSE_LIMIT;
    }
    limit := l;
  }

  /** Those of the ids that are targets. */
  function Present(ids: seq<string>, targets: set<string>): seq<string> {
    if ids == [] then []
    else
      var front := Present(ids[..|ids| - 1], targets);
      var last := ids[|ids| - 1];
      if last in targets then front + [last] else front
  }

  lemma {:induction false} AllPresent(ids: seq<string>, targets: set<string>)
    requires forall i | 0 <= i < |ids| :: ids[i] in targets
    ensures Present(ids, targets) == ids
  {
    if ids != [] {
      AllPresent(ids[..|ids| - 1], targets);
    }
  }

  /** The server's page: the ids without a target are skipped, and the next cursor is the
      last that is not. */
  function BrowsePage(ids: seq<string>, targets: set<string>, cursor: string, limit: nat): Page
    requires limit >= 1
  {
    var page := PageAfter(ids, cursor, limit);
    var items := Present(page.items, targets);
    Page(items, if page.hasMore && items != [] then items[|items| - 1] else "", page.hasMore)
  }

  /** When every id is a target it is just the page. */
  lemma BrowsePageIsPage(ids: seq<string>, targets: set<string>, cursor: string, limit: nat)
    requires limit >= 1 && forall i | 0 <= i < |ids| :: ids[i] in targets
    ensures BrowsePage(ids, targets, cursor, limit) == PageAfter(ids, cursor, limit)
  {
    var rest := After(ids, cursor);
    var from := StartOfRest(ids, cursor);
    forall i | 0 <= i < |rest| ensures rest[i] in targets {
      assert rest[i] == ids[from + i];
    }
    AllPresent(PageAfter(ids, cursor, limit).items, targets);
  }

  // ----- following the server's cursors -----

  lemma {:induction false} PresentConcat(a: seq<string>, b: seq<string>, targets: set<string>)
    ensures Present(a + b, targets) == Present(a, targets) + Present(b, targets)
    decreases |b|
  {
    if b == [] {
      assert a + b == a;
    } else {
      assert (a + b)[..|a + b| - 1] == a + b[..|b| - 1];
      PresentConcat(a, b[..|b| - 1], targets);
    }
  }

  lemma {:induction false} NonePresentIff(ids: seq<string>, targets: set<string>)
    ensures Present(ids, targets) == [] <==> forall i | 0 <= i < |ids| :: ids[i] !in targets
  {
    if ids != [] {
      var n := |ids| - 1;
      NonePresentIff(ids[..n], targets);
      assert (forall i | 0 <= i < |ids| :: ids[i] !in targets) ==> ids[n] !in targets;
    }
  }

  /** The present ids are listed in order. */
  lemma {:induction false} PresentLists(ids: seq<string>, found: set<string>, targets: set<string>)
    requires Lists(ids, found)
    ensures Lists(Present(ids, targets), found * targets)
    decreases |ids|
  {
    if ids != [] {
      var n := |ids| - 1;
      var front, last := ids[..n], ids[n];
      assert ids == front + [last];
      forall x ensures x in front <==> x in found - {last} {
        if x in front {
          var i :| 0 <= i < n && ids[i] == x;
          assert StrLess(ids[i], ids[n]);
        }
      }
      PresentLists(front, found - {last}, targets);
      PresentSnoc(front, last, found - {last}, targets);
      assert found == found - {last} + {last};
    }
  }

  lemma PresentSnoc(front: seq<string>, last: string, m: set<string>, targets: set<string>)
    requires Lists(front, m) && Lists(Present(front, targets), m * targets) && Ascending(front + [last])
    ensures Lists(Present(front + [last], targets), (m + {last}) * targets)
  {
    var p := Present(front, targets);
    assert (front + [last])[..|front|] == front;
    forall i | 0 <= i < |p| ensures StrLess(p[i], last) {
      assert p[i] in p && p[i] in front;
      var j :| 0 <= j < |front| && front[j] == p[i];
      assert (front + [last])[j] == front[j] && (front + [last])[|front|] == last;
    }
  }

  /** Where the last present id stands. */
  lemma {:induction false} LastPresent(ids: seq<string>, targets: set<string>) returns (j: nat)
    requires Present(ids, targets) != []
    ensures j < |ids| && ids[j] in targets && forall k | j < k < |ids| :: ids[k] !in targets
    ensures Present(ids[..j + 1], targets) == Present(ids, targets)
    ensures Present(ids, targets)[|Present(ids, targets)| - 1] == ids[j]
  {
    var n := |ids| - 1;
    if ids[n] in targets {
      j := n;
      assert ids[..n + 1] == ids;
    } else {
      j := LastPresent(ids[..n], targets);
      assert ids[..n][..j + 1] == ids[..j + 1];
    }
  }

  /** No cursor to go on from: the id is empty, or there is no such target. */
  predicate Blank(id: string, targets: set<string>) {
    id == "" || id !in targets
  }

  /** A page's worth of blanks with a target somewhere behind. */
  ghost predicate Gap(ids: seq<string>, targets: set<string>, limit: nat, i: nat, x: nat) {
    i + limit <= x < |ids| && ids[x] in targets && forall k | i <= k < i + limit :: Blank(ids[k], targets)
  }

  ghost predicate NoGap(ids: seq<string>, targets: set<string>, limit: nat) {
    forall i: nat, x: nat :: !Gap(ids, targets, limit, i, x)
  }

  /** What comes after a page's last target has a gap exactly if the whole has. */
  lemma GapBehind(ids: seq<string>, targets: set<string>, limit: nat, j: nat)
    requires j < limit <= |ids| && !Blank(ids[j], targets)
    ensures NoGap(ids, targets, limit) <==> NoGap(ids[j + 1..], targets, limit)
  {
    var tail := ids[j + 1..];
    if i: nat, x: nat :| Gap(ids, targets, limit, i, x) {
      assert !(i <= j < i + limit);
      forall k | i - j - 1 <= k < i - j - 1 + limit ensures Blank(tail[k], targets) {
        assert Blank(ids[k + j + 1], targets);
      }
      assert Gap(tail, targets, limit, i - j - 1, x - j - 1);
    }
    if i: nat, x: nat :| Gap(tail, targets, limit, i, x) {
      forall k | i + j + 1 <= k < i + j + 1 + limit ensures Blank(ids[k], targets) {
        assert Blank(tail[k - j - 1], targets);
      }
      assert Gap(ids, targets, limit, i + j + 1, x + j + 1);
    }
  }

  /** The server's pages, one after the other, until no next cursor is given. */
  function FollowBrowse(ids: seq<string>, targets: set<string>, cursor: string, limit: nat): seq<string>
    requires limit >= 1 && Ascending(ids)
    decreases |After(ids, cursor)|
  {
    var page := BrowsePage(ids, targets, cursor, limit);
    if page.next == "" then page.items
    else
      BrowseGoesOn(ids, targets, cursor, limit);
      page.items + FollowBrowse(ids, targets, page.next, limit)
  }

  /** The next cursor is the page's last target; what is left is all behind it. */
  lemma BrowseNext(ids: seq<string>, targets: set<string>, cursor: string, limit: nat) returns (j: nat)
    requires limit >= 1 && Ascending(ids) && BrowsePage(ids, targets, cursor, limit).next != ""
    ensures var page := BrowsePage(ids, targets, cursor, limit);
            var rest := After(ids, cursor);
            && j < limit < |rest| && rest[j] == page.next && !Blank(rest[j], targets)
            && After(ids, page.next) == rest[j + 1..]
            && page.items == Present(rest[..j + 1], targets)
  {
    var rest := After(ids, cursor);
    j := LastPresent(rest[..limit], targets);
    assert rest[..limit][..j + 1] == rest[..j + 1];
    RestBehind(ids, cursor, j);
  }

  /** Behind an id of what is left comes just the rest of it. */
  lemma RestBehind(ids: seq<string>, cursor: string, j: nat)
    requires Ascending(ids) && j < |After(ids, cursor)| && After(ids, cursor)[j] != ""
    ensures After(ids, After(ids, cursor)[j]) == After(ids, cursor)[j + 1..]
  {
    var from := StartOfRest(ids, cursor);
    hide *;
    SliceOfSlice(ids, from, j);
    AfterMember(ids, from + j);
  }

  lemma SliceOfSlice(ids: seq<string>, from: nat, j: nat)
    requires from + j < |ids|
    ensures ids[from..][j] == ids[from + j] && ids[from..][j + 1..] == ids[from + j + 1..]
  {
  }

  lemma BrowseGoesOn(ids: seq<string>, targets: set<string>, cursor: string, limit: nat)
    requires limit >= 1 && Ascending(ids) && BrowsePage(ids, targets, cursor, limit).next != ""
    ensures |After(ids, BrowsePage(ids, targets, cursor, limit).next)| < |After(ids, cursor)|
  {
    var _ := BrowseNext(ids, targets, cursor, limit);
  }

  /** A full page without a next cursor has blanks only. */
  lemma StuckOnBlanks(ids: seq<string>, targets: set<string>, cursor: string, limit: nat, k: nat)
    requires limit >= 1 && Ascending(ids) && k < limit
    requires BrowsePage(ids, targets, cursor, limit).hasMore && BrowsePage(ids, targets, cursor, limit).next == ""
    ensures Blank(After(ids, cursor)[k], targets)
  {
    var rest := After(ids, cursor);
    var from := StartOfRest(ids, cursor);
    RestAscends(ids, from, limit);
    BlankPage(rest[..limit], targets, k);
  }

  lemma RestAscends(ids: seq<string>, from: nat, limit: nat)
    requires Ascending(ids) && from + limit <= |ids|
    ensures Ascending(ids[from..][..limit])
  {
  }

  /** Nothing is present, or only the empty id. */
  lemma BlankPage(page: seq<string>, targets: set<string>, k: nat)
    requires Ascending(page) && k < |page|
    requires var items := Present(page, targets); items == [] || items[|items| - 1] == ""
    ensures Blank(page[k], targets)
  {
    if Present(page, targets) == [] {
      NonePresentIff(page, targets);
    } else {
      var j := LastPresent(page, targets);
      hide Present, Ascending;
      EmptyIsFirst(page, j);
    }
  }

  lemma {:induction false} FollowBrowseIff(ids: seq<string>, targets: set<string>, cursor: string, limit: nat)
    requires limit >= 1 && Ascending(ids)
    ensures var rest := After(ids, cursor);
            FollowBrowse(ids, targets, cursor, limit) == Present(rest, targets) <==> NoGap(rest, targets, limit)
    decreases |After(ids, cursor)|
  {
    hide After, Ascending, NoGap, Blank, Present, BrowsePage;
    var page := BrowsePage(ids, targets, cursor, limit);
    if page.next == "" {
      LastPageIff(ids, targets, cursor, limit);
      return;
    }
    var j := BrowseNext(ids, targets, cursor, limit);
    FollowBrowseIff(ids, targets, page.next, limit);
    ContinuedIff(After(ids, cursor), targets, limit, j, FollowBrowse(ids, targets, page.next, limit));
  }

  lemma ContinuedIff(rest: seq<string>, targets: set<string>, limit: nat, j: nat, more: seq<string>)
    requires j < limit <= |rest| && !Blank(rest[j], targets)
    requires more == Present(rest[j + 1..], targets) <==> NoGap(rest[j + 1..], targets, limit)
    ensures Present(rest[..j + 1], targets) + more == Present(rest, targets) <==> NoGap(rest, targets, limit)
  {
    hide *;
    GapBehind(rest, targets, limit, j);
    CutPresent(rest, targets, j + 1);
    SameFront(Present(rest[..j + 1], targets), more, Present(rest[j + 1..], targets));
  }

  lemma CutPresent(ids: seq<string>, targets: set<string>, j: nat)
    requires j <= |ids|
    ensures Present(ids, targets) == Present(ids[..j], targets) + Present(ids[j..], targets)
  {
    PresentConcat(ids[..j], ids[j..], targets);
    assert ids[..j] + ids[j..] == ids;
  }

  lemma SameFront(a: seq<string>, b: seq<string>, c: seq<string>)
    ensures a + b == a + c <==> b == c
  {
    assert b == (a + b)[|a|..] && c == (a + c)[|a|..];
  }

  lemma LastPageIff(ids: seq<string>, targets: set<string>, cursor: string, limit: nat)
    requires limit >= 1 && Ascending(ids) && BrowsePage(ids, targets, cursor, limit).next == ""
    ensures var rest := After(ids, cursor);
            BrowsePage(ids, targets, cursor, limit).items == Present(rest, targets) <==> NoGap(rest, targets, limit)
  {
    if BrowsePage(ids, targets, cursor, limit).hasMore {
      StuckIff(ids, targets, cursor, limit);
    }
  }

  lemma StuckIff(ids: seq<string>, targets: set<string>, cursor: string, limit: nat)
    requires limit >= 1 && Ascending(ids)
    requires BrowsePage(ids, targets, cursor, limit).hasMore && BrowsePage(ids, targets, cursor, limit).next == ""
    ensures var rest := After(ids, cursor);
            BrowsePage(ids, targets, cursor, limit).items == Present(rest, targets) <==> NoGap(rest, targets, limit)
  {
    var rest := After(ids, cursor);
    var behind := rest[limit..];
    CutPresent(rest, targets, limit);
    NonePresentIff(behind, targets);
    forall k: nat | k < limit ensures Blank(rest[k], targets) {
      StuckOnBlanks(ids, targets, cursor, limit, k);
    }
    if x: nat :| x < |behind| && behind[x] in targets {
      assert Gap(rest, targets, limit, 0, limit + x);
    } else {
      forall i: nat, x: nat ensures !Gap(rest, targets, limit, i, x) {
        assert limit <= x < |rest| ==> rest[x] == behind[x - limit];
      }
    }
  }

  /** Following the server's cursors from the start lists exactly the targets among the
      ids found, in ascending order, if and only if the sorted ids have no gap: no page's
      worth of ids in a row that are empty or no targets, with a target behind. */
  lemma BrowseListsAllIff(ids: seq<string>, found: set<string>, targets: set<string>, limit: nat)
    requires limit >= 1 && Lists(ids, found)
    ensures Lists(FollowBrowse(ids, targets, "", limit), found * targets) <==> NoGap(ids, targets, limit)
  {
    FollowBrowseIff(ids, targets, "", limit);
    PresentLists(ids, found, targets);
    var followed := FollowBrowse(ids, targets, "", limit);
    hide FollowBrowse, Present, NoGap;
    if Lists(followed, found * targets) {
      ListingUnique(followed, Present(ids, targets), found * targets);
    }
  }

  /** `found` are the ids the filter selects. */
  method BrowseTargetList(found: set<string>, targets: set<string>, cursor: string, limit: nat)
    returns (page: Page, total: nat, ghost ids: seq<string>)
    requires limit >= 1
    ensures Lists(ids, found) && total == |found|
    ensures page == BrowsePage(ids, targets, cursor, limit)
    ensures found <= targets ==> page == PageAfter(ids, cursor, limit)
  {
    var targetIDs := Slice(found);
    targetIDs := SortStrings(targetIDs);
    SortedSetLists(targetIDs, found);
    ids := targetIDs;
    total := |targetIDs|;
    ListingSize(ids, found);
    if found <= targets {
      forall i | 0 <= i < |ids| ensures ids[i] in targets {
        assert ids[i] in ids;
      }
      BrowsePageIsPage(ids, targets, cursor, limit);
    }
    page := PageOf(targetIDs, targets, cursor, limit);
  }

  /** The page of the sorted ids. */
  method PageOf(ids: seq<string>, targets: set<string>, cursor: string, limit: nat) returns (page: Page)
    requires limit >= 1 && Ascending(ids)
    ensures page == BrowsePage(ids, targets, cursor, limit)
  {
    hide Ascending, StrLeq, After, Present;
    var targetIDs := Remaining(ids, cursor);
    var hasMore := |targetIDs| > limit;
    if hasMore {
      targetIDs := targetIDs[..limit];
    }
    var nodes, last := Nodes(targetIDs, targets);
    page := Page(nodes, if hasMore then last else "", hasMore);
  }

  /** What is left after the cursor; none of it makes an empty page. */
  method Remaining(ids: seq<string>, cursor: string) returns (rest: seq<string>)
    requires Ascending(ids)
    ensures rest == After(ids, cursor)
  {
    if cursor == "" {
      return ids;
    }
    var idx := SearchStrings(ids, cursor);
    if idx < |ids| && ids[idx] == cursor {
      idx := idx + 1;
    }
    if idx >= |ids| {
      return [];
    }
    return ids[idx..];
  }

  /** Building the nodes; ids that are not targets are skipped. */
  method Nodes(ids: seq<string>, targets: set<string>) returns (nodes: seq<string>, last: string)
    ensures nodes == Present(ids, targets)
    ensures last == if nodes == [] then "" else nodes[|nodes| - 1]
  {
    nodes, last := [], "";
    for k := 0 to |ids|
      invariant nodes == Present(ids[..k], targets)
      invariant last == if nodes == [] then "" else nodes[|nodes| - 1]
    {
      var id := ids[k];
      assert ids[..k + 1][..k] == ids[..k];
      if id !in targets {
        continue;
      }
      nodes := nodes + [id];
      last := id;
    }
    assert ids[..|ids|] == ids;
  }

  // ----- the store's list -----

  /** The rows that the query returns: names in ascending order, after the cursor, at
      most limit + 1 of them if there is a limit. */
  function Selected(names: seq<string>, cursor: string, limit: int): seq<string> {
    var rest := After(names, cursor);
    if limit > 0 && |rest| > limit + 1 then rest[..limit + 1] else rest
  }

  /** ListTargetsFiltered: `names` are those of the namespace's targets that match. */
  method ListTargetsFiltered(names: seq<string>, limit: int, cursor: string)
    returns (targets: seq<string>, nextCursor: string)
    requires Ascending(names)
    ensures limit > 0 ==>
              && targets == PageAfter(names, cursor, limit).items
              && nextCursor == PageAfter(names, cursor, limit).next
    ensures limit <= 0 ==> targets == After(names, cursor) && nextCursor == ""
  {
    hide After, Ascending;
    var rows := Selected(names, cursor, limit);
    targets := [];
    for i := 0 to |rows|
      invariant targets == rows[..i]
    {
      targets := targets + [rows[i]];
    }
    nextCursor := "";
    if limit > 0 && |targets| > limit {
      targets := targets[..limit];
      nextCursor := targets[|targets| - 1];
    }
  }
}
