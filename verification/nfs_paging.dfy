// Directory listing in pages (READDIR, section 3.3.16 of RFC 1813): each call names the file id of
// the last entry already seen.
module NfsPaging {
  import opened Common

  datatype Entry = Entry(fileid: nat, name: string)
  datatype Page = Page(entries: seq<Entry>, end: bool)

  // The position behind the first entry with this id; the end when there is none.
  function Behind(entries: seq<Entry>, id: nat): (p: nat)
    ensures p <= |entries|
  {
    if entries == [] then 0
    else if entries[0].fileid == id then 1
    else 1 + Behind(entries[1..], id)
  }

  function StartOf(entries: seq<Entry>, startAfter: nat): (p: nat)
    ensures p <= |entries|
  {
    if startAfter > 0 then Behind(entries, startAfter) else 0
  }

  function PageFrom(entries: seq<Entry>, start: nat, max: nat): Page
    requires start <= |entries|
  {
    Page(entries[start..Min(start + max, |entries|)], start + max >= |entries|)
  }

  // The loop of readdir.
  method Readdir(entries: seq<Entry>, startAfter: nat, max: nat) returns (r: Page)
    ensures r == PageFrom(entries, StartOf(entries, startAfter), max)
  {
    ghost var start := StartOf(entries, startAfter);
    var page := [];
    var skip := startAfter > 0;
    var skipped := 0;
    var i := 0;
    while i < |entries|
      invariant 0 <= i <= |entries|
      invariant skip ==> startAfter > 0 && skipped == i && page == [] && start == i + Behind(entries[i..], startAfter)
      invariant !skip ==> skipped == start <= i && page == entries[start..i] && |page| <= max
    {
      var e := entries[i];
      if skip {
        assert entries[i..][1..] == entries[i + 1..];
        if e.fileid == startAfter { skip := false; }
        skipped := skipped + 1;
      } else {
        if |page| >= max { break; }
        page := page + [e];
      }
      i := i + 1;
    }
    assert skip ==> start == |entries|;
    return Page(page, |page| + skipped >= |entries|);
  }

  // ---- Positions ----

  predicate FirstWithId(entries: seq<Entry>, j: nat) {
    j < |entries| && forall i :: 0 <= i < j ==> entries[i].fileid != entries[j].fileid
  }

  // The next page starts right behind entry j exactly when j is the first entry with its id;
  // otherwise it starts earlier.
  lemma {:induction false} BehindExactly(entries: seq<Entry>, j: nat)
    requires j < |entries|
    ensures Behind(entries, entries[j].fileid) <= j + 1
    ensures Behind(entries, entries[j].fileid) == j + 1 <==> FirstWithId(entries, j)
    decreases |entries|
  {
    var id := entries[j].fileid;
    if entries[0].fileid != id {
      var rest := entries[1..];
      assert rest[j - 1] == entries[j];
      BehindExactly(rest, j - 1);
      assert forall i :: 0 <= i < |rest| ==> rest[i] == entries[i + 1];
      if FirstWithId(rest, j - 1) {
        assert forall i :: 0 <= i < j ==> i == 0 || entries[i] == rest[i - 1];
      }
    }
  }

  lemma {:induction false} BehindMissing(entries: seq<Entry>, id: nat)
    requires forall e :: e in entries ==> e.fileid != id
    ensures Behind(entries, id) == |entries|
  {
    if entries != [] {
      assert entries[0] in entries;
      BehindMissing(entries[1..], id);
    }
  }

  // When the entry a client stopped at is gone, the listing ends there and then.
  lemma StaleCookieEndsListing(entries: seq<Entry>, id: nat, max: nat)
    requires id > 0 && forall e :: e in entries ==> e.fileid != id
    ensures PageFrom(entries, StartOf(entries, id), max) == Page([], true)
  {
    BehindMissing(entries, id);
  }

  // ---- A whole listing ----

  // The client's pages: each call passes the last id of the page before, until the end is reported.
  function PageAt(entries: seq<Entry>, max: nat, k: nat): Page {
    if k == 0 then PageFrom(entries, 0, max) else PageBehind(entries, max, PageAt(entries, max, k - 1))
  }

  function PageBehind(entries: seq<Entry>, max: nat, prev: Page): Page {
    if prev.end || prev.entries == [] then prev
    else PageFrom(entries, StartOf(entries, prev.entries[|prev.entries| - 1].fileid), max)
  }

  // Where page k should start: at k * max.
  function PageStart(max: nat, k: nat): nat {
    if k == 0 then 0 else PageStart(max, k - 1) + max
  }

  lemma {:induction false} PageStartIsProduct(max: nat, k: nat)
    ensures PageStart(max, k) == k * max
  {
    if k > 0 {
      PageStartIsProduct(max, k - 1);
      assert (k - 1) * max + max == k * max;
    }
  }

  lemma {:induction false} PageStartGrows(max: nat, i: nat, k: nat)
    requires i <= k
    ensures PageStart(max, i) <= PageStart(max, k) && (max >= 1 ==> k <= PageStart(max, k))
  {
    if k > 0 { PageStartGrows(max, if i < k then i else k - 1, k - 1); }
  }

  // The page numbers of a listing: an empty directory has one page.
  predicate IsPage(n: nat, max: nat, k: nat) { k == 0 || PageStart(max, k) < n }

  // Page k is the k-th slice, and the last one and no other reports the end.
  predicate RightPage(entries: seq<Entry>, max: nat, k: nat) {
    && PageStart(max, k) <= |entries|
    && PageAt(entries, max, k) == PageFrom(entries, PageStart(max, k), max)
  }

  predicate ListsAll(entries: seq<Entry>, max: nat) {
    forall k: nat | k <= |entries| && IsPage(|entries|, max, k) :: RightPage(entries, max, k)
  }

  // The entry before a page boundary can serve as a cookie.
  predicate GoodCookie(entries: seq<Entry>, j: nat) {
    FirstWithId(entries, j) && entries[j].fileid > 0
  }

  predicate GoodBoundary(entries: seq<Entry>, max: nat, k: nat) {
    1 <= k && 1 <= PageStart(max, k) && GoodCookie(entries, PageStart(max, k) - 1)
  }

  predicate GoodBoundaries(entries: seq<Entry>, max: nat) {
    forall k: nat | 1 <= k <= |entries| && IsPage(|entries|, max, k) :: GoodBoundary(entries, max, k)
  }

  lemma PageNumbers(n: nat, max: nat, k: nat)
    requires max >= 1 && k >= 1 && IsPage(n, max, k)
    ensures k <= n && PageStart(max, k - 1) + max == PageStart(max, k) < n && IsPage(n, max, k - 1)
  {
    PageStartGrows(max, k, k);
  }

  // The page a client gets that names entry j as the last one it saw.
  function PageAfter(entries: seq<Entry>, max: nat, j: nat): Page
    requires j < |entries|
  {
    PageFrom(entries, StartOf(entries, entries[j].fileid), max)
  }

  lemma PageBehindSlice(entries: seq<Entry>, max: nat, a: nat)
    requires max >= 1 && a + max < |entries|
    ensures PageBehind(entries, max, PageFrom(entries, a, max)) == PageAfter(entries, max, a + max - 1)
  {
    var prev := PageFrom(entries, a, max);
    assert prev.entries[|prev.entries| - 1] == entries[a + max - 1];
  }

  lemma {:induction false} NextPage(entries: seq<Entry>, max: nat, k: nat)
    requires max >= 1 && k >= 1 && IsPage(|entries|, max, k) && RightPage(entries, max, k - 1)
    ensures 1 <= PageStart(max, k) < |entries|
    ensures PageAt(entries, max, k) == PageAfter(entries, max, PageStart(max, k) - 1)
  {
    PageNumbers(|entries|, max, k);
    var a := PageStart(max, k - 1);
    PageBehindSlice(entries, max, a);
    assert PageAt(entries, max, k) == PageBehind(entries, max, PageAt(entries, max, k - 1));
    assert PageStart(max, k) - 1 == a + max - 1;
  }

  lemma CookieExactly(entries: seq<Entry>, j: nat)
    requires j < |entries|
    ensures StartOf(entries, entries[j].fileid) <= j + 1
    ensures StartOf(entries, entries[j].fileid) == j + 1 <==> GoodCookie(entries, j)
  {
    BehindExactly(entries, j);
  }

  lemma {:induction false} GoodPages(entries: seq<Entry>, max: nat, k: nat)
    requires max >= 1 && IsPage(|entries|, max, k) && GoodBoundaries(entries, max)
    ensures RightPage(entries, max, k)
  {
    if k > 0 {
      PageNumbers(|entries|, max, k);
      GoodPages(entries, max, k - 1);
      NextPage(entries, max, k);
      assert GoodBoundary(entries, max, k);
      CookieExactly(entries, PageStart(max, k) - 1);
    }
  }

  predicate DistinctNames(entries: seq<Entry>) {
    forall i, j :: 0 <= i < j < |entries| ==> entries[i].name != entries[j].name
  }

  lemma {:induction false} RightPageNeedsBoundary(entries: seq<Entry>, max: nat, k: nat)
    requires max >= 1 && k >= 1 && IsPage(|entries|, max, k) && DistinctNames(entries)
    requires 1 <= PageStart(max, k) < |entries| && RightPage(entries, max, k - 1) && RightPage(entries, max, k)
    ensures GoodBoundary(entries, max, k)
  {
    var j: nat := PageStart(max, k) - 1;
    assert PageAfter(entries, max, j) == PageFrom(entries, j + 1, max) by { NextPage(entries, max, k); }
    RightSliceNeedsCookie(entries, max, j);
  }

  lemma RightSliceNeedsCookie(entries: seq<Entry>, max: nat, j: nat)
    requires max >= 1 && j + 1 < |entries| && DistinctNames(entries)
    requires PageAfter(entries, max, j) == PageFrom(entries, j + 1, max)
    ensures GoodCookie(entries, j)
  {
    CookieExactly(entries, j);
    SameStart(entries, StartOf(entries, entries[j].fileid), j + 1, max);
  }

  lemma SameStart(entries: seq<Entry>, p: nat, q: nat, max: nat)
    requires max >= 1 && p <= q < |entries| && DistinctNames(entries)
    requires PageFrom(entries, p, max) == PageFrom(entries, q, max)
    ensures p == q
  {
    assert PageFrom(entries, p, max).entries[0] == entries[p];
    assert PageFrom(entries, q, max).entries[0] == entries[q];
  }

  // A listing in pages of max gives the k-th slice as its k-th page, and reports the end on the last
  // page and only there, exactly when every entry at a page boundary is the first with its id and
  // that id is not zero.
  lemma ListsAllExactly(entries: seq<Entry>, max: nat)
    requires max >= 1 && DistinctNames(entries)
    ensures ListsAll(entries, max) <==> GoodBoundaries(entries, max)
  {
    if GoodBoundaries(entries, max) {
      forall k: nat | k <= |entries| && IsPage(|entries|, max, k) ensures RightPage(entries, max, k) {
        GoodPages(entries, max, k);
      }
    }
    if ListsAll(entries, max) {
      forall k: nat | 1 <= k <= |entries| && IsPage(|entries|, max, k) ensures GoodBoundary(entries, max, k) {
        PageNumbers(|entries|, max, k);
        PageStartGrows(max, k, k);
        RightPageNeedsBoundary(entries, max, k);
      }
    }
  }

  predicate DistinctIds(entries: seq<Entry>) {
    && (forall i :: 0 <= i < |entries| ==> entries[i].fileid > 0)
    && (forall i, j :: 0 <= i < j < |entries| ==> entries[i].fileid != entries[j].fileid)
  }

  // What the client has gathered after k pages.
  function Gathered(entries: seq<Entry>, max: nat, k: nat): seq<Entry> {
    if k == 0 then [] else Gathered(entries, max, k - 1) + PageAt(entries, max, k - 1).entries
  }

  lemma JoinPage(entries: seq<Entry>, a: nat, max: nat)
    requires a <= |entries|
    ensures entries[..Min(a, |entries|)] + PageFrom(entries, a, max).entries == entries[..Min(a + max, |entries|)]
  {
  }

  lemma {:induction false} GatheredIsPrefix(entries: seq<Entry>, max: nat, k: nat)
    requires max >= 1 && GoodBoundaries(entries, max) && (k == 0 || IsPage(|entries|, max, k - 1))
    ensures Gathered(entries, max, k) == entries[..Min(PageStart(max, k), |entries|)]
  {
    if k > 0 {
      if k > 1 { PageNumbers(|entries|, max, k - 1); }
      GatheredIsPrefix(entries, max, k - 1);
      GoodPages(entries, max, k - 1);
      JoinPage(entries, PageStart(max, k - 1), max);
    }
  }

  function LastPage(n: nat, max: nat): (k: nat)
    requires max >= 1
    ensures IsPage(n, max, k) && PageStart(max, k + 1) >= n
  {
    if n == 0 then 0 else LastPageBounds(n, max); (n - 1) / max
  }

  lemma LastPageBounds(n: nat, max: nat)
    requires n >= 1 && max >= 1
    ensures PageStart(max, (n - 1) / max) < n <= PageStart(max, (n - 1) / max + 1)
  {
    var q := (n - 1) / max;
    PageStartIsProduct(max, q);
    assert n - 1 == q * max + (n - 1) % max;
  }

  // Over a directory whose ids are distinct and not zero, for every page size: the pages together
  // are the directory, each entry once and in order, and the end is reported on the last page only.
  lemma ListingIsComplete(entries: seq<Entry>, max: nat)
    requires max >= 1 && DistinctIds(entries)
    ensures var last := LastPage(|entries|, max);
      && Gathered(entries, max, last + 1) == entries
      && PageAt(entries, max, last).end
      && forall k: nat | k < last :: !PageAt(entries, max, k).end && |PageAt(entries, max, k).entries| == max
  {
    var last := LastPage(|entries|, max);
    forall k: nat | 1 <= k <= |entries| && IsPage(|entries|, max, k) ensures GoodBoundary(entries, max, k) {
      PageNumbers(|entries|, max, k);
    }
    GatheredIsPrefix(entries, max, last + 1);
    GoodPages(entries, max, last);
    forall k: nat | k < last ensures !PageAt(entries, max, k).end && |PageAt(entries, max, k).entries| == max {
      FullPage(entries, max, k, last);
    }
  }

  lemma FullPage(entries: seq<Entry>, max: nat, k: nat, last: nat)
    requires max >= 1 && GoodBoundaries(entries, max) && k < last && IsPage(|entries|, max, last)
    ensures !PageAt(entries, max, k).end && |PageAt(entries, max, k).entries| == max
  {
    PageStartGrows(max, k + 1, last);
    GoodPages(entries, max, k);
  }

  function Doubled(a: nat, b: nat, c: nat): seq<Entry> {
    [Entry(a, "x"), Entry(b, "y"), Entry(a, "z"), Entry(c, "w")]
  }

  lemma DoubledPages(a: nat, b: nat, c: nat)
    requires a > 0 && b > 0 && a != b
    ensures var d := Doubled(a, b, c);
      && PageAfter(d, 1, 0) == Page([d[1]], false) == PageAfter(d, 1, 2)
      && PageAfter(d, 1, 1) == Page([d[2]], false)
      && PageFrom(d, 0, 1) == Page([d[0]], false)
  {
    var d := Doubled(a, b, c);
    BehindExactly(d, 0);
    BehindExactly(d, 1);
  }

  // Two names of one file in a directory: in pages of one entry, the listing goes between its second
  // and third page for ever, and the fourth entry is never listed.
  lemma {:induction false} LinkedTwiceLoops(a: nat, b: nat, c: nat, k: nat)
    requires a > 0 && b > 0 && a != b && k >= 1
    ensures var d := Doubled(a, b, c);
      PageAt(d, 1, k) == Page([d[1]], false) || PageAt(d, 1, k) == Page([d[2]], false)
  {
    var d := Doubled(a, b, c);
    DoubledPages(a, b, c);
    if k > 1 { LinkedTwiceLoops(a, b, c, k - 1); }
    assert PageAt(d, 1, k) == PageBehind(d, 1, PageAt(d, 1, k - 1));
  }
}
