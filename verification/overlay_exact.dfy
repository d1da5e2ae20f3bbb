// When each overlay call succeeds and what it leaves when it fails, told from the layers before
// the call.
module OverlayExact {
  import opened Common
  import opened Paths
  import opened ChunkStore
  import opened Tables
  import opened Resolution
  import NS = Namespace
  import opened PlainView
  import opened Overlay
  import opened OverlayLaws

  // ---- Removing one whiteout ----

  // Removing the whiteout of x shows what the base has there: nothing above x hides it.
  predicate Reveals(o: Layers, x: Components) {
    x != [] && x in o.whiteouts && x in o.base && !IsWhiteout(o.whiteouts, Up(x))
  }

  lemma UncoverShows(o: Layers, x: Components, q: Components)
    requires Inv(o) && x != []
    ensures Shown(RemoveWhiteout(o, x), q) == if q == x && Reveals(o, x) then Some(o.base[x]) else Shown(o, q)
  {
    if q != x {
      UncoverOther(o, x, q);
    } else if x in o.whiteouts {
      SameAbove(o.whiteouts, x);
    } else {
      assert o.whiteouts - {x} == o.whiteouts;
    }
  }

  // Whiteouts at x say nothing about the ancestors of x.
  lemma SameAbove(whiteouts: set<Components>, x: Components)
    requires x != []
    ensures IsWhiteout(whiteouts - {x}, Up(x)) == IsWhiteout(whiteouts, Up(x))
  {
    ApartWhiteouts(whiteouts, x, Up(x));
  }

  // The closure survives exactly when the directory around x is shown.
  lemma UncoverKeepsExactly(o: Layers, x: Components)
    requires Inv(o) && x != []
    ensures Inv(RemoveWhiteout(o, x)) <==> (x in o.whiteouts ==> Shown(o, Up(x)) == Some(Dir))
  {
    var o1 := RemoveWhiteout(o, x);
    if x !in o.whiteouts {
      assert o.whiteouts - {x} == o.whiteouts;
    } else if Shown(o, Up(x)) == Some(Dir) {
      UncoverLaw(o, x);
    } else {
      assert BasePathValid(o.base, x);
      assert !ChildrenCovered(o1, Up(x));
      if IsWhiteout(o.whiteouts, Up(x)) {
        CoveredBelow(o, Up(x));
        assert Up(x) in o1.whiteouts;
      } else {
        assert FileInDelta(o1, Up(x));
      }
    }
  }

  // Nothing is shown anew and the closure stays exactly when there was no whiteout.
  lemma UncoverHarmlessExactly(o: Layers, x: Components)
    requires Inv(o) && x != []
    ensures var o1 := RemoveWhiteout(o, x);
      Inv(o1) && Shown(o1, x) == Shown(o, x) <==> x !in o.whiteouts
  {
    UncoverShows(o, x, x);
    UncoverKeepsExactly(o, x);
    if x in o.whiteouts && Shown(o, Up(x)) == Some(Dir) {
      UncoverLaw(o, x);
    }
  }

  // ---- Mkdir ----

  // A failing Mkdir has removed the whiteout of its path and done nothing else. What is shown is as
  // before exactly when that revealed nothing; with the closure it is so exactly when there was no
  // whiteout.
  lemma FailedMkdirExactly(o: Layers, p: Components, mode: int)
    requires Inv(o) && Clean(p) && p != [] && Mkdir(o, p, mode).1.Failed?
    ensures var o1 := Mkdir(o, p, mode).0;
      && o1 == RemoveWhiteout(o, p)
      && (forall q :: Shown(o1, q) == if q == p && Reveals(o, p) then Some(o.base[p]) else Shown(o, q))
      && ((forall q :: Shown(o1, q) == Shown(o, q)) <==> !Reveals(o, p))
      && (Inv(o1) && (forall q :: Shown(o1, q) == Shown(o, q)) <==> p !in o.whiteouts)
  {
    MkdirLaw(o.delta, p, mode);
    var o1 := Mkdir(o, p, mode).0;
    assert o1 == RemoveWhiteout(o, p);
    forall q
      ensures Shown(o1, q) == if q == p && Reveals(o, p) then Some(o.base[p]) else Shown(o, q)
    {
      UncoverShows(o, p, q);
    }
    UncoverHarmlessExactly(o, p);
    WhiteoutExists(o.whiteouts, p);
    assert Reveals(o, p) ==> Shown(o, p).None?;
  }

  // On a fresh mount: unlink a base file in a base directory, then mkdir its path. The call fails
  // and the file is back.
  lemma UnlinkThenMkdirBringsBack(base: map<Components, Node>, chunkSize: Positive, mode: int, p: Components)
    requires BaseValid(base) && |p| >= 2 && p in base && base[p].File?
    ensures var o := Layers(base, Initial(chunkSize, mode), {});
      var gone := Unlink(o, p);
      var back := Mkdir(gone.0, p, mode);
      && gone.1.Done? && Shown(gone.0, p).None?
      && back.1.Failed? && Shown(back.0, p) == Some(base[p])
  {
    var o := Layers(base, Initial(chunkSize, mode), {});
    FreshMount(base, chunkSize, mode);
    assert BasePathValid(base, p);
    UnlinkLawful(o, p);
    var gone := Unlink(o, p).0;
    FreshUnlink(o, p);
    WhiteoutExists({p}, Up(p));
    MkdirLawful(gone, p, mode);
    FailedMkdirExactly(gone, p, mode);
  }

  lemma FreshMount(base: map<Components, Node>, chunkSize: Positive, mode: int)
    requires BaseValid(base)
    ensures var o := Layers(base, Initial(chunkSize, mode), {});
      && Inv(o) && (forall p :: View(o.delta, p) == if p == [] then Some(Dir) else None)
      && forall p :: Shown(o, p) == if p in base then Some(base[p]) else None
  {
    InitialValid(chunkSize, mode);
    var o := Layers(base, Initial(chunkSize, mode), {});
    forall p
      ensures View(o.delta, p) == if p == [] then Some(Dir) else None
      ensures Shown(o, p) == if p in base then Some(base[p]) else None
    {
      WhiteoutExists({}, p);
    }
  }

  lemma FreshUnlink(o: Layers, p: Components)
    requires Inv(o) && o.whiteouts == {} && Clean(p) && p != [] && p in o.base && o.base[p].File?
    requires View(o.delta, p).None? && Shown(o, p) == Some(o.base[p])
    ensures Unlink(o, p) == (o.(whiteouts := {p}), NS.Done)
  {
    LookupPathShown(o, p);
    NotBlocked(o, p);
    UnlinkLaw(o.delta, p);
    assert NS.Unlink(o.delta, p) == (o.delta, NS.Failed(ENOENT));
    assert o.whiteouts + {p} == {p};
  }

  // ---- One round of MkdirAll ----

  // The round finds a directory, or something else, at x once the whiteout of x is gone.
  ghost predicate FindsDir(o: Layers, x: Components, stale: set<Components>) {
    Shown(o, x) == Some(Dir) || (x in o.whiteouts && x in o.base && o.base[x] == Dir && x !in stale)
  }

  ghost predicate FindsFile(o: Layers, x: Components, stale: set<Components>) {
    || (Shown(o, x).Some? && Shown(o, x).value.File?)
    || (x in o.whiteouts && x in o.base && o.base[x].File? && x !in stale)
  }

  // Why a round fails: a file is in the way, or the directory has to be made and its name is too
  // long or the delta does not have the parent.
  ghost predicate RoundFails(o: Layers, x: Components, stale: set<Components>, parentInDelta: bool) {
    FindsFile(o, x, stale) || (!FindsDir(o, x, stale) && (NS.NameTooLong(x) || !parentInDelta))
  }

  lemma RoundExactly(o: Layers, x: Components, mode: int, stale: set<Components>)
    requires Inv(o) && Clean(x) && x != [] && Shown(o, Up(x)) == Some(Dir)
    ensures var (o1, r) := EnsureDir(o, x, mode, stale);
      && (r.Failed? <==> RoundFails(o, x, stale, View(o.delta, Up(x)) == Some(Dir)))
      && (r.Failed? ==> o1 == RemoveWhiteout(o, x))
      && (forall q :: q != x ==> View(o1.delta, q) == View(o.delta, q))
      && (r.Done? ==> (View(o1.delta, x) == Some(Dir) <==> View(o.delta, x) == Some(Dir) || !FindsDir(o, x, stale)))
  {
    UncoverLaw(o, x);
    UpIsParent(x);
    var o1 := RemoveWhiteout(o, x);
    LookupPathShown(o, x);
    LookupPathShown(o1, x);
    UncoverShows(o, x, x);
    ViewExists(o1.delta, x);
    MkdirLaw(o1.delta, x, mode);
    WhiteoutExists(o.whiteouts, Up(x));
    WhiteoutExists(o.whiteouts, x);
  }

  // ---- MkdirAll ----

  // Once the round for x has passed, the delta has a directory there.
  ghost predicate InDeltaAfter(o: Layers, x: Components, stale: set<Components>) {
    x == [] || View(o.delta, x) == Some(Dir) || !FindsDir(o, x, stale)
  }

  // The round for x fails when all rounds before it pass.
  ghost predicate Stops(o: Layers, x: Components, stale: set<Components>)
    requires x != []
  {
    RoundFails(o, x, stale, InDeltaAfter(o, Up(x), stale))
  }

  // The number of rounds, from i on, that MkdirAll passes.
  ghost function StopFrom(o: Layers, p: Components, i: nat, stale: set<Components>): (k: nat)
    requires i <= |p|
    ensures i <= k <= |p| && (k < |p| ==> Stops(o, p[..k + 1], stale))
    decreases |p| - i
  {
    if i == |p| || Stops(o, p[..i + 1], stale) then i else StopFrom(o, p, i + 1, stale)
  }

  predicate Within(q: Components, p: Components, i: nat) { q <= p && |q| <= i }

  ghost predicate ShowsDirs(o: Layers, m: Layers, p: Components, i: nat) {
    forall q :: Shown(m, q) == if Within(q, p, i) then Some(Dir) else Shown(o, q)
  }

  ghost predicate Uncovers(o: Layers, m: Layers, p: Components, i: nat) {
    forall c :: c in m.whiteouts <==> c in o.whiteouts && !Within(c, p, i)
  }

  ghost predicate DeltaKept(o: Layers, m: Layers, p: Components, i: nat) {
    forall q :: !Within(q, p, i) ==> View(m.delta, q) == View(o.delta, q)
  }

  // The layers m after i rounds from o have passed.
  ghost predicate Passed(o: Layers, m: Layers, p: Components, i: nat, stale: set<Components>) {
    && i <= |p| && Inv(m) && m.base == o.base
    && ShowsDirs(o, m, p, i) && Uncovers(o, m, p, i) && DeltaKept(o, m, p, i)
    && forall j :: 0 <= j <= i ==> (View(m.delta, p[..j]) == Some(Dir) <==> InDeltaAfter(o, p[..j], stale))
  }

  lemma PassedNone(o: Layers, p: Components, stale: set<Components>)
    requires Inv(o)
    ensures Passed(o, o, p, 0, stale)
  {
    ShownRoot(o);
    ViewExists(o.delta, []);
    assert p[..0] == [];
    forall q
      ensures Within(q, p, 0) <==> q == []
    {
    }
  }

  lemma WithinNext(p: Components, i: nat, q: Components)
    requires i < |p|
    ensures Within(q, p, i + 1) <==> Within(q, p, i) || q == p[..i + 1]
  {
    if Within(q, p, i + 1) && |q| == i + 1 {
      assert q == p[..i + 1];
    }
  }

  // The next round meets at x what was there at the start.
  lemma RoundMeets(o: Layers, m: Layers, p: Components, i: nat, stale: set<Components>)
    requires Passed(o, m, p, i, stale) && i < |p|
    ensures var x := p[..i + 1];
      && Shown(m, Up(x)) == Some(Dir)
      && (FindsDir(m, x, stale) <==> FindsDir(o, x, stale))
      && (RoundFails(m, x, stale, View(m.delta, Up(x)) == Some(Dir)) <==> Stops(o, x, stale))
  {
    var x := p[..i + 1];
    assert Up(x) == p[..i] && Within(Up(x), p, i) && !Within(x, p, i);
  }

  lemma RoundPassed(o: Layers, m: Layers, p: Components, i: nat, mode: int, stale: set<Components>)
    requires Passed(o, m, p, i, stale) && i < |p| && Clean(p) && !Stops(o, p[..i + 1], stale)
    ensures EnsureDir(m, p[..i + 1], mode, stale).1.Done?
    ensures Passed(o, EnsureDir(m, p[..i + 1], mode, stale).0, p, i + 1, stale)
  {
    var x := p[..i + 1];
    assert forall c :: c in x ==> c in p;
    RoundMeets(o, m, p, i, stale);
    RoundExactly(m, x, mode, stale);
    OverlayLaws.EnsureDirLaw(m, x, mode, stale);
    PassedNext(o, m, EnsureDir(m, x, mode, stale).0, p, i, stale);
  }

  lemma PassedNext(o: Layers, m: Layers, m1: Layers, p: Components, i: nat, stale: set<Components>)
    requires i < |p| && Passed(o, m, p, i, stale)
    requires var x := p[..i + 1];
      && Inv(m1) && m1.whiteouts == m.whiteouts - {x} && m1.base == m.base
      && (forall q :: Shown(m1, q) == if q == x then Some(Dir) else Shown(m, q))
      && (forall q :: q != x ==> View(m1.delta, q) == View(m.delta, q))
      && (View(m1.delta, x) == Some(Dir) <==> View(m.delta, x) == Some(Dir) || !FindsDir(o, x, stale))
    ensures Passed(o, m1, p, i + 1, stale)
  {
    assert !Within(p[..i + 1], p, i);
    assert forall j :: 0 <= j <= i ==> p[..j] != p[..i + 1];
    assert ShowsDirs(o, m1, p, i + 1) by { ShowsNext(o, m, m1, p, i); }
    assert Uncovers(o, m1, p, i + 1) by { UncoversNext(o, m, m1, p, i); }
    assert DeltaKept(o, m1, p, i + 1) by { DeltaNext(o, m, m1, p, i); }
  }

  lemma ShowsNext(o: Layers, m: Layers, m1: Layers, p: Components, i: nat)
    requires i < |p| && ShowsDirs(o, m, p, i)
    requires forall q :: Shown(m1, q) == if q == p[..i + 1] then Some(Dir) else Shown(m, q)
    ensures ShowsDirs(o, m1, p, i + 1)
  {
    forall q
      ensures Shown(m1, q) == if Within(q, p, i + 1) then Some(Dir) else Shown(o, q)
    {
      WithinNext(p, i, q);
    }
  }

  lemma UncoversNext(o: Layers, m: Layers, m1: Layers, p: Components, i: nat)
    requires i < |p| && Uncovers(o, m, p, i) && m1.whiteouts == m.whiteouts - {p[..i + 1]}
    ensures Uncovers(o, m1, p, i + 1)
  {
    forall c
      ensures c in m1.whiteouts <==> c in o.whiteouts && !Within(c, p, i + 1)
    {
      WithinNext(p, i, c);
    }
  }

  lemma DeltaNext(o: Layers, m: Layers, m1: Layers, p: Components, i: nat)
    requires i < |p| && DeltaKept(o, m, p, i)
    requires forall q :: q != p[..i + 1] ==> View(m1.delta, q) == View(m.delta, q)
    ensures DeltaKept(o, m1, p, i + 1)
  {
    forall q | !Within(q, p, i + 1)
      ensures View(m1.delta, q) == View(o.delta, q)
    {
      WithinNext(p, i, q);
    }
  }

  lemma RoundStopped(o: Layers, m: Layers, p: Components, i: nat, mode: int, stale: set<Components>)
    requires Passed(o, m, p, i, stale) && i < |p| && Clean(p) && Stops(o, p[..i + 1], stale)
    ensures var (m1, r) := EnsureDir(m, p[..i + 1], mode, stale); r.Failed? && m1 == RemoveWhiteout(m, p[..i + 1])
  {
    assert forall c :: c in p[..i + 1] ==> c in p;
    RoundMeets(o, m, p, i, stale);
    RoundExactly(m, p[..i + 1], mode, stale);
  }

  predicate EndsAt(passed: Layers, p: Components, k: nat, end: (Layers, Status)) {
    && (end.1.Done? <==> k == |p|)
    && end.0 == (if k < |p| then RemoveWhiteout(passed, p[..k + 1]) else passed)
  }

  // MkdirAll passes exactly the rounds before the first that stops; that one, if any, has only
  // removed the whiteout of its path.
  lemma {:induction false} MkdirAllPasses(o: Layers, m: Layers, p: Components, i: nat, mode: int, stale: set<Components>)
    returns (passed: Layers)
    requires Passed(o, m, p, i, stale) && Clean(p)
    ensures Passed(o, passed, p, StopFrom(o, p, i, stale), stale)
    ensures EndsAt(passed, p, StopFrom(o, p, i, stale), MkdirAllFrom(m, p, i, mode, stale))
    decreases |p| - i
  {
    if i == |p| {
      passed := m;
    } else {
      var x := p[..i + 1];
      var (m1, r) := EnsureDir(m, x, mode, stale);
      if Stops(o, x, stale) {
        RoundStopped(o, m, p, i, mode, stale);
        passed := m;
        assert MkdirAllFrom(m, p, i, mode, stale) == (m1, r);
      } else {
        RoundPassed(o, m, p, i, mode, stale);
        passed := MkdirAllPasses(o, m1, p, i + 1, mode, stale);
        assert MkdirAllFrom(m, p, i, mode, stale) == MkdirAllFrom(m1, p, i + 1, mode, stale);
      }
    }
  }

  // What is left when k rounds have passed: their directories are shown, and at the round after, if
  // there is one, the base entry whose whiteout was just removed.
  ghost predicate LeavesShown(o: Layers, o1: Layers, p: Components, k: nat) {
    forall q :: Shown(o1, q) ==
      if Within(q, p, k) then Some(Dir)
      else if Within(q, p, k + 1) && q in o.whiteouts && q in o.base then Some(o.base[q])
      else Shown(o, q)
  }

  ghost predicate Leaves(o: Layers, o1: Layers, p: Components, k: nat) {
    Inv(o1) && o1.base == o.base && LeavesShown(o, o1, p, k) && Uncovers(o, o1, p, k + 1) && DeltaKept(o, o1, p, k)
  }

  // MkdirAll succeeds exactly when no round stops it, and this is what it leaves, whether it succeeds
  // or not.
  lemma MkdirAllExactly(o: Layers, p: Components, mode: int, stale: set<Components>)
    requires Inv(o) && Clean(p)
    ensures var k := StopFrom(o, p, 0, stale); var (o1, r) := MkdirAll(o, p, mode, stale);
      (r.Done? <==> k == |p|) && Leaves(o, o1, p, k)
  {
    PassedNone(o, p, stale);
    var passed := MkdirAllPasses(o, o, p, 0, mode, stale);
    var k := StopFrom(o, p, 0, stale);
    assert EndsAt(passed, p, k, MkdirAll(o, p, mode, stale));
    if k < |p| {
      LastRound(o, passed, p, k, stale);
    } else {
      AllPassed(o, passed, p, stale);
    }
  }

  lemma AllPassed(o: Layers, m: Layers, p: Components, stale: set<Components>)
    requires Passed(o, m, p, |p|, stale)
    ensures Leaves(o, m, p, |p|)
  {
    forall q
      ensures Within(q, p, |p|) <==> Within(q, p, |p| + 1)
    {
    }
  }

  lemma LastRound(o: Layers, m: Layers, p: Components, k: nat, stale: set<Components>)
    requires Passed(o, m, p, k, stale) && k < |p|
    ensures Leaves(o, RemoveWhiteout(m, p[..k + 1]), p, k)
  {
    var x := p[..k + 1];
    RoundMeets(o, m, p, k, stale);
    UncoverKeepsExactly(m, x);
    UncoversNext(o, m, RemoveWhiteout(m, x), p, k);
    assert Shown(m, Up(x)).Some?;
    assert !Within(x, p, k) && Within(x, p, k + 1);
    forall q
      ensures Shown(RemoveWhiteout(m, x), q) ==
        if Within(q, p, k) then Some(Dir)
        else if Within(q, p, k + 1) && q in o.whiteouts && q in o.base then Some(o.base[q])
        else Shown(o, q)
    {
      UncoverShows(m, x, q);
      WithinNext(p, k, q);
    }
  }

  // A failing MkdirAll changes nothing that is shown exactly when all rounds it passed found their
  // directory shown and the one it stopped in had no whiteout.
  lemma FailedMkdirAllExactly(o: Layers, p: Components, mode: int, stale: set<Components>)
    requires Inv(o) && Clean(p) && MkdirAll(o, p, mode, stale).1.Failed?
    ensures var k := StopFrom(o, p, 0, stale); var o1 := MkdirAll(o, p, mode, stale).0;
      && k < |p|
      && ((forall q :: Shown(o1, q) == Shown(o, q)) <==>
            Shown(o, p[..k]) == Some(Dir) && p[..k + 1] !in o.whiteouts)
  {
    MkdirAllExactly(o, p, mode, stale);
    var k := StopFrom(o, p, 0, stale);
    var x := p[..k + 1];
    assert Within(p[..k], p, k) && !Within(x, p, k);
    if Shown(o, p[..k]) == Some(Dir) {
      forall q | Within(q, p, k)
        ensures Shown(o, q) == Some(Dir)
      {
        if q != p[..k] {
          assert q <= p[..k];
          ShownPrefix(o, q, p[..k]);
        }
      }
    }
    assert Within(x, p, k + 1);
    forall q
      ensures Within(q, p, k + 1) <==> Within(q, p, k) || q == x
    {
      WithinNext(p, k, q);
    }
    if x in o.whiteouts {
      assert IsWhiteout(o.whiteouts, x);
      assert Shown(MkdirAll(o, p, mode, stale).0, x) == Some(o.base[x]);
    }
  }

  // MkdirAll below a deleted base file fails and brings the file back.
  lemma FailedMkdirAllUncovers(o: Layers, p: Components, f: Components, mode: int, stale: set<Components>)
    requires Inv(o) && Clean(p) && f != [] && f <= p && f in o.whiteouts && o.base[f].File? && f !in stale
    requires Shown(o, Up(f)) == Some(Dir)
    ensures var (o1, r) := MkdirAll(o, p, mode, stale);
      && r.Failed? && Shown(o, f).None? && Shown(o1, f) == Some(o.base[f])
  {
    StopsAtFile(o, p, f, stale);
    MkdirAllExactly(o, p, mode, stale);
    StopShows(o, MkdirAll(o, p, mode, stale).0, p, |f| - 1, f);
  }

  lemma StopShows(o: Layers, o1: Layers, p: Components, k: nat, x: Components)
    requires Leaves(o, o1, p, k) && x <= p && |x| == k + 1 && x in o.whiteouts && x in o.base
    ensures Shown(o, x).None? && Shown(o1, x) == Some(o.base[x])
  {
    assert Within(x, p, k + 1) && !Within(x, p, k);
    assert IsWhiteout(o.whiteouts, x);
  }

  lemma StopsAtFile(o: Layers, p: Components, f: Components, stale: set<Components>)
    requires Inv(o) && f != [] && f <= p && f in o.whiteouts && o.base[f].File? && f !in stale
    requires Shown(o, Up(f)) == Some(Dir)
    ensures StopFrom(o, p, 0, stale) == |f| - 1
  {
    var i: nat := |f| - 1;
    assert p[..i + 1] == f && Up(f) == p[..i];
    assert Stops(o, f, stale);
    DirsPass(o, p, i, 0, stale);
  }

  lemma {:induction false} DirsPass(o: Layers, p: Components, i: nat, j: nat, stale: set<Components>)
    requires Inv(o) && j <= i < |p| && Shown(o, p[..i]) == Some(Dir) && Stops(o, p[..i + 1], stale)
    ensures StopFrom(o, p, j, stale) == i
    decreases i - j
  {
    if j < i {
      var x := p[..j + 1];
      if x != p[..i] {
        assert x <= p[..i];
        ShownPrefix(o, x, p[..i]);
      }
      WhiteoutExists(o.whiteouts, x);
      assert !Stops(o, x, stale);
      DirsPass(o, p, i, j + 1, stale);
    }
  }

  // ---- WriteFile ----

  // Where the path is shown as a directory, MkdirAll finds everything in place.
  lemma {:induction false} MkdirAllShown(o: Layers, p: Components, i: nat, mode: int, stale: set<Components>)
    requires Inv(o) && i <= |p| && Shown(o, p) == Some(Dir)
    ensures MkdirAllFrom(o, p, i, mode, stale) == (o, NS.Done)
    decreases |p| - i
  {
    if i < |p| {
      ShownRound(o, p, i, mode, stale);
      assert i + 1 == |p| ==> p[..i + 1] == p;
      MkdirAllShown(o, p, i + 1, mode, stale);
    }
  }

  lemma ShownRound(o: Layers, p: Components, i: nat, mode: int, stale: set<Components>)
    requires Inv(o) && i < |p| && Shown(o, p).Some?
    ensures var x := p[..i + 1];
      EnsureDir(o, x, mode, stale) == (o, if Shown(o, x) == Some(Dir) then NS.Done else NS.Failed(ENOTDIR))
    ensures i + 1 < |p| ==> Shown(o, p[..i + 1]) == Some(Dir)
  {
    var x := p[..i + 1];
    if i + 1 < |p| {
      ShownPrefix(o, x, p);
    } else {
      assert x == p;
    }
    assert o.whiteouts - {x} == o.whiteouts;
    LookupPathShown(o, x);
  }

  lemma {:induction false} MkdirAllMeetsFile(o: Layers, p: Components, i: nat, mode: int, stale: set<Components>)
    requires Inv(o) && i < |p| && Shown(o, p).Some? && Shown(o, p).value.File?
    ensures MkdirAllFrom(o, p, i, mode, stale) == (o, NS.Failed(ENOTDIR))
    decreases |p| - i
  {
    ShownRound(o, p, i, mode, stale);
    if i + 1 < |p| {
      MkdirAllMeetsFile(o, p, i + 1, mode, stale);
    } else {
      assert p[..i + 1] == p;
    }
  }

  // The lookup of the parent that WriteFile does first only spares it the rounds of MkdirAll.
  lemma OpenParentIsMkdirAll(o: Layers, p: Components, stale: set<Components>)
    requires Inv(o) && Clean(p) && p != []
    ensures OpenParent(o, p, stale) == MkdirAll(o, Up(p), 0x1ed, stale)
  {
    UpIsParent(p);
    LookupPathShown(o, Up(p));
    ShownRoot(o);
    if Up(p) != [] && Shown(o, Up(p)).Some? {
      if Shown(o, Up(p)) == Some(Dir) {
        MkdirAllShown(o, Up(p), 0, 0x1ed, stale);
      } else {
        MkdirAllMeetsFile(o, Up(p), 0, 0x1ed, stale);
      }
    }
  }

  // The parent can be opened, the path is no directory of the delta, and no name is too long: its
  // own, or that of a directory the delta does not have.
  ghost predicate WriteGoes(o: Layers, p: Components, stale: set<Components>)
    requires p != []
  {
    && StopFrom(o, Up(p), 0, stale) == |p| - 1
    && !NS.NameTooLong(p) && View(o.delta, p) != Some(Dir)
    && forall j :: 0 < j < |p| ==> View(o.delta, p[..j]) == Some(Dir) || !NS.NameTooLong(p[..j])
  }

  lemma {:induction false} NoneStops(o: Layers, p: Components, i: nat, j: nat, stale: set<Components>)
    requires i <= j < |p| && StopFrom(o, p, i, stale) == |p|
    ensures !Stops(o, p[..j + 1], stale)
    decreases j - i
  {
    if i < j { NoneStops(o, p, i + 1, j, stale); }
  }

  // Behind an opened parent, the delta can take the directories above p exactly when the names that
  // it does not have are short.
  lemma FitsAfter(o: Layers, m: Layers, p: Components, j: nat, stale: set<Components>)
    requires p != [] && 0 < j < |p| && StopFrom(o, Up(p), 0, stale) == |p| - 1
    requires Passed(o, m, Up(p), |p| - 1, stale)
    ensures Fits(m.delta, p[..j]) <==> View(o.delta, p[..j]) == Some(Dir) || !NS.NameTooLong(p[..j])
  {
    var x, parent := p[..j], Up(p);
    assert x == parent[..j] && Within(x, parent, |parent|);
    assert Shown(m, x) == Some(Dir);
    NoneStops(o, parent, 0, j - 1, stale);
  }

  lemma OpenedParent(o: Layers, p: Components, stale: set<Components>) returns (m: Layers)
    requires Inv(o) && Clean(p) && p != [] && StopFrom(o, Up(p), 0, stale) == |p| - 1
    ensures MkdirAll(o, Up(p), 0x1ed, stale) == (m, NS.Done) && Passed(o, m, Up(p), |p| - 1, stale)
    ensures Shown(m, Up(p)) == Some(Dir)
    ensures Passed(o, m, Up(p), |p| - 1, stale) ==> View(m.delta, p) == View(o.delta, p) && (p in m.whiteouts <==> p in o.whiteouts)
  {
    UpIsParent(p);
    PassedNone(o, Up(p), stale);
    m := MkdirAllPasses(o, o, Up(p), 0, 0x1ed, stale);
    assert EndsAt(m, Up(p), |p| - 1, MkdirAll(o, Up(p), 0x1ed, stale));
    assert Within(Up(p), Up(p), |p| - 1) && !Within(p, Up(p), |p| - 1);
  }

  lemma WriteOpens(o: Layers, p: Components, data: Bytes, mode: int, stale: set<Components>)
    requires Inv(o) && Clean(p) && p != []
    ensures WriteFile(o, p, data, mode, stale) == WriteInto(MkdirAll(o, Up(p), 0x1ed, stale), p, data, mode)
  {
    OpenParentCommutes(o, p, stale);
    OpenParentIsMkdirAll(o, p, stale);
  }

  // WriteFile once the parent was made, or could not be.
  function WriteInto(parent: (Layers, Status), p: Components, data: Bytes, mode: int): (Layers, Status) {
    var ready := RemoveWhiteout(parent.0, p);
    if parent.1.Failed? then (ready, parent.1)
    else (ready.(delta := NS.WriteFile(ready.delta, p, data, mode).0), NS.WriteFile(ready.delta, p, data, mode).1)
  }

  // WriteFile succeeds exactly when WriteGoes says so.
  lemma WriteSucceedsExactly(o: Layers, p: Components, data: Bytes, mode: int, stale: set<Components>)
    requires Inv(o) && Clean(p) && p != []
    ensures WriteFile(o, p, data, mode, stale).1.Done? <==> WriteGoes(o, p, stale)
  {
    WriteDone(o, p, data, mode, stale);
    if StopFrom(o, Up(p), 0, stale) == |p| - 1 {
      var m := OpenedParent(o, p, stale);
      DeltaTakes(o, m, p, data, mode, stale);
    }
  }

  lemma WriteDone(o: Layers, p: Components, data: Bytes, mode: int, stale: set<Components>)
    requires Inv(o) && Clean(p) && p != []
    ensures WriteFile(o, p, data, mode, stale).1.Done? <==>
      && StopFrom(o, Up(p), 0, stale) == |p| - 1
      && NS.WriteFile(MkdirAll(o, Up(p), 0x1ed, stale).0.delta, p, data, mode).1.Done?
  {
    UpIsParent(p);
    WriteOpens(o, p, data, mode, stale);
    MkdirAllDone(o, Up(p), 0x1ed, stale);
  }

  lemma MkdirAllDone(o: Layers, p: Components, mode: int, stale: set<Components>)
    requires Inv(o) && Clean(p)
    ensures MkdirAll(o, p, mode, stale).1.Done? <==> StopFrom(o, p, 0, stale) == |p|
  {
    MkdirAllExactly(o, p, mode, stale);
  }

  lemma DeltaTakes(o: Layers, m: Layers, p: Components, data: Bytes, mode: int, stale: set<Components>)
    requires Clean(p) && p != [] && StopFrom(o, Up(p), 0, stale) == |p| - 1
    requires Passed(o, m, Up(p), |p| - 1, stale) && View(m.delta, p) == View(o.delta, p)
    ensures NS.WriteFile(m.delta, p, data, mode).1.Done? <==> WriteGoes(o, p, stale)
  {
    PlainView.WriteFileExactly(m.delta, p, data, mode);
    forall j | 0 < j < |p|
      ensures Fits(m.delta, p[..j]) <==> View(o.delta, p[..j]) == Some(Dir) || !NS.NameTooLong(p[..j])
    {
      FitsAfter(o, m, p, j, stale);
    }
  }

  // What a successful write shows: the data at p with the attributes the delta had there, or new
  // ones, and directories above. The closure stays exactly when no base entry below p was shown.
  lemma WriteFileExactly(o: Layers, p: Components, data: Bytes, mode: int, stale: set<Components>)
    requires Inv(o) && Clean(p) && p != [] && WriteGoes(o, p, stale)
    ensures var (o1, r) := WriteFile(o, p, data, mode, stale);
      && r.Done? && o1.base == o.base
      && (forall q :: Shown(o1, q) ==
            if q == p then Some(File(data, AttrAfter(o.delta, p, mode))) else if q <= p then Some(Dir) else Shown(o, q))
      && (Inv(o1) <==> !HidesEntries(o, p))
  {
    WriteSucceedsExactly(o, p, data, mode, stale);
    WriteFileLawful(o, p, data, mode, stale);
    UpIsParent(p);
    WriteOpens(o, p, data, mode, stale);
    var m := OpenedParent(o, p, stale);
    WriteFileLaw(m.delta, p, data, mode);
  }

  // A file that only the base has loses its mode and owner.
  lemma WriteResetsAttributes(o: Layers, p: Components, data: Bytes, mode: int, stale: set<Components>)
    requires Inv(o) && Clean(p) && p != [] && WriteGoes(o, p, stale) && View(o.delta, p).None?
    ensures Shown(WriteFile(o, p, data, mode, stale).0, p) == Some(File(data, NewAttr(mode)))
  {
    WriteFileExactly(o, p, data, mode, stale);
  }

  // Directories copied into the delta where they are shown anyway change nothing.
  lemma DirsCopiedShown(o: Layers, d: State, path: Components)
    requires Inv(o) && Plain(d) && DirsAdded(o.delta, d, path) && Shown(o, path) == Some(Dir)
    ensures Inv(o.(delta := d)) && forall q :: Shown(o.(delta := d), q) == Shown(o, q)
  {
    var o1 := o.(delta := d);
    forall q | q <= path
      ensures Shown(o, q) == Some(Dir)
    {
      if q != path { ShownPrefix(o, q, path); }
    }
    forall q
      ensures Shown(o1, q) == Shown(o, q) && (FileInDelta(o1, q) <==> FileInDelta(o, q))
      ensures q in o.whiteouts && q != [] ==> View(d, q) == View(o.delta, q)
      ensures ChildrenCovered(o1, q) <==> ChildrenCovered(o, q)
    {
      assert View(d, q) == View(o.delta, q) || (View(o.delta, q).None? && View(d, q) == Some(Dir) && q <= path);
    }
  }

  // A failing WriteFile leaves what the MkdirAll of its parent leaves, less the whiteout of p.
  lemma FailedWriteLeaves(o: Layers, p: Components, data: Bytes, mode: int, stale: set<Components>)
    requires Inv(o) && Clean(p) && p != [] && WriteFile(o, p, data, mode, stale).1.Failed?
    ensures var o2, o1 := MkdirAll(o, Up(p), 0x1ed, stale).0, WriteFile(o, p, data, mode, stale).0;
      && Leaves(o, o2, Up(p), StopFrom(o, Up(p), 0, stale)) && (p in o2.whiteouts <==> p in o.whiteouts)
      && o1.base == o.base && o1.whiteouts == o2.whiteouts - {p}
      && (forall q :: Shown(o1, q) == Shown(RemoveWhiteout(o2, p), q))
      && (Inv(o1) <==> Inv(RemoveWhiteout(o2, p)))
  {
    UpIsParent(p);
    WriteOpens(o, p, data, mode, stale);
    MkdirAllExactly(o, Up(p), 0x1ed, stale);
    var o2 := MkdirAll(o, Up(p), 0x1ed, stale).0;
    assert !Within(p, Up(p), StopFrom(o, Up(p), 0, stale) + 1);
    if MkdirAll(o, Up(p), 0x1ed, stale).1.Done? {
      var m := OpenedParent(o, p, stale);
      UncoverLaw(m, p);
      PlainView.WriteFileExactly(m.delta, p, data, mode);
      DirsCopiedShown(RemoveWhiteout(m, p), NS.WriteFile(m.delta, p, data, mode).0, Up(p));
    }
  }

  // A failing WriteFile shows, besides what the MkdirAll of its parent leaves, the base entry at p
  // exactly when p was a whiteout and no whiteout above it was out of reach of that MkdirAll. Nothing
  // at p changes and the closure stays exactly when p was no whiteout.
  lemma FailedWriteExactly(o: Layers, p: Components, data: Bytes, mode: int, stale: set<Components>)
    requires Inv(o) && Clean(p) && p != [] && WriteFile(o, p, data, mode, stale).1.Failed?
    ensures var k := StopFrom(o, Up(p), 0, stale);
      var o2, o1 := MkdirAll(o, Up(p), 0x1ed, stale).0, WriteFile(o, p, data, mode, stale).0;
      && Leaves(o, o2, Up(p), k)
      && (forall q :: Shown(o1, q) == if q == p && Reveals(o2, p) then Some(o.base[p]) else Shown(o2, q))
      && (Reveals(o2, p) <==> p in o.whiteouts && forall c :: c in o.whiteouts && c <= Up(p) ==> |c| <= k + 1)
      && (Inv(o1) && Shown(o1, p) == Shown(o, p) <==> p !in o.whiteouts)
  {
    FailedWriteLeaves(o, p, data, mode, stale);
    var k := StopFrom(o, Up(p), 0, stale);
    var o2, o1 := MkdirAll(o, Up(p), 0x1ed, stale).0, WriteFile(o, p, data, mode, stale).0;
    forall q
      ensures Shown(o1, q) == if q == p && Reveals(o2, p) then Some(o.base[p]) else Shown(o2, q)
    {
      UncoverShows(o2, p, q);
    }
    WhiteoutExists(o2.whiteouts, Up(p));
    RevealedFrom(o, o2, p, k);
    UncoverHarmlessExactly(o2, p);
    assert !Within(p, Up(p), k + 1);
  }

  lemma RevealedFrom(o: Layers, o2: Layers, p: Components, k: nat)
    requires Inv(o) && p != [] && Leaves(o, o2, Up(p), k) && (p in o2.whiteouts <==> p in o.whiteouts)
    ensures Reveals(o2, p) <==> p in o.whiteouts && forall c :: c in o.whiteouts && c <= Up(p) ==> |c| <= k + 1
  {
    WhiteoutExists(o2.whiteouts, Up(p));
    forall c
      ensures c in o2.whiteouts && c <= Up(p) <==> c in o.whiteouts && c <= Up(p) && |c| > k + 1
    {
    }
  }

  // A failing write that uncovers: the parent is a file that the delta has put over a base directory, and the closure
  // is lost as well.
  lemma WriteBelowFileUncovers(o: Layers, p: Components, data: Bytes, mode: int, stale: set<Components>)
    requires Inv(o) && Clean(p) && p in o.whiteouts && Up(p) != []
    requires Shown(o, Up(p)).Some? && Shown(o, Up(p)).value.File?
    ensures var (o1, r) := WriteFile(o, p, data, mode, stale);
      && r == NS.Failed(ENOTDIR) && Shown(o, p).None? && Shown(o1, p) == Some(o.base[p]) && !Inv(o1)
  {
    WriteOpens(o, p, data, mode, stale);
    MkdirAllMeetsFile(o, Up(p), 0, 0x1ed, stale);
    UncoverShows(o, p, p);
    UncoverKeepsExactly(o, p);
    assert IsWhiteout(o.whiteouts, p);
  }

  // Another: the parent is a deleted base file, which is back afterwards.
  lemma WriteBelowDeletedFile(o: Layers, f: Components, n: string, data: Bytes, mode: int, stale: set<Components>)
    requires Inv(o) && Clean(f + [n]) && f in o.whiteouts && o.base[f].File? && f !in stale
    requires Shown(o, Up(f)) == Some(Dir)
    ensures var (o1, r) := WriteFile(o, f + [n], data, mode, stale);
      && r.Failed? && Shown(o, f).None? && Shown(o1, f) == Some(o.base[f])
  {
    var p := f + [n];
    assert Up(p) == f;
    UpIsParent(p);
    FailedMkdirAllUncovers(o, f, f, 0x1ed, stale);
    WriteOpens(o, p, data, mode, stale);
    MkdirAllExactly(o, f, 0x1ed, stale);
    UncoverShows(MkdirAll(o, f, 0x1ed, stale).0, p, f);
  }
}
