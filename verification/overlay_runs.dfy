// Runs of overlay operations.
module OverlayRuns {
  import opened Common
  import opened Paths
  import opened ChunkStore
  import opened Tables
  import opened Resolution
  import NS = Namespace
  import opened PlainView
  import opened Overlay
  import opened OverlayLaws
  import opened OverlayExact

  datatype OverlayOp =
    | DoWriteFile(path: Components, data: Bytes, mode: int, stale: set<Components>)
    | DoMkdir(path: Components, mode: int)
    | DoMkdirAll(path: Components, mode: int, stale: set<Components>)
    | DoUnlink(path: Components)
    | DoRmdir(path: Components)
    | DoCopyUp(path: Components)

  function Do(o: Layers, op: OverlayOp): (Layers, NS.Status) {
    match op
    case DoWriteFile(p, data, mode, stale) => WriteFile(o, p, data, mode, stale)
    case DoMkdir(p, mode) => Mkdir(o, p, mode)
    case DoMkdirAll(p, mode, stale) => MkdirAll(o, p, mode, stale)
    case DoUnlink(p) => Unlink(o, p)
    case DoRmdir(p) => Rmdir(o, p)
    case DoCopyUp(p) => CopyUp(o, p)
  }

  // The directories a failing call has made or found before it stopped.
  ghost function Made(o: Layers, op: OverlayOp): (k: nat) {
    match op
    case DoWriteFile(p, _, _, stale) => if p == [] then 0 else StopFrom(o, Up(p), 0, stale)
    case DoMkdirAll(p, _, stale) => StopFrom(o, p, 0, stale)
    case _ => 0
  }

  // The component that MkdirAll of p stops at, after k rounds, is no whiteout.
  ghost predicate StopsClear(o: Layers, p: Components, k: nat) {
    k < |p| ==> p[..k + 1] !in o.whiteouts
  }

  // What a failing call must not have met: a whiteout at its path, or at the component it stops at.
  ghost predicate Harmless(o: Layers, op: OverlayOp) {
    var p := op.path;
    match op
    case DoWriteFile(_, _, _, _) => p !in o.whiteouts && p != [] && StopsClear(o, Up(p), Made(o, op))
    case DoMkdir(_, _) => p !in o.whiteouts
    case DoMkdirAll(_, _, _) => StopsClear(o, p, Made(o, op))
    case _ => true
  }

  // A call that succeeds is no WriteFile aimed at a directory whose entries are shown; one that
  // fails met no whiteout. Copy-up is of a file that is shown.
  ghost predicate Sound(o: Layers, op: OverlayOp) {
    && Clean(op.path) && op.path != []
    && (Do(o, op).1.Failed? ==> Harmless(o, op))
    && (Do(o, op).1.Done? && op.DoWriteFile? ==> !HidesEntries(o, op.path))
    && (op.DoCopyUp? ==> Shown(o, op.path).Some? && Shown(o, op.path).value.File?)
  }

  // A plain directory tree: what is at each path, attributes aside.
  datatype Entry = Folder | Regular(data: Bytes)

  function Erase(node: Node): Entry {
    match node case Dir => Folder case File(data, _) => Regular(data)
  }

  ghost function Contents(o: Layers): imap<Components, Entry> {
    imap q | Shown(o, q).Some? :: Erase(Shown(o, q).value)
  }

  // The same operation on a plain tree.
  ghost function TreeDo(m: imap<Components, Entry>, op: OverlayOp): imap<Components, Entry> {
    match op
    case DoWriteFile(p, data, _, _) =>
      imap q | q in m || q <= p :: if q == p then Regular(data) else if q <= p then Folder else m[q]
    case DoMkdir(p, _) => m[p := Folder]
    case DoMkdirAll(p, _, _) => imap q | q in m || q <= p :: if q <= p then Folder else m[q]
    case DoUnlink(p) => imap q | q in m && q != p :: m[q]
    case DoRmdir(p) => imap q | q in m && q != p :: m[q]
    case DoCopyUp(p) => m
  }

  // What a failing operation may do to a plain tree: make the first k directories of its path.
  ghost function TreeFailed(m: imap<Components, Entry>, p: Components, k: nat): imap<Components, Entry> {
    imap q | q in m || Within(q, p, k) :: if Within(q, p, k) then Folder else m[q]
  }

  // How an operation came out: it succeeded, or it failed with this many directories made.
  datatype Outcome = Success | Failure(made: nat)

  ghost function OutcomeOf(o: Layers, op: OverlayOp): Outcome {
    if Do(o, op).1.Done? then Success else Failure(Made(o, op))
  }

  ghost function TreeStep(m: imap<Components, Entry>, op: OverlayOp, outcome: Outcome): imap<Components, Entry> {
    match outcome
    case Success => TreeDo(m, op)
    case Failure(k) => TreeFailed(m, op.path, k)
  }

  // ---- Failing calls ----

  lemma LeftContents(o: Layers, o1: Layers, p: Components, k: nat)
    requires LeavesShown(o, o1, p, k) && k <= |p|
    ensures Contents(o1) == TreeFailed(Contents(o), p, k) <==>
      forall q :: q in o.whiteouts && q in o.base && Within(q, p, k + 1) ==> Within(q, p, k)
  {
    if forall q :: q in o.whiteouts && q in o.base && Within(q, p, k + 1) ==> Within(q, p, k) {
      assert forall q :: Shown(o1, q) == if Within(q, p, k) then Some(Dir) else Shown(o, q);
      assert Contents(o1) == TreeFailed(Contents(o), p, k);
    } else {
      var q :| q in o.whiteouts && q in o.base && Within(q, p, k + 1) && !Within(q, p, k);
      assert IsWhiteout(o.whiteouts, q);
      assert Shown(o, q).None? && Shown(o1, q).Some?;
      assert q in Contents(o1) && q !in TreeFailed(Contents(o), p, k);
    }
  }

  lemma OnlyNext(o: Layers, p: Components, k: nat)
    requires Inv(o) && k <= |p|
    ensures (forall q :: q in o.whiteouts && q in o.base && Within(q, p, k + 1) ==> Within(q, p, k)) <==>
      StopsClear(o, p, k)
  {
    if k < |p| {
      assert Within(p[..k + 1], p, k + 1) && !Within(p[..k + 1], p, k);
    }
    forall q | Within(q, p, k + 1) && !Within(q, p, k)
      ensures k < |p| && q == p[..k + 1]
    {
      if k < |p| { WithinNext(p, k, q); }
    }
  }

  lemma FailedMkdirAllHarmless(o: Layers, p: Components, mode: int, stale: set<Components>)
    requires Inv(o) && Clean(p)
    ensures var o1, k := MkdirAll(o, p, mode, stale).0, StopFrom(o, p, 0, stale);
      && Inv(o1)
      && (Contents(o1) == TreeFailed(Contents(o), p, k) <==> StopsClear(o, p, k))
  {
    MkdirAllExactly(o, p, mode, stale);
    LeftContents(o, MkdirAll(o, p, mode, stale).0, p, StopFrom(o, p, 0, stale));
    OnlyNext(o, p, StopFrom(o, p, 0, stale));
  }

  lemma FailedMkdirHarmless(o: Layers, op: OverlayOp)
    requires Inv(o) && op.DoMkdir? && Clean(op.path) && op.path != [] && Do(o, op).1.Failed?
    ensures var o1 := Do(o, op).0;
      Inv(o1) && Contents(o1) == TreeFailed(Contents(o), op.path, 0) <==> Harmless(o, op)
  {
    var p := op.path;
    FailedMkdirExactly(o, p, op.mode);
    var o1 := Do(o, op).0;
    ShownRoot(o);
    assert TreeFailed(Contents(o), p, 0) == Contents(o) by {
      assert forall q :: Within(q, p, 0) <==> q == [];
    }
    if p !in o.whiteouts {
      assert Contents(o1) == Contents(o);
    } else if Inv(o1) {
      UncoverKeepsExactly(o, p);
      WhiteoutExists(o.whiteouts, Up(p));
      assert IsWhiteout(o.whiteouts, p);
      assert p in Contents(o1) && p !in Contents(o);
    }
  }

  lemma FailedRemovalHarmless(o: Layers, op: OverlayOp)
    requires Inv(o) && (op.DoUnlink? || op.DoRmdir?) && Clean(op.path) && op.path != [] && Do(o, op).1.Failed?
    ensures Do(o, op).0 == o && TreeFailed(Contents(o), op.path, 0) == Contents(o)
  {
    UnlinkLaw(o.delta, op.path);
    RmdirLaw(o.delta, op.path);
    ShownRoot(o);
    assert forall q :: Within(q, op.path, 0) <==> q == [];
  }

  lemma FailedWriteHarmless(o: Layers, p: Components, data: Bytes, mode: int, stale: set<Components>)
    requires Inv(o) && Clean(p) && p != [] && WriteFile(o, p, data, mode, stale).1.Failed?
    ensures var o1, k := WriteFile(o, p, data, mode, stale).0, StopFrom(o, Up(p), 0, stale);
      Inv(o1) && Contents(o1) == TreeFailed(Contents(o), p, k) <==> p !in o.whiteouts && StopsClear(o, Up(p), k)
  {
    UpIsParent(p);
    FailedMkdirAllHarmless(o, Up(p), 0x1ed, stale);
    FailedWriteExactly(o, p, data, mode, stale);
    WriteHarmless(o, MkdirAll(o, Up(p), 0x1ed, stale).0, WriteFile(o, p, data, mode, stale).0, p, StopFrom(o, Up(p), 0, stale));
  }

  lemma WriteHarmless(o: Layers, o2: Layers, o1: Layers, p: Components, k: nat)
    requires Inv(o) && p != [] && k < |p| && Leaves(o, o2, Up(p), k)
    requires Contents(o2) == TreeFailed(Contents(o), Up(p), k) <==> StopsClear(o, Up(p), k)
    requires forall q :: Shown(o1, q) == if q == p && Reveals(o2, p) then Some(o.base[p]) else Shown(o2, q)
    requires Inv(o1) && Shown(o1, p) == Shown(o, p) <==> p !in o.whiteouts
    ensures Inv(o1) && Contents(o1) == TreeFailed(Contents(o), p, k) <==> p !in o.whiteouts && StopsClear(o, Up(p), k)
  {
    SameWithin(p, k);
    SameFailed(Contents(o), p, k);
    WriteKeepsContents(o, o2, o1, p, k);
    Weigh(Contents(o1), Contents(o2), TreeFailed(Contents(o), p, k), Inv(o1), p in o.whiteouts, StopsClear(o, Up(p), k));
  }

  lemma Weigh<T>(after: T, parent: T, wanted: T, inv: bool, whiteout: bool, clear: bool)
    requires parent == wanted <==> clear
    requires !whiteout ==> inv && after == parent
    requires whiteout && inv ==> after != wanted
    ensures inv && after == wanted <==> !whiteout && clear
  {
  }

  lemma SameFailed(m: imap<Components, Entry>, p: Components, k: nat)
    requires p != [] && forall q :: Within(q, Up(p), k) <==> Within(q, p, k)
    ensures TreeFailed(m, Up(p), k) == TreeFailed(m, p, k)
  {
  }

  lemma SameWithin(p: Components, k: nat)
    requires p != [] && k < |p|
    ensures forall q :: Within(q, Up(p), k) <==> Within(q, p, k)
  {
    forall q
      ensures Within(q, Up(p), k) <==> Within(q, p, k)
    {
      if Within(q, p, k) { assert q == Up(p)[..|q|]; }
    }
  }

  lemma WriteKeepsContents(o: Layers, o2: Layers, o1: Layers, p: Components, k: nat)
    requires Inv(o) && p != [] && k < |p| && Leaves(o, o2, Up(p), k)
    requires forall q :: Shown(o1, q) == if q == p && Reveals(o2, p) then Some(o.base[p]) else Shown(o2, q)
    requires Inv(o1) && Shown(o1, p) == Shown(o, p) <==> p !in o.whiteouts
    ensures p !in o.whiteouts ==> Inv(o1) && Contents(o1) == Contents(o2)
    ensures p in o.whiteouts && Inv(o1) ==> Contents(o1) != TreeFailed(Contents(o), p, k)
  {
    assert !Within(p, p, k) && !Within(p, Up(p), k + 1);
    if p !in o.whiteouts {
      assert forall q :: Shown(o1, q) == Shown(o2, q);
    } else {
      assert IsWhiteout(o.whiteouts, p);
      assert Inv(o1) ==> p in Contents(o1) && p !in TreeFailed(Contents(o), p, k);
    }
  }

  // A failing call keeps the closure and makes nothing but directories of its path appear exactly
  // when it met no whiteout.
  lemma FailureIsHarmlessExactly(o: Layers, op: OverlayOp)
    requires Inv(o) && Clean(op.path) && op.path != [] && !op.DoCopyUp? && Do(o, op).1.Failed?
    ensures var o1 := Do(o, op).0;
      Inv(o1) && Contents(o1) == TreeFailed(Contents(o), op.path, Made(o, op)) <==> Harmless(o, op)
  {
    match op
    case DoWriteFile(p, data, mode, stale) => FailedWriteHarmless(o, p, data, mode, stale);
    case DoMkdir(_, _) => FailedMkdirHarmless(o, op);
    case DoMkdirAll(p, mode, stale) => FailedMkdirAllHarmless(o, p, mode, stale);
    case DoUnlink(_) => FailedRemovalHarmless(o, op);
    case DoRmdir(_) => FailedRemovalHarmless(o, op);
  }

  // ---- Successful calls ----

  lemma WriteRefines(o: Layers, op: OverlayOp)
    requires Inv(o) && op.DoWriteFile? && Sound(o, op) && Do(o, op).1.Done?
    ensures Inv(Do(o, op).0) && Contents(Do(o, op).0) == TreeDo(Contents(o), op)
  {
    WriteFileLawful(o, op.path, op.data, op.mode, op.stale);
    WriteContents(o, Do(o, op).0, op);
  }

  lemma WriteContents(o: Layers, o1: Layers, op: OverlayOp)
    requires op.DoWriteFile? && Shown(o1, op.path).Some? && Erase(Shown(o1, op.path).value) == Regular(op.data)
    requires forall q :: q != op.path ==> Shown(o1, q) == (if q <= op.path then Some(Dir) else Shown(o, q))
    ensures Contents(o1) == TreeDo(Contents(o), op)
  {
  }

  lemma MkdirRefines(o: Layers, op: OverlayOp)
    requires Inv(o) && op.DoMkdir? && Sound(o, op) && Do(o, op).1.Done?
    ensures Inv(Do(o, op).0) && Contents(Do(o, op).0) == TreeDo(Contents(o), op)
  {
    MkdirLawful(o, op.path, op.mode);
    MkdirContents(o, Do(o, op).0, op);
  }

  lemma MkdirContents(o: Layers, o1: Layers, op: OverlayOp)
    requires op.DoMkdir? && forall q :: Shown(o1, q) == if q == op.path then Some(Dir) else Shown(o, q)
    ensures Contents(o1) == TreeDo(Contents(o), op)
  {
  }

  lemma MkdirAllRefines(o: Layers, op: OverlayOp)
    requires Inv(o) && op.DoMkdirAll? && Sound(o, op) && Do(o, op).1.Done?
    ensures Inv(Do(o, op).0) && Contents(Do(o, op).0) == TreeDo(Contents(o), op)
  {
    MkdirAllLawful(o, op.path, op.mode, op.stale);
  }

  // Taking one path away.
  lemma RemovalContents(o: Layers, o1: Layers, p: Components)
    requires forall q :: Shown(o1, q) == if q == p then None else Shown(o, q)
    ensures Contents(o1) == imap q | q in Contents(o) && q != p :: Contents(o)[q]
  {
  }

  lemma RemovalRefines(o: Layers, op: OverlayOp)
    requires Inv(o) && (op.DoUnlink? || op.DoRmdir?) && Sound(o, op) && Do(o, op).1.Done?
    ensures Inv(Do(o, op).0) && Contents(Do(o, op).0) == TreeDo(Contents(o), op)
  {
    if op.DoUnlink? {
      UnlinkLawful(o, op.path);
    } else {
      RmdirLawful(o, op.path);
    }
    RemovalContents(o, Do(o, op).0, op.path);
  }

  lemma SuccessRefines(o: Layers, op: OverlayOp)
    requires Inv(o) && Sound(o, op) && Do(o, op).1.Done?
    ensures Inv(Do(o, op).0)
    ensures Contents(Do(o, op).0) == TreeDo(Contents(o), op)
  {
    match op
    case DoWriteFile(_, _, _, _) => WriteRefines(o, op);
    case DoMkdir(_, _) => MkdirRefines(o, op);
    case DoMkdirAll(_, _, _) => MkdirAllRefines(o, op);
    case DoUnlink(_) => RemovalRefines(o, op);
    case DoRmdir(_) => RemovalRefines(o, op);
    case DoCopyUp(p) => CopyUpLawful(o, p);
  }

  lemma StepRefines(o: Layers, op: OverlayOp)
    requires Inv(o) && Sound(o, op)
    ensures Inv(Do(o, op).0)
    ensures Contents(Do(o, op).0) == TreeStep(Contents(o), op, OutcomeOf(o, op))
  {
    if Do(o, op).1.Done? {
      SuccessRefines(o, op);
    } else if op.DoCopyUp? {
      CopyUpLawful(o, op.path);
    } else {
      FailureIsHarmlessExactly(o, op);
    }
  }

  function Run(o: Layers, ops: seq<OverlayOp>): Layers
    decreases |ops|
  {
    if ops == [] then o else Run(Do(o, ops[0]).0, ops[1..])
  }

  ghost function Outcomes(o: Layers, ops: seq<OverlayOp>): (r: seq<Outcome>)
    ensures |r| == |ops|
    decreases |ops|
  {
    if ops == [] then [] else [OutcomeOf(o, ops[0])] + Outcomes(Do(o, ops[0]).0, ops[1..])
  }

  ghost function TreeRun(m: imap<Components, Entry>, ops: seq<OverlayOp>, outcomes: seq<Outcome>): imap<Components, Entry>
    requires |ops| == |outcomes|
    decreases |ops|
  {
    if ops == [] then m else TreeRun(TreeStep(m, ops[0], outcomes[0]), ops[1..], outcomes[1..])
  }

  ghost predicate SoundRun(o: Layers, ops: seq<OverlayOp>)
    decreases |ops|
  {
    ops == [] || (Sound(o, ops[0]) && SoundRun(Do(o, ops[0]).0, ops[1..]))
  }

  // Every sound run of the overlay, failing calls included, is a run of a plain tree: base, delta and
  // whiteouts together behave like one writable directory tree.
  lemma {:induction false} RunRefines(o: Layers, ops: seq<OverlayOp>)
    requires Inv(o) && SoundRun(o, ops)
    ensures Inv(Run(o, ops))
    ensures Contents(Run(o, ops)) == TreeRun(Contents(o), ops, Outcomes(o, ops))
    decreases |ops|
  {
    if ops != [] {
      var o1 := Do(o, ops[0]).0;
      StepRefines(o, ops[0]);
      RunRefines(o1, ops[1..]);
      assert Outcomes(o, ops)[1..] == Outcomes(o1, ops[1..]);
    }
  }

  // The operation makes something at or below q.
  predicate Makes(op: OverlayOp, q: Components) {
    match op
    case DoWriteFile(p, _, _, _) => q <= p
    case DoMkdir(p, _) => q == p
    case DoMkdirAll(p, _, _) => q <= p
    case _ => false
  }

  lemma NotMade(o: Layers, op: OverlayOp, q: Components)
    requires Inv(o) && Shown(o, q).None? && !Makes(op, q)
    ensures q !in TreeStep(Contents(o), op, OutcomeOf(o, op))
  {
    ShownRoot(o);
    assert q !in Contents(o);
  }

  // What is not shown stays so until an operation makes it: deleted base entries never
  // reappear by themselves, whatever whiteouts are removed above them.
  lemma {:induction false} NeverReappears(o: Layers, ops: seq<OverlayOp>, q: Components)
    requires Inv(o) && SoundRun(o, ops) && Shown(o, q).None?
    requires forall i :: 0 <= i < |ops| ==> !Makes(ops[i], q)
    ensures Shown(Run(o, ops), q).None?
    decreases |ops|
  {
    if ops != [] {
      StepRefines(o, ops[0]);
      var o1 := Do(o, ops[0]).0;
      NotMade(o, ops[0], q);
      assert q !in Contents(o1);
      NeverReappears(o1, ops[1..], q);
    }
  }

  // A directory removed and made again is empty.
  lemma RemadeDirectoryIsEmpty(o: Layers, p: Components, mode: int, n: string)
    requires Inv(o) && Clean(p) && p != [] && Rmdir(o, p).1.Done?
    requires var o1 := Rmdir(o, p).0; Mkdir(o1, p, mode).1.Done?
    ensures var o2 := Mkdir(Rmdir(o, p).0, p, mode).0; Shown(o2, p) == Some(Dir) && Shown(o2, p + [n]).None?
  {
    RmdirLawful(o, p);
    var o1 := Rmdir(o, p).0;
    MkdirLawful(o1, p, mode);
    assert Shown(o1, p + [n]).None?;
  }

  // Mounting: an empty delta over any base, no whiteouts.
  lemma MountInv(base: map<Components, Node>, chunkSize: Positive, mode: int)
    requires BaseValid(base)
    ensures var o := Layers(base, Initial(chunkSize, mode), {});
      Inv(o) && forall p :: Shown(o, p) == if p in base then Some(base[p]) else None
  {
    FreshMount(base, chunkSize, mode);
  }
}
