// mapWithConcurrency: a fixed number of workers that share one index, in every interleaving of
// their steps; and the sorting of the outcomes by resumeProjectPrincipals.
module WorkerPool {
  import opened Common

  // What the callback makes of an item: its promise settles either way.
  datatype Outcome<+R> = Value(value: R) | Throws(error: string)

  datatype Worker = Ready | Busy(index: nat) | Done | Failed(index: nat)

  // `calls` lists the indices the callback was called with, in order.
  datatype Pool<R> = Pool(nextIndex: nat, workers: seq<Worker>, results: seq<Option<R>>, calls: seq<nat>)

  function WorkerCount(concurrency: int, n: nat): nat {
    Min(if concurrency < 1 then 1 else concurrency, n)
  }

  function Start<R>(concurrency: int, n: nat): Pool<R> {
    Pool(0, seq(WorkerCount(concurrency, n), _ => Ready), seq(n, _ => None), [])
  }

  // One worker runs to its next await: a ready worker takes the next index, a busy one takes in the
  // outcome of its item.
  function Step<R>(p: Pool<R>, w: nat, out: seq<Outcome<R>>): Pool<R>
    requires |p.results| == |out|
  {
    if w >= |p.workers| then p
    else
      match p.workers[w]
      case Ready =>
        var i := p.nextIndex;
        if i >= |out| then p.(nextIndex := i + 1, workers := p.workers[w := Done])
        else Pool(i + 1, p.workers[w := Busy(i)], p.results, p.calls + [i])
      case Busy(i) =>
        if i >= |out| then p
        else if out[i].Value? then
          p.(workers := p.workers[w := Ready], results := p.results[i := Some(out[i].value)])
        else p.(workers := p.workers[w := Failed(i)])
      case Done => p
      case Failed(_) => p
  }

  function Run<R>(p: Pool<R>, schedule: seq<nat>, out: seq<Outcome<R>>): (q: Pool<R>)
    requires |p.results| == |out|
    ensures |q.results| == |out|
    decreases |schedule|
  {
    if schedule == [] then p else Run(Step(p, schedule[0], out), schedule[1..], out)
  }

  // ---- The invariant ----

  predicate Holds(w: Worker, i: nat) { w == Busy(i) || w == Failed(i) }

  predicate Held<R>(p: Pool<R>, i: nat) {
    exists w :: 0 <= w < |p.workers| && Holds(p.workers[w], i)
  }

  // Calls go up by one, so no index is taken twice and none is left out.
  predicate InOrder<R>(p: Pool<R>, n: nat) {
    |p.calls| == Min(p.nextIndex, n) && forall k :: 0 <= k < |p.calls| ==> p.calls[k] == k
  }

  predicate WorkersFit<R>(p: Pool<R>, out: seq<Outcome<R>>) {
    forall w :: 0 <= w < |p.workers| ==> WorkerFits(p, p.workers[w], out)
  }

  predicate WorkerFits<R>(p: Pool<R>, worker: Worker, out: seq<Outcome<R>>) {
    match worker
    case Ready => true
    case Busy(i) => i < p.nextIndex && i < |out| && i < |p.results| && p.results[i].None?
    case Failed(i) => i < p.nextIndex && i < |out| && out[i].Throws?
    case Done => p.nextIndex >= |out|
  }

  predicate Differ(v: Worker, w: Worker) {
    (v.Busy? || v.Failed?) && (w.Busy? || w.Failed?) ==> v.index != w.index
  }

  predicate Apart<R>(p: Pool<R>) {
    forall v, w :: 0 <= v < w < |p.workers| ==> Differ(p.workers[v], p.workers[w])
  }

  // An index is written, held by a worker, or not taken yet.
  ghost predicate ResultFits<R>(p: Pool<R>, i: nat, out: seq<Outcome<R>>)
    requires i < |p.results| == |out|
  {
    if i >= p.nextIndex then p.results[i].None?
    else if p.results[i].Some? then out[i] == Value(p.results[i].value)
    else Held(p, i)
  }

  ghost predicate ResultsFit<R>(p: Pool<R>, out: seq<Outcome<R>>)
    requires |p.results| == |out|
  {
    forall i :: 0 <= i < |out| ==> ResultFits(p, i, out)
  }

  ghost predicate Inv<R>(p: Pool<R>, out: seq<Outcome<R>>) {
    |p.results| == |out| && InOrder(p, |out|) && WorkersFit(p, out) && Apart(p) && ResultsFit(p, out)
  }

  lemma StartInv<R>(concurrency: int, out: seq<Outcome<R>>)
    ensures Inv(Start<R>(concurrency, |out|), out)
  {
  }

  // A worker changing does not move what the others hold.
  lemma HeldElsewhere<R>(p: Pool<R>, q: Pool<R>, w: nat, i: nat)
    requires w < |p.workers| == |q.workers| && q.workers == p.workers[w := q.workers[w]]
    requires Held(p, i) && (Holds(p.workers[w], i) ==> Holds(q.workers[w], i))
    ensures Held(q, i)
  {
    var v :| 0 <= v < |p.workers| && Holds(p.workers[v], i);
    assert Holds(q.workers[v], i);
  }

  lemma TakeInv<R>(p: Pool<R>, w: nat, out: seq<Outcome<R>>)
    requires Inv(p, out) && w < |p.workers| && p.workers[w].Ready?
    ensures Inv(Step(p, w, out), out)
  {
    var q := Step(p, w, out);
    forall v | 0 <= v < |q.workers| ensures WorkerFits(q, q.workers[v], out) {
      assert WorkerFits(p, p.workers[v], out);
      assert p.nextIndex < |out| ==> ResultFits(p, p.nextIndex, out);
    }
    forall v | 0 <= v < |p.workers| ensures v == w || Differ(p.workers[v], q.workers[w]) {
      assert WorkerFits(p, p.workers[v], out);
    }
    assert InOrder(q, |out|) && Apart(q);
    forall i | 0 <= i < |out| ensures ResultFits(q, i, out) {
      assert ResultFits(p, i, out);
      if i == p.nextIndex {
        assert Holds(q.workers[w], i);
      } else if i < p.nextIndex && p.results[i].None? {
        HeldElsewhere(p, q, w, i);
      }
    }
  }

  lemma SettleInv<R>(p: Pool<R>, w: nat, out: seq<Outcome<R>>)
    requires Inv(p, out) && w < |p.workers| && p.workers[w].Busy?
    ensures Inv(Step(p, w, out), out)
  {
    var q := Step(p, w, out);
    var j := p.workers[w].index;
    assert WorkerFits(p, p.workers[w], out);
    forall v | 0 <= v < |q.workers| ensures WorkerFits(q, q.workers[v], out) {
      assert WorkerFits(p, p.workers[v], out);
      assert v != w && p.workers[v].Busy? ==> !Holds(p.workers[v], j);
    }
    assert Apart(q);
    forall i | 0 <= i < |out| ensures ResultFits(q, i, out) {
      assert ResultFits(p, i, out);
      if i < p.nextIndex && q.results[i].None? {
        HeldElsewhere(p, q, w, i);
      }
    }
  }

  lemma StepInv<R>(p: Pool<R>, w: nat, out: seq<Outcome<R>>)
    requires Inv(p, out)
    ensures Inv(Step(p, w, out), out)
  {
    if w < |p.workers| {
      if p.workers[w].Ready? { TakeInv(p, w, out); }
      if p.workers[w].Busy? { SettleInv(p, w, out); }
    }
  }

  lemma {:induction false} RunInv<R>(p: Pool<R>, schedule: seq<nat>, out: seq<Outcome<R>>)
    requires Inv(p, out)
    ensures Inv(Run(p, schedule, out), out) && |Run(p, schedule, out).workers| == |p.workers|
    decreases |schedule|
  {
    if schedule != [] {
      StepInv(p, schedule[0], out);
      RunInv(Step(p, schedule[0], out), schedule[1..], out);
    }
  }

  // ---- Results ----

  function InFlight<R>(p: Pool<R>): set<nat> {
    set w | 0 <= w < |p.workers| && p.workers[w].Busy? :: p.workers[w].index
  }

  predicate BusyOn(workers: seq<Worker>, i: nat) {
    exists w :: 0 <= w < |workers| && workers[w] == Busy(i)
  }

  lemma {:induction false} FewInFlight(workers: seq<Worker>, held: set<nat>)
    requires forall i :: i in held ==> BusyOn(workers, i)
    ensures |held| <= |workers|
    decreases |workers|
  {
    if workers == [] {
      assert held == {};
    } else {
      var last := workers[|workers| - 1];
      var rest := if last.Busy? then held - {last.index} else held;
      var front := workers[..|workers| - 1];
      forall i | i in rest ensures BusyOn(front, i) {
        var w :| 0 <= w < |workers| && workers[w] == Busy(i);
        assert front[w] == Busy(i);
      }
      FewInFlight(front, rest);
    }
  }

  // However the workers interleave: the callback is called with 0, 1, 2, ... in that order, at most
  // min(max(1, concurrency), n) calls are in flight, an index in flight has no result yet, and a
  // result once there is the outcome of its own item.
  lemma EveryRun<R>(concurrency: int, schedule: seq<nat>, out: seq<Outcome<R>>)
    ensures var p := Run(Start<R>(concurrency, |out|), schedule, out);
      && |p.calls| <= |out| && (forall k :: 0 <= k < |p.calls| ==> p.calls[k] == k)
      && |InFlight(p)| <= |out| && (|InFlight(p)| <= concurrency || |InFlight(p)| <= 1)
      && (forall i :: i in InFlight(p) ==> i in p.calls && p.results[i].None?)
      && (forall i :: 0 <= i < |out| && p.results[i].Some? ==> i in p.calls && out[i] == Value(p.results[i].value))
  {
    StartInv(concurrency, out);
    RunInv(Start<R>(concurrency, |out|), schedule, out);
    var p := Run(Start<R>(concurrency, |out|), schedule, out);
    FewInFlight(p.workers, InFlight(p));
    forall i | i in InFlight(p) ensures i in p.calls && p.results[i].None? {
      var w :| 0 <= w < |p.workers| && p.workers[w] == Busy(i);
      assert WorkerFits(p, p.workers[w], out);
      assert p.calls[i] == i;
    }
    forall i | 0 <= i < |out| && p.results[i].Some? ensures i in p.calls && out[i] == Value(p.results[i].value) {
      assert ResultFits(p, i, out);
      assert p.calls[i] == i;
    }
  }

  // The pool after its first j workers have each taken an item.
  ghost predicate Loaded<R>(p: Pool<R>, j: nat) {
    && j <= |p.workers| && p.nextIndex == j && p.calls == seq(j, i => i)
    && forall w :: 0 <= w < |p.workers| ==> p.workers[w] == if w < j then Busy(w) else Ready
  }

  lemma LoadedNext<R>(p: Pool<R>, j: nat, out: seq<Outcome<R>>)
    requires |p.results| == |out| && Loaded(p, j) && j < |p.workers| && j < |out|
    ensures Loaded(Step(p, j, out), j + 1) && |Step(p, j, out).workers| == |p.workers|
  {
  }

  lemma {:induction false} LoadsUp<R>(p: Pool<R>, j: nat, k: nat, out: seq<Outcome<R>>)
    requires |p.results| == |out| && Loaded(p, j) && j <= k <= |p.workers| && k <= |out|
    ensures Loaded(Run(p, seq(k - j, i requires i >= 0 => j + i), out), k)
    ensures |Run(p, seq(k - j, i requires i >= 0 => j + i), out).workers| == |p.workers|
    decreases k - j
  {
    if j < k {
      var schedule := seq(k - j, i requires i >= 0 => j + i);
      assert schedule[1..] == seq(k - (j + 1), i requires i >= 0 => j + 1 + i);
      LoadedNext(p, j, out);
      LoadsUp(Step(p, j, out), j + 1, k, out);
    }
  }

  // The bound is reached: as many items as the concurrency allows, and there are, can be in flight
  // at once, by as many workers.
  lemma FullLoad<R>(concurrency: int, out: seq<Outcome<R>>)
    ensures var k := if concurrency < 1 then Min(1, |out|) else Min(concurrency, |out|);
      var p := Run(Start<R>(concurrency, |out|), seq(k, i requires i >= 0 => 0 + i), out);
      |p.workers| == k && forall w :: 0 <= w < k ==> p.workers[w] == Busy(w)
  {
    var p := Start<R>(concurrency, |out|);
    LoadsUp(p, 0, |p.workers|, out);
  }


  predicate Finished<R>(p: Pool<R>) {
    forall w :: 0 <= w < |p.workers| ==> p.workers[w].Done? || p.workers[w].Failed?
  }

  // Promise.all fulfils when every worker returned.
  predicate Fulfilled<R>(p: Pool<R>) {
    forall w :: 0 <= w < |p.workers| ==> p.workers[w].Done?
  }

  predicate AllValues<R>(out: seq<Outcome<R>>) {
    forall i :: 0 <= i < |out| ==> out[i].Value?
  }

  lemma FulfilledIsComplete<R>(p: Pool<R>, out: seq<Outcome<R>>)
    requires Inv(p, out) && Fulfilled(p) && (|out| > 0 ==> |p.workers| > 0)
    ensures |p.calls| == |out|
    ensures forall i :: 0 <= i < |out| ==> p.results[i].Some? && out[i] == Value(p.results[i].value)
  {
    if |out| > 0 {
      assert WorkerFits(p, p.workers[0], out);
    }
    forall i | 0 <= i < |out| ensures p.results[i].Some? && out[i] == Value(p.results[i].value) {
      assert ResultFits(p, i, out) && !Held(p, i);
    }
  }

  // Once every worker has ended, the whole call succeeds exactly when no item throws, and then every
  // item was processed once and results[i] is the outcome of items[i].
  lemma FinishedExactly<R>(concurrency: int, schedule: seq<nat>, out: seq<Outcome<R>>)
    requires Finished(Run(Start<R>(concurrency, |out|), schedule, out))
    ensures var p := Run(Start<R>(concurrency, |out|), schedule, out);
      && (Fulfilled(p) <==> AllValues(out))
      && (Fulfilled(p) ==>
        && p.calls == seq(|out|, i => i)
        && p.results == seq(|out|, i requires 0 <= i < |out| => Some(out[i].value)))
  {
    StartInv(concurrency, out);
    RunInv(Start<R>(concurrency, |out|), schedule, out);
    var p := Run(Start<R>(concurrency, |out|), schedule, out);
    if Fulfilled(p) {
      FulfilledIsComplete(p, out);
    } else {
      var w :| 0 <= w < |p.workers| && !p.workers[w].Done?;
      assert WorkerFits(p, p.workers[w], out);
    }
  }

  // ---- Progress ----

  function Weight(w: Worker): nat {
    match w case Ready => 1 case Busy(_) => 2 case Done => 0 case Failed(_) => 0
  }

  function Weights(ws: seq<Worker>): nat {
    if ws == [] then 0 else Weight(ws[0]) + Weights(ws[1..])
  }

  lemma {:induction false} WeightsUpdate(ws: seq<Worker>, w: nat, x: Worker)
    requires w < |ws|
    ensures Weights(ws[w := x]) == Weights(ws) - Weight(ws[w]) + Weight(x)
    decreases |ws|
  {
    if w == 0 {
      assert ws[0 := x][1..] == ws[1..];
    } else {
      assert ws[w := x][1..] == ws[1..][w - 1 := x];
      WeightsUpdate(ws[1..], w - 1, x);
    }
  }

  function Left<R>(p: Pool<R>, n: nat): nat {
    2 * (if p.nextIndex < n then n - p.nextIndex else 0) + Weights(p.workers)
  }

  // Until every worker has ended some worker can step, and every such step brings the end nearer.
  lemma Progress<R>(p: Pool<R>, w: nat, out: seq<Outcome<R>>)
    requires Inv(p, out) && w < |p.workers| && (p.workers[w].Ready? || p.workers[w].Busy?)
    ensures Left(Step(p, w, out), |out|) < Left(p, |out|)
  {
    var q := Step(p, w, out);
    assert WorkerFits(p, p.workers[w], out);
    WeightsUpdate(p.workers, w, q.workers[w]);
    assert q.workers == p.workers[w := q.workers[w]];
  }

  lemma {:induction false} WeightsReady(n: nat)
    ensures Weights(seq(n, _ => Ready)) == n
  {
    if n > 0 {
      var ws := seq(n, _ => Ready);
      assert ws[1..] == seq(n - 1, _ => Ready);
      WeightsReady(n - 1);
    }
  }

  lemma StartLeft<R>(concurrency: int, n: nat)
    ensures Left(Start<R>(concurrency, n), n) == 2 * n + WorkerCount(concurrency, n)
  {
    WeightsReady(WorkerCount(concurrency, n));
    assert Start<R>(concurrency, n).workers == seq(WorkerCount(concurrency, n), _ => Ready);
  }

  predicate Active<R>(p: Pool<R>, w: nat) {
    w < |p.workers| && (p.workers[w].Ready? || p.workers[w].Busy?)
  }

  // A schedule that only picks workers able to step.
  predicate Fair<R>(p: Pool<R>, schedule: seq<nat>, out: seq<Outcome<R>>)
    requires |p.results| == |out|
    decreases |schedule|
  {
    schedule == [] || (Active(p, schedule[0]) && Fair(Step(p, schedule[0], out), schedule[1..], out))
  }

  lemma {:induction false} FairIsBounded<R>(p: Pool<R>, schedule: seq<nat>, out: seq<Outcome<R>>)
    requires Inv(p, out) && Fair(p, schedule, out)
    ensures |schedule| + Left(Run(p, schedule, out), |out|) <= Left(p, |out|)
    decreases |schedule|
  {
    if schedule != [] {
      StepInv(p, schedule[0], out);
      Progress(p, schedule[0], out);
      FairIsBounded(Step(p, schedule[0], out), schedule[1..], out);
    }
  }

  // The call ends: no schedule of effective steps is longer than 2n + workers, and one that cannot
  // go on has finished.
  lemma {:induction false} Terminates<R>(concurrency: int, schedule: seq<nat>, out: seq<Outcome<R>>)
    requires Fair(Start<R>(concurrency, |out|), schedule, out)
    ensures |schedule| <= 2 * |out| + WorkerCount(concurrency, |out|)
    ensures var p := Run(Start<R>(concurrency, |out|), schedule, out);
      Finished(p) <==> forall w :: !Active(p, w)
  {
    StartInv(concurrency, out);
    FairIsBounded(Start<R>(concurrency, |out|), schedule, out);
    StartLeft<R>(concurrency, |out|);
    var p := Run(Start<R>(concurrency, |out|), schedule, out);
    if forall w :: !Active(p, w) {
      forall w | 0 <= w < |p.workers| ensures p.workers[w].Done? || p.workers[w].Failed? {
        assert !Active(p, w);
      }
    }
  }
}

// The bootstrap resume of a project's principals.
module BootstrapResume {
  import opened Common
  import opened WorkerPool

  datatype Agent = Agent(sessionId: string, sessionJsonlPath: string, online: bool, principalId: string, name: string)

  // How resumePrincipalForBootstrap ends for an agent.
  datatype Resume = Spawned(spawnId: string) | NoSpawn(status: string) | Threw(message: string)

  datatype Report =
    | Resumed(sessionId: string, spawnId: string)
    | Skipped(sessionId: string, reason: string)
    | Errored(sessionId: string, error: string)

  // The callback given to the pool: it catches what the resume throws.
  function ResumeOne(a: Agent, resume: Resume): Report {
    if a.sessionJsonlPath == "" then Skipped(a.sessionId, "missing session path")
    else if a.online then Skipped(a.sessionId, "already online")
    else if a.principalId == "" && a.name == "" then Skipped(a.sessionId, "missing principal id")
    else
      match resume
      case Spawned(id) => Resumed(a.sessionId, id)
      case NoSpawn(status) => Skipped(a.sessionId, status)
      case Threw(message) => Errored(a.sessionId, message)
  }

  function Outcomes(agents: seq<Agent>, resumes: seq<Resume>): seq<Outcome<Report>>
    requires |agents| == |resumes|
  {
    seq(|agents|, i requires 0 <= i < |agents| => Value(ResumeOne(agents[i], resumes[i])))
  }

  datatype Lists = Lists(resumed: seq<Report>, skipped: seq<Report>, errors: seq<Report>)

  datatype Kind = IsResumed | IsSkipped | IsErrored

  function KindOf(r: Report): Kind {
    match r case Resumed(_, _) => IsResumed case Skipped(_, _) => IsSkipped case Errored(_, _) => IsErrored
  }

  function Kinds(rs: seq<Report>): seq<Kind> {
    seq(|rs|, i requires 0 <= i < |rs| => KindOf(rs[i]))
  }

  function ListOf(l: Lists, k: Kind): seq<Report> {
    match k case IsResumed => l.resumed case IsSkipped => l.skipped case IsErrored => l.errors
  }

  function WithList(l: Lists, k: Kind, xs: seq<Report>): Lists {
    match k case IsResumed => l.(resumed := xs) case IsSkipped => l.(skipped := xs) case IsErrored => l.(errors := xs)
  }

  // Puts a candidate-ordered list together again: from the last candidate back, each takes the last
  // entry of the list its kind names.
  function Merge(kinds: seq<Kind>, l: Lists): Option<seq<Report>>
    decreases |kinds|
  {
    if kinds == [] then (if l == Lists([], [], []) then Some([]) else None)
    else
      var k := kinds[|kinds| - 1];
      var xs := ListOf(l, k);
      if xs == [] then None
      else
        var front := Merge(kinds[..|kinds| - 1], WithList(l, k, xs[..|xs| - 1]));
        if front.None? then None else Some(front.value + [xs[|xs| - 1]])
  }

  predicate Rebuilds(rs: seq<Report>, l: Lists) { Merge(Kinds(rs), l) == Some(rs) }

  function Added(l: Lists, r: Report): Lists {
    WithList(l, KindOf(r), ListOf(l, KindOf(r)) + [r])
  }

  lemma MergeSnoc(rs: seq<Report>, r: Report, before: Lists)
    requires Rebuilds(rs, before)
    ensures Rebuilds(rs + [r], Added(before, r))
  {
    var kinds, after := Kinds(rs + [r]), Added(before, r);
    assert kinds[..|kinds| - 1] == Kinds(rs) && kinds[|kinds| - 1] == KindOf(r);
    var xs := ListOf(after, KindOf(r));
    assert xs[..|xs| - 1] == ListOf(before, KindOf(r));
    assert WithList(after, KindOf(r), xs[..|xs| - 1]) == before;
  }

  // Every entry is in the list of its kind, n in all.
  predicate Sorted(l: Lists, n: nat) {
    && |l.resumed| + |l.skipped| + |l.errors| == n
    && (forall r :: r in l.resumed ==> r.Resumed?)
    && (forall r :: r in l.skipped ==> r.Skipped?)
    && (forall r :: r in l.errors ==> r.Errored?)
  }

  lemma SortedSnoc(before: Lists, n: nat, r: Report)
    requires Sorted(before, n)
    ensures Sorted(Added(before, r), n + 1)
  {
  }

  predicate SortedSoFar(outcomes: seq<Report>, i: nat, l: Lists) {
    i <= |outcomes| && Sorted(l, i) && Rebuilds(outcomes[..i], l)
  }

  lemma SortStep(outcomes: seq<Report>, i: nat, l: Lists)
    requires i < |outcomes| && SortedSoFar(outcomes, i, l)
    ensures SortedSoFar(outcomes, i + 1, Added(l, outcomes[i]))
  {
    SortedSnoc(l, i, outcomes[i]);
    MergeSnoc(outcomes[..i], outcomes[i], l);
    assert outcomes[..i + 1] == outcomes[..i] + [outcomes[i]];
  }

  // The loop over the outcomes: every outcome goes to the list of its kind, and the three lists
  // together are the outcomes, in order.
  method SortOutcomes(outcomes: seq<Report>) returns (l: Lists)
    ensures Sorted(l, |outcomes|)
    ensures Rebuilds(outcomes, l)
  {
    l := Lists([], [], []);
    var i := 0;
    while i < |outcomes|
      invariant 0 <= i <= |outcomes| && SortedSoFar(outcomes, i, l)
    {
      var o := outcomes[i];
      ghost var before := l;
      match o {
        case Resumed(_, _) => l := l.(resumed := l.resumed + [o]);
        case Skipped(_, _) => l := l.(skipped := l.skipped + [o]);
        case Errored(_, _) => l := l.(errors := l.errors + [o]);
      }
      SortStep(outcomes, i, before);
      i := i + 1;
    }
    assert outcomes[..i] == outcomes;
  }

  // A candidate can be resumed when it has a session on disk, is offline and has a principal or a name.
  predicate Resumable(a: Agent) {
    a.sessionJsonlPath != "" && !a.online && (a.principalId != "" || a.name != "")
  }

  // Each kind of report says what became of the candidate.
  lemma ReportExactly(a: Agent, resume: Resume)
    ensures var r := ResumeOne(a, resume);
      && r.sessionId == a.sessionId
      && (r.Resumed? <==> Resumable(a) && resume.Spawned?) && (r.Resumed? ==> r.spawnId == resume.spawnId)
      && (r.Errored? <==> Resumable(a) && resume.Threw?) && (r.Errored? ==> r.error == resume.message)
      && (Resumable(a) && resume.NoSpawn? ==> r == Skipped(a.sessionId, resume.status))
      && (a.sessionJsonlPath == "" ==> r == Skipped(a.sessionId, "missing session path"))
      && (a.sessionJsonlPath != "" && a.online ==> r == Skipped(a.sessionId, "already online"))
      && (a.sessionJsonlPath != "" && !a.online && !Resumable(a) ==> r == Skipped(a.sessionId, "missing principal id"))
  {
  }

  // Whatever the interleaving and however each resume ends, the finished pool always fulfils, and
  // its results are one report per candidate, in the candidates' order and with their sessions.
  lemma ResumeReportsEveryCandidate(agents: seq<Agent>, resumes: seq<Resume>, concurrency: int, schedule: seq<nat>)
    requires |agents| == |resumes|
    requires Finished(Run(Start<Report>(concurrency, |agents|), schedule, Outcomes(agents, resumes)))
    ensures var p := Run(Start<Report>(concurrency, |agents|), schedule, Outcomes(agents, resumes));
      && Fulfilled(p) && |p.results| == |agents|
      && forall i :: 0 <= i < |agents| ==>
        p.results[i] == Some(ResumeOne(agents[i], resumes[i])) && p.results[i].value.sessionId == agents[i].sessionId
  {
    var out := Outcomes(agents, resumes);
    assert AllValues(out) && |out| == |agents|;
    FinishedExactly(concurrency, schedule, out);
  }
}
