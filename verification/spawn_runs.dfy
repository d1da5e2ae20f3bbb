// Runs of the managed-agent table told from their events alone.
module SpawnRuns {
  import opened Common
  import opened SpawnTable

  // The table after the first n events.
  function At(ops: seq<Op>, n: nat): Table
    requires n <= |ops|
  {
    Run(Start(), ops[..n])
  }

  predicate Fresh(ops: seq<Op>) { FreshIds(Start(), ops) }

  lemma {:induction false} RunSnoc(t: Table, ops: seq<Op>, op: Op)
    ensures Run(t, ops + [op]) == Do(Run(t, ops), op)
    ensures FreshIds(t, ops + [op]) <==> FreshIds(t, ops) && FreshId(Run(t, ops), op)
    decreases |ops|
  {
    var longer := ops + [op];
    if ops == [] {
      assert longer == [op] && longer[1..] == [];
      assert Run(Do(t, op), []) == Do(t, op) && FreshIds(Do(t, op), []);
    } else {
      assert longer[0] == ops[0] && longer[1..] == ops[1..] + [op];
      RunSnoc(Do(t, ops[0]), ops[1..], op);
      assert FreshIds(t, longer) <==> FreshId(t, longer[0]) && FreshIds(Do(t, ops[0]), longer[1..]);
    }
  }

  lemma {:induction false} FreshPrefix(ops: seq<Op>, n: nat)
    requires Fresh(ops) && n <= |ops|
    ensures Fresh(ops[..n])
    decreases |ops| - n
  {
    if n < |ops| {
      FreshPrefix(ops, n + 1);
      assert ops[..n + 1] == ops[..n] + [ops[n]];
      RunSnoc(Start(), ops[..n], ops[n]);
    } else {
      assert ops[..n] == ops;
    }
  }

  // One event more.
  lemma AtNext(ops: seq<Op>, n: nat)
    requires Fresh(ops) && n < |ops|
    ensures At(ops, n + 1) == Do(At(ops, n), ops[n]) && FreshId(At(ops, n), ops[n]) && Inv(At(ops, n))
  {
    FreshPrefix(ops, n + 1);
    assert ops[..n + 1] == ops[..n] + [ops[n]];
    RunSnoc(Start(), ops[..n], ops[n]);
    RunInv(Start(), ops[..n]);
  }

  // ---- Which agents are made, and which are live ----

  // The i-th event starts the agent: the configuration is good and its scope is free.
  predicate Starts(ops: seq<Op>, i: nat, id: Id) {
    && i < |ops| && ops[i].Spawn? && ops[i].id == id && ops[i].ok
    && !InUse(At(ops, i), ops[i].principalId, ops[i].projectId)
  }

  predicate Ends(op: Op, id: Id) { (op.Error? || op.Exit?) && op.id == id }

  ghost predicate EndedIn(ops: seq<Op>, i: nat, n: nat, id: Id)
    requires n <= |ops|
  {
    exists j :: i < j < n && Ends(ops[j], id)
  }

  ghost predicate MadeBy(ops: seq<Op>, n: nat, id: Id) {
    exists i: nat :: i < n && Starts(ops, i, id)
  }

  ghost predicate LiveBy(ops: seq<Op>, n: nat, id: Id)
    requires n <= |ops|
  {
    exists i: nat :: i < n && Starts(ops, i, id) && !EndedIn(ops, i, n, id)
  }

  lemma {:induction false} MadeAt(ops: seq<Op>, n: nat, id: Id)
    requires Fresh(ops) && n <= |ops|
    ensures id in At(ops, n).made <==> MadeBy(ops, n, id)
    decreases n
  {
    if n > 0 {
      AtNext(ops, n - 1);
      MadeAt(ops, n - 1, id);
      assert MadeBy(ops, n, id) <==> MadeBy(ops, n - 1, id) || Starts(ops, n - 1, id);
    }
  }

  lemma EndedNext(ops: seq<Op>, i: nat, n: nat, id: Id)
    requires i < n < |ops|
    ensures EndedIn(ops, i, n + 1, id) <==> EndedIn(ops, i, n, id) || Ends(ops[n], id)
  {
  }

  lemma LiveNext(ops: seq<Op>, n: nat, id: Id)
    requires Fresh(ops) && n < |ops|
    ensures LiveBy(ops, n + 1, id) <==> Starts(ops, n, id) || (LiveBy(ops, n, id) && !Ends(ops[n], id))
  {
    if LiveBy(ops, n, id) {
      var i: nat :| i < n && Starts(ops, i, id) && !EndedIn(ops, i, n, id);
      EndedNext(ops, i, n, id);
    }
    if LiveBy(ops, n + 1, id) {
      var i: nat :| i < n + 1 && Starts(ops, i, id) && !EndedIn(ops, i, n + 1, id);
      if i < n {
        EndedNext(ops, i, n, id);
      }
    }
    assert !EndedIn(ops, n, n + 1, id);
  }

  lemma LiveStep(t: Table, op: Op, id: Id)
    requires Inv(t)
    ensures id in Do(t, op).live <==>
      (op.Spawn? && op.id == id && op.ok && !InUse(t, op.principalId, op.projectId)) || (id in t.live && !Ends(op, id))
  {
  }

  // An agent is live exactly when its spawn started it and it has neither failed nor exited since.
  lemma {:induction false} LiveExactly(ops: seq<Op>, n: nat, id: Id)
    requires Fresh(ops) && n <= |ops|
    ensures id in At(ops, n).live <==> LiveBy(ops, n, id)
    decreases n
  {
    if n > 0 {
      AtNext(ops, n - 1);
      LiveExactly(ops, n - 1, id);
      LiveNext(ops, n - 1, id);
      LiveStep(At(ops, n - 1), ops[n - 1], id);
    }
  }

  // ---- What is known of an agent ----

  // The j-th event publishes the session of the agent that the i-th started.
  ghost predicate Publishes(ops: seq<Op>, i: nat, j: nat, id: Id, sessionId: string)
    requires j < |ops|
  {
    i < j && ops[j] == SessionStarted(id, Some(sessionId)) && sessionId != "" && !EndedIn(ops, i, j, id)
  }

  ghost predicate LastPublished(ops: seq<Op>, i: nat, n: nat, id: Id, sessionId: string)
    requires n <= |ops|
  {
    exists j: nat :: j < n && Publishes(ops, i, j, id, sessionId) && NonePublished(ops, i, j + 1, n, id)
  }

  ghost predicate NonePublished(ops: seq<Op>, i: nat, from: nat, n: nat, id: Id)
    requires n <= |ops|
  {
    forall k: nat, s :: from <= k < n ==> !Publishes(ops, i, k, id, s)
  }

  lemma PublishedNext(ops: seq<Op>, i: nat, n: nat, id: Id, s: string)
    requires n < |ops|
    ensures LastPublished(ops, i, n + 1, id, s) <==>
      Publishes(ops, i, n, id, s) || (LastPublished(ops, i, n, id, s) && NonePublished(ops, i, n, n + 1, id))
  {
    if LastPublished(ops, i, n + 1, id, s) {
      var j: nat :| j < n + 1 && Publishes(ops, i, j, id, s) && NonePublished(ops, i, j + 1, n + 1, id);
      assert j < n ==> NonePublished(ops, i, j + 1, n, id);
    }
    if LastPublished(ops, i, n, id, s) && NonePublished(ops, i, n, n + 1, id) {
      var j: nat :| j < n && Publishes(ops, i, j, id, s) && NonePublished(ops, i, j + 1, n, id);
      assert NonePublished(ops, i, j + 1, n + 1, id);
    }
    if Publishes(ops, i, n, id, s) {
      assert NonePublished(ops, i, n + 1, n + 1, id);
    }
  }

  lemma StartsOnce(ops: seq<Op>, i: nat, k: nat, id: Id)
    requires Fresh(ops) && Starts(ops, i, id) && Starts(ops, k, id)
    ensures i == k
  {
    var first, last := if i < k then i else k, if i < k then k else i;
    if first < last {
      AtNext(ops, last);
      MadeAt(ops, last, id);
      assert MadeBy(ops, last, id);
    }
  }

  lemma LiveSince(ops: seq<Op>, i: nat, n: nat, id: Id)
    requires Fresh(ops) && Starts(ops, i, id) && i < n <= |ops|
    ensures id in At(ops, n).live <==> !EndedIn(ops, i, n, id)
    ensures id in At(ops, n).made
  {
    LiveExactly(ops, n, id);
    MadeAt(ops, n, id);
    assert MadeBy(ops, n, id);
    if LiveBy(ops, n, id) {
      var k: nat :| k < n && Starts(ops, k, id) && !EndedIn(ops, k, n, id);
      StartsOnce(ops, i, k, id);
    }
  }

  lemma AgentStep(t: Table, op: Op, id: Id)
    requires Inv(t) && FreshId(t, op) && id in t.made
    ensures var a, b := t.made[id], Do(t, op).made;
      && id in b && b[id].principalId == a.principalId && b[id].projectId == a.projectId
      && b[id].sessionId ==
           if op.SessionStarted? && op.id == id && id in t.live && !Falsy(op.sessionId) then op.sessionId else a.sessionId
  {
  }

  lemma AgentMade(ops: seq<Op>, i: nat, id: Id)
    requires Fresh(ops) && Starts(ops, i, id)
    ensures id in At(ops, i + 1).made && At(ops, i + 1).made[id] == Agent(ops[i].principalId, ops[i].projectId, None)
  {
    AtNext(ops, i);
  }

  // An agent has the principal and project of its spawn, and the session published last while it
  // was live.
  lemma {:induction false} AgentExactly(ops: seq<Op>, i: nat, n: nat, id: Id, s: string)
    requires Fresh(ops) && Starts(ops, i, id) && i < n <= |ops|
    ensures id in At(ops, n).made
    ensures var a := At(ops, n).made[id];
      && a.principalId == ops[i].principalId && a.projectId == ops[i].projectId
      && (a.sessionId == Some(s) <==> LastPublished(ops, i, n, id, s))
    decreases n
  {
    LiveSince(ops, i, n, id);
    if n == i + 1 {
      AgentMade(ops, i, id);
    } else {
      AtNext(ops, n - 1);
      LiveSince(ops, i, n - 1, id);
      AgentExactly(ops, i, n - 1, id, s);
      AgentStep(At(ops, n - 1), ops[n - 1], id);
      PublishedNext(ops, i, n - 1, id, s);
      SessionNext(ops, i, n - 1, id, s);
    }
  }

  lemma SessionNext(ops: seq<Op>, i: nat, n: nat, id: Id, s: string)
    requires i < n < |ops|
    ensures var op := ops[n];
      var now := op.SessionStarted? && op.id == id && !EndedIn(ops, i, n, id) && !Falsy(op.sessionId);
      && (Publishes(ops, i, n, id, s) <==> now && op.sessionId == Some(s))
      && (NonePublished(ops, i, n, n + 1, id) <==> !now)
  {
    var op := ops[n];
    if op.SessionStarted? && op.id == id && !EndedIn(ops, i, n, id) && !Falsy(op.sessionId) {
      assert Publishes(ops, i, n, id, op.sessionId.value);
    }
  }

  // ---- When a spawn starts ----

  // The agent of the i-th event is in the scope that `op` asks for.
  predicate InScope(started: Op, op: Op)
    requires started.Spawn? && op.Spawn?
  {
    started.principalId == op.principalId && (Falsy(op.projectId) || started.projectId == op.projectId)
  }

  // A spawn of a good configuration starts exactly when every agent started before in its scope has
  // ended.
  lemma SpawnStartsExactly(ops: seq<Op>, n: nat)
    requires Fresh(ops) && n < |ops| && ops[n].Spawn?
    ensures Starts(ops, n, ops[n].id) <==>
      ops[n].ok && forall i: nat, id :: i < n && Starts(ops, i, id) && InScope(ops[i], ops[n]) ==> EndedIn(ops, i, n, id)
  {
    var op, t := ops[n], At(ops, n);
    forall i: nat, id | i < n && Starts(ops, i, id)
      ensures id in t.made && (id in t.live <==> !EndedIn(ops, i, n, id))
      ensures SameScope(t.made[id], op.principalId, op.projectId) <==> InScope(ops[i], op)
    {
      LiveSince(ops, i, n, id);
      AgentExactly(ops, i, n, id, "");
    }
    if InUse(t, op.principalId, op.projectId) {
      var id :| id in t.live && id in t.made && SameScope(t.made[id], op.principalId, op.projectId);
      MadeAt(ops, n, id);
      var i: nat :| i < n && Starts(ops, i, id);
      assert !EndedIn(ops, i, n, id) && InScope(ops[i], op);
    }
  }

  // ---- Who waits, and what is told ----

  lemma {:induction false} RunSplit(t: Table, a: seq<Op>, b: seq<Op>)
    ensures Run(t, a + b) == Run(Run(t, a), b)
    ensures FreshIds(t, a + b) ==> FreshIds(Run(t, a), b)
    decreases |a|
  {
    if a == [] {
      assert a + b == b;
    } else {
      assert (a + b)[0] == a[0] && (a + b)[1..] == a[1..] + b;
      RunSplit(Do(t, a[0]), a[1..], b);
    }
  }

  // The caller of a spawn that asked to wait is told the first event of its agent, once; the caller of
  // one that did not is told nothing.
  lemma CallersHear(ops: seq<Op>, i: nat)
    requires Fresh(ops) && i < |ops| && ops[i].Spawn?
    ensures var id, t, d := ops[i].id, Run(Start(), ops), FirstDecision(ops[i + 1..], ops[i].id);
      var waits := ops[i].wait && Starts(ops, i, id);
      && (waits ==> (id in t.waiters <==> d.None?))
      && (waits ==> Told(t.log, id) == if d.None? then [] else [d.value])
      && (!waits && Starts(ops, i, id) ==> id !in t.waiters && Told(t.log, id) == [])
  {
    var t, op, rest := At(ops, i), ops[i], ops[i + 1..];
    AtNext(ops, i);
    assert ops == ops[..i + 1] + rest;
    RunSplit(Start(), ops[..i + 1], rest);
    StepInv(t, op);
    if Starts(ops, i, op.id) {
      NotTold(Do(t, op).log, op.id);
      if op.wait {
        WaiterIsTold(Do(t, op), rest, op.id);
      } else {
        NeverToldAgain(Do(t, op), rest, op.id);
      }
    }
  }
}
