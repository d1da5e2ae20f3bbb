// The managed-agent table: spawning, the first session of an agent, its end, and the callers that
// wait for the session to start.
module SpawnTable {
  import opened Common

  type Id = string
  datatype Agent = Agent(principalId: string, projectId: Option<string>, sessionId: Option<string>)

  datatype Verdict = Resolved(sessionId: string) | Rejected(why: Reason)
  datatype Reason = SpawnError | NoSessionId | ExitedFirst | TimedOut
  datatype Settled = Settled(id: Id, verdict: Verdict)

  // `made` holds every agent object created, as its event handlers see it; `live` the ids in the
  // agents map; `waiters` and `timers` the pending start waiters and their armed timeouts; `log`
  // what waiters were told, in order.
  datatype Table = Table(made: map<Id, Agent>, live: set<Id>, waiters: set<Id>, timers: set<Id>, log: seq<Settled>)

  // `ok` is false when the configuration is refused or the launch itself throws.
  datatype Op =
    | Spawn(id: Id, principalId: string, projectId: Option<string>, wait: bool, ok: bool)
    | Error(id: Id)
    | SessionStarted(id: Id, sessionId: Option<string>)
    | Exit(id: Id)
    | Timeout(id: Id)

  function Start(): Table { Table(map[], {}, {}, {}, []) }

  // A missing or empty string is false to a test.
  predicate Falsy(s: Option<string>) { s.None? || s.value == "" }

  predicate SameScope(a: Agent, principalId: string, projectId: Option<string>) {
    a.principalId == principalId && (Falsy(projectId) || a.projectId == projectId)
  }

  predicate InUse(t: Table, principalId: string, projectId: Option<string>) {
    exists id :: id in t.live && id in t.made && SameScope(t.made[id], principalId, projectId)
  }

  // ---- Steps ----

  function Settle(t: Table, id: Id, v: Verdict): Table {
    if id !in t.waiters then t
    else t.(timers := t.timers - {id}, waiters := t.waiters - {id}, log := t.log + [Settled(id, v)])
  }

  function Launch(t: Table, id: Id, principalId: string, projectId: Option<string>, wait: bool): Table {
    var u := t.(made := t.made[id := Agent(principalId, projectId, None)], live := t.live + {id});
    if wait then u.(waiters := u.waiters + {id}, timers := u.timers + {id}) else u
  }

  function Do(t: Table, op: Op): Table {
    match op
    case Spawn(id, principalId, projectId, wait, ok) =>
      if !ok || InUse(t, principalId, projectId) then t else Launch(t, id, principalId, projectId, wait)
    case Error(id) => Settle(t.(live := t.live - {id}), id, Rejected(SpawnError))
    case SessionStarted(id, sessionId) =>
      if id !in t.live || id !in t.made then t
      else if Falsy(sessionId) then Settle(t, id, Rejected(NoSessionId))
      else Settle(t.(made := t.made[id := t.made[id].(sessionId := sessionId)]), id, Resolved(sessionId.value))
    case Exit(id) =>
      if id !in t.made then t
      else
        var u := t.(live := t.live - {id});
        if Falsy(t.made[id].sessionId) then Settle(u, id, Rejected(ExitedFirst)) else u
    case Timeout(id) => if id in t.timers then Settle(t, id, Rejected(TimedOut)) else t
  }

  function Run(t: Table, ops: seq<Op>): Table
    decreases |ops|
  {
    if ops == [] then t else Run(Do(t, ops[0]), ops[1..])
  }

  // Spawn ids carry the time and a random part; they are taken not to repeat.
  predicate FreshIds(t: Table, ops: seq<Op>)
    decreases |ops|
  {
    ops == [] || (FreshId(t, ops[0]) && FreshIds(Do(t, ops[0]), ops[1..]))
  }

  predicate FreshId(t: Table, op: Op) { op.Spawn? ==> op.id !in t.made }

  // ---- The invariant ----

  function ProjectKey(p: Option<string>): string { if p.None? then "" else p.value }

  predicate SamePair(a: Agent, b: Agent) {
    a.principalId == b.principalId && ProjectKey(a.projectId) == ProjectKey(b.projectId)
  }

  predicate Unique(t: Table)
    requires t.live <= t.made.Keys
  {
    forall x, y :: x in t.live && y in t.live && SamePair(t.made[x], t.made[y]) ==> x == y
  }

  // A waiter waits for an agent that runs and has no session, and has its timeout armed.
  predicate WaitersWait(t: Table)
    requires t.live <= t.made.Keys
  {
    && t.waiters == t.timers && t.waiters <= t.live
    && forall id :: id in t.waiters ==> t.made[id].sessionId.None?
  }

  predicate SettledOnce(t: Table) {
    && (forall i, j :: 0 <= i < j < |t.log| ==> t.log[i].id != t.log[j].id)
    && (forall i :: 0 <= i < |t.log| ==> t.log[i].id !in t.waiters && t.log[i].id in t.made)
  }

  predicate Inv(t: Table) {
    && t.live <= t.made.Keys && Unique(t) && WaitersWait(t) && SettledOnce(t)
    && forall id :: id in t.made ==> t.made[id].sessionId != Some("")
  }

  lemma SettleInv(t: Table, id: Id, v: Verdict)
    requires t.live <= t.made.Keys && Unique(t) && SettledOnce(t)
    requires forall x :: x in t.made ==> t.made[x].sessionId != Some("")
    requires t.waiters == t.timers && t.waiters - {id} <= t.live
    requires forall x :: x in t.waiters - {id} ==> t.made[x].sessionId.None?
    requires id in t.waiters ==> id in t.made
    ensures Inv(Settle(t, id, v))
  {
    var u := Settle(t, id, v);
    if id in t.waiters {
      assert forall i :: 0 <= i < |t.log| ==> t.log[i].id != id;
    }
    assert SettledOnce(u);
  }

  lemma LaunchInv(t: Table, id: Id, principalId: string, projectId: Option<string>, wait: bool)
    requires Inv(t) && id !in t.made && !InUse(t, principalId, projectId)
    ensures Inv(Launch(t, id, principalId, projectId, wait))
  {
    var u := Launch(t, id, principalId, projectId, wait);
    forall x | x in t.live ensures !SamePair(u.made[x], u.made[id]) {
      assert !SameScope(t.made[x], principalId, projectId);
    }
    assert Unique(u);
  }

  lemma StepInv(t: Table, op: Op)
    requires Inv(t) && FreshId(t, op)
    ensures Inv(Do(t, op))
  {
    match op
    case Spawn(id, principalId, projectId, wait, ok) =>
      if ok && !InUse(t, principalId, projectId) {
        LaunchInv(t, id, principalId, projectId, wait);
      }
    case Error(id) => SettleInv(t.(live := t.live - {id}), id, Rejected(SpawnError));
    case SessionStarted(id, sessionId) =>
      if id in t.live {
        if Falsy(sessionId) {
          SettleInv(t, id, Rejected(NoSessionId));
        } else {
          var u := t.(made := t.made[id := t.made[id].(sessionId := sessionId)]);
          assert Unique(u) by {
            assert forall x, y :: x in t.live && y in t.live && SamePair(u.made[x], u.made[y]) ==>
              SamePair(t.made[x], t.made[y]);
          }
          SettleInv(u, id, Resolved(sessionId.value));
        }
      }
    case Exit(id) =>
      if id in t.made && Falsy(t.made[id].sessionId) {
        SettleInv(t.(live := t.live - {id}), id, Rejected(ExitedFirst));
      }
    case Timeout(id) => SettleInv(t, id, Rejected(TimedOut));
  }

  // From the empty table, whatever events come in whatever order: no two live agents share a
  // principal and project, every waiter belongs to a live agent without a session and has a timer,
  // and no waiter is settled twice.
  lemma {:induction false} RunInv(t: Table, ops: seq<Op>)
    requires Inv(t) && FreshIds(t, ops)
    ensures Inv(Run(t, ops))
    decreases |ops|
  {
    if ops != [] {
      StepInv(t, ops[0]);
      RunInv(Do(t, ops[0]), ops[1..]);
    }
  }

  // ---- What a waiter is told ----

  // The first event of an agent after its spawn decides.
  function Decision(op: Op, id: Id): Option<Verdict> {
    if op.id != id then None
    else
      match op
      case Spawn(_, _, _, _, _) => None
      case Error(_) => Some(Rejected(SpawnError))
      case SessionStarted(_, s) => Some(if Falsy(s) then Rejected(NoSessionId) else Resolved(s.value))
      case Exit(_) => Some(Rejected(ExitedFirst))
      case Timeout(_) => Some(Rejected(TimedOut))
  }

  function FirstDecision(ops: seq<Op>, id: Id): Option<Verdict> {
    if ops == [] then None
    else if Decision(ops[0], id).Some? then Decision(ops[0], id)
    else FirstDecision(ops[1..], id)
  }

  // Everything a waiter was told.
  function Told(log: seq<Settled>, id: Id): seq<Verdict> {
    if log == [] then []
    else Told(log[..|log| - 1], id) + if log[|log| - 1].id == id then [log[|log| - 1].verdict] else []
  }

  lemma ToldSnoc(log: seq<Settled>, s: Settled, id: Id)
    ensures Told(log + [s], id) == Told(log, id) + if s.id == id then [s.verdict] else []
  {
    assert (log + [s])[..|log|] == log;
  }

  // Events of other agents leave a waiter waiting.
  lemma OthersLeaveWaiting(t: Table, op: Op, id: Id)
    requires Inv(t) && FreshId(t, op) && id in t.waiters && Decision(op, id).None?
    ensures id in Do(t, op).waiters && Told(Do(t, op).log, id) == Told(t.log, id)
  {
    if op.id != id && !op.Spawn? {
      forall v: Verdict ensures Told(t.log + [Settled(op.id, v)], id) == Told(t.log, id) {
        ToldSnoc(t.log, Settled(op.id, v), id);
      }
    }
  }

  lemma DecisionTold(t: Table, op: Op, id: Id)
    requires Inv(t) && id in t.waiters && Decision(op, id).Some?
    ensures id !in Do(t, op).waiters && Told(Do(t, op).log, id) == Told(t.log, id) + [Decision(op, id).value]
  {
    ToldSnoc(t.log, Settled(id, Decision(op, id).value), id);
  }

  lemma NoWaiterTold(t: Table, op: Op, id: Id)
    requires Inv(t) && FreshId(t, op) && id in t.made && id !in t.waiters
    ensures id in Do(t, op).made && id !in Do(t, op).waiters && Told(Do(t, op).log, id) == Told(t.log, id)
  {
    if op.id in t.waiters && !op.Spawn? {
      forall v: Verdict ensures Told(t.log + [Settled(op.id, v)], id) == Told(t.log, id) {
        ToldSnoc(t.log, Settled(op.id, v), id);
      }
    }
  }

  lemma {:induction false} NeverToldAgain(t: Table, ops: seq<Op>, id: Id)
    requires Inv(t) && FreshIds(t, ops) && id in t.made && id !in t.waiters
    ensures id !in Run(t, ops).waiters && Told(Run(t, ops).log, id) == Told(t.log, id)
    decreases |ops|
  {
    if ops != [] {
      NoWaiterTold(t, ops[0], id);
      StepInv(t, ops[0]);
      NeverToldAgain(Do(t, ops[0]), ops[1..], id);
    }
  }

  lemma {:induction false} WaiterIsTold(t: Table, ops: seq<Op>, id: Id)
    requires Inv(t) && FreshIds(t, ops) && id in t.waiters
    ensures var d := FirstDecision(ops, id);
      && (id in Run(t, ops).waiters <==> d.None?)
      && Told(Run(t, ops).log, id) == Told(t.log, id) + if d.None? then [] else [d.value]
    decreases |ops|
  {
    if ops != [] {
      StepInv(t, ops[0]);
      if Decision(ops[0], id).None? {
        OthersLeaveWaiting(t, ops[0], id);
        WaiterIsTold(Do(t, ops[0]), ops[1..], id);
      } else {
        DecisionTold(t, ops[0], id);
        NeverToldAgain(Do(t, ops[0]), ops[1..], id);
      }
    }
  }

  lemma {:induction false} NotTold(log: seq<Settled>, id: Id)
    requires forall i :: 0 <= i < |log| ==> log[i].id != id
    ensures Told(log, id) == []
    decreases |log|
  {
    if log != [] {
      assert log[|log| - 1].id != id;
      NotTold(log[..|log| - 1], id);
    }
  }

  // A caller of spawnAndWaitStarted hears the verdict of the first event of its agent, once, and
  // nothing else ever; it waits on exactly as long as there is none.
  lemma WaiterHearsFirstEvent(t: Table, spawn: Op, ops: seq<Op>)
    requires Inv(t) && spawn.Spawn? && spawn.wait && FreshId(t, spawn)
    requires spawn.ok && !InUse(t, spawn.principalId, spawn.projectId) && FreshIds(Do(t, spawn), ops)
    ensures var d, u := FirstDecision(ops, spawn.id), Run(Do(t, spawn), ops);
      && (spawn.id in u.waiters <==> d.None?)
      && Told(u.log, spawn.id) == if d.None? then [] else [d.value]
  {
    StepInv(t, spawn);
    NotTold(Do(t, spawn).log, spawn.id);
    WaiterIsTold(Do(t, spawn), ops, spawn.id);
  }

  // Nobody waits for an agent that is gone, and nobody can wait for ever: a pending waiter always
  // has an armed timer, and when it fires the waiter is settled.
  lemma NoWaiterLeftBehind(ops: seq<Op>, id: Id)
    requires FreshIds(Start(), ops)
    ensures var t := Run(Start(), ops);
      && (id in t.waiters ==> id in t.live && id in t.timers)
      && id !in Do(t, Timeout(id)).waiters && id !in Do(t, Error(id)).waiters && id !in Do(t, Exit(id)).waiters
  {
    RunInv(Start(), ops);
  }

  // ---- Scopes ----

  // Within a named project a principal has at most one agent, so the lookup has one answer.
  lemma ScopeIsUnique(t: Table, principalId: string, projectId: Option<string>, x: Id, y: Id)
    requires Inv(t) && !Falsy(projectId) && x in t.live && y in t.live
    requires SameScope(t.made[x], principalId, projectId) && SameScope(t.made[y], principalId, projectId)
    ensures x == y
  {
    assert SamePair(t.made[x], t.made[y]);
  }

  // The scope test is not symmetric: without a project first, then in one, both run; the other way
  // round the second is refused.
  lemma ScopeDependsOnOrder(principalId: string, project: string, x: Id, y: Id)
    requires project != "" && x != y
    ensures var bare, scoped := Spawn(x, principalId, None, false, true), Spawn(y, principalId, Some(project), false, true);
      && Do(Do(Start(), bare), scoped).live == {x, y}
      && Do(Do(Start(), scoped), bare).live == {y}
  {
    var bare, scoped := Spawn(x, principalId, None, false, true), Spawn(y, principalId, Some(project), false, true);
    var t := Do(Start(), bare);
    assert t.live == {x};
    assert !InUse(t, principalId, Some(project));
    assert Do(t, scoped).live == {x, y};
    var u := Do(Start(), scoped);
    assert u.live == {y} && y in u.made && SameScope(u.made[y], principalId, None);
  }

  // ---- As the class runs ----

  class ProcessManager {
    var made: map<Id, Agent>
    var agents: set<Id>
    var pendingStartWaiters: set<Id>
    var timers: set<Id>
    var log: seq<Settled>

    constructor ()
      ensures State() == Start()
    {
      made, agents, pendingStartWaiters, timers, log := map[], {}, {}, {}, [];
    }

    ghost function State(): Table
      reads this
    {
      Table(made, agents, pendingStartWaiters, timers, log)
    }

    method FindByPrincipalScope(principalId: string, projectId: Option<string>) returns (found: Option<Id>)
      requires agents <= made.Keys
      ensures found.Some? <==> InUse(State(), principalId, projectId)
      ensures found.Some? ==> found.value in agents && SameScope(made[found.value], principalId, projectId)
    {
      var rest := agents;
      while rest != {}
        invariant rest <= agents
        invariant forall id :: id in agents - rest ==> !SameScope(made[id], principalId, projectId)
      {
        var id :| id in rest;
        if SameScope(made[id], principalId, projectId) { return Some(id); }
        rest := rest - {id};
      }
      return None;
    }

    method Spawn(id: Id, principalId: string, projectId: Option<string>, ok: bool) returns (spawned: bool)
      requires Inv(State())
      modifies this
      ensures spawned <==> ok && !InUse(old(State()), principalId, projectId)
      ensures State() == Do(old(State()), Op.Spawn(id, principalId, projectId, false, ok))
    {
      if !ok { return false; }
      var existing := FindByPrincipalScope(principalId, projectId);
      if existing.Some? { return false; }
      made := made[id := Agent(principalId, projectId, None)];
      agents := agents + {id};
      return true;
    }

    method SpawnAndWaitStarted(id: Id, principalId: string, projectId: Option<string>, ok: bool)
      requires Inv(State())
      modifies this
      ensures State() == Do(old(State()), Op.Spawn(id, principalId, projectId, true, ok))
    {
      var spawned := Spawn(id, principalId, projectId, ok);
      if spawned && Falsy(made[id].sessionId) {
        timers := timers + {id};
        pendingStartWaiters := pendingStartWaiters + {id};
      }
    }

    // resolveStartWaiter and rejectStartWaiter.
    method SettleStartWaiter(id: Id, v: Verdict)
      modifies this`timers, this`pendingStartWaiters, this`log
      ensures State() == Settle(old(State()), id, v)
    {
      if id !in pendingStartWaiters { return; }
      timers := timers - {id};
      pendingStartWaiters := pendingStartWaiters - {id};
      log := log + [Settled(id, v)];
    }

    method HandleError(id: Id)
      modifies this
      ensures State() == Do(old(State()), Error(id))
    {
      agents := agents - {id};
      SettleStartWaiter(id, Rejected(SpawnError));
    }

    method HandleSessionStarted(id: Id, sessionId: Option<string>)
      requires Inv(State())
      modifies this
      ensures State() == Do(old(State()), SessionStarted(id, sessionId))
    {
      if id !in agents { return; }
      if !Falsy(sessionId) {
        made := made[id := made[id].(sessionId := sessionId)];
        SettleStartWaiter(id, Resolved(sessionId.value));
      } else {
        SettleStartWaiter(id, Rejected(NoSessionId));
      }
    }

    method HandleManagedExit(id: Id)
      requires id in made
      modifies this
      ensures State() == Do(old(State()), Exit(id))
    {
      agents := agents - {id};
      if Falsy(made[id].sessionId) {
        SettleStartWaiter(id, Rejected(ExitedFirst));
      }
    }

    // The callback of the start timer.
    method StartTimedOut(id: Id)
      requires Inv(State()) && id in timers
      modifies this
      ensures State() == Do(old(State()), Timeout(id))
    {
      timers := timers - {id};
      pendingStartWaiters := pendingStartWaiters - {id};
      log := log + [Settled(id, Rejected(TimedOut))];
    }
  }
}
