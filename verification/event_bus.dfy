// The dashboard's event stream: numbered broadcasts, a bounded replay history, and reconnection
// with Last-Event-ID.
module EventReplay {
  import opened Common

  type Client = nat
  datatype Event = Event(id: nat, kind: string, payload: string)

  // What is written to a socket, one server-sent frame at a time.
  datatype Frame = Envelope(event: Event) | Legacy(event: Event) | Ping

  datatype Socket = Socket(log: seq<Frame>, ended: bool)

  datatype Bus = Bus(nextId: nat, history: seq<Event>, clients: set<Client>, sockets: map<Client, Socket>)

  // `failing` holds the clients whose write throws; `writes` is how many replayed events a
  // registering client takes before a write to it throws.
  datatype Op =
    | Register(client: Client, last: Option<nat>, writes: nat)
    | Broadcast(kind: string, payload: string, failing: set<Client>)
    | Heartbeat(failing: set<Client>)
    | Close(client: Client)
    | Destroy(client: Client)
    | Shutdown

  function Start(): Bus { Bus(1, [], {}, map[]) }

  function SocketOf(b: Bus, c: Client): Socket {
    if c in b.sockets then b.sockets[c] else Socket([], false)
  }

  predicate IsLegacy(kind: string) {
    kind in ["message", "debug-dump", "agent-online", "agent-offline"]
  }

  function Format(e: Event): seq<Frame> {
    if IsLegacy(e.kind) then [Envelope(e), Legacy(e)] else [Envelope(e)]
  }

  function FormatAll(es: seq<Event>): seq<Frame> {
    if es == [] then [] else Format(es[0]) + FormatAll(es[1..])
  }

  function LastOf(es: seq<Event>, limit: nat): seq<Event> {
    if |es| > limit then es[|es| - limit..] else es
  }

  function After(es: seq<Event>, last: nat): seq<Event> {
    if es == [] then []
    else if es[0].id > last then [es[0]] + After(es[1..], last)
    else After(es[1..], last)
  }

  // The same frames to every registered client that can take them; the others are dropped.
  predicate Dead(b: Bus, c: Client, failing: set<Client>) {
    SocketOf(b, c).ended || c in failing
  }

  function SendTo(b: Bus, c: Client, frames: seq<Frame>, failing: set<Client>): Socket {
    var s := SocketOf(b, c);
    if c !in b.clients then s
    else if Dead(b, c, failing) then s.(ended := true)
    else s.(log := s.log + frames)
  }

  function SendAll(b: Bus, frames: seq<Frame>, failing: set<Client>): Bus {
    b.(clients := (set c | c in b.clients && !Dead(b, c, failing)),
       sockets := (map c | c in b.clients + b.sockets.Keys :: SendTo(b, c, frames, failing)))
  }

  function Replay(b: Bus, c: Client, last: nat, writes: nat): Socket {
    var s, replay := SocketOf(b, c), After(b.history, last);
    if s.ended then s else s.(log := s.log + FormatAll(replay[..Min(writes, |replay|)]))
  }

  function Do(b: Bus, op: Op, limit: nat): Bus {
    match op
    case Register(c, last, writes) =>
      var s := if last.None? then SocketOf(b, c) else Replay(b, c, last.value, writes);
      b.(clients := b.clients + {c}, sockets := b.sockets[c := s])
    case Broadcast(kind, payload, failing) =>
      var e := Event(b.nextId, kind, payload);
      SendAll(b.(nextId := b.nextId + 1, history := LastOf(b.history + [e], limit)), Format(e), failing)
    case Heartbeat(failing) => SendAll(b, [Ping], failing)
    case Close(c) => b.(clients := b.clients - {c})
    case Destroy(c) => b.(sockets := b.sockets[c := SocketOf(b, c).(ended := true)])
    case Shutdown =>
      b.(clients := {},
         sockets := (map c | c in b.clients + b.sockets.Keys ::
           if c in b.clients then SocketOf(b, c).(ended := true) else SocketOf(b, c)))
  }

  function Run(b: Bus, ops: seq<Op>, limit: nat): Bus
    decreases |ops|
  {
    if ops == [] then b else Run(Do(b, ops[0], limit), ops[1..], limit)
  }

  // The events of a run, numbered from `first`.
  function Sent(first: nat, ops: seq<Op>): seq<Event>
    decreases |ops|
  {
    if ops == [] then []
    else if ops[0].Broadcast? then [Event(first, ops[0].kind, ops[0].payload)] + Sent(first + 1, ops[1..])
    else Sent(first, ops[1..])
  }

  // What a listener to the dashboard-event frames sees.
  function Events(log: seq<Frame>): seq<Event> {
    if log == [] then []
    else (if log[0].Envelope? then [log[0].event] else []) + Events(log[1..])
  }

  // ---- History ----

  predicate Numbered(es: seq<Event>) {
    forall i :: 0 <= i < |es| ==> es[i].id == i + 1
  }

  predicate Remembers(b: Bus, all: seq<Event>, limit: nat) {
    b.nextId == |all| + 1 && Numbered(all) && b.history == LastOf(all, limit)
  }

  lemma SentOne(first: nat, op: Op)
    ensures Sent(first, [op]) == if op.Broadcast? then [Event(first, op.kind, op.payload)] else []
  {
    assert [op][1..] == [];
  }

  lemma {:induction false} SentCons(b: Bus, ops: seq<Op>, limit: nat)
    requires ops != []
    ensures Sent(b.nextId, ops) == Sent(b.nextId, [ops[0]]) + Sent(Do(b, ops[0], limit).nextId, ops[1..])
  {
    SentOne(b.nextId, ops[0]);
    NextIdStep(b, ops[0], limit);
  }

  lemma NextIdStep(b: Bus, op: Op, limit: nat)
    ensures Do(b, op, limit).nextId == if op.Broadcast? then b.nextId + 1 else b.nextId
  {
  }

  lemma Regroup(x: seq<Event>, y: seq<Event>, z: seq<Event>)
    ensures x + y + z == x + (y + z)
  {
  }

  lemma RememberStep(b: Bus, op: Op, all: seq<Event>, limit: nat)
    requires Remembers(b, all, limit)
    ensures Remembers(Do(b, op, limit), all + Sent(b.nextId, [op]), limit)
  {
    var sent := Sent(b.nextId, [op]);
    SentOne(b.nextId, op);
    if op.Broadcast? {
      var e := Event(b.nextId, op.kind, op.payload);
      assert sent == [e];
      assert LastOf(LastOf(all, limit) + [e], limit) == LastOf(all + [e], limit);
    } else {
      assert all + sent == all;
    }
  }

  lemma {:induction false} SentSplit(first: nat, xs: seq<Op>, ys: seq<Op>)
    ensures Sent(first, xs + ys) == Sent(first, xs) + Sent(first + |Sent(first, xs)|, ys)
    decreases |xs|
  {
    if xs == [] {
      assert xs + ys == ys;
    } else {
      assert (xs + ys)[1..] == xs[1..] + ys;
      SentSplit(if xs[0].Broadcast? then first + 1 else first, xs[1..], ys);
    }
  }

  lemma {:induction false} RunSplit(b: Bus, xs: seq<Op>, ys: seq<Op>, limit: nat)
    ensures Run(b, xs + ys, limit) == Run(Run(b, xs, limit), ys, limit)
    decreases |xs|
  {
    if xs == [] {
      assert xs + ys == ys;
    } else {
      assert (xs + ys)[1..] == xs[1..] + ys;
      RunSplit(Do(b, xs[0], limit), xs[1..], ys, limit);
    }
  }

  lemma {:induction false} RunRemembers(b: Bus, ops: seq<Op>, all: seq<Event>, limit: nat)
    requires Remembers(b, all, limit)
    ensures Remembers(Run(b, ops, limit), all + Sent(b.nextId, ops), limit)
    decreases |ops|
  {
    if ops == [] {
      assert all + [] == all;
    } else {
      var d, one := Do(b, ops[0], limit), Sent(b.nextId, [ops[0]]);
      RememberStep(b, ops[0], all, limit);
      RunRemembers(d, ops[1..], all + one, limit);
      SentCons(b, ops, limit);
      Regroup(all, one, Sent(d.nextId, ops[1..]));
    }
  }

  predicate IsTail(tail: seq<Event>, all: seq<Event>, limit: nat) {
    && |tail| == Min(|all|, limit) && tail == all[|all| - |tail|..]
    && forall i :: 0 <= i < |tail| ==> tail[i].id == |all| + 1 - |tail| + i
  }

  // After any run, the history is the last min(n, limit) events, numbered up to nextId - 1.
  lemma HistoryIsTail(ops: seq<Op>, limit: nat)
    ensures var b, all := Run(Start(), ops, limit), Sent(1, ops);
      Numbered(all) && b.nextId == |all| + 1 && IsTail(b.history, all, limit)
  {
    RunRemembers(Start(), ops, [], limit);
    assert [] + Sent(1, ops) == Sent(1, ops);
    TailNumbered(Sent(1, ops), limit);
  }

  lemma TailNumbered(all: seq<Event>, limit: nat)
    requires Numbered(all)
    ensures IsTail(LastOf(all, limit), all, limit)
  {
  }

  // ---- Logs ----

  lemma {:induction false} EventsSplit(xs: seq<Frame>, ys: seq<Frame>)
    ensures Events(xs + ys) == Events(xs) + Events(ys)
  {
    if xs == [] {
      assert xs + ys == ys;
    } else {
      assert (xs + ys)[1..] == xs[1..] + ys;
      EventsSplit(xs[1..], ys);
      var head := if xs[0].Envelope? then [xs[0].event] else [];
      assert head + (Events(xs[1..]) + Events(ys)) == head + Events(xs[1..]) + Events(ys);
    }
  }

  lemma EventsOfFormat(e: Event)
    ensures Events(Format(e)) == [e]
  {
    assert Events([Envelope(e)]) == [e] by { assert [Envelope(e)][1..] == []; }
    if IsLegacy(e.kind) {
      assert Events([Legacy(e)]) == [] by { assert [Legacy(e)][1..] == []; }
      EventsSplit([Envelope(e)], [Legacy(e)]);
      assert Format(e) == [Envelope(e)] + [Legacy(e)];
    }
  }

  lemma {:induction false} EventsOfFormatAll(es: seq<Event>)
    ensures Events(FormatAll(es)) == es
  {
    if es != [] {
      EventsOfFormat(es[0]);
      EventsOfFormatAll(es[1..]);
      EventsSplit(Format(es[0]), FormatAll(es[1..]));
    }
  }

  // On consecutive ids, filtering by id is cutting a tail.
  lemma {:induction false} AfterIsTail(es: seq<Event>, first: nat, last: nat)
    requires forall i :: 0 <= i < |es| ==> es[i].id == first + i
    ensures After(es, last) == es[(if last < first then 0 else Min(last + 1 - first, |es|))..]
  {
    if es != [] {
      assert forall i :: 0 <= i < |es[1..]| ==> es[1..][i] == es[i + 1];
      AfterIsTail(es[1..], first + 1, last);
      if es[0].id > last {
        assert es[1..][0..] == es[1..];
        assert es == [es[0]] + es[1..];
      }
    }
  }

  // ---- A client that stays ----

  predicate Connected(b: Bus, c: Client) { c in b.clients && !SocketOf(b, c).ended }

  predicate Spares(op: Op, c: Client) {
    match op
    case Register(d, _, _) => d != c
    case Broadcast(_, _, failing) => c !in failing
    case Heartbeat(failing) => c !in failing
    case Close(d) => d != c
    case Destroy(d) => d != c
    case Shutdown => false
  }

  predicate AllSpare(ops: seq<Op>, c: Client) {
    forall i :: 0 <= i < |ops| ==> Spares(ops[i], c)
  }

  lemma LiveStep(b: Bus, op: Op, c: Client, limit: nat)
    requires Connected(b, c) && Spares(op, c)
    ensures Connected(Do(b, op, limit), c)
    ensures Events(SocketOf(Do(b, op, limit), c).log) == Events(SocketOf(b, c).log) + Sent(b.nextId, [op])
  {
    var log := SocketOf(b, c).log;
    SentOne(b.nextId, op);
    if op.Broadcast? {
      var e := Event(b.nextId, op.kind, op.payload);
      EventsOfFormat(e);
      EventsSplit(log, Format(e));
      assert SocketOf(Do(b, op, limit), c).log == log + Format(e);
    } else if op.Heartbeat? {
      EventsSplit(log, [Ping]);
      assert [Ping][1..] == [];
    }
  }

  lemma {:induction false} LiveRun(b: Bus, ops: seq<Op>, c: Client, limit: nat)
    requires Connected(b, c) && AllSpare(ops, c)
    ensures Connected(Run(b, ops, limit), c)
    ensures Events(SocketOf(Run(b, ops, limit), c).log) == Events(SocketOf(b, c).log) + Sent(b.nextId, ops)
    decreases |ops|
  {
    if ops != [] {
      LiveStep(b, ops[0], c, limit);
      var d := Do(b, ops[0], limit);
      LiveRun(d, ops[1..], c, limit);
      SentCons(b, ops, limit);
      Regroup(Events(SocketOf(b, c).log), Sent(b.nextId, [ops[0]]), Sent(d.nextId, ops[1..]));
    }
  }

  // How many of n events a client registering with this header is taken to have seen.
  function SeenBy(last: Option<nat>, n: nat, limit: nat): (k: nat)
    ensures k <= n
    ensures last.Some? ==> (k == last.value <==> n <= last.value + limit && last.value <= n)
  {
    if last.None? then n
    else if last.value >= n then n
    else if last.value + limit < n then n - limit
    else last.value
  }

  lemma ReplayIsTail(all: seq<Event>, last: nat, limit: nat)
    requires Numbered(all)
    ensures After(LastOf(all, limit), last) == all[SeenBy(Some(last), |all|, limit)..]
    ensures |After(LastOf(all, limit), last)| <= |LastOf(all, limit)|
  {
    var kept := LastOf(all, limit);
    AfterIsTail(kept, |all| + 1 - |kept|, last);
  }

  lemma RegisterWrites(b: Bus, c: Client, last: nat, writes: nat, limit: nat)
    requires !SocketOf(b, c).ended
    ensures var d := Do(b, Register(c, Some(last), writes), limit);
      var replay := After(b.history, last);
      && Connected(d, c) && d.nextId == b.nextId
      && Events(SocketOf(d, c).log) == Events(SocketOf(b, c).log) + replay[..Min(writes, |replay|)]
  {
    var replay := After(b.history, last);
    var written := replay[..Min(writes, |replay|)];
    EventsOfFormatAll(written);
    EventsSplit(SocketOf(b, c).log, FormatAll(written));
  }

  // What registration writes: the retained events after the given id.
  lemma RegisterReplays(b: Bus, c: Client, last: Option<nat>, writes: nat, all: seq<Event>, limit: nat)
    requires Remembers(b, all, limit) && !SocketOf(b, c).ended && SeenBy(last, |all|, limit) + writes >= |all|
    ensures var d := Do(b, Register(c, last, writes), limit);
      && Connected(d, c)
      && Events(SocketOf(d, c).log) == Events(SocketOf(b, c).log) + all[SeenBy(last, |all|, limit)..]
  {
    if last.Some? {
      var replay := After(b.history, last.value);
      ReplayIsTail(all, last.value, limit);
      assert replay[..Min(writes, |replay|)] == replay;
      RegisterWrites(b, c, last.value, writes, limit);
    }
  }

  // When a replay write throws, the client stays registered all the same: after the first `writes`
  // events it was owed it goes on with the live ones, and those in between never come.
  lemma {:induction false} BrokenReplayLeavesGap(
    b: Bus, c: Client, last: nat, writes: nat, after: seq<Op>, all: seq<Event>, limit: nat)
    requires Remembers(b, all, limit) && !SocketOf(b, c).ended && AllSpare(after, c)
    requires SeenBy(Some(last), |all|, limit) + writes < |all|
    ensures var d, k := Do(b, Register(c, Some(last), writes), limit), SeenBy(Some(last), |all|, limit);
      Events(SocketOf(Run(d, after, limit), c).log)
        == Events(SocketOf(b, c).log) + all[k..k + writes] + Sent(b.nextId, after)
  {
    var d, k := Do(b, Register(c, Some(last), writes), limit), SeenBy(Some(last), |all|, limit);
    var replay := After(b.history, last);
    ReplayIsTail(all, last, limit);
    assert replay[..Min(writes, |replay|)] == all[k..k + writes];
    RegisterWrites(b, c, last, writes, limit);
    LiveRun(d, after, c, limit);
  }

  lemma RegisterThenStay(
    b: Bus, c: Client, last: Option<nat>, writes: nat, after: seq<Op>, all: seq<Event>, limit: nat)
    requires Remembers(b, all, limit) && !SocketOf(b, c).ended && AllSpare(after, c)
    requires SeenBy(last, |all|, limit) + writes >= |all|
    ensures var d := Do(b, Register(c, last, writes), limit);
      Events(SocketOf(Run(d, after, limit), c).log)
        == Events(SocketOf(b, c).log) + (all + Sent(b.nextId, after))[SeenBy(last, |all|, limit)..]
  {
    var k, more := SeenBy(last, |all|, limit), Sent(b.nextId, after);
    RegisterReplays(b, c, last, writes, all, limit);
    LiveRun(Do(b, Register(c, last, writes), limit), after, c, limit);
    JoinTail(Events(SocketOf(b, c).log), all, k, more);
  }

  lemma JoinTail(seen: seq<Event>, all: seq<Event>, k: nat, more: seq<Event>)
    requires k <= |all|
    ensures seen + all[k..] + more == seen + (all + more)[k..]
  {
  }

  // A client that registers after any run and then stays sees, in order and once each, every event
  // from one fixed number on: the one after the id it sent, exactly when that id is neither ahead
  // of the stream nor older than the history reaches.
  lemma {:induction false} ReconnectSeesTail(before: seq<Op>, c: Client, last: Option<nat>, writes: nat, after: seq<Op>, limit: nat)
    requires !SocketOf(Run(Start(), before, limit), c).ended && AllSpare(after, c)
    requires SeenBy(last, |Sent(1, before)|, limit) + writes >= |Sent(1, before)|
    ensures var ops := before + [Register(c, last, writes)] + after;
      && |Sent(1, before)| <= |Sent(1, ops)|
      && Events(SocketOf(Run(Start(), ops, limit), c).log)
        == Events(SocketOf(Run(Start(), before, limit), c).log)
           + Sent(1, ops)[SeenBy(last, |Sent(1, before)|, limit)..]
  {
    var all := Sent(1, before);
    AroundOne(before, Register(c, last, writes), after, limit);
    RunRemembers(Start(), before, [], limit);
    assert [] + all == all;
    RegisterThenStay(Run(Start(), before, limit), c, last, writes, after, all, limit);
  }

  lemma AroundOne(before: seq<Op>, op: Op, after: seq<Op>, limit: nat)
    requires op.Register?
    ensures Run(Start(), before + [op] + after, limit) == Run(Do(Run(Start(), before, limit), op, limit), after, limit)
    ensures Sent(1, before + [op] + after) == Sent(1, before) + Sent(1 + |Sent(1, before)|, after)
  {
    var rest := [op] + after;
    assert before + [op] + after == before + rest;
    assert rest[1..] == after;
    RunSplit(Start(), before, rest, limit);
    SentSplit(1, before, rest);
  }

  // In particular, the numbers received are last + 1, last + 2, ... with no gap and no repeat.
  lemma {:induction false} ReconnectIsSeamless(before: seq<Op>, c: Client, last: nat, writes: nat, after: seq<Op>, limit: nat)
    requires limit > 0 && c !in Run(Start(), before, limit).sockets && AllSpare(after, c)
    requires var b := Run(Start(), before, limit);
      last < b.nextId <= last + writes + 1 && (b.history != [] ==> b.history[0].id <= last + 1)
    ensures var ops := before + [Register(c, Some(last), writes)] + after;
      var seen := Events(SocketOf(Run(Start(), ops, limit), c).log);
      && |seen| == Run(Start(), ops, limit).nextId - 1 - last
      && forall i :: 0 <= i < |seen| ==> seen[i].id == last + 1 + i
  {
    var ops := before + [Register(c, Some(last), writes)] + after;
    HistoryIsTail(before, limit);
    HistoryIsTail(ops, limit);
    ReconnectSeesTail(before, c, Some(last), writes, after, limit);
    var seen := Events(SocketOf(Run(Start(), ops, limit), c).log);
    assert SeenBy(Some(last), |Sent(1, before)|, limit) == last;
    assert seen == Sent(1, ops)[last..];
  }

  // ---- As the class runs ----

  class EventBus {
    var nextEventId: nat
    var history: seq<Event>
    var clients: set<Client>
    var sockets: map<Client, Socket>
    const historyLimit: nat

    constructor (historyLimit: nat)
      ensures State() == Start() && this.historyLimit == historyLimit
    {
      this.historyLimit := historyLimit;
      nextEventId, history, clients, sockets := 1, [], {}, map[];
    }

    ghost function State(): Bus
      reads this
    {
      Bus(nextEventId, history, clients, sockets)
    }

    method RegisterClient(c: Client, last: Option<nat>, writes: nat)
      modifies this
      ensures State() == Do(old(State()), Register(c, last, writes), historyLimit)
    {
      if c !in sockets { sockets := sockets[c := Socket([], false)]; }
      clients := clients + {c};
      if last.Some? {
        ReplayAfter(last.value, c, writes);
      }
      assert sockets == Do(old(State()), Register(c, last, writes), historyLimit).sockets;
    }

    method ReplayAfter(last: nat, c: Client, writes: nat)
      requires c in sockets
      modifies this`sockets
      ensures sockets == old(sockets)[c := Replay(old(State()), c, last, writes)]
    {
      var replay := FilterAfter(last);
      var i := 0;
      ghost var was := sockets;
      assert was[c].log + [] == was[c].log;
      while i < |replay|
        invariant 0 <= i <= Min(writes, |replay|) && (was[c].ended ==> i == 0)
        invariant sockets == WithLog(was, c, FormatAll(replay[..i]))
      {
        if sockets[c].ended || i >= writes { break; }
        FormatAllStep(replay, i);
        WithMoreLog(was, c, FormatAll(replay[..i]), Format(replay[i]));
        sockets := sockets[c := sockets[c].(log := sockets[c].log + Format(replay[i]))];
        i := i + 1;
      }
      assert sockets[c] == Replay(old(State()), c, last, writes);
    }

    method FilterAfter(last: nat) returns (replay: seq<Event>)
      ensures replay == After(history, last)
    {
      replay := [];
      var i := 0;
      while i < |history|
        invariant 0 <= i <= |history|
        invariant replay + After(history[i..], last) == After(history, last)
      {
        assert history[i..][1..] == history[i + 1..];
        if history[i].id > last { replay := replay + [history[i]]; }
        i := i + 1;
      }
    }

    method Remember(e: Event)
      modifies this`history
      ensures history == LastOf(old(history) + [e], historyLimit)
    {
      history := history + [e];
      if |history| > historyLimit {
        history := history[|history| - historyLimit..];
      }
    }

    // The two loops over the clients: write to the live ones, then drop the dead.
    method WriteToAll(frames: seq<Frame>, failing: set<Client>)
      requires clients <= sockets.Keys
      modifies this`clients, this`sockets
      ensures var b := old(State()); State() == SendAll(b, frames, failing)
    {
      ghost var b := State();
      var rest, dead := clients, {};
      while rest != {}
        invariant rest <= clients == b.clients && sockets.Keys == b.sockets.Keys
        invariant nextEventId == b.nextId && history == b.history
        invariant dead == set c | c in clients - rest && Dead(b, c, failing)
        invariant forall c | c in sockets ::
          sockets[c] == (if c in dead || c in rest then b.sockets[c] else SendTo(b, c, frames, failing))
      {
        var c :| c in rest;
        if sockets[c].ended || c in failing {
          dead := dead + {c};
        } else {
          sockets := sockets[c := sockets[c].(log := sockets[c].log + frames)];
        }
        rest := rest - {c};
      }
      clients := clients - dead;
      sockets := map c | c in sockets :: if c in dead then sockets[c].(ended := true) else sockets[c];
      assert clients == SendAll(b, frames, failing).clients;
      assert sockets == SendAll(b, frames, failing).sockets;
    }

    method Broadcast(kind: string, payload: string, failing: set<Client>)
      requires clients <= sockets.Keys
      modifies this
      ensures State() == Do(old(State()), Op.Broadcast(kind, payload, failing), historyLimit)
    {
      var e := Event(nextEventId, kind, payload);
      nextEventId := nextEventId + 1;
      Remember(e);
      WriteToAll(Format(e), failing);
    }

    method Heartbeat(failing: set<Client>)
      requires clients <= sockets.Keys
      modifies this
      ensures State() == Do(old(State()), Op.Heartbeat(failing), historyLimit)
    {
      if clients == {} {
        assert sockets == Do(State(), Op.Heartbeat(failing), historyLimit).sockets;
        return;
      }
      WriteToAll([Ping], failing);
    }

    method Shutdown()
      requires clients <= sockets.Keys
      modifies this
      ensures State() == Do(old(State()), Op.Shutdown, historyLimit)
    {
      ghost var b := State();
      var rest := clients;
      while rest != {}
        invariant rest <= clients == b.clients && sockets.Keys == b.sockets.Keys
        invariant nextEventId == b.nextId && history == b.history
        invariant forall c | c in sockets ::
          sockets[c] == (if c in clients - rest then b.sockets[c].(ended := true) else b.sockets[c])
      {
        var c :| c in rest;
        sockets := sockets[c := sockets[c].(ended := true)];
        rest := rest - {c};
      }
      clients := {};
      assert sockets == Do(b, Op.Shutdown, historyLimit).sockets;
    }
  }

  lemma {:induction false} FormatAllSnoc(es: seq<Event>, e: Event)
    ensures FormatAll(es + [e]) == FormatAll(es) + Format(e)
  {
    if es == [] {
      assert es + [e] == [e] && [e][1..] == [];
    } else {
      assert (es + [e])[1..] == es[1..] + [e];
      FormatAllSnoc(es[1..], e);
    }
  }

  // The sockets with frames added to the log of one client.
  function WithLog(sockets: map<Client, Socket>, c: Client, frames: seq<Frame>): map<Client, Socket>
    requires c in sockets
  {
    sockets[c := sockets[c].(log := sockets[c].log + frames)]
  }

  lemma WithMoreLog(sockets: map<Client, Socket>, c: Client, a: seq<Frame>, b: seq<Frame>)
    requires c in sockets
    ensures WithLog(WithLog(sockets, c, a), c, b) == WithLog(sockets, c, a + b)
  {
    var log := sockets[c].log;
    assert log + a + b == log + (a + b);
  }

  lemma FormatAllStep(es: seq<Event>, i: nat)
    requires i < |es|
    ensures FormatAll(es[..i + 1]) == FormatAll(es[..i]) + Format(es[i])
  {
    FormatAllSnoc(es[..i], es[i]);
    assert es[..i + 1] == es[..i] + [es[i]];
  }

  // Every registered client has a socket.
  lemma {:induction false} ClientsHaveSockets(b: Bus, ops: seq<Op>, limit: nat)
    requires b.clients <= b.sockets.Keys
    ensures Run(b, ops, limit).clients <= Run(b, ops, limit).sockets.Keys
    decreases |ops|
  {
    if ops != [] {
      ClientsHaveSockets(Do(b, ops[0], limit), ops[1..], limit);
    }
  }
}
