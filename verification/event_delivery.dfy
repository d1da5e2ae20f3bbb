// What each client of the event stream receives and when its connection ends, told from the calls.
module EventDelivery {
  import opened Common
  import opened EventReplay

  // ---- One step ----

  // The call writes to every client.
  predicate Writes(op: Op) { op.Broadcast? || op.Heartbeat? }

  // A registered client that has been ended, or whose write fails, is dropped and ended, and
  // receives nothing.
  lemma DeadIsDropped(b: Bus, op: Op, c: Client, limit: nat)
    requires Writes(op) && c in b.clients && (SocketOf(b, c).ended || c in op.failing)
    ensures var d := Do(b, op, limit);
      c !in d.clients && SocketOf(d, c).ended && SocketOf(d, c).log == SocketOf(b, c).log
  {
  }

  // Every other registered client stays; one that is not registered is not touched.
  lemma OthersStay(b: Bus, op: Op, c: Client, limit: nat)
    requires Writes(op) && !(c in b.clients && (SocketOf(b, c).ended || c in op.failing))
    ensures var d := Do(b, op, limit);
      && (c in d.clients <==> c in b.clients) && SocketOf(d, c).ended == SocketOf(b, c).ended
      && (c !in b.clients ==> SocketOf(d, c) == SocketOf(b, c))
  {
  }

  // The envelope, and for four kinds the old form behind it.
  function FramesOf(e: Event): seq<Frame> {
    [Envelope(e)] +
      if e.kind == "message" || e.kind == "debug-dump" || e.kind == "agent-online" || e.kind == "agent-offline"
      then [Legacy(e)] else []
  }

  function FramesOfAll(es: seq<Event>): seq<Frame>
    decreases |es|
  {
    if es == [] then [] else FramesOfAll(es[..|es| - 1]) + FramesOf(es[|es| - 1])
  }

  lemma FormatIs(e: Event)
    ensures Format(e) == FramesOf(e)
  {
  }

  lemma {:induction false} FormatAllIs(es: seq<Event>)
    ensures FormatAll(es) == FramesOfAll(es)
    decreases |es|
  {
    if es != [] {
      var front, e := es[..|es| - 1], es[|es| - 1];
      FormatAllIs(front);
      FormatIs(e);
      FormatAllSnoc(front, e);
      assert es == front + [e];
    }
  }

  // What a connected client is due for one call.
  function DueOne(next: nat, op: Op): seq<Frame> {
    match op
    case Broadcast(kind, payload, _) => FramesOf(Event(next, kind, payload))
    case Heartbeat(_) => [Ping]
    case _ => []
  }

  // What it is due for a run, from the number of the next event on.
  function Due(next: nat, ops: seq<Op>): seq<Frame>
    decreases |ops|
  {
    if ops == [] then []
    else DueOne(next, ops[0]) + Due(if ops[0].Broadcast? then next + 1 else next, ops[1..])
  }

  lemma DueStep(b: Bus, op: Op, c: Client, limit: nat)
    requires Connected(b, c) && Spares(op, c)
    ensures var d := Do(b, op, limit);
      && Connected(d, c) && d.nextId == (if op.Broadcast? then b.nextId + 1 else b.nextId)
      && SocketOf(d, c).log == SocketOf(b, c).log + DueOne(b.nextId, op)
  {
    var log := SocketOf(b, c).log;
    assert log + [] == log;
  }

  // A connected client receives exactly the frames it is due.
  lemma {:induction false} LiveFrames(b: Bus, ops: seq<Op>, c: Client, limit: nat)
    requires Connected(b, c) && AllSpare(ops, c)
    ensures Connected(Run(b, ops, limit), c)
    ensures SocketOf(Run(b, ops, limit), c).log == SocketOf(b, c).log + Due(b.nextId, ops)
    decreases |ops|
  {
    var log := SocketOf(b, c).log;
    if ops == [] {
      assert log + [] == log;
    } else {
      var d := Do(b, ops[0], limit);
      DueStep(b, ops[0], c, limit);
      LiveFrames(d, ops[1..], c, limit);
      JoinFrames(log, DueOne(b.nextId, ops[0]), Due(d.nextId, ops[1..]));
    }
  }

  lemma JoinFrames(x: seq<Frame>, y: seq<Frame>, z: seq<Frame>)
    ensures x + y + z == x + (y + z)
  {
  }

  // A registration replays the frames of the first `writes` retained events after the id sent.
  lemma RegisterFrames(b: Bus, c: Client, last: Option<nat>, writes: nat, all: seq<Event>, limit: nat)
    requires Remembers(b, all, limit) && !SocketOf(b, c).ended
    ensures var d, owed := Do(b, Register(c, last, writes), limit), all[SeenBy(last, |all|, limit)..];
      Connected(d, c) && SocketOf(d, c).log == SocketOf(b, c).log + FramesOfAll(owed[..Min(writes, |owed|)])
  {
    var log := SocketOf(b, c).log;
    if last.Some? {
      var replay := After(b.history, last.value);
      ReplayIsTail(all, last.value, limit);
      FormatAllIs(replay[..Min(writes, |replay|)]);
    } else {
      assert all[|all|..] == [];
      assert log + [] == log;
    }
  }

  // A shutdown ends and drops every registered client, and writes to none.
  lemma ShutdownEnds(b: Bus, c: Client, limit: nat)
    ensures var d := Do(b, Shutdown, limit);
      && d.clients == {} && d.nextId == b.nextId && d.history == b.history && SocketOf(d, c).log == SocketOf(b, c).log
      && (SocketOf(d, c).ended <==> SocketOf(b, c).ended || c in b.clients)
  {
  }

  // ---- The end of a connection ----

  predicate NoRegister(ops: seq<Op>, c: Client) {
    forall i :: 0 <= i < |ops| && ops[i].Register? ==> ops[i].client != c
  }

  // Once a connection has ended, its log never changes again.
  lemma {:induction false} EndedIsSilent(b: Bus, ops: seq<Op>, c: Client, limit: nat)
    requires SocketOf(b, c).ended
    ensures SocketOf(Run(b, ops, limit), c) == SocketOf(b, c)
    decreases |ops|
  {
    if ops != [] {
      EndedIsSilent(Do(b, ops[0], limit), ops[1..], c, limit);
    }
  }

  // Nor does that of a client that is not registered, until it registers.
  lemma {:induction false} UnregisteredIsSilent(b: Bus, ops: seq<Op>, c: Client, limit: nat)
    requires c !in b.clients && NoRegister(ops, c)
    ensures c !in Run(b, ops, limit).clients && SocketOf(Run(b, ops, limit), c).log == SocketOf(b, c).log
    decreases |ops|
  {
    if ops != [] {
      assert ops[0].Register? ==> ops[0].client != c;
      assert forall i :: 0 <= i < |ops[1..]| ==> ops[1..][i] == ops[i + 1];
      UnregisteredIsSilent(Do(b, ops[0], limit), ops[1..], c, limit);
    }
  }

  // The first call that ends the connection, or the number of calls.
  function FirstStop(ops: seq<Op>, c: Client): (m: nat)
    ensures m <= |ops| && AllSpare(ops[..m], c) && (m < |ops| ==> !Spares(ops[m], c))
    decreases |ops|
  {
    if ops == [] || !Spares(ops[0], c) then 0
    else
      var n := FirstStop(ops[1..], c);
      assert forall i :: 0 < i < n + 1 ==> ops[i] == ops[1..][..n][i - 1];
      n + 1
  }

  // The call that ends it delivers nothing more.
  lemma StopStep(b: Bus, op: Op, c: Client, limit: nat)
    requires Connected(b, c) && !Spares(op, c) && (op.Register? ==> op.client != c)
    ensures var d := Do(b, op, limit);
      SocketOf(d, c).log == SocketOf(b, c).log && (SocketOf(d, c).ended || c !in d.clients)
  {
  }

  // A connected client receives what it is due up to the call that ends its connection, and nothing
  // behind that until it registers again.
  lemma DeliveredExactly(b: Bus, ops: seq<Op>, c: Client, limit: nat)
    requires Connected(b, c) && NoRegister(ops, c)
    ensures var m := FirstStop(ops, c);
      && SocketOf(Run(b, ops, limit), c).log == SocketOf(b, c).log + Due(b.nextId, ops[..m])
      && (Connected(Run(b, ops, limit), c) <==> m == |ops|)
  {
    var m := FirstStop(ops, c);
    LiveFrames(b, ops[..m], c, limit);
    assert ops == ops[..m] + ops[m..];
    RunSplit(b, ops[..m], ops[m..], limit);
    if m < |ops| {
      var mid := Run(b, ops[..m], limit);
      assert ops[m..][0] == ops[m] && ops[m..][1..] == ops[m + 1..];
      StopStep(mid, ops[m], c, limit);
      AfterStop(Do(mid, ops[m], limit), ops[m + 1..], c, limit);
    }
  }

  lemma AfterStop(b: Bus, ops: seq<Op>, c: Client, limit: nat)
    requires (SocketOf(b, c).ended || c !in b.clients) && NoRegister(ops, c)
    ensures SocketOf(Run(b, ops, limit), c).log == SocketOf(b, c).log && !Connected(Run(b, ops, limit), c)
  {
    if SocketOf(b, c).ended {
      EndedIsSilent(b, ops, c, limit);
    } else {
      UnregisteredIsSilent(b, ops, c, limit);
    }
  }

  // ---- No gap between registration and end ----

  // Whatever happens after a registration whose replay completes, and however its connection ends:
  // until the client registers again it has received, each once and in order, the events from one
  // number on up to the end of its connection.
  lemma NoGap(before: seq<Op>, c: Client, last: Option<nat>, writes: nat, after: seq<Op>, limit: nat)
    requires !SocketOf(Run(Start(), before, limit), c).ended && NoRegister(after, c)
    requires SeenBy(last, |Sent(1, before)|, limit) + writes >= |Sent(1, before)|
    ensures var reg, m, k := Register(c, last, writes), FirstStop(after, c), SeenBy(last, |Sent(1, before)|, limit);
      var sent := Sent(1, before + [reg] + after[..m]);
      && k <= |sent| && (forall i :: 0 <= i < |sent| ==> sent[i].id == i + 1)
      && Events(SocketOf(Run(Start(), before + [reg] + after, limit), c).log)
           == Events(SocketOf(Run(Start(), before, limit), c).log) + sent[k..]
  {
    var reg, m := Register(c, last, writes), FirstStop(after, c);
    var b := Run(Start(), before, limit);
    var d := Do(b, reg, limit);
    var all := Sent(1, before);
    RunRemembers(Start(), before, [], limit);
    assert [] + all == all;
    RegisterReplays(b, c, last, writes, all, limit);
    DeliveredExactly(d, after, c, limit);
    LiveRun(d, after[..m], c, limit);
    LiveFrames(d, after[..m], c, limit);
    AroundOne(before, reg, after, limit);
    ReconnectSeesTail(before, c, last, writes, after[..m], limit);
    AroundOne(before, reg, after[..m], limit);
    HistoryIsTail(before + [reg] + after[..m], limit);
  }
}
