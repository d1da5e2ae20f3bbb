// Inode numbers of the overlay: how entries of the two layers get numbers, and that
// the numbers are stable and unambiguous.
module OverlayInodes {
  import opened Common
  import opened Paths
  import opened Tables

  datatype Layer = LayerDelta | LayerBase

  // The key of the reverse map.
  datatype Key = Key(layer: Layer, ino: int)

  datatype Info = Info(key: Key, path: Components)

  // The maps of the overlay, with the delta's own inode counter: delta inode numbers are
  // never used twice.
  datatype Numbers = Numbers(
    inodeMap: map<int, Info>,
    reverse: map<Key, int>,
    origin: map<int, int>,
    next: int,
    deltaNext: int)

  // Where a lookup or a listing found an entry.
  datatype Entry = InDelta(ino: int) | InBase(ino: int)

  function Mounted(origin: map<int, int>, deltaNext: int): Numbers {
    Numbers(map[ROOT := Info(Key(LayerDelta, ROOT), [])], map[Key(LayerDelta, ROOT) := ROOT], origin, 2, deltaNext)
  }

  // ---- Handing out numbers ----

  // getOrCreateOverlayIno
  function GetOrCreate(n: Numbers, k: Key, path: Components): (Numbers, int) {
    if k in n.reverse then (n, n.reverse[k])
    else (n.(inodeMap := n.inodeMap[n.next := Info(k, path)], reverse := n.reverse[k := n.next], next := n.next + 1), n.next)
  }

  // getOrCreateOverlayInoWithOrigin: the number of the base inode, the data of the delta inode.
  function GetOrCreateWithOrigin(n: Numbers, baseIno: int, deltaIno: int, path: Components): (Numbers, int) {
    var baseKey, deltaKey := Key(LayerBase, baseIno), Key(LayerDelta, deltaIno);
    var x := if baseKey in n.reverse then n.reverse[baseKey] else n.next;
    (n.(inodeMap := n.inodeMap[x := Info(deltaKey, path)],
        reverse := n.reverse[baseKey := x][deltaKey := x],
        next := if baseKey in n.reverse then n.next else n.next + 1), x)
  }

  // The number Lookup answers with for an entry.
  function Lookup(n: Numbers, e: Entry, path: Components): (Numbers, int) {
    match e
    case InDelta(d) =>
      if d in n.origin then GetOrCreateWithOrigin(n, n.origin[d], d, path)
      else GetOrCreate(n, Key(LayerDelta, d), path)
    case InBase(b) => GetOrCreate(n, Key(LayerBase, b), path)
  }

  // The number ReaddirPlus lists for an entry.
  function List(n: Numbers, e: Entry, path: Components): (Numbers, int) {
    GetOrCreate(n, Canonical(n, e), path)
  }

  function KeyOf(e: Entry): Key {
    if e.InDelta? then Key(LayerDelta, e.ino) else Key(LayerBase, e.ino)
  }

  // The key a number is kept under: the base inode an inode was copied from, if any.
  function CanonicalKey(n: Numbers, k: Key): Key {
    if k.layer == LayerDelta && k.ino in n.origin then Key(LayerBase, n.origin[k.ino]) else k
  }

  function Canonical(n: Numbers, e: Entry): Key {
    CanonicalKey(n, KeyOf(e))
  }

  // copyUp: a new delta inode with an origin record.
  function CopyUp(n: Numbers, baseIno: int): (Numbers, int) {
    (n.(origin := n.origin[n.deltaNext := baseIno], deltaNext := n.deltaNext + 1), n.deltaNext)
  }

  // Any other delta inode, made without an origin record.
  function NewDelta(n: Numbers): (Numbers, int) {
    (n.(deltaNext := n.deltaNext + 1), n.deltaNext)
  }

  // ---- The invariant ----

  // Numbers and delta inodes in use lie below the counters.
  ghost predicate Bounded(n: Numbers) {
    && (forall k :: k in n.reverse ==> n.reverse[k] < n.next && (k.layer == LayerDelta ==> k.ino < n.deltaNext))
    && (forall d :: d in n.origin ==> d < n.deltaNext)
  }

  // A copied-up inode that has a number has the number of its origin.
  ghost predicate SharesWithOrigin(n: Numbers) {
    forall d :: d in n.origin && Key(LayerDelta, d) in n.reverse ==>
      var k := Key(LayerBase, n.origin[d]); k in n.reverse && n.reverse[k] == n.reverse[Key(LayerDelta, d)]
  }

  // Two keys share a number only if an origin record links them.
  ghost predicate Injective(n: Numbers) {
    forall j, k :: j in n.reverse && k in n.reverse && n.reverse[j] == n.reverse[k] ==>
      CanonicalKey(n, j) == CanonicalKey(n, k)
  }

  // The inode map sends every number back to a key that has it.
  ghost predicate MapsBack(n: Numbers) {
    forall x :: x in n.inodeMap ==> n.inodeMap[x].key in n.reverse && n.reverse[n.inodeMap[x].key] == x
  }

  ghost predicate Inv(n: Numbers) {
    Bounded(n) && SharesWithOrigin(n) && Injective(n) && MapsBack(n)
  }

  lemma MountedInv(origin: map<int, int>, deltaNext: int)
    requires ROOT !in origin && ROOT < deltaNext && forall d :: d in origin ==> d < deltaNext
    ensures Inv(Mounted(origin, deltaNext))
  {
  }

  // Every number given out so far is kept.
  ghost predicate Extends(n: Numbers, n1: Numbers) {
    && (forall k :: k in n.reverse ==> k in n1.reverse && n1.reverse[k] == n.reverse[k])
    && (forall d :: d in n.origin ==> d in n1.origin && n1.origin[d] == n.origin[d])
    && (forall d :: d in n1.origin && d !in n.origin ==> n.deltaNext <= d)
    && n.deltaNext <= n1.deltaNext
  }

  // ---- Each step ----

  predicate Live(n: Numbers, e: Entry) {
    e.InDelta? ==> e.ino < n.deltaNext
  }

  lemma GetOrCreateKeeps(n: Numbers, k: Key, path: Components)
    requires Inv(n) && CanonicalKey(n, k) == k && (k.layer == LayerDelta ==> k.ino < n.deltaNext)
    ensures var (n1, x) := GetOrCreate(n, k, path);
      Inv(n1) && Extends(n, n1) && k in n1.reverse && n1.reverse[k] == x
  {
    var n1 := GetOrCreate(n, k, path).0;
    forall i, j | i in n1.reverse && j in n1.reverse && n1.reverse[i] == n1.reverse[j]
      ensures CanonicalKey(n1, i) == CanonicalKey(n1, j)
    {
      assert i in n.reverse && j in n.reverse ==> CanonicalKey(n, i) == CanonicalKey(n, j);
    }
  }

  lemma WithOriginKeeps(n: Numbers, d: int, path: Components)
    requires Inv(n) && d in n.origin
    ensures var (n1, x) := GetOrCreateWithOrigin(n, n.origin[d], d, path);
      var k := Key(LayerBase, n.origin[d]);
      Inv(n1) && Extends(n, n1) && k in n1.reverse && n1.reverse[k] == x
  {
    var baseKey := Key(LayerBase, n.origin[d]);
    GetOrCreateKeeps(n, baseKey, path);
    var m := GetOrCreate(n, baseKey, path).0;
    AliasKeeps(m, d, path);
    var n1 := GetOrCreateWithOrigin(n, n.origin[d], d, path).0;
    assert n1.inodeMap == Alias(m, d, path).inodeMap;
    assert n1.reverse == Alias(m, d, path).reverse;
  }

  // The delta inode put behind the number of its origin.
  function Alias(n: Numbers, d: int, path: Components): Numbers
    requires d in n.origin && Key(LayerBase, n.origin[d]) in n.reverse
  {
    var x := n.reverse[Key(LayerBase, n.origin[d])];
    n.(inodeMap := n.inodeMap[x := Info(Key(LayerDelta, d), path)], reverse := n.reverse[Key(LayerDelta, d) := x])
  }

  lemma AliasKeeps(n: Numbers, d: int, path: Components)
    requires Inv(n) && d in n.origin && Key(LayerBase, n.origin[d]) in n.reverse
    ensures Inv(Alias(n, d, path)) && Extends(n, Alias(n, d, path))
  {
    var n1 := Alias(n, d, path);
    var baseKey, deltaKey := Key(LayerBase, n.origin[d]), Key(LayerDelta, d);
    forall i, j | i in n1.reverse && j in n1.reverse && n1.reverse[i] == n1.reverse[j]
      ensures CanonicalKey(n1, i) == CanonicalKey(n1, j)
    {
      var i', j' := if i == deltaKey then baseKey else i, if j == deltaKey then baseKey else j;
      assert n.reverse[i'] == n.reverse[j'];
    }
  }

  // Lookup and ReaddirPlus keep the invariant, keep every number, and answer with the number
  // of the entry's canonical key.
  lemma LookupKeeps(n: Numbers, e: Entry, path: Components)
    requires Inv(n) && Live(n, e)
    ensures var (n1, x) := Lookup(n, e, path);
      Inv(n1) && Extends(n, n1) && Canonical(n, e) in n1.reverse && n1.reverse[Canonical(n, e)] == x
      && Canonical(n1, e) == Canonical(n, e)
  {
    if e.InDelta? && e.ino in n.origin {
      WithOriginKeeps(n, e.ino, path);
    } else {
      GetOrCreateKeeps(n, Canonical(n, e), path);
    }
  }

  lemma ListKeeps(n: Numbers, e: Entry, path: Components)
    requires Inv(n) && Live(n, e)
    ensures var (n1, x) := List(n, e, path);
      Inv(n1) && Extends(n, n1) && Canonical(n, e) in n1.reverse && n1.reverse[Canonical(n, e)] == x
      && Canonical(n1, e) == Canonical(n, e)
  {
    GetOrCreateKeeps(n, Canonical(n, e), path);
  }

  lemma CopyUpKeeps(n: Numbers, baseIno: int)
    requires Inv(n)
    ensures var (n1, d) := CopyUp(n, baseIno);
      Inv(n1) && Extends(n, n1) && Live(n1, InDelta(d)) && Canonical(n1, InDelta(d)) == Canonical(n, InBase(baseIno))
  {
    var n1 := CopyUp(n, baseIno).0;
    forall k | k in n.reverse
      ensures CanonicalKey(n1, k) == CanonicalKey(n, k)
    {
    }
  }

  // ---- Runs ----

  datatype Op =
    | OpLookup(entry: Entry, path: Components)
    | OpList(entry: Entry, path: Components)
    | OpCopyUp(baseIno: int)
    | OpNewDelta

  function Do(n: Numbers, op: Op): (Numbers, int) {
    match op
    case OpLookup(e, path) => Lookup(n, e, path)
    case OpList(e, path) => List(n, e, path)
    case OpCopyUp(b) => CopyUp(n, b)
    case OpNewDelta => NewDelta(n)
  }

  // A delta entry that is found was made before.
  predicate Possible(n: Numbers, op: Op) {
    (op.OpLookup? || op.OpList?) ==> Live(n, op.entry)
  }

  lemma DoKeeps(n: Numbers, op: Op)
    requires Inv(n) && Possible(n, op)
    ensures Inv(Do(n, op).0) && Extends(n, Do(n, op).0)
  {
    match op
    case OpLookup(e, path) => LookupKeeps(n, e, path);
    case OpList(e, path) => ListKeeps(n, e, path);
    case OpCopyUp(b) => CopyUpKeeps(n, b);
    case OpNewDelta =>
      assert forall k :: CanonicalKey(NewDelta(n).0, k) == CanonicalKey(n, k);
  }

  function Run(n: Numbers, ops: seq<Op>): Numbers
    decreases |ops|
  {
    if ops == [] then n else Run(Do(n, ops[0]).0, ops[1..])
  }

  predicate PossibleRun(n: Numbers, ops: seq<Op>)
    decreases |ops|
  {
    ops == [] || (Possible(n, ops[0]) && PossibleRun(Do(n, ops[0]).0, ops[1..]))
  }

  lemma {:induction false} RunKeeps(n: Numbers, ops: seq<Op>)
    requires Inv(n) && PossibleRun(n, ops)
    ensures Inv(Run(n, ops)) && Extends(n, Run(n, ops))
    decreases |ops|
  {
    if ops != [] {
      DoKeeps(n, ops[0]);
      RunKeeps(Do(n, ops[0]).0, ops[1..]);
    }
  }

  // An entry keeps its number: whatever happens between two lookups or listings of it, in
  // any combination, they answer alike.
  lemma NumbersAreStable(n: Numbers, e: Entry, path: Components, ops: seq<Op>, later: Components)
    requires Inv(n) && Live(n, e)
    requires PossibleRun(Lookup(n, e, path).0, ops) && PossibleRun(List(n, e, path).0, ops)
    ensures var (n1, x) := Lookup(n, e, path); var n2 := Run(n1, ops);
      Lookup(n2, e, later).1 == x && List(n2, e, later).1 == x
    ensures var (n1, x) := List(n, e, path); var n2 := Run(n1, ops);
      Lookup(n2, e, later).1 == x && List(n2, e, later).1 == x
    ensures Lookup(n, e, path).1 == List(n, e, path).1
  {
    LookupKeeps(n, e, path);
    ListKeeps(n, e, path);
    StillSame(Lookup(n, e, path).0, e, ops, later);
    StillSame(List(n, e, path).0, e, ops, later);
  }

  lemma StillSame(n1: Numbers, e: Entry, ops: seq<Op>, later: Components)
    requires Inv(n1) && Live(n1, e) && Canonical(n1, e) in n1.reverse && PossibleRun(n1, ops)
    ensures var n2, x := Run(n1, ops), n1.reverse[Canonical(n1, e)];
      Lookup(n2, e, later).1 == x && List(n2, e, later).1 == x
  {
    RunKeeps(n1, ops);
    var n2 := Run(n1, ops);
    assert Canonical(n2, e) == Canonical(n1, e);
    LookupKeeps(n2, e, later);
    ListKeeps(n2, e, later);
  }

  // Copy-up does not change the number: the base entry looked up before and the delta entry
  // found in its place afterwards have the same number.
  lemma CopyUpKeepsNumber(n: Numbers, b: int, path: Components, between: seq<Op>, after: seq<Op>)
    requires Inv(n) && PossibleRun(Lookup(n, InBase(b), path).0, between)
    requires var n2 := Run(Lookup(n, InBase(b), path).0, between); PossibleRun(CopyUp(n2, b).0, after)
    ensures var (n1, x) := Lookup(n, InBase(b), path);
      var (n3, d) := CopyUp(Run(n1, between), b);
      Lookup(Run(n3, after), InDelta(d), path).1 == x
  {
    LookupKeeps(n, InBase(b), path);
    var n1 := Lookup(n, InBase(b), path).0;
    RunKeeps(n1, between);
    var n2 := Run(n1, between);
    CopyUpKeeps(n2, b);
    var (n3, d) := CopyUp(n2, b);
    StillSame(n3, InDelta(d), after, path);
  }

  // Two entries that are answered with the same number are the same file: the same layer
  // inode, or copies linked by an origin record.
  lemma NumbersAreUnambiguous(n: Numbers, a: Entry, p: Components, ops: seq<Op>, b: Entry, q: Components)
    requires Inv(n) && Live(n, a) && PossibleRun(Lookup(n, a, p).0, ops)
    requires var n2 := Run(Lookup(n, a, p).0, ops); Live(n2, b)
    ensures var (n1, x) := Lookup(n, a, p); var n2 := Run(n1, ops);
      Lookup(n2, b, q).1 == x <==> Canonical(n2, a) == Canonical(n2, b)
  {
    LookupKeeps(n, a, p);
    var n1 := Lookup(n, a, p).0;
    RunKeeps(n1, ops);
    var n2 := Run(n1, ops);
    LookupKeeps(n2, b, q);
    var n3 := Lookup(n2, b, q).0;
    assert Canonical(n3, a) == Canonical(n2, a) == Canonical(n1, a);
    assert CanonicalKey(n3, Canonical(n3, a)) == Canonical(n3, a);
    assert CanonicalKey(n3, Canonical(n3, b)) == Canonical(n3, b);
  }

  // ---- The maps as they are updated ----

  class InodeNumbers {
    var inodeMap: map<int, Info>
    var reverseMap: map<Key, int>
    var pathMap: map<Components, int>
    var originMap: map<int, int>
    var nextIno: int
    ghost var deltaNext: int

    ghost function Value(): Numbers
      reads this
    {
      Numbers(inodeMap, reverseMap, originMap, nextIno, deltaNext)
    }

    constructor (origins: map<int, int>, ghost deltaNext: int)
      ensures Value() == Mounted(origins, deltaNext)
    {
      inodeMap := map[ROOT := Info(Key(LayerDelta, ROOT), [])];
      reverseMap := map[Key(LayerDelta, ROOT) := ROOT];
      pathMap := map[[] := ROOT];
      originMap := origins;
      nextIno := 2;
      this.deltaNext := deltaNext;
    }

    method AllocIno() returns (ino: int)
      modifies this`nextIno
      ensures ino == old(nextIno) && nextIno == old(nextIno) + 1
    {
      nextIno := nextIno + 1;
      ino := nextIno - 1;
    }

    method GetOrCreateOverlayIno(layer: Layer, underlyingIno: int, path: Components) returns (ino: int)
      modifies this`inodeMap, this`reverseMap, this`pathMap, this`nextIno
      ensures (Value(), ino) == GetOrCreate(old(Value()), Key(layer, underlyingIno), path)
    {
      var k := Key(layer, underlyingIno);
      if k in reverseMap { return reverseMap[k]; }
      ino := AllocIno();
      inodeMap := inodeMap[ino := Info(k, path)];
      reverseMap := reverseMap[k := ino];
      pathMap := pathMap[path := ino];
    }

    method GetOrCreateOverlayInoWithOrigin(baseIno: int, deltaIno: int, path: Components) returns (ino: int)
      modifies this`inodeMap, this`reverseMap, this`pathMap, this`nextIno
      ensures (Value(), ino) == GetOrCreateWithOrigin(old(Value()), baseIno, deltaIno, path)
    {
      var k := Key(LayerBase, baseIno);
      if k in reverseMap {
        ino := reverseMap[k];
        inodeMap := inodeMap[ino := Info(Key(LayerDelta, deltaIno), path)];
        reverseMap := reverseMap[Key(LayerDelta, deltaIno) := ino];
        assert reverseMap == old(reverseMap)[k := ino][Key(LayerDelta, deltaIno) := ino];
        return;
      }
      ino := AllocIno();
      inodeMap := inodeMap[ino := Info(Key(LayerDelta, deltaIno), path)];
      reverseMap := reverseMap[k := ino];
      reverseMap := reverseMap[Key(LayerDelta, deltaIno) := ino];
      pathMap := pathMap[path := ino];
    }

    // The end of Lookup, once the entry was found in a layer.
    method NumberFound(e: Entry, path: Components) returns (ino: int)
      modifies this`inodeMap, this`reverseMap, this`pathMap, this`nextIno
      ensures (Value(), ino) == Lookup(old(Value()), e, path)
    {
      match e {
        case InDelta(d) =>
          if d in originMap {
            ino := GetOrCreateOverlayInoWithOrigin(originMap[d], d, path);
          } else {
            ino := GetOrCreateOverlayIno(LayerDelta, d, path);
          }
        case InBase(b) =>
          ino := GetOrCreateOverlayIno(LayerBase, b, path);
      }
    }

    // One row of ReaddirPlus.
    method NumberListed(e: Entry, path: Components) returns (ino: int)
      modifies this`inodeMap, this`reverseMap, this`pathMap, this`nextIno
      ensures (Value(), ino) == List(old(Value()), e, path)
    {
      match e {
        case InDelta(d) =>
          if d in originMap {
            ino := GetOrCreateOverlayIno(LayerBase, originMap[d], path);
          } else {
            ino := GetOrCreateOverlayIno(LayerDelta, d, path);
          }
        case InBase(b) =>
          ino := GetOrCreateOverlayIno(LayerBase, b, path);
      }
    }

    // addOriginMapping for the inode copyUp has just inserted.
    method AddOriginMapping(deltaIno: int, baseIno: int)
      requires deltaIno == deltaNext
      modifies this`originMap, this`deltaNext
      ensures (Value(), deltaIno) == CopyUp(old(Value()), baseIno)
    {
      originMap := originMap[deltaIno := baseIno];
      deltaNext := deltaNext + 1;
    }
  }
}
