// Path resolution with symlink following: resolvePathFollow.
module Resolution {
  import opened Common
  import opened Paths
  import opened Tables

  const MAX_SYMLINK_DEPTH := 40

  // ---- The algorithm ----

  datatype Scanned = Found(ino: int) | AtLink(pos: nat, ino: int) | Missing | NotDirectory

  // One pass over the components from position i, standing on inode `at`: stops at the
  // first symlink that has to be followed.
  function Scan(s: State, cs: Components, i: nat, at: int, followLast: bool): (r: Scanned)
    requires i <= |cs|
    ensures r.AtLink? ==> i <= r.pos < |cs|
    decreases |cs| - i
  {
    if i == |cs| then Found(at) else
      var child := Step(s, at, cs[i]);
      if child.None? || child.value !in s.inodes then Missing
      else if IsLink(s, child.value) && (i < |cs| - 1 || followLast) then AtLink(i, child.value)
      else if i < |cs| - 1 && !IsDir(s, child.value) then NotDirectory
      else Scan(s, cs, i + 1, child.value, followLast)
  }

  // Restart from the root with the link replaced by its target, at most `budget` times.
  function Resolve(s: State, cs: Components, followLast: bool, budget: nat): Result<int>
    decreases budget
  {
    match Scan(s, cs, 0, ROOT, followLast)
    case Found(ino) => Ok(ino)
    case Missing => Err(ENOENT)
    case NotDirectory => Err(ENOTDIR)
    case AtLink(pos, ino) =>
      if budget == 0 then Err(ELOOP)
      else if ino !in s.symlinks then Err(ESQL)
      else Resolve(s, Redirect(cs, pos, s.symlinks[ino]), followLast, budget - 1)
  }

  // resolvePathFollow(p, true) of a component list that is normalized first.
  function Lookup(s: State, cs: Components): Result<int> {
    Resolve(s, Renormalize(cs), true, MAX_SYMLINK_DEPTH)
  }

  // ---- What it means ----

  // The component at position i is a symlink that resolution has to follow.
  predicate LinkAt(s: State, cs: Components, followLast: bool, i: nat) {
    && i < |cs| && (i < |cs| - 1 || followLast)
    && var at := Walk(s, ROOT, cs[..i + 1]);
    && at.Some? && IsLink(s, at.value)
  }

  ghost predicate HasLink(s: State, cs: Components, followLast: bool) {
    exists i :: LinkAt(s, cs, followLast, i)
  }

  // A component before the last is neither a directory nor a symlink.
  predicate BlockedAt(s: State, cs: Components, i: nat) {
    && i + 1 < |cs|
    && var at := Walk(s, ROOT, cs[..i + 1]);
    && at.Some? && !IsDir(s, at.value) && !IsLink(s, at.value)
  }

  ghost predicate Blocked(s: State, cs: Components) {
    exists i: nat :: BlockedAt(s, cs, i)
  }

  // The components after replacing the symlink on the way k times.
  ghost function Rewritten(s: State, cs: Components, followLast: bool, k: nat): Option<Components>
    decreases k
  {
    if k == 0 then Some(cs) else
      var prev := Rewritten(s, cs, followLast, k - 1);
      if prev.Some? && HasLink(s, prev.value, followLast) then Follow(s, prev.value, LinkPos(s, prev.value, followLast))
      else None
  }

  ghost function LinkPos(s: State, cs: Components, followLast: bool): (i: nat)
    requires HasLink(s, cs, followLast)
    ensures LinkAt(s, cs, followLast, i)
  {
    var i :| LinkAt(s, cs, followLast, i);
    i
  }

  function Follow(s: State, cs: Components, i: nat): Option<Components>
    requires i < |cs|
  {
    var link := Walk(s, ROOT, cs[..i + 1]);
    if link.Some? && link.value in s.symlinks then Some(Redirect(cs, i, s.symlinks[link.value])) else None
  }

  // ---- Scan against the plain walk ----

  lemma WalkTake(s: State, cs: Components, i: nat)
    requires i < |cs|
    ensures Walk(s, ROOT, cs[..i + 1]) ==
      var at := Walk(s, ROOT, cs[..i]); if at.None? then None else Step(s, at.value, cs[i])
  {
    assert cs[..i + 1] == cs[..i] + [cs[i]];
    WalkSnoc(s, ROOT, cs[..i], cs[i]);
  }

  // Only a directory has anything below it, so a walk ends at the first symlink or file.
  lemma {:induction false} WalkPastNonDir(s: State, cs: Components, i: nat, j: nat)
    requires Valid(s) && i < j <= |cs|
    requires Walk(s, ROOT, cs[..i]).Some? && !IsDir(s, Walk(s, ROOT, cs[..i]).value)
    ensures Walk(s, ROOT, cs[..j]).None?
    decreases j
  {
    WalkTake(s, cs, j - 1);
    if i < j - 1 {
      WalkPastNonDir(s, cs, i, j - 1);
    } else {
      NothingBelow(s, Walk(s, ROOT, cs[..i]).value, cs[i]);
    }
  }

  lemma NothingBelow(s: State, at: int, name: string)
    requires Valid(s) && !IsDir(s, at)
    ensures Step(s, at, name).None?
  {
    forall k | k in s.dentries
      ensures k.parent != at
    {
      assert SlotValid(s, k);
    }
  }

  // There is at most one position where a walk meets a symlink or a blocking file.
  lemma StopIsUnique(s: State, cs: Components, i: nat, j: nat)
    requires Valid(s) && i < |cs| && j < |cs|
    requires Walk(s, ROOT, cs[..i + 1]).Some? && !IsDir(s, Walk(s, ROOT, cs[..i + 1]).value)
    requires Walk(s, ROOT, cs[..j + 1]).Some? && !IsDir(s, Walk(s, ROOT, cs[..j + 1]).value)
    ensures i == j
  {
    if i < j {
      WalkPastNonDir(s, cs, i + 1, j + 1);
      assert false;
    } else if j < i {
      WalkPastNonDir(s, cs, j + 1, i + 1);
      assert false;
    }
  }

  // What each result of a scan says about the plain walk.
  ghost predicate ScanMeaning(s: State, cs: Components, followLast: bool, r: Scanned) {
    match r
    case Found(ino) => Walk(s, ROOT, cs) == Some(ino) && !HasLink(s, cs, followLast) && !Blocked(s, cs)
    case AtLink(pos, ino) => LinkAt(s, cs, followLast, pos) && Walk(s, ROOT, cs[..pos + 1]) == Some(ino)
    case Missing => Walk(s, ROOT, cs).None? && !HasLink(s, cs, followLast) && !Blocked(s, cs)
    case NotDirectory => Blocked(s, cs)
  }

  lemma {:induction false} ScanMeans(s: State, cs: Components, i: nat, at: int, followLast: bool)
    requires Valid(s) && i <= |cs| && Walk(s, ROOT, cs[..i]) == Some(at)
    requires forall j :: 0 <= j < i && (j < |cs| - 1 || followLast) ==> !LinkAt(s, cs, followLast, j)
    requires forall j: nat :: j < i ==> !BlockedAt(s, cs, j)
    ensures ScanMeaning(s, cs, followLast, Scan(s, cs, i, at, followLast))
    decreases |cs| - i
  {
    if i == |cs| {
      assert cs[..i] == cs;
    } else {
      WalkTake(s, cs, i);
      var child := Step(s, at, cs[i]);
      if child.None? {
        NothingBeyond(s, cs, i, followLast);
      } else {
        assert SlotValid(s, Slot(at, cs[i]));
        if IsLink(s, child.value) && (i < |cs| - 1 || followLast) {
          assert LinkAt(s, cs, followLast, i);
        } else if i < |cs| - 1 && !IsDir(s, child.value) {
          assert BlockedAt(s, cs, i);
        } else {
          ScanMeans(s, cs, i + 1, child.value, followLast);
        }
      }
    }
  }

  lemma {:induction false} WalkStaysMissing(s: State, cs: Components, i: nat, j: nat)
    requires i <= j <= |cs| && Walk(s, ROOT, cs[..i]).None?
    ensures Walk(s, ROOT, cs[..j]).None?
    decreases j
  {
    if i < j {
      WalkTake(s, cs, j - 1);
      WalkStaysMissing(s, cs, i, j - 1);
    }
  }

  lemma NothingBeyond(s: State, cs: Components, i: nat, followLast: bool)
    requires i < |cs| && Walk(s, ROOT, cs[..i + 1]).None?
    requires forall j :: 0 <= j < i && (j < |cs| - 1 || followLast) ==> !LinkAt(s, cs, followLast, j)
    requires forall j: nat :: j < i ==> !BlockedAt(s, cs, j)
    ensures Walk(s, ROOT, cs).None? && !HasLink(s, cs, followLast) && !Blocked(s, cs)
  {
    forall j: nat | j < |cs|
      ensures !LinkAt(s, cs, followLast, j) && !BlockedAt(s, cs, j)
    {
      if i <= j {
        WalkStaysMissing(s, cs, i + 1, j + 1);
      }
    }
    WalkStaysMissing(s, cs, i + 1, |cs|);
    assert cs[..|cs|] == cs;
  }

  lemma ScanFromRoot(s: State, cs: Components, followLast: bool)
    requires Valid(s)
    ensures ScanMeaning(s, cs, followLast, Scan(s, cs, 0, ROOT, followLast))
    ensures HasLink(s, cs, followLast) <==> Scan(s, cs, 0, ROOT, followLast).AtLink?
  {
    assert cs[..0] == [];
    ScanMeans(s, cs, 0, ROOT, followLast);
    var r := Scan(s, cs, 0, ROOT, followLast);
    if r.NotDirectory? && HasLink(s, cs, followLast) {
      var i :| LinkAt(s, cs, followLast, i);
      var j: nat :| BlockedAt(s, cs, j);
      StopIsUnique(s, cs, i, j);
      assert false;
    }
  }

  // ---- The bound on symlinks ----

  // k rewrites later, the budget is k smaller and the answer is the same.
  lemma {:induction false} ResolveAfter(s: State, cs: Components, followLast: bool, budget: nat, k: nat, left: nat)
    requires Valid(s) && budget == k + left && Rewritten(s, cs, followLast, k).Some?
    ensures Resolve(s, cs, followLast, budget) == Resolve(s, Rewritten(s, cs, followLast, k).value, followLast, left)
    decreases k
  {
    if k > 0 {
      RewrittenStep(s, cs, followLast, k);
      ResolveAfter(s, cs, followLast, budget, k - 1, left + 1);
      ResolveOnce(s, Rewritten(s, cs, followLast, k - 1).value, followLast, left);
    }
  }

  lemma RewrittenStep(s: State, cs: Components, followLast: bool, k: nat)
    requires k > 0 && Rewritten(s, cs, followLast, k).Some?
    ensures var prev := Rewritten(s, cs, followLast, k - 1);
      && prev.Some? && HasLink(s, prev.value, followLast)
      && Rewritten(s, cs, followLast, k) == Follow(s, prev.value, LinkPos(s, prev.value, followLast))
  {
  }

  lemma ResolveOnce(s: State, cs: Components, followLast: bool, left: nat)
    requires Valid(s) && HasLink(s, cs, followLast)
    ensures var next := Follow(s, cs, LinkPos(s, cs, followLast));
      next.Some? ==> Resolve(s, cs, followLast, left + 1) == Resolve(s, next.value, followLast, left)
  {
    ScanFromRoot(s, cs, followLast);
    StopIsUnique(s, cs, LinkPos(s, cs, followLast), Scan(s, cs, 0, ROOT, followLast).pos);
  }

  lemma NextRewrite(s: State, cs: Components, followLast: bool, k: nat)
    requires Valid(s) && Rewritten(s, cs, followLast, k).Some?
    ensures Rewritten(s, cs, followLast, k + 1).Some? <==> HasLink(s, Rewritten(s, cs, followLast, k).value, followLast)
  {
  }

  // Every path either settles within n rewrites or is still at a symlink after n.
  lemma {:induction false} SettlesOrNot(s: State, cs: Components, followLast: bool, n: nat) returns (k: nat)
    requires Valid(s)
    ensures k <= n && Rewritten(s, cs, followLast, k).Some?
    ensures k == n || !HasLink(s, Rewritten(s, cs, followLast, k).value, followLast)
    decreases n
  {
    if n == 0 {
      k := 0;
    } else {
      k := SettlesOrNot(s, cs, followLast, n - 1);
      if HasLink(s, Rewritten(s, cs, followLast, k).value, followLast) {
        NextRewrite(s, cs, followLast, k);
        k := n;
      }
    }
  }

  // `path` is what the symlinks on the way of cs leave after at most `bound` rewrites.
  ghost predicate SettlesAs(s: State, cs: Components, followLast: bool, bound: nat, path: Components) {
    && !HasLink(s, path, followLast)
    && exists k: nat :: k <= bound && Rewritten(s, cs, followLast, k) == Some(path)
  }

  // The path is still at a symlink when the budget is used up.
  ghost predicate LoopsAt(s: State, cs: Components, followLast: bool, bound: nat, path: Components) {
    Rewritten(s, cs, followLast, bound) == Some(path) && HasLink(s, path, followLast)
  }

  // Resolution answers from the settled path, or fails with ELOOP.
  lemma ResolveCases(s: State, cs: Components, followLast: bool, budget: nat) returns (path: Components)
    requires Valid(s)
    ensures LoopsAt(s, cs, followLast, budget, path) || SettlesAs(s, cs, followLast, budget, path)
    ensures LoopsAt(s, cs, followLast, budget, path) ==> Resolve(s, cs, followLast, budget) == Err(ELOOP)
    ensures SettlesAs(s, cs, followLast, budget, path) ==>
      Resolve(s, cs, followLast, budget) == (
        if Blocked(s, path) then Err(ENOTDIR)
        else if Walk(s, ROOT, path).Some? then Ok(Walk(s, ROOT, path).value)
        else Err(ENOENT))
  {
    var k := SettlesOrNot(s, cs, followLast, budget);
    path := Rewritten(s, cs, followLast, k).value;
    ResolveAfter(s, cs, followLast, budget, k, budget - k);
    ScanFromRoot(s, path, followLast);
  }

  lemma {:induction false} RewritesStop(s: State, cs: Components, followLast: bool, k: nat, n: nat)
    requires Rewritten(s, cs, followLast, k).Some? && !HasLink(s, Rewritten(s, cs, followLast, k).value, followLast)
    requires k < n
    ensures Rewritten(s, cs, followLast, n).None?
    decreases n
  {
    var last: nat := n - 1;
    if k < last {
      RewritesStop(s, cs, followLast, k, last);
    }
    StoppedStays(s, cs, followLast, last);
  }

  lemma StoppedStays(s: State, cs: Components, followLast: bool, k: nat)
    requires var r := Rewritten(s, cs, followLast, k); r.None? || !HasLink(s, r.value, followLast)
    ensures Rewritten(s, cs, followLast, k + 1).None?
  {
  }

  lemma SettlesOnce(s: State, cs: Components, followLast: bool, bound: nat, a: Components, b: Components)
    requires SettlesAs(s, cs, followLast, bound, a)
    requires SettlesAs(s, cs, followLast, bound, b) || LoopsAt(s, cs, followLast, bound, b)
    ensures a == b && !LoopsAt(s, cs, followLast, bound, b)
  {
    var j: nat :| j <= bound && Rewritten(s, cs, followLast, j) == Some(a);
    if LoopsAt(s, cs, followLast, bound, b) {
      StopsTogether(s, cs, followLast, j, bound);
    } else {
      var k: nat :| k <= bound && Rewritten(s, cs, followLast, k) == Some(b);
      StopsTogether(s, cs, followLast, j, k);
    }
  }

  lemma StopsTogether(s: State, cs: Components, followLast: bool, j: nat, k: nat)
    requires Rewritten(s, cs, followLast, j).Some? && !HasLink(s, Rewritten(s, cs, followLast, j).value, followLast)
    requires Rewritten(s, cs, followLast, k).Some?
    requires k < j ==> !HasLink(s, Rewritten(s, cs, followLast, k).value, followLast)
    ensures j == k
  {
    if j < k {
      RewritesStop(s, cs, followLast, j, k);
      assert false;
    } else if k < j {
      RewritesStop(s, cs, followLast, k, j);
      assert false;
    }
  }

  // Resolution succeeds exactly when at most `budget` symlink rewrites lead to a path whose
  // plain walk reaches the inode.
  lemma ResolveExactly(s: State, cs: Components, followLast: bool, budget: nat, ino: int)
    requires Valid(s)
    ensures Resolve(s, cs, followLast, budget) == Ok(ino) <==>
      exists path :: SettlesAs(s, cs, followLast, budget, path) && !Blocked(s, path) && Walk(s, ROOT, path) == Some(ino)
  {
    var path := ResolveCases(s, cs, followLast, budget);
    forall other | SettlesAs(s, cs, followLast, budget, other)
      ensures other == path && SettlesAs(s, cs, followLast, budget, path)
    {
      SettlesOnce(s, cs, followLast, budget, other, path);
    }
  }

  // ... and fails with ELOOP exactly when one symlink more than the budget is met.
  lemma LoopExactly(s: State, cs: Components, followLast: bool, budget: nat)
    requires Valid(s)
    ensures Resolve(s, cs, followLast, budget) == Err(ELOOP) <==>
      exists path :: LoopsAt(s, cs, followLast, budget, path)
  {
    var path := ResolveCases(s, cs, followLast, budget);
    forall other | LoopsAt(s, cs, followLast, budget, other) && SettlesAs(s, cs, followLast, budget, path)
      ensures false
    {
      SettlesOnce(s, cs, followLast, budget, path, other);
    }
  }

  // Whatever is returned is a live inode, and not a symlink when the last one is followed.
  lemma {:induction false} ResolveLive(s: State, cs: Components, followLast: bool, budget: nat)
    requires Valid(s) && Resolve(s, cs, followLast, budget).Ok?
    ensures Resolve(s, cs, followLast, budget).value in s.inodes
    ensures followLast ==> !IsLink(s, Resolve(s, cs, followLast, budget).value)
    decreases budget
  {
    ScanFromRoot(s, cs, followLast);
    match Scan(s, cs, 0, ROOT, followLast)
    case Found(ino) =>
      WalkLive(s, ROOT, cs);
      if followLast && IsLink(s, ino) {
        assert cs[..|cs| - 1 + 1] == cs;
        assert LinkAt(s, cs, followLast, |cs| - 1);
      }
    case AtLink(pos, ino) =>
      ResolveLive(s, Redirect(cs, pos, s.symlinks[ino]), followLast, budget - 1);
    case _ =>
  }

  // A path without symlinks resolves as the plain walk does.
  lemma ResolvePlain(s: State, cs: Components, followLast: bool, budget: nat)
    requires Valid(s) && !HasLink(s, cs, followLast)
    ensures Resolve(s, cs, followLast, budget).Ok? ==>
      Walk(s, ROOT, cs) == Some(Resolve(s, cs, followLast, budget).value)
    ensures Walk(s, ROOT, cs).Some? ==> Resolve(s, cs, followLast, budget).Ok?
  {
    ScanFromRoot(s, cs, followLast);
    forall i: nat | BlockedAt(s, cs, i)
      ensures Walk(s, ROOT, cs).None?
    {
      WalkPastNonDir(s, cs, i + 1, |cs|);
      assert cs[..|cs|] == cs;
    }
  }

  // ---- Restarting from the root against continuing from the current directory ----

  // The components of a target that name something, ".." included.
  function Names(raw: Components): Components {
    if raw == [] then []
    else if raw[0] == "" || raw[0] == "." then Names(raw[1..])
    else [raw[0]] + Names(raw[1..])
  }

  // What the next component, if not "..", comes to: an answer, a step down, or a link to follow.
  datatype Turn = Answer(result: Result<int>) | Down(child: int) | Jump(target: string)

  function TurnAt(s: State, at: int, todo: Components, followLast: bool, budget: nat): (t: Turn)
    requires todo != []
    ensures t.Jump? ==> budget > 0
  {
    var child := Step(s, at, todo[0]);
    if child.None? || child.value !in s.inodes then Answer(Err(ENOENT))
    else if IsLink(s, child.value) && (|todo| > 1 || followLast) then
      if budget == 0 then Answer(Err(ELOOP))
      else if child.value !in s.symlinks then Answer(Err(ESQL))
      else Jump(s.symlinks[child.value])
    else if |todo| > 1 && !IsDir(s, child.value) then Answer(Err(ENOTDIR))
    else Down(child.value)
  }

  function JumpTrail(trail: seq<int>, target: string): seq<int> { if IsAbsolute(target) then [ROOT] else trail }

  function JumpTodo(target: string, rest: Components): Components { Names(Split(target)) + rest }

  // The textbook resolver. `trail` holds the directories from the root to the one it is in; at a
  // relative link it goes on with the target's components from there, at an absolute one from the
  // root, and ".." takes it to the directory before.
  function Continue(s: State, trail: seq<int>, todo: Components, followLast: bool, budget: nat): Result<int>
    requires trail != []
    decreases budget, |todo|
  {
    var at := trail[|trail| - 1];
    if todo == [] then Ok(at)
    else if todo[0] == ".." then Continue(s, Back(trail), todo[1..], followLast, budget)
    else
      match TurnAt(s, at, todo, followLast, budget)
      case Answer(r) => r
      case Down(child) => Continue(s, trail + [child], todo[1..], followLast, budget)
      case Jump(target) => Continue(s, JumpTrail(trail, target), JumpTodo(target, todo[1..]), followLast, budget - 1)
  }

  function Back(trail: seq<int>): (r: seq<int>)
    requires trail != []
    ensures r != []
  {
    if |trail| > 1 then trail[..|trail| - 1] else trail
  }

  // Whenever the textbook resolver meets a link, or stops, no ".." is still to come: the names
  // that a ".." takes back step to directories without a link.
  predicate DotsOnDirs(s: State, trail: seq<int>, todo: Components, followLast: bool, budget: nat)
    requires trail != []
    decreases budget, |todo|
  {
    if todo == [] then true
    else if todo[0] == ".." then DotsOnDirs(s, Back(trail), todo[1..], followLast, budget)
    else
      match TurnAt(s, trail[|trail| - 1], todo, followLast, budget)
      case Answer(_) => ".." !in todo
      case Down(child) => DotsOnDirs(s, trail + [child], todo[1..], followLast, budget)
      case Jump(target) =>
        ".." !in todo && DotsOnDirs(s, JumpTrail(trail, target), JumpTodo(target, todo[1..]), followLast, budget - 1)
  }

  // Every prefix of `pre` is a directory, the one that `trail` names.
  ghost predicate Resolved(s: State, pre: Components, trail: seq<int>) {
    && |trail| == |pre| + 1
    && forall i :: 0 <= i <= |pre| ==> Walk(s, ROOT, pre[..i]) == Some(trail[i]) && IsDir(s, trail[i])
  }

  // Re-walking a resolved prefix brings the scan back to where it was.
  lemma {:induction false} ScanSkips(s: State, pre: Components, trail: seq<int>, todo: Components, i: nat, followLast: bool)
    requires Valid(s) && i <= |pre| && Resolved(s, pre, trail)
    ensures Scan(s, pre + todo, i, trail[i], followLast) == Scan(s, pre + todo, |pre|, trail[|pre|], followLast)
    decreases |pre| - i
  {
    if i < |pre| {
      WalkTake(s, pre, i);
      assert (pre + todo)[i] == pre[i];
      assert Step(s, trail[i], pre[i]) == Some(trail[i + 1]);
      ScanSkips(s, pre, trail, todo, i + 1, followLast);
    }
  }

  // Components without a name do not matter to path.Clean.
  lemma {:induction false} CleanFromNames(done: Components, raw: Components, rest: Components)
    ensures CleanFrom(true, done, raw + rest) == CleanFrom(true, done, Names(raw) + rest)
    decreases |raw|
  {
    if raw != [] {
      assert (raw + rest)[1..] == raw[1..] + rest;
      var next := CleanStep(true, done, raw[0]);
      CleanFromNames(next, raw[1..], rest);
      assert CleanFrom(true, done, raw + rest) == CleanFrom(true, next, raw[1..] + rest);
      if raw[0] == "" || raw[0] == "." {
        assert next == done && Names(raw) == Names(raw[1..]);
      } else {
        var named := Names(raw) + rest;
        assert named[0] == raw[0] && named[1..] == Names(raw[1..]) + rest;
        assert CleanFrom(true, done, named) == CleanFrom(true, next, named[1..]);
      }
    }
  }

  predicate Named(cs: Components) { Proper(cs) && "." !in cs }

  lemma {:induction false} NamesProper(raw: Components)
    requires forall c :: c in raw ==> '/' !in c
    ensures Named(Names(raw))
  {
    if raw != [] {
      NamesProper(raw[1..]);
    }
  }

  lemma ResolvedSnoc(s: State, pre: Components, trail: seq<int>, n: string)
    requires Resolved(s, pre, trail)
    requires var child := Step(s, trail[|pre|], n); child.Some? && IsDir(s, child.value)
    ensures Resolved(s, pre + [n], trail + [Step(s, trail[|pre|], n).value])
  {
    WalkSnoc(s, ROOT, pre, n);
    assert pre[..|pre|] == pre;
    var cs, longer := pre + [n], trail + [Step(s, trail[|pre|], n).value];
    forall i | 0 <= i <= |cs|
      ensures Walk(s, ROOT, cs[..i]) == Some(longer[i]) && IsDir(s, longer[i])
    {
      if i <= |pre| {
        assert cs[..i] == pre[..i];
      } else {
        assert cs[..i] == cs;
      }
    }
  }

  lemma ResolvedBack(s: State, pre: Components, trail: seq<int>)
    requires Clean(pre) && Resolved(s, pre, trail)
    ensures Clean(CleanStep(true, pre, "..")) && Resolved(s, CleanStep(true, pre, ".."), Back(trail))
  {
    var shorter := CleanStep(true, pre, "..");
    if pre != [] {
      assert pre[|pre| - 1] in pre;
      assert shorter == pre[..|pre| - 1];
      assert forall c :: c in shorter ==> c in pre;
      assert forall i :: 0 <= i <= |shorter| ==> shorter[..i] == pre[..i];
    }
  }

  lemma RootResolved(s: State)
    requires Valid(s)
    ensures Resolved(s, [], [ROOT])
  {
    assert InodeValid(s, ROOT);
  }

  // Where the scan of a path stops whose first components are resolved, if it stops at once.
  lemma ScanHere(s: State, pre: Components, trail: seq<int>, todo: Components, followLast: bool)
    requires Valid(s) && Resolved(s, pre, trail)
    ensures var r := Scan(s, pre + todo, 0, ROOT, followLast);
      if todo == [] then r == Found(trail[|pre|]) else
        var child := Step(s, trail[|pre|], todo[0]);
        if child.None? || child.value !in s.inodes then r == Missing
        else if IsLink(s, child.value) && (|todo| > 1 || followLast) then r == AtLink(|pre|, child.value)
        else if |todo| == 1 then r == Found(child.value)
        else !IsDir(s, child.value) ==> r == NotDirectory
  {
    var cs := pre + todo;
    assert pre[..0] == [];
    ScanSkips(s, pre, trail, todo, 0, followLast);
    assert Scan(s, cs, 0, ROOT, followLast) == Scan(s, cs, |pre|, trail[|pre|], followLast);
    if todo != [] {
      assert cs[|pre|] == todo[0];
    }
  }

  function JumpPre(pre: Components, target: string): Components { if IsAbsolute(target) then [] else pre }

  // Where a link leads.
  lemma RedirectIsCleanFrom(pre: Components, todo: Components, target: string)
    requires Clean(pre) && todo != []
    ensures Redirect(pre + todo, |pre|, target) == CleanFrom(true, JumpPre(pre, target), JumpTodo(target, todo[1..]))
  {
    var cs, from := pre + todo, JumpPre(pre, target);
    assert cs[..|pre|] == pre && cs[|pre| + 1..] == todo[1..];
    CleanFromNames(from, Split(target), todo[1..]);
  }

  // What restarting comes to at the first component that is not resolved yet.
  lemma RestartHere(s: State, pre: Components, trail: seq<int>, todo: Components, followLast: bool, budget: nat)
    requires Valid(s) && Clean(pre) && Clean(todo) && todo != [] && Resolved(s, pre, trail)
    ensures var r := Resolve(s, pre + todo, followLast, budget);
      match TurnAt(s, trail[|pre|], todo, followLast, budget)
      case Answer(e) => r == e
      case Down(child) => if |todo| == 1 then r == Ok(child) else IsDir(s, child)
      case Jump(target) => r == Resolve(s, CleanFrom(true, JumpPre(pre, target), JumpTodo(target, todo[1..])), followLast, budget - 1)
  {
    ScanHere(s, pre, trail, todo, followLast);
    var child := Step(s, trail[|pre|], todo[0]);
    if child.Some? && child.value in s.symlinks {
      RedirectIsCleanFrom(pre, todo, s.symlinks[child.value]);
    }
  }

  lemma JumpReady(s: State, pre: Components, trail: seq<int>, target: string, rest: Components)
    requires Valid(s) && Clean(pre) && Resolved(s, pre, trail) && Named(rest)
    ensures Clean(JumpPre(pre, target)) && Resolved(s, JumpPre(pre, target), JumpTrail(trail, target))
    ensures Named(JumpTodo(target, rest))
  {
    RootResolved(s);
    NamesProper(Split(target));
    assert forall c :: c in JumpTodo(target, rest) ==> c in Names(Split(target)) || c in rest;
  }

  lemma StepFurther(s: State, pre: Components, trail: seq<int>, todo: Components, child: int)
    requires Clean(pre) && Named(todo) && todo != [] && todo[0] != ".." && Resolved(s, pre, trail)
    requires Step(s, trail[|pre|], todo[0]) == Some(child) && IsDir(s, child)
    ensures var pre1 := pre + [todo[0]];
      && Clean(pre1) && Named(todo[1..]) && Resolved(s, pre1, trail + [child])
      && CleanFrom(true, pre, todo) == CleanFrom(true, pre1, todo[1..])
  {
    ResolvedSnoc(s, pre, trail, todo[0]);
    assert todo[0] in todo && forall c :: c in todo[1..] ==> c in todo;
    assert forall c :: c in pre + [todo[0]] ==> c in pre || c == todo[0];
  }

  lemma NothingLeft(s: State, pre: Components, trail: seq<int>, followLast: bool, budget: nat)
    requires Valid(s) && Clean(pre) && Resolved(s, pre, trail)
    ensures Resolve(s, pre, followLast, budget) == Ok(trail[|pre|])
  {
    ScanHere(s, pre, trail, [], followLast);
    assert pre + [] == pre;
  }

  // Restarting where no ".." is to come: an answer, or a jump made ready.
  lemma RestartTurn(s: State, pre: Components, trail: seq<int>, todo: Components, followLast: bool, budget: nat)
    requires Valid(s) && Clean(pre) && Resolved(s, pre, trail) && Named(todo) && todo != [] && ".." !in todo
    ensures var r := Resolve(s, CleanFrom(true, pre, todo), followLast, budget);
      match TurnAt(s, trail[|pre|], todo, followLast, budget)
      case Answer(e) => r == e
      case Down(child) => |todo| == 1 ==> r == Ok(child)
      case Jump(target) =>
        var pre1, todo1 := JumpPre(pre, target), JumpTodo(target, todo[1..]);
        && r == Resolve(s, CleanFrom(true, pre1, todo1), followLast, budget - 1)
        && Clean(pre1) && Resolved(s, pre1, JumpTrail(trail, target)) && Named(todo1)
  {
    CleanFromClean(true, pre, todo);
    RestartHere(s, pre, trail, todo, followLast, budget);
    var t := TurnAt(s, trail[|pre|], todo, followLast, budget);
    if t.Jump? {
      assert forall c :: c in todo[1..] ==> c in todo;
      JumpReady(s, pre, trail, t.target, todo[1..]);
    }
  }

  // Restarting from the root and continuing from the current directory agree, result and error
  // alike, when every ".." takes back a directory that was reached without a link.
  lemma {:induction false} RestartIsContinue(
    s: State, pre: Components, trail: seq<int>, todo: Components, followLast: bool, budget: nat)
    requires Valid(s) && Clean(pre) && Resolved(s, pre, trail) && Named(todo)
    requires DotsOnDirs(s, trail, todo, followLast, budget)
    ensures Resolve(s, CleanFrom(true, pre, todo), followLast, budget) == Continue(s, trail, todo, followLast, budget)
    decreases budget, |todo|
  {
    if todo == [] {
      NothingLeft(s, pre, trail, followLast, budget);
    } else if todo[0] == ".." {
      ResolvedBack(s, pre, trail);
      assert forall c :: c in todo[1..] ==> c in todo;
      RestartIsContinue(s, CleanStep(true, pre, ".."), Back(trail), todo[1..], followLast, budget);
    } else {
      var t := TurnAt(s, trail[|pre|], todo, followLast, budget);
      if t.Down? && |todo| > 1 {
        StepFurther(s, pre, trail, todo, t.child);
        RestartIsContinue(s, pre + [todo[0]], trail + [t.child], todo[1..], followLast, budget);
      } else {
        RestartTurn(s, pre, trail, todo, followLast, budget);
        if t.Jump? {
          RestartIsContinue(s, JumpPre(pre, t.target), JumpTrail(trail, t.target), JumpTodo(t.target, todo[1..]), followLast, budget - 1);
        }
      }
    }
  }

  // The public form: from the root, with the whole budget.
  lemma LookupIsContinue(s: State, cs: Components)
    requires Valid(s) && Proper(cs) && DotsOnDirs(s, [ROOT], Renormalize(cs), true, MAX_SYMLINK_DEPTH)
    ensures Lookup(s, cs) == Continue(s, [ROOT], Renormalize(cs), true, MAX_SYMLINK_DEPTH)
  {
    var clean := Renormalize(cs);
    RenormalizeIsClean(cs);
    CleanFromClean(true, [], clean);
    assert [] + clean == clean;
    RootResolved(s);
    RestartIsContinue(s, [], [ROOT], clean, true, MAX_SYMLINK_DEPTH);
  }

  // With ".." behind a name the two part: the text "b/../x" comes to x whether or not there is a b.
  lemma RestartSkipsMissing(s: State, l: string, b: string, x: string, link: int, f: int)
    requires Valid(s) && Clean([l]) && Clean([b]) && Clean([x])
    requires Step(s, ROOT, l) == Some(link) && IsLink(s, link) && !IsAbsolute(s.symlinks[link])
    requires Names(Split(s.symlinks[link])) == [b, "..", x] && Step(s, ROOT, b).None?
    requires Step(s, ROOT, x) == Some(f) && f in s.inodes && !IsLink(s, f)
    ensures Resolve(s, [l], true, MAX_SYMLINK_DEPTH) == Ok(f)
    ensures Continue(s, [ROOT], [l], true, MAX_SYMLINK_DEPTH) == Err(ENOENT)
  {
    var target, names := s.symlinks[link], [b, "..", x];
    assert l in [l] && b in [b] && x in [x];
    RootResolved(s);
    assert [] + [l] == [l] && [l][1..] == [] && names + [] == names;
    RestartHere(s, [], [ROOT], [l], true, MAX_SYMLINK_DEPTH);
    BackAndForth(b, x);
    assert Resolve(s, [l], true, MAX_SYMLINK_DEPTH) == Resolve(s, [x], true, MAX_SYMLINK_DEPTH - 1);
    assert [] + [x] == [x];
    RestartHere(s, [], [ROOT], [x], true, MAX_SYMLINK_DEPTH - 1);
    assert JumpTodo(target, []) == names && JumpTrail([ROOT], target) == [ROOT];
    assert Continue(s, [ROOT], names, true, MAX_SYMLINK_DEPTH - 1) == Err(ENOENT);
  }

  lemma BackAndForth(b: string, x: string)
    requires Clean([b]) && Clean([x])
    ensures CleanFrom(true, [], [b, "..", x]) == [x]
  {
    assert b in [b] && x in [x];
    var cs := [b, "..", x];
    assert cs[1..] == ["..", x] && cs[1..][1..] == [x] && [x][1..] == [];
    assert CleanStep(true, [], b) == [b] && CleanStep(true, [b], "..") == [] && CleanStep(true, [], x) == [x];
    assert CleanFrom(true, [x], []) == [x];
    assert CleanFrom(true, [], [x]) == [x];
    assert CleanFrom(true, [b], ["..", x]) == [x];
  }
}
