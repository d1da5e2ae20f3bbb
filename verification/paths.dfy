// Slash-separated path strings and their component lists.
module Paths {
  import opened Common

  type Components = seq<string>

  // strings.Split(s, "/"): always at least one piece, pieces may be empty.
  function Split(s: string): (r: Components)
    ensures |r| >= 1 && forall c :: c in r ==> '/' !in c
  {
    if s == "" then [""]
    else
      var rest := Split(s[1..]);
      if s[0] == '/' then [""] + rest else [[s[0]] + rest[0]] + rest[1..]
  }

  // strings.Join(cs, "/")
  function Join(cs: Components): string {
    if cs == [] then "" else if |cs| == 1 then cs[0] else cs[0] + "/" + Join(cs[1..])
  }

  predicate IsName(c: string) {
    c != "" && '/' !in c
  }

  predicate Proper(cs: Components) {
    forall c :: c in cs ==> IsName(c)
  }

  // What path.Clean leaves of a rooted path: names only, no "." and no "..".
  predicate Clean(cs: Components) {
    Proper(cs) && "." !in cs && ".." !in cs
  }

  // One component of path.Clean: empty and "." vanish, ".." removes a name in front of
  // it, vanishes at the root, and is kept at the start of a path without a root.
  function CleanStep(rooted: bool, done: Components, c: string): Components {
    if c == "" || c == "." then done
    else if c != ".." then done + [c]
    else if done != [] && done[|done| - 1] != ".." then done[..|done| - 1]
    else if rooted then done
    else done + [c]
  }

  function CleanFrom(rooted: bool, done: Components, cs: Components): Components
    decreases |cs|
  {
    if cs == [] then done else CleanFrom(rooted, CleanStep(rooted, done, cs[0]), cs[1..])
  }

  // The components of normalizePath(p).
  function Normalize(p: string): Components {
    CleanFrom(p != "" && p[0] == '/', [], Split(p))
  }

  // A component list taken as a rooted path again.
  function Renormalize(cs: Components): Components {
    CleanFrom(true, [], cs)
  }

  function ToPath(cs: Components): string {
    "/" + Join(cs)
  }

  // strings.Trim(p, "/")
  function TrimLeft(p: string): string {
    if p != "" && p[0] == '/' then TrimLeft(p[1..]) else p
  }

  function TrimRight(p: string): string {
    if p != "" && p[|p| - 1] == '/' then TrimRight(p[..|p| - 1]) else p
  }

  // splitPath(p)
  function SplitPath(p: string): Components {
    var t := TrimRight(TrimLeft(p));
    if t == "" then [] else Split(t)
  }

  // path.Split(p) of a normalized path: the parent, normalized again, and the name.
  function ParentOf(cs: Components): Components {
    if cs == [] then [] else Renormalize(cs[..|cs| - 1])
  }

  function NameOf(cs: Components): string {
    if cs == [] then "" else cs[|cs| - 1]
  }

  predicate StrictPrefix(a: Components, b: Components) {
    |a| < |b| && b[..|a|] == a
  }

  // ---- Split and Join ----

  lemma {:induction false} SplitPlain(s: string)
    requires '/' !in s
    ensures Split(s) == [s]
  {
    if s != "" {
      assert forall c :: c in s[1..] ==> c in s;
      SplitPlain(s[1..]);
      assert s[0] in s && [s[0]] + s[1..] == s;
    }
  }

  // Splitting distributes over a separator.
  lemma {:induction false} SplitAt(a: string, b: string)
    ensures Split(a + "/" + b) == Split(a) + Split(b)
  {
    var whole := a + "/" + b;
    if a == "" {
      assert whole[1..] == b;
    } else {
      assert whole[0] == a[0] && whole[1..] == a[1..] + "/" + b;
      SplitAt(a[1..], b);
    }
  }

  lemma {:induction false} SplitJoin(cs: Components)
    requires cs != [] && forall c :: c in cs ==> '/' !in c
    ensures Split(Join(cs)) == cs
  {
    SplitPlain(cs[0]);
    if |cs| > 1 {
      SplitJoin(cs[1..]);
      SplitAt(cs[0], Join(cs[1..]));
      assert [cs[0]] + cs[1..] == cs;
    } else {
      assert [cs[0]] == cs;
    }
  }

  lemma {:induction false} JoinAppend(a: Components, b: Components)
    requires a != [] && b != []
    ensures Join(a + b) == Join(a) + "/" + Join(b)
  {
    if |a| == 1 {
      assert (a + b)[1..] == b;
    } else {
      assert (a + b)[1..] == a[1..] + b;
      JoinAppend(a[1..], b);
    }
  }

  lemma {:induction false} JoinEnds(cs: Components)
    requires Proper(cs) && cs != []
    ensures Join(cs) != "" && Join(cs)[0] != '/' && Join(cs)[|Join(cs)| - 1] != '/'
  {
    assert IsName(cs[0]);
    if |cs| > 1 {
      JoinEnds(cs[1..]);
    }
  }

  // The string form of a component list splits back into it.
  lemma SplitPathToPath(cs: Components)
    requires Proper(cs)
    ensures SplitPath(ToPath(cs)) == cs
  {
    if cs != [] {
      JoinEnds(cs);
      SplitJoin(cs);
      assert ToPath(cs)[1..] == Join(cs);
      assert TrimLeft(ToPath(cs)) == TrimLeft(Join(cs)) == Join(cs);
    } else {
      assert ToPath(cs)[1..] == "" && TrimLeft(ToPath(cs)) == TrimLeft("");
    }
  }

  // ---- Clean ----

  lemma {:induction false} CleanFromAppend(rooted: bool, done: Components, a: Components, b: Components)
    ensures CleanFrom(rooted, done, a + b) == CleanFrom(rooted, CleanFrom(rooted, done, a), b)
    decreases |a|
  {
    if a == [] {
      assert a + b == b;
    } else {
      assert (a + b)[1..] == a[1..] + b;
      CleanFromAppend(rooted, CleanStep(rooted, done, a[0]), a[1..], b);
    }
  }

  // Clean components are passed through unchanged.
  lemma {:induction false} CleanFromClean(rooted: bool, done: Components, cs: Components)
    requires Clean(cs)
    ensures CleanFrom(rooted, done, cs) == done + cs
    decreases |cs|
  {
    if cs != [] {
      assert IsName(cs[0]) && cs[0] in cs;
      CleanFromClean(rooted, done + [cs[0]], cs[1..]);
      assert done + [cs[0]] + cs[1..] == done + cs;
    } else {
      assert done + cs == done;
    }
  }

  lemma {:induction false} CleanFromProper(rooted: bool, done: Components, cs: Components)
    requires Proper(done) && forall c :: c in cs ==> '/' !in c
    ensures Proper(CleanFrom(rooted, done, cs))
    ensures rooted && Clean(done) ==> Clean(CleanFrom(rooted, done, cs))
    decreases |cs|
  {
    if cs != [] {
      CleanFromProper(rooted, CleanStep(rooted, done, cs[0]), cs[1..]);
    }
  }

  // Taken from any directory, a relative path means what its cleaned form means.
  lemma {:induction false} CleanFromAny(base: Components, done: Components, cs: Components)
    requires Clean(base) && "" !in done && "." !in done
    ensures CleanFrom(true, base, CleanFrom(false, done, cs)) == CleanFrom(true, CleanFrom(true, base, done), cs)
    decreases |cs|
  {
    if cs != [] {
      var c := cs[0];
      var next := CleanStep(false, done, c);
      CleanFromAny(base, next, cs[1..]);
      CleanFromStep(base, done, c);
    }
  }

  lemma CleanFromStep(base: Components, done: Components, c: string)
    requires Clean(base) && "" !in done && "." !in done
    ensures CleanFrom(true, base, CleanStep(false, done, c)) == CleanStep(true, CleanFrom(true, base, done), c)
  {
    var next := CleanStep(false, done, c);
    if c == "" || c == "." {
    } else if c != ".." || done == [] || done[|done| - 1] == ".." {
      CleanFromAppend(true, base, done, [c]);
      assert [c][1..] == [];
    } else {
      var front, n := done[..|done| - 1], done[|done| - 1];
      assert done == front + [n];
      assert n in done;
      CleanFromAppend(true, base, front, [n]);
      assert [n][1..] == [];
      assert CleanFrom(true, base, done) == CleanFrom(true, base, front) + [n];
    }
  }

  lemma NormalizeProper(p: string)
    ensures Proper(Normalize(p))
    ensures p != "" && p[0] == '/' ==> Clean(Normalize(p))
  {
    CleanFromProper(p != "" && p[0] == '/', [], Split(p));
  }

  lemma RenormalizeIsClean(cs: Components)
    requires Proper(cs)
    ensures Clean(Renormalize(cs))
    ensures Clean(cs) ==> Renormalize(cs) == cs
  {
    CleanFromProper(true, [], cs);
    if Clean(cs) {
      CleanFromClean(true, [], cs);
    }
  }

  lemma ParentOfClean(cs: Components)
    requires Clean(cs) && cs != []
    ensures ParentOf(cs) == cs[..|cs| - 1] && Clean(ParentOf(cs))
    ensures cs == ParentOf(cs) + [NameOf(cs)] && IsName(NameOf(cs))
  {
    RenormalizeIsClean(cs[..|cs| - 1]);
  }

  // Normalizing the string form of a list is normalizing the list.
  lemma NormalizeToPath(cs: Components)
    requires Proper(cs)
    ensures Normalize(ToPath(cs)) == Renormalize(cs)
  {
    var p := ToPath(cs);
    assert p[1..] == Join(cs);
    if cs == [] {
      assert Split(p) == ["", ""];
      assert CleanFrom(true, [], ["", ""]) == CleanFrom(true, [], [""]);
    } else {
      SplitJoin(cs);
      assert Split(p) == [""] + cs;
      assert Split(p)[1..] == cs;
    }
  }

  // normalizePath is idempotent on absolute paths, through the string form.
  lemma NormalizeIdempotent(p: string)
    requires p != "" && p[0] == '/'
    ensures Normalize(ToPath(Normalize(p))) == Normalize(p)
  {
    NormalizeProper(p);
    NormalizeToPath(Normalize(p));
    RenormalizeIsClean(Normalize(p));
  }

  // ---- Symlink targets ----

  predicate IsAbsolute(target: string) {
    target != "" && target[0] == '/'
  }

  // The components resolution goes on with when the link at position i of cs has this target.
  function Redirect(cs: Components, i: nat, target: string): Components
    requires i < |cs|
  {
    CleanFrom(true, if IsAbsolute(target) then [] else cs[..i], Split(target) + cs[i + 1..])
  }

  // The string resolvePathFollow builds at that point.
  function RedirectPath(cs: Components, i: nat, target: string): string
    requires i < |cs|
  {
    var remaining := Join(cs[i + 1..]);
    var resolvedDir := ToPath(cs[..i]);
    if IsAbsolute(target) then
      if remaining != "" then target + "/" + remaining else target
    else
      if remaining != "" then resolvedDir + "/" + target + "/" + remaining else resolvedDir + "/" + target
  }

  lemma SplitWithRest(front: string, rest: Components)
    requires Proper(rest)
    ensures var remaining := Join(rest);
      Split(if remaining != "" then front + "/" + remaining else front) == Split(front) + rest
  {
    if rest != [] {
      JoinEnds(rest);
      SplitJoin(rest);
      SplitAt(front, Join(rest));
    } else {
      assert Split(front) + rest == Split(front);
    }
  }

  // The string built at a symlink means the component list: the resolved prefix
  // (for a relative target), the target, the components not yet walked.
  lemma RedirectPathIsRedirect(cs: Components, i: nat, target: string)
    requires Clean(cs) && i < |cs|
    ensures Normalize(RedirectPath(cs, i, target)) == Redirect(cs, i, target)
  {
    var rest := cs[i + 1..];
    if IsAbsolute(target) {
      SplitWithRest(target, rest);
    } else {
      var dir := ToPath(cs[..i]);
      var front := dir + "/" + target;
      SplitWithRest(front, rest);
      SplitAt(dir, target);
      NormalizeToPath(cs[..i]);
      RenormalizeIsClean(cs[..i]);
      assert Split(front) + rest == Split(dir) + (Split(target) + rest);
      CleanFromAppend(true, [], Split(dir), Split(target) + rest);
      assert CleanFrom(true, [], Split(dir)) == cs[..i];
      var whole := RedirectPath(cs, i, target);
      assert whole[0] == '/' && Split(whole) == Split(front) + rest by {
        if Join(rest) != "" {
          assert whole == front + "/" + Join(rest);
        }
      }
    }
  }

  lemma RedirectIsClean(cs: Components, i: nat, target: string)
    requires Clean(cs) && i < |cs|
    ensures Clean(Redirect(cs, i, target))
  {
    var tail := Split(target) + cs[i + 1..];
    assert forall c :: c in tail ==> c in Split(target) || c in cs;
    CleanFromProper(true, if IsAbsolute(target) then [] else cs[..i], tail);
  }

  // Appending a clean component to the path appends it to the redirected path.
  lemma RedirectSnoc(cs: Components, i: nat, target: string, n: string)
    requires i < |cs| && Clean([n])
    ensures Redirect(cs + [n], i, target) == Redirect(cs, i, target) + [n]
  {
    var done := if IsAbsolute(target) then [] else cs[..i];
    var tail := Split(target) + cs[i + 1..];
    assert (cs + [n])[..i] == cs[..i];
    assert Split(target) + (cs + [n])[i + 1..] == tail + [n];
    CleanFromAppend(true, done, tail, [n]);
    CleanFromClean(true, CleanFrom(true, done, tail), [n]);
  }

  // ---- The textual subtree test of Rename ----

  // strings.HasPrefix(newPath, oldPath + "/") holds exactly when the old component list
  // is a strict prefix of the new one.
  lemma PrefixTestIsSubtree(source: Components, target: Components)
    requires Proper(source) && Proper(target) && source != []
    ensures HasPrefix(ToPath(target), ToPath(source) + "/") <==> StrictPrefix(source, target)
  {
    if HasPrefix(ToPath(target), ToPath(source) + "/") {
      SubtreeOfPrefix(source, target, ToPath(target)[|ToPath(source)| + 1..]);
    }
    if StrictPrefix(source, target) {
      var rest := target[|source|..];
      JoinAppend(source, rest);
      assert source + rest == target;
      assert ToPath(target) == ToPath(source) + "/" + Join(rest);
    }
  }

  lemma SubtreeOfPrefix(source: Components, target: Components, rest: string)
    requires Proper(source) && Proper(target) && source != []
    requires ToPath(target) == ToPath(source) + "/" + rest
    ensures StrictPrefix(source, target)
  {
    assert Join(target) == ToPath(target)[1..] == Join(source) + "/" + rest;
    SplitAt(Join(source), rest);
    SplitJoin(source);
    assert target != [];
    SplitJoin(target);
    assert target == source + Split(rest);
  }
}
