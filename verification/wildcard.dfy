// NT directory wildcards: the memoised matcher and what it accepts.
module Wildcard {
  const DOS_STAR := '<'
  const DOS_QM := '>'
  const DOS_DOT := '"'

  // ---- What one pattern character accepts ----

  // The last '.' at or after i, or the length of the name.
  function LastDot(name: string, i: nat): (k: nat)
    requires i <= |name|
    ensures i <= k <= |name|
    ensures k < |name| ==> name[k] == '.'
    ensures forall m :: k < m < |name| ==> name[m] != '.'
    ensures k == |name| ==> forall m :: i <= m < |name| ==> name[m] != '.'
    decreases |name| - i
  {
    if i == |name| then i
    else
      var k := LastDot(name, i + 1);
      if k == |name| && name[i] == '.' then i else k
  }

  // Section 2.1.4.4 of [MS-FSA]: the pattern character c takes name[i..k].
  predicate Takes(name: string, c: char, i: nat, k: nat)
  {
    && i <= k <= |name|
    && if c == '*' then true
       else if c == '?' then k == i + 1
       else if c == DOS_DOT then if i < |name| then name[i] == '.' && k == i + 1 else k == i
       else if c == DOS_QM then if i < |name| && name[i] != '.' then k == i + 1 else k == i
       else if c == DOS_STAR then k <= LastDot(name, i)
       else i < |name| && name[i] == c && k == i + 1
  }

  // The pattern from position j on cuts the name from position i on into consecutive
  // pieces, one for each pattern character.
  ghost predicate Cuts(name: string, pattern: string, i: nat, j: nat, cuts: seq<nat>)
    requires j <= |pattern|
  {
    && |cuts| == |pattern| - j + 1
    && cuts[0] == i && cuts[|cuts| - 1] == |name|
    && forall m :: 0 <= m < |pattern| - j ==> Takes(name, pattern[j + m], cuts[m], cuts[m + 1])
  }

  // ---- The matcher without its memo ----

  // The end of the run of DOS_QM that starts at j.
  function QmEnd(pattern: string, j: nat): (e: nat)
    requires j <= |pattern|
    ensures j <= e <= |pattern|
    ensures j < |pattern| && pattern[j] == DOS_QM ==> j < e
    decreases |pattern| - j
  {
    if j < |pattern| && pattern[j] == DOS_QM then QmEnd(pattern, j + 1) else j
  }

  predicate Match(name: string, pattern: string, i: nat, j: nat)
    requires i <= |name| && j <= |pattern|
    decreases |pattern| - j, 0
  {
    if j == |pattern| then i == |name|
    else if pattern[j] == '*' then MatchSome(name, pattern, i, |name|, j + 1)
    else if pattern[j] == '?' then i < |name| && Match(name, pattern, i + 1, j + 1)
    else if pattern[j] == DOS_DOT then
      || (i < |name| && name[i] == '.' && Match(name, pattern, i + 1, j + 1))
      || (i == |name| && Match(name, pattern, i, j + 1))
    else if pattern[j] == DOS_QM then
      if i < |name| && name[i] != '.' then Match(name, pattern, i + 1, j + 1)
      else Match(name, pattern, i, QmEnd(pattern, j))
    else if pattern[j] == DOS_STAR then MatchSome(name, pattern, i, LastDot(name, i), j + 1)
    else i < |name| && pattern[j] == name[i] && Match(name, pattern, i + 1, j + 1)
  }

  // Some position from i to `last` lets the rest of the pattern match.
  predicate MatchSome(name: string, pattern: string, i: nat, last: nat, j: nat)
    requires i <= last + 1 && last <= |name| && j <= |pattern|
    decreases |pattern| - j, last + 2 - i
  {
    i <= last && (Match(name, pattern, i, j) || MatchSome(name, pattern, i + 1, last, j))
  }

  // ---- The matcher accepts exactly the names that can be cut up ----

  // The pattern from j on matches the name from k on.
  predicate RestMatches(name: string, pattern: string, k: nat, j: nat) {
    k <= |name| && j <= |pattern| && Match(name, pattern, k, j)
  }

  lemma {:induction false} SomeIsExists(name: string, pattern: string, i: nat, last: nat, j: nat)
    requires i <= last + 1 && last <= |name| && j <= |pattern|
    ensures MatchSome(name, pattern, i, last, j) <==> exists k :: i <= k <= last && RestMatches(name, pattern, k, j)
    decreases last + 1 - i
  {
    if i <= last {
      SomeIsExists(name, pattern, i + 1, last, j);
      assert MatchSome(name, pattern, i, last, j) ==
        (RestMatches(name, pattern, i, j) || MatchSome(name, pattern, i + 1, last, j));
    }
  }

  // Skipping a run of DOS_QM at once is skipping its members one by one.
  lemma QmRun(name: string, pattern: string, i: nat, j: nat)
    requires i <= |name| && j < |pattern| && pattern[j] == DOS_QM && (i == |name| || name[i] == '.')
    ensures Match(name, pattern, i, j) == Match(name, pattern, i, j + 1)
  {
    assert QmEnd(pattern, j) == QmEnd(pattern, j + 1);
    assert Match(name, pattern, i, j) == Match(name, pattern, i, QmEnd(pattern, j));
    if j + 1 < |pattern| && pattern[j + 1] == DOS_QM {
      assert Match(name, pattern, i, j + 1) == Match(name, pattern, i, QmEnd(pattern, j + 1));
    }
  }

  // One step: the first pattern character takes a piece and the rest matches.
  lemma MatchStep(name: string, pattern: string, i: nat, j: nat)
    requires i <= |name| && j < |pattern|
    ensures Match(name, pattern, i, j) <==>
      exists k :: Takes(name, pattern[j], i, k) && RestMatches(name, pattern, k, j + 1)
  {
    var c := pattern[j];
    SomeIsExists(name, pattern, i, |name|, j + 1);
    SomeIsExists(name, pattern, i, LastDot(name, i), j + 1);
    if c == DOS_QM && (i == |name| || name[i] == '.') {
      QmRun(name, pattern, i, j);
      assert Takes(name, c, i, i) && (Match(name, pattern, i, j) <==> RestMatches(name, pattern, i, j + 1));
    } else if c == '*' || c == DOS_STAR {
      var last := if c == '*' then |name| else LastDot(name, i);
      assert forall k: nat :: Takes(name, c, i, k) <==> i <= k <= last;
      if Match(name, pattern, i, j) {
        var k: nat :| i <= k <= last && RestMatches(name, pattern, k, j + 1);
        assert Takes(name, c, i, k);
      }
    } else {
      var k := if c == DOS_DOT && i == |name| then i else i + 1;
      assert forall m :: Takes(name, c, i, m) ==> m == k;
      assert Match(name, pattern, i, j) ==> Takes(name, c, i, k) && RestMatches(name, pattern, k, j + 1);
    }
  }

  lemma {:induction false} MatchGivesCuts(name: string, pattern: string, i: nat, j: nat) returns (cuts: seq<nat>)
    requires i <= |name| && j <= |pattern| && Match(name, pattern, i, j)
    ensures Cuts(name, pattern, i, j, cuts)
    decreases |pattern| - j
  {
    if j == |pattern| {
      cuts := [i];
    } else {
      MatchStep(name, pattern, i, j);
      var k :| Takes(name, pattern[j], i, k) && RestMatches(name, pattern, k, j + 1);
      var rest := MatchGivesCuts(name, pattern, k, j + 1);
      cuts := [i] + rest;
      forall m | 0 <= m < |pattern| - j
        ensures Takes(name, pattern[j + m], cuts[m], cuts[m + 1])
      {
        if m > 0 {
          assert Takes(name, pattern[j + 1 + (m - 1)], rest[m - 1], rest[m - 1 + 1]);
        }
      }
    }
  }

  lemma {:induction false} CutsGiveMatch(name: string, pattern: string, i: nat, j: nat, cuts: seq<nat>)
    requires i <= |name| && j <= |pattern| && Cuts(name, pattern, i, j, cuts)
    ensures Match(name, pattern, i, j)
    decreases |pattern| - j
  {
    if j < |pattern| {
      assert Takes(name, pattern[j + 0], cuts[0], cuts[0 + 1]);
      var rest := cuts[1..];
      forall m | 0 <= m < |pattern| - (j + 1)
        ensures Takes(name, pattern[j + 1 + m], rest[m], rest[m + 1])
      {
        assert Takes(name, pattern[j + (m + 1)], cuts[m + 1], cuts[m + 1 + 1]);
      }
      CutsGiveMatch(name, pattern, cuts[1], j + 1, rest);
      assert RestMatches(name, pattern, cuts[1], j + 1);
      MatchStep(name, pattern, i, j);
    }
  }

  // The matcher accepts a name exactly when the pattern cuts it up.
  lemma MatchIsCuts(name: string, pattern: string)
    ensures Match(name, pattern, 0, 0) <==> exists cuts :: Cuts(name, pattern, 0, 0, cuts)
  {
    if Match(name, pattern, 0, 0) {
      var cuts := MatchGivesCuts(name, pattern, 0, 0);
    }
    forall cuts | Cuts(name, pattern, 0, 0, cuts)
      ensures Match(name, pattern, 0, 0)
    {
      CutsGiveMatch(name, pattern, 0, 0, cuts);
    }
  }

  // ---- The memoised matcher ----

  datatype At = At(nameIdx: nat, patternIdx: nat)

  class Matcher {
    const name: string
    const pattern: string
    var cache: map<At, bool>

    constructor (name: string, pattern: string)
      ensures this.name == name && this.pattern == pattern && cache == map[] && Valid()
    {
      this.name := name;
      this.pattern := pattern;
      cache := map[];
    }

    // Every memo entry holds the answer the matcher would compute.
    ghost predicate Valid()
      reads this
    {
      forall p :: p in cache ==>
        p.nameIdx <= |name| && p.patternIdx <= |pattern| && cache[p] == Match(name, pattern, p.nameIdx, p.patternIdx)
    }

    method Matches(i: nat, j: nat) returns (result: bool)
      requires Valid() && i <= |name| && j <= |pattern|
      modifies this`cache
      ensures Valid() && result == Match(name, pattern, i, j)
      decreases |pattern| - j, 0
    {
      if At(i, j) in cache { return cache[At(i, j)]; }
      if j == |pattern| {
        result := i == |name|;
      } else {
        var c := pattern[j];
        if c == '*' {
          result := MatchesAny(i, |name|, j + 1);
        } else if c == '?' {
          result := false;
          if i < |name| { result := Matches(i + 1, j + 1); }
        } else if c == DOS_DOT {
          result := false;
          if i < |name| && name[i] == '.' { result := Matches(i + 1, j + 1); }
          if !result && i == |name| { result := Matches(i, j + 1); }
        } else if c == DOS_QM {
          if i < |name| && name[i] != '.' {
            result := Matches(i + 1, j + 1);
          } else {
            var next := j;
            while next < |pattern| && pattern[next] == DOS_QM
              invariant j <= next <= |pattern| && QmEnd(pattern, next) == QmEnd(pattern, j)
            {
              next := next + 1;
            }
            result := Matches(i, next);
          }
        } else if c == DOS_STAR {
          var last := FindLastDot(i);
          result := MatchesAny(i, last, j + 1);
        } else {
          result := false;
          if i < |name| && c == name[i] { result := Matches(i + 1, j + 1); }
        }
      }
      cache := cache[At(i, j) := result];
    }

    // (i..=last).any(...)
    method MatchesAny(i: nat, last: nat, j: nat) returns (found: bool)
      requires Valid() && i <= last <= |name| && 0 < j <= |pattern|
      modifies this`cache
      ensures Valid() && found == MatchSome(name, pattern, i, last, j)
      decreases |pattern| - j, 1
    {
      var next := i;
      while next <= last
        invariant i <= next <= last + 1 && Valid()
        invariant MatchSome(name, pattern, i, last, j) == MatchSome(name, pattern, next, last, j)
      {
        found := Matches(next, j);
        if found { return true; }
        next := next + 1;
      }
      return false;
    }

    // rfind of '.' from the end of the name down to i.
    method FindLastDot(i: nat) returns (k: nat)
      requires i <= |name|
      ensures k == LastDot(name, i)
    {
      k := |name|;
      while k > i
        invariant i <= k <= |name| && forall m :: k <= m < |name| ==> name[m] != '.'
      {
        k := k - 1;
        if name[k] == '.' { return; }
      }
      k := |name|;
    }
  }

  // ---- The whole query ----

  // The text after the last path separator, without trailing NULs.
  function TrimNul(s: string): string {
    if s != "" && s[|s| - 1] == '\0' then TrimNul(s[..|s| - 1]) else s
  }

  function AfterSeparator(s: string): string {
    if s == "" then "" else
      if s[|s| - 1] == '\\' || s[|s| - 1] == '/' then ""
      else AfterSeparator(s[..|s| - 1]) + [s[|s| - 1]]
  }

  // `lower` is the Unicode lower-casing the names are compared under.
  predicate Accepts(name: string, pattern: string, lower: string -> string) {
    var p := AfterSeparator(TrimNul(pattern));
    p == "" || p == "*" || p == "*.*" || Match(lower(name), lower(p), 0, 0)
  }

  method DirectoryPatternMatches(name: string, pattern: string, lower: string -> string) returns (r: bool)
    ensures r == Accepts(name, pattern, lower)
  {
    var p := AfterSeparator(TrimNul(pattern));
    if p == "" { return true; }
    if p == "*" || p == "*.*" { return true; }
    var matcher := new Matcher(lower(name), lower(p));
    r := matcher.Matches(0, 0);
  }

  predicate IsSeparator(c: char) { c == '\\' || c == '/' }

  // The pattern is a directory part, a leaf, and trailing NULs.
  predicate Parts(pattern: string, dir: string, leaf: string, zeros: string) {
    && pattern == dir + leaf + zeros && (forall i :: 0 <= i < |zeros| ==> zeros[i] == '\0')
    && (forall i :: 0 <= i < |leaf| ==> !IsSeparator(leaf[i]))
    && (dir != "" ==> IsSeparator(dir[|dir| - 1]))
    && (leaf != "" ==> leaf[|leaf| - 1] != '\0')
  }

  lemma {:induction false} TrimTakesNuls(s: string, zeros: string)
    requires (s != "" ==> s[|s| - 1] != '\0') && forall i :: 0 <= i < |zeros| ==> zeros[i] == '\0'
    ensures TrimNul(s + zeros) == s
    decreases |zeros|
  {
    if zeros == "" {
      assert s + zeros == s;
    } else {
      var front := zeros[..|zeros| - 1];
      assert (s + zeros)[..|s + zeros| - 1] == s + front;
      TrimTakesNuls(s, front);
    }
  }

  lemma {:induction false} SeparatorLast(dir: string, leaf: string)
    requires (dir != "" ==> IsSeparator(dir[|dir| - 1])) && forall i :: 0 <= i < |leaf| ==> !IsSeparator(leaf[i])
    ensures AfterSeparator(dir + leaf) == leaf
    decreases |leaf|
  {
    if leaf == "" {
      assert dir + leaf == dir;
    } else {
      var front := leaf[..|leaf| - 1];
      assert (dir + leaf)[..|dir + leaf| - 1] == dir + front;
      SeparatorLast(dir, front);
      assert leaf == front + [leaf[|leaf| - 1]];
    }
  }

  lemma {:induction false} SplitNuls(s: string) returns (front: string, zeros: string)
    ensures s == front + zeros && (front != "" ==> front[|front| - 1] != '\0')
    ensures forall i :: 0 <= i < |zeros| ==> zeros[i] == '\0'
    decreases |s|
  {
    if s != "" && s[|s| - 1] == '\0' {
      front, zeros := SplitNuls(s[..|s| - 1]);
      zeros := zeros + ['\0'];
    } else {
      front, zeros := s, "";
    }
  }

  lemma {:induction false} SplitLeaf(s: string) returns (dir: string, leaf: string)
    ensures s == dir + leaf && (dir != "" ==> IsSeparator(dir[|dir| - 1]))
    ensures forall i :: 0 <= i < |leaf| ==> !IsSeparator(leaf[i])
    decreases |s|
  {
    if s == "" || IsSeparator(s[|s| - 1]) {
      dir, leaf := s, "";
    } else {
      dir, leaf := SplitLeaf(s[..|s| - 1]);
      leaf := leaf + [s[|s| - 1]];
    }
  }

  // Every pattern has these parts.
  lemma PartsExist(pattern: string) returns (dir: string, leaf: string, zeros: string)
    ensures Parts(pattern, dir, leaf, zeros)
  {
    var front;
    front, zeros := SplitNuls(pattern);
    dir, leaf := SplitLeaf(front);
  }

  // A query accepts a name exactly when its leaf is one of the three that accept everything, or the
  // lower-cased leaf cuts up the lower-cased name; neither the directory part nor NULs behind matter.
  lemma AcceptsExactly(name: string, pattern: string, dir: string, leaf: string, zeros: string, lower: string -> string)
    requires Parts(pattern, dir, leaf, zeros)
    ensures Accepts(name, pattern, lower) <==>
      leaf in ["", "*", "*.*"] || exists cuts :: Cuts(lower(name), lower(leaf), 0, 0, cuts)
  {
    TrimTakesNuls(dir + leaf, zeros);
    SeparatorLast(dir, leaf);
    MatchIsCuts(lower(name), lower(leaf));
  }

  // "*" alone accepts every name, so its shortcut changes nothing; "*.*" alone accepts
  // exactly the names with a dot, so its shortcut lets the names without one in.
  lemma ShortcutsCompared(name: string)
    ensures Match(name, "*", 0, 0)
    ensures Match(name, "*.*", 0, 0) <==> '.' in name
  {
    assert Cuts(name, "*", 0, 0, [0, |name|]);
    CutsGiveMatch(name, "*", 0, 0, [0, |name|]);
    if '.' in name {
      var k :| 0 <= k < |name| && name[k] == '.';
      var cuts := [0, k, k + 1, |name|];
      assert Takes(name, "*.*"[0], cuts[0], cuts[1]) && Takes(name, "*.*"[1], cuts[1], cuts[2])
        && Takes(name, "*.*"[2], cuts[2], cuts[3]);
      CutsGiveMatch(name, "*.*", 0, 0, cuts);
    }
    if Match(name, "*.*", 0, 0) {
      var cuts := MatchGivesCuts(name, "*.*", 0, 0);
      assert Takes(name, "*.*"[0 + 1], cuts[1], cuts[1 + 1]);
      assert name[cuts[1]] == '.';
    }
  }
}
