// The key-value store: prefixes turned into LIKE patterns.
module KvLike {
  import opened Common

  // ---- Escaping ----

  // strings.ReplaceAll for a one-character search string.
  function ReplaceAll(s: string, c: char, replacement: string): string {
    if s == "" then "" else (if s[0] == c then replacement else [s[0]]) + ReplaceAll(s[1..], c, replacement)
  }

  function EscapePattern(s: string): string {
    ReplaceAll(ReplaceAll(ReplaceAll(s, '\\', "\\\\"), '%', "\\%"), '_', "\\_")
  }

  predicate Special(c: char) { c == '\\' || c == '%' || c == '_' }

  function Escaped(c: char): string {
    if Special(c) then ['\\', c] else [c]
  }

  // One pass: a backslash before every special character.
  function OnePass(s: string): string {
    if s == "" then "" else Escaped(s[0]) + OnePass(s[1..])
  }

  lemma {:induction false} ReplaceAllSplit(s: string, t: string, c: char, replacement: string)
    ensures ReplaceAll(s + t, c, replacement) == ReplaceAll(s, c, replacement) + ReplaceAll(t, c, replacement)
  {
    if s == "" {
      assert s + t == t;
    } else {
      assert (s + t)[1..] == s[1..] + t;
      ReplaceAllSplit(s[1..], t, c, replacement);
    }
  }

  lemma ReplaceAllOne(x: char, c: char, replacement: string)
    ensures ReplaceAll([x], c, replacement) == if x == c then replacement else [x]
  {
    assert [x][1..] == "";
  }

  lemma EscapeOne(x: char)
    ensures EscapePattern([x]) == Escaped(x)
  {
    var bs := '\\';
    ReplaceAllOne(x, bs, "\\\\");
    ReplaceAllOne(bs, '%', "\\%");
    ReplaceAllOne(bs, '_', "\\_");
    ReplaceAllOne(x, '%', "\\%");
    ReplaceAllOne(x, '_', "\\_");
    ReplaceAllSplit([bs], [bs], '%', "\\%");
    ReplaceAllSplit([bs], [bs], '_', "\\_");
    ReplaceAllSplit([bs], ['%'], '_', "\\_");
    ReplaceAllOne('%', '_', "\\_");
    assert [bs] + [bs] == "\\\\" && [bs] + ['%'] == "\\%";
  }

  lemma EscapeSplit(s: string, t: string)
    ensures EscapePattern(s + t) == EscapePattern(s) + EscapePattern(t)
  {
    var s1, t1 := ReplaceAll(s, '\\', "\\\\"), ReplaceAll(t, '\\', "\\\\");
    ReplaceAllSplit(s, t, '\\', "\\\\");
    ReplaceAllSplit(s1, t1, '%', "\\%");
    ReplaceAllSplit(ReplaceAll(s1, '%', "\\%"), ReplaceAll(t1, '%', "\\%"), '_', "\\_");
  }

  // The three replacements in turn come to one pass: none of them touches what another put in.
  lemma {:induction false} EscapeIsOnePass(s: string)
    ensures EscapePattern(s) == OnePass(s)
  {
    if s != "" {
      assert s == [s[0]] + s[1..];
      EscapeSplit([s[0]], s[1..]);
      EscapeOne(s[0]);
      EscapeIsOnePass(s[1..]);
    }
  }

  // ---- LIKE ----

  predicate IsUpper(c: char) { 'A' <= c <= 'Z' }

  predicate IsLower(c: char) { 'a' <= c <= 'z' }

  // LIKE ignores case for ASCII letters only.
  function Fold(c: char): char {
    if IsUpper(c) then c + ('a' - 'A') else c
  }

  // pattern LIKE with ESCAPE '\'.
  predicate Like(p: string, s: string)
    decreases |p|, |s|
  {
    if p == "" then s == ""
    else if p[0] == '\\' then
      |p| > 1 && s != "" && Fold(p[1]) == Fold(s[0]) && Like(p[2..], s[1..])
    else if p[0] == '%' then Like(p[1..], s) || (s != "" && Like(p, s[1..]))
    else if p[0] == '_' then s != "" && Like(p[1..], s[1..])
    else s != "" && Fold(p[0]) == Fold(s[0]) && Like(p[1..], s[1..])
  }

  // The key starts with the prefix, up to ASCII case.
  predicate StartsFolded(key: string, prefix: string) {
    |prefix| <= |key| && forall i :: 0 <= i < |prefix| ==> Fold(key[i]) == Fold(prefix[i])
  }

  lemma {:induction false} PercentTakesAll(s: string)
    ensures Like("%", s)
  {
    assert "%"[1..] == "";
    if s != "" { PercentTakesAll(s[1..]); }
  }

  lemma StartsFoldedStep(key: string, prefix: string)
    requires prefix != ""
    ensures StartsFolded(key, prefix)
      <==> key != "" && Fold(key[0]) == Fold(prefix[0]) && StartsFolded(key[1..], prefix[1..])
  {
    if key != "" && Fold(key[0]) == Fold(prefix[0]) && StartsFolded(key[1..], prefix[1..]) {
      forall i | 0 <= i < |prefix| ensures Fold(key[i]) == Fold(prefix[i]) {
        if i > 0 { assert key[1..][i - 1] == key[i] && prefix[1..][i - 1] == prefix[i]; }
      }
    }
    if StartsFolded(key, prefix) {
      assert forall i :: 0 <= i < |prefix| - 1 ==> key[1..][i] == key[i + 1] && prefix[1..][i] == prefix[i + 1];
    }
  }

  lemma {:induction false} LikeOnePass(prefix: string, key: string)
    ensures Like(OnePass(prefix) + "%", key) <==> StartsFolded(key, prefix)
    decreases |prefix|
  {
    if prefix == "" {
      assert OnePass(prefix) + "%" == "%";
      PercentTakesAll(key);
    } else {
      var p, e := OnePass(prefix) + "%", Escaped(prefix[0]);
      assert p == e + (OnePass(prefix[1..]) + "%");
      assert p[|e|..] == OnePass(prefix[1..]) + "%";
      StartsFoldedStep(key, prefix);
      if key != "" { LikeOnePass(prefix[1..], key[1..]); }
    }
  }

  function PatternFor(prefix: string): string { EscapePattern(prefix) + "%" }

  // The pattern made of a prefix accepts exactly the keys that start with it up to ASCII case,
  // whatever special characters the prefix holds.
  lemma PatternMatchesPrefix(prefix: string, key: string)
    ensures Like(PatternFor(prefix), key) <==> StartsFolded(key, prefix)
  {
    EscapeIsOnePass(prefix);
    LikeOnePass(prefix, key);
  }

  predicate Lettered(prefix: string) {
    exists i :: 0 <= i < |prefix| && (IsUpper(prefix[i]) || IsLower(prefix[i]))
  }

  function OtherCase(c: char): char {
    if IsUpper(c) then c + ('a' - 'A') else if IsLower(c) then c - ('a' - 'A') else c
  }

  // A prefix without ASCII letters selects exactly the keys that start with it; one that has a letter
  // also selects a key that does not.
  lemma ExactWithoutLetters(prefix: string)
    ensures (forall key: string :: Like(PatternFor(prefix), key) <==> HasPrefix(key, prefix)) <==> !Lettered(prefix)
  {
    if Lettered(prefix) {
      var i :| 0 <= i < |prefix| && (IsUpper(prefix[i]) || IsLower(prefix[i]));
      var key := prefix[i := OtherCase(prefix[i])];
      PatternMatchesPrefix(prefix, key);
      assert StartsFolded(key, prefix);
      assert key[..|prefix|] == key && key[i] != prefix[i];
      assert Like(PatternFor(prefix), key) && !HasPrefix(key, prefix);
    } else {
      forall key: string ensures Like(PatternFor(prefix), key) <==> HasPrefix(key, prefix) {
        PatternMatchesPrefix(prefix, key);
        StartsWithoutLetters(key, prefix);
      }
    }
  }

  lemma StartsWithoutLetters(key: string, prefix: string)
    requires !Lettered(prefix)
    ensures StartsFolded(key, prefix) <==> HasPrefix(key, prefix)
  {
    if StartsFolded(key, prefix) {
      forall i | 0 <= i < |prefix| ensures key[..|prefix|][i] == prefix[i] {
        assert !IsUpper(prefix[i]) && !IsLower(prefix[i]);
        assert Fold(key[i]) == Fold(prefix[i]);
      }
    }
    if HasPrefix(key, prefix) {
      assert forall i :: 0 <= i < |prefix| ==> key[i] == key[..|prefix|][i];
    }
  }

  // ---- The order of keys ----

  predicate Less(a: string, b: string) {
    b != "" && (a == "" || a[0] < b[0] || (a[0] == b[0] && Less(a[1..], b[1..])))
  }

  lemma {:induction false} LessTotal(a: string, b: string)
    ensures Less(a, b) || Less(b, a) || a == b
  {
    if a != "" && b != "" && a[0] == b[0] {
      LessTotal(a[1..], b[1..]);
      assert a == [a[0]] + a[1..] && b == [b[0]] + b[1..];
    }
  }

  lemma {:induction false} LessTransitive(a: string, b: string, c: string)
    requires Less(a, b) && Less(b, c)
    ensures Less(a, c)
  {
    if a != "" && a[0] == b[0] && b[0] == c[0] {
      LessTransitive(a[1..], b[1..], c[1..]);
    }
  }

  predicate IsLeast(k: string, keys: set<string>) {
    k in keys && forall j :: j in keys && j != k ==> Less(k, j)
  }

  lemma {:induction false} LeastExists(keys: set<string>)
    requires keys != {}
    ensures exists k :: IsLeast(k, keys)
    decreases |keys|
  {
    var x :| x in keys;
    var rest := keys - {x};
    if rest == {} {
      assert keys == {x};
      assert IsLeast(x, keys);
    } else {
      LeastExists(rest);
      var k :| IsLeast(k, rest);
      LessTotal(x, k);
      if Less(x, k) {
        forall j | j in keys && j != x ensures Less(x, j) {
          if j != k { LessTransitive(x, k, j); }
        }
        assert IsLeast(x, keys);
      } else {
        assert IsLeast(k, keys);
      }
    }
  }

  predicate Ascending(s: seq<string>) {
    forall i, j :: 0 <= i < j < |s| ==> Less(s[i], s[j])
  }

  // ---- The store ----

  datatype Row = Row(value: string, createdAt: int, updatedAt: int)
  datatype KVEntry = KVEntry(key: string, createdAt: int, updatedAt: int)

  class KVStore {
    var rows: map<string, Row>

    constructor ()
      ensures rows == map[]
    {
      rows := map[];
    }

    method Set(key: string, value: string, now: int)
      modifies this
      ensures rows == old(rows)[key := Row(value, if key in old(rows) then old(rows)[key].createdAt else now, now)]
    {
      var created := if key in rows then rows[key].createdAt else now;
      rows := rows[key := Row(value, created, now)];
    }

    method Delete(key: string)
      modifies this
      ensures rows == old(rows) - {key}
    {
      rows := rows - {key};
    }

    // The rows a query selects: all of them for the empty prefix, else by the pattern.
    method Select(prefix: string) returns (keys: set<string>)
      ensures forall k :: k in keys <==> k in rows && StartsFolded(k, prefix)
    {
      if prefix == "" {
        keys := rows.Keys;
      } else {
        var pattern := EscapePattern(prefix) + "%";
        keys := set k | k in rows && Like(pattern, k);
        forall k | k in rows ensures k in keys <==> StartsFolded(k, prefix) {
          PatternMatchesPrefix(prefix, k);
        }
      }
    }

    // Every key that starts with the prefix up to ASCII case, once each and in order; no other.
    method Keys(prefix: string) returns (keys: seq<string>)
      ensures Ascending(keys)
      ensures forall k :: k in keys <==> k in rows && StartsFolded(k, prefix)
    {
      var rest := Select(prefix);
      ghost var selected := rest;
      keys := [];
      while rest != {}
        invariant rest <= selected && Ascending(keys)
        invariant forall k :: k in selected <==> k in keys || k in rest
        invariant forall i, k :: 0 <= i < |keys| && k in rest ==> Less(keys[i], k)
      {
        LeastExists(rest);
        var k :| IsLeast(k, rest);
        keys := keys + [k];
        rest := rest - {k};
      }
    }

    method List(prefix: string) returns (entries: seq<KVEntry>)
      ensures forall i, j :: 0 <= i < j < |entries| ==> Less(entries[i].key, entries[j].key)
      ensures forall e :: e in entries <==>
        e.key in rows && StartsFolded(e.key, prefix) && e == KVEntry(e.key, rows[e.key].createdAt, rows[e.key].updatedAt)
    {
      var keys := Keys(prefix);
      entries := [];
      var i := 0;
      while i < |keys|
        invariant 0 <= i == |entries| <= |keys|
        invariant forall j :: 0 <= j < i ==> keys[j] in rows && entries[j] == EntryOf(keys[j])
      {
        assert keys[i] in keys;
        entries := entries + [EntryOf(keys[i])];
        i := i + 1;
      }
      forall e ensures e in entries <==> e.key in rows && StartsFolded(e.key, prefix) && e == EntryOf(e.key) {
        if e in entries {
          var j :| 0 <= j < |entries| && entries[j] == e;
          assert keys[j] in keys;
        }
        if e.key in rows && StartsFolded(e.key, prefix) && e == EntryOf(e.key) {
          var j :| 0 <= j < |keys| && keys[j] == e.key;
          assert entries[j] == e;
        }
      }
    }

    function EntryOf(key: string): KVEntry
      requires key in rows
      reads this
    {
      KVEntry(key, rows[key].createdAt, rows[key].updatedAt)
    }

    // Exactly those keys go; the others keep their rows.
    method Clear(prefix: string)
      modifies this
      ensures forall k :: k in rows <==> k in old(rows) && !StartsFolded(k, prefix)
      ensures forall k :: k in rows ==> rows[k] == old(rows)[k]
    {
      var gone := Select(prefix);
      rows := rows - gone;
    }
  }
}
