// Symlink reparse buffers: built from a target and parsed back.
module Reparse {
  import opened Common

  type Unit = u: int | 0 <= u < 0x10000

  const IO_REPARSE_TAG_SYMLINK := 0xA000000C
  const SYMLINK_FLAG_RELATIVE := 1
  const U16_MAX := 0xFFFF

  // ---- UTF-16 ----

  function EncodeChar(c: char): seq<Unit> {
    var n := c as int;
    if n < 0x10000 then [n] else [0xD800 + (n - 0x10000) / 0x400, 0xDC00 + (n - 0x10000) % 0x400]
  }

  function Encode(s: string): seq<Unit> {
    if s == "" then [] else EncodeChar(s[0]) + Encode(s[1..])
  }

  function PairValue(high: Unit, low: Unit): int {
    0x10000 + (high - 0xD800) * 0x400 + (low - 0xDC00)
  }

  predicate IsHigh(u: Unit) { 0xD800 <= u < 0xDC00 }

  predicate IsLow(u: Unit) { 0xDC00 <= u < 0xE000 }

  // String::from_utf16: fails on a surrogate without its partner.
  function Decode(us: seq<Unit>): Option<string> {
    if us == [] then Some("")
    else if !IsHigh(us[0]) && !IsLow(us[0]) then
      var rest := Decode(us[1..]);
      if rest.None? then None else Some([us[0] as char] + rest.value)
    else if IsHigh(us[0]) && |us| > 1 && IsLow(us[1]) then
      var rest := Decode(us[2..]);
      if rest.None? then None else Some([PairValue(us[0], us[1]) as char] + rest.value)
    else None
  }

  // One character in front of decodable units.
  lemma DecodeChar(c: char, rest: seq<Unit>)
    requires Decode(rest).Some?
    ensures Decode(EncodeChar(c) + rest) == Some([c] + Decode(rest).value)
  {
    var us := EncodeChar(c) + rest;
    var n := c as int;
    if n < 0x10000 {
      assert us[1..] == rest;
    } else {
      var m := n - 0x10000;
      assert m == m / 0x400 * 0x400 + m % 0x400 && m / 0x400 < 0x400;
      assert IsHigh(us[0]) && IsLow(us[1]) && us[2..] == rest;
      assert PairValue(us[0], us[1]) == n;
    }
  }

  lemma {:induction false} DecodeEncode(s: string)
    ensures Decode(Encode(s)) == Some(s)
  {
    if s != "" {
      DecodeEncode(s[1..]);
      DecodeChar(s[0], Encode(s[1..]));
      assert [s[0]] + s[1..] == s;
    }
  }

  lemma PairBack(high: Unit, low: Unit)
    requires IsHigh(high) && IsLow(low)
    ensures EncodeChar(PairValue(high, low) as char) == [high, low]
  {
    var m := (high - 0xD800) * 0x400 + (low - 0xDC00);
    assert m / 0x400 == high - 0xD800 && m % 0x400 == low - 0xDC00;
  }

  // The first character of decodable units.
  lemma DecodeHead(us: seq<Unit>, n: nat)
    requires us != [] && Decode(us).Some? && n == if IsHigh(us[0]) then 2 else 1
    ensures n <= |us| && Decode(us[n..]).Some?
    ensures var s := Decode(us).value; s != "" && EncodeChar(s[0]) == us[..n] && s[1..] == Decode(us[n..]).value
  {
    if IsHigh(us[0]) {
      PairBack(us[0], us[1]);
      assert us[..2] == [us[0], us[1]];
    } else {
      assert us[..1] == [us[0]];
    }
  }

  // Only well-formed unit sequences decode, and each to the one string that encodes to it.
  lemma {:induction false} EncodeDecode(us: seq<Unit>)
    requires Decode(us).Some?
    ensures Encode(Decode(us).value) == us
  {
    if us != [] {
      var n := if IsHigh(us[0]) then 2 else 1;
      DecodeHead(us, n);
      EncodeDecode(us[n..]);
      assert us == us[..n] + us[n..];
    }
  }

  // ---- Little-endian bytes ----

  function Le16(n: int): seq<Byte>
    requires 0 <= n <= U16_MAX
  {
    [n % 256, n / 256]
  }

  function Le32(n: int): seq<Byte>
    requires 0 <= n < 0x1_0000_0000
  {
    Le16(n % 0x10000) + Le16(n / 0x10000)
  }

  function U16At(b: seq<Byte>, i: nat): Unit
    requires i + 2 <= |b|
  {
    var low: int, high: int := b[i], b[i + 1];
    low + 256 * high
  }

  function U32At(b: seq<Byte>, i: nat): int
    requires i + 4 <= |b|
  {
    U16At(b, i) + 0x10000 * U16At(b, i + 2)
  }

  function ToBytes(us: seq<Unit>): (b: seq<Byte>)
    ensures |b| == 2 * |us|
  {
    if us == [] then [] else Le16(us[0]) + ToBytes(us[1..])
  }

  function FromBytes(b: seq<Byte>): (us: seq<Unit>)
    requires |b| % 2 == 0
    ensures 2 * |us| == |b|
  {
    if b == [] then [] else [U16At(b, 0)] + FromBytes(b[2..])
  }

  lemma {:induction false} FromToBytes(us: seq<Unit>)
    ensures FromBytes(ToBytes(us)) == us
  {
    if us != [] {
      var b := ToBytes(us);
      assert b[2..] == ToBytes(us[1..]);
      assert b[0] == us[0] % 256 && b[1] == us[0] / 256;
      FromToBytes(us[1..]);
    }
  }

  // ---- Names ----

  function Backslashed(s: string): (r: string)
    ensures |r| == |s| && '/' !in r
    ensures forall i :: 0 <= i < |s| ==> r[i] == s[i] || (s[i] == '/' && r[i] == '\\')
  {
    seq(|s|, i requires 0 <= i < |s| => if s[i] == '/' then '\\' else s[i])
  }

  const NT_PREFIX := "\\??\\"
  const UNC_PREFIX := "\\??\\UNC\\"

  // is_relative_symlink_target; the drive test looks at the second UTF-8 byte, which is
  // ':' only behind a one-byte character.
  predicate IsRelative(target: string) {
    && !HasPrefix(target, NT_PREFIX) && !HasPrefix(target, "\\\\")
    && !(|target| >= 2 && target[0] as int < 0x80 && target[1] == ':')
    && !HasPrefix(target, "\\") && !HasPrefix(target, "/")
  }

  function ToSubstitute(printName: string): string {
    if HasPrefix(printName, NT_PREFIX) then printName
    else if HasPrefix(printName, "\\\\") then UNC_PREFIX + printName[2..]
    else NT_PREFIX + printName
  }

  function StripNt(s: string): string {
    if HasPrefix(s, UNC_PREFIX) then "\\\\" + s[|UNC_PREFIX|..]
    else if HasPrefix(s, NT_PREFIX) then s[|NT_PREFIX|..]
    else s
  }

  // ---- The buffer ----

  function DataLen(sub: seq<Unit>, printName: seq<Unit>): nat {
    12 + 2 * |sub| + 2 * |printName|
  }

  // Section 2.1.2.4 of [MS-FSCC].
  function Header(subLen: nat, printLen: nat, flags: int): (b: seq<Byte>)
    requires 12 + subLen + printLen <= U16_MAX && 0 <= flags <= 1
    ensures |b| == 20
  {
    Le32(IO_REPARSE_TAG_SYMLINK) + Le16(12 + subLen + printLen) + Le16(0)
      + Le16(0) + Le16(subLen) + Le16(subLen) + Le16(printLen) + Le32(flags)
  }

  function Layout(sub: seq<Unit>, printName: seq<Unit>, flags: int): seq<Byte>
    requires DataLen(sub, printName) <= U16_MAX && 0 <= flags <= 1
  {
    Header(2 * |sub|, 2 * |printName|, flags) + ToBytes(sub) + ToBytes(printName)
  }

  function SubstituteFor(printName: string): string {
    if IsRelative(printName) then printName else ToSubstitute(printName)
  }

  function FlagsFor(printName: string): int {
    if IsRelative(printName) then SYMLINK_FLAG_RELATIVE else 0
  }

  function Build(target: string): Option<seq<Byte>> {
    var printName := Backslashed(target);
    var sub16, print16 := Encode(SubstituteFor(printName)), Encode(printName);
    if DataLen(sub16, print16) > U16_MAX then None
    else Some(Layout(sub16, print16, FlagsFor(printName)))
  }

  // read_utf16: a name that lies inside the data.
  function ReadName(buffer: seq<Byte>, dataEnd: nat, off: nat, len: nat): Option<string>
    requires dataEnd <= |buffer|
  {
    if len == 0 then Some("")
    else if len % 2 != 0 || 20 + off + len > dataEnd then None
    else Decode(FromBytes(buffer[20 + off..20 + off + len]))
  }

  // The fixed part of the buffer, once the tag and the length are found valid.
  datatype Fields = Fields(dataEnd: nat, subOff: nat, subLen: nat, printOff: nat, printLen: nat, flags: int)

  function ReadFields(b: seq<Byte>): (f: Option<Fields>)
    ensures f.Some? ==> 20 <= f.value.dataEnd <= |b|
  {
    if |b| < 20 || U32At(b, 0) != IO_REPARSE_TAG_SYMLINK then None
    else
      var dataEnd := 8 + U16At(b, 4);
      if |b| < dataEnd || dataEnd < 20 then None
      else Some(Fields(dataEnd, U16At(b, 8), U16At(b, 10), U16At(b, 12), U16At(b, 14), U32At(b, 16)))
  }

  function ChooseTarget(sub: string, printName: string, flags: int): string {
    var target := if printName != "" then printName else sub;
    if flags % 2 == 0 then StripNt(target) else target
  }

  function Assemble(b: seq<Byte>, f: Fields): Option<string>
    requires f.dataEnd <= |b|
  {
    var sub := ReadName(b, f.dataEnd, f.subOff, f.subLen);
    var printName := ReadName(b, f.dataEnd, f.printOff, f.printLen);
    if sub.None? || printName.None? then None
    else Some(ChooseTarget(sub.value, printName.value, f.flags))
  }

  function Parse(buffer: seq<Byte>): Option<string> {
    var f := ReadFields(buffer);
    if f.None? then None else Assemble(buffer, f.value)
  }

  // ---- Round trips ----

  lemma HeaderFields(subLen: nat, printLen: nat, flags: int, rest: seq<Byte>)
    requires 12 + subLen + printLen <= U16_MAX && 0 <= flags <= 1 && |rest| == subLen + printLen
    ensures ReadFields(Header(subLen, printLen, flags) + rest) ==
      Some(Fields(20 + subLen + printLen, 0, subLen, subLen, printLen, flags))
  {
    var b := Header(subLen, printLen, flags) + rest;
    HeaderSlices(subLen, printLen, flags, rest);
    LeFields(b, 0, IO_REPARSE_TAG_SYMLINK);
    LeFields(b, 16, flags);
    LeField(b, 4, 12 + subLen + printLen);
    LeField(b, 8, 0);
    LeField(b, 10, subLen);
    LeField(b, 12, subLen);
    LeField(b, 14, printLen);
  }

  lemma HeaderSlices(subLen: nat, printLen: nat, flags: int, rest: seq<Byte>)
    requires 12 + subLen + printLen <= U16_MAX && 0 <= flags <= 1
    ensures var b := Header(subLen, printLen, flags) + rest;
      && b[0..4] == Le32(IO_REPARSE_TAG_SYMLINK) && b[4..6] == Le16(12 + subLen + printLen)
      && b[8..10] == Le16(0) && b[10..12] == Le16(subLen) && b[12..14] == Le16(subLen)
      && b[14..16] == Le16(printLen) && b[16..20] == Le32(flags)
  {
  }

  lemma LeField(b: seq<Byte>, i: nat, n: int)
    requires 0 <= n <= U16_MAX && i + 2 <= |b| && b[i..i + 2] == Le16(n)
    ensures U16At(b, i) == n
  {
    assert b[i] == b[i..i + 2][0] && b[i + 1] == b[i..i + 2][1];
  }

  lemma LeFields(b: seq<Byte>, i: nat, n: int)
    requires 0 <= n < 0x1_0000_0000 && i + 4 <= |b| && b[i..i + 4] == Le32(n)
    ensures U32At(b, i) == n
  {
    var w := b[i..i + 4];
    assert b[i..i + 2] == w[..2] == Le16(n % 0x10000);
    assert b[i + 2..i + 4] == w[2..] == Le16(n / 0x10000);
    LeField(b, i, n % 0x10000);
    LeField(b, i + 2, n / 0x10000);
  }

  // Whatever names and flag are laid out, parsing finds them.
  lemma ParseLayout(sub: string, printName: string, flags: int)
    requires DataLen(Encode(sub), Encode(printName)) <= U16_MAX && 0 <= flags <= 1
    ensures Parse(Layout(Encode(sub), Encode(printName), flags)) == Some(ChooseTarget(sub, printName, flags))
  {
    var s, p := ToBytes(Encode(sub)), ToBytes(Encode(printName));
    var header := Header(|s|, |p|, flags);
    var b := header + (s + p);
    assert Layout(Encode(sub), Encode(printName), flags) == b by { Regroup(header, s, p); }
    HeaderFields(|s|, |p|, flags, s + p);
    NamesRead(header, s, p, sub, printName);
    AssembleNames(b, |s|, |p|, flags, sub, printName);
  }

  lemma Regroup(header: seq<Byte>, s: seq<Byte>, p: seq<Byte>)
    ensures header + s + p == header + (s + p)
    ensures var b := header + (s + p); var n := |header|;
      b[n..n + |s|] == s && b[n + |s|..n + |s| + |p|] == p
  {
  }

  lemma NamesRead(header: seq<Byte>, s: seq<Byte>, p: seq<Byte>, sub: string, printName: string)
    requires |header| == 20 && s == ToBytes(Encode(sub)) && p == ToBytes(Encode(printName))
    ensures var b := header + (s + p);
      ReadName(b, |b|, 0, |s|) == Some(sub) && ReadName(b, |b|, |s|, |p|) == Some(printName)
  {
    var b := header + (s + p);
    Regroup(header, s, p);
    ReadBack(b, 0, s, sub);
    ReadBack(b, |s|, p, printName);
  }

  lemma AssembleNames(b: seq<Byte>, s: nat, p: nat, flags: int, sub: string, printName: string)
    requires |b| == 20 + s + p
    requires ReadName(b, |b|, 0, s) == Some(sub) && ReadName(b, |b|, s, p) == Some(printName)
    ensures Assemble(b, Fields(20 + s + p, 0, s, s, p, flags)) == Some(ChooseTarget(sub, printName, flags))
  {
  }

  lemma ReadBack(b: seq<Byte>, off: nat, x: seq<Byte>, name: string)
    requires x == ToBytes(Encode(name)) && 20 + off + |x| <= |b| && b[20 + off..20 + off + |x|] == x
    ensures ReadName(b, |b|, off, |x|) == Some(name)
  {
    PlacedRead(b, |b|, off, |x|, name);
  }

  lemma EmptyEncode(s: string)
    ensures Encode(s) == [] <==> s == ""
  {
  }

  // Both prefixes start with the NT prefix, and stripping either shortens the name.
  lemma StripShortens(s: string)
    ensures StripNt(s) == s <==> !HasPrefix(s, NT_PREFIX)
  {
    if HasPrefix(s, UNC_PREFIX) {
      assert s[..4] == s[..8][..4] == NT_PREFIX;
      assert |StripNt(s)| == |s| - 6;
    }
  }

  // What the parser chooses from the names and flag the builder lays out.
  lemma ChooseBuilt(printName: string)
    ensures ChooseTarget(SubstituteFor(printName), printName, FlagsFor(printName)) == printName
      <==> !HasPrefix(printName, NT_PREFIX)
  {
    StripShortens(printName);
    if printName == "" {
      assert IsRelative(printName);
    }
  }

  // A buffer that was built parses back to the target with / turned into a backslash exactly when
  // that form does not start with the NT prefix.
  lemma BuildParse(target: string)
    requires Build(target).Some?
    ensures Parse(Build(target).value) == Some(Backslashed(target)) <==> !HasPrefix(Backslashed(target), NT_PREFIX)
  {
    var printName := Backslashed(target);
    ParseLayout(SubstituteFor(printName), printName, FlagsFor(printName));
    ChooseBuilt(printName);
  }

  lemma NotUnc(s: string)
    requires |s| >= 6 && (s[4] != 'U' || s[5] != 'N')
    ensures !HasPrefix(s, UNC_PREFIX)
  {
    assert |s| >= 8 ==> s[..8][4] == s[4] && s[..8][5] == s[5];
    assert UNC_PREFIX[4] == 'U' && UNC_PREFIX[5] == 'N';
  }

  lemma StripSubstitute(printName: string)
    requires !IsRelative(printName) && !HasPrefix(printName, NT_PREFIX)
    ensures StripNt(ToSubstitute(printName)) == printName
  {
    var sub := ToSubstitute(printName);
    if HasPrefix(printName, "\\\\") {
      assert sub[..8] == UNC_PREFIX && sub[8..] == printName[2..];
      assert printName == printName[..2] + printName[2..];
    } else {
      assert sub[..4] == NT_PREFIX && sub[4..] == printName;
      assert printName != "";
      if |printName| >= 2 {
        assert sub[4] == printName[0] && sub[5] == printName[1];
        NotUnc(sub);
      }
    }
  }

  // For an absolute target, the substitute name alone decodes to the same target.
  lemma SubstituteAlone(printName: string)
    requires !IsRelative(printName) && !HasPrefix(printName, NT_PREFIX) && DataLen(Encode(ToSubstitute(printName)), []) <= U16_MAX
    ensures Parse(Layout(Encode(ToSubstitute(printName)), Encode(""), 0)) == Some(printName)
  {
    var sub := ToSubstitute(printName);
    StripSubstitute(printName);
    ParseLayout(sub, "", 0);
    assert ChooseTarget(sub, "", 0) == StripNt(sub);
  }

  // ---- Names anywhere in the data ----

  lemma {:induction false} ToFromBytes(b: seq<Byte>)
    requires |b| % 2 == 0
    ensures ToBytes(FromBytes(b)) == b
  {
    if b != [] {
      ToFromBytes(b[2..]);
      var low: int, high: int := b[0], b[1];
      assert (low + 256 * high) % 256 == low && (low + 256 * high) / 256 == high;
      assert b == [b[0], b[1]] + b[2..];
      assert FromBytes(b)[1..] == FromBytes(b[2..]);
    }
  }

  // The bytes at the offset, and none outside the data, are the name.
  predicate Placed(b: seq<Byte>, dataEnd: nat, off: nat, len: nat, name: string)
    requires dataEnd <= |b|
  {
    && len == 2 * |Encode(name)|
    && (len == 0 || (20 + off + len <= dataEnd && b[20 + off..20 + off + len] == ToBytes(Encode(name))))
  }

  lemma {:induction false} DecodesTo(x: seq<Byte>, name: string)
    requires x == ToBytes(Encode(name))
    ensures |x| % 2 == 0 && Decode(FromBytes(x)) == Some(name)
  {
    FromToBytes(Encode(name));
    DecodeEncode(name);
  }

  lemma PlacedRead(b: seq<Byte>, dataEnd: nat, off: nat, len: nat, name: string)
    requires dataEnd <= |b| && Placed(b, dataEnd, off, len, name)
    ensures ReadName(b, dataEnd, off, len) == Some(name)
  {
    EmptyEncode(name);
    if len > 0 {
      DecodesTo(b[20 + off..20 + off + len], name);
    }
  }

  lemma ReadIsPlaced(b: seq<Byte>, dataEnd: nat, off: nat, len: nat, name: string)
    requires dataEnd <= |b| && ReadName(b, dataEnd, off, len) == Some(name)
    ensures Placed(b, dataEnd, off, len, name)
  {
    if len > 0 {
      var x := b[20 + off..20 + off + len];
      ToFromBytes(x);
      EncodeDecode(FromBytes(x));
    }
  }

  lemma ReadPlaced(b: seq<Byte>, dataEnd: nat, off: nat, len: nat, name: string)
    requires dataEnd <= |b|
    ensures ReadName(b, dataEnd, off, len) == Some(name) <==> Placed(b, dataEnd, off, len, name)
  {
    if ReadName(b, dataEnd, off, len) == Some(name) {
      ReadIsPlaced(b, dataEnd, off, len, name);
    } else if Placed(b, dataEnd, off, len, name) {
      PlacedRead(b, dataEnd, off, len, name);
    }
  }

  // The length field leaves room for the fixed part and lies inside the buffer, and the tag is right.
  predicate Headed(b: seq<Byte>) {
    |b| >= 20 && U32At(b, 0) == IO_REPARSE_TAG_SYMLINK && 20 <= 8 + U16At(b, 4) <= |b|
  }

  // These two names are at the places the fields give, wherever that is in the data.
  predicate HasNames(b: seq<Byte>, sub: string, printName: string)
    requires Headed(b)
  {
    var end := 8 + U16At(b, 4);
    Placed(b, end, U16At(b, 8), U16At(b, 10), sub) && Placed(b, end, U16At(b, 12), U16At(b, 14), printName)
  }

  // The target as it relates to the names: the print name, or the substitute name if that is empty;
  // with the flag off and an NT prefix on it, what the prefix was put before.
  predicate Chosen(sub: string, printName: string, flags: int, target: string) {
    var name := if printName != "" then printName else sub;
    if flags % 2 == 0 && HasPrefix(name, UNC_PREFIX) then HasPrefix(target, "\\\\") && name == UNC_PREFIX + target[2..]
    else if flags % 2 == 0 && HasPrefix(name, NT_PREFIX) then name == NT_PREFIX + target
    else target == name
  }

  lemma ChosenIs(sub: string, printName: string, flags: int, target: string)
    ensures Chosen(sub, printName, flags, target) <==> target == ChooseTarget(sub, printName, flags)
  {
    var name := if printName != "" then printName else sub;
    if flags % 2 == 0 {
      if HasPrefix(name, UNC_PREFIX) {
        assert name == UNC_PREFIX + name[8..];
        if Chosen(sub, printName, flags, target) {
          assert target == "\\\\" + target[2..];
          assert name[8..] == target[2..];
        }
      } else if HasPrefix(name, NT_PREFIX) {
        assert name == NT_PREFIX + name[4..];
      }
    }
  }

  // Parsing succeeds exactly on buffers with two well-formed names inside the data, and then comes to
  // the target they stand for.
  lemma ParseExactly(b: seq<Byte>, target: string)
    ensures Parse(b) == Some(target) <==>
      Headed(b) && exists sub, printName :: HasNames(b, sub, printName) && Chosen(sub, printName, U32At(b, 16), target)
  {
    if Parse(b) == Some(target) {
      ParsedNames(b, target);
    } else if Headed(b) {
      forall sub, printName | HasNames(b, sub, printName)
        ensures !Chosen(sub, printName, U32At(b, 16), target)
      {
        NamesParsed(b, sub, printName);
        ChosenIs(sub, printName, U32At(b, 16), target);
      }
    }
  }

  lemma NamesParsed(b: seq<Byte>, sub: string, printName: string)
    requires Headed(b) && HasNames(b, sub, printName)
    ensures Parse(b) == Some(ChooseTarget(sub, printName, U32At(b, 16)))
  {
    NamesPlaced(b, sub, printName);
    var f := Fields(8 + U16At(b, 4), U16At(b, 8), U16At(b, 10), U16At(b, 12), U16At(b, 14), U32At(b, 16));
    assert ReadFields(b) == Some(f);
    assert Parse(b) == Assemble(b, f);
  }

  lemma ParsedNames(b: seq<Byte>, target: string)
    requires Parse(b) == Some(target)
    ensures Headed(b) && exists sub, printName :: HasNames(b, sub, printName) && Chosen(sub, printName, U32At(b, 16), target)
  {
    var f := ReadFields(b).value;
    var sub, printName := ReadName(b, f.dataEnd, f.subOff, f.subLen).value, ReadName(b, f.dataEnd, f.printOff, f.printLen).value;
    NamesPlaced(b, sub, printName);
    ChosenIs(sub, printName, U32At(b, 16), target);
    assert HasNames(b, sub, printName);
  }

  lemma NamesPlaced(b: seq<Byte>, sub: string, printName: string)
    requires Headed(b)
    ensures HasNames(b, sub, printName) <==>
      && ReadName(b, 8 + U16At(b, 4), U16At(b, 8), U16At(b, 10)) == Some(sub)
      && ReadName(b, 8 + U16At(b, 4), U16At(b, 12), U16At(b, 14)) == Some(printName)
  {
    ReadPlaced(b, 8 + U16At(b, 4), U16At(b, 8), U16At(b, 10), sub);
    ReadPlaced(b, 8 + U16At(b, 4), U16At(b, 12), U16At(b, 14), printName);
  }

  // ---- The bytes of a built buffer ----

  // Neither a separator nor a drive in front.
  lemma RelativeExactly(target: string)
    ensures IsRelative(target) <==>
      !(|target| >= 1 && target[0] in {'\\', '/'}) && !(|target| >= 2 && target[0] as int < 0x80 && target[1] == ':')
  {
    if |target| >= 1 {
      assert target[..1] == [target[0]];
      assert |target| >= 2 ==> target[..2][0] == target[0];
      assert |target| >= 4 ==> target[..4][0] == target[0];
      assert NT_PREFIX[0] == '\\';
    }
  }

  // The code units that the substitute name has more than the print name.
  function PrefixUnits(printName: string): nat {
    if IsRelative(printName) || HasPrefix(printName, NT_PREFIX) then 0
    else if HasPrefix(printName, "\\\\") then 6 else 4
  }

  lemma {:induction false} EncodeAppend(a: string, b: string)
    ensures Encode(a + b) == Encode(a) + Encode(b)
  {
    if a == "" {
      assert a + b == b;
    } else {
      assert (a + b)[1..] == a[1..] + b;
      EncodeAppend(a[1..], b);
    }
  }

  lemma {:induction false} EncodeAscii(a: string)
    requires forall i :: 0 <= i < |a| ==> a[i] as int < 0x80
    ensures |Encode(a)| == |a|
  {
    if a != "" {
      EncodeAscii(a[1..]);
    }
  }

  // Room for both names is all that a target needs.
  lemma BuildFits(target: string)
    ensures var printName := Backslashed(target);
      Build(target).Some? <==> 12 + 2 * (2 * |Encode(printName)| + PrefixUnits(printName)) <= U16_MAX
  {
    var p := Backslashed(target);
    EncodeAscii(NT_PREFIX);
    EncodeAscii(UNC_PREFIX);
    EncodeAscii("\\\\");
    EncodeAppend(NT_PREFIX, p);
    if HasPrefix(p, "\\\\") {
      assert p == "\\\\" + p[2..];
      EncodeAppend("\\\\", p[2..]);
      EncodeAppend(UNC_PREFIX, p[2..]);
    }
  }

  // The buffer as its length fields, its flags and its two names.
  ghost predicate BuiltAs(b: seq<Byte>, sub: string, printName: string, flags: int) {
    && Headed(b) && |b| == 8 + U16At(b, 4) == 20 + U16At(b, 10) + U16At(b, 14) && U16At(b, 6) == 0
    && U16At(b, 8) == 0 && U16At(b, 12) == U16At(b, 10) && U32At(b, 16) == flags && HasNames(b, sub, printName)
  }

  lemma LayoutIs(sub: string, printName: string, flags: int)
    requires DataLen(Encode(sub), Encode(printName)) <= U16_MAX && 0 <= flags <= 1
    ensures BuiltAs(Layout(Encode(sub), Encode(printName), flags), sub, printName, flags)
  {
    var s, p := ToBytes(Encode(sub)), ToBytes(Encode(printName));
    var header := Header(|s|, |p|, flags);
    var b := header + (s + p);
    assert Layout(Encode(sub), Encode(printName), flags) == b by { Regroup(header, s, p); }
    HeaderFields(|s|, |p|, flags, s + p);
    NamesRead(header, s, p, sub, printName);
    HeaderReserved(|s|, |p|, flags, s + p);
    ReadPlaced(b, |b|, 0, |s|, sub);
    ReadPlaced(b, |b|, |s|, |p|, printName);
  }

  lemma HeaderReserved(subLen: nat, printLen: nat, flags: int, rest: seq<Byte>)
    requires 12 + subLen + printLen <= U16_MAX && 0 <= flags <= 1 && |rest| == subLen + printLen
    ensures var b := Header(subLen, printLen, flags) + rest; U16At(b, 6) == 0 && Headed(b) && 8 + U16At(b, 4) == |b|
  {
    var b := Header(subLen, printLen, flags) + rest;
    HeaderSlices(subLen, printLen, flags, rest);
    HeaderFields(subLen, printLen, flags, rest);
    LeField(b, 4, 12 + subLen + printLen);
    LeFields(b, 0, IO_REPARSE_TAG_SYMLINK);
    assert b[6..8] == Le16(0);
    LeField(b, 6, 0);
  }

  // What a substitute name must be: the print name itself when that is relative or has the NT prefix,
  // else a name with the NT prefix, on a share the UNC form, that strips to the print name.
  ghost predicate Substitutes(sub: string, printName: string) {
    if IsRelative(printName) || HasPrefix(printName, NT_PREFIX) then sub == printName
    else
      && HasPrefix(sub, NT_PREFIX) && StripNt(sub) == printName
      && (HasPrefix(sub, UNC_PREFIX) <==> HasPrefix(printName, "\\\\"))
  }

  lemma SubstituteForIs(printName: string)
    ensures Substitutes(SubstituteFor(printName), printName)
  {
    if !IsRelative(printName) && !HasPrefix(printName, NT_PREFIX) {
      StripSubstitute(printName);
      var sub := ToSubstitute(printName);
      if HasPrefix(printName, "\\\\") {
        assert sub[..8] == UNC_PREFIX && UNC_PREFIX[..4] == NT_PREFIX;
        assert sub[..4] == sub[..8][..4];
      } else {
        assert sub[..4] == NT_PREFIX && sub[4..] == printName;
        if |printName| >= 2 {
          assert sub[4] == printName[0] && sub[5] == printName[1];
          NotUnc(sub);
        }
      }
    }
  }

  // Every built buffer holds the backslashed target as its print name, the right substitute name, and
  // the flag exactly when the target is relative.
  lemma BuildIs(target: string)
    requires Build(target).Some?
    ensures var printName := Backslashed(target);
      exists sub :: Substitutes(sub, printName) && BuiltAs(Build(target).value, sub, printName, if IsRelative(printName) then 1 else 0)
  {
    var printName := Backslashed(target);
    SubstituteForIs(printName);
    LayoutIs(SubstituteFor(printName), printName, FlagsFor(printName));
  }

  // For an absolute target the substitute name alone is enough: with the print length set to 0, the
  // built buffer still parses to the target.
  lemma SubstituteIsEnough(target: string)
    requires Build(target).Some? && !IsRelative(Backslashed(target)) && !HasPrefix(Backslashed(target), NT_PREFIX)
    ensures |Build(target).value| >= 20 && Parse(Build(target).value[14 := 0][15 := 0]) == Some(Backslashed(target))
  {
    var printName, b := Backslashed(target), Build(target).value;
    BuildIs(target);
    var sub :| Substitutes(sub, printName) && BuiltAs(b, sub, printName, 0);
    var c := b[14 := 0][15 := 0];
    SameFields(b, c);
    assert HasNames(c, sub, "");
    assert ChooseTarget(sub, "", U32At(c, 16)) == StripNt(sub);
    NamesParsed(c, sub, "");
  }

  lemma SameFields(b: seq<Byte>, c: seq<Byte>)
    requires Headed(b) && c == b[14 := 0][15 := 0]
    ensures Headed(c) && U16At(c, 4) == U16At(b, 4) && U16At(c, 8) == U16At(b, 8) && U16At(c, 10) == U16At(b, 10)
    ensures U16At(c, 14) == 0 && U32At(c, 16) == U32At(b, 16) && c[20..] == b[20..]
    ensures forall i, j :: 20 <= i <= j <= |b| ==> c[i..j] == b[i..j]
  {
  }

  // ---- As the buffers are filled and read ----

  method FillUnit(out: array<Byte>, at: nat, u: Unit)
    requires at + 2 <= out.Length
    modifies out
    ensures out[..] == old(out[..])[..at] + Le16(u) + old(out[..])[at + 2..]
  {
    out[at], out[at + 1] := u % 256, u / 256;
  }

  method FillUnits(out: array<Byte>, at: nat, us: seq<Unit>) returns (cursor: nat)
    requires at + 2 * |us| <= out.Length
    modifies out
    ensures cursor == at + 2 * |us|
    ensures out[..] == old(out[..])[..at] + ToBytes(us) + old(out[..])[cursor..]
  {
    cursor := at;
    var i := 0;
    ghost var before := out[..];
    while i < |us|
      invariant 0 <= i <= |us| && cursor == at + 2 * i
      invariant out[..] == before[..at] + ToBytes(us[..i]) + before[cursor..]
    {
      ghost var now := out[..];
      FillUnit(out, cursor, us[i]);
      UnitFilled(before, now, at, us, i);
      i := i + 1;
      cursor := cursor + 2;
    }
    assert us[..i] == us;
  }

  lemma UnitFilled(before: seq<Byte>, now: seq<Byte>, at: nat, us: seq<Unit>, i: nat)
    requires i < |us| && at + 2 * |us| <= |before|
    requires now == before[..at] + ToBytes(us[..i]) + before[at + 2 * i..]
    ensures var cursor := at + 2 * i;
      now[..cursor] + Le16(us[i]) + now[cursor + 2..] ==
        before[..at] + ToBytes(us[..i + 1]) + before[cursor + 2..]
  {
    ToBytesSnoc(us[..i], us[i]);
    assert us[..i + 1] == us[..i] + [us[i]];
  }

  lemma {:induction false} ToBytesSnoc(us: seq<Unit>, u: Unit)
    ensures ToBytes(us + [u]) == ToBytes(us) + Le16(u)
  {
    if us == [] {
      assert us + [u] == [u] && [u][1..] == [];
    } else {
      assert (us + [u])[1..] == us[1..] + [u];
      ToBytesSnoc(us[1..], u);
    }
  }

  method BuildBuffer(target: string) returns (r: Option<array<Byte>>)
    ensures r.Some? <==> Build(target).Some?
    ensures r.Some? ==> fresh(r.value) && r.value[..] == Build(target).value
  {
    var printName := Backslashed(target);
    var isRelative := IsRelative(printName);
    var substitute := if isRelative then printName else ToSubstitute(printName);
    var flags := if isRelative then SYMLINK_FLAG_RELATIVE else 0;
    var sub16, print16 := Encode(substitute), Encode(printName);
    var subLen, printLen := 2 * |sub16|, 2 * |print16|;
    var dataLen := 12 + subLen + printLen;
    if subLen > U16_MAX || printLen > U16_MAX || dataLen > U16_MAX { return None; }
    var header := Header(subLen, printLen, flags);
    var out := new Byte[8 + dataLen];
    forall i | 0 <= i < 20 { out[i] := header[i]; }
    assert out[..20] == header;
    var cursor := FillUnits(out, 20, sub16);
    assert out[..cursor] == header + ToBytes(sub16);
    var last := FillUnits(out, cursor, print16);
    assert out[..] == Layout(sub16, print16, flags);
    return Some(out);
  }

  lemma FromBytesStep(buffer: seq<Byte>, idx: nat, end: nat)
    requires idx + 2 <= end <= |buffer| && (end - idx) % 2 == 0
    ensures FromBytes(buffer[idx..end]) == [U16At(buffer, idx)] + FromBytes(buffer[idx + 2..end])
  {
    var b := buffer[idx..end];
    assert b[2..] == buffer[idx + 2..end];
    assert b[0] == buffer[idx] && b[1] == buffer[idx + 1];
  }

  // The loop of read_utf16.
  method CollectUnits(buffer: seq<Byte>, start: nat, end: nat) returns (us: seq<Unit>)
    requires start <= end <= |buffer| && (end - start) % 2 == 0
    ensures us == FromBytes(buffer[start..end])
  {
    us := [];
    var idx := start;
    while idx < end
      invariant start <= idx <= end && (end - idx) % 2 == 0
      invariant us + FromBytes(buffer[idx..end]) == FromBytes(buffer[start..end])
    {
      FromBytesStep(buffer, idx, end);
      us := us + [U16At(buffer, idx)];
      idx := idx + 2;
    }
    assert buffer[idx..end] == [];
  }

  method ReadUtf16(buffer: seq<Byte>, dataEnd: nat, off: nat, len: nat) returns (r: Option<string>)
    requires dataEnd <= |buffer|
    ensures r == ReadName(buffer, dataEnd, off, len)
  {
    if len == 0 { return Some(""); }
    if len % 2 != 0 { return None; }
    var start := 20 + off;
    var end := start + len;
    if end > dataEnd { return None; }
    var us := CollectUnits(buffer, start, end);
    r := Decode(us);
  }

  method ParseBuffer(buffer: seq<Byte>) returns (r: Option<string>)
    ensures r == Parse(buffer)
  {
    var fields := ReadFields(buffer);
    if fields.None? { return None; }
    var f := fields.value;
    var sub := ReadUtf16(buffer, f.dataEnd, f.subOff, f.subLen);
    if sub.None? { return None; }
    var printName := ReadUtf16(buffer, f.dataEnd, f.printOff, f.printLen);
    if printName.None? { return None; }
    var target := if printName.value != "" then printName.value else sub.value;
    if f.flags % 2 == 0 {
      if HasPrefix(target, UNC_PREFIX) {
        target := "\\\\" + target[|UNC_PREFIX|..];
      } else if HasPrefix(target, NT_PREFIX) {
        target := target[|NT_PREFIX|..];
      }
    }
    return Some(target);
  }
}
