// ReadFile over every run of a file, careful or not.
module WholeFile {
  import opened Common
  import opened ChunkStore

  // What every step keeps: rows are not empty and no longer than a chunk, and except for row 0 they
  // lie inside the file.
  predicate LooseRow(cs: Positive, f: Blob, k: nat)
    requires k in f.chunks
  {
    0 < |f.chunks[k]| <= cs && (k > 0 ==> k * cs + |f.chunks[k]| <= f.size)
  }

  ghost predicate Loose(cs: Positive, f: Blob) {
    forall k :: k in f.chunks ==> LooseRow(cs, f, k)
  }

  lemma PwriteLoose(cs: Positive, f: Blob, data: Bytes, offset: nat)
    requires Loose(cs, f)
    ensures Loose(cs, Pwritten(cs, f, data, offset))
  {
    if data != [] {
      var g := Pwritten(cs, f, data, offset);
      forall k | k in g.chunks
        ensures LooseRow(cs, g, k)
      {
        PwrittenChunk(cs, f, data, offset, k);
        assert k in f.chunks ==> LooseRow(cs, f, k);
        if Met(cs, data, offset, k) {
          WrittenRowLength(cs, OldChunk(f.chunks, k), data, offset, k, k * cs);
        }
      }
    }
  }

  lemma WrittenRowLength(cs: Positive, prior: Bytes, data: Bytes, offset: nat, k: nat, start: nat)
    requires start == k * cs < offset + |data| && |prior| <= cs
    ensures var n := |WrittenChunk(cs, prior, data, offset, k)|;
      0 < n <= cs && (n == |prior| || start + n <= offset + |data|)
  {
  }

  lemma TruncateLoose(cs: Positive, f: Blob, size: nat)
    requires Loose(cs, f)
    ensures Loose(cs, Truncated(cs, f, size))
  {
    var g := Truncated(cs, f, size);
    forall k | k in g.chunks
      ensures LooseRow(cs, g, k)
    {
      assert LooseRow(cs, f, k);
      if 0 < size < f.size {
        LastKeptCovers(cs, size, k);
      }
    }
  }

  lemma StepLoose(cs: Positive, f: Blob, op: FileOp)
    requires Loose(cs, f)
    ensures Loose(cs, Apply(cs, f, op))
  {
    match op
    case FilePwrite(data, offset) => PwriteLoose(cs, f, data, offset);
    case FileTruncate(size) => TruncateLoose(cs, f, size);
    case FileReplace(data) =>
      CutIsTidy(cs, data);
      DenseIsLoose(cs, Apply(cs, f, op));
    case FileOpenTrunc =>
  }

  lemma DenseIsLoose(cs: Positive, f: Blob)
    requires Tidy(cs, f)
    ensures Loose(cs, f)
  {
    forall k | k in f.chunks
      ensures LooseRow(cs, f, k)
    {
      assert TidyChunk(cs, f, k);
    }
  }

  lemma {:induction false} RunLoose(cs: Positive, f: Blob, ops: seq<FileOp>)
    requires Loose(cs, f)
    ensures Loose(cs, RunRows(cs, f, ops))
    decreases ops
  {
    if ops != [] {
      StepLoose(cs, f, ops[0]);
      RunLoose(cs, Apply(cs, f, ops[0]), ops[1..]);
    }
  }

  // ---- What ReadFile returns ----

  // A row is as long as its place allows.
  predicate FullRow(cs: Positive, f: Blob, k: nat) {
    k in f.chunks && |f.chunks[k]| == Min(cs, f.size - k * cs)
  }

  // When all rows lie inside the file, their concatenation is at most as long as the file, and
  // shorter when one is missing or short.
  lemma {:induction false} ConcatFits(cs: Positive, f: Blob, n: nat, end: nat)
    requires n <= ChunkCount(cs, f.size) && end == n * cs
    requires forall k :: k in f.chunks ==> LooseRow(cs, f, k) && k * cs + |f.chunks[k]| <= f.size
    ensures |Concat(f.chunks, n)| <= Min(f.size, end)
    ensures |Concat(f.chunks, n)| == Min(f.size, end) ==> forall k :: 0 <= k < n ==> FullRow(cs, f, k)
    decreases n
  {
    if n != 0 {
      var k: nat := n - 1;
      var start := k * cs;
      assert start + cs == end;
      ConcatFits(cs, f, k, start);
      assert start < f.size by { CountIsCeiling(cs, f.size, k); }
      assert k in f.chunks ==> LooseRow(cs, f, k);
    }
  }

  // A row 0 longer than the file is then the only row.
  lemma LongRowAlone(cs: Positive, f: Blob)
    requires Loose(cs, f) && 0 in f.chunks && |f.chunks[0]| > f.size
    ensures AllRows(f.chunks) == f.chunks[0]
  {
    forall k | k in f.chunks
      ensures k < 1
    {
      assert LooseRow(cs, f, k) && LooseRow(cs, f, 0);
      if k > 0 {
        MulMonotone(cs, 1, k);
        assert false;
      }
    }
    AllRowsIs(f.chunks, 1);
    assert Concat(f.chunks, 0) == [];
  }

  lemma RowsEndInTime(cs: Positive, f: Blob)
    requires forall k :: k in f.chunks ==> LooseRow(cs, f, k) && k * cs + |f.chunks[k]| <= f.size
    ensures AllRows(f.chunks) == Concat(f.chunks, ChunkCount(cs, f.size))
  {
    forall k | k in f.chunks
      ensures k < ChunkCount(cs, f.size)
    {
      assert LooseRow(cs, f, k);
      CountIsCeiling(cs, f.size, k);
    }
    AllRowsIs(f.chunks, ChunkCount(cs, f.size));
  }

  lemma FullIsDense(cs: Positive, f: Blob)
    requires forall k :: k in f.chunks ==> LooseRow(cs, f, k) && k * cs + |f.chunks[k]| <= f.size
    requires forall k :: 0 <= k < ChunkCount(cs, f.size) ==> FullRow(cs, f, k)
    ensures Dense(cs, f)
  {
    forall k | k in f.chunks
      ensures TidyChunk(cs, f, k)
    {
      assert LooseRow(cs, f, k);
      CountIsCeiling(cs, f.size, k);
      assert FullRow(cs, f, k);
    }
    forall k: nat | k < ChunkCount(cs, f.size)
      ensures k in f.chunks
    {
      assert FullRow(cs, f, k);
    }
  }

  // Joining all rows gives the contents exactly when the rows are dense: none missing, none short,
  // none too long.
  lemma ReadFileExactly(cs: Positive, f: Blob)
    requires Loose(cs, f)
    ensures AllRows(f.chunks) == Contents(cs, f) <==> Dense(cs, f)
  {
    if 0 in f.chunks && |f.chunks[0]| > f.size {
      LongRowAlone(cs, f);
      assert Dense(cs, f) ==> TidyChunk(cs, f, 0);
    } else {
      forall k | k in f.chunks
        ensures LooseRow(cs, f, k) && k * cs + |f.chunks[k]| <= f.size
      {
        assert LooseRow(cs, f, k);
      }
      RowsEndInTime(cs, f);
      var n := ChunkCount(cs, f.size);
      CountIsCeiling(cs, f.size, n);
      ConcatFits(cs, f, n, n * cs);
      if Dense(cs, f) {
        ReadFileExactWhenDense(cs, f);
      } else if AllRows(f.chunks) == Contents(cs, f) {
        FullIsDense(cs, f);
      }
    }
  }

  // In every run from a new file, whatever the writes and truncations, ReadFile is right exactly when
  // the rows are dense.
  lemma ReadFileEveryRun(cs: Positive, ops: seq<FileOp>)
    ensures var g := RunRows(cs, Blob(map[], 0), ops);
      AllRows(g.chunks) == Contents(cs, g) <==> Dense(cs, g)
  {
    RunLoose(cs, Blob(map[], 0), ops);
    ReadFileExactly(cs, RunRows(cs, Blob(map[], 0), ops));
  }

  // After Truncate(0), ReadFile still returns the first chunk.
  lemma TruncatedToZeroReadsOld(cs: Positive, f: Blob)
    requires Loose(cs, f) && 0 in f.chunks && f.size > 0
    ensures var g := Truncated(cs, f, 0);
      AllRows(g.chunks) == f.chunks[0] && f.chunks[0] != [] && Contents(cs, g) == []
  {
    TruncateLoose(cs, f, 0);
    assert LooseRow(cs, f, 0);
    LongRowAlone(cs, Truncated(cs, f, 0));
  }

  // ---- The contents after every run, told from the calls ----

  // What one call makes of the byte at i and of the size.
  function ByteAfter(cs: Positive, op: FileOp, size: nat, i: nat, was: Byte): Byte {
    match op
    case FilePwrite(data, offset) => if offset <= i < offset + |data| then data[i - offset] else was
    case FileTruncate(n) => if n >= size || i < n || (n == 0 && i < cs) then was else 0
    case FileReplace(data) => if i < |data| then data[i] else 0
    case FileOpenTrunc => 0
  }

  function SizeAfter(op: FileOp, size: nat): nat {
    match op
    case FilePwrite(data, offset) => if data == [] then size else Max(size, offset + |data|)
    case FileTruncate(n) => n
    case FileReplace(data) => |data|
    case FileOpenTrunc => 0
  }

  function SizeOf(ops: seq<FileOp>): nat
    decreases |ops|
  {
    if ops == [] then 0 else SizeAfter(ops[|ops| - 1], SizeOf(ops[..|ops| - 1]))
  }

  // The byte a run leaves at i: of the last write there, unless a truncation below i came later.
  // Truncation to 0 does not count for the first chunk.
  function StoredByte(cs: Positive, ops: seq<FileOp>, i: nat): Byte
    decreases |ops|
  {
    if ops == [] then 0
    else
      var front := ops[..|ops| - 1];
      ByteAfter(cs, ops[|ops| - 1], SizeOf(front), i, StoredByte(cs, front, i))
  }

  lemma PwriteByte(cs: Positive, f: Blob, data: Bytes, offset: nat, i: nat)
    requires Loose(cs, f) && data != []
    ensures ByteAt(cs, Pwritten(cs, f, data, offset).chunks, i) ==
      if offset <= i < offset + |data| then data[i - offset] else ByteAt(cs, f.chunks, i)
  {
    var k := i / cs;
    Locate(cs, i);
    PwrittenChunk(cs, f, data, offset, k);
    if offset <= i < offset + |data| {
      DivMonotone(cs, offset, i);
      assert Met(cs, data, offset, k);
    }
    if k in f.chunks {
      assert LooseRow(cs, f, k);
    }
  }

  lemma TruncateByte(cs: Positive, f: Blob, size: nat, i: nat)
    requires Loose(cs, f) && size < f.size
    ensures ByteAt(cs, Truncated(cs, f, size).chunks, i) ==
      if i < size || (size == 0 && i < cs) then ByteAt(cs, f.chunks, i) else 0
  {
    var k := i / cs;
    Locate(cs, i);
    if size > 0 {
      LastKeptCovers(cs, size, k);
    } else if i < cs {
      LocateUnique(cs, i, 0, i);
    } else {
      assert k > 0;
    }
    if k in f.chunks {
      assert LooseRow(cs, f, k);
    }
  }

  lemma ReplaceByte(cs: Positive, data: Bytes, i: nat)
    ensures ByteAt(cs, Cut(cs, data), i) == if i < |data| then data[i] else 0
  {
    if i < |data| {
      CutByte(cs, data, i);
    } else {
      Locate(cs, i);
      var f := Blob(Cut(cs, data), |data|);
      CutIsTidy(cs, data);
      if i / cs in f.chunks {
        assert TidyChunk(cs, f, i / cs);
      }
    }
  }

  lemma StepBytes(cs: Positive, f: Blob, op: FileOp, i: nat)
    requires Loose(cs, f)
    ensures Apply(cs, f, op).size == SizeAfter(op, f.size)
    ensures ByteAt(cs, Apply(cs, f, op).chunks, i) == ByteAfter(cs, op, f.size, i, ByteAt(cs, f.chunks, i))
  {
    match op
    case FilePwrite(data, offset) => if data != [] { PwriteByte(cs, f, data, offset, i); }
    case FileTruncate(size) => if size < f.size { TruncateByte(cs, f, size, i); }
    case FileReplace(data) => ReplaceByte(cs, data, i);
    case FileOpenTrunc =>
  }

  lemma {:induction false} RunSnoc(cs: Positive, f: Blob, ops: seq<FileOp>, op: FileOp)
    ensures RunRows(cs, f, ops + [op]) == Apply(cs, RunRows(cs, f, ops), op)
    decreases ops
  {
    if ops == [] {
      assert ops + [op] == [op] && [op][1..] == [];
    } else {
      assert (ops + [op])[1..] == ops[1..] + [op];
      RunSnoc(cs, Apply(cs, f, ops[0]), ops[1..], op);
    }
  }

  lemma {:induction false} RunBytes(cs: Positive, ops: seq<FileOp>, i: nat)
    ensures var g := RunRows(cs, Blob(map[], 0), ops);
      g.size == SizeOf(ops) && ByteAt(cs, g.chunks, i) == StoredByte(cs, ops, i)
    decreases |ops|
  {
    if ops != [] {
      var front, op := ops[..|ops| - 1], ops[|ops| - 1];
      assert ops == front + [op];
      RunBytes(cs, front, i);
      RunSnoc(cs, Blob(map[], 0), front, op);
      RunLoose(cs, Blob(map[], 0), front);
      StepBytes(cs, RunRows(cs, Blob(map[], 0), front), op, i);
    }
  }

  // After every run from a new file, safe or not, the contents are told from the calls alone.
  lemma EveryRunContents(cs: Positive, ops: seq<FileOp>)
    ensures var g := RunRows(cs, Blob(map[], 0), ops);
      && |Contents(cs, g)| == g.size == SizeOf(ops)
      && forall i :: 0 <= i < g.size ==> Contents(cs, g)[i] == StoredByte(cs, ops, i)
  {
    var g := RunRows(cs, Blob(map[], 0), ops);
    RunBytes(cs, ops, 0);
    forall i | 0 <= i < g.size
      ensures Contents(cs, g)[i] == StoredByte(cs, ops, i)
    {
      RunBytes(cs, ops, i);
    }
  }
}
