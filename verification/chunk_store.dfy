// The rows that hold one file's data: `fs_data(ino, chunk_index, data)` and the
// `size` column of `fs_inode`, and what they mean as a flat byte sequence.
module ChunkStore {
  import opened Common

  type Bytes = seq<Byte>
  type Positive = n: int | 0 < n witness 1

  // The chunk rows and the recorded size of one inode.
  datatype Blob = Blob(chunks: map<nat, Bytes>, size: nat)

  function Max(a: int, b: int): int {
    if a < b then b else a
  }

  function Zeros(n: nat): Bytes {
    seq(n, _ => 0)
  }

  // ---- Meaning ----

  // A missing chunk, and the part of a chunk that is not stored, stand for zeros.
  function ByteAt(cs: Positive, chunks: map<nat, Bytes>, i: nat): Byte {
    if i / cs in chunks && i % cs < |chunks[i / cs]| then chunks[i / cs][i % cs] else 0
  }

  function Contents(cs: Positive, f: Blob): Bytes {
    seq(f.size, i requires 0 <= i < f.size => ByteAt(cs, f.chunks, i))
  }

  // Number of chunks a file of `size` bytes spans.
  function ChunkCount(cs: Positive, size: nat): nat {
    (size + cs - 1) / cs
  }

  // Every stored chunk lies below the end of the file and has exactly the length
  // the size gives it; whole chunks may be missing (holes).
  ghost predicate Tidy(cs: Positive, f: Blob) {
    forall k :: k in f.chunks ==> TidyChunk(cs, f, k)
  }

  predicate TidyChunk(cs: Positive, f: Blob, k: nat)
    requires k in f.chunks
  {
    k * cs < f.size && |f.chunks[k]| == Min(cs, f.size - k * cs)
  }

  // Tidy and without holes: the chunk indices are exactly 0 .. ChunkCount - 1.
  ghost predicate Dense(cs: Positive, f: Blob) {
    Tidy(cs, f) && forall k: nat :: k < ChunkCount(cs, f.size) ==> k in f.chunks
  }

  // ---- Arithmetic of chunk positions ----

  lemma Locate(cs: Positive, i: nat)
    ensures i == i / cs * cs + i % cs && 0 <= i % cs < cs && 0 <= i / cs
  {
  }

  lemma LocateUnique(cs: Positive, i: nat, k: nat, j: nat)
    requires i == k * cs + j && j < cs
    ensures i / cs == k && i % cs == j
  {
    Locate(cs, i);
    if i / cs < k {
      MulMonotone(cs, i / cs, k);
      assert false;
    } else if k < i / cs {
      MulMonotone(cs, k, i / cs);
      assert false;
    }
  }

  lemma {:induction false} MulMonotone(cs: Positive, a: nat, b: nat)
    requires a <= b
    ensures a * cs <= b * cs
    ensures a < b ==> a * cs + cs <= b * cs
    decreases b
  {
    if a < b {
      MulMonotone(cs, a, b - 1);
      assert b * cs == (b - 1) * cs + cs;
    }
  }

  lemma DivMonotone(cs: Positive, a: nat, b: nat)
    requires a <= b
    ensures a / cs <= b / cs
  {
    Locate(cs, a);
    Locate(cs, b);
    if b / cs < a / cs {
      MulMonotone(cs, b / cs, a / cs);
    }
  }

  lemma CountIsCeiling(cs: Positive, size: nat, k: nat)
    ensures k < ChunkCount(cs, size) <==> k * cs < size
  {
    Locate(cs, size + cs - 1);
    var n := ChunkCount(cs, size);
    if k < n {
      MulMonotone(cs, k, n - 1);
      assert n * cs == (n - 1) * cs + cs;
    } else {
      MulMonotone(cs, n, k);
    }
  }

  // ---- Reading ----

  // A read of [offset, offset + length) can be served: every stored chunk it meets
  // reaches as far as the read does.
  ghost predicate Readable(cs: Positive, chunks: map<nat, Bytes>, offset: nat, length: nat) {
    forall k :: k in chunks && offset / cs <= k && k * cs < offset + length ==>
      Min(cs, offset + length - k * cs) <= |chunks[k]|
  }

  // The first chunk ends before the read even starts in it.
  predicate StartsPastChunk(cs: Positive, chunks: map<nat, Bytes>, offset: nat) {
    offset / cs in chunks && |chunks[offset / cs]| < offset % cs
  }

  // How many bytes a read of `want` bytes at `offset` is clipped to.
  function Clip(size: nat, offset: nat, want: nat): nat {
    if size <= offset then 0 else Min(want, size - offset)
  }

  // Tidy files serve every read inside the file.
  lemma TidyReadable(cs: Positive, f: Blob, offset: nat, length: nat)
    requires Tidy(cs, f) && offset + length <= f.size
    ensures Readable(cs, f.chunks, offset, length)
  {
    forall k | k in f.chunks && offset / cs <= k && k * cs < offset + length
      ensures Min(cs, offset + length - k * cs) <= |f.chunks[k]|
    {
      assert TidyChunk(cs, f, k);
    }
  }

  // ---- Concatenating all rows in index order (ReadFile) ----

  function Concat(chunks: map<nat, Bytes>, n: nat): Bytes {
    if n == 0 then [] else
      Concat(chunks, n - 1) + (if n - 1 in chunks then chunks[n - 1] else [])
  }

  lemma ChunkIsSlice(cs: Positive, f: Blob, k: nat)
    requires k in f.chunks && TidyChunk(cs, f, k)
    ensures f.chunks[k] == Contents(cs, f)[k * cs..Min(f.size, k * cs + cs)]
  {
    var c := Contents(cs, f);
    forall j | 0 <= j < |f.chunks[k]|
      ensures c[k * cs + j] == f.chunks[k][j]
    {
      LocateUnique(cs, k * cs + j, k, j);
    }
  }

  lemma {:induction false} ConcatPrefix(cs: Positive, f: Blob, n: nat, end: nat)
    requires Tidy(cs, f) && end == n * cs
    requires forall k: nat :: k < n ==> k in f.chunks
    ensures Concat(f.chunks, n) == Contents(cs, f)[..Min(f.size, end)]
    decreases n
  {
    if n != 0 {
      var k: nat := n - 1;
      var start := k * cs;
      assert start + cs == end;
      ConcatPrefix(cs, f, k, start);
      assert TidyChunk(cs, f, k);
      ChunkIsSlice(cs, f, k);
      JoinSlices(Contents(cs, f), Concat(f.chunks, k), f.chunks[k], start, Min(f.size, end));
    }
  }

  lemma JoinSlices(s: Bytes, left: Bytes, right: Bytes, mid: nat, end: nat)
    requires mid <= end <= |s| && left == s[..mid] && right == s[mid..end]
    ensures left + right == s[..end]
  {
  }

  // What a prefix of the concatenation can be at most, and that a hole costs bytes.
  lemma {:induction false} ConcatLength(cs: Positive, f: Blob, n: nat, end: nat)
    requires Tidy(cs, f) && n <= ChunkCount(cs, f.size) && end == n * cs
    ensures |Concat(f.chunks, n)| <= Min(f.size, end)
    ensures (exists k: nat :: k < n && k !in f.chunks) ==> |Concat(f.chunks, n)| < Min(f.size, end)
    decreases n
  {
    if n != 0 {
      var k: nat := n - 1;
      var start := k * cs;
      assert start + cs == end;
      ConcatLength(cs, f, k, start);
      assert start < f.size by { CountIsCeiling(cs, f.size, k); }
      assert k in f.chunks ==> TidyChunk(cs, f, k);
    }
  }

  // ReadFile returns the contents of a tidy file exactly when no chunk is missing.
  lemma ReadFileExactWhenDense(cs: Positive, f: Blob)
    requires Tidy(cs, f)
    ensures Concat(f.chunks, ChunkCount(cs, f.size)) == Contents(cs, f) <==> Dense(cs, f)
  {
    var n := ChunkCount(cs, f.size);
    CountIsCeiling(cs, f.size, n);
    if Dense(cs, f) {
      ConcatPrefix(cs, f, n, n * cs);
    } else {
      var k: nat :| k < n && k !in f.chunks;
      ConcatLength(cs, f, n, n * cs);
    }
  }

  // Rows past every stored index add nothing.
  lemma {:induction false} ConcatBeyond(chunks: map<nat, Bytes>, m: nat, n: nat)
    requires m <= n && forall k :: k in chunks ==> k < m
    ensures Concat(chunks, n) == Concat(chunks, m)
    decreases n
  {
    if m < n {
      ConcatBeyond(chunks, m, n - 1);
    }
  }

  ghost function RowEnd(chunks: map<nat, Bytes>): (n: nat)
    ensures forall k :: k in chunks ==> k < n
    decreases |chunks|
  {
    if chunks == map[] then 0 else
      var k :| k in chunks;
      assert forall j :: j in chunks ==> j == k || j in chunks - {k};
      Max(k + 1, RowEnd(chunks - {k}))
  }

  // All rows of a file in index order.
  ghost function AllRows(chunks: map<nat, Bytes>): Bytes {
    Concat(chunks, RowEnd(chunks))
  }

  lemma AllRowsIs(chunks: map<nat, Bytes>, n: nat)
    requires forall k :: k in chunks ==> k < n
    ensures AllRows(chunks) == Concat(chunks, n)
  {
    if n <= RowEnd(chunks) {
      ConcatBeyond(chunks, n, RowEnd(chunks));
    } else {
      ConcatBeyond(chunks, RowEnd(chunks), n);
    }
  }

  // ---- Replacing a file's data (writeChunks) ----

  // `data` cut into chunks.
  function Cut(cs: Positive, data: Bytes): (m: map<nat, Bytes>) {
    map k | 0 <= k < ChunkCount(cs, |data|) :: Slice(data, k * cs, cs)
  }

  function Slice(data: Bytes, from: int, len: int): Bytes {
    if 0 <= from <= |data| && 0 <= len then data[from..Min(|data|, from + len)] else []
  }

  // writeChunks: cut the data into rows, one chunk at a time.
  method CutRows(cs: Positive, data: Bytes) returns (rows: map<nat, Bytes>)
    ensures rows == Cut(cs, data)
  {
    rows := map[];
    var rest := data;
    var chunkIndex: nat := 0;
    ghost var start := 0;
    while |rest| > 0
      invariant start == Min(|data|, chunkIndex * cs) && rest == data[start..]
      invariant chunkIndex <= ChunkCount(cs, |data|)
      invariant forall k: nat :: k in rows <==> k < chunkIndex
      invariant forall k: nat :: k in rows ==> rows[k] == Slice(data, k * cs, cs)
      decreases |rest|
    {
      var n := if |rest| < cs then |rest| else cs;
      CountIsCeiling(cs, |data|, chunkIndex);
      assert rest[..n] == Slice(data, chunkIndex * cs, cs);
      rows := rows[chunkIndex := rest[..n]];
      rest := rest[n..];
      start := start + n;
      assert (chunkIndex + 1) * cs == chunkIndex * cs + cs;
      chunkIndex := chunkIndex + 1;
    }
    CountIsCeiling(cs, |data|, chunkIndex);
  }

  lemma CutIsTidy(cs: Positive, data: Bytes)
    ensures Dense(cs, Blob(Cut(cs, data), |data|))
  {
    var f := Blob(Cut(cs, data), |data|);
    forall k | k in f.chunks
      ensures TidyChunk(cs, f, k)
    {
      CountIsCeiling(cs, |data|, k);
    }
  }

  lemma CutContents(cs: Positive, data: Bytes)
    ensures Contents(cs, Blob(Cut(cs, data), |data|)) == data
  {
    var f := Blob(Cut(cs, data), |data|);
    forall i | 0 <= i < |data|
      ensures ByteAt(cs, f.chunks, i) == data[i]
    {
      CutByte(cs, data, i);
    }
  }

  lemma CutByte(cs: Positive, data: Bytes, i: nat)
    requires i < |data|
    ensures ByteAt(cs, Cut(cs, data), i) == data[i]
  {
    Locate(cs, i);
    CountIsCeiling(cs, |data|, i / cs);
    SliceByte(data, i / cs * cs, cs, i % cs);
  }

  lemma SliceByte(data: Bytes, from: nat, len: nat, j: nat)
    requires j < len && from + j < |data|
    ensures j < |Slice(data, from, len)| && Slice(data, from, len)[j] == data[from + j]
  {
  }

  lemma CutIsDense(cs: Positive, data: Bytes)
    ensures var f := Blob(Cut(cs, data), |data|);
      && Dense(cs, f)
      && Contents(cs, f) == data
      && AllRows(f.chunks) == data
  {
    var f := Blob(Cut(cs, data), |data|);
    CutIsTidy(cs, data);
    CutContents(cs, data);
    ReadFileExactWhenDense(cs, f);
    AllRowsIs(f.chunks, ChunkCount(cs, |data|));
  }

  // ---- Positioned write ----

  // Chunk k after `data` is written at `offset`, if the write meets chunk k:
  // the old bytes, zero-extended as far as the write reaches, with the data on top.
  function WrittenChunk(cs: Positive, prior: Bytes, data: Bytes, offset: nat, k: nat): Bytes {
    seq(Max(|prior|, Min(cs, offset + |data| - k * cs)), j requires 0 <= j =>
      if j < cs && offset <= k * cs + j < offset + |data| then data[k * cs + j - offset]
      else if j < |prior| then prior[j] else 0)
  }

  predicate Met(cs: Positive, data: Bytes, offset: nat, k: nat) {
    offset / cs <= k && k * cs < offset + |data|
  }

  function OldChunk(chunks: map<nat, Bytes>, k: nat): Bytes {
    if k in chunks then chunks[k] else []
  }

  // All rows once the chunks below `upTo` have been stored.
  function WriteRows(cs: Positive, chunks: map<nat, Bytes>, data: Bytes, offset: nat, upTo: nat): map<nat, Bytes> {
    if upTo <= offset / cs then chunks else
      WriteRows(cs, chunks, data, offset, upTo - 1)
        [upTo - 1 := WrittenChunk(cs, OldChunk(chunks, upTo - 1), data, offset, upTo - 1)]
  }

  lemma {:induction false} WriteRowsAt(cs: Positive, chunks: map<nat, Bytes>, data: Bytes, offset: nat, upTo: nat, k: nat)
    ensures var rows := WriteRows(cs, chunks, data, offset, upTo);
      if offset / cs <= k < upTo
      then k in rows && rows[k] == WrittenChunk(cs, OldChunk(chunks, k), data, offset, k)
      else (k in rows <==> k in chunks) && (k in rows ==> rows[k] == chunks[k])
    decreases upTo
  {
    if offset / cs < upTo {
      WriteRowsAt(cs, chunks, data, offset, upTo - 1, k);
    }
  }

  function Pwritten(cs: Positive, f: Blob, data: Bytes, offset: nat): Blob {
    if data == [] then f else
      Blob(WriteRows(cs, f.chunks, data, offset, (offset + |data| - 1) / cs + 1), Max(f.size, offset + |data|))
  }

  // The flat sequence with `data` written at `offset`; a gap reads as zeros.
  function Splice(s: Bytes, data: Bytes, offset: nat): Bytes {
    if data == [] then s else
      var padded := if |s| < offset then s + Zeros(offset - |s|) else s;
      padded[..offset] + data + (if offset + |data| < |s| then s[offset + |data|..] else [])
  }

  // The write starts in a later chunk than a stored, short last chunk.
  predicate SkipsShortChunk(cs: Positive, f: Blob, data: Bytes, offset: nat) {
    data != [] && f.size % cs != 0 && f.size / cs in f.chunks && f.size / cs < offset / cs
  }

  // The write ends inside a missing chunk, with more of the file after it.
  predicate FillsHolePartly(cs: Positive, f: Blob, data: Bytes, offset: nat) {
    && data != []
    && var end := offset + |data|;
    && (end - 1) / cs !in f.chunks && end < f.size && end % cs != 0
  }

  predicate LeavesShortChunk(cs: Positive, f: Blob, data: Bytes, offset: nat) {
    SkipsShortChunk(cs, f, data, offset) || FillsHolePartly(cs, f, data, offset)
  }

  // Where reads get stuck afterwards: the end of the short chunk.
  function ShortEnd(cs: Positive, f: Blob, data: Bytes, offset: nat): nat {
    if SkipsShortChunk(cs, f, data, offset) then f.size else offset + |data|
  }

  lemma MetIsInRange(cs: Positive, data: Bytes, offset: nat, k: nat)
    requires data != []
    ensures Met(cs, data, offset, k) <==> offset / cs <= k < (offset + |data| - 1) / cs + 1
  {
    var last := offset + |data| - 1;
    Locate(cs, last);
    if k <= last / cs {
      MulMonotone(cs, k, last / cs);
    } else {
      MulMonotone(cs, last / cs, k);
    }
  }

  // Which chunks the write replaced, and by what.
  lemma PwrittenChunk(cs: Positive, f: Blob, data: Bytes, offset: nat, k: nat)
    requires data != []
    ensures var g := Pwritten(cs, f, data, offset);
      if Met(cs, data, offset, k)
      then k in g.chunks && g.chunks[k] == WrittenChunk(cs, OldChunk(f.chunks, k), data, offset, k)
      else (k in g.chunks <==> k in f.chunks) && (k in g.chunks ==> g.chunks[k] == f.chunks[k])
  {
    MetIsInRange(cs, data, offset, k);
    WriteRowsAt(cs, f.chunks, data, offset, (offset + |data| - 1) / cs + 1, k);
  }

  lemma PwrittenByte(cs: Positive, f: Blob, data: Bytes, offset: nat, i: nat)
    requires data != [] && Tidy(cs, f)
    ensures ByteAt(cs, Pwritten(cs, f, data, offset).chunks, i) ==
      if offset <= i < offset + |data| then data[i - offset]
      else if i < f.size then ByteAt(cs, f.chunks, i) else 0
  {
    var k := i / cs;
    Locate(cs, i);
    PwrittenChunk(cs, f, data, offset, k);
    if offset <= i < offset + |data| {
      DivMonotone(cs, offset, i);
      assert Met(cs, data, offset, k);
    }
    if k in f.chunks {
      assert TidyChunk(cs, f, k);
    }
  }

  // Whatever the offset, a positioned write on a tidy file splices the flat sequence.
  lemma PwriteSplices(cs: Positive, f: Blob, data: Bytes, offset: nat)
    requires Tidy(cs, f)
    ensures Contents(cs, Pwritten(cs, f, data, offset)) == Splice(Contents(cs, f), data, offset)
  {
    if data != [] {
      var g := Pwritten(cs, f, data, offset);
      var want := Splice(Contents(cs, f), data, offset);
      assert |want| == g.size;
      forall i | 0 <= i < g.size
        ensures Contents(cs, g)[i] == want[i]
      {
        PwrittenByte(cs, f, data, offset, i);
      }
    }
  }

  // The file stays tidy exactly when no short chunk is left behind.
  lemma PwriteTidyExactly(cs: Positive, f: Blob, data: Bytes, offset: nat)
    requires Tidy(cs, f)
    ensures Tidy(cs, Pwritten(cs, f, data, offset)) <==> !LeavesShortChunk(cs, f, data, offset)
  {
    if data != [] {
      var g := Pwritten(cs, f, data, offset);
      if LeavesShortChunk(cs, f, data, offset) {
        PwriteLeavesShort(cs, f, data, offset);
      } else {
        forall k | k in g.chunks
          ensures TidyChunk(cs, g, k)
        {
          PwrittenChunk(cs, f, data, offset, k);
          PwriteTidyChunk(cs, f, data, offset, k, g);
        }
      }
    }
  }

  lemma PwriteLeavesShort(cs: Positive, f: Blob, data: Bytes, offset: nat)
    requires Tidy(cs, f) && LeavesShortChunk(cs, f, data, offset)
    ensures var g := Pwritten(cs, f, data, offset); var i := ShortEnd(cs, f, data, offset); var k := i / cs;
      && k in g.chunks && |g.chunks[k]| == i % cs && i < g.size
      && !TidyChunk(cs, g, k)
  {
    var i := ShortEnd(cs, f, data, offset);
    var k := i / cs;
    Locate(cs, i);
    PwrittenChunk(cs, f, data, offset, k);
    Locate(cs, offset);
    if SkipsShortChunk(cs, f, data, offset) {
      MulMonotone(cs, k, offset / cs);
      assert TidyChunk(cs, f, k);
    } else {
      LocateUnique(cs, i - 1, k, i % cs - 1);
      DivMonotone(cs, offset, i - 1);
      assert Met(cs, data, offset, k);
    }
  }

  lemma PwriteTidyChunk(cs: Positive, f: Blob, data: Bytes, offset: nat, k: nat, g: Blob)
    requires data != [] && !LeavesShortChunk(cs, f, data, offset)
    requires k in f.chunks ==> TidyChunk(cs, f, k)
    requires g.size == Max(f.size, offset + |data|)
    requires k in g.chunks && (Met(cs, data, offset, k) || k in f.chunks)
    requires g.chunks[k] ==
      if Met(cs, data, offset, k) then WrittenChunk(cs, OldChunk(f.chunks, k), data, offset, k) else f.chunks[k]
    ensures TidyChunk(cs, g, k)
  {
    if Met(cs, data, offset, k) {
      PwriteFillsHole(cs, f, data, offset, k);
      LengthFits(cs, k * cs, f.size, offset + |data|, k in f.chunks, |OldChunk(f.chunks, k)|, |g.chunks[k]|);
    } else {
      PwriteUntouched(cs, f, data, offset, k);
    }
  }

  lemma LengthFits(cs: Positive, start: nat, size: nat, end: nat, stored: bool, oldLen: nat, newLen: nat)
    requires start < end
    requires if stored then start < size && oldLen == Min(cs, size - start)
             else oldLen == 0 && (start + cs <= end || size <= end)
    requires newLen == Max(oldLen, Min(cs, end - start))
    ensures newLen == Min(cs, Max(size, end) - start)
  {
  }

  // A missing chunk the write meets is filled to its end or to the end of the file.
  lemma PwriteFillsHole(cs: Positive, f: Blob, data: Bytes, offset: nat, k: nat)
    requires data != [] && !LeavesShortChunk(cs, f, data, offset) && Met(cs, data, offset, k)
    ensures k in f.chunks || k * cs + cs <= offset + |data| || f.size <= offset + |data|
  {
    var end := offset + |data|;
    if end < k * cs + cs {
      LocateUnique(cs, end - 1, k, end - 1 - k * cs);
      LocateUnique(cs, end, k, end - k * cs);
    }
  }

  // A stored chunk the write does not meet is full, or the file does not grow.
  lemma PwriteUntouched(cs: Positive, f: Blob, data: Bytes, offset: nat, k: nat)
    requires data != [] && !LeavesShortChunk(cs, f, data, offset) && !Met(cs, data, offset, k)
    requires k in f.chunks && k * cs < f.size
    ensures k * cs + cs <= f.size || offset + |data| <= f.size
  {
    if f.size < k * cs + cs && f.size < offset + |data| {
      LocateUnique(cs, f.size, k, f.size - k * cs);
      assert false;
    }
  }

  // In a file without holes, a write that starts inside the file or at its end is safe.
  lemma PwriteInsideIsSafe(cs: Positive, f: Blob, data: Bytes, offset: nat)
    requires Dense(cs, f) && offset <= f.size
    ensures !LeavesShortChunk(cs, f, data, offset)
  {
    DivMonotone(cs, offset, f.size);
    var end := offset + |data|;
    if data != [] && end < f.size {
      Locate(cs, end - 1);
      CountIsCeiling(cs, f.size, (end - 1) / cs);
    }
  }

  // ... and it keeps the file without holes.
  lemma PwriteInsideIsDense(cs: Positive, f: Blob, data: Bytes, offset: nat)
    requires Dense(cs, f) && offset <= f.size
    ensures Dense(cs, Pwritten(cs, f, data, offset))
  {
    PwriteInsideIsSafe(cs, f, data, offset);
    PwriteTidyExactly(cs, f, data, offset);
    var g := Pwritten(cs, f, data, offset);
    if data != [] {
      forall k: nat | k < ChunkCount(cs, g.size)
        ensures k in g.chunks
      {
        CountIsCeiling(cs, g.size, k);
        CountIsCeiling(cs, f.size, k);
        PwrittenChunk(cs, f, data, offset, k);
        Locate(cs, offset);
        if k < offset / cs {
          MulMonotone(cs, k, offset / cs);
        }
      }
    }
  }

  // A read that covers the end of a stored chunk, short of the end of its slot, cannot be served.
  lemma ShortChunkBlocks(cs: Positive, chunks: map<nat, Bytes>, offset: nat, length: nat, i: nat)
    requires offset <= i < offset + length
    requires i / cs in chunks && |chunks[i / cs]| <= i % cs
    ensures !Readable(cs, chunks, offset, length)
  {
    Locate(cs, i);
    DivMonotone(cs, offset, i);
  }

  // After such a write, a read that covers the end of the short chunk never returns: the chunk stored
  // there ends exactly where the read gets to.
  lemma LeftShortChunkBlocksReads(cs: Positive, f: Blob, data: Bytes, offset: nat, from: nat, length: nat)
    requires Tidy(cs, f) && LeavesShortChunk(cs, f, data, offset)
    requires from <= ShortEnd(cs, f, data, offset) < from + length
    ensures var g := Pwritten(cs, f, data, offset);
      && ShortEnd(cs, f, data, offset) < g.size
      && !Readable(cs, g.chunks, from, length)
      && !StartsPastChunk(cs, g.chunks, ShortEnd(cs, f, data, offset))
  {
    PwriteLeavesShort(cs, f, data, offset);
    ShortChunkBlocks(cs, Pwritten(cs, f, data, offset).chunks, from, length, ShortEnd(cs, f, data, offset));
  }

  // ---- Truncate ----

  function LastKept(cs: Positive, size: nat): nat {
    if size % cs == 0 && size > 0 then size / cs - 1 else size / cs
  }

  function TruncatedRows(cs: Positive, chunks: map<nat, Bytes>, size: nat): map<nat, Bytes> {
    var last := LastKept(cs, size);
    var kept := map k | k in chunks && k <= last :: chunks[k];
    if size > 0 && size % cs > 0 && last in kept && |kept[last]| > size % cs
    then kept[last := kept[last][..size % cs]]
    else kept
  }

  function Truncated(cs: Positive, f: Blob, size: nat): Blob {
    if size < f.size then Blob(TruncatedRows(cs, f.chunks, size), size) else Blob(f.chunks, size)
  }

  // The flat sequence set to `size` bytes: a prefix, or zero-extended.
  function Resized(s: Bytes, size: nat): Bytes {
    if size <= |s| then s[..size] else s + Zeros(size - |s|)
  }

  // Truncation to nothing that keeps chunk 0, or growth past a stored short chunk.
  predicate TruncateLeavesMess(cs: Positive, f: Blob, size: nat) {
    || (size == 0 < f.size && 0 in f.chunks)
    || (f.size < size && f.size % cs != 0 && f.size / cs in f.chunks)
  }

  lemma LastKeptCovers(cs: Positive, size: nat, k: nat)
    requires size > 0
    ensures k <= LastKept(cs, size) <==> k * cs < size
    ensures size % cs > 0 && k == LastKept(cs, size) ==> size - k * cs == size % cs
    ensures k < LastKept(cs, size) || (k == LastKept(cs, size) && size % cs == 0) ==> cs <= size - k * cs
  {
    Locate(cs, size);
    var last := LastKept(cs, size);
    if size % cs == 0 {
      assert size / cs * cs == last * cs + cs;
    }
    if k <= last {
      MulMonotone(cs, k, last);
    } else {
      MulMonotone(cs, last, k);
    }
  }

  lemma TruncateResizes(cs: Positive, f: Blob, size: nat)
    requires Tidy(cs, f)
    ensures Contents(cs, Truncated(cs, f, size)) == Resized(Contents(cs, f), size)
  {
    var g := Truncated(cs, f, size);
    forall i | 0 <= i < size
      ensures ByteAt(cs, g.chunks, i) == if i < f.size then ByteAt(cs, f.chunks, i) else 0
    {
      Locate(cs, i);
      var k := i / cs;
      if k in f.chunks {
        assert TidyChunk(cs, f, k);
      }
      if size < f.size {
        LastKeptCovers(cs, size, k);
      }
    }
    assert Contents(cs, g) == Resized(Contents(cs, f), size);
  }

  lemma TruncateTidyExactly(cs: Positive, f: Blob, size: nat)
    requires Tidy(cs, f)
    ensures Tidy(cs, Truncated(cs, f, size)) <==> !TruncateLeavesMess(cs, f, size)
  {
    var g := Truncated(cs, f, size);
    if TruncateLeavesMess(cs, f, size) {
      var k := if size == 0 then 0 else f.size / cs;
      Locate(cs, f.size);
      assert TidyChunk(cs, f, k);
      assert k in g.chunks && !TidyChunk(cs, g, k);
    } else {
      forall k | k in g.chunks
        ensures TidyChunk(cs, g, k)
      {
        TruncatedChunkTidy(cs, f, size, k);
      }
    }
  }

  lemma TruncatedChunkTidy(cs: Positive, f: Blob, size: nat, k: nat)
    requires Tidy(cs, f) && !TruncateLeavesMess(cs, f, size) && k in Truncated(cs, f, size).chunks
    ensures TidyChunk(cs, Truncated(cs, f, size), k)
  {
    assert TidyChunk(cs, f, k);
    if size < f.size {
      if size > 0 {
        LastKeptCovers(cs, size, k);
      }
    } else if f.size < size && f.size < k * cs + cs {
      LocateUnique(cs, f.size, k, f.size - k * cs);
    }
  }

  // Shrinking to a positive size keeps a dense file dense.
  lemma TruncateKeepsDense(cs: Positive, f: Blob, size: nat)
    requires Dense(cs, f) && 0 < size <= f.size
    ensures Dense(cs, Truncated(cs, f, size))
  {
    TruncateTidyExactly(cs, f, size);
    forall k: nat | k < ChunkCount(cs, size)
      ensures k in Truncated(cs, f, size).chunks
    {
      CountIsCeiling(cs, size, k);
      CountIsCeiling(cs, f.size, k);
      LastKeptCovers(cs, size, k);
    }
  }

  // Truncating to 0 and growing again brings the first chunk's old bytes back,
  // where the flat sequence holds zeros.
  lemma TruncateToZeroResurrects(cs: Positive, f: Blob, size: nat, i: nat)
    requires Tidy(cs, f) && 0 in f.chunks && i < cs && i < f.size && i < size
    ensures var g := Truncated(cs, Truncated(cs, f, 0), size);
      && Contents(cs, g)[i] == Contents(cs, f)[i]
      && Resized(Resized(Contents(cs, f), 0), size)[i] == 0
  {
    LocateUnique(cs, i, 0, i);
    Locate(cs, 0);
    assert TidyChunk(cs, f, 0);
  }

  // ---- Whole runs ----

  datatype FileOp =
    | FilePwrite(data: Bytes, offset: nat)
    | FileTruncate(size: nat)
    | FileReplace(data: Bytes)
    | FileOpenTrunc

  function Apply(cs: Positive, f: Blob, op: FileOp): Blob {
    match op
    case FilePwrite(data, offset) => Pwritten(cs, f, data, offset)
    case FileTruncate(size) => Truncated(cs, f, size)
    case FileReplace(data) => Blob(Cut(cs, data), |data|)
    case FileOpenTrunc => Blob(map[], 0)
  }

  function ApplyFlat(s: Bytes, op: FileOp): Bytes {
    match op
    case FilePwrite(data, offset) => Splice(s, data, offset)
    case FileTruncate(size) => Resized(s, size)
    case FileReplace(data) => data
    case FileOpenTrunc => []
  }

  // What the caller has to avoid, read off the rows before the call.
  predicate Safe(cs: Positive, f: Blob, op: FileOp) {
    match op
    case FilePwrite(data, offset) => !LeavesShortChunk(cs, f, data, offset)
    case FileTruncate(size) => !TruncateLeavesMess(cs, f, size)
    case _ => true
  }

  function RunRows(cs: Positive, f: Blob, ops: seq<FileOp>): Blob
    decreases ops
  {
    if ops == [] then f else RunRows(cs, Apply(cs, f, ops[0]), ops[1..])
  }

  function RunFlat(s: Bytes, ops: seq<FileOp>): Bytes
    decreases ops
  {
    if ops == [] then s else RunFlat(ApplyFlat(s, ops[0]), ops[1..])
  }

  predicate SafeRun(cs: Positive, f: Blob, ops: seq<FileOp>)
    decreases ops
  {
    ops == [] || (Safe(cs, f, ops[0]) && SafeRun(cs, Apply(cs, f, ops[0]), ops[1..]))
  }

  // One step: the rows follow the flat sequence, and stay tidy exactly when the step is safe.
  lemma StepRefines(cs: Positive, f: Blob, op: FileOp)
    requires Tidy(cs, f)
    ensures Contents(cs, Apply(cs, f, op)) == ApplyFlat(Contents(cs, f), op)
    ensures Tidy(cs, Apply(cs, f, op)) <==> Safe(cs, f, op)
  {
    match op
    case FilePwrite(data, offset) =>
      PwriteSplices(cs, f, data, offset);
      PwriteTidyExactly(cs, f, data, offset);
    case FileTruncate(size) =>
      TruncateResizes(cs, f, size);
      TruncateTidyExactly(cs, f, size);
    case FileReplace(data) =>
      CutIsDense(cs, data);
    case FileOpenTrunc =>
  }

  // Every safe run of writes, truncations and replacements is a run of the flat file,
  // and every read along it can be served.
  lemma {:induction false} RunRefines(cs: Positive, f: Blob, ops: seq<FileOp>)
    requires Tidy(cs, f) && SafeRun(cs, f, ops)
    ensures var g := RunRows(cs, f, ops);
      && Tidy(cs, g)
      && Contents(cs, g) == RunFlat(Contents(cs, f), ops)
      && forall offset: nat, length: nat :: offset + length <= g.size ==> Readable(cs, g.chunks, offset, length)
    decreases ops
  {
    if ops == [] {
      forall offset: nat, length: nat | offset + length <= f.size
        ensures Readable(cs, f.chunks, offset, length)
      {
        TidyReadable(cs, f, offset, length);
      }
    } else {
      StepRefines(cs, f, ops[0]);
      RunRefines(cs, Apply(cs, f, ops[0]), ops[1..]);
    }
  }
}
