// Open file handles over one inode's rows: positioned and sequential reads and writes.
module FileHandle {
  import opened Common
  import opened ChunkStore

  // The rows of one inode, shared by every handle open on it.
  class InodeRows {
    const chunkSize: Positive
    var live: bool
    var chunks: map<nat, Bytes>
    var size: nat

    constructor (chunkSize: Positive)
      ensures this.chunkSize == chunkSize && live && Value() == Blob(map[], 0)
    {
      this.chunkSize := chunkSize;
      live, chunks, size := true, map[], 0;
    }

    function Value(): Blob
      reads this
    {
      Blob(chunks, size)
    }

    // The data part of Filesystem.WriteFile on an existing file.
    method Replace(data: Bytes)
      modifies this
      ensures Value() == Apply(chunkSize, old(Value()), FileReplace(data)) && live == old(live)
    {
      chunks := CutRows(chunkSize, data);
      size := |data|;
    }

    // The row loop of Filesystem.ReadFile: append every row in index order.
    method ReadAll(bound: nat) returns (data: Bytes)
      requires forall k :: k in chunks ==> k < bound
      ensures data == Concat(chunks, bound)
    {
      data := [];
      for k := 0 to bound
        invariant data == Concat(chunks, k)
      {
        if k in chunks {
          data := data + chunks[k];
        }
      }
    }
  }

  // A read returns the number of bytes copied, fails because the inode is gone, repeats
  // its loop body without progress for ever, or slices a chunk out of bounds.
  datatype ReadOutcome = Copied(n: nat) | Gone | Diverges | Panics

  ghost function RangeOutcome(cs: Positive, chunks: map<nat, Bytes>, offset: nat, length: nat): ReadOutcome {
    if Readable(cs, chunks, offset, length) then Copied(length)
    else if StartsPastChunk(cs, chunks, offset) then Panics
    else Diverges
  }

  ghost function PreadOutcome(cs: Positive, live: bool, f: Blob, want: nat, offset: nat): ReadOutcome {
    if want == 0 then Copied(0)
    else if !live then Gone
    else if f.size <= offset then Copied(0)
    else RangeOutcome(cs, f.chunks, offset, Clip(f.size, offset, want))
  }

  // A tidy file serves every read, whatever the offset and the buffer.
  lemma TidyReadsReturn(cs: Positive, f: Blob, want: nat, offset: nat)
    requires Tidy(cs, f)
    ensures PreadOutcome(cs, true, f, want, offset) == Copied(Clip(f.size, offset, want))
  {
    if offset < f.size {
      TidyReadable(cs, f, offset, Clip(f.size, offset, want));
    }
  }

  // Reading back what was just written, and anything beside it.
  lemma ReadBack(cs: Positive, f: Blob, data: Bytes, offset: nat)
    requires Tidy(cs, f) && data != [] && !LeavesShortChunk(cs, f, data, offset)
    ensures var g := Pwritten(cs, f, data, offset);
      && PreadOutcome(cs, true, g, |data|, offset) == Copied(|data|)
      && Contents(cs, g)[offset..offset + |data|] == data
      && Contents(cs, g)[..Min(f.size, offset)] == Contents(cs, f)[..Min(f.size, offset)]
  {
    PwriteTidyExactly(cs, f, data, offset);
    PwriteSplices(cs, f, data, offset);
    TidyReadsReturn(cs, Pwritten(cs, f, data, offset), |data|, offset);
  }

  datatype Whence = SeekStart | SeekCurrent | SeekEnd | Invalid

  datatype SeekResult = At(offset: nat) | Einval | Enoent

  datatype WriteResult = Wrote(n: nat) | WriteGone

  class File {
    const inode: InodeRows
    var offset: nat

    constructor (inode: InodeRows)
      ensures this.inode == inode && offset == 0
    {
      this.inode := inode;
      offset := 0;
    }

    method Pread(buf: array<Byte>, offset: nat) returns (out: ReadOutcome)
      modifies buf
      ensures out == PreadOutcome(inode.chunkSize, inode.live, inode.Value(), buf.Length, offset)
      ensures out.Copied? ==> out.n <= buf.Length && (out.n > 0 ==> offset + out.n <= inode.size)
      ensures out.Copied? && out.n > 0 ==>
        buf[..out.n] == Contents(inode.chunkSize, inode.Value())[offset..offset + out.n]
      ensures out.Copied? ==> buf[out.n..] == old(buf[out.n..])
    {
      if buf.Length == 0 { return Copied(0); }
      if !inode.live { return Gone; }
      if offset >= inode.size { return Copied(0); }
      var length := buf.Length;
      if offset + length > inode.size {
        length := inode.size - offset;
      }
      out := ReadRange(buf, offset, length);
    }

    // Extract the requested bytes chunk by chunk.
    method ReadRange(buf: array<Byte>, offset: nat, length: nat) returns (out: ReadOutcome)
      requires 0 < length <= buf.Length && offset + length <= inode.size
      modifies buf
      ensures out == RangeOutcome(inode.chunkSize, inode.chunks, offset, length)
      ensures out.Copied? ==>
        buf[..] == Filled(Contents(inode.chunkSize, inode.Value()), old(buf[..]), offset, length)
    {
      var cs, f := inode.chunkSize, inode.Value();
      ghost var flat := Contents(cs, f);
      ghost var before := buf[..];
      var bytesRead, currentOffset := 0, offset;
      while currentOffset < offset + length
        invariant bytesRead == currentOffset - offset && 0 <= bytesRead <= length
        invariant buf[..] == Filled(flat, before, offset, bytesRead)
        invariant Served(cs, f.chunks, offset, length, currentOffset)
      {
        var n, piece := NextPiece(cs, f, offset, length, currentOffset);
        if n <= 0 {
          return if n < 0 then Panics else Diverges;
        }
        CopyPiece(buf, bytesRead, piece, flat, before, offset);
        bytesRead := bytesRead + n;
        currentOffset := currentOffset + n;
      }
      assert bytesRead == length && currentOffset == offset + length;
      ServedAll(cs, f.chunks, offset, length);
      return Copied(bytesRead);
    }

    method Pwrite(data: Bytes, offset: nat) returns (r: WriteResult)
      modifies inode`chunks, inode`size
      ensures r == if data == [] then Wrote(0) else if !inode.live then WriteGone else Wrote(|data|)
      ensures inode.Value() ==
        if r.Wrote? then Pwritten(inode.chunkSize, old(inode.Value()), data, offset) else old(inode.Value())
    {
      if |data| == 0 { return Wrote(0); }
      if !inode.live { return WriteGone; }
      var cs := inode.chunkSize;
      var endOffset := offset + |data|;
      var existing := inode.chunks;
      var currentOffset, dataOffset := offset, 0;
      ghost var next: nat := offset / cs;
      assert WriteRows(cs, existing, data, offset, next) == existing;
      while currentOffset < endOffset
        invariant offset <= currentOffset <= endOffset && dataOffset == currentOffset - offset
        invariant currentOffset < endOffset ==> next == currentOffset / cs
        invariant currentOffset == endOffset ==> next == (endOffset - 1) / cs + 1
        invariant currentOffset > offset && currentOffset < endOffset ==> currentOffset % cs == 0
        invariant inode.size == old(inode.size)
        invariant inode.chunks == WriteRows(cs, existing, data, offset, next)
      {
        var chunkIndex := currentOffset / cs;
        DivMonotone(cs, offset, currentOffset);
        var n, chunk := MergeChunk(cs, OldChunk(existing, chunkIndex), data, offset, currentOffset);
        inode.chunks := inode.chunks[chunkIndex := chunk];
        currentOffset := currentOffset + n;
        dataOffset := dataOffset + n;
        next := next + 1;
      }
      if endOffset > inode.size {
        inode.size := endOffset;
      }
      return Wrote(|data|);
    }

    method Truncate(size: nat) returns (ok: bool)
      modifies inode`chunks, inode`size
      ensures ok == inode.live
      ensures inode.Value() == if ok then Truncated(inode.chunkSize, old(inode.Value()), size) else old(inode.Value())
    {
      if !inode.live { return false; }
      var cs := inode.chunkSize;
      if size < inode.size {
        var lastChunk := size / cs;
        if size % cs == 0 && size > 0 {
          lastChunk := lastChunk - 1;
        }
        var rows := inode.chunks;
        inode.chunks := map k | k in rows && !(lastChunk + 1 <= k) :: rows[k];
        if size > 0 {
          var offsetInLastChunk := size % cs;
          if offsetInLastChunk > 0 && lastChunk in inode.chunks {
            var chunk := inode.chunks[lastChunk];
            if |chunk| > offsetInLastChunk {
              inode.chunks := inode.chunks[lastChunk := chunk[..offsetInLastChunk]];
            }
          }
        }
      }
      inode.size := size;
      return true;
    }

    // Sequential read: the bytes at the current position, which moves past them.
    method Read(buf: array<Byte>) returns (out: ReadOutcome, eof: bool)
      modifies this, buf
      ensures out == PreadOutcome(inode.chunkSize, inode.live, inode.Value(), buf.Length, old(offset))
      ensures offset == old(offset) + (if out.Copied? then out.n else 0)
      ensures eof <==> out == Copied(0)
      ensures out.Copied? && out.n > 0 ==>
        && out.n <= buf.Length && offset <= inode.size
        && buf[..out.n] == Contents(inode.chunkSize, inode.Value())[old(offset)..offset]
    {
      out := Pread(buf, offset);
      eof := out == Copied(0);
      if out.Copied? {
        offset := offset + out.n;
      }
    }

    // Sequential write: the position moves past the written bytes.
    method Write(data: Bytes) returns (r: WriteResult)
      modifies this`offset, inode`chunks, inode`size
      ensures r.Wrote? ==> inode.Value() == Pwritten(inode.chunkSize, old(inode.Value()), data, old(offset))
      ensures r.WriteGone? ==> inode.Value() == old(inode.Value())
      ensures offset == old(offset) + (if r.Wrote? then |data| else 0)
      ensures r == if data == [] then Wrote(0) else if !inode.live then WriteGone else Wrote(|data|)
    {
      r := Pwrite(data, offset);
      if r.Wrote? {
        offset := offset + r.n;
      }
    }

    method Seek(delta: int, whence: Whence) returns (r: SeekResult)
      modifies this`offset
      ensures var base := if whence == SeekStart then 0 else if whence == SeekCurrent then old(offset) else inode.size;
        r == if whence == Invalid then Einval
             else if whence == SeekEnd && !inode.live then Enoent
             else if base + delta < 0 then Einval
             else At(base + delta)
      ensures offset == if r.At? then r.offset else old(offset)
    {
      var newOffset: int;
      match whence {
        case SeekStart => newOffset := delta;
        case SeekCurrent => newOffset := offset + delta;
        case SeekEnd =>
          if !inode.live { return Enoent; }
          newOffset := inode.size + delta;
        case Invalid => return Einval;
      }
      if newOffset < 0 { return Einval; }
      offset := newOffset;
      return At(newOffset);
    }
  }

  // What the read loop keeps: everything up to position i was served, and i is the
  // start, the end, a chunk boundary, or the end of a short chunk.
  ghost predicate Served(cs: Positive, chunks: map<nat, Bytes>, offset: nat, length: nat, i: nat) {
    offset <= i && (i == offset || (
      && Readable(cs, chunks, offset, i - offset)
      && !StartsPastChunk(cs, chunks, offset)
      && (i == offset + length || i % cs == 0 || Stuck(cs, chunks, i))))
  }

  lemma ServedAll(cs: Positive, chunks: map<nat, Bytes>, offset: nat, length: nat)
    requires length > 0 && Served(cs, chunks, offset, length, offset + length)
    ensures RangeOutcome(cs, chunks, offset, length) == Copied(length)
  {
  }

  // One step of the read loop: the bytes the chunk at the current position contributes.
  // No bytes means the loop would repeat this step for ever; fewer than none is a slice
  // with its ends crossed.
  method NextPiece(cs: Positive, f: Blob, offset: nat, length: nat, currentOffset: nat) returns (n: int, piece: Bytes)
    requires offset <= currentOffset < offset + length <= f.size
    requires Served(cs, f.chunks, offset, length, currentOffset)
    ensures n <= offset + length - currentOffset
    ensures n > 0 ==> |piece| == n && piece == Contents(cs, f)[currentOffset..currentOffset + n]
    ensures n > 0 ==> Served(cs, f.chunks, offset, length, currentOffset + n)
    ensures n <= 0 ==> RangeOutcome(cs, f.chunks, offset, length) == if n < 0 then Panics else Diverges
  {
    var chunkIndex := currentOffset / cs;
    var offsetInChunk := currentOffset % cs;
    var chunk := if chunkIndex in f.chunks then f.chunks[chunkIndex] else Zeros(cs);
    n := cs - offsetInChunk;
    var remaining := offset + length - currentOffset;
    if n > remaining {
      n := remaining;
    }
    if offsetInChunk + n > |chunk| {
      n := |chunk| - offsetInChunk;
    }
    if n <= 0 {
      ShortChunkBlocks(cs, f.chunks, offset, length, currentOffset);
      piece := [];
    } else {
      piece := chunk[offsetInChunk..offsetInChunk + n];
      PieceOfContents(cs, f, currentOffset, chunk, piece);
      ReadableExtends(cs, f.chunks, offset, currentOffset, n);
      EndOfStep(cs, f.chunks, currentOffset, n, remaining);
    }
  }

  // One step of the write loop: the chunk at the current position, extended with zeros
  // as far as the data reaches, with the data that falls into it on top.
  method MergeChunk(cs: Positive, prior: Bytes, data: Bytes, offset: nat, currentOffset: nat)
    returns (n: nat, chunk: Bytes)
    requires offset <= currentOffset < offset + |data|
    requires currentOffset == offset || currentOffset % cs == 0
    ensures chunk == WrittenChunk(cs, prior, data, offset, currentOffset / cs)
    ensures 0 < n <= offset + |data| - currentOffset
    ensures (currentOffset + n - 1) / cs == currentOffset / cs
    ensures currentOffset + n < offset + |data| ==>
      (currentOffset + n) / cs == currentOffset / cs + 1 && (currentOffset + n) % cs == 0
  {
    var offsetInChunk := currentOffset % cs;
    var dataOffset := currentOffset - offset;
    chunk := prior;
    var requiredLen := offsetInChunk + (|data| - dataOffset);
    if requiredLen > cs {
      requiredLen := cs;
    }
    if |chunk| < requiredLen {
      chunk := chunk + Zeros(requiredLen - |chunk|);
    }
    n := cs - offsetInChunk;
    var remainingData := |data| - dataOffset;
    if n > remainingData {
      n := remainingData;
    }
    chunk := chunk[..offsetInChunk] + data[dataOffset..dataOffset + n] + chunk[offsetInChunk + n..];
    ChunkWritten(cs, prior, data, offset, currentOffset, n, chunk);
    Locate(cs, currentOffset);
    NextChunk(cs, currentOffset / cs, offsetInChunk, currentOffset + n);
  }

  // Go's copy(buf[at:], piece) for a piece that fits.
  method CopyInto(buf: array<Byte>, at: nat, piece: Bytes)
    requires at + |piece| <= buf.Length
    modifies buf
    ensures buf[..] == old(buf[..])[..at] + piece + old(buf[..])[at + |piece|..]
  {
    forall i | at <= i < at + |piece| {
      buf[i] := piece[i - at];
    }
  }

  // The same, as a step from the first `at` bytes of the range to those and the piece.
  method CopyPiece(buf: array<Byte>, at: nat, piece: Bytes, ghost flat: Bytes, ghost before: Bytes, ghost offset: nat)
    requires at + |piece| <= buf.Length == |before| && offset + at + |piece| <= |flat|
    requires buf[..] == Filled(flat, before, offset, at)
    requires piece == flat[offset + at..offset + at + |piece|]
    modifies buf
    ensures buf[..] == Filled(flat, before, offset, at + |piece|)
  {
    ghost var was := buf[..];
    CopyInto(buf, at, piece);
    Advance(flat, before, offset, at, piece, was, buf[..]);
  }

  // ---- Facts about one loop step ----

  // Bytes already read stay in front, the untouched rest of the buffer behind.
  ghost function Filled(flat: Bytes, before: Bytes, offset: nat, n: nat): Bytes
    requires offset + n <= |flat| && n <= |before|
  {
    flat[offset..offset + n] + before[n..]
  }

  lemma Advance(flat: Bytes, before: Bytes, offset: nat, n: nat, piece: Bytes, was: Bytes, now: Bytes)
    requires offset + n + |piece| <= |flat| && n + |piece| <= |before|
    requires piece == flat[offset + n..offset + n + |piece|]
    requires was == Filled(flat, before, offset, n)
    requires now == was[..n] + piece + was[n + |piece|..]
    ensures now == Filled(flat, before, offset, n + |piece|)
  {
    assert was[..n] == flat[offset..offset + n];
    assert was[n + |piece|..] == before[n + |piece|..];
    assert flat[offset..offset + n] + piece == flat[offset..offset + n + |piece|];
  }

  lemma PieceOfContents(cs: Positive, f: Blob, i: nat, chunk: Bytes, piece: Bytes)
    requires chunk == if i / cs in f.chunks then f.chunks[i / cs] else Zeros(cs)
    requires i % cs + |piece| <= cs && i % cs + |piece| <= |chunk| && i + |piece| <= f.size
    requires piece == chunk[i % cs..i % cs + |piece|]
    ensures piece == Contents(cs, f)[i..i + |piece|]
  {
    Locate(cs, i);
    forall j | 0 <= j < |piece|
      ensures piece[j] == Contents(cs, f)[i + j]
    {
      LocateUnique(cs, i + j, i / cs, i % cs + j);
    }
  }

  // The read position is at the end of a stored chunk that is shorter than its slot.
  predicate Stuck(cs: Positive, chunks: map<nat, Bytes>, i: nat) {
    i / cs in chunks && |chunks[i / cs]| == i % cs
  }

  lemma ReadableExtends(cs: Positive, chunks: map<nat, Bytes>, offset: nat, i: nat, n: nat)
    requires offset <= i && 0 < n && i % cs + n <= cs
    requires i / cs in chunks ==> i % cs + n <= |chunks[i / cs]|
    requires i == offset || Readable(cs, chunks, offset, i - offset)
    ensures Readable(cs, chunks, offset, i - offset + n)
  {
    var c := i / cs;
    Locate(cs, i);
    forall k | k in chunks && offset / cs <= k && k * cs < i + n
      ensures Min(cs, i + n - k * cs) <= |chunks[k]|
    {
      if k < c {
        MulMonotone(cs, k, c);
      } else if c < k {
        MulMonotone(cs, c, k);
      }
    }
  }

  lemma EndOfStep(cs: Positive, chunks: map<nat, Bytes>, i: nat, n: nat, remaining: nat)
    requires 0 < n <= remaining && i % cs + n <= cs
    requires n == cs - i % cs || n == remaining || (i / cs in chunks && i % cs + n == |chunks[i / cs]|)
    ensures n == remaining || (i + n) % cs == 0 || Stuck(cs, chunks, i + n)
  {
    Locate(cs, i);
    if i % cs + n == cs {
      LocateUnique(cs, i + n, i / cs + 1, 0);
    } else {
      LocateUnique(cs, i + n, i / cs, i % cs + n);
    }
  }

  lemma NextChunk(cs: Positive, k: nat, j: nat, i: nat)
    requires j < cs && k * cs + j < i <= k * cs + cs
    ensures (i - 1) / cs == k
    ensures i == k * cs + cs ==> i / cs == k + 1 && i % cs == 0
  {
    LocateUnique(cs, i - 1, k, i - 1 - k * cs);
    if i == k * cs + cs {
      LocateUnique(cs, i, k + 1, 0);
    }
  }

  lemma ChunkWritten(cs: Positive, prior: Bytes, data: Bytes, offset: nat, i: nat, n: nat, chunk: Bytes)
    requires offset <= i < offset + |data| && n == Min(cs - i % cs, offset + |data| - i)
    requires i == offset || i % cs == 0
    requires |chunk| == Max(|prior|, Min(cs, i % cs + (offset + |data| - i)))
    requires i % cs + n <= |chunk|
    requires forall j :: 0 <= j < |chunk| ==>
      chunk[j] == (if i % cs <= j < i % cs + n then data[i - offset + (j - i % cs)]
                   else if j < |prior| then prior[j] else 0)
    ensures chunk == WrittenChunk(cs, prior, data, offset, i / cs)
  {
    var k := i / cs;
    Locate(cs, i);
    var want := WrittenChunk(cs, prior, data, offset, k);
    forall j | 0 <= j < |chunk|
      ensures chunk[j] == want[j]
    {
      assert k * cs + j == i + (j - i % cs);
    }
  }
}
