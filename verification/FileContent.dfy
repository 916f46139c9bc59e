/** Reading and overwriting ranges of a file, block by block. */
module FileContent {
  import opened Arithmetic
  import opened Bytes
  import opened DiskState
  import opened FileTree

  /** A range of the file inside its block `q`. */
  lemma PageSlice(d: Disk, l3: seq<nat>, size: nat, q: nat, lo: nat, hi: nat)
    requires d.Shape() && q < |l3| && l3[q] < |d.data|
    requires lo <= hi <= d.bs && q * d.bs + hi <= size
    ensures FileBytes(d, l3, size)[q * d.bs + lo..q * d.bs + hi] == d.data[l3[q]][lo..hi]
  {
    var (a, b) := (FileBytes(d, l3, size)[q * d.bs + lo..q * d.bs + hi], d.data[l3[q]][lo..hi]);
    forall i | 0 <= i < hi - lo
      ensures a[i] == b[i]
    {
      if lo + i < d.bs {
        QuotRemUnique(q, lo + i, d.bs);
      }
    }
  }

  /** The storage blocks `l3` hold the contents `c`. */
  ghost predicate HoldsContent(d: Disk, l3: seq<nat>, c: seq<byte>, ino: nat) {
    && d.Shape() && |l3| == CeilDiv(d.bs, |c|)
    && (forall q :: 0 <= q < |l3| ==> l3[q] < |d.attr| && l3[q] != ino && d.attr[l3[q]].typ != Pointer)
    && forall p: nat :: p < |c| ==> c[p] == ByteAt(d, l3, p)
  }

  lemma HeldSlice(d: Disk, l3: seq<nat>, c: seq<byte>, ino: nat, q: nat, off: nat, n: nat)
    requires HoldsContent(d, l3, c, ino) && q < |l3| && off + n <= d.bs && q * d.bs + off + n <= |c|
    ensures c[q * d.bs + off..q * d.bs + off + n] == d.data[l3[q]][off..off + n]
  {
    assert c == FileBytes(d, l3, |c|);
    PageSlice(d, l3, |c|, q, off, off + n);
  }

  lemma ContentHeld(d: Disk, ino: nat)
    requires WellFormed(d, ino)
    ensures HoldsContent(d, TreeAt(d, ino).l3, Content(d, ino), ino)
  {
    var l3 := TreeAt(d, ino).l3;
    forall q | 0 <= q < |l3|
      ensures l3[q] in Elems(l3)
    {
    }
  }

  /** Block `q` of the file after `src` has been written at `offset` of the file. */
  function Patched(b: Block, bs: nat, q: nat, src: seq<byte>, offset: nat): (r: Block)
    requires |b| == bs
    ensures |r| == bs
  {
    seq(bs, i requires 0 <= i < bs =>
      if offset <= q * bs + i < offset + |src| then src[q * bs + i - offset] else b[i])
  }

  /** The chunk of `n` bytes of a source of length `total`, starting at its byte `g`, belongs at
      `off` in block `q`: it starts at the block's or the source's start, and ends at the block's
      or the source's end. */
  predicate Chunk(bs: nat, q: nat, offset: nat, total: nat, off: nat, g: nat, n: nat) {
    && off + n <= bs && g + n <= total
    && q * bs + off == offset + g
    && (off == 0 || g == 0)
    && (off + n == bs || g + n == total)
  }

  /** Copying such a chunk patches the block. */
  lemma ChunkPatches(b: Block, bs: nat, q: nat, src: seq<byte>, offset: nat, off: nat, g: nat, n: nat)
    requires |b| == bs && Chunk(bs, q, offset, |src|, off, g, n)
    ensures Put(b, off, src[g..g + n]) == Patched(b, bs, q, src, offset)
  {
    var (x, y) := (Put(b, off, src[g..g + n]), Patched(b, bs, q, src, offset));
    forall i | 0 <= i < bs
      ensures x[i] == y[i]
    {
    }
  }

  /** A block outside the written range is unaffected. */
  lemma PatchedOutside(b: Block, bs: nat, q: nat, src: seq<byte>, offset: nat)
    requires |b| == bs
    requires q * bs + bs <= offset || offset + |src| <= q * bs
    ensures Patched(b, bs, q, src, offset) == b
  {
  }

  /** If every block is patched, the file is overwritten. */
  lemma PatchedFile(d: Disk, l3: seq<nat>, d': Disk, l3': seq<nat>, size: nat, src: seq<byte>, offset: nat)
    requires SameGeometry(d, d') && |l3| == |l3'| == CeilDiv(d.bs, size) && offset + |src| <= size
    requires forall q :: 0 <= q < |l3| ==> l3[q] < |d.data| && l3'[q] < |d.data|
    requires forall q :: 0 <= q < |l3| ==> d'.data[l3'[q]] == Patched(d.data[l3[q]], d.bs, q, src, offset)
    ensures FileBytes(d', l3', size) == Put(FileBytes(d, l3, size), offset, src)
  {
    var (x, y) := (FileBytes(d', l3', size), Put(FileBytes(d, l3, size), offset, src));
    forall p: nat | p < size
      ensures x[p] == y[p]
    {
      QuotRem(p, d.bs);
      QuotCell(d.bs, size, p);
    }
  }

  /** The meaning of a write: the file padded with zeros up to `offset`, overwritten by `src`. */
  function Written(was: seq<byte>, src: seq<byte>, offset: nat): (now: seq<byte>)
    ensures |now| == if offset + |src| > |was| then offset + |src| else |was|
  {
    var padded := if offset > |was| then was + Zeros(offset - |was|) else was;
    if offset + |src| > |padded| then padded[..offset] + src else Put(padded, offset, src)
  }

  /** The same byte by byte: the data, before it what was there, then zeros, and behind it what was there. */
  lemma WrittenBytes(was: seq<byte>, src: seq<byte>, offset: nat)
    ensures var now := Written(was, src, offset);
            && |now| == (if |was| < offset + |src| then offset + |src| else |was|)
            && forall p :: 0 <= p < |now| ==>
                 now[p] == if offset <= p < offset + |src| then src[p - offset] else if p < |was| then was[p] else 0
  {
  }

  /** Resizing keeps the common prefix. (Bytes newly exposed by growth are unspecified.) */
  ghost predicate ResizedContent(was: seq<byte>, now: seq<byte>, newSize: nat) {
    && |now| == newSize
    && forall p :: 0 <= p < newSize && p < |was| ==> now[p] == was[p]
  }

  /** A file grown for a write: the old contents, then zeros up to `offset`; what follows is
      about to be written. */
  ghost predicate Grown(was: seq<byte>, now: seq<byte>, newSize: nat, offset: nat) {
    && |now| == newSize
    && (forall p :: 0 <= p < newSize && p < |was| ==> now[p] == was[p])
    && (forall p :: |was| <= p < offset && p < newSize ==> now[p] == 0)
  }

  lemma HoleGrown(was: seq<byte>, resized: seq<byte>, filled: seq<byte>, newSize: nat, offset: nat)
    requires ResizedContent(was, resized, newSize) && |was| < offset <= newSize
    requires filled == Written(resized, Zeros(offset - |was|), |was|)
    ensures Grown(was, filled, newSize, offset)
  {
    assert filled == Put(resized, |was|, Zeros(offset - |was|));
  }

  lemma ResizedSize(was: seq<byte>, now: seq<byte>, newSize: nat)
    requires ResizedContent(was, now, newSize)
    ensures |now| == newSize
  {
  }

  lemma GrownSize(was: seq<byte>, now: seq<byte>, newSize: nat, offset: nat)
    requires Grown(was, now, newSize, offset)
    ensures |now| == newSize
  {
  }

  lemma NothingPut(c: seq<byte>, src: seq<byte>, offset: nat)
    requires offset + |src| <= |c| && src == []
    ensures Put(c, offset, src) == c
  {
  }

  lemma GrownWithoutHole(was: seq<byte>, resized: seq<byte>, newSize: nat, offset: nat)
    requires ResizedContent(was, resized, newSize) && offset <= |was| <= newSize
    ensures Grown(was, resized, newSize, offset)
  {
  }

  /** Growing a file, zeroing the hole and then overwriting in place is a write. */
  lemma GrowThenWrite(was: seq<byte>, grown: seq<byte>, src: seq<byte>, offset: nat)
    requires offset + |src| > |was| && Grown(was, grown, offset + |src|, offset)
    ensures Put(grown, offset, src) == Written(was, src, offset)
  {
    var (x, y) := (Put(grown, offset, src), Written(was, src, offset));
    forall p | 0 <= p < |x|
      ensures x[p] == y[p]
    {
    }
  }

  /** How a range of `n` bytes at `offset` divides into blocks. */
  datatype Plan = Plan(skippedBlocks: nat, skippedBytes: nat, first: nat, adjacent: nat, last: nat)

  /** The first block of the range and what is taken from it, then whole blocks, then a rest. */
  ghost predicate Plans(p: Plan, bs: nat, offset: nat, n: nat, fileSize: nat) {
    && 0 < bs && offset + n <= fileSize
    && offset == p.skippedBlocks * bs + p.skippedBytes && p.skippedBytes < bs
    && p.first <= n && p.skippedBytes + p.first <= bs
    && (p.first == n || p.skippedBytes + p.first == bs)
    && n == p.first + p.adjacent * bs + p.last && p.last < bs
    && p.skippedBlocks < CeilDiv(bs, fileSize)
  }

  method DivRem(x: nat, m: nat) returns (q: nat, r: nat)
    requires 0 < m
    ensures x == q * m + r && r < m && r == x % m
  {
    DivMod(x, m);
    q, r := x / m, x % m;
  }

  /** The end of a file that fills its last block. */
  predicate AtBlockEnd(fileSize: nat, offset: nat, bs: nat)
    requires 0 < bs
  {
    0 < fileSize && offset == fileSize && fileSize % bs == 0
  }

  /** The end of a read wraps around to a position within the file. */
  predicate Overflows(fileSize: nat, size: nat, offset: nat) {
    0 < fileSize && offset <= fileSize && TWO_64 <= offset + size <= TWO_64 + fileSize
  }

  /** How many bytes a read is to deliver, by the code's own wrapping sum. */
  function ReadLength(fileSize: nat, size: nat, offset: nat): nat
    requires offset <= fileSize
  {
    if fileSize < (offset + size) % TWO_64 then fileSize - offset else size
  }

  lemma ReadLengthFits(fileSize: nat, size: nat, offset: nat)
    requires 0 < fileSize < TWO_64 && offset <= fileSize && size < TWO_64
    ensures fileSize < offset + ReadLength(fileSize, size, offset) <==> Overflows(fileSize, size, offset)
    ensures !Overflows(fileSize, size, offset) ==>
              ReadLength(fileSize, size, offset) == if fileSize < offset + size then fileSize - offset else size
  {
    if TWO_64 <= offset + size {
      DivModUnique(1, offset + size - TWO_64, TWO_64);
    } else {
      DivModUnique(0, offset + size, TWO_64);
    }
  }

  lemma HasBlockAt(bs: nat, offset: nat, fileSize: nat)
    requires 0 < bs && 0 < fileSize && offset <= fileSize
    ensures offset / bs < CeilDiv(bs, fileSize) <==> !AtBlockEnd(fileSize, offset, bs)
  {
    CeilDivFits(bs, fileSize, offset / bs);
    DivMod(offset, bs);
  }

  /** What a write comes to: it may run out of space, or look up a block that the file does not have. */
  datatype WriteResult = Done(size: nat) | NoBlock | NoSpace

  /** An empty write at a block boundary at or beyond the end of the file. */
  predicate EmptyAtEnd(fileSize: nat, n: nat, offset: nat, bs: nat)
    requires 0 < bs
  {
    n == 0 && fileSize <= offset && offset % bs == 0
  }

  /** The first block that a write looks up, once the file has grown to hold it, is missing in exactly
      one case. */
  lemma HasFirstBlock(bs: nat, fileSize: nat, n: nat, offset: nat)
    requires 0 < bs
    ensures var grown := if fileSize < offset + n then offset + n else fileSize;
            && (offset / bs < CeilDiv(bs, grown) <==> !EmptyAtEnd(fileSize, n, offset, bs))
            && (EmptyAtEnd(grown, n, offset, bs) <==> EmptyAtEnd(fileSize, n, offset, bs))
  {
    var grown := if fileSize < offset + n then offset + n else fileSize;
    CeilDivFits(bs, grown, offset / bs);
    DivMod(offset, bs);
  }

  /** Every range that is not empty at a block boundary at the end of the file has a plan. */
  method MakePlan(bs: nat, offset: nat, n: nat, ghost fileSize: nat) returns (p: Plan)
    requires 0 < bs && offset + n <= fileSize
    requires 0 < n || offset < fileSize || offset % bs != 0
    ensures Plans(p, bs, offset, n, fileSize)
  {
    var skippedBlocks, skippedBytes := DivRem(offset, bs);
    var first := if n <= bs - skippedBytes then n else bs - skippedBytes;
    var adjacent, last := DivRem(n - first, bs);
    p := Plan(skippedBlocks, skippedBytes, first, adjacent, last);
    CeilDivFits(bs, fileSize, skippedBlocks);
  }

  /** How many bytes the first block and the next `i - 1` blocks of a plan cover. */
  function Covered(p: Plan, bs: nat, i: nat): nat {
    if i <= 1 then p.first else Covered(p, bs, i - 1) + bs
  }

  lemma {:induction false} CoveredIs(p: Plan, bs: nat, i: nat)
    requires 1 <= i
    ensures Covered(p, bs, i) == p.first + (i - 1) * bs
  {
    if i > 1 {
      CoveredIs(p, bs, i - 1);
      assert (i - 1) * bs == (i - 2) * bs + bs;
    }
  }

  /** The `i`-th block after the first one exists, and starts where the previous one ended. */
  lemma FollowingBlock(p: Plan, bs: nat, offset: nat, n: nat, fileSize: nat, i: nat)
    requires Plans(p, bs, offset, n, fileSize)
    requires 1 <= i <= p.adjacent + 1 && (i == p.adjacent + 1 ==> 0 < p.last)
    ensures p.skippedBytes + p.first == bs
    ensures (p.skippedBlocks + i) * bs == offset + Covered(p, bs, i)
    ensures p.skippedBlocks + i < CeilDiv(bs, fileSize)
    ensures Covered(p, bs, i) + (if i <= p.adjacent then bs else p.last) <= n
  {
    hide CeilDiv, Covered;
    CoveredIs(p, bs, i);
    assert (p.skippedBlocks + i) * bs == p.skippedBlocks * bs + bs + (i - 1) * bs;
    assert i * bs == (i - 1) * bs + bs;
    MulMonotone(i - 1, p.adjacent, bs);
    if i <= p.adjacent {
      MulMonotone(i, p.adjacent, bs);
    }
    CeilDivFits(bs, fileSize, p.skippedBlocks + i);
  }

  lemma PlanEnds(p: Plan, bs: nat, offset: nat, n: nat, fileSize: nat)
    requires Plans(p, bs, offset, n, fileSize)
    ensures Covered(p, bs, p.adjacent + 1) + p.last == n
  {
    CoveredIs(p, bs, p.adjacent + 1);
  }

  /** The chunks of a plan. */
  lemma PlanChunks(p: Plan, bs: nat, offset: nat, n: nat, fileSize: nat, i: nat)
    requires Plans(p, bs, offset, n, fileSize) && i <= p.adjacent + 1
    ensures i == 0 ==> Chunk(bs, p.skippedBlocks, offset, n, p.skippedBytes, 0, p.first)
    ensures 1 <= i <= p.adjacent ==> Chunk(bs, p.skippedBlocks + i, offset, n, 0, Covered(p, bs, i), bs)
    ensures i == p.adjacent + 1 && 0 < p.last ==>
              Chunk(bs, p.skippedBlocks + i, offset, n, 0, Covered(p, bs, i), p.last)
    ensures i <= p.adjacent || 0 < p.last ==> p.skippedBlocks + i < CeilDiv(bs, fileSize)
    ensures 1 <= i ==> Covered(p, bs, i + 1) == Covered(p, bs, i) + bs
  {
    PlanEnds(p, bs, offset, n, fileSize);
    if 1 <= i && (i <= p.adjacent || 0 < p.last) {
      FollowingBlock(p, bs, offset, n, fileSize, i);
    } else if i == 0 && p.first < n {
      assert p.skippedBytes + p.first == bs;
    }
  }

  lemma AppendRange(c: seq<byte>, offset: nat, k: nat, n: nat)
    requires offset + k + n <= |c|
    ensures c[offset..offset + k] + c[offset + k..offset + k + n] == c[offset..offset + k + n]
  {
  }
}
