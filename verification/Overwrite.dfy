/** Overwriting a range of a file, one storage block at a time, and relinking the file to the
    blocks that replaced its own. */
module Overwrite {
  import opened Wrappers
  import opened Arithmetic
  import opened Bytes
  import opened DiskState
  import opened Evolution
  import opened BlockSteps
  import opened FileTree
  import opened FileContent
  import opened TreeOwnership
  import opened Occupancy

  /** Storage block `x` was replaced by `n`, holding `b`. */
  ghost predicate BlockReplaced(d: Disk, x: nat, b: Block, d': Disk, n: nat, ino: nat, cow: bool) {
    && SameGeometry(d, d') && x < |d.bits| && n < |d.bits| && |b| == d.bs
    && (n == x || !d.InUse(n)) && MovedUses(d, x, d', n, cow)
    && Evolves(d, {x}, d', {n}, ino, cow)
    && d'.data == d.data[n := b]
    && d'.attr[n].typ == Storage
  }

  lemma CopyHolds(d: Disk, x: nat, n: nat)
    requires d.Shape() && d.InUse(x) && CopyOnWrite(d, x).1 == Some(n)
    ensures var d1 := CopyOnWrite(d, x).0;
            n < |d.bits| && n != x && SameGeometry(d, d1) && d1.data[n] == d.data[x] && d1.SetType(n, Storage) == d1
  {
    CopyOnWriteEvolves(d, x, n);
  }

  /** Filling a copy and giving up the original replaces a storage block, */
  lemma CopyReplaced(d: Disk, x: nat, n: nat, b: Block, ino: nat)
    requires d.Shape() && d.InUse(x) && CopyOnWrite(d, x).1 == Some(n) && |b| == d.bs
    ensures var d1 := CopyOnWrite(d, x).0;
            n < |d1.data| && x < |d1.attr| && BlockReplaced(d, x, b, d1.SetData(n, b).Retire(x), n, ino, true)
  {
    CopyHolds(d, x, n);
    RelocateEvolves(d, x, n, b, Storage);
    RelocateUses(d, x, n, b, Storage);
    var d' := Replace(CopyOnWrite(d, x).0, n, x, b, Storage);
    hide CopyOnWrite, Uses, KeepsAccount;
    EvolvesWeaken(d, {x}, d', {n}, ino, true);
  }

  /** and so does writing it in place. */
  lemma InPlaceReplaced(d: Disk, x: nat, b: Block, ino: nat)
    requires d.Shape() && d.InUse(x) && |b| == d.bs && d.attr[x].typ == Storage
    ensures BlockReplaced(d, x, b, d.SetData(x, b), x, ino, false)
  {
    WriteEvolves(d, x, b, ino, false);
    WriteUses(d, x, b);
  }

  /** Where a pointer goes when the file is relinked. */
  function Relinked(relink: map<nat, nat>, p: nat): nat {
    if p in relink then relink[p] else p
  }

  /** Blocks `lo` to `hi` of the file `t` on disk `d` have been overwritten; the file's storage is
      now `cur` on disk `d1`, although its parents still point to the original blocks. */
  ghost predicate Overwriting(d: Disk, t: Tree, d1: Disk, cur: seq<nat>, relink: map<nat, nat>, lo: nat, hi: nat,
                              src: seq<byte>, offset: nat, ino: nat, cow: bool)
  {
    && SameGeometry(d, d1) && ino < |d.bits|
    && |cur| == |t.l3| && lo <= hi <= |t.l3| && TreeHeld(d, ino, t)
    && TreeHeld(d1, ino, t.(l3 := cur)) && d1.InUse(ino)
    && Evolves(d, TreeBlocks(t), d1, TreeBlocks(t.(l3 := cur)), ino, cow)
    && d1.data[ino] == d.data[ino] && d1.attr[ino].typ == d.attr[ino].typ
    && SameData(d, d1, t.l1) && SameData(d, d1, t.l2)
    && (forall q :: 0 <= q < |cur| ==> cur[q] == Relinked(relink, t.l3[q]))
    && (forall q :: 0 <= q < |cur| ==> (t.l3[q] in relink <==> cow && lo <= q < hi))
    && (!cow ==> relink == map[])
    && UsesCopied(d, t.l3, d1, lo, hi, cow)
    && OverwrittenData(d, t.l3, d1, cur, lo, hi, src, offset)
  }

  ghost predicate OverwrittenData(d: Disk, l3: seq<nat>, d1: Disk, cur: seq<nat>, lo: nat, hi: nat, src: seq<byte>,
                                  offset: nat)
    requires SameGeometry(d, d1) && |cur| == |l3|
  {
    forall q :: 0 <= q < |cur| ==>
      && l3[q] < |d.data| && cur[q] < |d.data|
      && d1.data[cur[q]] == if lo <= q < hi then Patched(d.data[l3[q]], d.bs, q, src, offset) else d.data[l3[q]]
  }

  lemma OverwritingEvolves(d: Disk, t: Tree, d1: Disk, cur: seq<nat>, relink: map<nat, nat>, lo: nat, hi: nat,
                           src: seq<byte>, offset: nat, ino: nat, cow: bool)
    requires Overwriting(d, t, d1, cur, relink, lo, hi, src, offset, ino, cow)
    ensures Evolves(d, TreeBlocks(t), d1, TreeBlocks(t.(l3 := cur)), ino, cow)
    ensures d1.bs == d.bs && d1.InUse(ino)
  {
  }

  lemma OverwriteStarts(d: Disk, t: Tree, lo: nat, src: seq<byte>, offset: nat, ino: nat, cow: bool)
    requires d.Shape() && TreeHeld(d, ino, t) && d.InUse(ino) && lo <= |t.l3|
    ensures Overwriting(d, t, d, t.l3, map[], lo, lo, src, offset, ino, cow)
  {
    EvolvesRefl(d, TreeBlocks(t), ino, cow);
    UsesCopiedNone(d, t.l3, lo, cow);
    assert t.(l3 := t.l3) == t;
  }

  /** The rest of the tree is not affected by replacing one storage block. */
  lemma ReplaceStorage(d: Disk, t: Tree, q: nat, b: Block, d1: Disk, n: nat, ino: nat, cow: bool)
    requires d.Shape() && TreeHeld(d, ino, t) && d.InUse(ino) && q < |t.l3|
    requires BlockReplaced(d, t.l3[q], b, d1, n, ino, cow)
    ensures TreeHeld(d1, ino, t.(l3 := t.l3[q := n])) && d1.InUse(ino)
    ensures d1.data[ino] == d.data[ino] && d1.attr[ino].typ == d.attr[ino].typ
    ensures Evolves(d, TreeBlocks(t), d1, TreeBlocks(t.(l3 := t.l3[q := n])), ino, cow)
    ensures SameData(d, d1, t.l1) && SameData(d, d1, t.l2)
    ensures forall i :: 0 <= i < |t.l3| && i != q ==> d1.data[t.l3[i]] == d.data[t.l3[i]]
  {
    hide EvolvesAt, KeepsAccount;
    var x := t.l3[q];
    var t' := t.(l3 := t.l3[q := n]);
    InElems(t.l3, q);
    assert n in TreeBlocks(t) ==> d.InUse(n);
    ReplaceElem(t.l3, q, n);
    OthersUntouched(d, {x}, d1, {n}, ino, cow, ino);
    KeepTyped(d, {x}, d1, {n}, ino, cow, t.l1, Pointer);
    KeepTyped(d, {x}, d1, {n}, ino, cow, t.l2, Pointer);
    var R := TreeBlocks(t) - {x};
    EvolvesFrame(d, {x}, d1, {n}, R, ino, cow);
    assert {x} + R == TreeBlocks(t) && {n} + R == TreeBlocks(t');
    forall i | 0 <= i < |t.l3| && i != q
      ensures d1.data[t.l3[i]] == d.data[t.l3[i]] && d1.attr[t.l3[i]].typ == Storage
    {
      InElems(t.l3, i);
      OthersUntouched(d, {x}, d1, {n}, ino, cow, t.l3[i]);
    }
  }

  lemma OverwriteStep(d: Disk, t: Tree, d1: Disk, cur: seq<nat>, relink: map<nat, nat>, lo: nat, hi: nat,
                      src: seq<byte>, offset: nat, ino: nat, cow: bool, d2: Disk, n: nat)
    requires Overwriting(d, t, d1, cur, relink, lo, hi, src, offset, ino, cow) && hi < |t.l3|
    requires t.l3[hi] < |d.data|
    requires BlockReplaced(d1, t.l3[hi], Patched(d.data[t.l3[hi]], d.bs, hi, src, offset), d2, n, ino, cow)
    ensures t.l3[hi] !in relink && cur[hi] == t.l3[hi]
    ensures var relink' := if n != t.l3[hi] then relink[t.l3[hi] := n] else relink;
            Overwriting(d, t, d2, cur[hi := n], relink', lo, hi + 1, src, offset, ino, cow)
  {
    hide EvolvesAt, KeepsAccount;
    OverwriteUses(d, t, d1, cur, relink, lo, hi, src, offset, ino, cow, d2, n);
    hide UsesCopied;
    var x := t.l3[hi];
    var b := Patched(d.data[x], d.bs, hi, src, offset);
    var t1 := t.(l3 := cur);
    var cur' := cur[hi := n];
    var relink' := if n != x then relink[x := n] else relink;
    ReplaceStorage(d1, t1, hi, b, d2, n, ino, cow);
    assert t1.(l3 := cur') == t.(l3 := cur');
    EvolvesTrans(d, TreeBlocks(t), d1, TreeBlocks(t1), d2, TreeBlocks(t.(l3 := cur')), ino, cow);
    SameDataTrans(d, d1, d2, t.l1);
    SameDataTrans(d, d1, d2, t.l2);
    RelinkStep(t.l3, cur, relink, lo, hi, n, cow);
    OverwrittenNext(d, t.l3, d1, cur, lo, hi, src, offset, d2, n);
  }

  lemma OverwrittenNext(d: Disk, l3: seq<nat>, d1: Disk, cur: seq<nat>, lo: nat, hi: nat, src: seq<byte>,
                        offset: nat, d2: Disk, n: nat)
    requires SameGeometry(d, d1) && SameGeometry(d, d2) && |cur| == |l3| && lo <= hi < |l3| && n < |d.data|
    requires OverwrittenData(d, l3, d1, cur, lo, hi, src, offset)
    requires forall q :: 0 <= q < |cur| && q != hi ==> d2.data[cur[q]] == d1.data[cur[q]]
    requires d2.data[n] == Patched(d.data[l3[hi]], d.bs, hi, src, offset)
    ensures OverwrittenData(d, l3, d2, cur[hi := n], lo, hi + 1, src, offset)
  {
    hide Patched;
  }

  lemma OverwriteUses(d: Disk, t: Tree, d1: Disk, cur: seq<nat>, relink: map<nat, nat>, lo: nat, hi: nat,
                      src: seq<byte>, offset: nat, ino: nat, cow: bool, d2: Disk, n: nat)
    requires Overwriting(d, t, d1, cur, relink, lo, hi, src, offset, ino, cow) && hi < |t.l3|
    requires t.l3[hi] < |d.data|
    requires BlockReplaced(d1, t.l3[hi], Patched(d.data[t.l3[hi]], d.bs, hi, src, offset), d2, n, ino, cow)
    ensures UsesCopied(d, t.l3, d2, lo, hi + 1, cow)
  {
    hide Evolves, EvolvesAt, OverwrittenData, SameData, UsesCopied, MovedUses;
    var x := t.l3[hi];
    assert cur[hi] == x;
    InElems(t.l3, hi);
    InElems(cur, hi);
    StillOwned(d, TreeBlocks(t), d1, TreeBlocks(t.(l3 := cur)), ino, cow, x);
    UsesCopiedOne(d, t.l3, d1, lo, hi, cow, d2, n);
  }

  lemma NothingRelinked(d: Disk, t: Tree, d1: Disk, cur: seq<nat>, relink: map<nat, nat>, lo: nat, hi: nat,
                        src: seq<byte>, offset: nat, ino: nat, cow: bool)
    requires Overwriting(d, t, d1, cur, relink, lo, hi, src, offset, ino, cow) && relink == map[]
    ensures cow ==> lo == hi
  {
    assert lo < hi ==> t.l3[lo] !in relink;
  }

  lemma SomethingRelinked(d: Disk, t: Tree, d1: Disk, cur: seq<nat>, relink: map<nat, nat>, lo: nat, hi: nat,
                          src: seq<byte>, offset: nat, ino: nat, cow: bool)
    requires Overwriting(d, t, d1, cur, relink, lo, hi, src, offset, ino, cow) && relink != map[]
    ensures cow
    ensures forall q :: 0 <= q < |t.l3| ==> (t.l3[q] in relink <==> lo <= q < hi) && cur[q] == Relinked(relink, t.l3[q])
  {
  }

  lemma RelinkStep(l3: seq<nat>, cur: seq<nat>, relink: map<nat, nat>, lo: nat, hi: nat, n: nat, cow: bool)
    requires NoDup(l3) && |cur| == |l3| && lo <= hi < |l3|
    requires forall q :: 0 <= q < |cur| ==> cur[q] == Relinked(relink, l3[q])
    requires forall q :: 0 <= q < |cur| ==> (l3[q] in relink <==> cow && lo <= q < hi)
    requires n != l3[hi] <==> cow
    ensures var relink' := if n != l3[hi] then relink[l3[hi] := n] else relink;
            && (forall q :: 0 <= q < |cur| ==> cur[hi := n][q] == Relinked(relink', l3[q]))
            && (forall q :: 0 <= q < |cur| ==> (l3[q] in relink' <==> cow && lo <= q < hi + 1))
  {
  }

  lemma SameDataTrans(d: Disk, d1: Disk, d2: Disk, s: seq<nat>)
    requires SameGeometry(d, d1) && SameGeometry(d1, d2)
    requires SameData(d, d1, s) && SameData(d1, d2, s)
    ensures SameData(d, d2, s)
  {
  }

  /** With all touched blocks overwritten, the file contents are overwritten. */
  lemma OverwrittenFile(d: Disk, l3: seq<nat>, d1: Disk, cur: seq<nat>, lo: nat, hi: nat, size: nat,
                        src: seq<byte>, offset: nat)
    requires SameGeometry(d, d1) && |cur| == |l3| == CeilDiv(d.bs, size) && offset + |src| <= size
    requires lo <= hi <= |l3| && OverwrittenData(d, l3, d1, cur, lo, hi, src, offset)
    requires lo * d.bs <= offset && offset + |src| <= hi * d.bs
    ensures FileBytes(d1, cur, size) == Put(FileBytes(d, l3, size), offset, src)
  {
    forall q | 0 <= q < |l3|
      ensures l3[q] < |d.data| && cur[q] < |d.data|
      ensures d1.data[cur[q]] == Patched(d.data[l3[q]], d.bs, q, src, offset)
    {
      if q < lo {
        MulMonotone(q + 1, lo, d.bs);
        assert (q + 1) * d.bs == q * d.bs + d.bs;
        PatchedOutside(d.data[l3[q]], d.bs, q, src, offset);
      } else if hi <= q {
        MulMonotone(hi, q, d.bs);
        PatchedOutside(d.data[l3[q]], d.bs, q, src, offset);
      }
    }
    PatchedFile(d, l3, d1, cur, size, src, offset);
  }

  /** The first block of the file after those of a plan. */
  function PlanEnd(p: Plan): nat {
    p.skippedBlocks + p.adjacent + if p.last != 0 then 2 else 1
  }

  function TouchedStart(bs: nat, offset: nat): nat
    requires 0 < bs
  {
    offset / bs
  }

  /** The first block of the file after those that a range of `n` bytes touches; an empty range still
      looks at one. */
  function TouchedEnd(bs: nat, offset: nat, n: nat): nat
    requires 0 < bs
  {
    if n == 0 then offset / bs + 1 else CeilDiv(bs, offset + n)
  }

  lemma PlanTouches(p: Plan, bs: nat, offset: nat, n: nat, fileSize: nat)
    requires Plans(p, bs, offset, n, fileSize)
    ensures p.skippedBlocks == TouchedStart(bs, offset) && PlanEnd(p) == TouchedEnd(bs, offset, n)
  {
    DivModUnique(p.skippedBlocks, p.skippedBytes, bs);
    if p.first == n {
      assert p.adjacent == 0 && p.last == 0 by {
        if p.adjacent != 0 {
          MulMonotone(1, p.adjacent, bs);
        }
      }
      if p.skippedBytes + n < bs {
        CeilDivOf(p.skippedBlocks, p.skippedBytes + n, bs);
      } else {
        SuccTimes(p.skippedBlocks, bs);
        CeilDivOf(p.skippedBlocks + 1, 0, bs);
      }
    } else {
      BlocksSum(p.skippedBlocks, p.adjacent, bs);
      CeilDivOf(p.skippedBlocks + p.adjacent + 1, p.last, bs);
    }
  }

  /** The storage blocks outside the range are the same as before, and there are as many. */
  ghost predicate SameOutside(t: Tree, t': Tree, lo: nat, hi: nat) {
    && |t'.l1| == |t.l1| && |t'.l2| == |t.l2| && |t'.l3| == |t.l3|
    && forall q :: 0 <= q < |t.l3| && !(lo <= q < hi) ==> t'.l3[q] == t.l3[q]
  }

  ghost predicate NoRoomToCopy(d: Disk, t: Tree, p: Plan) {
    !RoomToCopy(d, |Uses(d)|, t.l3, p.skippedBlocks, PlanEnd(p))
  }

  /** The blocks of a plan end where the written range ends. */
  lemma PlanRange(p: Plan, bs: nat, offset: nat, n: nat, fileSize: nat)
    requires Plans(p, bs, offset, n, fileSize)
    ensures p.skippedBlocks * bs <= offset && offset + n <= PlanEnd(p) * bs
  {
    BlocksSum(p.skippedBlocks, p.adjacent, bs);
  }

  lemma BlocksSum(x: nat, y: nat, bs: nat)
    ensures (x + y + 1) * bs == x * bs + y * bs + bs
    ensures (x + y + 2) * bs == x * bs + y * bs + bs + bs
  {
  }

  /** Without a relinked block the file still reads through its old parents. */
  lemma OverwrittenInPlace(d: Disk, d1: Disk, cur: seq<nat>, lo: nat, hi: nat, src: seq<byte>, offset: nat,
                           ino: nat, cow: bool)
    requires WellFormed(d, ino) && Overwriting(d, TreeAt(d, ino), d1, cur, map[], lo, hi, src, offset, ino, cow)
    requires offset + |src| <= SizeOf(d.data[ino])
    requires lo * d.bs <= offset && offset + |src| <= hi * d.bs
    ensures WellFormed(d1, ino) && TreeAt(d1, ino) == TreeAt(d, ino)
    ensures Content(d1, ino) == Put(Content(d, ino), offset, src)
    ensures Evolves(d, TreeBlocks(TreeAt(d, ino)), d1, TreeBlocks(TreeAt(d1, ino)), ino, cow)
  {
    var t := TreeAt(d, ino);
    assert cur == t.l3;
    assert t.(l3 := cur) == t;
    LowerFrame(d, d1, t.l1, |t.l2|);
    LowerFrame(d, d1, t.l2, |t.l3|);
    OverwrittenFile(d, t.l3, d1, cur, lo, hi, SizeOf(d.data[ino]), src, offset);
  }
}
