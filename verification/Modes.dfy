/** Updating blocks in place and copying them on write give the same files. */
module Modes {
  import opened Bytes
  import opened DiskState
  import opened FileTree
  import opened FileContent
  import opened InodeService
  import opened FileCommit
  import opened Budget

  datatype Op = WriteOp(src: seq<byte>, offset: nat) | ResizeOp(size: nat)

  /** What is determined about a file: its size, and the bytes that some write has set. */
  datatype Known = Known(size: nat, bytes: map<nat, byte>)

  function Apply(k: Known, op: Op): Known {
    match op
    case WriteOp(src, offset) =>
      var end := offset + |src|;
      var size' := if end > k.size then end else k.size;
      Known(size', map p: nat | p < size' && (p in k.bytes || k.size <= p < offset || offset <= p < end) ::
        if offset <= p < end then src[p - offset]
        else if k.size <= p < offset then 0
        else k.bytes[p])
    case ResizeOp(size) =>
      Known(size, map p: nat | p < size && p in k.bytes :: k.bytes[p])
  }

  function ApplyAll(k: Known, ops: seq<Op>): Known
    decreases |ops|
  {
    if ops == [] then k else Apply(ApplyAll(k, ops[..|ops| - 1]), ops[|ops| - 1])
  }

  ghost predicate Agrees(c: seq<byte>, k: Known) {
    |c| == k.size && forall p: nat :: p in k.bytes ==> p < |c| && c[p] == k.bytes[p]
  }

  /** What the file service promises about the contents for one operation. */
  ghost predicate ContentStep(c: seq<byte>, op: Op, c': seq<byte>) {
    match op
    case WriteOp(src, offset) => c' == Written(c, src, offset)
    case ResizeOp(size) => ResizedContent(c, c', size)
  }

  lemma StepAgrees(c: seq<byte>, k: Known, op: Op, c': seq<byte>)
    requires Agrees(c, k) && ContentStep(c, op, c')
    ensures Agrees(c', Apply(k, op))
  {
  }

  /** Sizes are 64-bit. */
  predicate Permitted(op: Op) {
    match op
    case WriteOp(src, offset) => |src| + offset < TWO_64
    case ResizeOp(size) => size < TWO_64
  }

  /* ---- when the operations succeed ---- */

  /** The operation leaves a file that an inode can hold, and does not look up a missing block. */
  predicate OpFits(bs: nat, size: nat, op: Op)
    requires BlockSize(bs)
  {
    match op
    case WriteOp(src, offset) => WriteFits(bs, size, offset, |src|)
    case ResizeOp(newSize) => newSize <= Capacity(bs)
  }

  /** How many blocks it takes at most. */
  function OpCost(bs: nat, size: nat, op: Op): nat
    requires BlockSize(bs)
  {
    match op
    case WriteOp(src, offset) => WriteCost(bs, size, offset, |src|)
    case ResizeOp(newSize) => ResizeCost(bs, size, newSize)
  }

  predicate OpsFit(bs: nat, k: Known, ops: seq<Op>)
    requires BlockSize(bs)
  {
    forall i :: 0 <= i < |ops| ==> OpFits(bs, ApplyAll(k, ops[..i]).size, ops[i])
  }

  function OpsCost(bs: nat, k: Known, ops: seq<Op>): nat
    requires BlockSize(bs)
    decreases |ops|
  {
    if ops == [] then 0
    else OpsCost(bs, k, ops[..|ops| - 1]) + OpCost(bs, ApplyAll(k, ops[..|ops| - 1]).size, ops[|ops| - 1])
  }

  /** The same cost `n` times over. */
  function Repeated(cost: nat, n: nat): nat {
    if n == 0 then 0 else Repeated(cost, n - 1) + cost
  }

  /** Each operation took at most `cost` blocks besides its own, and all were sure to succeed if they and
      what `fits` stands for fitted and so many blocks were to spare. */
  ghost predicate AllWithin(d: Disk, d': Disk, cost: nat, fits: bool, k: Known, ops: seq<Op>, ok: bool) {
    && d.Shape()
    && Within(d, d', Repeated(cost, |ops|) + OpsCost(d.bs, k, ops), fits && OpsFit(d.bs, k, ops), ok)
  }

  /** What took no block may come first, and what fits may fit for a better reason. */
  lemma WithinBefore(d: Disk, d1: Disk, d': Disk, cost: nat, fits: bool, fits': bool, k: Known, ops: seq<Op>, ok: bool)
    requires d.Shape() && d1.bs == d.bs && Took(d, d1, 0) && (fits' ==> fits)
    requires AllWithin(d1, d', cost, fits, k, ops, ok)
    ensures AllWithin(d, d', cost, fits', k, ops, ok)
  {
    var (all, fit) := (Repeated(cost, |ops|) + OpsCost(d.bs, k, ops), OpsFit(d.bs, k, ops));
    hide Within, Took, Repeated, OpsCost, OpsFit;
    WithinMore(d1, d', all, fits && fit, ok, all, fits' && fit);
    WithinRestBefore(d, d1, d', all, fits' && fit, ok);
  }

  lemma WithinRestBefore(d: Disk, d1: Disk, d': Disk, cost: nat, fits: bool, ok: bool)
    requires Took(d, d1, 0) && Within(d1, d', cost, fits, ok)
    ensures Within(d, d', cost, fits, ok)
  {
    hide Busy;
  }

  lemma NothingToDo(d: Disk, k: Known, cost: nat, fits: bool)
    requires d.Shape()
    ensures AllWithin(d, d, cost, fits, k, [], true)
  {
    NoMoreWithin(d, 0, fits);
  }

  lemma OneMore(cost: nat, n: nat)
    requires 0 < n
    ensures Repeated(cost, n) == Repeated(cost, n - 1) + cost
  {
  }

  lemma OpsFitLast(bs: nat, k: Known, ops: seq<Op>)
    requires BlockSize(bs) && ops != []
    ensures var n := |ops| - 1;
            && (OpsFit(bs, k, ops) <==> OpsFit(bs, k, ops[..n]) && OpFits(bs, ApplyAll(k, ops[..n]).size, ops[n]))
            && OpsCost(bs, k, ops) == OpsCost(bs, k, ops[..n]) + OpCost(bs, ApplyAll(k, ops[..n]).size, ops[n])
  {
    hide OpFits, OpCost, ApplyAll;
    var n := |ops| - 1;
    forall i | 0 <= i < n
      ensures ops[..n][..i] == ops[..i] && ops[..n][i] == ops[i]
    {
    }
  }

  /** All operations but the last one, then the last one, each after `cost` blocks for copying a path. */
  lemma LastWithin(d: Disk, d1: Disk, first: bool, d': Disk, ok: bool, cost: nat, fits: bool, again: bool,
                   k: Known, ops: seq<Op>)
    requires ops != [] && AllWithin(d, d1, cost, fits, k, ops[..|ops| - 1], first)
    requires d1.bs == d.bs && (first && fits ==> again)
    requires var (op, size) := (ops[|ops| - 1], ApplyAll(k, ops[..|ops| - 1]).size);
             if first then Within(d1, d', cost + OpCost(d.bs, size, op), again && OpFits(d.bs, size, op), ok)
             else !ok && d' == d1
    ensures AllWithin(d, d', cost, fits, k, ops, ok)
  {
    hide Within, OpsFit, OpsCost, Repeated, OpCost, OpFits, ApplyAll;
    var n := |ops| - 1;
    assert |ops[..n]| == n;
    var (op, size) := (ops[n], ApplyAll(k, ops[..n]).size);
    var (cost1, fits1) := (Repeated(cost, n) + OpsCost(d.bs, k, ops[..n]), fits && OpsFit(d.bs, k, ops[..n]));
    var (cost2, fits2) := (cost + OpCost(d.bs, size, op), fits && OpFits(d.bs, size, op));
    OpsFitLast(d.bs, k, ops);
    OneMore(cost, |ops|);
    if first {
      WithinMore(d1, d', cost2, again && OpFits(d.bs, size, op), ok, cost2, fits2);
    }
    WithinThen(d, d1, cost1, fits1, first, d', cost2, fits2, ok);
    assert Repeated(cost, |ops|) + OpsCost(d.bs, k, ops) == cost1 + cost2;
    assert fits && OpsFit(d.bs, k, ops) <==> fits1 && fits2;
  }

  /** The disk has room for all the operations, one after the other. */
  ghost predicate Affords(d: Disk, k: Known, ops: seq<Op>)
    requires d.Shape()
  {
    OpsFit(d.bs, k, ops) && Spare(d, OpsCost(d.bs, k, ops))
  }

  lemma {:induction false} CostNext(bs: nat, k: Known, ops: seq<Op>, i: nat)
    requires BlockSize(bs) && i < |ops|
    ensures OpsCost(bs, k, ops[..i + 1]) ==
            OpsCost(bs, k, ops[..i]) + OpCost(bs, ApplyAll(k, ops[..i]).size, ops[i])
    ensures OpsCost(bs, k, ops[..i + 1]) <= OpsCost(bs, k, ops)
    decreases |ops| - i
  {
    assert ops[..i + 1][..i] == ops[..i] && ops[..i + 1][i] == ops[i];
    hide OpCost;
    if i + 1 < |ops| {
      CostNext(bs, k, ops, i + 1);
    } else {
      assert ops[..i + 1] == ops;
    }
  }

  /** Everything is known about a file that has just been read. */
  function Everything(c: seq<byte>): Known {
    Known(|c|, map p: nat | p < |c| :: c[p])
  }

  /** One operation, in whichever mode the volume is mounted. */
  method Perform(service: InodeService, op: Op) returns (ok: bool)
    requires service.volume.Valid() && WellFormed(service.volume.State(), service.ino) && Permitted(op)
    modifies service.volume.Repr()
    ensures service.volume.Valid()
    ensures ok ==> && WellFormed(service.volume.State(), service.ino)
                   && ContentStep(old(Content(service.volume.State(), service.ino)), op,
                                  Content(service.volume.State(), service.ino))
    ensures var (d, size) := (old(service.volume.State()), old(|Content(service.volume.State(), service.ino)|));
            && (ok ==> Took(d, service.volume.State(), OpCost(d.bs, size, op)))
            && (OpFits(d.bs, size, op) && Spare(d, OpCost(d.bs, size, op)) ==> ok)
  {
    hide Took, Spare, WriteCost, ResizeCost, Capacity, EmptyAtEnd, CanGrow, HasRoom, ResizedTree, GaveUp,
         RangeHasRoom;
    ghost var d := service.volume.State();
    ghost var held;
    match op
    case WriteOp(src, offset) =>
      var r;
      r, held := service.Write(src, offset);
      ok := r.Done?;
    case ResizeOp(size) =>
      if Spare(d, ResizeCost(d.bs, SizeOf(d.data[service.ino]), size)) {
        SpareForResize(d, service.ino, size, !service.volume.noCow);
      }
      ok, held := service.Resize(size);
      if ok {
        ResizeTook(d, service.ino, service.volume.State(), size, !service.volume.noCow);
      }
  }

  lemma ApplyNext(k: Known, ops: seq<Op>, i: nat)
    requires i < |ops|
    ensures ApplyAll(k, ops[..i + 1]) == Apply(ApplyAll(k, ops[..i]), ops[i])
  {
    assert ops[..i + 1][..i] == ops[..i] && ops[..i + 1][i] == ops[i];
  }

  /** A sequence of operations, in whichever mode the volume is mounted: the file ends up as the
      operations determine. */
  method PerformAll(service: InodeService, ops: seq<Op>) returns (ok: bool)
    requires service.volume.Valid() && WellFormed(service.volume.State(), service.ino)
    requires forall i :: 0 <= i < |ops| ==> Permitted(ops[i])
    modifies service.volume.Repr()
    ensures service.volume.Valid()
    ensures ok ==> && WellFormed(service.volume.State(), service.ino)
                   && Agrees(Content(service.volume.State(), service.ino),
                             ApplyAll(Everything(old(Content(service.volume.State(), service.ino))), ops))
    ensures var (d, k) := (old(service.volume.State()), Everything(old(Content(service.volume.State(), service.ino))));
            Affords(d, k, ops) ==> ok
  {
    hide WellFormed, Agrees, ContentStep, Apply, Took, Spare, OpCost, OpFits, ApplyAll, Content;
    ghost var d := service.volume.State();
    ghost var start := Everything(Content(service.volume.State(), service.ino));
    ghost var enough := Affords(d, start, ops);
    EverythingAgrees(Content(service.volume.State(), service.ino));
    NothingTook(d, OpsCost(d.bs, start, ops[..0]));
    var i := 0;
    ok := true;
    while ok && i < |ops|
      invariant i <= |ops| && service.volume.Valid()
      invariant ok ==> && WellFormed(service.volume.State(), service.ino)
                       && Agrees(Content(service.volume.State(), service.ino), ApplyAll(start, ops[..i]))
                       && Took(d, service.volume.State(), OpsCost(d.bs, start, ops[..i]))
      invariant enough ==> ok
      decreases |ops| - i
    {
      ghost var c := Content(service.volume.State(), service.ino);
      ghost var d1 := service.volume.State();
      CostNext(d.bs, start, ops, i);
      ghost var (spent, cost) := (OpsCost(d.bs, start, ops[..i]), OpCost(d.bs, |c|, ops[i]));
      AgreesSize(c, ApplyAll(start, ops[..i]));
      if enough {
        SpareLess(d, spent + cost, OpsCost(d.bs, start, ops) - spent - cost);
        StillSpare(d, d1, spent, cost);
      }
      ok := Perform(service, ops[i]);
      if ok {
        StepAgrees(c, ApplyAll(start, ops[..i]), ops[i], Content(service.volume.State(), service.ino));
        ApplyNext(start, ops, i);
        TookTrans(d, d1, service.volume.State(), spent, cost);
      }
      i := i + 1;
    }
    assert ops[..|ops|] == ops;
  }

  lemma AgreesSize(c: seq<byte>, k: Known)
    requires Agrees(c, k)
    ensures |c| == k.size
  {
  }

  lemma EverythingAgrees(c: seq<byte>)
    ensures Agrees(c, ApplyAll(Everything(c), []))
  {
  }

  /** The same operations on files with the same initial contents, on a volume that updates blocks
      in place and on one that copies them: the same size, and the same byte at every position that
      was there at first or that some operation has set. */
  method PerformBoth(inPlace: InodeService, copying: InodeService, ops: seq<Op>) returns (ok: bool)
    requires inPlace.volume.Valid() && WellFormed(inPlace.volume.State(), inPlace.ino) && inPlace.volume.noCow
    requires copying.volume.Valid() && WellFormed(copying.volume.State(), copying.ino) && !copying.volume.noCow
    requires inPlace.volume.Repr() !! copying.volume.Repr()
    requires Content(inPlace.volume.State(), inPlace.ino) == Content(copying.volume.State(), copying.ino)
    requires forall i :: 0 <= i < |ops| ==> Permitted(ops[i])
    modifies inPlace.volume.Repr(), copying.volume.Repr()
    ensures inPlace.volume.Valid() && copying.volume.Valid()
    ensures ok ==> WellFormed(inPlace.volume.State(), inPlace.ino) && WellFormed(copying.volume.State(), copying.ino)
    ensures ok ==> var c0 := old(Content(copying.volume.State(), copying.ino));
                   var (c, c') := (Content(inPlace.volume.State(), inPlace.ino),
                                   Content(copying.volume.State(), copying.ino));
                   && |c| == |c'|
                   && forall p: nat :: p in ApplyAll(Everything(c0), ops).bytes ==> p < |c| && c[p] == c'[p]
    ensures var (d, d') := (old(inPlace.volume.State()), old(copying.volume.State()));
            var k := Everything(old(Content(copying.volume.State(), copying.ino)));
            Affords(d, k, ops) && Affords(d', k, ops) ==> ok
  {
    hide WellFormed, Affords;
    ok := PerformAll(inPlace, ops);
    if ok {
      ok := PerformAll(copying, ops);
    }
  }

  /* ---- which bytes are determined ---- */

  /** Operation `i` writes position `p`, with its data or with the zeros of the hole it leaves. */
  predicate SetBy(k: Known, ops: seq<Op>, i: nat, p: nat) {
    && i < |ops| && ops[i].WriteOp?
    && p < ops[i].offset + |ops[i].src|
    && (ops[i].offset <= p || ApplyAll(k, ops[..i]).size <= p)
  }

  /** From operation `i` on the file never shrinks below position `p`. */
  predicate KeptFrom(ops: seq<Op>, i: nat, p: nat) {
    forall j :: i <= j < |ops| && ops[j].ResizeOp? ==> p < ops[j].size
  }

  ghost predicate Determined(k: Known, ops: seq<Op>, p: nat) {
    || (p in k.bytes && KeptFrom(ops, 0, p))
    || exists i: nat :: SetBy(k, ops, i, p) && KeptFrom(ops, i + 1, p)
  }

  lemma {:induction false} BytesInside(k: Known, ops: seq<Op>)
    requires forall q :: q in k.bytes ==> q < k.size
    ensures forall q :: q in ApplyAll(k, ops).bytes ==> q < ApplyAll(k, ops).size
    decreases |ops|
  {
    if ops != [] {
      BytesInside(k, ops[..|ops| - 1]);
    }
  }

  /** A byte is determined exactly if it was known at first or some write has set it, with data or as
      part of a hole, and the file has not shrunk below it since. */
  lemma {:induction false} DeterminedExactly(k: Known, ops: seq<Op>, p: nat)
    requires forall q :: q in k.bytes ==> q < k.size
    ensures p in ApplyAll(k, ops).bytes <==> Determined(k, ops, p)
    decreases |ops|
  {
    if ops != [] {
      var n := |ops| - 1;
      var before := ops[..n];
      DeterminedExactly(k, before, p);
      BytesInside(k, before);
      DeterminedNext(k, ops, p);
    }
  }

  /** How the last operation changes what is determined. */
  lemma DeterminedNext(k: Known, ops: seq<Op>, p: nat)
    requires ops != []
    ensures var n := |ops| - 1;
            Determined(k, ops, p) <==>
              SetBy(k, ops, n, p) || (Determined(k, ops[..n], p) && (ops[n].ResizeOp? ==> p < ops[n].size))
  {
    var n := |ops| - 1;
    var before := ops[..n];
    forall i: nat | i < n
      ensures SetBy(k, ops, i, p) <==> SetBy(k, before, i, p)
    {
      assert ops[..i] == before[..i];
    }
    forall i: nat | i <= n
      ensures KeptFrom(ops, i, p) <==> KeptFrom(before, i, p) && (ops[n].ResizeOp? ==> p < ops[n].size)
    {
    }
    assert KeptFrom(ops, n + 1, p);
  }
}
