/** How many blocks are in use, and so when the allocator has one more to give. */
module Occupancy {
  import opened Wrappers
  import opened DiskState
  import opened Allocation
  import opened BlockSteps
  import opened Evolution
  import opened FileTree

  /** The blocks that the allocator must not hand out. */
  ghost function Uses(d: Disk): set<nat> {
    set j: nat | j < |d.bits| && d.InUse(j)
  }

  ghost function Below(n: nat): (s: set<nat>)
    ensures |s| == n && forall j: nat :: j in s <==> j < n
  {
    if n == 0 then {} else Below(n - 1) + {n - 1}
  }

  lemma UsesBound(d: Disk)
    ensures |Uses(d)| <= |d.bits|
    ensures |Uses(d)| == |d.bits| <==> forall j: nat :: j < |d.bits| ==> d.InUse(j)
  {
    var all := Below(|d.bits|);
    SubsetSize(Uses(d), all);
    if j: nat :| j < |d.bits| && !d.InUse(j) {
      SubsetSize(Uses(d), all - {j});
    } else {
      assert Uses(d) == all;
    }
  }

  /* ---- allocating ---- */

  /** The allocator has a block to give exactly if not all are in use. What it reclaims on the way
      was not in use. */
  lemma AllocateRoom(d: Disk)
    requires d.Shape()
    ensures Allocate(d).1.Some? <==> |Uses(d)| < |d.bits|
  {
    UsesBound(d);
    AllocateFailsExactlyWhenFull(d);
  }

  lemma AllocateUses(d: Disk, i: nat, t: BlockType)
    requires d.Shape() && Allocate(d).1 == Some(i) && t != Redundancy
    ensures i < |d.bits| && i !in Uses(d)
    ensures Uses(Allocate(d).0.SetType(i, t)) == Uses(d) + {i}
  {
    AllocateNotInUse(d, i);
    AllocateMarks(d, i);
    var d' := Allocate(d).0.SetType(i, t);
    forall j: nat | j < |d.bits| && j != i
      ensures d'.InUse(j) <==> d.InUse(j)
    {
      AllocateKeepsOthers(d, j);
    }
  }

  lemma AllocateNoneUses(d: Disk)
    requires d.Shape() && Allocate(d).1.None?
    ensures Uses(Allocate(d).0) == Uses(d)
  {
    forall j: nat | j < |d.bits|
      ensures Allocate(d).0.InUse(j) <==> d.InUse(j)
    {
      AllocateKeepsOthers(d, j);
    }
  }

  /** Copying a block takes one more. */
  lemma CopyUses(d: Disk, x: nat)
    requires d.Shape() && d.InUse(x)
    ensures CopyOnWrite(d, x).1.Some? <==> |Uses(d)| < |d.bits|
    ensures var (d', r) := CopyOnWrite(d, x);
            if r.None? then Uses(d') == Uses(d)
            else r.value !in Uses(d) && Uses(d') == Uses(d) + {r.value}
  {
    AllocateRoom(d);
    if Allocate(d).1.None? {
      AllocateNoneUses(d);
    } else {
      var n := Allocate(d).1.value;
      AllocateUses(d, n, Storage);
      assert Uses(CopyOnWrite(d, x).0) == Uses(Allocate(d).0.SetType(n, Storage));
    }
  }

  /** A block that a copy has replaced stays in use only for a snapshot. */
  lemma RetireUses(d: Disk, x: nat)
    requires d.InUse(x)
    ensures Uses(d.Retire(x)) == if d.Shared(x) then Uses(d) else Uses(d) - {x}
  {
  }

  /** Moving a block: the copy takes one, the original is given up. */
  lemma RelocateUses(d: Disk, x: nat, n: nat, b: Block, t: BlockType)
    requires d.Shape() && d.InUse(x) && CopyOnWrite(d, x).1 == Some(n) && n < |d.bits|
    requires |b| == d.bs && t != Redundancy
    ensures n !in Uses(d)
    ensures Uses(Replace(CopyOnWrite(d, x).0, n, x, b, t)) ==
            (if d.Shared(x) then Uses(d) else Uses(d) - {x}) + {n}
  {
    CopyUses(d, x);
    CopyOnWriteEvolves(d, x, n);
    var d1 := CopyOnWrite(d, x).0;
    hide CopyOnWrite, Evolves;
    assert n in Uses(d1);
    FillUses(d1, n, b, t, x);
    RetireUses(d1.SetType(n, t).SetData(n, b), x);
  }

  lemma WriteUses(d: Disk, x: nat, b: Block)
    requires x < |d.data|
    ensures Uses(d.SetData(x, b)) == Uses(d)
  {
  }

  lemma FillUses(d: Disk, n: nat, b: Block, t: BlockType, x: nat)
    requires d.InUse(n) && n < |d.data| && t != Redundancy && d.InUse(x) && x != n
    ensures var d' := d.SetType(n, t).SetData(n, b);
            Uses(d') == Uses(d) && d'.InUse(x) && (d'.Shared(x) <==> d.Shared(x))
  {
  }

  /** Block `x` has moved to `n`, or has been written in place. */
  ghost predicate MovedUses(d: Disk, x: nat, d': Disk, n: nat, cow: bool) {
    if cow then n != x && n !in Uses(d) && Uses(d') == (if d.Shared(x) then Uses(d) else Uses(d) - {x}) + {n}
    else n == x && Uses(d') == Uses(d)
  }

  lemma UsesMovedCount(d: Disk, x: nat, d': Disk, n: nat)
    requires |d'.bits| == |d.bits| && x in Uses(d) && MovedUses(d, x, d', n, true)
    ensures |Uses(d')| == |Uses(d)| + if d.Shared(x) then 1 else 0
    ensures |Uses(d)| < |d.bits|
  {
    UsesBound(d);
    assert n in Uses(d');
    assert !d.InUse(n);
    hide Uses;
  }

  /** A block that stays owned stays in use, and shared or not with a snapshot. */
  lemma StillOwned(d: Disk, K: set<nat>, d': Disk, K': set<nat>, ino: int, cow: bool, j: nat)
    requires Evolves(d, K, d', K', ino, cow) && j in K && j in K'
    ensures d.InUse(j) && d'.InUse(j) && (d'.Shared(j) <==> d.Shared(j)) && j in Uses(d')
  {
    assert d.InUse(j);
    assert EvolvesAt(d, K, d', K', ino, cow, j);
  }

  /* ---- copying a range of blocks ---- */

  /** Of the blocks `l[lo..hi]`, those that stay in use for a snapshot when they are copied. */
  ghost function PinnedIn(d: Disk, l: seq<nat>, lo: nat, hi: nat): set<nat> {
    set q: nat | lo <= q < hi && q < |l| && d.Shared(l[q])
  }

  /** With `used` blocks in use at first, each of them finds a block for its copy. */
  ghost predicate RoomToCopy(d: Disk, used: nat, l: seq<nat>, lo: nat, hi: nat) {
    forall q: nat :: lo <= q < hi ==> used + |PinnedIn(d, l, lo, q)| < |d.bits|
  }

  /** The blocks in use after `l[lo..hi]` have been copied, each having found room. */
  ghost predicate UsesCopied(d: Disk, l: seq<nat>, d1: Disk, lo: nat, hi: nat, cow: bool) {
    if cow then |Uses(d1)| == |Uses(d)| + |PinnedIn(d, l, lo, hi)| && RoomToCopy(d, |Uses(d)|, l, lo, hi)
    else |Uses(d1)| == |Uses(d)|
  }

  lemma UsesCopiedNone(d: Disk, l: seq<nat>, lo: nat, cow: bool)
    ensures UsesCopied(d, l, d, lo, lo, cow)
  {
    assert PinnedIn(d, l, lo, lo) == {};
  }

  lemma PinnedInNext(d: Disk, l: seq<nat>, lo: nat, hi: nat)
    requires lo <= hi < |l|
    ensures |PinnedIn(d, l, lo, hi + 1)| == |PinnedIn(d, l, lo, hi)| + if d.Shared(l[hi]) then 1 else 0
  {
    var (now, next) := (PinnedIn(d, l, lo, hi), PinnedIn(d, l, lo, hi + 1));
    assert hi !in now;
    if d.Shared(l[hi]) {
      assert next == now + {hi};
    } else {
      assert next == now;
    }
  }

  lemma UsesCopiedOne(d: Disk, l: seq<nat>, d1: Disk, lo: nat, hi: nat, cow: bool, d2: Disk, n: nat)
    requires UsesCopied(d, l, d1, lo, hi, cow) && lo <= hi < |l|
    requires SameGeometry(d, d1) && SameGeometry(d1, d2) && n < |d1.bits|
    requires l[hi] in Uses(d1) && (d1.Shared(l[hi]) <==> d.Shared(l[hi])) && MovedUses(d1, l[hi], d2, n, cow)
    ensures UsesCopied(d, l, d2, lo, hi + 1, cow)
  {
    hide Uses, PinnedIn;
    PinnedInNext(d, l, lo, hi);
    if cow {
      hide MovedUses;
      UsesMovedCount(d1, l[hi], d2, n);
    }
  }

  lemma UsesCopiedFull(d: Disk, l: seq<nat>, d1: Disk, lo: nat, hi: nat, end: nat, cow: bool)
    requires UsesCopied(d, l, d1, lo, hi, cow) && cow && lo <= hi < end
    requires SameGeometry(d, d1) && |d1.bits| <= |Uses(d1)|
    ensures !RoomToCopy(d, |Uses(d)|, l, lo, end)
  {
    hide Uses, PinnedIn;
  }

  /* ---- giving back ---- */

  ghost predicate InRange(d: Disk, blocks: seq<nat>) {
    forall k :: 0 <= k < |blocks| ==> blocks[k] < |d.bits|
  }

  lemma OwnedInRange(d: Disk, blocks: seq<nat>)
    requires Owns(d, Elems(blocks))
    ensures InRange(d, blocks)
  {
    forall k | 0 <= k < |blocks|
      ensures d.InUse(blocks[k])
    {
      InElems(blocks, k);
    }
  }

  /** What the block manager makes of blocks given back one after the other; block 0 is skipped. */
  ghost function GiveBack(d: Disk, blocks: seq<nat>): (r: Disk)
    requires d.Shape() && InRange(d, blocks)
    ensures SameGeometry(d, r) && r.bits == d.bits && r.data == d.data
    decreases |blocks|
  {
    if blocks == [] then d
    else GiveBack(if blocks[0] != 0 then d.Deallocate(blocks[0]) else d, blocks[1..])
  }

  lemma OtherDeallocated(d: Disk, x: nat, j: nat)
    requires d.Shape() && x < |d.bits| && j < |d.bits| && j != x
    ensures d.Deallocate(x).attr[j] == d.attr[j] && d.Deallocate(x).Deallocate(j).attr[j] == d.Deallocate(j).attr[j]
  {
  }

  lemma {:induction false} GiveBackAt(d: Disk, blocks: seq<nat>, j: nat)
    requires d.Shape() && NoDup(blocks) && j < |d.bits|
    requires InRange(d, blocks)
    ensures GiveBack(d, blocks).attr[j] == if j in blocks && j != 0 then d.Deallocate(j).attr[j] else d.attr[j]
    decreases |blocks|
  {
    hide Elems;
    if blocks != [] {
      var x, rest := blocks[0], blocks[1..];
      assert forall k :: 0 <= k < |rest| ==> rest[k] == blocks[k + 1] && rest[k] != x;
      var d1 := if x != 0 then d.Deallocate(x) else d;
      GiveBackAt(d1, rest, j);
      assert j in blocks <==> j == x || j in rest;
      assert x in blocks;
      if j != x {
        OtherDeallocated(d, x, j);
      }
    }
  }

  /** Of blocks in use, giving them back frees those with a single reference. */
  ghost function Freed(d: Disk, K: set<nat>): set<nat> {
    set j | j in K && j != 0 && j < |d.attr| && d.attr[j].refs <= 1
  }

  lemma GiveBackUses(d: Disk, blocks: seq<nat>)
    requires d.Shape() && NoDup(blocks) && Owns(d, Elems(blocks))
    requires InRange(d, blocks)
    ensures Uses(GiveBack(d, blocks)) == Uses(d) - Freed(d, Elems(blocks))
  {
    var d' := GiveBack(d, blocks);
    forall j: nat | j < |d.bits|
      ensures d'.InUse(j) <==> d.InUse(j) && j !in Freed(d, Elems(blocks))
    {
      GiveBackAt(d, blocks, j);
      assert j in Elems(blocks) <==> j in blocks;
    }
  }

  /** A block given back that stays in use: block 0, untouched, or one with more references, which
      loses one. */
  predicate Survives(d: Disk, j: nat) {
    j == 0 || (j < |d.attr| && 2 <= d.attr[j].refs)
  }

  ghost predicate StillUsed(d: Disk, dropped: seq<nat>, d': Disk) {
    && SameGeometry(d, d')
    && forall j :: j in Elems(dropped) && Survives(d, j) ==>
         && j < |d.bits| && d'.InUse(j)
         && d'.attr[j].status == d.attr[j].status && d'.attr[j].typ == d.attr[j].typ
         && d'.attr[j].refs == if j == 0 then d.attr[j].refs else d.attr[j].refs - 1
  }

  ghost predicate NotAmong(d: Disk, dropped: seq<nat>, K: set<nat>) {
    forall j :: j in Elems(dropped) && Survives(d, j) ==> j !in K
  }

  lemma GiveBackStillUsed(d: Disk, blocks: seq<nat>)
    requires d.Shape() && NoDup(blocks) && Owns(d, Elems(blocks))
    requires InRange(d, blocks)
    ensures StillUsed(d, blocks, GiveBack(d, blocks))
  {
    var d' := GiveBack(d, blocks);
    forall j | j in Elems(blocks) && Survives(d, j)
      ensures j < |d.bits| && d'.InUse(j)
      ensures d'.attr[j].status == d.attr[j].status && d'.attr[j].typ == d.attr[j].typ
      ensures d'.attr[j].refs == if j == 0 then d.attr[j].refs else d.attr[j].refs - 1
    {
      GiveBackAt(d, blocks, j);
    }
  }

  lemma StillUsedOn(d: Disk, dropped: seq<nat>, d1: Disk, K: set<nat>, d2: Disk, K2: set<nat>, ino: int, cow: bool)
    requires StillUsed(d, dropped, d1) && Transfers(d1, K, d2, K2, ino, cow) && NotAmong(d, dropped, K)
    ensures StillUsed(d, dropped, d2) && NotAmong(d, dropped, K2)
  {
    forall j | j in Elems(dropped) && Survives(d, j)
      ensures j !in K2 && d2.InUse(j) && SameAttr(d1, d2, j)
    {
      OthersUntouched(d1, K, d2, K2, ino, cow, j);
    }
  }
}
