/** How many blocks not in use let an operation succeed, whatever is shared with snapshots: each block
    that it may copy or add is counted once. */
module Budget {
  import opened DiskState
  import opened Evolution
  import opened FileTree
  import opened FileContent
  import opened TreeOwnership
  import opened ParentLinks
  import opened Overwrite
  import opened Occupancy
  import opened FileCommit

  /** The blocks in use. Block 0 counts in any case, because it is never given back. */
  ghost function Busy(d: Disk): (s: set<nat>)
  {
    Uses(d) + {0}
  }

  /** There are `n` blocks to spare. */
  ghost predicate Spare(d: Disk, n: nat) {
    |Busy(d)| + n <= |d.bits|
  }

  lemma SpareUses(d: Disk, n: nat)
    requires Spare(d, n)
    ensures |Uses(d)| + n <= |d.bits|
  {
    SubsetSize(Uses(d), Busy(d));
  }

  /** An operation takes at most the blocks that it owns afterwards and did not own before. */
  lemma TransferTakes(d: Disk, K: set<nat>, d': Disk, K': set<nat>, ino: int, cow: bool)
    requires Transfers(d, K, d', K', ino, cow)
    ensures |Busy(d')| <= |Busy(d)| + |K' - K|
  {
    var more := Busy(d) + (K' - K);
    forall j | j in Busy(d')
      ensures j in more
    {
      assert EvolvesAt(d, K, d', K', ino, cow, j) || j == 0;
    }
    SubsetSize(Busy(d'), more);
  }

  /** This took at most `n` blocks. */
  ghost predicate Took(d: Disk, d': Disk, n: nat) {
    |d'.bits| == |d.bits| && |Busy(d')| <= |Busy(d)| + n
  }

  lemma TookTrans(d: Disk, d1: Disk, d2: Disk, n: nat, m: nat)
    requires Took(d, d1, n) && Took(d1, d2, m)
    ensures Took(d, d2, n + m)
  {
    hide Busy;
  }

  lemma SpareLess(d: Disk, n: nat, m: nat)
    requires Spare(d, n + m)
    ensures Spare(d, n)
  {
  }

  /** What is left to spare. */
  lemma StillSpare(d: Disk, d': Disk, n: nat, m: nat)
    requires Took(d, d', n) && Spare(d, n + m)
    ensures Spare(d', m)
  {
    hide Busy;
  }

  /** An operation took at most `cost` blocks, and it was sure to succeed if what it was to store fitted
      and so many blocks were to spare. */
  ghost predicate Within(d: Disk, d': Disk, cost: nat, fits: bool, ok: bool) {
    && (ok ==> Took(d, d', cost))
    && (fits && Spare(d, cost) ==> ok)
  }

  lemma AllocationWithin(d: Disk, d': Disk, ok: bool)
    requires ok <==> |Uses(d)| < |d.bits|
    requires ok ==> Took(d, d', 1)
    ensures Within(d, d', 1, true, ok)
  {
    hide Took, Uses;
    if Spare(d, 1) {
      SpareUses(d, 1);
    }
  }

  /** One operation after the other. */
  lemma WithinThen(d: Disk, d1: Disk, cost1: nat, fits1: bool, ok1: bool, d2: Disk, cost2: nat, fits2: bool, ok2: bool)
    requires Within(d, d1, cost1, fits1, ok1)
    requires if ok1 then Within(d1, d2, cost2, fits2, ok2) else !ok2
    ensures Within(d, d2, cost1 + cost2, fits1 && fits2, ok2)
  {
    hide Busy;
  }

  lemma WithinRest(d: Disk, d1: Disk, cost: nat, fits: bool, d2: Disk)
    requires Within(d, d1, cost, fits, true) && Took(d1, d2, 0)
    ensures Within(d, d2, cost, fits, true)
  {
    hide Busy;
  }

  /** Doing nothing, as a success or as the refusal of what does not fit. */
  lemma NoMoreWithin(d: Disk, cost: nat, fits: bool)
    ensures Within(d, d, cost, fits, true)
  {
  }

  lemma NothingWithin(d: Disk, cost: nat)
    ensures Within(d, d, cost, false, false)
  {
  }

  lemma WithinMore(d: Disk, d': Disk, cost: nat, fits: bool, ok: bool, cost': nat, fits': bool)
    requires Within(d, d', cost, fits, ok) && cost <= cost' && (fits' ==> fits)
    ensures Within(d, d', cost', fits', ok)
  {
    hide Busy;
  }

  /* ---- room for one commit ---- */

  lemma SomePinned(d: Disk, upper: seq<nat>, isNew: seq<bool>, p: nat, u: nat)
    requires 0 < p
    ensures |Pinned(d, upper, isNew, p, u)| <= u
  {
    hide HasNew;
    SubsetSize(Pinned(d, upper, isNew, p, u), Below(u));
  }

  lemma SpareForParents(d: Disk, used: nat, l1: seq<nat>, l2: seq<nat>, new2: seq<bool>, new3: seq<bool>, n1: nat,
                        n2: nat, p: nat)
    requires 0 < p && used + n1 + n2 <= |d.bits|
    ensures RoomToCommit(d, used, l1, l2, new2, new3, n1, n2, p)
  {
    hide HasNew, Pinned, ParentFlags;
    forall u: nat
      ensures |Pinned(d, l2, new3, p, u)| <= u
      ensures |Pinned(d, l1, ParentFlags(new2, new3, p), p, u)| <= u
    {
      SomePinned(d, l2, new3, p, u);
      SomePinned(d, l1, ParentFlags(new2, new3, p), p, u);
    }
  }

  /** The pointer blocks of a file, and all its blocks besides the inode. */
  function ParentBlocks(bs: nat, size: nat): nat
    requires BlockSize(bs)
  {
    Describe(bs, size).n1 + Describe(bs, size).n2
  }

  function FileBlocks(bs: nat, size: nat): nat
    requires BlockSize(bs)
  {
    ParentBlocks(bs, size) + Describe(bs, size).n3
  }

  /* ---- resizing ---- */

  /** For growing a file: the blocks that it lacks, and copies of all its parents. Shrinking it takes
      nothing. */
  function ResizeCost(bs: nat, size: nat, newSize: nat): nat
    requires BlockSize(bs)
  {
    if newSize <= size then 0
    else DescribeMonotone(bs, size, newSize);
         FileBlocks(bs, newSize) - FileBlocks(bs, size) + ParentBlocks(bs, newSize)
  }

  lemma SpareForResize(d: Disk, ino: nat, newSize: nat, cow: bool)
    requires WellFormed(d, ino) && Spare(d, ResizeCost(d.bs, SizeOf(d.data[ino]), newSize))
    ensures HasRoom(d, TreeAt(d, ino), Describe(d.bs, newSize), cow)
  {
    var (t, size, n) := (TreeAt(d, ino), SizeOf(d.data[ino]), Describe(d.bs, newSize));
    hide TreeHeld;
    if newSize <= size {
      DescribeMonotone(d.bs, newSize, size);
      hide Describe;
      ShrinkHasRoom(d, t, n, cow);
    } else {
      DescribeMonotone(d.bs, size, newSize);
      SpareUses(d, ResizeCost(d.bs, size, newSize));
      SubsetSize(Uses(d) - Freed(d, Elems(Dropped(t, n))), Uses(d));
      hide Describe, Uses, Freed;
      SpareForParents(d, UsedWith(d, t, n), t.l1, t.l2, Beyond(|t.l2|, n.n2), Beyond(|t.l3|, n.n3), n.n1, n.n2,
                      Fanout(d.bs));
    }
  }

  /** The tree has the shape of a file of this size. */
  ghost predicate Described(bs: nat, t: Tree, size: nat)
    requires BlockSize(bs)
  {
    Descriptor(|t.l1|, |t.l2|, |t.l3|) == Describe(bs, size)
  }

  lemma {:induction false} ElemsBound(s: seq<nat>)
    ensures |Elems(s)| <= |s|
  {
    if s != [] {
      var rest := s[..|s| - 1];
      ElemsBound(rest);
      forall x | x in Elems(s)
        ensures x in Elems(rest) + {s[|s| - 1]}
      {
        var i :| 0 <= i < |s| && s[i] == x;
        assert i < |rest| ==> rest[i] == x;
      }
      SubsetSize(Elems(s), Elems(rest) + {s[|s| - 1]});
    }
  }

  /** Apart from the parents, the new blocks of a file are among those at positions `lo` to `hi`. */
  lemma NewBlocks(t: Tree, t': Tree, lo: nat, hi: nat)
    requires lo <= hi <= |t'.l3|
    requires forall q :: 0 <= q < |t'.l3| && !(lo <= q < hi) ==> q < |t.l3| && t'.l3[q] == t.l3[q]
    ensures |TreeBlocks(t') - TreeBlocks(t)| <= |t'.l1| + |t'.l2| + hi - lo
  {
    var fresh3 := Elems(t'.l3[lo..hi]);
    forall j | j in Elems(t'.l3) && j !in Elems(t.l3)
      ensures j in fresh3
    {
      var q :| 0 <= q < |t'.l3| && t'.l3[q] == j;
      assert q < |t.l3| ==> t.l3[q] in Elems(t.l3);
      if lo <= q < hi {
        assert t'.l3[lo..hi][q - lo] == j;
      }
    }
    var all := Elems(t'.l1) + Elems(t'.l2) + fresh3;
    ElemsBound(t'.l1);
    ElemsBound(t'.l2);
    ElemsBound(t'.l3[lo..hi]);
    hide Elems;
    SubsetSize(TreeBlocks(t') - TreeBlocks(t), all);
  }

  lemma ResizeTakes(bs: nat, t: Tree, size: nat, newSize: nat, t': Tree)
    requires BlockSize(bs) && Described(bs, t, size) && ResizedTree(t, t', Describe(bs, newSize))
    ensures |TreeBlocks(t') - TreeBlocks(t)| <= ResizeCost(bs, size, newSize)
  {
    var n := Describe(bs, newSize);
    if newSize <= size {
      DescribeMonotone(bs, newSize, size);
      hide Describe;
      assert t' == Prefix(t, n);
      assert TreeBlocks(t') <= TreeBlocks(t);
      assert TreeBlocks(t') - TreeBlocks(t) == {};
    } else {
      DescribeMonotone(bs, size, newSize);
      hide Describe;
      NewBlocks(t, t', |t.l3|, n.n3);
    }
  }

  /* ---- overwriting a range ---- */

  function Touched(bs: nat, offset: nat, n: nat): nat
    requires 0 < bs
  {
    var (lo, hi) := (TouchedStart(bs, offset), TouchedEnd(bs, offset, n));
    if lo <= hi then hi - lo else 0
  }

  /** For overwriting `n` bytes inside a file: copies of the blocks that they touch, and of all parents. */
  function RangeCost(bs: nat, size: nat, offset: nat, n: nat): nat
    requires BlockSize(bs)
  {
    Touched(bs, offset, n) + ParentBlocks(bs, size)
  }

  lemma SomePinnedIn(d: Disk, l: seq<nat>, lo: nat, hi: nat)
    requires lo <= hi
    ensures |PinnedIn(d, l, lo, hi)| <= hi - lo
    decreases hi - lo
  {
    if lo < hi {
      SomePinnedIn(d, l, lo, hi - 1);
      SubsetSize(PinnedIn(d, l, lo, hi), PinnedIn(d, l, lo, hi - 1) + {hi - 1});
    } else {
      assert PinnedIn(d, l, lo, hi) == {};
    }
  }

  lemma SpareForRange(d: Disk, ino: nat, offset: nat, n: nat)
    requires WellFormed(d, ino) && Spare(d, RangeCost(d.bs, SizeOf(d.data[ino]), offset, n))
    ensures RangeHasRoom(d, ino, offset, n)
  {
    var t := TreeAt(d, ino);
    var (lo, hi) := (TouchedStart(d.bs, offset), TouchedEnd(d.bs, offset, n));
    SpareUses(d, RangeCost(d.bs, SizeOf(d.data[ino]), offset, n));
    forall q: nat | lo <= q <= hi
      ensures |PinnedIn(d, t.l3, lo, q)| <= q - lo
    {
      SomePinnedIn(d, t.l3, lo, q);
    }
    if hi < lo {
      assert PinnedIn(d, t.l3, lo, hi) == {};
    }
    hide TreeHeld, Uses, PinnedIn;
    SpareForParents(d, |Uses(d)| + |PinnedIn(d, t.l3, lo, hi)|, t.l1, t.l2, NoneNew(|t.l2|), Span(|t.l3|, lo, hi),
                    |t.l1|, |t.l2|, Fanout(d.bs));
  }

  lemma RangeTakes(bs: nat, t: Tree, size: nat, t': Tree, offset: nat, n: nat)
    requires BlockSize(bs) && Described(bs, t, size)
    requires SameOutside(t, t', TouchedStart(bs, offset), TouchedEnd(bs, offset, n))
    requires TouchedStart(bs, offset) <= TouchedEnd(bs, offset, n) <= |t.l3|
    ensures |TreeBlocks(t') - TreeBlocks(t)| <= RangeCost(bs, size, offset, n)
  {
    NewBlocks(t, t', TouchedStart(bs, offset), TouchedEnd(bs, offset, n));
  }

  lemma BlockTook(d: Disk, d': Disk, n: nat)
    requires Transfers(d, {}, d', {n}, -1, true)
    ensures Took(d, d', 1)
  {
    TransferTakes(d, {}, d', {n}, -1, true);
    hide Busy;
    assert {n} - {} == {n};
  }

  lemma NoBlockTook(d: Disk, K: set<nat>, d': Disk, ino: int)
    requires Transfers(d, K, d', {}, ino, true)
    ensures Took(d, d', 0)
  {
    TransferTakes(d, K, d', {}, ino, true);
    hide Busy;
    assert {} - K == {};
  }

  lemma FitsIfGrown(d: Disk, ino: nat, offset: nat, n: nat, cow: bool)
    requires WellFormed(d, ino) && CanGrow(d, ino, offset + n, cow)
    requires !EmptyAtEnd(SizeOf(d.data[ino]), n, offset, d.bs)
    ensures WriteFits(d.bs, SizeOf(d.data[ino]), offset, n)
  {
    hide HasRoom, TreeHeld, TreeOf, Describe;
    FitsExactly(d.bs, SizeOf(d.data[ino]));
  }

  /** What a file's own operation takes. */
  lemma FileTook(d: Disk, ino: nat, d': Disk, n: nat, cow: bool)
    requires WellFormed(d, ino) && WellFormed(d', ino)
    requires var (K, K') := (TreeBlocks(TreeAt(d, ino)), TreeBlocks(TreeAt(d', ino)));
             Evolves(d, K, d', K', ino, cow) && |K' - K| <= n
    ensures Took(d, d', n)
  {
    TransferTakes(d, TreeBlocks(TreeAt(d, ino)), d', TreeBlocks(TreeAt(d', ino)), ino, cow);
    hide Busy;
  }

  lemma ResizeTook(d: Disk, ino: nat, d': Disk, newSize: nat, cow: bool)
    requires WellFormed(d, ino) && WellFormed(d', ino)
    requires Evolves(d, TreeBlocks(TreeAt(d, ino)), d', TreeBlocks(TreeAt(d', ino)), ino, cow)
    requires ResizedTree(TreeAt(d, ino), TreeAt(d', ino), Describe(d.bs, newSize))
    ensures Took(d, d', ResizeCost(d.bs, SizeOf(d.data[ino]), newSize))
  {
    ResizeTakes(d.bs, TreeAt(d, ino), SizeOf(d.data[ino]), newSize, TreeAt(d', ino));
    hide Describe, ResizeCost, ResizedTree;
    FileTook(d, ino, d', ResizeCost(d.bs, SizeOf(d.data[ino]), newSize), cow);
  }

  lemma RangeTook(d: Disk, ino: nat, d': Disk, offset: nat, n: nat, cow: bool)
    requires WellFormed(d, ino) && WellFormed(d', ino)
    requires Evolves(d, TreeBlocks(TreeAt(d, ino)), d', TreeBlocks(TreeAt(d', ino)), ino, cow)
    requires var (lo, hi) := (TouchedStart(d.bs, offset), TouchedEnd(d.bs, offset, n));
             SameOutside(TreeAt(d, ino), TreeAt(d', ino), lo, hi) && lo <= hi <= |TreeAt(d, ino).l3|
    ensures Took(d, d', RangeCost(d.bs, SizeOf(d.data[ino]), offset, n))
  {
    RangeTakes(d.bs, TreeAt(d, ino), SizeOf(d.data[ino]), TreeAt(d', ino), offset, n);
    hide Describe, RangeCost, SameOutside;
    FileTook(d, ino, d', RangeCost(d.bs, SizeOf(d.data[ino]), offset, n), cow);
  }

  lemma NothingTook(d: Disk, n: nat)
    ensures Took(d, d, n)
  {
  }

  /* ---- writing ---- */

  /** For a write: one within the file only overwrites; any other first grows the file, then overwrites
      the gap, if it leaves one, and then its own range. */
  function WriteCost(bs: nat, size: nat, offset: nat, n: nat): nat
    requires BlockSize(bs)
  {
    var end := offset + n;
    if end <= size then RangeCost(bs, size, offset, n)
    else GrowCost(bs, size, end, offset) + RangeCost(bs, end, offset, n)
  }

  /** An inode can hold the file that this write leaves, and it does not look up a missing block. */
  predicate WriteFits(bs: nat, size: nat, offset: nat, n: nat)
    requires BlockSize(bs)
  {
    offset + n <= Capacity(bs) && !EmptyAtEnd(size, n, offset, bs)
  }

  function GrowCost(bs: nat, size: nat, newSize: nat, offset: nat): nat
    requires BlockSize(bs)
  {
    ResizeCost(bs, size, newSize) + if size < offset then RangeCost(bs, newSize, size, offset - size) else 0
  }

  /** The file reaches to `end` already, or can be made to. */
  ghost predicate CanGrow(d: Disk, ino: nat, end: nat, cow: bool)
    requires WellFormed(d, ino)
  {
    end <= SizeOf(d.data[ino]) || (end <= Capacity(d.bs) && HasRoom(d, TreeAt(d, ino), Describe(d.bs, end), cow))
  }
}
