/** What committing the blocks of a file to its pointer tree achieves, after a resize and after an
    overwrite. */
module FileCommit {
  import opened Arithmetic
  import opened Bytes
  import opened DiskState
  import opened Evolution
  import opened FileTree
  import opened FileContent
  import opened TreeOwnership
  import opened ParentLinks
  import opened Overwrite
  import opened Occupancy

  /** The pointers a file is to have, level by level, each flagged when it is new. */
  datatype AllocationMap = AllocationMap(tree: Tree, new1: seq<bool>, new2: seq<bool>, new3: seq<bool>)

  /** After reallocation exactly the pointers beyond the old lengths are missing from their parents. */
  lemma ReallocatedIsCommittable(d: Disk, ino: nat, n: Descriptor, d1: Disk, m: AllocationMap)
    requires WellFormed(d, ino) && SameGeometry(d, d1) && d1.data == d.data
    requires Reallocated(TreeAt(d, ino), n, m)
    requires n.n2 == CeilDiv(Fanout(d.bs), n.n3) && n.n1 == CeilDiv(Fanout(d.bs), n.n2) && n.n1 <= Slots(d.bs)
    ensures Committable(d1, m)
  {
    var t := TreeAt(d, ino);
    LinksOfTree(d, d.data[ino]);
    LevelLinked(d, d1, t.l2, t.l3, m.tree.l2, m.tree.l3, m.new2, m.new3, n.n2, n.n3);
    LevelLinked(d, d1, t.l1, t.l2, m.tree.l1, m.tree.l2, m.new1, m.new2, n.n1, n.n2);
  }

  lemma LevelLinked(d: Disk, d1: Disk, upper: seq<nat>, lower: seq<nat>, upper': seq<nat>, lower': seq<nat>,
                    newUpper: seq<bool>, newLower: seq<bool>, nUpper: nat, nLower: nat)
    requires SameGeometry(d, d1) && d1.data == d.data
    requires Linked(d, upper, lower) && |upper| == CeilDiv(Fanout(d.bs), |lower|)
    requires LevelReallocated(upper, upper', newUpper, nUpper) && LevelReallocated(lower, lower', newLower, nLower)
    requires nUpper == CeilDiv(Fanout(d.bs), nLower)
    ensures LinkedUpTo(d1, upper', lower', newLower, 0)
  {
    forall k: nat | k < |lower'| && !newLower[k]
      ensures PtrAt(d1, upper', k) == lower'[k]
    {
      QuotCell(Fanout(d.bs), |lower|, k);
      QuotCell(Fanout(d.bs), nLower, k);
      PtrAtFrame(d, upper, d1, upper', k);
    }
  }

  lemma ResizeDone(d: Disk, d1: Disk, m: AllocationMap, d2: Disk, t: Tree, d3: Disk, newSize: nat, ino: nat, cow: bool)
    requires WellFormed(d, ino) && SameGeometry(d, d1) && d1.data == d.data
    requires Fits(d.bs, newSize) && Reallocated(TreeAt(d, ino), Describe(d.bs, newSize), m)
    requires Committed(d1, m, d2, t, ino, cow) && d2.InUse(ino) && d2.attr[ino].typ == IndexNode
    requires InodeWritten(d2, d3, ino, cow) && SizeOf(d3.data[ino]) == newSize
    requires forall k: nat :: k < Slots(d.bs) ==> SlotAt(d3.data[ino], k) == SlotAt(d2.data[ino], k)
    requires Evolves(d, TreeBlocks(TreeAt(d, ino)), d2, TreeBlocks(t), ino, cow)
    ensures WellFormed(d3, ino) && TreeAt(d3, ino) == t
    ensures Evolves(d, TreeBlocks(TreeAt(d, ino)), d3, TreeBlocks(t), ino, cow)
    ensures ResizedContent(Content(d, ino), Content(d3, ino), newSize)
    ensures ResizedTree(TreeAt(d, ino), t, Describe(d.bs, newSize))
  {
    hide TreeHeld, ParentsMoved, KeepsAccount, TreeBlocks, SameData;
    var t0 := TreeAt(d, ino);
    ResizedTreeCommitted(t0, Describe(d.bs, newSize), m, t, Fanout(d.bs), cow);
    SlotsRecorded(d, TreeBlocks(t0), d2, t, d3, ino, cow);
    TreeFromLinks(d3, d3.data[ino], t);
    SameDataTrans(d1, d2, d3, t.l3);
    forall p: nat | p < newSize && p < SizeOf(d.data[ino])
      ensures ByteAt(d3, t.l3, p) == ByteAt(d, t0.l3, p)
    {
      QuotCell(d.bs, newSize, p);
      QuotCell(d.bs, SizeOf(d.data[ino]), p);
    }
  }

  /** A resize keeps the level-3 pointers that both sizes need. When no level gets longer, no parent
      is rewritten: every level just loses what is beyond its new length. */
  ghost predicate ResizedTree(t: Tree, t': Tree, n: Descriptor) {
    && |t'.l1| == n.n1 && |t'.l2| == n.n2 && |t'.l3| == n.n3
    && (forall k :: 0 <= k < |t.l3| && k < n.n3 ==> t'.l3[k] == t.l3[k])
    && (n.n1 <= |t.l1| && n.n2 <= |t.l2| && n.n3 <= |t.l3| ==> t' == Prefix(t, n))
  }

  lemma ResizedTreeCommitted(t: Tree, n: Descriptor, m: AllocationMap, t': Tree, p: nat, cow: bool)
    requires Reallocated(t, n, m) && |t'.l1| == n.n1 && |t'.l2| == n.n2 && t'.l3 == m.tree.l3
    requires ParentsMoved(m, t', p, cow)
    ensures ResizedTree(t, t', n)
  {
    if n.n1 <= |t.l1| && n.n2 <= |t.l2| && n.n3 <= |t.l3| {
      var flags2 := Flags(m.new2, m.tree.l2, t'.l2);
      NothingMoved(m.tree.l2, m.new2, t'.l2, flags2, m.new3, p, n.n2, cow);
      NothingMoved(m.tree.l1, m.new1, t'.l1, Flags(m.new1, m.tree.l1, t'.l1), flags2, p, n.n1, cow);
      assert t' == m.tree;
      assert m.tree.l1 == Keep(t.l1, n.n1) && m.tree.l2 == Keep(t.l2, n.n2) && m.tree.l3 == Keep(t.l3, n.n3);
    }
  }

  /** The blocks obtained, with the disk otherwise as it was. */
  ghost predicate Obtained(d: Disk, d': Disk, blocks: seq<nat>, typ: BlockType) {
    && d'.data == d.data && |Uses(d')| == |Uses(d)| + |blocks|
    && NoDup(blocks) && Typed(d', blocks, typ)
    && Evolves(d, {}, d', Elems(blocks), -1, true)
  }

  lemma NothingObtained(d: Disk, typ: BlockType)
    requires d.Shape()
    ensures Obtained(d, d, [], typ)
  {
    EvolvesRefl(d, {}, -1, true);
    assert Elems([]) == {};
  }

  lemma ObtainedMeans(d: Disk, d': Disk, blocks: seq<nat>, typ: BlockType)
    requires Obtained(d, d', blocks, typ)
    ensures d'.data == d.data && |Uses(d')| == |Uses(d)| + |blocks| <= |d.bits| == |d'.bits|
    ensures NoDup(blocks) && Typed(d', blocks, typ) && Evolves(d, {}, d', Elems(blocks), -1, true)
  {
    UsesBound(d');
  }

  lemma ObtainedNoMore(d: Disk, d1: Disk, blocks: seq<nat>, d2: Disk, typ: BlockType)
    requires Obtained(d, d1, blocks, typ) && d2.data == d1.data
    requires Evolves(d1, {}, d2, {}, -1, true) && Uses(d2) == Uses(d1)
    ensures Obtained(d, d2, blocks, typ)
  {
    OwnMore(d, {}, d1, blocks, d2, {}, typ);
    assert Elems(blocks) + {} == Elems(blocks);
  }

  lemma ObtainedOneMore(d: Disk, d1: Disk, blocks: seq<nat>, d2: Disk, n: nat, typ: BlockType)
    requires Obtained(d, d1, blocks, typ) && d2.data == d1.data
    requires Evolves(d1, {}, d2, {n}, -1, true) && Uses(d2) == Uses(d1) + {n} && n !in Uses(d1)
    requires n < |d2.attr| && d2.attr[n].typ == typ
    ensures Obtained(d, d2, blocks + [n], typ)
  {
    hide Uses, EvolvesAt, KeepsAccount;
    OwnMore(d, {}, d1, blocks, d2, {n}, typ);
    AppendElem(blocks, n);
    forall k | 0 <= k < |blocks|
      ensures blocks[k] != n
    {
      InElems(blocks, k);
    }
  }

  /** How many pointers are missing to the lengths `n`. */
  function Missing(t: Tree, n: Descriptor): nat {
    (if |t.l1| < n.n1 then n.n1 - |t.l1| else 0)
    + (if |t.l2| < n.n2 then n.n2 - |t.l2| else 0)
    + (if |t.l3| < n.n3 then n.n3 - |t.l3| else 0)
  }

  /** How many blocks are in use once the levels have been brought to the lengths `n`. */
  ghost function UsedWith(d: Disk, t: Tree, n: Descriptor): nat {
    |Uses(d) - Freed(d, Elems(Dropped(t, n)))| + Missing(t, n)
  }

  lemma DroppedUses(d: Disk, ino: nat, t: Tree, n: Descriptor)
    requires d.Shape() && TreeHeld(d, ino, t) && InRange(d, Dropped(t, n))
    ensures |Uses(GiveBack(d, Dropped(t, n)))| + Missing(Prefix(t, n), n) == UsedWith(d, t, n)
  {
    SplitTree(d, ino, t, n);
    GiveBackUses(d, Dropped(t, n));
    hide Uses, Freed;
    assert Missing(Prefix(t, n), n) == Missing(t, n);
  }

  /** These blocks have been given up: one with a single reference is free for reuse, any other has
      lost one. Block 0 is left as it was. */
  ghost predicate GaveUp(d: Disk, dropped: seq<nat>, d': Disk) {
    && StillUsed(d, dropped, d')
    && forall j :: j in Elems(dropped) && !Survives(d, j) ==> !d'.InUse(j)
  }

  lemma DroppedStillUsed(d: Disk, ino: nat, t: Tree, n: Descriptor, d1: Disk, d2: Disk, K2: set<nat>, written: int,
                         cow: bool)
    requires d.Shape() && TreeHeld(d, ino, t)
    requires InRange(d, Dropped(t, n)) && d1 == GiveBack(d, Dropped(t, n))
    requires Evolves(d1, TreeBlocks(Prefix(t, n)), d2, K2, written, cow)
    ensures StillUsed(d, Dropped(t, n), d2) && NotAmong(d, Dropped(t, n), K2)
  {
    SplitTree(d, ino, t, n);
    GiveBackStillUsed(d, Dropped(t, n));
    StillUsedOn(d, Dropped(t, n), d1, TreeBlocks(Prefix(t, n)), d2, K2, written, cow);
  }

  lemma ShrinkGivesUp(d: Disk, ino: nat, t: Tree, n: Descriptor, d': Disk, cow: bool)
    requires d.Shape() && TreeHeld(d, ino, t)
    requires Evolves(d, TreeBlocks(t), d', TreeBlocks(Prefix(t, n)), ino, cow) && StillUsed(d, Dropped(t, n), d')
    ensures GaveUp(d, Dropped(t, n), d')
  {
    SplitTree(d, ino, t, n);
    var (dropped, K, K') := (Dropped(t, n), TreeBlocks(t), TreeBlocks(Prefix(t, n)));
    hide Dropped, Prefix, TreeBlocks, KeepsAccount, StillUsed;
    forall j | j in Elems(dropped) && !Survives(d, j)
      ensures !d'.InUse(j)
    {
      assert d.InUse(j) && j !in K';
      assert EvolvesAt(d, K, d', K', ino, cow, j);
    }
  }

  /** What a level gained is in no level of the tree before. */
  lemma GainedBlocks(d: Disk, ino: nat, t: Tree, t': Tree, n: Descriptor)
    requires TreeHeld(d, ino, t') && Longer(t, t', n)
    ensures forall v :: |t.l1| <= v < n.n1 ==> t'.l1[v] !in TreeBlocks(t)
    ensures forall v :: |t.l2| <= v < n.n2 ==> t'.l2[v] !in TreeBlocks(t)
  {
    forall j | j in Elems(t.l1)
      ensures exists k :: 0 <= k < |t.l1| && t'.l1[k] == j
    {
    }
    forall j | j in Elems(t.l2)
      ensures exists k :: 0 <= k < |t.l2| && t'.l2[k] == j
    {
    }
    forall j | j in Elems(t.l3)
      ensures j in Elems(t'.l3)
    {
    }
    forall v | |t.l1| <= v < n.n1
      ensures t'.l1[v] !in TreeBlocks(t)
    {
      InElems(t'.l1, v);
    }
    forall v | |t.l2| <= v < n.n2
      ensures t'.l2[v] !in TreeBlocks(t)
    {
      InElems(t'.l2, v);
    }
  }

  lemma PinnedLevel(d: Disk, l: seq<nat>, n: nat, K: set<nat>, d1: Disk, K1: set<nat>, d2: Disk, l2: seq<nat>,
                    K2: set<nat>)
    requires Transfers(d, K, d1, K1, -1, true) && Transfers(d1, K1, d2, K2, -1, true)
    requires Keep(l, n) <= l2 && |l2| == n
    requires Elems(l) <= K && Elems(Keep(l, n)) <= K1 && Elems(l2) <= K2
    requires forall v :: |Keep(l, n)| <= v < n ==> l2[v] !in K1
    ensures PinnedSame(d, l, d2, l2)
  {
    forall v: nat | v < |l2|
      ensures d2.Shared(l2[v]) <==> v < |l| && d.Shared(l[v])
    {
      InElems(l2, v);
      assert d2.InUse(l2[v]);
      assert EvolvesAt(d1, K1, d2, K2, -1, true, l2[v]);
      if v < |l| {
        InElems(l, v);
        InElems(Keep(l, n), v);
        assert EvolvesAt(d, K, d1, K1, -1, true, l[v]);
      }
    }
  }

  /** After the levels have been cut and extended, the parents shared with a snapshot are the old
      ones that were. */
  lemma PinnedAfterGrowth(d: Disk, ino: nat, t: Tree, n: Descriptor, d1: Disk, d2: Disk, t2: Tree)
    requires TreeHeld(d, ino, t) && TreeHeld(d2, ino, t2) && Longer(Prefix(t, n), t2, n)
    requires Evolves(d, TreeBlocks(t), d1, TreeBlocks(Prefix(t, n)), -1, true)
    requires Evolves(d1, TreeBlocks(Prefix(t, n)), d2, TreeBlocks(t2), -1, true)
    ensures PinnedSame(d, t.l1, d2, t2.l1) && PinnedSame(d, t.l2, d2, t2.l2)
  {
    var (K, K1, K2) := (TreeBlocks(t), TreeBlocks(Prefix(t, n)), TreeBlocks(t2));
    GainedBlocks(d2, ino, Prefix(t, n), t2, n);
    hide TreeHeld, EvolvesAt, KeepsAccount;
    PinnedLevel(d, t.l1, n.n1, K, d1, K1, d2, t2.l1, K2);
    PinnedLevel(d, t.l2, n.n2, K, d1, K1, d2, t2.l2, K2);
  }

  /** What a commit needs: the levels have matching lengths, and every pointer not yet stored in
      its parent is flagged as new. */
  ghost predicate Committable(d: Disk, m: AllocationMap) {
    && d.Shape()
    && |m.new1| == |m.tree.l1| && |m.new2| == |m.tree.l2| && |m.new3| == |m.tree.l3|
    && |m.tree.l2| == CeilDiv(Fanout(d.bs), |m.tree.l3|)
    && |m.tree.l1| == CeilDiv(Fanout(d.bs), |m.tree.l2|)
    && |m.tree.l1| <= Slots(d.bs)
    && LinkedUpTo(d, m.tree.l2, m.tree.l3, m.new3, 0)
    && LinkedUpTo(d, m.tree.l1, m.tree.l2, m.new2, 0)
  }

  /** A commit moves exactly the parents of new children, and then their parents. */
  ghost predicate ParentsMoved(m: AllocationMap, t: Tree, p: nat, cow: bool)
    requires |t.l2| == |m.tree.l2| == |m.new2|
  {
    && 0 < p
    && Relocated(m.tree.l2, t.l2, m.new3, p, |t.l2|, cow)
    && Relocated(m.tree.l1, t.l1, Flags(m.new2, m.tree.l2, t.l2), p, |t.l1|, cow)
  }

  /** The flags that a commit with copy-on-write leaves on the level-2 blocks: new, or moved for a new
      child. */
  ghost function ParentFlags(new2: seq<bool>, new3: seq<bool>, p: nat): (flags: seq<bool>)
    requires 0 < p
    ensures |flags| == |new2|
  {
    seq(|new2|, u requires 0 <= u < |new2| => new2[u] || HasNew(new3, p, u))
  }

  /** With `used` blocks in use at first, every parent that a commit moves finds room. `l1` and `l2`
      need to be right only where blocks are shared with a snapshot. */
  ghost predicate RoomToCommit(d: Disk, used: nat, l1: seq<nat>, l2: seq<nat>, new2: seq<bool>, new3: seq<bool>,
                               n1: nat, n2: nat, p: nat)
    requires 0 < p
  {
    && RoomToMove(d, used, l2, new3, p, n2)
    && RoomToMove(d, used + |Pinned(d, l2, new3, p, n2)|, l1, ParentFlags(new2, new3, p), p, n1)
  }

  ghost predicate MapHasRoom(d: Disk, m: AllocationMap)
    requires d.Shape()
  {
    RoomToCommit(d, |Uses(d)|, m.tree.l1, m.tree.l2, m.new2, m.new3, |m.tree.l1|, |m.tree.l2|, Fanout(d.bs))
  }

  lemma FirstLevelFails(d: Disk, m: AllocationMap, cow: bool)
    requires d.Shape() && NoRoom(d, m.tree.l2, m.new3, cow)
    ensures cow && !MapHasRoom(d, m)
  {
  }

  lemma InodeKept(d: Disk, ino: nat, d': Disk, K': set<nat>)
    requires WellFormed(d, ino) && Evolves(d, TreeBlocks(TreeAt(d, ino)), d', K', -1, true)
    ensures d'.InUse(ino) && d'.attr[ino].typ == IndexNode
  {
    OthersUntouched(d, TreeBlocks(TreeAt(d, ino)), d', K', -1, true, ino);
  }

  lemma TypeKept(d: Disk, K: set<nat>, d': Disk, K': set<nat>, ino: nat, cow: bool)
    requires Evolves(d, K, d', K', ino, cow) && d.InUse(ino) && ino !in K
    ensures d'.InUse(ino) && d'.attr[ino].typ == d.attr[ino].typ
  {
    OthersUntouched(d, K, d', K', ino, cow, ino);
  }

  /** Both levels have been recorded, the inode not yet. */
  ghost predicate LevelsRecorded(d: Disk, m: AllocationMap, d': Disk, l1: seq<nat>, l2: seq<nat>, ino: nat, cow: bool) {
    var t := Tree(l1, l2, m.tree.l3);
    && SameGeometry(d, d') && ino < |d.bits| && |m.new2| == |m.tree.l2|
    && TreeHeld(d', ino, t)
    && |l1| == |m.tree.l1| && |l2| == |m.tree.l2| && ParentsMoved(m, t, Fanout(d.bs), cow)
    && Linked(d', l1, l2) && Linked(d', l2, m.tree.l3)
    && d'.data[ino] == d.data[ino] && SameData(d, d', m.tree.l3)
  }

  lemma BothLevelsRecorded(d: Disk, m: AllocationMap, d1: Disk, d2: Disk, l1: seq<nat>, l2: seq<nat>,
                           flags1: seq<bool>, flags2: seq<bool>, ino: nat, cow: bool)
    requires SameGeometry(d, d1) && SameGeometry(d1, d2) && ino < |d.bits|
    requires Moved(m.tree.l2, m.new2, l2, flags2, m.new3, Fanout(d.bs), |m.tree.l2|, cow)
    requires Moved(m.tree.l1, m.new1, l1, flags1, flags2, Fanout(d.bs), |m.tree.l1|, cow)
    requires TreeHeld(d2, ino, Tree(l1, l2, m.tree.l3)) && Linked(d2, l1, l2) && Linked(d2, l2, m.tree.l3)
    requires d1.data[ino] == d.data[ino] && d2.data[ino] == d1.data[ino]
    requires SameData(d, d1, m.tree.l3) && SameData(d1, d2, m.tree.l3)
    ensures LevelsRecorded(d, m, d2, l1, l2, ino, cow)
  {
    SameDataTrans(d, d1, d2, m.tree.l3);
  }

  /** The second level of a commit. */
  lemma CommitRoom(d: Disk, m: AllocationMap, d1: Disk, l2: seq<nat>, flags2: seq<bool>, ino: nat, cow: bool)
    requires TreeHeld(d, ino, m.tree) && d.Shape() && |m.new2| == |m.tree.l2| == |l2|
    requires Evolves(d, Elems(m.tree.l2), d1, Elems(l2), ino, cow)
    requires UsesMoved(d, m.tree.l2, d1, m.new3, |m.tree.l2|, cow)
    requires Moved(m.tree.l2, m.new2, l2, flags2, m.new3, Fanout(d.bs), |m.tree.l2|, cow)
    ensures cow ==> (!NoRoom(d1, m.tree.l1, flags2, cow) <==> MapHasRoom(d, m))
    ensures !cow ==> !NoRoom(d1, m.tree.l1, flags2, cow)
  {
    if !cow {
      return;
    }
    var p := Fanout(d.bs);
    assert flags2 == ParentFlags(m.new2, m.new3, p);
    forall v: nat | v < |m.tree.l1|
      ensures d1.Shared(m.tree.l1[v]) <==> d.Shared(m.tree.l1[v])
    {
      InElems(m.tree.l1, v);
      OthersUntouched(d, Elems(m.tree.l2), d1, Elems(l2), ino, cow, m.tree.l1[v]);
    }
    hide HasNew, Uses, Pinned, RoomToMove, TreeHeld, ParentFlags;
    var used := |Uses(d)| + |Pinned(d, m.tree.l2, m.new3, p, |l2|)|;
    RoomEqual(d, used, m.tree.l1, d1, m.tree.l1, flags2, p);
  }

  /** A file can be brought to the lengths `n`: the blocks not in use, and those freed, cover the
      missing pointers; and with copy-on-write there also is room for moving the parents. */
  ghost predicate HasRoom(d: Disk, t: Tree, n: Descriptor, cow: bool)
    requires d.Shape()
  {
    && UsedWith(d, t, n) <= |d.bits|
    && (cow ==> RoomToCommit(d, UsedWith(d, t, n), t.l1, t.l2, Beyond(|t.l2|, n.n2), Beyond(|t.l3|, n.n3), n.n1, n.n2,
                             Fanout(d.bs)))
  }

  /** Which of `n` pointers are new when there were `was`. */
  function Beyond(was: nat, n: nat): (flags: seq<bool>)
    ensures |flags| == n && forall k :: 0 <= k < n ==> (flags[k] <==> k >= was)
  {
    seq(n, k => k >= was)
  }

  lemma ReallocatedRoom(d: Disk, t: Tree, n: Descriptor, d1: Disk, m: AllocationMap, used: nat)
    requires d.Shape() && SameGeometry(d, d1) && Reallocated(t, n, m)
    requires PinnedSame(d, t.l1, d1, m.tree.l1) && PinnedSame(d, t.l2, d1, m.tree.l2)
    ensures RoomToCommit(d1, used, m.tree.l1, m.tree.l2, m.new2, m.new3, |m.tree.l1|, |m.tree.l2|, Fanout(d.bs)) <==>
            RoomToCommit(d, used, t.l1, t.l2, Beyond(|t.l2|, n.n2), Beyond(|t.l3|, n.n3), n.n1, n.n2, Fanout(d.bs))
  {
    var p := Fanout(d.bs);
    assert m.new2 == Beyond(|t.l2|, n.n2) && m.new3 == Beyond(|t.l3|, n.n3);
    hide HasNew, Pinned, RoomToMove, ParentFlags, PinnedSame;
    PinnedEqual(d, t.l2, d1, m.tree.l2, m.new3, p, n.n2);
    RoomEqual(d, used, t.l2, d1, m.tree.l2, m.new3, p);
    RoomEqual(d, used + |Pinned(d, t.l2, m.new3, p, n.n2)|, t.l1, d1, m.tree.l1, ParentFlags(m.new2, m.new3, p), p);
  }

  /** Shrinking needs no room. */
  lemma ShrinkHasRoom(d: Disk, t: Tree, n: Descriptor, cow: bool)
    requires d.Shape() && n.n1 <= |t.l1| && n.n2 <= |t.l2| && n.n3 <= |t.l3|
    ensures HasRoom(d, t, n, cow)
  {
    var p := Fanout(d.bs);
    var (new2, new3) := (Beyond(|t.l2|, n.n2), Beyond(|t.l3|, n.n3));
    UsesBound(d);
    SubsetSize(Uses(d) - Freed(d, Elems(Dropped(t, n))), Uses(d));
    assert forall u: nat :: !HasNew(new3, p, u);
    assert forall u: nat :: !HasNew(ParentFlags(new2, new3, p), p, u);
  }

  lemma TreeUnchanged(d: Disk, ino: nat, cow: bool)
    requires WellFormed(d, ino)
    ensures Evolves(d, TreeBlocks(TreeAt(d, ino)), d, TreeBlocks(TreeAt(d, ino)), ino, cow)
  {
    EvolvesRefl(d, TreeBlocks(TreeAt(d, ino)), ino, cow);
  }

  lemma RoomForBlocks(d: Disk, t: Tree, n: Descriptor, cow: bool)
    requires d.Shape() && HasRoom(d, t, n, cow)
    ensures UsedWith(d, t, n) <= |d.bits|
  {
  }

  lemma SameHasRoom(d: Disk, t: Tree, n: Descriptor, cow: bool)
    requires d.Shape() && n.n1 == |t.l1| && n.n2 == |t.l2| && n.n3 == |t.l3|
    ensures HasRoom(d, t, n, cow) && UsedWith(d, t, n) <= |d.bits|
  {
    ShrinkHasRoom(d, t, n, cow);
  }

  /** All blocks of a file have been given back, while no byte on the disk has changed: the inode still
      points at them. */
  ghost predicate GivenBack(d: Disk, ino: nat, d': Disk)
    requires WellFormed(d, ino)
  {
    Evolves(d, TreeBlocks(TreeAt(d, ino)), d', {}, -1, true) && d'.data == d.data
  }

  /** Such a file is lost, unless it had no block with a single reference besides block 0. */
  lemma LostFile(d: Disk, ino: nat, d': Disk)
    requires WellFormed(d, ino) && GivenBack(d, ino, d')
    requires exists j :: j in TreeBlocks(TreeAt(d, ino)) && j != 0 && d.attr[j].refs <= 1
    ensures !WellFormed(d', ino)
  {
    var t := TreeAt(d, ino);
    var j :| j in TreeBlocks(t) && j != 0 && d.attr[j].refs <= 1;
    assert d.InUse(j);
    assert EvolvesAt(d, TreeBlocks(t), d', {}, -1, true, j);
    assert SameData(d, d', t.l1) && SameData(d, d', t.l2) && SameData(d, d', t.l3);
    FileFrame(d, d', d.data[ino]);
  }

  /** What a commit achieves: the level-3 list is kept with its data, and reading back through
      the inode block finds it under the possibly relocated parents. */
  ghost predicate Committed(d: Disk, m: AllocationMap, d': Disk, t: Tree, ino: nat, cow: bool) {
    && SameGeometry(d, d') && ino < |d.bits| && d.Shape() && |m.new2| == |m.tree.l2|
    && TreeHeld(d', ino, t)
    && t.l3 == m.tree.l3 && |t.l2| == |m.tree.l2| && |t.l1| == |m.tree.l1|
    && ParentsMoved(m, t, Fanout(d.bs), cow)
    && Linked(d', t.l1, t.l2) && Linked(d', t.l2, t.l3)
    && |t.l1| <= Slots(d.bs)
    && (forall k: nat :: k < |t.l1| ==> SlotAt(d'.data[ino], k) == t.l1[k])
    && SizeOf(d'.data[ino]) == SizeOf(d.data[ino]) && StatRest(d'.data[ino]) == StatRest(d.data[ino])
    && SameData(d, d', t.l3)
  }

  /** Only the inode block was written, in place. */
  ghost predicate InodeWritten(d: Disk, d': Disk, ino: nat, cow: bool) {
    && SameGeometry(d, d') && ino < |d.bits|
    && d'.data == d.data[ino := d'.data[ino]] && d'.attr == d.attr && d'.bits == d.bits
    && StatRest(d'.data[ino]) == StatRest(d.data[ino])
    && Evolves(d, {}, d', {}, ino, cow)
  }

  lemma PutStatRest(img: Block, off: nat, src: seq<byte>)
    requires 512 <= |img| && off + |src| <= |img|
    requires STAT_SIZE <= off || (off == SIZE_OFFSET && |src| == WORD)
    ensures StatRest(Put(img, off, src)) == StatRest(img)
  {
    var img' := Put(img, off, src);
    assert img'[..SIZE_OFFSET] == img[..SIZE_OFFSET];
    assert img'[SIZE_OFFSET + WORD..STAT_SIZE] == img[SIZE_OFFSET + WORD..STAT_SIZE];
  }

  lemma SlotPut(img: Block, k: nat, v: nat)
    requires STAT_SIZE + WORD * k + WORD <= |img| && 512 <= |img| && v < TWO_64
    ensures var img' := Put(img, STAT_SIZE + WORD * k, WordBytes(v));
            && SizeOf(img') == SizeOf(img) && StatRest(img') == StatRest(img) && SlotAt(img', k) == v
            && forall j: nat :: j < k ==> SlotAt(img', j) == SlotAt(img, j)
  {
    var off := STAT_SIZE + WORD * k;
    GetPutSame(img, off, v);
    GetPutOther(img, off, WordBytes(v), SIZE_OFFSET);
    PutStatRest(img, off, WordBytes(v));
    forall j: nat | j < k
      ensures SlotAt(Put(img, off, WordBytes(v)), j) == SlotAt(img, j)
    {
      GetPutOther(img, off, WordBytes(v), STAT_SIZE + WORD * j);
    }
  }

  lemma TreePointersFit(d: Disk, ino: nat, t: Tree)
    requires d.Shape() && TreeHeld(d, ino, t)
    ensures forall k :: 0 <= k < |t.l1| ==> t.l1[k] < TWO_64
    ensures forall k :: 0 <= k < |t.l2| ==> t.l2[k] < TWO_64
    ensures forall k :: 0 <= k < |t.l3| ==> t.l3[k] < TWO_64
    ensures ino !in Elems(t.l1) && ino !in Elems(t.l2)
    ensures Parents(d, t.l1) && Parents(d, t.l2)
  {
  }

  lemma Level2Evolves(d: Disk, a: Tree, d1: Disk, l2: seq<nat>, ino: nat, cow: bool)
    requires TreeHeld(d, ino, a) && Evolves(d, Elems(a.l2), d1, Elems(l2), ino, cow)
    ensures Evolves(d, TreeBlocks(a), d1, TreeBlocks(Tree(a.l1, l2, a.l3)), ino, cow)
    ensures Elems(l2) !! Elems(a.l1) && Elems(l2) !! Elems(a.l3)
  {
    var R := Elems(a.l1) + Elems(a.l3);
    EvolvesFrame(d, Elems(a.l2), d1, Elems(l2), R, ino, cow);
    assert Elems(a.l2) + R == TreeBlocks(a);
    assert Elems(l2) + R == TreeBlocks(Tree(a.l1, l2, a.l3));
  }

  lemma Level1Evolves(d: Disk, a: Tree, d1: Disk, l1: seq<nat>, ino: nat, cow: bool)
    requires TreeHeld(d, ino, a) && Evolves(d, Elems(a.l1), d1, Elems(l1), ino, cow)
    ensures Evolves(d, TreeBlocks(a), d1, TreeBlocks(Tree(l1, a.l2, a.l3)), ino, cow)
    ensures Elems(l1) !! Elems(a.l2) && Elems(l1) !! Elems(a.l3)
  {
    var R := Elems(a.l2) + Elems(a.l3);
    EvolvesFrame(d, Elems(a.l1), d1, Elems(l1), R, ino, cow);
    assert Elems(a.l1) + R == TreeBlocks(a);
    assert Elems(l1) + R == TreeBlocks(Tree(l1, a.l2, a.l3));
  }

  /** After the level-2 blocks have been rewritten, the level-1 blocks are ready to be. */
  lemma Level2Recorded(d: Disk, m: AllocationMap, d1: Disk, l2: seq<nat>, flags2: seq<bool>, ino: nat, cow: bool)
    requires TreeHeld(d, ino, m.tree) && Committable(d, m)
    requires Evolves(d, Elems(m.tree.l2), d1, Elems(l2), ino, cow)
    requires Parents(d1, l2) && ino !in Elems(l2)
    requires Moved(m.tree.l2, m.new2, l2, flags2, m.new3, Fanout(d.bs), |m.tree.l2|, cow)
    requires Linked(d1, l2, m.tree.l3)
    ensures var a1 := Tree(m.tree.l1, l2, m.tree.l3);
            && TreeHeld(d1, ino, a1) && Evolves(d, TreeBlocks(m.tree), d1, TreeBlocks(a1), ino, cow)
    ensures |l2| == |m.tree.l2| && LinkedUpTo(d1, m.tree.l1, l2, flags2, 0)
    ensures SameData(d, d1, m.tree.l3)
  {
    var a := m.tree;
    Level2Evolves(d, a, d1, l2, ino, cow);
    KeepTyped(d, Elems(a.l2), d1, Elems(l2), ino, cow, a.l1, Pointer);
    KeepTyped(d, Elems(a.l2), d1, Elems(l2), ino, cow, a.l3, Storage);
    LowerFrame(d, d1, a.l1, |l2|);
    forall k: nat | k < |l2| && !flags2[k]
      ensures PtrAt(d1, a.l1, k) == l2[k]
    {
      assert Lower(d1, a.l1, |l2|)[k] == Lower(d, a.l1, |l2|)[k];
    }
  }

  lemma Level1Recorded(d1: Disk, a1: Tree, d2: Disk, l1: seq<nat>, ino: nat, cow: bool)
    requires TreeHeld(d1, ino, a1)
    requires Evolves(d1, Elems(a1.l1), d2, Elems(l1), ino, cow)
    requires Parents(d2, l1) && ino !in Elems(l1)
    requires Linked(d2, l1, a1.l2) && Linked(d1, a1.l2, a1.l3)
    ensures var t := Tree(l1, a1.l2, a1.l3);
            TreeHeld(d2, ino, t) && Linked(d2, t.l1, t.l2) && Linked(d2, t.l2, t.l3)
    ensures SameData(d1, d2, a1.l3)
  {
    Level1Evolves(d1, a1, d2, l1, ino, cow);
    KeepTyped(d1, Elems(a1.l1), d2, Elems(l1), ino, cow, a1.l2, Pointer);
    KeepTyped(d1, Elems(a1.l1), d2, Elems(l1), ino, cow, a1.l3, Storage);
    LowerFrame(d1, d2, a1.l2, |a1.l3|);
    forall k: nat | k < |a1.l3|
      ensures PtrAt(d2, a1.l2, k) == a1.l3[k]
    {
      assert Lower(d2, a1.l2, |a1.l3|)[k] == Lower(d1, a1.l2, |a1.l3|)[k];
    }
  }

  /** Writing the inode block touches none of the tree's own blocks. */
  lemma SlotsRecorded(d: Disk, K: set<nat>, d2: Disk, t: Tree, d3: Disk, ino: nat, cow: bool)
    requires TreeHeld(d2, ino, t) && Evolves(d, K, d2, TreeBlocks(t), ino, cow)
    requires InodeWritten(d2, d3, ino, cow)
    requires Linked(d2, t.l1, t.l2) && Linked(d2, t.l2, t.l3)
    ensures TreeHeld(d3, ino, t) && Linked(d3, t.l1, t.l2) && Linked(d3, t.l2, t.l3)
    ensures Evolves(d, K, d3, TreeBlocks(t), ino, cow)
    ensures SameData(d2, d3, t.l3)
  {
    TreeHeldFrame(d2, {}, d3, {}, ino, cow, ino, t);
    LowerFrame(d2, d3, t.l1, |t.l2|);
    LowerFrame(d2, d3, t.l2, |t.l3|);
    forall k: nat | k < |t.l2|
      ensures PtrAt(d3, t.l1, k) == t.l2[k]
    {
      assert Lower(d3, t.l1, |t.l2|)[k] == Lower(d2, t.l1, |t.l2|)[k];
    }
    forall k: nat | k < |t.l3|
      ensures PtrAt(d3, t.l2, k) == t.l3[k]
    {
      assert Lower(d3, t.l2, |t.l3|)[k] == Lower(d2, t.l2, |t.l3|)[k];
    }
    EvolvesFrame(d2, {}, d3, {}, TreeBlocks(t), ino, cow);
    assert {} + TreeBlocks(t) == TreeBlocks(t);
    EvolvesTrans(d, K, d2, TreeBlocks(t), d3, TreeBlocks(t), ino, cow);
  }

  /** A level after reallocation: the common prefix is kept and everything else is new. */
  ghost predicate LevelReallocated(was: seq<nat>, now: seq<nat>, isNew: seq<bool>, n: nat) {
    && |now| == n == |isNew|
    && forall k :: 0 <= k < n ==>
         (isNew[k] <==> k >= |was|) && (k < |was| ==> now[k] == was[k])
  }

  /** Every level has been extended to the length in `n`. */
  ghost predicate Longer(t: Tree, t': Tree, n: Descriptor) {
    && t.l1 <= t'.l1 && |t'.l1| == n.n1
    && t.l2 <= t'.l2 && |t'.l2| == n.n2
    && t.l3 <= t'.l3 && |t'.l3| == n.n3
  }

  lemma ReallocatedMap(t: Tree, n: Descriptor, m: AllocationMap)
    requires Longer(Prefix(t, n), m.tree, n)
    requires m.new1 == seq(n.n1, k => k >= |t.l1|) && m.new2 == seq(n.n2, k => k >= |t.l2|)
    requires m.new3 == seq(n.n3, k => k >= |t.l3|)
    ensures Reallocated(t, n, m)
  {
  }

  lemma LongerByLevels(t: Tree, n: Descriptor, a1: seq<nat>, a2: seq<nat>, a3: seq<nat>)
    requires |t.l1| + |a1| == n.n1 && |t.l2| + |a2| == n.n2 && |t.l3| + |a3| == n.n3
    ensures Longer(t, Extended(Extended(Extended(t, 1, a1), 2, a2), 3, a3), n)
  {
  }

  ghost predicate Reallocated(t: Tree, n: Descriptor, m: AllocationMap) {
    && LevelReallocated(t.l1, m.tree.l1, m.new1, n.n1)
    && LevelReallocated(t.l2, m.tree.l2, m.new2, n.n2)
    && LevelReallocated(t.l3, m.tree.l3, m.new3, n.n3)
  }

  /** Appending the pointers held by upper block `q` to those of the blocks before it. */
  lemma GroupPtrs(d: Disk, upper: seq<nat>, q: nat, lower: seq<nat>, words: seq<nat>, n: nat)
    requires d.Shape() && q < |upper| && upper[q] < |d.data|
    requires |lower| == (if q * Fanout(d.bs) <= n then q * Fanout(d.bs) else n)
    requires |words| <= Fanout(d.bs)
    requires |words| == (if Fanout(d.bs) <= n - |lower| then Fanout(d.bs) else n - |lower|)
    requires forall r: nat :: r < |words| ==> words[r] == GetWord(d.data[upper[q]], WORD * r)
    ensures |lower + words| == if (q + 1) * Fanout(d.bs) <= n then (q + 1) * Fanout(d.bs) else n
    ensures forall k: nat :: |lower| <= k < |lower + words| ==> (lower + words)[k] == PtrAt(d, upper, k)
  {
    var p := Fanout(d.bs);
    assert (q + 1) * p == q * p + p;
    forall k: nat | |lower| <= k < |lower + words|
      ensures (lower + words)[k] == PtrAt(d, upper, k)
    {
      QuotRemUnique(q, k - q * p, p);
    }
  }

  /** A relinked file is ready to be committed: only pointers to replaced blocks are missing from
      their parents. */
  lemma OverwrittenIsCommittable(d: Disk, d1: Disk, m: AllocationMap, relink: map<nat, nat>, lo: nat, hi: nat,
                                 src: seq<byte>, offset: nat, ino: nat, cow: bool)
    requires WellFormed(d, ino)
    requires var t := TreeAt(d, ino);
             && Overwriting(d, t, d1, m.tree.l3, relink, lo, hi, src, offset, ino, cow)
             && m.tree == t.(l3 := m.tree.l3)
             && |m.new1| == |t.l1| && |m.new2| == |t.l2| && |m.new3| == |t.l3|
             && (forall q :: 0 <= q < |t.l3| ==> (m.new3[q] <==> t.l3[q] in relink))
    ensures Committable(d1, m)
  {
    var t := TreeAt(d, ino);
    LinksOfTree(d, d.data[ino]);
    LowerFrame(d, d1, t.l1, |t.l2|);
    LowerFrame(d, d1, t.l2, |t.l3|);
    forall k: nat | k < |t.l2|
      ensures PtrAt(d1, t.l1, k) == t.l2[k]
    {
      assert Lower(d1, t.l1, |t.l2|)[k] == Lower(d, t.l1, |t.l2|)[k];
    }
    forall k: nat | k < |t.l3|
      ensures PtrAt(d1, t.l2, k) == t.l3[k]
    {
      assert Lower(d1, t.l2, |t.l3|)[k] == Lower(d, t.l2, |t.l3|)[k];
    }
  }

  /** Which of `n` blocks lie in a range. */
  function Span(n: nat, lo: nat, hi: nat): (flags: seq<bool>)
    ensures |flags| == n && forall q :: 0 <= q < n ==> (flags[q] <==> lo <= q < hi)
  {
    seq(n, q => lo <= q < hi)
  }

  function NoneNew(n: nat): (flags: seq<bool>)
    ensures |flags| == n && forall q :: 0 <= q < n ==> !flags[q]
  {
    seq(n, _ => false)
  }

  /** After copying blocks `lo` to `hi` of a file there is room for moving their parents. */
  ghost predicate RoomAbove(d: Disk, t: Tree, lo: nat, hi: nat)
    requires d.Shape()
  {
    RoomToCommit(d, |Uses(d)| + |PinnedIn(d, t.l3, lo, hi)|, t.l1, t.l2, NoneNew(|t.l2|), Span(|t.l3|, lo, hi), |t.l1|,
                 |t.l2|, Fanout(d.bs))
  }

  /** With copy-on-write, blocks `lo` to `hi` of a file can be overwritten: there is room for copying
      them one after the other, and then for moving their parents. */
  ghost predicate WriteHasRoom(d: Disk, t: Tree, lo: nat, hi: nat)
    requires d.Shape()
  {
    RoomToCopy(d, |Uses(d)|, t.l3, lo, hi) && RoomAbove(d, t, lo, hi)
  }

  /** The same for the blocks that a range of `n` bytes touches. */
  ghost predicate RangeHasRoom(d: Disk, ino: nat, offset: nat, n: nat)
    requires WellFormed(d, ino)
  {
    WriteHasRoom(d, TreeAt(d, ino), TouchedStart(d.bs, offset), TouchedEnd(d.bs, offset, n))
  }

  lemma NothingAbove(d: Disk, t: Tree, lo: nat)
    requires d.Shape()
    ensures RoomAbove(d, t, lo, lo)
  {
    var p := Fanout(d.bs);
    assert forall u: nat :: !HasNew(Span(|t.l3|, lo, lo), p, u);
    assert forall u: nat :: !HasNew(ParentFlags(NoneNew(|t.l2|), Span(|t.l3|, lo, lo), p), p, u);
  }

  /** While storage is overwritten, the parents stay shared with a snapshot, or not. */
  lemma ParentsPinned(d: Disk, t: Tree, d1: Disk, cur: seq<nat>, ino: nat, cow: bool)
    requires Evolves(d, TreeBlocks(t), d1, TreeBlocks(t.(l3 := cur)), ino, cow)
    ensures PinnedSame(d, t.l1, d1, t.l1) && PinnedSame(d, t.l2, d1, t.l2)
  {
    var (K, K1) := (TreeBlocks(t), TreeBlocks(t.(l3 := cur)));
    hide Evolves;
    forall v: nat | v < |t.l1|
      ensures d1.Shared(t.l1[v]) <==> d.Shared(t.l1[v])
    {
      InElems(t.l1, v);
      StillOwned(d, K, d1, K1, ino, cow, t.l1[v]);
    }
    forall v: nat | v < |t.l2|
      ensures d1.Shared(t.l2[v]) <==> d.Shared(t.l2[v])
    {
      InElems(t.l2, v);
      StillOwned(d, K, d1, K1, ino, cow, t.l2[v]);
    }
  }

  lemma OverwrittenRoom(d: Disk, t: Tree, d1: Disk, cur: seq<nat>, relink: map<nat, nat>, lo: nat, hi: nat,
                        src: seq<byte>, offset: nat, ino: nat, m: AllocationMap)
    requires Overwriting(d, t, d1, cur, relink, lo, hi, src, offset, ino, true)
    requires m == AllocationMap(t.(l3 := cur), NoneNew(|t.l1|), NoneNew(|t.l2|), Span(|t.l3|, lo, hi))
    ensures MapHasRoom(d1, m) <==> RoomAbove(d, t, lo, hi)
  {
    hide HasNew, Uses, Pinned, PinnedIn, RoomToMove, TreeHeld, ParentFlags, Evolves, OverwrittenData, SameData,
         TreeBlocks, PinnedSame, RoomToCopy;
    var p := Fanout(d.bs);
    ParentsPinned(d, t, d1, cur, ino, true);
    PinnedEqual(d, t.l2, d1, t.l2, m.new3, p, |t.l2|);
    var used := |Uses(d)| + |PinnedIn(d, t.l3, lo, hi)|;
    RoomEqual(d, used, t.l2, d1, t.l2, m.new3, p);
    RoomEqual(d, used + |Pinned(d, t.l2, m.new3, p, |t.l2|)|, t.l1, d1, t.l1, ParentFlags(m.new2, m.new3, p), p);
  }

  lemma OverwrittenCommitted(d: Disk, d1: Disk, m: AllocationMap, relink: map<nat, nat>, lo: nat, hi: nat,
                             src: seq<byte>, offset: nat, ino: nat, cow: bool, d2: Disk, t': Tree)
    requires WellFormed(d, ino)
    requires var t := TreeAt(d, ino);
             && Overwriting(d, t, d1, m.tree.l3, relink, lo, hi, src, offset, ino, cow)
             && m.tree == t.(l3 := m.tree.l3)
    requires offset + |src| <= SizeOf(d.data[ino])
    requires lo * d.bs <= offset && offset + |src| <= hi * d.bs
    requires Committed(d1, m, d2, t', ino, cow) && d2.InUse(ino) && d2.attr[ino].typ == d1.attr[ino].typ
    ensures WellFormed(d2, ino) && TreeAt(d2, ino) == t'
    ensures Content(d2, ino) == Put(Content(d, ino), offset, src)
    ensures StatRest(d2.data[ino]) == StatRest(d.data[ino])
    ensures SameOutside(TreeAt(d, ino), t', lo, hi) && hi <= |t'.l3|
  {
    var t := TreeAt(d, ino);
    var size := SizeOf(d.data[ino]);
    LinksOfTree(d, d.data[ino]);
    TreeFromLinks(d2, d2.data[ino], t');
    OverwrittenFile(d, t.l3, d1, m.tree.l3, lo, hi, size, src, offset);
    forall p: nat | p < size
      ensures ByteAt(d2, t'.l3, p) == ByteAt(d1, m.tree.l3, p)
    {
      QuotCell(d.bs, size, p);
    }
    assert FileBytes(d2, t'.l3, size) == FileBytes(d1, m.tree.l3, size);
  }
}
