/** The inode service: reading, writing and resizing one file of a volume. */
module InodeService {
  import opened Wrappers
  import opened Arithmetic
  import opened Bytes
  import opened DiskState
  import opened Allocation
  import opened Evolution
  import opened BlockSteps
  import opened FileTree
  import opened FileContent
  import opened TreeOwnership
  import opened ParentLinks
  import opened Overwrite
  import opened FileSystem
  import opened Occupancy
  import opened FileCommit
  import opened Budget
  import opened Volume

  class InodeService {
    const volume: Volume
    const ino: nat

    constructor (volume: Volume, ino: nat)
      ensures this.volume == volume && this.ino == ino
    {
      this.volume, this.ino := volume, ino;
    }

    /** The bytes of a page. Pages of pointers may be read only when declared as such, and the
        inode's own block is never a page of its file. */
    method ReadPage(index: nat, linker: bool) returns (page: Block)
      requires volume.Valid() && index < volume.Blocks() && index != ino
      requires linker || volume.attr[index].typ != Pointer
      ensures page == volume.State().data[index]
    {
      page := volume.data[index];
    }

    /** The pointers, up to `n`, that the blocks `upper` hold. */
    method ReadLower(upper: seq<nat>, n: nat) returns (lower: seq<nat>)
      requires volume.Valid()
      requires Typed(volume.State(), upper, Pointer) && ino !in Elems(upper)
      requires CeilDiv(Fanout(volume.blockSize), n) == |upper|
      ensures lower == Lower(volume.State(), upper, n)
    {
      ghost var d := volume.State();
      var fanout := Fanout(volume.blockSize);
      lower := [];
      var q := 0;
      while q < |upper|
        invariant q <= |upper|
        invariant |lower| == if q * fanout <= n then q * fanout else n
        invariant forall k: nat :: k < |lower| ==> lower[k] == PtrAt(d, upper, k)
      {
        InElems(upper, q);
        var page := ReadPage(upper[q], true);
        var length := if fanout <= n - |lower| then fanout else n - |lower|;
        var words := seq(length, r requires 0 <= r < length => GetWord(page, WORD * r));
        GroupPtrs(d, upper, q, lower, words, n);
        lower := lower + words;
        q := q + 1;
      }
      CeilDivFits(fanout, n, |upper|);
    }

    /** Flatten the file's pointer tree into three lists. */
    method LinearizeAllBlocks() returns (t: Tree)
      requires volume.Valid() && WellFormed(volume.State(), ino)
      ensures t == TreeAt(volume.State(), ino)
    {
      hide Typed, CeilDiv;
      ghost var d := volume.State();
      var img := volume.data[ino];
      var bs := volume.blockSize;
      var n := Describe(bs, SizeOf(img));
      ghost var at := TreeAt(d, ino);
      var l1 := [];
      var i := 0;
      while i < n.n1
        invariant i <= n.n1 && l1 == at.l1[..i]
      {
        l1 := l1 + [SlotAt(img, i)];
        i := i + 1;
      }
      assert l1 == at.l1;
      var l2 := ReadLower(l1, n.n2);
      var l3 := ReadLower(l2, n.n3);
      t := Tree(l1, l2, l3);
    }

    /** How many pointers each level needs, unless the size exceeds what an inode can hold. */
    method SizeToDescriptor(size: nat) returns (r: Option<Descriptor>)
      requires volume.Valid()
      ensures r.Some? <==> Fits(volume.blockSize, size)
      ensures r.Some? ==> r.value == Describe(volume.blockSize, size)
    {
      var n := Describe(volume.blockSize, size);
      if n.n1 > Slots(volume.blockSize) {
        return None;
      }
      return Some(n);
    }

    /** Give a block back to the block manager, except block 0. */
    method ReleaseOne(index: nat)
      requires volume.Valid() && volume.State().InUse(index)
      modifies volume.Repr()
      ensures volume.Valid()
      ensures volume.State() == if index != 0 then old(volume.State()).Deallocate(index) else old(volume.State())
      ensures Evolves(old(volume.State()), {index}, volume.State(), {}, -1, true)
    {
      ghost var d := volume.State();
      if index != 0 {
        volume.Deallocate(index);
        DeallocateEvolves(d, index);
      } else {
        DropZeroEvolves(d);
      }
    }

    /** Give blocks back to the block manager; block 0 is never given back. */
    method ReleaseAll(blocks: seq<nat>)
      requires volume.Valid() && NoDup(blocks) && Owns(volume.State(), Elems(blocks))
      modifies volume.Repr()
      ensures volume.Valid()
      ensures Evolves(old(volume.State()), Elems(blocks), volume.State(), {}, -1, true)
      ensures InRange(old(volume.State()), blocks) && volume.State() == GiveBack(old(volume.State()), blocks)
    {
      hide Volume.State, Volume.Valid;
      ghost var d := volume.State();
      var i := 0;
      EvolvesRefl(d, Elems(blocks), -1, true);
      OwnedInRange(d, blocks);
      assert blocks[0..] == blocks;
      while i < |blocks|
        invariant i <= |blocks|
        invariant volume.Valid() && SameGeometry(d, volume.State())
        invariant Evolves(d, Elems(blocks), volume.State(), Elems(blocks[i..]), -1, true)
        invariant GiveBack(volume.State(), blocks[i..]) == GiveBack(d, blocks)
      {
        ghost var d1 := volume.State();
        TailElems(blocks, i);
        assert blocks[i..][0] == blocks[i] && blocks[i..][1..] == blocks[i + 1..];
        ReleaseOne(blocks[i]);
        EvolvesPart(d, Elems(blocks), d1, Elems(blocks[i..]), {blocks[i]}, volume.State(), {}, -1, true);
        assert Elems(blocks[i..]) - {blocks[i]} + {} == Elems(blocks[i + 1..]);
        i := i + 1;
      }
      assert Elems(blocks[i..]) == {};
    }

    /** Allocate a block and give it a type. */
    method AllocateTyped(typ: BlockType) returns (r: Option<nat>)
      requires volume.Valid() && typ != Redundancy
      modifies volume.Repr()
      ensures volume.Valid() && volume.State().data == old(volume.State()).data
      ensures r.Some? <==> |Uses(old(volume.State()))| < volume.Blocks()
      ensures r.None? ==> && Evolves(old(volume.State()), {}, volume.State(), {}, -1, true)
                          && Uses(volume.State()) == Uses(old(volume.State()))
      ensures r.Some? ==>
                && r.value !in Uses(old(volume.State()))
                && Uses(volume.State()) == Uses(old(volume.State())) + {r.value}
      ensures r.Some? ==>
                && r.value < volume.Blocks() && !old(volume.State()).InUse(r.value)
                && volume.State().attr[r.value] == FRESH_ATTR.(typ := typ)
                && Evolves(old(volume.State()), {}, volume.State(), {r.value}, -1, true)
    {
      ghost var d := volume.State();
      AllocateRoom(d);
      r := volume.Allocate();
      if r.None? {
        AllocateNoneEvolves(d);
        AllocateNoneUses(d);
      } else {
        AllocateEvolves(d, r.value, typ);
        AllocateUses(d, r.value, typ);
        volume.SetType(r.value, typ);
      }
    }

    /** Allocate `n` blocks of one type; this succeeds exactly if so many are not in use. On failure,
        report the ones obtained so far. */
    method AllocateMany(n: nat, typ: BlockType) returns (ok: bool, blocks: seq<nat>)
      requires volume.Valid() && typ != Redundancy
      modifies volume.Repr()
      ensures volume.Valid()
      ensures ok <==> |Uses(old(volume.State()))| + n <= volume.Blocks()
      ensures |Uses(volume.State())| == |Uses(old(volume.State()))| + |blocks|
      ensures ok ==> |blocks| == n
      ensures NoDup(blocks) && Typed(volume.State(), blocks, typ)
      ensures Evolves(old(volume.State()), {}, volume.State(), Elems(blocks), -1, true)
      ensures volume.State().data == old(volume.State()).data
    {
      hide Obtained, Uses;
      ghost var d := volume.State();
      blocks := [];
      NothingObtained(d, typ);
      while |blocks| < n
        invariant |blocks| <= n
        invariant volume.Valid() && Obtained(d, volume.State(), blocks, typ)
      {
        ghost var d1 := volume.State();
        var r := AllocateTyped(typ);
        if r.None? {
          ObtainedNoMore(d, d1, blocks, volume.State(), typ);
          ObtainedMeans(d, volume.State(), blocks, typ);
          return false, blocks;
        }
        ObtainedOneMore(d, d1, blocks, volume.State(), r.value, typ);
        blocks := blocks + [r.value];
      }
      ObtainedMeans(d, volume.State(), blocks, typ);
      ok := true;
    }

    /** Grow one level by `n` blocks, if so many are not in use. On failure the blocks obtained so far are included. */
    method GrowLevel(t: Tree, level: nat, n: nat) returns (ok: bool, t': Tree, ghost added: seq<nat>)
      requires volume.Valid() && volume.State().InUse(ino) && 1 <= level <= 3
      requires TreeHeld(volume.State(), ino, t)
      modifies volume.Repr()
      ensures volume.Valid() && volume.State().data == old(volume.State()).data
      ensures volume.State().InUse(ino) && TreeHeld(volume.State(), ino, t')
      ensures Evolves(old(volume.State()), TreeBlocks(t), volume.State(), TreeBlocks(t'), -1, true)
      ensures t' == Extended(t, level, added)
      ensures ok <==> |Uses(old(volume.State()))| + n <= volume.Blocks()
      ensures |Uses(volume.State())| == |Uses(old(volume.State()))| + |added|
      ensures ok ==> |added| == n
    {
      ghost var d := volume.State();
      var blocks;
      ok, blocks := AllocateMany(n, LevelType(level));
      GrowTree(d, volume.State(), ino, t, level, blocks);
      t', added := Extended(t, level, blocks), blocks;
    }

    /** Drop the pointers beyond `n` on each level and give their blocks back. */
    method ShrinkLevels(t: Tree, n: Descriptor) returns (t': Tree)
      requires volume.Valid() && volume.State().InUse(ino) && TreeHeld(volume.State(), ino, t)
      modifies volume.Repr()
      ensures volume.Valid() && volume.State().data == old(volume.State()).data && volume.State().InUse(ino)
      ensures t' == Prefix(t, n) && TreeHeld(volume.State(), ino, t')
      ensures InRange(old(volume.State()), Dropped(t, n))
      ensures volume.State() == GiveBack(old(volume.State()), Dropped(t, n))
      ensures Evolves(old(volume.State()), TreeBlocks(t), volume.State(), TreeBlocks(t'), -1, true)
    {
      hide EvolvesAt, KeepsAccount, GiveBack;
      ghost var d := volume.State();
      t' := Prefix(t, n);
      SplitTree(d, ino, t, n);
      ghost var dropped := Elems(Dropped(t, n));
      ReleaseAll(Dropped(t, n));
      TreeHeldFrame(d, dropped, volume.State(), {}, -1, true, ino, t');
      OthersUntouched(d, dropped, volume.State(), {}, -1, true, ino);
      EvolvesFrame(d, dropped, volume.State(), {}, TreeBlocks(t'), -1, true);
      assert {} + TreeBlocks(t') == TreeBlocks(t');
    }

    /** Allocate the blocks missing to the lengths `n`, level by level, if so many are not in use. */
    method GrowLevels(t: Tree, n: Descriptor) returns (ok: bool, t': Tree)
      requires volume.Valid() && volume.State().InUse(ino) && TreeHeld(volume.State(), ino, t)
      requires |t.l1| <= n.n1 && |t.l2| <= n.n2 && |t.l3| <= n.n3
      modifies volume.Repr()
      ensures volume.Valid() && volume.State().data == old(volume.State()).data && volume.State().InUse(ino)
      ensures TreeHeld(volume.State(), ino, t') && (ok ==> Longer(t, t', n))
      ensures ok <==> |Uses(old(volume.State()))| + Missing(t, n) <= volume.Blocks()
      ensures ok ==> |Uses(volume.State())| == |Uses(old(volume.State()))| + Missing(t, n)
      ensures Evolves(old(volume.State()), TreeBlocks(t), volume.State(), TreeBlocks(t'), -1, true)
    {
      hide Evolves, TreeHeld, Longer, Uses, Volume.State, Extended, TreeBlocks, EvolvesAt;
      ghost var d, K := volume.State(), TreeBlocks(t);
      ghost var a1, a2, a3;
      ok, t', a1 := GrowLevel(t, 1, n.n1 - |t.l1|);
      if ok {
        ghost var d1 := volume.State();
        var t1 := t';
        ok, t', a2 := GrowLevel(t1, 2, n.n2 - |t.l2|);
        EvolvesTrans(d, K, d1, TreeBlocks(t1), volume.State(), TreeBlocks(t'), -1, true);
      }
      if ok {
        ghost var d2 := volume.State();
        var t2 := t';
        ok, t', a3 := GrowLevel(t2, 3, n.n3 - |t.l3|);
        EvolvesTrans(d, K, d2, TreeBlocks(t2), volume.State(), TreeBlocks(t'), -1, true);
        if ok {
          LongerByLevels(t, n, a1, a2, a3);
        }
      }
    }

    /** Bring the three levels to the lengths `n`: drop surplus pointers, giving their blocks back,
        and allocate missing ones. If space runs out, every block of the file is given back. */
    method ReallocateByDescriptor(n: Descriptor) returns (r: Option<AllocationMap>, ghost held: set<nat>)
      requires volume.Valid() && WellFormed(volume.State(), ino)
      modifies volume.Repr()
      ensures volume.Valid() && volume.State().data == old(volume.State()).data
      ensures volume.State().InUse(ino)
      ensures var t := old(TreeAt(volume.State(), ino));
              && Evolves(old(volume.State()), TreeBlocks(t), volume.State(), held, -1, true)
              && (r.None? ==> held == {})
              && (r.Some? <==> UsedWith(old(volume.State()), t, n) <= volume.Blocks())
              && (r.Some? ==> held == TreeBlocks(r.value.tree) && TreeHeld(volume.State(), ino, r.value.tree)
                              && Reallocated(t, n, r.value)
                              && |Uses(volume.State())| == UsedWith(old(volume.State()), t, n)
                              && PinnedSame(old(volume.State()), t.l1, volume.State(), r.value.tree.l1)
                              && PinnedSame(old(volume.State()), t.l2, volume.State(), r.value.tree.l2)
                              && StillUsed(old(volume.State()), Dropped(t, n), volume.State())
                              && NotAmong(old(volume.State()), Dropped(t, n), held))
    {
      ghost var d := volume.State();
      var t := LinearizeAllBlocks();
      hide Evolves, TreeHeld, Reallocated, Longer, Uses, GiveBack, Freed, PinnedSame, StillUsed, NotAmong;
      var t0 := ShrinkLevels(t, n);
      ghost var d1 := volume.State();
      var ok, t1 := GrowLevels(t0, n);
      EvolvesTrans(d, TreeBlocks(t), d1, TreeBlocks(t0), volume.State(), TreeBlocks(t1), -1, true);
      DroppedStillUsed(d, ino, t, n, d1, volume.State(), TreeBlocks(t1), -1, true);
      DroppedUses(d, ino, t, n);
      if ok {
        PinnedAfterGrowth(d, ino, t, n, d1, volume.State(), t1);
      }
      r, held := None, TreeBlocks(t1);
      if !ok {
        held := ReleaseTree(d, TreeBlocks(t), t1);
      } else {
        var m := AllocationMap(t1, seq(n.n1, k => k >= |t.l1|), seq(n.n2, k => k >= |t.l2|),
                               seq(n.n3, k => k >= |t.l3|));
        ReallocatedMap(t, n, m);
        r := Some(m);
      }
    }

    /** Give back every block of a tree. */
    method ReleaseTree(ghost d: Disk, ghost K: set<nat>, t: Tree) returns (ghost held: set<nat>)
      requires volume.Valid() && volume.State().InUse(ino) && TreeHeld(volume.State(), ino, t)
      requires Evolves(d, K, volume.State(), TreeBlocks(t), -1, true)
      modifies volume.Repr()
      ensures volume.Valid() && volume.State().data == old(volume.State()).data
      ensures volume.State().InUse(ino)
      ensures held == {} && Evolves(d, K, volume.State(), held, -1, true)
    {
      ghost var d1 := volume.State();
      WholeTree(d1, ino, t);
      ReleaseAll(t.l3 + t.l2 + t.l1);
      held := {};
      EvolvesTrans(d, K, d1, TreeBlocks(t), volume.State(), {}, -1, true);
      OthersUntouched(d1, TreeBlocks(t), volume.State(), {}, -1, true, ino);
    }

    /** Copy one block of the file, unless the volume updates blocks in place. */
    method CopyOnWriteBlock(index: nat) returns (r: Option<nat>)
      requires volume.Valid() && index < volume.Blocks() && index != ino
      modifies volume.Repr()
      ensures volume.Valid()
      ensures volume.noCow ==> r == Some(index) && volume.State() == old(volume.State())
      ensures !volume.noCow ==> (volume.State(), r) == CopyOnWrite(old(volume.State()), index)
    {
      if volume.noCow {
        return Some(index);
      }
      ghost var d := volume.State();
      r := volume.Allocate();
      if r.Some? {
        AllocateNotInUse(d, r.value);
        volume.SetType(r.value, Storage);
        volume.WriteBlock(r.value, volume.data[index]);
        volume.SaveType(index);
      }
    }

    /** Rewrite a parent block so that it starts with the pointers `children`; under
        copy-on-write the parent moves. */
    method SaveParent(parent: nat, children: seq<nat>) returns (r: Option<nat>)
      requires volume.Valid() && volume.State().InUse(parent) && parent != ino
      requires volume.State().attr[parent].typ == Pointer
      requires |children| <= Fanout(volume.blockSize)
      modifies volume.Repr()
      ensures volume.Valid()
      ensures r.Some? ==> ParentSaved(old(volume.State()), parent, children, volume.State(), r.value, ino,
                                      !volume.noCow)
      ensures r.Some? <==> volume.noCow || |Uses(old(volume.State()))| < volume.Blocks()
      ensures r.None? ==> Evolves(old(volume.State()), {}, volume.State(), {}, -1, true)
                          && volume.State().data == old(volume.State()).data
    {
      hide Uses, KeepsAccount;
      ghost var d := volume.State();
      CopyUses(d, parent);
      r := CopyOnWriteBlock(parent);
      if r.None? {
        AllocateNoneEvolves(d);
        return;
      }
      var n := r.value;
      if !volume.noCow {
        CopyOnWriteEvolves(d, parent, n);
        volume.SetType(n, Pointer);
      }
      ghost var d1 := volume.State();
      var page := Put(volume.data[n], 0, WordsBytes(children));
      volume.WriteBlock(n, page);
      if n != parent {
        volume.Retire(parent);
        RelocateEvolves(d, parent, n, page, Pointer);
        RelocateUses(d, parent, n, page, Pointer);
        EvolvesWeaken(d, {parent}, volume.State(), {n}, ino, !volume.noCow);
      } else {
        WriteEvolves(d, parent, page, ino, false);
        WriteUses(d, parent, page);
      }
    }

    /** Finish one group of children: rewrite their parent if any of them is new. */
    method SaveGroup(upper: seq<nat>, flags: seq<bool>, u: nat, children: seq<nat>, foundNew: bool, ghost d: Disk,
                     ghost upper0: seq<nat>, ghost flags0: seq<bool>, ghost lower: seq<nat>,
                     ghost isNew: seq<bool>)
      returns (ok: bool, upper': seq<nat>, flags': seq<bool>)
      requires volume.Valid()
      requires Recording(d, upper0, flags0, volume.State(), upper, flags, lower, isNew, u, ino, !volume.noCow)
      requires Group(Fanout(volume.blockSize), lower, isNew, u, children, foundNew)
      requires |children| > 0
      requires |children| == Fanout(volume.blockSize) || u * Fanout(volume.blockSize) + |children| == |lower|
      modifies volume.Repr()
      ensures volume.Valid()
      ensures ok ==> Recording(d, upper0, flags0, volume.State(), upper', flags', lower, isNew, u + 1, ino,
                               !volume.noCow)
      ensures !ok ==> Evolves(d, Elems(upper0), volume.State(), Elems(upper'), ino, !volume.noCow)
                      && NoRoom(d, upper0, isNew, !volume.noCow)
      ensures volume.State().InUse(ino) && volume.State().data[ino] == d.data[ino] && ino !in Elems(upper')
    {
      hide Volume.State, Volume.Valid, UsesMoved;
      hide EvolvesAt, KeepsAccount, Uses, NoRoom;
      ghost var d1 := volume.State();
      upper', flags' := upper, flags;
      if !foundNew {
        GroupUnchanged(d, upper0, flags0, d1, upper, flags, lower, isNew, u, children, ino, !volume.noCow);
        return true, upper, flags;
      }
      GroupHasParent(Fanout(volume.blockSize), |lower|, u, |children|);
      InElems(upper, u);
      var r := SaveParent(upper[u], children);
      if r.None? {
        EvolvesWeaken(d1, {}, volume.State(), {}, ino, !volume.noCow);
        OthersUntouched(d1, {}, volume.State(), {}, -1, true, ino);
        EvolvesPart(d, Elems(upper0), d1, Elems(upper), {}, volume.State(), {}, ino, !volume.noCow);
        assert Elems(upper) - {} + {} == Elems(upper);
        OutOfRoom(d, upper0, flags0, d1, upper, flags, lower, isNew, u, children, ino, !volume.noCow);
        return false, upper, flags;
      }
      RecordGroup(d, upper0, flags0, d1, upper, flags, lower, isNew, u, children, volume.State(), r.value, ino,
                  !volume.noCow);
      upper' := upper[u := r.value];
      if r.value != upper[u] {
        flags' := flags[u := true];
      }
      ok := true;
    }

    /** Collect the next child and, when its group is full, finish the group. */
    method CollectChild(upper: seq<nat>, flags: seq<bool>, lower: seq<nat>, isNew: seq<bool>, u: nat,
                        children: seq<nat>, foundNew: bool, i: nat, ghost d: Disk, ghost upper0: seq<nat>,
                        ghost flags0: seq<bool>)
      returns (ok: bool, upper': seq<nat>, flags': seq<bool>, u': nat, children': seq<nat>, foundNew': bool)
      requires volume.Valid() && i < |lower|
      requires Collecting(d, upper0, flags0, volume.State(), upper, flags, lower, isNew, ino, !volume.noCow,
                          u, children, foundNew, i)
      modifies volume.Repr()
      ensures volume.Valid()
      ensures ok ==> Collecting(d, upper0, flags0, volume.State(), upper', flags', lower, isNew, ino, !volume.noCow,
                                u', children', foundNew', i + 1)
      ensures !ok ==> Evolves(d, Elems(upper0), volume.State(), Elems(upper'), ino, !volume.noCow)
                      && NoRoom(d, upper0, isNew, !volume.noCow)
      ensures volume.State().InUse(ino) && volume.State().data[ino] == d.data[ino] && ino !in Elems(upper')
    {
      var p := Fanout(volume.blockSize);
      GroupGrows(p, lower, isNew, u, children, foundNew);
      ok, upper', flags', u' := true, upper, flags, u;
      children' := children + [lower[i]];
      foundNew' := foundNew || isNew[i];
      if |children'| == p {
        ok, upper', flags' := SaveGroup(upper, flags, u, children', foundNew', d, upper0, flags0, lower, isNew);
        SuccTimes(u, p);
        GroupStarts(p, lower, isNew, u + 1);
        children', foundNew', u' := [], false, u + 1;
      }
    }

    /** Record the pointers `lower` in their parents `upper0`. Parents move under copy-on-write
        and are flagged when they do; this fails exactly if one of them finds no room. */
    method RecordInParents(upper0: seq<nat>, flags0: seq<bool>, lower: seq<nat>, isNew: seq<bool>)
      returns (ok: bool, upper: seq<nat>, flags: seq<bool>)
      requires volume.Valid() && volume.State().InUse(ino)
      requires Parents(volume.State(), upper0) && ino !in Elems(upper0)
      requires |upper0| == CeilDiv(Fanout(volume.blockSize), |lower|)
      requires |flags0| == |upper0| && |isNew| == |lower|
      requires LinkedUpTo(volume.State(), upper0, lower, isNew, 0)
      requires forall k :: 0 <= k < |lower| ==> lower[k] < TWO_64
      modifies volume.Repr()
      ensures volume.Valid() && volume.State().InUse(ino)
      ensures volume.State().data[ino] == old(volume.State()).data[ino] && ino !in Elems(upper)
      ensures Evolves(old(volume.State()), Elems(upper0), volume.State(), Elems(upper), ino, !volume.noCow)
      ensures ok ==>
                && Parents(volume.State(), upper) && |flags| == |upper| == |upper0|
                && Moved(upper0, flags0, upper, flags, isNew, Fanout(volume.blockSize), |upper0|, !volume.noCow)
                && Linked(volume.State(), upper, lower)
                && UsesMoved(old(volume.State()), upper0, volume.State(), isNew, |upper0|, !volume.noCow)
      ensures ok <==> !NoRoom(old(volume.State()), upper0, isNew, !volume.noCow)
    {
      hide Volume.State, Volume.Valid, LinkedUpTo, UsesMoved;
      hide NoRoom, Evolves;
      ghost var d := volume.State();
      upper, flags := upper0, flags0;
      var children: seq<nat>, foundNew, u, i := [], false, 0, 0;
      CollectingStarts(d, upper, flags, lower, isNew, ino, !volume.noCow);
      while i < |lower|
        invariant volume.Valid()
        invariant Collecting(d, upper0, flags0, volume.State(), upper, flags, lower, isNew, ino, !volume.noCow,
                             u, children, foundNew, i)
      {
        ok, upper, flags, u, children, foundNew :=
          CollectChild(upper, flags, lower, isNew, u, children, foundNew, i, d, upper0, flags0);
        if !ok {
          return;
        }
        i := i + 1;
      }
      if |children| > 0 {
        ok, upper, flags := SaveGroup(upper, flags, u, children, foundNew, d, upper0, flags0, lower, isNew);
        if !ok {
          return;
        }
        u := u + 1;
        ghost var p := Fanout(d.bs);
        assert u * p == (u - 1) * p + p;
      }
      RecordingEnds(d, upper0, flags0, volume.State(), upper, flags, lower, isNew, u, ino, !volume.noCow);
      ok := true;
    }

    /** Store the level-1 pointers in the inode block, in place. */
    method RecordSlots(l1: seq<nat>)
      requires volume.Valid() && volume.State().InUse(ino)
      requires |l1| <= Slots(volume.blockSize) && forall k :: 0 <= k < |l1| ==> l1[k] < TWO_64
      modifies volume.Repr()
      ensures volume.Valid()
      ensures InodeWritten(old(volume.State()), volume.State(), ino, !volume.noCow)
      ensures SizeOf(volume.State().data[ino]) == SizeOf(old(volume.State()).data[ino])
      ensures forall k: nat :: k < |l1| ==> SlotAt(volume.State().data[ino], k) == l1[k]
    {
      ghost var d := volume.State();
      var img := volume.data[ino];
      var k := 0;
      while k < |l1|
        invariant volume.Valid() && volume.State() == d
        invariant k <= |l1| && |img| == volume.blockSize
        invariant SizeOf(img) == SizeOf(d.data[ino]) && StatRest(img) == StatRest(d.data[ino])
        invariant forall j: nat :: j < k ==> SlotAt(img, j) == l1[j]
      {
        ghost var was := img;
        img := Put(img, STAT_SIZE + WORD * k, WordBytes(l1[k]));
        SlotPut(was, k, l1[k]);
        k := k + 1;
      }
      volume.WriteBlock(ino, img);
      WriteInodeEvolves(d, ino, img, !volume.noCow);
    }

    /** Store a new file size in the inode block, in place. */
    method SetSize(size: nat)
      requires volume.Valid() && volume.State().InUse(ino) && size < TWO_64
      modifies volume.Repr()
      ensures volume.Valid()
      ensures InodeWritten(old(volume.State()), volume.State(), ino, !volume.noCow)
      ensures SizeOf(volume.State().data[ino]) == size
      ensures forall k: nat :: k < Slots(volume.blockSize) ==>
                SlotAt(volume.State().data[ino], k) == SlotAt(old(volume.State()).data[ino], k)
    {
      ghost var d := volume.State();
      var img := Put(volume.data[ino], SIZE_OFFSET, WordBytes(size));
      GetPutSame(volume.data[ino], SIZE_OFFSET, size);
      PutStatRest(volume.data[ino], SIZE_OFFSET, WordBytes(size));
      forall k: nat | k < Slots(volume.blockSize)
        ensures SlotAt(img, k) == SlotAt(volume.data[ino], k)
      {
        GetPutOther(volume.data[ino], SIZE_OFFSET, WordBytes(size), STAT_SIZE + WORD * k);
      }
      volume.WriteBlock(ino, img);
      WriteInodeEvolves(d, ino, img, !volume.noCow);
    }

    /** Record each level in the one above, bottom-up. */
    method RecordLevels(m: AllocationMap) returns (ok: bool, l1: seq<nat>, ghost l2: seq<nat>)
      requires volume.Valid() && volume.State().InUse(ino) && TreeHeld(volume.State(), ino, m.tree)
      requires Committable(volume.State(), m)
      modifies volume.Repr()
      ensures volume.Valid() && volume.State().InUse(ino)
      ensures volume.State().attr[ino].typ == old(volume.State()).attr[ino].typ
      ensures Evolves(old(volume.State()), TreeBlocks(m.tree), volume.State(), TreeBlocks(Tree(l1, l2, m.tree.l3)), ino,
                      !volume.noCow)
      ensures ok ==> LevelsRecorded(old(volume.State()), m, volume.State(), l1, l2, ino, !volume.noCow)
      ensures ok <==> volume.noCow || MapHasRoom(old(volume.State()), m)
    {
      hide MapHasRoom, UsesMoved, RoomToMove;
      hide Volume.State, Volume.Valid;
      hide Evolves, TreeHeld, Parents, Moved, UsesMoved, NoRoom, RoomToCommit, LinkedUpTo, Linked, LevelsRecorded;
      ghost var d := volume.State();
      ghost var cow := !volume.noCow;
      var flags2, flags1, upper;
      var a := m.tree;
      TreePointersFit(d, ino, a);
      ok, upper, flags2 := RecordInParents(a.l2, m.new2, a.l3, m.new3);
      l1, l2 := a.l1, upper;
      ghost var d1 := volume.State();
      Level2Evolves(d, a, d1, l2, ino, cow);
      TypeKept(d, Elems(a.l2), d1, Elems(l2), ino, cow);
      if !ok {
        FirstLevelFails(d, m, cow);
        return;
      }
      Level2Recorded(d, m, d1, l2, flags2, ino, cow);
      CommitRoom(d, m, d1, l2, flags2, ino, cow);
      ghost var a1 := Tree(a.l1, l2, a.l3);
      TreePointersFit(d1, ino, a1);
      ok, l1, flags1 := RecordInParents(a.l1, m.new1, upper, flags2);
      ghost var d2 := volume.State();
      Level1Evolves(d1, a1, d2, l1, ino, cow);
      TypeKept(d1, Elems(a.l1), d2, Elems(l1), ino, cow);
      EvolvesTrans(d, TreeBlocks(a), d1, TreeBlocks(a1), d2, TreeBlocks(Tree(l1, l2, a.l3)), ino, cow);
      if ok {
        Level1Recorded(d1, a1, d2, l1, ino, cow);
        BothLevelsRecorded(d, m, d1, d2, l1, l2, flags1, flags2, ino, cow);
      }
    }

    /** Make the file point at the blocks of an allocation map: rebuild the parents bottom-up and
        store the level-1 pointers in the inode. Under copy-on-write this fails exactly if a parent
        that has to move finds no room. */
    method CommitFromLinearizedBlock(m: AllocationMap) returns (ok: bool, ghost t: Tree, ghost held: set<nat>)
      requires volume.Valid() && volume.State().InUse(ino) && TreeHeld(volume.State(), ino, m.tree)
      requires Committable(volume.State(), m)
      modifies volume.Repr()
      ensures volume.Valid() && volume.State().InUse(ino)
      ensures volume.State().attr[ino].typ == old(volume.State()).attr[ino].typ
      ensures Evolves(old(volume.State()), TreeBlocks(m.tree), volume.State(), held, ino, !volume.noCow)
      ensures ok ==> held == TreeBlocks(t)
                     && Committed(old(volume.State()), m, volume.State(), t, ino, !volume.noCow)
      ensures ok <==> volume.noCow || MapHasRoom(old(volume.State()), m)
    {
      hide Volume.State, Volume.Valid;
      hide Transfers, KeepsAccount, RoomToCommit;
      ghost var d := volume.State();
      var l1;
      ghost var l2;
      ok, l1, l2 := RecordLevels(m);
      ghost var d2 := volume.State();
      t := Tree(l1, l2, m.tree.l3);
      held := TreeBlocks(t);
      if ok {
        TreePointersFit(d2, ino, t);
        RecordSlots(l1);
        SlotsRecorded(d, TreeBlocks(m.tree), d2, t, volume.State(), ino, !volume.noCow);
        SameDataTrans(d, d2, volume.State(), m.tree.l3);
      }
    }

    /** Reallocate the levels to the lengths `n` and commit the result. */
    method CommitFromBlockDescriptor(n: Descriptor)
      returns (ok: bool, ghost held: set<nat>, ghost d1: Disk, ghost m: AllocationMap, ghost t: Tree)
      requires volume.Valid() && WellFormed(volume.State(), ino)
      requires var p := Fanout(volume.blockSize);
               n.n2 == CeilDiv(p, n.n3) && n.n1 == CeilDiv(p, n.n2) && n.n1 <= Slots(volume.blockSize)
      modifies volume.Repr()
      ensures volume.Valid() && volume.State().InUse(ino)
      ensures Evolves(old(volume.State()), old(TreeBlocks(TreeAt(volume.State(), ino))),
                      volume.State(), held, ino, !volume.noCow)
      ensures ok ==>
                && SameGeometry(old(volume.State()), d1) && d1.data == old(volume.State()).data
                && Reallocated(old(TreeAt(volume.State(), ino)), n, m)
                && StillUsed(old(volume.State()), old(Dropped(TreeAt(volume.State(), ino), n)), volume.State())
                && Committed(d1, m, volume.State(), t, ino, !volume.noCow) && held == TreeBlocks(t)
                && volume.State().attr[ino].typ == IndexNode
      ensures ok <==> HasRoom(old(volume.State()), old(TreeAt(volume.State(), ino)), n, !volume.noCow)
      ensures UsedWith(old(volume.State()), old(TreeAt(volume.State(), ino)), n) > volume.Blocks() ==>
                GivenBack(old(volume.State()), ino, volume.State())
    {
      hide Volume.State, Volume.Valid;
      hide RoomToCommit, Uses, UsedWith, PinnedSame, Transfers, KeepsAccount, Reallocated, TreeHeld, StillUsed,
           NotAmong;
      ghost var d := volume.State();
      ghost var K := TreeBlocks(TreeAt(d, ino));
      var r;
      r, held := ReallocateByDescriptor(n);
      d1 := volume.State();
      EvolvesWeaken(d, K, d1, held, ino, !volume.noCow);
      InodeKept(d, ino, d1, held);
      if r.None? {
        ok, m, t := false, AllocationMap(Tree([], [], []), [], [], []), Tree([], [], []);
        return;
      }
      m := r.value;
      ReallocatedIsCommittable(d, ino, n, d1, m);
      ReallocatedRoom(d, TreeAt(d, ino), n, d1, m, |Uses(d1)|);
      ghost var held1 := held;
      ok, t, held := CommitFromLinearizedBlock(r.value);
      EvolvesTrans(d, K, d1, held1, volume.State(), held, ino, !volume.noCow);
      StillUsedOn(d, Dropped(TreeAt(d, ino), n), d1, held1, volume.State(), held, ino, !volume.noCow);
    }

    /** Change the size of the file. This succeeds exactly if an inode can hold the size and there is
        room for it. It fails without any change when an inode cannot hold the size. When the missing
        blocks cannot be allocated, all blocks of the file are given back, though the inode still
        points at them. */
    method ResizeUnblocked(newSize: nat) returns (ok: bool, ghost held: set<nat>)
      requires volume.Valid() && WellFormed(volume.State(), ino) && newSize < TWO_64
      modifies volume.Repr()
      ensures volume.Valid() && volume.State().InUse(ino)
      ensures Evolves(old(volume.State()), old(TreeBlocks(TreeAt(volume.State(), ino))),
                      volume.State(), held, ino, !volume.noCow)
      ensures ok ==> StatRest(volume.State().data[ino]) == old(StatRest(volume.State().data[ino]))
      ensures ok ==> && WellFormed(volume.State(), ino) && held == TreeBlocks(TreeAt(volume.State(), ino))
                     && ResizedContent(old(Content(volume.State(), ino)), Content(volume.State(), ino), newSize)
                     && ResizedTree(old(TreeAt(volume.State(), ino)), TreeAt(volume.State(), ino),
                                    Describe(volume.blockSize, newSize))
                     && StillUsed(old(volume.State()),
                                 old(Dropped(TreeAt(volume.State(), ino), Describe(volume.blockSize, newSize))),
                                 volume.State())
      ensures ok <==> && Fits(volume.blockSize, newSize)
                      && HasRoom(old(volume.State()), old(TreeAt(volume.State(), ino)),
                                 Describe(volume.blockSize, newSize), !volume.noCow)
      ensures !Fits(volume.blockSize, newSize) ==> !ok && volume.State() == old(volume.State())
      ensures UsedWith(old(volume.State()), old(TreeAt(volume.State(), ino)), Describe(volume.blockSize, newSize))
                > volume.Blocks() && Fits(volume.blockSize, newSize) ==>
                GivenBack(old(volume.State()), ino, volume.State())
    {
      hide HasRoom, UsedWith, Uses, KeepsAccount, StatRest, SizeOf, Content;
      ghost var d := volume.State();
      ghost var t := TreeAt(d, ino);
      held := TreeBlocks(t);
      EvolvesRefl(d, held, ino, !volume.noCow);
      if newSize == SizeOf(volume.data[ino]) {
        SameHasRoom(d, t, Describe(volume.blockSize, newSize), !volume.noCow);
        return true, held;
      }
      var n := SizeToDescriptor(newSize);
      if n.None? {
        return false, held;
      }
      ghost var d1, m, t';
      ok, held, d1, m, t' := CommitFromBlockDescriptor(n.value);
      if ok {
        ghost var d2 := volume.State();
        RoomForBlocks(d, t, n.value, !volume.noCow);
        SetSize(newSize);
        ResizeDone(d, d1, m, d2, t', volume.State(), newSize, ino, !volume.noCow);
      }
    }

    /** Read up to `size` bytes from `offset`. The first block is looked up even when nothing is left
        to read: exactly at the end of a file that fills its last block, the index lies beyond the list
        of blocks, and there is no result. Nor is there one when `offset + size` overflows to a number
        within the file: then the read is not cut short, and runs out of blocks. */
    method Read(size: nat, offset: nat) returns (r: Option<seq<byte>>)
      requires volume.Valid() && WellFormed(volume.State(), ino) && size < TWO_64 && offset < TWO_64
      ensures r.None? <==> var fileSize := SizeOf(volume.State().data[ino]);
                           && 0 < fileSize && offset <= fileSize
                           && ((offset == fileSize && fileSize % volume.blockSize == 0)
                               || TWO_64 <= offset + size <= TWO_64 + fileSize)
      ensures r.Some? ==>
                var c := Content(volume.State(), ino);
                if |c| < offset then r.value == []
                else && |r.value| == (if size <= |c| - offset then size else |c| - offset)
                     && forall i :: 0 <= i < |r.value| ==> r.value[i] == c[offset + i]
    {
      hide TreeHeld, TreeOf, Plans, FileBytes, ReadLength;
      ghost var d := volume.State();
      var bs := volume.blockSize;
      var fileSize := SizeOf(volume.data[ino]);
      if fileSize == 0 || fileSize < offset {
        return Some([]);
      }
      var n := ReadLength(fileSize, size, offset);
      ReadLengthFits(fileSize, size, offset);
      if fileSize < offset + n {
        return None;
      }
      var t := LinearizeAllBlocks();
      ContentHeld(d, ino);
      HasBlockAt(bs, offset, fileSize);
      if |t.l3| <= offset / bs {
        return None;
      }
      var plan := MakePlan(bs, offset, n, fileSize);
      var buffer := ReadPlanned(t.l3, plan, offset, n, Content(d, ino));
      r := Some(buffer);
    }

    /** Read the blocks of a plan: the first one, then whole ones, then the rest. */
    method ReadPlanned(l3: seq<nat>, plan: Plan, offset: nat, n: nat, ghost c: seq<byte>) returns (buffer: seq<byte>)
      requires volume.Valid() && HoldsContent(volume.State(), l3, c, ino)
      requires Plans(plan, volume.blockSize, offset, n, |c|)
      ensures buffer == c[offset..offset + n]
    {
      hide CeilDiv, Volume.Repr;
      ghost var bs := volume.blockSize;
      PlanChunks(plan, bs, offset, n, |c|, 0);
      buffer := ReadChunk(l3, plan.skippedBlocks, plan.skippedBytes, plan.first, c, offset);
      buffer := ReadAdjacent(l3, plan, offset, n, buffer, c);
      PlanChunks(plan, bs, offset, n, |c|, plan.adjacent + 1);
      if plan.last != 0 {
        var rest := ReadChunk(l3, plan.skippedBlocks + plan.adjacent + 1, 0, plan.last, c, offset + |buffer|);
        AppendRange(c, offset, |buffer|, plan.last);
        buffer := buffer + rest;
      } else {
        PlanEnds(plan, bs, offset, n, |c|);
      }
    }

    method ReadAdjacent(l3: seq<nat>, plan: Plan, offset: nat, n: nat, first: seq<byte>, ghost c: seq<byte>)
      returns (buffer: seq<byte>)
      requires volume.Valid() && HoldsContent(volume.State(), l3, c, ino)
      requires Plans(plan, volume.blockSize, offset, n, |c|)
      requires |l3| == CeilDiv(volume.blockSize, |c|)
      requires |first| == plan.first && first == c[offset..offset + plan.first]
      ensures |buffer| == Covered(plan, volume.blockSize, plan.adjacent + 1) && offset + |buffer| <= |c|
      ensures buffer == c[offset..offset + |buffer|]
    {
      hide TreeHeld, Typed, HoldsContent, CeilDiv, Chunk;
      buffer := first;
      var i := 1;
      while i <= plan.adjacent
        invariant 1 <= i <= plan.adjacent + 1
        invariant |buffer| == Covered(plan, volume.blockSize, i) && offset + |buffer| <= |c|
        invariant buffer == c[offset..offset + |buffer|]
      {
        PlanChunks(plan, volume.blockSize, offset, n, |c|, i);
        var whole := ReadChunk(l3, plan.skippedBlocks + i, 0, volume.blockSize, c, offset + |buffer|);
        AppendRange(c, offset, |buffer|, volume.blockSize);
        buffer := buffer + whole;
        i := i + 1;
      }
    }

    method ReadChunk(l3: seq<nat>, q: nat, off: nat, n: nat, ghost c: seq<byte>, ghost at: nat)
        returns (chunk: seq<byte>)
      requires volume.Valid() && HoldsContent(volume.State(), l3, c, ino)
      requires q < |l3| && off + n <= volume.blockSize
      requires at == q * volume.blockSize + off && at + n <= |c|
      ensures chunk == c[at..at + n]
    {
      InElems(l3, q);
      var page := ReadPage(l3[q], false);
      chunk := page[off..off + n];
      HeldSlice(volume.State(), l3, c, ino, q, off, n);
    }

    /** Write one chunk of `src` into storage block `index`, which is block `q` of the file. */
    method CowWrite(index: nat, src: seq<byte>, off: nat, g: nat, n: nat, ghost q: nat, ghost offset: nat)
      returns (r: Option<nat>)
      requires volume.Valid() && volume.State().InUse(index) && index != ino
      requires volume.State().attr[index].typ == Storage
      requires Chunk(volume.blockSize, q, offset, |src|, off, g, n)
      modifies volume.Repr()
      ensures volume.Valid()
      ensures r.Some? ==>
                var d := old(volume.State());
                BlockReplaced(d, index, Patched(d.data[index], d.bs, q, src, offset),
                              volume.State(), r.value, ino, !volume.noCow)
      ensures r.Some? <==> volume.noCow || |Uses(old(volume.State()))| < volume.Blocks()
      ensures r.None? ==> Evolves(old(volume.State()), {}, volume.State(), {}, -1, true)
    {
      hide Evolves, Patched, Uses, BlockReplaced;
      ghost var d := volume.State();
      CopyUses(d, index);
      r := CopyOnWriteBlock(index);
      if r.None? {
        AllocateNoneEvolves(d);
        return;
      }
      var blk := r.value;
      if !volume.noCow {
        CopyHolds(d, index, blk);
      }
      var page := Put(volume.data[blk], off, src[g..g + n]);
      ChunkPatches(d.data[index], d.bs, q, src, offset, off, g, n);
      volume.WriteBlock(blk, page);
      if blk != index {
        volume.Retire(index);
        CopyReplaced(d, index, blk, page, ino);
      } else {
        InPlaceReplaced(d, index, page, ino);
      }
    }

    /** Overwrite the next storage block of the file and remember where its contents moved. */
    method OverwriteNext(t: Tree, relink: map<nat, nat>, hi: nat, src: seq<byte>, off: nat, g: nat, n: nat,
                         ghost d: Disk, ghost cur: seq<nat>, ghost lo: nat, ghost offset: nat)
      returns (ok: bool, relink': map<nat, nat>, ghost cur': seq<nat>, ghost held: set<nat>)
      requires volume.Valid() && hi < |t.l3|
      requires Overwriting(d, t, volume.State(), cur, relink, lo, hi, src, offset, ino, !volume.noCow)
      requires Chunk(volume.blockSize, hi, offset, |src|, off, g, n)
      modifies volume.Repr()
      ensures volume.Valid() && volume.State().InUse(ino)
      ensures ok ==> Overwriting(d, t, volume.State(), cur', relink', lo, hi + 1, src, offset, ino, !volume.noCow)
      ensures held == TreeBlocks(t.(l3 := cur'))
      ensures Evolves(d, TreeBlocks(t), volume.State(), held, ino, !volume.noCow)
      ensures !ok ==> !volume.noCow && forall end :: hi < end ==> !RoomToCopy(d, |Uses(d)|, t.l3, lo, end)
    {
      hide Volume.State, Volume.Valid;
      hide EvolvesAt, KeepsAccount, UsesCopied, RoomToCopy, Uses, MovedUses;
      ghost var d1 := volume.State();
      var index := t.l3[hi];
      InElems(cur, hi);
      relink', cur' := relink, cur;
      held := TreeBlocks(t.(l3 := cur));
      var r := CowWrite(index, src, off, g, n, hi, offset);
      if r.None? {
        EvolvesWeaken(d1, {}, volume.State(), {}, ino, !volume.noCow);
        OthersUntouched(d1, {}, volume.State(), {}, -1, true, ino);
        EvolvesPart(d, TreeBlocks(t), d1, held, {}, volume.State(), {}, ino, !volume.noCow);
        assert held - {} + {} == held;
        forall end | hi < end
          ensures !RoomToCopy(d, |Uses(d)|, t.l3, lo, end)
        {
          UsesCopiedFull(d, t.l3, d1, lo, hi, end, !volume.noCow);
        }
        return false, relink', cur', held;
      }
      OverwriteStep(d, t, d1, cur, relink, lo, hi, src, offset, ino, !volume.noCow, volume.State(), r.value);
      cur' := cur[hi := r.value];
      held := TreeBlocks(t.(l3 := cur'));
      if r.value != index {
        relink' := relink[index := r.value];
      }
      ok := true;
    }

    /** Overwrite the whole blocks of a plan, after its first block; `g` counts the bytes written. */
    method OverwriteAdjacent(t: Tree, plan: Plan, src: seq<byte>, offset: nat, relink0: map<nat, nat>,
                             ghost d: Disk, ghost fileSize: nat, ghost cur0: seq<nat>)
      returns (ok: bool, relink: map<nat, nat>, g: nat, ghost cur: seq<nat>, ghost held: set<nat>)
      requires volume.Valid() && d.Shape() && |t.l3| == CeilDiv(d.bs, fileSize)
      requires Plans(plan, d.bs, offset, |src|, fileSize)
      requires Overwriting(d, t, volume.State(), cur0, relink0, plan.skippedBlocks, plan.skippedBlocks + 1,
                           src, offset, ino, !volume.noCow)
      modifies volume.Repr()
      ensures volume.Valid() && volume.State().InUse(ino)
      ensures ok ==> Overwriting(d, t, volume.State(), cur, relink, plan.skippedBlocks,
                                 plan.skippedBlocks + plan.adjacent + 1, src, offset, ino, !volume.noCow)
      ensures ok ==> g == Covered(plan, d.bs, plan.adjacent + 1)
      ensures held == TreeBlocks(t.(l3 := cur))
      ensures Evolves(d, TreeBlocks(t), volume.State(), held, ino, !volume.noCow)
      ensures !ok ==> !volume.noCow && NoRoomToCopy(d, t, plan)
    {
      hide Volume.State, Volume.Valid;
      hide Overwriting, Evolves, TreeBlocks, Plans, CeilDiv, Chunk, RoomToCopy;
      relink, cur, g := relink0, cur0, plan.first;
      OverwritingEvolves(d, t, volume.State(), cur, relink, plan.skippedBlocks, plan.skippedBlocks + 1,
                         src, offset, ino, !volume.noCow);
      var i := 1;
      while i <= plan.adjacent
        invariant 1 <= i <= plan.adjacent + 1
        invariant volume.Valid() && volume.blockSize == d.bs
        invariant g == Covered(plan, d.bs, i)
        invariant Overwriting(d, t, volume.State(), cur, relink, plan.skippedBlocks, plan.skippedBlocks + i,
                              src, offset, ino, !volume.noCow)
      {
        PlanChunks(plan, d.bs, offset, |src|, fileSize, i);
        ok, relink, cur, held :=
          OverwriteNext(t, relink, plan.skippedBlocks + i, src, 0, g, volume.blockSize, d, cur, plan.skippedBlocks,
                        offset);
        if !ok {
          return;
        }
        g := g + volume.blockSize;
        i := i + 1;
      }
      OverwritingEvolves(d, t, volume.State(), cur, relink, plan.skippedBlocks, plan.skippedBlocks + i,
                         src, offset, ino, !volume.noCow);
      held := TreeBlocks(t.(l3 := cur));
      ok := true;
    }

    /** Overwrite what a plan has after its whole blocks. */
    method OverwriteRest(t: Tree, plan: Plan, src: seq<byte>, offset: nat, relink0: map<nat, nat>, g: nat,
                         ghost d: Disk, ghost fileSize: nat, ghost cur0: seq<nat>)
      returns (ok: bool, relink: map<nat, nat>, ghost cur: seq<nat>, ghost hi: nat, ghost held: set<nat>)
      requires volume.Valid() && d.Shape() && |t.l3| == CeilDiv(d.bs, fileSize)
      requires Plans(plan, d.bs, offset, |src|, fileSize)
      requires Overwriting(d, t, volume.State(), cur0, relink0, plan.skippedBlocks,
                           plan.skippedBlocks + plan.adjacent + 1, src, offset, ino, !volume.noCow)
      requires g == Covered(plan, d.bs, plan.adjacent + 1)
      modifies volume.Repr()
      ensures volume.Valid() && volume.State().InUse(ino)
      ensures ok ==> && Overwriting(d, t, volume.State(), cur, relink, plan.skippedBlocks, hi, src, offset, ino,
                                    !volume.noCow)
                     && plan.skippedBlocks * d.bs <= offset && offset + |src| <= hi * d.bs
      ensures held == TreeBlocks(t.(l3 := cur))
      ensures Evolves(d, TreeBlocks(t), volume.State(), held, ino, !volume.noCow)
      ensures if ok then hi == PlanEnd(plan) else !volume.noCow && NoRoomToCopy(d, t, plan)
    {
      hide Volume.State, Volume.Valid;
      hide Overwriting, Evolves, TreeBlocks, Plans, CeilDiv, Chunk, Covered, RoomToCopy;
      PlanRange(plan, d.bs, offset, |src|, fileSize);
      OverwritingEvolves(d, t, volume.State(), cur0, relink0, plan.skippedBlocks,
                         plan.skippedBlocks + plan.adjacent + 1, src, offset, ino, !volume.noCow);
      if plan.last == 0 {
        ok, relink, cur, hi := true, relink0, cur0, plan.skippedBlocks + plan.adjacent + 1;
        held := TreeBlocks(t.(l3 := cur));
      } else {
        PlanChunks(plan, d.bs, offset, |src|, fileSize, plan.adjacent + 1);
        ok, relink, cur, held := OverwriteNext(t, relink0, plan.skippedBlocks + plan.adjacent + 1, src, 0, g, plan.last,
                                               d, cur0, plan.skippedBlocks, offset);
        hi := plan.skippedBlocks + plan.adjacent + 2;
      }
    }

    /** Overwrite all blocks of a plan: the first one, then whole ones, then the rest. */
    method OverwritePlanned(t: Tree, plan: Plan, src: seq<byte>, offset: nat, ghost d: Disk, ghost fileSize: nat)
      returns (ok: bool, relink: map<nat, nat>, ghost cur: seq<nat>, ghost hi: nat, ghost held: set<nat>)
      requires volume.Valid() && volume.State() == d && d.InUse(ino) && TreeHeld(d, ino, t)
      requires |t.l3| == CeilDiv(d.bs, fileSize) && Plans(plan, d.bs, offset, |src|, fileSize)
      modifies volume.Repr()
      ensures volume.Valid() && volume.State().InUse(ino)
      ensures ok ==> && Overwriting(d, t, volume.State(), cur, relink, plan.skippedBlocks, hi, src, offset, ino,
                                    !volume.noCow)
                     && plan.skippedBlocks * d.bs <= offset && offset + |src| <= hi * d.bs
      ensures held == TreeBlocks(t.(l3 := cur))
      ensures Evolves(d, TreeBlocks(t), volume.State(), held, ino, !volume.noCow)
      ensures if ok then hi == PlanEnd(plan) else !volume.noCow && NoRoomToCopy(d, t, plan)
    {
      hide Volume.State, Volume.Valid;
      hide Overwriting, Evolves, TreeBlocks, TreeHeld, Plans, CeilDiv, Chunk, RoomToCopy, Covered;
      PlanChunks(plan, d.bs, offset, |src|, fileSize, 0);
      OverwriteStarts(d, t, plan.skippedBlocks, src, offset, ino, !volume.noCow);
      hi := 0;
      ok, relink, cur, held :=
        OverwriteNext(t, map[], plan.skippedBlocks, src, plan.skippedBytes, 0, plan.first, d, t.l3,
                      plan.skippedBlocks, offset);
      if ok {
        var g;
        ok, relink, g, cur, held := OverwriteAdjacent(t, plan, src, offset, relink, d, fileSize, cur);
        if ok {
          ok, relink, cur, hi, held := OverwriteRest(t, plan, src, offset, relink, g, d, fileSize, cur);
        }
      }
    }

    /** Send each original level-3 pointer to the block that holds its contents now. Every pointer
        is looked up once, so a block that was retired and handed out again is not followed. */
    method RelinkAll(l3: seq<nat>, relink: map<nat, nat>) returns (now: seq<nat>, isNew: seq<bool>)
      ensures |now| == |isNew| == |l3|
      ensures forall q :: 0 <= q < |l3| ==> now[q] == Relinked(relink, l3[q])
      ensures forall q :: 0 <= q < |l3| ==> (isNew[q] <==> l3[q] in relink)
    {
      now, isNew := [], [];
      var q := 0;
      while q < |l3|
        invariant q <= |l3| && |now| == |isNew| == q
        invariant forall i :: 0 <= i < q ==> now[i] == Relinked(relink, l3[i])
        invariant forall i :: 0 <= i < q ==> (isNew[i] <==> l3[i] in relink)
      {
        if l3[q] in relink {
          now, isNew := now + [relink[l3[q]]], isNew + [true];
        } else {
          now, isNew := now + [l3[q]], isNew + [false];
        }
        q := q + 1;
      }
    }

    /** Overwrite a range inside the file. */
    method WriteRange(src: seq<byte>, offset: nat) returns (r: WriteResult, ghost held: set<nat>)
      requires volume.Valid() && WellFormed(volume.State(), ino)
      requires offset + |src| <= SizeOf(volume.State().data[ino])
      modifies volume.Repr()
      ensures volume.Valid() && volume.State().InUse(ino)
      ensures Evolves(old(volume.State()), old(TreeBlocks(TreeAt(volume.State(), ino))),
                      volume.State(), held, ino, !volume.noCow)
      ensures r.NoBlock? <==> old(EmptyAtEnd(SizeOf(volume.State().data[ino]), |src|, offset, volume.blockSize))
      ensures r.NoBlock? ==> volume.State() == old(volume.State())
      ensures !r.NoBlock? ==>
                (r.NoSpace? <==>
                   !volume.noCow && !RangeHasRoom(old(volume.State()), ino, offset, |src|))
      ensures !r.NoSpace? ==> StatRest(volume.State().data[ino]) == old(StatRest(volume.State().data[ino]))
      ensures !r.NoSpace? ==>
                && WellFormed(volume.State(), ino) && held == TreeBlocks(TreeAt(volume.State(), ino))
                && Content(volume.State(), ino) == Put(old(Content(volume.State(), ino)), offset, src)
                && SameOutside(old(TreeAt(volume.State(), ino)), TreeAt(volume.State(), ino),
                               TouchedStart(volume.blockSize, offset), TouchedEnd(volume.blockSize, offset, |src|))
                && Took(old(volume.State()), volume.State(),
                        RangeCost(volume.blockSize, old(SizeOf(volume.State().data[ino])), offset, |src|))
      ensures r.Done? ==> r.size == |src|
    {
      hide Volume.State, Volume.Valid;
      hide Evolves, TreeHeld, TreeOf, Plans, Took, RangeCost;
      ghost var d := volume.State();
      ghost var fileSize := SizeOf(d.data[ino]);
      var t := LinearizeAllBlocks();
      ContentHeld(d, ino);
      HasFirstBlock(volume.blockSize, fileSize, |src|, offset);
      if |t.l3| <= offset / volume.blockSize {
        held := TreeBlocks(t);
        TreeUnchanged(d, ino, !volume.noCow);
        NothingPut(Content(d, ino), src, offset);
        NothingTook(d, RangeCost(d.bs, fileSize, offset, |src|));
        return NoBlock, held;
      }
      var plan := MakePlan(volume.blockSize, offset, |src|, fileSize);
      PlanTouches(plan, volume.blockSize, offset, |src|, fileSize);
      var ok, relink;
      ghost var cur, hi;
      ok, relink, cur, hi, held := OverwritePlanned(t, plan, src, offset, d, fileSize);
      if ok {
        ok, held := CommitRelinked(t, relink, src, offset, d, cur, plan.skippedBlocks, hi, held);
      }
      if ok {
        RangeTook(d, ino, volume.State(), offset, |src|, !volume.noCow);
      }
      r := if ok then Done(|src|) else NoSpace;
    }

    /** Relink the file to its overwritten blocks. */
    method CommitRelinked(t: Tree, relink: map<nat, nat>, src: seq<byte>, offset: nat, ghost d: Disk,
                          ghost cur: seq<nat>, ghost lo: nat, ghost hi: nat, ghost held0: set<nat>)
      returns (ok: bool, ghost held: set<nat>)
      requires volume.Valid() && WellFormed(d, ino) && t == TreeAt(d, ino)
      requires Overwriting(d, t, volume.State(), cur, relink, lo, hi, src, offset, ino, !volume.noCow)
      requires offset + |src| <= SizeOf(d.data[ino])
      requires lo * d.bs <= offset && offset + |src| <= hi * d.bs
      requires held0 == TreeBlocks(t.(l3 := cur))
      modifies volume.Repr()
      ensures volume.Valid() && volume.State().InUse(ino)
      ensures Evolves(d, TreeBlocks(t), volume.State(), held, ino, !volume.noCow)
      ensures ok ==> StatRest(volume.State().data[ino]) == StatRest(d.data[ino])
      ensures ok ==> && WellFormed(volume.State(), ino) && held == TreeBlocks(TreeAt(volume.State(), ino))
                     && Content(volume.State(), ino) == Put(Content(d, ino), offset, src)
                     && SameOutside(t, TreeAt(volume.State(), ino), lo, hi) && hi <= |t.l3|
      ensures ok <==> volume.noCow || RoomAbove(d, t, lo, hi)
    {
      hide Volume.State, Volume.Valid, TreeBlocks;
      hide Evolves, TreeHeld, TreeOf, OverwrittenData, SameData, CeilDiv, UsesCopied, MapHasRoom, RoomAbove,
           Committable, Relinked, Committed;
      ghost var d1 := volume.State();
      if relink == map[] {
        OverwrittenInPlace(d, d1, cur, lo, hi, src, offset, ino, !volume.noCow);
        NothingRelinked(d, t, d1, cur, relink, lo, hi, src, offset, ino, !volume.noCow);
        NothingAbove(d, t, lo);
        held := TreeBlocks(TreeAt(d1, ino));
        return true, held;
      }
      var l3, isNew := RelinkAll(t.l3, relink);
      SomethingRelinked(d, t, d1, cur, relink, lo, hi, src, offset, ino, !volume.noCow);
      assert l3 == cur && isNew == Span(|t.l3|, lo, hi);
      var m := AllocationMap(Tree(t.l1, t.l2, l3), NoneNew(|t.l1|), NoneNew(|t.l2|), isNew);
      OverwrittenIsCommittable(d, d1, m, relink, lo, hi, src, offset, ino, !volume.noCow);
      OverwrittenRoom(d, t, d1, cur, relink, lo, hi, src, offset, ino, m);
      ghost var t';
      ok, t', held := CommitFromLinearizedBlock(m);
      EvolvesTrans(d, TreeBlocks(t), d1, held0, volume.State(), held, ino, !volume.noCow);
      if ok {
        OverwrittenCommitted(d, d1, m, relink, lo, hi, src, offset, ino, !volume.noCow, volume.State(), t');
      }
    }

    /** Write `data` (or zeros, for a hole) at `offset`, growing the file first if it is too short
        and zeroing the gap. The first block is looked up even when there is nothing to write: at a
        block boundary at or beyond the end of the file there is none. */
    method WriteUnblocked(data: seq<byte>, size: nat, offset: nat, hole: bool)
      returns (r: WriteResult, ghost held: set<nat>)
      requires volume.Valid() && WellFormed(volume.State(), ino)
      requires size + offset < TWO_64 && (hole || |data| == size)
      requires hole ==> size + offset <= SizeOf(volume.State().data[ino])
      modifies volume.Repr()
      ensures volume.Valid() && volume.State().InUse(ino)
      ensures Evolves(old(volume.State()), old(TreeBlocks(TreeAt(volume.State(), ino))),
                      volume.State(), held, ino, !volume.noCow)
      ensures r.Done? ==> r.size == size
      ensures !r.NoSpace? ==>
                && (r.NoBlock? <==> old(EmptyAtEnd(SizeOf(volume.State().data[ino]), size, offset, volume.blockSize)))
                && StatRest(volume.State().data[ino]) == old(StatRest(volume.State().data[ino]))
                && WellFormed(volume.State(), ino) && held == TreeBlocks(TreeAt(volume.State(), ino))
                && Content(volume.State(), ino)
                     == Written(old(Content(volume.State(), ino)), if hole then Zeros(size) else data, offset)
      ensures size + offset <= old(SizeOf(volume.State().data[ino])) && !r.NoBlock? ==>
                (r.NoSpace? <==> !volume.noCow && !RangeHasRoom(old(volume.State()), ino, offset, size))
      ensures volume.noCow ==> (r.NoSpace? <==> !CanGrow(old(volume.State()), ino, size + offset, false))
      ensures !CanGrow(old(volume.State()), ino, size + offset, !volume.noCow) ==> r.NoSpace?
      ensures var cost := WriteCost(volume.blockSize, old(SizeOf(volume.State().data[ino])), offset, size);
              && (size + offset <= Capacity(volume.blockSize) && Spare(old(volume.State()), cost) ==> !r.NoSpace?)
              && (!r.NoSpace? ==> Took(old(volume.State()), volume.State(), cost))
      decreases !hole, 2
    {
      hide Evolves, RangeHasRoom, EmptyAtEnd, TreeOf, Content, Spare, Took, RangeCost, HasRoom, Capacity,
           SameOutside, Volume.Valid;
      var src := if hole then Zeros(size) else data;
      ghost var d := volume.State();
      if SizeOf(volume.data[ino]) < size + offset {
        r, held := WriteGrowing(src, offset);
      } else {
        if Spare(d, RangeCost(d.bs, SizeOf(d.data[ino]), offset, size)) {
          SpareForRange(d, ino, offset, size);
        }
        r, held := WriteRange(src, offset);
      }
    }

    /** A write that reaches beyond the end of the file. */
    method WriteGrowing(src: seq<byte>, offset: nat) returns (r: WriteResult, ghost held: set<nat>)
      requires volume.Valid() && WellFormed(volume.State(), ino)
      requires SizeOf(volume.State().data[ino]) < |src| + offset < TWO_64
      modifies volume.Repr()
      ensures volume.Valid() && volume.State().InUse(ino)
      ensures Evolves(old(volume.State()), old(TreeBlocks(TreeAt(volume.State(), ino))),
                      volume.State(), held, ino, !volume.noCow)
      ensures r.Done? ==> r.size == |src|
      ensures !r.NoSpace? ==>
                && (r.NoBlock? <==> old(EmptyAtEnd(SizeOf(volume.State().data[ino]), |src|, offset, volume.blockSize)))
                && StatRest(volume.State().data[ino]) == old(StatRest(volume.State().data[ino]))
                && WellFormed(volume.State(), ino) && held == TreeBlocks(TreeAt(volume.State(), ino))
                && Content(volume.State(), ino) == Written(old(Content(volume.State(), ino)), src, offset)
      ensures volume.noCow ==> (r.NoSpace? <==> !CanGrow(old(volume.State()), ino, |src| + offset, false))
      ensures !CanGrow(old(volume.State()), ino, |src| + offset, !volume.noCow) ==> r.NoSpace?
      ensures var cost := WriteCost(volume.blockSize, old(SizeOf(volume.State().data[ino])), offset, |src|);
              && (|src| + offset <= Capacity(volume.blockSize) && Spare(old(volume.State()), cost) ==> !r.NoSpace?)
              && (!r.NoSpace? ==> Took(old(volume.State()), volume.State(), cost))
      decreases true, 1
    {
      hide Evolves, TreeHeld, TreeOf, TreeBlocks, Content, Grown, Written, StatRest, Spare, Took, RangeCost,
           GrowCost, HasRoom, Capacity, SameOutside, RangeHasRoom, CanGrow, Volume.State, EmptyAtEnd;
      ghost var d := volume.State();
      HasFirstBlock(volume.blockSize, SizeOf(d.data[ino]), |src|, offset);
      ghost var (end, size) := (|src| + offset, SizeOf(d.data[ino]));
      ghost var (grow, fill) := (GrowCost(d.bs, size, end, offset), RangeCost(d.bs, end, offset, |src|));
      if Spare(d, grow + fill) {
        SpareLess(d, grow, fill);
      }
      var ok;
      ok, held := GrowForWrite(|src| + offset, offset);
      r := NoSpace;
      if ok {
        ghost var d1, K1 := volume.State(), held;
        GrownSize(Content(d, ino), Content(d1, ino), end, offset);
        if Spare(d, grow + fill) {
          StillSpare(d, d1, grow, fill);
          SpareForRange(d1, ino, offset, |src|);
        }
        r, held := WriteRange(src, offset);
        EvolvesTrans(d, TreeBlocks(TreeAt(d, ino)), d1, K1, volume.State(), held, ino, !volume.noCow);
        if !r.NoSpace? {
          GrowThenWrite(Content(d, ino), Content(d1, ino), src, offset);
          TookTrans(d, d1, volume.State(), grow, fill);
        }
      }
    }

    /** The resize that a growing write starts with. */
    method GrowToSize(newSize: nat) returns (ok: bool, ghost held: set<nat>)
      requires volume.Valid() && WellFormed(volume.State(), ino)
      requires SizeOf(volume.State().data[ino]) < newSize < TWO_64
      modifies volume.Repr()
      ensures volume.Valid() && volume.State().InUse(ino)
      ensures Evolves(old(volume.State()), old(TreeBlocks(TreeAt(volume.State(), ino))),
                      volume.State(), held, ino, !volume.noCow)
      ensures ok ==> StatRest(volume.State().data[ino]) == old(StatRest(volume.State().data[ino]))
      ensures ok ==> && WellFormed(volume.State(), ino) && held == TreeBlocks(TreeAt(volume.State(), ino))
                     && ResizedContent(old(Content(volume.State(), ino)), Content(volume.State(), ino), newSize)
      ensures ok <==> CanGrow(old(volume.State()), ino, newSize, !volume.noCow)
      ensures var cost := ResizeCost(volume.blockSize, old(SizeOf(volume.State().data[ino])), newSize);
              && (newSize <= Capacity(volume.blockSize) && Spare(old(volume.State()), cost) ==> ok)
              && (ok ==> Took(old(volume.State()), volume.State(), cost))
    {
      hide Evolves, TreeHeld, TreeOf, TreeBlocks, Content, ResizedContent, StillUsed, Describe, Dropped, StatRest,
           HasRoom, UsedWith, GivenBack, Spare, Took, ResizeCost, Capacity, ResizedTree;
      ghost var d := volume.State();
      ghost var size := SizeOf(d.data[ino]);
      FitsExactly(d.bs, newSize);
      if Spare(d, ResizeCost(d.bs, size, newSize)) {
        SpareForResize(d, ino, newSize, !volume.noCow);
      }
      ok, held := ResizeUnblocked(newSize);
      if ok {
        ResizeTook(d, ino, volume.State(), newSize, !volume.noCow);
      }
    }

    /** Grow the file to `newSize` and zero the bytes between its old end and `offset`. */
    method GrowForWrite(newSize: nat, offset: nat) returns (ok: bool, ghost held: set<nat>)
      requires volume.Valid() && WellFormed(volume.State(), ino)
      requires SizeOf(volume.State().data[ino]) < newSize < TWO_64 && offset <= newSize
      modifies volume.Repr()
      ensures volume.Valid() && volume.State().InUse(ino)
      ensures Evolves(old(volume.State()), old(TreeBlocks(TreeAt(volume.State(), ino))),
                      volume.State(), held, ino, !volume.noCow)
      ensures ok ==> StatRest(volume.State().data[ino]) == old(StatRest(volume.State().data[ino]))
      ensures ok ==> && WellFormed(volume.State(), ino) && held == TreeBlocks(TreeAt(volume.State(), ino))
                     && Grown(old(Content(volume.State(), ino)), Content(volume.State(), ino), newSize, offset)
      ensures volume.noCow ==> (ok <==> CanGrow(old(volume.State()), ino, newSize, false))
      ensures !CanGrow(old(volume.State()), ino, newSize, !volume.noCow) ==> !ok
      ensures var cost := GrowCost(volume.blockSize, old(SizeOf(volume.State().data[ino])), newSize, offset);
              && (newSize <= Capacity(volume.blockSize) && Spare(old(volume.State()), cost) ==> ok)
              && (ok ==> Took(old(volume.State()), volume.State(), cost))
      decreases true, 0
    {
      hide Evolves, TreeHeld, TreeOf, TreeBlocks, Content, ResizedContent, Grown, Written, Zeros, ResizedTree,
           StillUsed, Describe, Dropped, StatRest, HasRoom, UsedWith, Fits, GivenBack, EmptyAtEnd, Spare, Took,
           RangeCost, ResizeCost, Capacity, SameOutside, RangeHasRoom, Volume.Valid, Volume.Repr, CanGrow;
      ghost var d := volume.State();
      ghost var K := TreeBlocks(TreeAt(d, ino));
      var oldSize := SizeOf(volume.data[ino]);
      ghost var grow := ResizeCost(d.bs, oldSize, newSize);
      ghost var fill := if oldSize < offset then RangeCost(d.bs, newSize, oldSize, offset - oldSize) else 0;
      if Spare(d, grow + fill) {
        SpareLess(d, grow, fill);
      }
      ok, held := GrowToSize(newSize);
      if ok && offset <= oldSize {
        GrownWithoutHole(Content(d, ino), Content(volume.State(), ino), newSize, offset);
      } else if ok {
        ghost var d1, K1 := volume.State(), held;
        var r;
        ResizedSize(Content(d, ino), Content(d1, ino), newSize);
        if Spare(d, grow + fill) {
          StillSpare(d, d1, grow, fill);
        }
        r, held := WriteUnblocked([], offset - oldSize, oldSize, true);
        EvolvesTrans(d, K, d1, K1, volume.State(), held, ino, !volume.noCow);
        if !r.NoSpace? {
          HoleGrown(Content(d, ino), Content(d1, ino), Content(volume.State(), ino), newSize, offset);
          TookTrans(d, d1, volume.State(), grow, fill);
        }
        ok := !r.NoSpace?;
      }
    }

    /** Write to the file. A write that fails affects no other file; one that finds no block has already
        grown the file. A write within the file runs out of space exactly if there is no room for
        copying what it touches. */
    method Write(data: seq<byte>, offset: nat) returns (r: WriteResult, ghost held: set<nat>)
      requires volume.Valid() && WellFormed(volume.State(), ino) && |data| + offset < TWO_64
      modifies volume.Repr()
      ensures volume.Valid()
      ensures r.Done? ==> r.size == |data|
      ensures !r.NoSpace? ==>
                && (r.NoBlock? <==>
                      old(EmptyAtEnd(SizeOf(volume.State().data[ino]), |data|, offset, volume.blockSize)))
                && FileStep(old(volume.State()), ino, volume.State(), !volume.noCow)
                && StatRest(volume.State().data[ino]) == old(StatRest(volume.State().data[ino]))
                && Content(volume.State(), ino) == Written(old(Content(volume.State(), ino)), data, offset)
      ensures |data| + offset <= old(SizeOf(volume.State().data[ino])) && !r.NoBlock? ==>
                (r.NoSpace? <==> !volume.noCow && !RangeHasRoom(old(volume.State()), ino, offset, |data|))
      ensures volume.noCow ==> (r.NoSpace? <==> !CanGrow(old(volume.State()), ino, |data| + offset, false))
      ensures !CanGrow(old(volume.State()), ino, |data| + offset, !volume.noCow) ==> r.NoSpace?
      ensures var cost := WriteCost(volume.blockSize, old(SizeOf(volume.State().data[ino])), offset, |data|);
              && (|data| + offset <= Capacity(volume.blockSize) && Spare(old(volume.State()), cost) ==> !r.NoSpace?)
              && (!r.NoSpace? ==> Took(old(volume.State()), volume.State(), cost))
      ensures r.NoSpace? ==>
                Evolves(old(volume.State()), old(TreeBlocks(TreeAt(volume.State(), ino))),
                        volume.State(), held, ino, !volume.noCow)
    {
      hide Spare, Took, WriteCost, CanGrow, RangeHasRoom, Written, Content, Evolves;
      r, held := WriteUnblocked(data, |data|, offset, false);
    }

    /** Change the size of the file. A resize that fails affects no other file. */
    method Resize(newSize: nat) returns (ok: bool, ghost held: set<nat>)
      requires volume.Valid() && WellFormed(volume.State(), ino) && newSize < TWO_64
      modifies volume.Repr()
      ensures volume.Valid()
      ensures ok ==>
                && FileStep(old(volume.State()), ino, volume.State(), !volume.noCow)
                && StatRest(volume.State().data[ino]) == old(StatRest(volume.State().data[ino]))
                && ResizedContent(old(Content(volume.State(), ino)), Content(volume.State(), ino), newSize)
                && ResizedTree(old(TreeAt(volume.State(), ino)), TreeAt(volume.State(), ino),
                               Describe(volume.blockSize, newSize))
      ensures ok && newSize <= old(SizeOf(volume.State().data[ino])) ==>
                GaveUp(old(volume.State()),
                       old(Dropped(TreeAt(volume.State(), ino), Describe(volume.blockSize, newSize))), volume.State())
      ensures !ok ==>
                Evolves(old(volume.State()), old(TreeBlocks(TreeAt(volume.State(), ino))),
                        volume.State(), held, ino, !volume.noCow)
      ensures ok <==> && newSize <= Capacity(volume.blockSize)
                      && HasRoom(old(volume.State()), old(TreeAt(volume.State(), ino)),
                                 Describe(volume.blockSize, newSize), !volume.noCow)
      ensures newSize <= old(SizeOf(volume.State().data[ino])) ==> ok
      ensures newSize > Capacity(volume.blockSize) ==> !ok && volume.State() == old(volume.State())
      ensures UsedWith(old(volume.State()), old(TreeAt(volume.State(), ino)), Describe(volume.blockSize, newSize))
                > volume.Blocks() && newSize <= Capacity(volume.blockSize) ==>
                GivenBack(old(volume.State()), ino, volume.State())
    {
      hide HasRoom, UsedWith, Uses, KeepsAccount;
      ghost var d := volume.State();
      FitsExactly(volume.blockSize, newSize);
      FitsExactly(volume.blockSize, SizeOf(d.data[ino]));
      ok, held := ResizeUnblocked(newSize);
      if newSize <= SizeOf(d.data[ino]) {
        DescribeMonotone(d.bs, newSize, SizeOf(d.data[ino]));
        ShrinkHasRoom(d, TreeAt(d, ino), Describe(d.bs, newSize), !volume.noCow);
        ShrinkGivesUp(d, ino, TreeAt(d, ino), Describe(d.bs, newSize), volume.State(), !volume.noCow);
      }
    }
  }
}
