/** Concrete inputs on which the code falls short of what one might expect of it. */
module Examples {
  import opened Bytes
  import opened DiskState
  import Layout
  import opened Evolution
  import opened FileTree
  import opened TreeOwnership
  import opened ParentLinks
  import opened Occupancy
  import opened FileCommit
  import opened Volume
  import opened InodeService
  import opened DirectoryView
  import opened Formatting

  const BS: nat := 512

  /* ---- a resize that loses a file ---- */

  function DirStat(): seq<byte> {
    Zeros(STAT_SIZE)[MODE_OFFSET + 1 := 64]
  }

  lemma DirStatIsEmptyDir()
    ensures EmptyDirStat(DirStat())
  {
    assert DirStat()[SIZE_OFFSET..SIZE_OFFSET + WORD] == Zeros(WORD);
    assert WordBytes(0) == Zeros(WORD);
    Pow256Word();
    FromToBytes(0, WORD);
  }

  /** A formatted disk of five blocks has room for a file of one byte: one block on each level, and a
      fifth one for moving the parents. */
  lemma RoomForOneByte(d: Disk)
    requires d.Shape() && d.bs == BS && |d.bits| == 5 && Uses(d) == {0}
    ensures HasRoom(d, Tree([], [], []), Describe(BS, 1), true)
  {
    var n := Describe(BS, 1);
    assert n == Descriptor(1, 1, 1);
    var t := Tree([], [], []);
    assert Dropped(t, n) == [] && Elems([]) == {};
    assert Uses(d) - Freed(d, {}) == {0};
    var p := Fanout(BS);
    assert Pinned(d, [], Beyond(0, 1), p, 0) == {} == Pinned(d, [], Beyond(0, 1), p, 1);
    var flags := ParentFlags(Beyond(0, 1), Beyond(0, 1), p);
    assert Pinned(d, [], flags, p, 0) == {};
  }

  /** A file of one byte and its inode use four blocks, so three more pointers cannot be covered. */
  lemma NoRoomForThreeBlocks(d: Disk)
    requires d.bs == BS && |d.bits| == 5 && WellFormed(d, 0) && SizeOf(d.data[0]) == 1
    ensures UsedWith(d, TreeAt(d, 0), Describe(BS, 1025)) > 5
    ensures TreeAt(d, 0).l3[0] in TreeBlocks(TreeAt(d, 0)) && TreeAt(d, 0).l3[0] != 0
  {
    hide Uses, Describe;
    var (t, n) := (TreeAt(d, 0), Describe(BS, 1025));
    OneAndThreeBlocks();
    FourInUse(d, t);
    hide TreeHeld, WellFormed;
    assert Dropped(t, n) == [] && Elems([]) == {};
    assert Uses(d) - Freed(d, {}) == Uses(d);
  }

  lemma OneAndThreeBlocks()
    ensures Describe(BS, 1) == Descriptor(1, 1, 1) && Describe(BS, 1025) == Descriptor(1, 1, 3)
  {
  }

  lemma FourInUse(d: Disk, t: Tree)
    requires d.InUse(0) && TreeHeld(d, 0, t) && |t.l1| == |t.l2| == |t.l3| == 1
    ensures 4 <= |Uses(d)|
    ensures t.l3[0] in TreeBlocks(t) && t.l3[0] != 0
  {
    var (a, b, c) := (t.l1[0], t.l2[0], t.l3[0]);
    assert a in Elems(t.l1) && b in Elems(t.l2) && c in Elems(t.l3);
    SubsetSize({0, a, b, c}, Uses(d));
  }

  /** On a disk of five blocks, a file of one byte cannot grow to three blocks. Afterwards no byte on
      the disk has changed, but the file is lost: its inode points at blocks that are free. */
  method LoseFile() returns (service: InodeService, ghost before: Disk)
    ensures service.ino == 0 && service.volume.Valid()
    ensures WellFormed(before, 0) && |Content(before, 0)| == 1
    ensures service.volume.State().data == before.data && !WellFormed(service.volume.State(), 0)
  {
    hide HasRoom, TreeHeld;
    var attrs, blocks := seq(5, _ => FRESH_ATTR), seq(5, _ => Zeros(BS));
    DirStatIsEmptyDir();
    FormattedRoot(BS, attrs, blocks, DirStat());
    var volume := new Volume.Format(BS, false, attrs, blocks, DirStat());
    ghost var d := volume.State();
    assert Uses(d) == {0};
    RoomForOneByte(d);
    service := new InodeService(volume, 0);
    var ok;
    ghost var held;
    ok, held := service.Resize(1);
    before := volume.State();
    NoRoomForThreeBlocks(before);
    FreshFile(d, before, TreeAt(before, 0).l3[0]);
    ok, held := service.Resize(1025);
    LostFile(before, 0, volume.State());
  }

  lemma FreshFile(d: Disk, d': Disk, j: nat)
    requires WellFormed(d, 0) && TreeAt(d, 0) == Tree([], [], []) && WellFormed(d', 0)
    requires Evolves(d, TreeBlocks(TreeAt(d, 0)), d', TreeBlocks(TreeAt(d', 0)), 0, true)
    requires j in TreeBlocks(TreeAt(d', 0))
    ensures d'.attr[j].refs == 1
  {
    assert Elems([]) == {};
    assert d'.InUse(j);
    assert EvolvesAt(d, {}, d', TreeBlocks(TreeAt(d', 0)), 0, true, j);
  }

  /* ---- a reclamation that is not counted ---- */

  /** On a full disk of two blocks, one of which has lost its last reference but not its type, the
      counter is exact. An allocation reclaims that block and leaves the counter one too high. */
  lemma MiscountedReclamation() returns (d: Disk, d': Disk)
    ensures d.Shape() && d.used == 2 && UsedSet(d) == {0, 1}
    ensures Allocation.Allocate(d) == (d', Wrappers.Some(1)) && d'.used == 2 && UsedSet(d') == {0}
  {
    var unreferenced := Attr(SnapshotRegular, Storage, Storage, 0, 0);
    d := Disk(BS, [true, true], [INODE_ATTR, unreferenced], [Zeros(BS), Zeros(BS)], 0, 2, 0);
    d' := Allocation.Allocate(d).0;
    Allocation.AllocateFailsExactlyWhenFull(d);
    assert !d.InUse(1);
    Allocation.AllocateReclaims(d);
    Allocation.AllocateKeepsData(d);
    Allocation.AllocateMarks(d, 1);
    Allocation.AllocateKeepsOthers(d, 0);
  }

  /* ---- a layout that is not the best ---- */

  /** For 30 blocks of 16 KiB the search settles for 26 data blocks where 27 fit. */
  lemma SearchMisses()
    ensures Layout.Search(16384, 30, 0) == 26
    ensures Layout.Best(16384, 30, 27)
  {
    assert forall x: nat :: 1 <= x <= 31 ==> Layout.AllBlocks(16384, x) == x + 3;
    assert Layout.Search(16384, 30, 26) == 26;
    assert Layout.Search(16384, 30, 22) == Layout.Search(16384, 30, 26);
    assert Layout.Search(16384, 30, 15) == Layout.Search(16384, 30, 22);
  }
}
