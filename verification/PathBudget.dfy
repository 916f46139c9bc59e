/** How many blocks must be to spare for copying an open path and saving directories, for this to
    succeed whatever is shared with snapshots. */
module PathBudget {
  import opened Arithmetic
  import opened Bytes
  import opened DiskState
  import opened FileTree
  import opened Budget
  import opened DentryCodec
  import opened PathCopy

  /* ---- one pass over a file ---- */

  /** Every block of the file is new, and every parent is copied once more. */
  function Pass(bs: nat, size: nat): nat
    requires BlockSize(bs)
  {
    FileBlocks(bs, size) + ParentBlocks(bs, size)
  }

  lemma PassMonotone(bs: nat, size: nat, limit: nat)
    requires BlockSize(bs) && size <= limit
    ensures Pass(bs, size) <= Pass(bs, limit)
  {
    DescribeMonotone(bs, size, limit);
  }

  lemma ResizeInPass(bs: nat, size: nat, newSize: nat, limit: nat)
    requires BlockSize(bs) && newSize <= limit
    ensures ResizeCost(bs, size, newSize) <= Pass(bs, limit)
  {
    PassMonotone(bs, newSize, limit);
  }

  lemma WriteInPass(bs: nat, size: nat, offset: nat, n: nat, limit: nat)
    requires BlockSize(bs) && 0 < n && offset + n <= size <= limit
    ensures WriteCost(bs, size, offset, n) <= Pass(bs, limit)
    ensures size <= Capacity(bs) ==> WriteFits(bs, size, offset, n)
  {
    PassMonotone(bs, size, limit);
    CeilDivMonotone(bs, offset + n, size);
    assert Touched(bs, offset, n) <= Describe(bs, size).n3;
  }

  /** A file can have this size. */
  predicate Storable(bs: nat, size: nat)
    requires BlockSize(bs)
  {
    size <= Capacity(bs) && size < TWO_64
  }

  /* ---- the files of the directories on a path ---- */

  /** What does not change while a volume is mounted. */
  datatype Setting = Setting(bs: nat, blocks: nat, z: Compression, reserved: nat)

  /** A directory that is saved for the first time gets its start recorded. */
  function FirstStart(start: nat): nat {
    if start == 0 then WORD else start
  }

  /** The size of a directory's file at most, when these names start there. */
  ghost function SavedSize(z: Compression, start: nat, names: set<Name>): nat {
    start + WORD + z.bound(NamesLength(names))
  }

  /** Where a copied root's entries start at most: behind its packed bitmap and inode block. */
  ghost function RootStart(v: Setting): nat {
    v.z.bound(CeilDiv(8, v.blocks) + v.bs) + WORD + v.reserved
  }

  ghost function StartOf(v: Setting, hs: seq<Handle>, k: nat): nat
    requires k < |hs|
  {
    if k == 0 then RootStart(v) else FirstStart(hs[k].start)
  }

  ghost function SizeOfDir(v: Setting, hs: seq<Handle>, k: nat): nat
    requires k < |hs|
  {
    SavedSize(v.z, StartOf(v, hs, k), hs[k].entries.Keys)
  }

  /** For the root: its new inode block, the metadata in three passes, the entries in four. For every
      directory whose entry is redirected: the child's new inode block, and its own entries in five. */
  ghost function PathCost(v: Setting, hs: seq<Handle>): nat
    requires BlockSize(v.bs) && hs != []
  {
    if |hs| == 1 then 1 + 7 * Pass(v.bs, SizeOfDir(v, hs, 0))
    else PathCost(v, hs[..|hs| - 1]) + 1 + 5 * Pass(v.bs, SizeOfDir(v, hs, |hs| - 2))
  }

  /** All the directories that are saved fit into their inodes. */
  ghost predicate PathFits(v: Setting, hs: seq<Handle>)
    requires BlockSize(v.bs) && hs != []
  {
    forall k :: 0 <= k < |hs| && (k == 0 || k < |hs| - 1) ==> Storable(v.bs, SizeOfDir(v, hs, k))
  }

  /** The same names in each directory, starting at the same place below the root. */
  ghost predicate SameSizes(hs: seq<Handle>, hs': seq<Handle>) {
    && |hs'| == |hs|
    && (forall k :: 0 <= k < |hs| ==> hs'[k].entries.Keys == hs[k].entries.Keys)
    && (forall k :: 0 < k < |hs| ==> FirstStart(hs'[k].start) == FirstStart(hs[k].start))
  }

  lemma {:induction false} SameSizesCost(v: Setting, hs: seq<Handle>, hs': seq<Handle>)
    requires BlockSize(v.bs) && hs != [] && SameSizes(hs, hs')
    ensures PathCost(v, hs') == PathCost(v, hs)
    ensures PathFits(v, hs') <==> PathFits(v, hs)
    ensures StartOf(v, hs', |hs| - 1) == StartOf(v, hs, |hs| - 1)
    decreases |hs|
  {
    if |hs| > 1 {
      SameSizesCost(v, hs[..|hs| - 1], hs'[..|hs| - 1]);
    }
    assert forall k :: 0 <= k < |hs| ==> SizeOfDir(v, hs', k) == SizeOfDir(v, hs, k);
  }

  /** One level of the recursion. */
  lemma PathCostChild(v: Setting, hs: seq<Handle>, h: Handle)
    requires BlockSize(v.bs) && hs != []
    ensures PathCost(v, hs + [h]) == PathCost(v, hs) + 1 + 5 * Pass(v.bs, SizeOfDir(v, hs, |hs| - 1))
  {
    var all := hs + [h];
    assert all[..|all| - 1] == hs;
    assert all[|hs| - 1] == hs[|hs| - 1];
    assert SizeOfDir(v, all, |all| - 2) == SizeOfDir(v, hs, |hs| - 1);
    hide SizeOfDir, Pass;
  }

  lemma PathFitsChild(v: Setting, hs: seq<Handle>, h: Handle)
    requires BlockSize(v.bs) && hs != []
    ensures PathFits(v, hs + [h]) <==> PathFits(v, hs) && Storable(v.bs, SizeOfDir(v, hs, |hs| - 1))
  {
    var all := hs + [h];
    forall k | 0 <= k < |hs|
      ensures SizeOfDir(v, all, k) == SizeOfDir(v, hs, k)
    {
      assert all[k] == hs[k];
    }
    hide SizeOfDir, Storable;
    assert PathFits(v, all) ==> Storable(v.bs, SizeOfDir(v, all, |hs| - 1));
    if PathFits(v, hs) && Storable(v.bs, SizeOfDir(v, hs, |hs| - 1)) {
      forall k | 0 <= k < |all| && (k == 0 || k < |all| - 1)
        ensures Storable(v.bs, SizeOfDir(v, all, k))
      {
        assert SizeOfDir(v, all, k) == SizeOfDir(v, hs, k);
      }
    }
  }

  lemma RootCost(v: Setting, h: Handle)
    requires BlockSize(v.bs)
    ensures var size := SavedSize(v.z, RootStart(v), h.entries.Keys);
            PathCost(v, [h]) == 1 + 7 * Pass(v.bs, size) && (PathFits(v, [h]) <==> Storable(v.bs, size))
  {
    assert SizeOfDir(v, [h], 0) == SavedSize(v.z, RootStart(v), h.entries.Keys);
  }

  /** A root that has been copied has its entries where they are accounted for. */
  ghost predicate RootPlaced(v: Setting, hs: seq<Handle>) {
    hs != [] && 0 < hs[0].start <= RootStart(v)
  }

  /** Saving the last directory of a copied path is accounted for. */
  lemma LevelWithin(v: Setting, hs: seq<Handle>, hs': seq<Handle>, d: Disk, d': Disk, ok: bool)
    requires BlockSize(v.bs) && hs != [] && SameSizes(hs, hs') && RootPlaced(v, hs')
    requires var h := hs'[|hs'| - 1];
             var size := SavedSize(v.z, FirstStart(h.start), h.entries.Keys);
             Within(d, d', 1 + 5 * Pass(v.bs, size), Storable(v.bs, size), ok)
    ensures var size := SizeOfDir(v, hs, |hs| - 1);
            Within(d, d', 1 + 5 * Pass(v.bs, size), Storable(v.bs, size), ok)
  {
    var h := hs'[|hs'| - 1];
    var (used, size) := (SavedSize(v.z, FirstStart(h.start), h.entries.Keys), SizeOfDir(v, hs, |hs| - 1));
    PassMonotone(v.bs, used, size);
    hide Within, Pass;
    WithinMore(d, d', 1 + 5 * Pass(v.bs, used), Storable(v.bs, used), ok, 1 + 5 * Pass(v.bs, size),
               Storable(v.bs, size));
  }

  /** Saving entries that start earlier takes no more. */
  lemma EntriesWithin(d: Disk, z: Compression, now: nat, start: nat, names: set<Name>, d': Disk, ok: bool)
    requires BlockSize(d.bs) && now <= start
    requires var size := SavedSize(z, now, names);
             Within(d, d', 1 + 4 * Pass(d.bs, size), Storable(d.bs, size), ok)
    ensures var size := SavedSize(z, start, names);
            Within(d, d', 1 + 4 * Pass(d.bs, size), Storable(d.bs, size), ok)
  {
    var (used, size) := (SavedSize(z, now, names), SavedSize(z, start, names));
    PassMonotone(d.bs, used, size);
    hide Within, Pass;
    WithinMore(d, d', 1 + 4 * Pass(d.bs, used), Storable(d.bs, used), ok, 1 + 4 * Pass(d.bs, size),
               Storable(d.bs, size));
  }

  lemma RelinkedSizes(v: Setting, hs: seq<Handle>, hs1: seq<Handle>, up: Handle)
    requires hs != [] && SameSizes(hs, hs1) && RootPlaced(v, hs1)
    requires var h := hs1[|hs1| - 1];
             up.entries.Keys == h.entries.Keys && up.start == FirstStart(h.start)
    ensures SameSizes(hs, WithLast(hs1, up)) && RootPlaced(v, WithLast(hs1, up))
  {
  }

  lemma SameSizesChild(v: Setting, hs: seq<Handle>, h: Handle, hs': seq<Handle>, h': Handle)
    requires SameSizes(hs, hs') && RootPlaced(v, hs') && h'.entries == h.entries && h'.start == h.start
    ensures SameSizes(hs + [h], hs' + [h']) && RootPlaced(v, hs' + [h'])
  {
  }

  /* ---- entry points of snapshots ---- */

  /** No inode on the path is the entry point of a snapshot. */
  ghost predicate NoEntryPoint(d: Disk, hs: seq<Handle>) {
    forall k :: 0 <= k < |hs| ==> NotEntryPoint(d, hs[k])
  }

  ghost predicate NotEntryPoint(d: Disk, h: Handle) {
    h.current < |d.attr| ==> d.attr[h.current].status != SnapshotEntry
  }

  lemma CheckedLast(d: Disk, hs: seq<Handle>)
    requires hs != [] && !NotEntryPoint(d, hs[|hs| - 1])
    ensures !NoEntryPoint(d, hs)
  {
  }

  lemma CheckedPath(d: Disk, hs: seq<Handle>, h: Handle)
    requires NotEntryPoint(d, h)
    ensures NoEntryPoint(d, hs + [h]) <==> NoEntryPoint(d, hs)
  {
    if NoEntryPoint(d, hs + [h]) {
      forall k | 0 <= k < |hs|
        ensures NotEntryPoint(d, hs[k])
      {
        assert (hs + [h])[k] == hs[k];
      }
    }
  }
}
