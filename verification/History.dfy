/** What becomes of blocks that nobody uses any more: until the allocator reclaims them, they keep
    their bytes, so files and directories can still be read through their old inode blocks. */
module History {
  import opened DiskState
  import opened Evolution
  import opened BlockSteps
  import opened FileTree
  import opened FileSystem
  import opened DentryCodec
  import opened DirectoryTree
  import opened DirectoryView
  import opened Operations
  import opened PathCopy

  /** As long as nothing has been reclaimed, every block that was allocated still is and has kept
      its bytes, except possibly block `w`. */
  ghost predicate OldKept(d: Disk, d': Disk, w: int) {
    && SameGeometry(d, d') && d.sweeps <= d'.sweeps
    && (d'.sweeps == d.sweeps ==>
          forall j: nat :: j < |d.bits| && d.bits[j] && j != w ==> d'.bits[j] && d'.data[j] == d.data[j])
  }

  /** Block `n` was free at first, as far as nothing has been reclaimed since. */
  ghost predicate NewSince(d: Disk, d': Disk, n: nat) {
    n < |d.bits| && (d'.sweeps == d.sweeps ==> !d.bits[n])
  }

  lemma EvolvesOld(d: Disk, K: set<nat>, d': Disk, K': set<nat>, w: int)
    requires Transfers(d, K, d', K', w, true)
    ensures OldKept(d, d', w)
  {
    forall j: nat | d'.sweeps == d.sweeps && j < |d.bits| && d.bits[j] && j != w
      ensures d'.bits[j] && d'.data[j] == d.data[j]
    {
      assert EvolvesAt(d, K, d', K', w, true, j);
    }
  }

  lemma OldTrans(d: Disk, d1: Disk, d2: Disk, w: int)
    requires OldKept(d, d1, -1) && OldKept(d1, d2, w)
    requires 0 <= w ==> NewSince(d, d1, w)
    ensures OldKept(d, d2, -1)
  {
  }

  lemma NewTrans(d: Disk, d1: Disk, d2: Disk, n: nat)
    requires OldKept(d, d1, -1) && d1.sweeps <= d2.sweeps && SameGeometry(d1, d2)
    requires NewSince(d1, d2, n) || NewSince(d, d1, n)
    ensures NewSince(d, d2, n)
  {
  }

  /** The inode that a step writes in place, if any. */
  function InPlace(e: Event): int {
    match e
    case Wrote(ino, _, _) => ino
    case Resized(ino, _) => ino
    case StatSet(ino) => ino
    case Failed(ino, _) => ino
    case _ => -1
  }

  lemma StepOld(s: State, e: Event, s': State)
    requires Consistent(s) && Step(s, e, s', true)
    ensures OldKept(s.disk, s'.disk, InPlace(e))
  {
    hide EvolvesAt, WellFormed;
    var (d, d') := (s.disk, s'.disk);
    match e
    case Wrote(ino, _, _) => EvolvesOld(d, TreeBlocks(TreeAt(d, ino)), d', TreeBlocks(TreeAt(d', ino)), ino);
    case Resized(ino, _) => EvolvesOld(d, TreeBlocks(TreeAt(d, ino)), d', TreeBlocks(TreeAt(d', ino)), ino);
    case StatSet(ino) => EvolvesOld(d, {}, d', {}, ino);
    case Staged(ino, copy) => EvolvesOld(d, {}, d', {copy}, -1);
    case Adopted(ino, copy) =>
    case Retired(ino) => EvolvesOld(d, {ino}, d', {}, -1);
    case Created(ino, img) =>
      CreateTransfers(d, ino, img);
      EvolvesOld(d, {}, d', {ino}, -1);
    case Failed(ino, held) => EvolvesOld(d, TreeBlocks(TreeAt(d, ino)), d', held, ino);
    case Searched => EvolvesOld(d, {}, d', {}, -1);
  }

  /** Over a run with copy-on-write, a block that is never written in place keeps its bytes until
      something is reclaimed. */
  lemma {:induction false} RunOld(ss: seq<State>, es: seq<Event>, k: nat, j: nat)
    requires Run(ss, es, true) && Consistent(ss[0]) && k < |ss|
    requires j < |ss[0].disk.bits| && ss[0].disk.bits[j] && forall e :: e in es ==> InPlace(e) != j
    ensures SameGeometry(ss[0].disk, ss[k].disk) && ss[0].disk.sweeps <= ss[k].disk.sweeps
    ensures ss[k].disk.sweeps == ss[0].disk.sweeps ==> ss[k].disk.bits[j] && ss[k].disk.data[j] == ss[0].disk.data[j]
    decreases k
  {
    if k != 0 {
      RunOld(ss, es, k - 1, j);
      RunConsistent(ss, es, true, k - 1);
      StepOld(ss[k - 1], es[k - 1], ss[k]);
      assert InPlace(es[k - 1]) != j;
    }
  }

  /* ---- reading through old inode blocks ---- */

  /** What block `i`, taken as an inode, shows on disk `d`, used or not. */
  ghost function RawNode(d: Disk, i: nat, z: Compression): Node {
    if d.Shape() && i < |d.data| && Fits(d.bs, SizeOf(d.data[i])) then
      var c := ContentOf(d, d.data[i]);
      if IsDir(d.data[i]) then DirNode(ReadDir(c, z)) else FileNode(c)
    else FileNode([])
  }

  lemma OldFile(d: Disk, d': Disk, i: nat, z: Compression)
    requires OldKept(d, d', -1) && d'.sweeps == d.sweeps && WellFormed(d, i)
    ensures d'.data[i] == d.data[i] && ContentOf(d', d.data[i]) == Content(d, i)
    ensures RawNode(d', i, z) == NodeAt(d, i, z)
  {
    var t := TreeAt(d, i);
    forall j | j in TreeBlocks(t) + {i}
      ensures j < |d.data| && d'.data[j] == d.data[j]
    {
      assert d.InUse(j);
    }
    OldLevel(d, d', t.l1, TreeBlocks(t));
    OldLevel(d, d', t.l2, TreeBlocks(t));
    OldLevel(d, d', t.l3, TreeBlocks(t));
    FileFrame(d, d', d.data[i]);
  }

  lemma OldLevel(d: Disk, d': Disk, l: seq<nat>, F: set<nat>)
    requires SameGeometry(d, d') && Elems(l) <= F
    requires forall z :: z in F ==> z < |d.data| && d'.data[z] == d.data[z]
    ensures SameData(d, d', l)
  {
    forall q | 0 <= q < |l|
      ensures l[q] in Elems(l)
    {
    }
  }

  /** The old tree: what the inodes that were live in `s` show on a later disk. */
  ghost function OldTree(s: State, d': Disk, z: Compression, kept: set<nat>): Namespace {
    Namespace(map i | i in s.live :: RawNode(d', i, z), kept)
  }

  /** Until something is reclaimed, the old blocks still decode to the old tree: from the old root,
      every path leads where it led, and to the same contents. */
  lemma OldTreeReads(s: FileSys, d': Disk, z: Compression, kept: set<nat>)
    requires OldKept(s.disk, d', -1) && d'.sweeps == s.disk.sweeps
    ensures OldTree(s, d', z, kept) == NamespaceOf(s, z, kept)
    ensures forall i, path :: Locate(OldTree(s, d', z, kept), i, path) == Locate(NamespaceOf(s, z, kept), i, path)
  {
    forall i | i in s.live
      ensures RawNode(d', i, z) == NodeAt(s.disk, i, z)
    {
      OldFile(s.disk, d', i, z);
    }
    SameMap(NamespaceOf(s, z, kept).nodes, OldTree(s, d', z, kept).nodes);
  }

  /* ---- the steps of copying a path ---- */

  lemma StagedOld(s: FileSys, c: nat, n: nat, s': FileSys)
    requires Step(s, Staged(c, n), s', true)
    ensures OldKept(s.disk, s'.disk, -1) && NewSince(s.disk, s'.disk, n)
  {
    StepOld(s, Staged(c, n), s');
  }

  lemma FileChangedOld(s: FileSys, p: nat, s': FileSys)
    requires FileChanged(s, p, s', true)
    ensures OldKept(s.disk, s'.disk, p)
  {
    EvolvesOld(s.disk, TreeBlocks(TreeAt(s.disk, p)), s'.disk, TreeBlocks(TreeAt(s'.disk, p)), p);
  }

  lemma RootStepsOld(s: FileSys, c: nat, n: nat, s1: FileSys, s2: FileSys, s3: FileSys, s5: FileSys, s6: FileSys)
    requires RootSteps(s, c, n, s1, s2, s3, s5, s6)
    ensures OldKept(s.disk, s6.disk, -1) && NewSince(s.disk, s6.disk, n)
  {
    hide Consistent, Evolves, FileStep, SameFile, OldKept, NewSince, WellFormed;
    StagedOld(s, c, n, s1);
    FileChangedOld(s2, n, s3);
    StepOld(s3, StatSet(n), s5);
    StepOld(s5, Retired(c), s6);
    OldChain(s.disk, s1.disk, s3.disk, s5.disk, s6.disk, n);
  }

  lemma OldChain(d: Disk, d1: Disk, d3: Disk, d5: Disk, d6: Disk, n: nat)
    requires OldKept(d, d1, -1) && NewSince(d, d1, n)
    requires OldKept(d1, d3, n) && OldKept(d3, d5, n) && OldKept(d5, d6, -1)
    ensures OldKept(d, d6, -1) && NewSince(d, d6, n)
  {
  }

  /** Staging a child's copy and rewriting the parent `p` in place. */
  lemma RelinkOld(s1: FileSys, p: nat, c: nat, n: nat, s2: FileSys, s3: FileSys)
    requires Step(s1, Staged(c, n), s2, true) && FileChanged(s2, p, s3, true)
    ensures OldKept(s1.disk, s3.disk, p) && NewSince(s1.disk, s3.disk, n)
  {
    hide Consistent, Evolves, FileStep;
    StagedOld(s1, c, n, s2);
    FileChangedOld(s2, p, s3);
  }

  lemma SettlesOld(s3: FileSys, c: nat, n: nat, s4: FileSys, s5: FileSys, s6: FileSys)
    requires Settles(s3, c, n, s4, s5, s6)
    ensures OldKept(s3.disk, s6.disk, n)
  {
    hide Consistent, Evolves, FileStep, SameFile;
    StepOld(s4, StatSet(n), s5);
    StepOld(s5, Retired(c), s6);
  }

  /** Every inode of a copied path is in a block that was free before. */
  ghost predicate PathNew(d: Disk, d': Disk, hs: seq<Handle>) {
    forall k :: 0 <= k < |hs| ==> NewSince(d, d', hs[k].current)
  }

  /** All of it together: the path above has been copied from `d` to `d1`, the parent at the end of
      it rewritten until `d3`, and the child settled at `n` by `d6`. */
  lemma ChildOld(d: Disk, d1: Disk, hs1: seq<Handle>, d3: Disk, up': Handle, d6: Disk, h': Handle)
    requires OldKept(d, d1, -1) && PathNew(d, d1, hs1) && hs1 != []
    requires up'.current == hs1[|hs1| - 1].current
    requires OldKept(d1, d3, up'.current) && NewSince(d1, d3, h'.current) && OldKept(d3, d6, h'.current)
    ensures OldKept(d, d6, -1) && PathNew(d, d6, WithLast(hs1, up') + [h'])
  {
    var n := h'.current;
    OldTrans(d, d1, d3, up'.current);
    NewTrans(d, d1, d3, n);
    OldTrans(d, d3, d6, n);
    var hs := WithLast(hs1, up') + [h'];
    forall k | 0 <= k < |hs|
      ensures NewSince(d, d6, hs[k].current)
    {
      if k < |hs1| {
        assert hs[k].current == hs1[k].current && NewSince(d, d1, hs1[k].current);
      }
    }
  }
}
