/** The name space that a state of the file system denotes, and what the steps of copying a path
    do to it. */
module DirectoryView {
  import opened Bytes
  import opened DiskState
  import opened Evolution
  import opened FileTree
  import opened FileSystem
  import opened Snapshot
  import opened DentryCodec
  import opened DirectoryTree
  import opened Operations
  import opened PathCopy

  const MODE_OFFSET := 16

  /** The file type is the top four bits of the 16-bit mode. */
  predicate IsDir(img: Block)
    requires 512 <= |img|
  {
    img[MODE_OFFSET + 1] / 16 == 4
  }

  lemma SameKind(img: Block, img': Block)
    requires 512 <= |img| == |img'|
    requires StatRest(img') == StatRest(img) || (exists n :: img' == Put(img, INO_OFFSET, WordBytes(n)))
    ensures IsDir(img') == IsDir(img)
  {
    if StatRest(img') == StatRest(img) {
      assert StatRest(img)[MODE_OFFSET + 1] == img[MODE_OFFSET + 1];
      assert StatRest(img')[MODE_OFFSET + 1] == img'[MODE_OFFSET + 1];
    }
  }

  /** An inode as the directory tree sees it. */
  ghost function NodeAt(d: Disk, i: nat, z: Compression): Node {
    if WellFormed(d, i) && IsDir(d.data[i]) then DirNode(ReadDir(BytesAt(d, i), z)) else FileNode(BytesAt(d, i))
  }

  /** `kept` are inodes outside the live tree that entries may lead to: snapshots. */
  ghost function NamespaceOf(s: State, z: Compression, kept: set<nat>): Namespace {
    Namespace(map i | i in s.live :: NodeAt(s.disk, i, z), kept)
  }

  /** A live inode that still shows what it did, and is frozen as it was. */
  ghost predicate Stays(s: State, s': State, i: nat, z: Compression) {
    && i in s.live && i in s'.live && s'.disk.Frozen(i) == s.disk.Frozen(i)
    && BytesAt(s'.disk, i) == BytesAt(s.disk, i) && NodeAt(s'.disk, i, z) == NodeAt(s.disk, i, z)
  }

  /** And whose inode block has the same bytes. */
  ghost predicate StaysIntact(s: State, s': State, i: nat, z: Compression) {
    Stays(s, s', i, z) && i < |s.disk.data| && i < |s'.disk.data| && s'.disk.data[i] == s.disk.data[i]
  }

  lemma KeptAt(s: FileSys, s': FileSys, i: nat, z: Compression)
    requires i in s.live && i in s'.live
    requires s'.disk.Frozen(i) == s.disk.Frozen(i)
    requires Content(s'.disk, i) == Content(s.disk, i) && IsDir(s'.disk.data[i]) == IsDir(s.disk.data[i])
    ensures Stays(s, s', i, z)
  {
  }

  lemma SameView(s: State, s': State, z: Compression, kept: set<nat>)
    requires s'.live == s.live
    requires forall i :: i in s.live ==> NodeAt(s'.disk, i, z) == NodeAt(s.disk, i, z)
    ensures NamespaceOf(s', z, kept) == NamespaceOf(s, z, kept)
  {
    SameMap(NamespaceOf(s, z, kept).nodes, NamespaceOf(s', z, kept).nodes);
  }

  ghost function ViewWith(s: State, z: Compression, kept: set<nat>, ino: nat, n: Node): Namespace {
    var ns := NamespaceOf(s, z, kept);
    ns.(nodes := ns.nodes[ino := n])
  }

  lemma OneChanged(s: State, s': State, ino: nat, z: Compression, kept: set<nat>)
    requires s'.live == s.live && ino in s.live
    requires forall i :: i in s.live && i != ino ==> NodeAt(s'.disk, i, z) == NodeAt(s.disk, i, z)
    ensures NamespaceOf(s', z, kept) == ViewWith(s, z, kept, ino, NodeAt(s'.disk, ino, z))
  {
    hide NodeAt;
    SameMap(ViewWith(s, z, kept, ino, NodeAt(s'.disk, ino, z)).nodes, NamespaceOf(s', z, kept).nodes);
  }

  lemma OneMoved(s: State, s': State, c: nat, n: nat, z: Compression, kept: set<nat>)
    requires c in s.live && n !in s.live && s'.live == s.live - {c} + {n}
    requires NodeAt(s'.disk, n, z) == NodeAt(s.disk, c, z)
    requires forall i :: i in s.live && i != c ==> NodeAt(s'.disk, i, z) == NodeAt(s.disk, i, z)
    ensures NamespaceOf(s', z, kept) == WithRootAt(NamespaceOf(s, z, kept), c, n)
  {
    hide NodeAt;
    SameMap(WithRootAt(NamespaceOf(s, z, kept), c, n).nodes, NamespaceOf(s', z, kept).nodes);
  }

  /** Changing one file leaves the other inodes alone, and copies waiting to be adopted keep
      their bytes. */
  lemma FileChangedKeeps(s: FileSys, ino: nat, s': FileSys, z: Compression, cow: bool)
    requires FileChanged(s, ino, s', cow)
    ensures forall i :: i in s.live && i != ino ==> StaysIntact(s, s', i, z)
    ensures forall n :: n in s.loose ==>
        n != ino && s'.disk.InUse(n) && SameAttr(s.disk, s'.disk, n) && s'.disk.data[n] == s.disk.data[n]
  {
    forall i | i in s.live && i != ino
      ensures StaysIntact(s, s', i, z)
    {
      FileStepOther(s, ino, s'.disk, cow, i);
      KeptAt(s, s', i, z);
    }
    var (K, K') := (TreeBlocks(TreeAt(s.disk, ino)), TreeBlocks(TreeAt(s'.disk, ino)));
    assert ino in Footprint(s.disk, ino) && K <= Footprint(s.disk, ino);
    forall n | n in s.loose
      ensures n != ino && s'.disk.InUse(n) && SameAttr(s.disk, s'.disk, n) && s'.disk.data[n] == s.disk.data[n]
    {
      OthersUntouched(s.disk, K, s'.disk, K', ino, cow, n);
    }
  }

  lemma FileChangedView(s: FileSys, ino: nat, s': FileSys, z: Compression, kept: set<nat>, cow: bool)
    requires FileChanged(s, ino, s', cow)
    ensures NamespaceOf(s', z, kept) == ViewWith(s, z, kept, ino, NodeAt(s'.disk, ino, z))
    ensures IsDir(s'.disk.data[ino]) == IsDir(s.disk.data[ino])
  {
    SameKind(s.disk.data[ino], s'.disk.data[ino]);
    FileChangedKeeps(s, ino, s', z, cow);
    OneChanged(s, s', ino, z, kept);
  }

  /** Staging or retiring a copy of an inode changes nothing that can be seen. */
  lemma LooseStepView(s: FileSys, s': FileSys, e: Event, z: Compression, kept: set<nat>)
    requires Step(s, e, s', true) && (e.Staged? || e.Retired?)
    ensures NamespaceOf(s', z, kept) == NamespaceOf(s, z, kept)
    ensures forall i :: i in s.live ==> StaysIntact(s, s', i, z)
  {
    if e.Staged? {
      LooseStepKeeps(s, {}, s'.disk, {e.copy});
    } else {
      LooseStepKeeps(s, {e.ino}, s'.disk, {});
    }
    forall i | i in s.live
      ensures Stays(s, s', i, z)
    {
      KeptAt(s, s', i, z);
    }
    SameView(s, s', z, kept);
  }

  lemma AdoptedNode(s: FileSys, c: nat, n: nat, s': FileSys, z: Compression)
    requires Step(s, Adopted(c, n), s', true) && s.disk.data[n] == s.disk.data[c]
    ensures BytesAt(s'.disk, n) == BytesAt(s.disk, c) && NodeAt(s'.disk, n, z) == NodeAt(s.disk, c, z)
    ensures n !in s.live && WellFormed(s.disk, c)
  {
    AdoptConsistent(s, c, n, s', true);
    assert n in s.live ==> n in Footprint(s.disk, n);
  }

  /** The inode at `c` is seen at `n` once the copy has been adopted. */
  lemma AdoptedView(s: FileSys, c: nat, n: nat, s': FileSys, z: Compression, kept: set<nat>)
    requires Step(s, Adopted(c, n), s', true) && s.disk.data[n] == s.disk.data[c]
    ensures NamespaceOf(s', z, kept) == WithRootAt(NamespaceOf(s, z, kept), c, n)
    ensures BytesAt(s'.disk, n) == BytesAt(s.disk, c) && NodeAt(s'.disk, n, z) == NodeAt(s.disk, c, z)
  {
    AdoptedNode(s, c, n, s', z);
    OneMoved(s, s', c, n, z, kept);
  }

  lemma AdoptedKeeps(s: FileSys, c: nat, n: nat, s': FileSys, z: Compression)
    requires Step(s, Adopted(c, n), s', true)
    ensures forall i :: i in s.live && i != c ==> StaysIntact(s, s', i, z)
  {
    hide NodeAt, TreeOf;
    forall i | i in s.live
      ensures WellFormed(s.disk, i)
    {
    }
  }

  lemma StatSetView(s: FileSys, n: nat, s': FileSys, z: Compression, kept: set<nat>)
    requires Step(s, StatSet(n), s', true)
    requires s'.disk.data[n] == Put(s.disk.data[n], INO_OFFSET, WordBytes(n))
    ensures NamespaceOf(s', z, kept) == NamespaceOf(s, z, kept)
    ensures forall i :: i in s.live ==> Stays(s, s', i, z)
    ensures forall i :: i in s.live && i != n ==> StaysIntact(s, s', i, z)
  {
    StatSetIsFileStep(s.disk, n, s'.disk, true);
    SameKind(s.disk.data[n], s'.disk.data[n]);
    forall i | i in s.live
      ensures Stays(s, s', i, z)
    {
      if i != n {
        FileStepOther(s, n, s'.disk, true, i);
      }
      KeptAt(s, s', i, z);
    }
    SameView(s, s', z, kept);
  }

  /** What path copying relies on: the entries form a tree below the root, and the inodes kept
      outside it are protected as part of the snapshot `d0`. */
  ghost predicate Mounted(s: FileSys, z: Compression, kept: set<nat>, root: nat, d0: Disk) {
    && IsTree(NamespaceOf(s, z, kept), root)
    && SameGeometry(s.disk, d0) && Protects(s, d0, false)
    && forall k :: k in kept ==> d0.InUse(k)
  }

  /** Inodes outside the live tree keep their blocks. */
  ghost predicate KeptInUse(s: State, kept: set<nat>) {
    forall k :: k in kept ==> s.disk.InUse(k)
  }

  lemma MountedKept(s: FileSys, z: Compression, kept: set<nat>, root: nat, d0: Disk)
    requires Mounted(s, z, kept, root, d0)
    ensures KeptInUse(s, kept)
  {
    forall k | k in kept
      ensures s.disk.InUse(k)
    {
      assert ProtectedAt(s, d0, k, false);
    }
  }

  /** A block that the allocator hands out is nobody's. */
  lemma FreshOutside(s: FileSys, z: Compression, kept: set<nat>, n: nat)
    requires KeptInUse(s, kept) && !s.disk.InUse(n)
    ensures Fresh(NamespaceOf(s, z, kept), n) && n !in s.loose
  {
    assert n in s.live ==> !WellFormed(s.disk, n);
  }

  lemma TreeTargets(ns: Namespace, root: nat, p: nat, n: nat)
    requires IsTree(ns, root) && p in ns.nodes
    requires forall i :: i in ns.nodes || i in ns.outside ==> i < n
    ensures var m := EntriesOf(ns.nodes[p]); forall name :: name in m ==> NulFree(name) && m[name] < n
    ensures var m := EntriesOf(ns.nodes[p]); forall name, f :: name in m && Fresh(ns, f) ==> m[name] != f
  {
    var m := EntriesOf(ns.nodes[p]);
    forall name | name in m
      ensures NulFree(name) && m[name] < n && !Fresh(ns, m[name])
    {
      assert EntryAllowed(ns, root, name, m[name]);
    }
  }

  lemma InodesInside(s: FileSys, z: Compression, kept: set<nat>)
    requires KeptInUse(s, kept)
    ensures var ns := NamespaceOf(s, z, kept); forall i :: i in ns.nodes || i in ns.outside ==> i < |s.disk.bits|
    ensures |s.disk.bits| <= TWO_64
  {
    forall i | i in s.live
      ensures i < |s.disk.bits|
    {
      assert WellFormed(s.disk, i);
    }
  }

  ghost function ImageAt(d: Disk, i: nat): seq<byte> {
    if i < |d.data| then d.data[i] else []
  }

  lemma LiveImage(s: FileSys, i: nat)
    requires i in s.live
    ensures i < |s.disk.data| && ImageAt(s.disk, i) == s.disk.data[i]
  {
    assert WellFormed(s.disk, i);
  }

  /** A child's copy has been staged and its parent's entry redirected to it: other inodes. */
  lemma RelinkedOthers(s1: FileSys, p: nat, c: nat, n: nat, s2: FileSys, s3: FileSys, z: Compression)
    requires Step(s1, Staged(c, n), s2, true) && FileChanged(s2, p, s3, true)
    ensures forall i :: i in s1.live && i != p ==> StaysIntact(s1, s3, i, z)
  {
    hide Consistent, WellFormed, NodeAt, BytesAt, FileChanged;
    LooseStepView(s1, s2, Staged(c, n), z, {});
    FileChangedKeeps(s2, p, s3, z, true);
  }

  /** The same: the staged copy. */
  lemma RelinkedCopy(s1: FileSys, p: nat, c: nat, n: nat, s2: FileSys, s3: FileSys, z: Compression)
    requires Step(s1, Staged(c, n), s2, true) && FileChanged(s2, p, s3, true) && c != p
    ensures n < |s3.disk.data| == |s3.disk.attr| && c < |s3.disk.data|
    ensures s3.disk.data[n] == s3.disk.data[c] && s3.disk.attr[n].typ == IndexNode
    ensures s3.disk.InUse(n) && s3.disk.Frozen(n) == s2.disk.Frozen(n)
  {
    hide Consistent, WellFormed, NodeAt, BytesAt;
    LooseStepView(s1, s2, Staged(c, n), z, {});
    FileChangedKeeps(s2, p, s3, z, true);
    LiveImage(s1, c);
  }

  /** The three last steps of moving an inode from `c` to `n`. */
  ghost predicate Settles(s3: FileSys, c: nat, n: nat, s4: FileSys, s5: FileSys, s6: FileSys) {
    && Step(s3, Adopted(c, n), s4, true) && s3.disk.data[n] == s3.disk.data[c]
    && Step(s4, StatSet(n), s5, true) && s5.disk.data[n] == Put(s4.disk.data[n], INO_OFFSET, WordBytes(n))
    && Step(s5, Retired(c), s6, true)
  }

  lemma SettledView(s3: FileSys, c: nat, n: nat, s4: FileSys, s5: FileSys, s6: FileSys, z: Compression, kept: set<nat>)
    requires Settles(s3, c, n, s4, s5, s6)
    ensures NamespaceOf(s6, z, kept) == WithRootAt(NamespaceOf(s3, z, kept), c, n)
  {
    AdoptedView(s3, c, n, s4, z, kept);
    StatSetView(s4, n, s5, z, kept);
    LooseStepView(s5, s6, Retired(c), z, kept);
  }

  lemma TailStays(s4: FileSys, n: nat, s5: FileSys, c: nat, s6: FileSys, z: Compression)
    requires Step(s4, StatSet(n), s5, true) && s5.disk.data[n] == Put(s4.disk.data[n], INO_OFFSET, WordBytes(n))
    requires Step(s5, Retired(c), s6, true)
    ensures Stays(s4, s6, n, z)
  {
    StatSetView(s4, n, s5, z, {});
    LooseStepView(s5, s6, Retired(c), z, {});
    assert Stays(s4, s5, n, z) && Stays(s5, s6, n, z);
  }

  lemma SettledNode(s3: FileSys, c: nat, n: nat, s4: FileSys, s5: FileSys, s6: FileSys, z: Compression)
    requires Settles(s3, c, n, s4, s5, s6)
    ensures n in s6.live && s6.disk.Frozen(n) == s3.disk.Frozen(n)
    ensures BytesAt(s6.disk, n) == BytesAt(s3.disk, c) && NodeAt(s6.disk, n, z) == NodeAt(s3.disk, c, z)
  {
    AdoptedNode(s3, c, n, s4, z);
    TailStays(s4, n, s5, c, s6, z);
  }

  lemma SettledKeeps(s3: FileSys, c: nat, n: nat, s4: FileSys, s5: FileSys, s6: FileSys, z: Compression)
    requires Settles(s3, c, n, s4, s5, s6)
    ensures s6.loose == s3.loose - {n}
    ensures forall i :: i in s3.live && i != c ==> StaysIntact(s3, s6, i, z)
  {
    hide Consistent, WellFormed, NodeAt, BytesAt, KeepsAccount, TreeOf, Transfers, Evolves;
    LiveNotLoose(s3);
    AdoptedKeeps(s3, c, n, s4, z);
    StatSetView(s4, n, s5, z, {});
    LooseStepView(s5, s6, Retired(c), z, {});
  }

  /** The steps of copying the root: stage and adopt the copy, save its metadata and entries,
      record its number, retire the old block. */
  ghost predicate RootSteps(s: FileSys, c: nat, n: nat, s1: FileSys, s2: FileSys, s3: FileSys, s5: FileSys,
                            s6: FileSys) {
    && Step(s, Staged(c, n), s1, true)
    && Step(s1, Adopted(c, n), s2, true) && s1.disk.data[n] == s1.disk.data[c]
    && FileChanged(s2, n, s3, true)
    && Step(s3, StatSet(n), s5, true) && s5.disk.data[n] == Put(s3.disk.data[n], INO_OFFSET, WordBytes(n))
    && Step(s5, Retired(c), s6, true)
  }

  lemma RootStepsLoose(s: FileSys, c: nat, n: nat, s1: FileSys, s2: FileSys, s3: FileSys, s5: FileSys, s6: FileSys)
    requires Step(s, Staged(c, n), s1, true)
    requires Step(s1, Adopted(c, n), s2, true) && s1.disk.data[n] == s1.disk.data[c]
    requires FileChanged(s2, n, s3, true)
    requires Step(s3, StatSet(n), s5, true) && s5.disk.data[n] == Put(s3.disk.data[n], INO_OFFSET, WordBytes(n))
    requires Step(s5, Retired(c), s6, true)
    ensures RootSteps(s, c, n, s1, s2, s3, s5, s6) && s6.loose == s.loose
  {
    hide Step, FileChanged, Consistent;
    LooseAfter(s, c, n, s1, s2, s3, s5, s6);
  }

  lemma LiveNotLoose(s: FileSys)
    ensures s.live !! s.loose
  {
    forall c | c in s.live
      ensures c !in s.loose
    {
      assert c in Footprint(s.disk, c);
    }
  }

  lemma StagedNew(s: FileSys, c: nat, n: nat, s1: FileSys)
    requires Step(s, Staged(c, n), s1, true)
    ensures n !in s.loose
  {
    LooseStepKeeps(s, {}, s1.disk, {n});
  }

  lemma LooseAfter(s: FileSys, c: nat, n: nat, s1: FileSys, s2: FileSys, s3: FileSys, s5: FileSys, s6: FileSys)
    requires Step(s, Staged(c, n), s1, true) && Step(s1, Adopted(c, n), s2, true) && FileChanged(s2, n, s3, true)
    requires Step(s3, StatSet(n), s5, true) && Step(s5, Retired(c), s6, true)
    ensures s6.loose == s.loose
  {
    hide Consistent, WellFormed, Evolves, FileStep, SameFile;
    LiveNotLoose(s);
    StagedNew(s, c, n, s1);
  }

  lemma RootAdopted(s: FileSys, c: nat, n: nat, s1: FileSys, s2: FileSys, z: Compression, kept: set<nat>)
    requires Step(s, Staged(c, n), s1, true)
    requires Step(s1, Adopted(c, n), s2, true) && s1.disk.data[n] == s1.disk.data[c]
    ensures c in s.live && NamespaceOf(s2, z, kept) == WithRootAt(NamespaceOf(s, z, kept), c, n)
    ensures NodeAt(s2.disk, n, z) == NodeAt(s.disk, c, z)
  {
    LooseStepView(s, s1, Staged(c, n), z, kept);
    AdoptedView(s1, c, n, s2, z, kept);
    assert Stays(s, s1, c, z);
  }

  lemma RootSaved(s2: FileSys, n: nat, s3: FileSys, s5: FileSys, c: nat, s6: FileSys, z: Compression, kept: set<nat>)
    requires FileChanged(s2, n, s3, true) && NodeAt(s3.disk, n, z) == NodeAt(s2.disk, n, z)
    requires Step(s3, StatSet(n), s5, true) && s5.disk.data[n] == Put(s3.disk.data[n], INO_OFFSET, WordBytes(n))
    requires Step(s5, Retired(c), s6, true)
    ensures NamespaceOf(s6, z, kept) == NamespaceOf(s2, z, kept)
  {
    SavedSame(s2, n, s3, z, kept);
    StatSetView(s3, n, s5, z, kept);
    LooseStepView(s5, s6, Retired(c), z, kept);
  }

  lemma SavedSame(s2: FileSys, n: nat, s3: FileSys, z: Compression, kept: set<nat>)
    requires FileChanged(s2, n, s3, true) && NodeAt(s3.disk, n, z) == NodeAt(s2.disk, n, z)
    ensures NamespaceOf(s3, z, kept) == NamespaceOf(s2, z, kept)
  {
    hide Consistent, WellFormed, FileStep, NodeAt;
    FileChangedView(s2, n, s3, z, kept, true);
    assert NamespaceOf(s2, z, kept).nodes[n] == NodeAt(s2.disk, n, z);
  }

  lemma RootStepsKeep(s: FileSys, c: nat, n: nat, s1: FileSys, s2: FileSys, s3: FileSys, s5: FileSys, s6: FileSys,
                      z: Compression)
    requires RootSteps(s, c, n, s1, s2, s3, s5, s6)
    ensures forall i :: i in s.live && i != c ==> StaysIntact(s, s6, i, z)
  {
    hide Consistent, WellFormed, NodeAt, BytesAt, FileChanged;
    LooseStepView(s, s1, Staged(c, n), z, {});
    AdoptedKeeps(s1, c, n, s2, z);
    AdoptedNode(s1, c, n, s2, z);
    FileChangedKeeps(s2, n, s3, z, true);
    StatSetView(s3, n, s5, z, {});
    LooseStepView(s5, s6, Retired(c), z, {});
  }
}
