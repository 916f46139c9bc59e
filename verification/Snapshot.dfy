/** Snapshots: the freeze sweep, and why a frozen tree survives everything done to the live files. */
module Snapshot {
  import opened DiskState
  import opened Evolution
  import opened FileTree
  import opened FileSystem

  /** A sweep changes no file. */
  lemma SweptKeeps(s: State, s': State, share: bool)
    requires Consistent(s) && s' == s.(disk := Swept(s.disk, share))
    ensures Consistent(s')
    ensures forall i :: i in s.live ==>
        Content(s'.disk, i) == Content(s.disk, i) && Footprint(s'.disk, i) == Footprint(s.disk, i)
  {
    var (d, d') := (s.disk, s'.disk);
    SweptUse(d, share);
    forall i | i in s.live
      ensures WellFormed(d', i) && TreeAt(d', i) == TreeAt(d, i) && Content(d', i) == Content(d, i)
      ensures Footprint(d', i) == Footprint(d, i)
    {
      SweptFile(d, d', i, share);
    }
  }

  /** What a sweep means, block by block: an allocated block that might be modified becomes a regular
      frozen one, the second sweep gives the real ones two references, and all else stays. */
  lemma SweptUse(d: Disk, share: bool)
    requires d.Shape()
    ensures var d' := Swept(d, share);
            && d' == d.(attr := d'.attr) && |d'.attr| == |d.attr|
            && forall j: nat :: j < |d.bits| ==>
                 var (a, a') := (d.attr[j], d'.attr[j]);
                 && a'.typ == a.typ && a'.typCow == a.typCow && a'.age == a.age
                 && a'.refs == (if share && d.bits[j] && a.typ != Redundancy then 2 else a.refs)
                 && (d.bits[j] && a.status == Available ==> a'.status == SnapshotRegular)
                 && (!d.bits[j] || a.status != Available ==> a'.status == a.status)
                 && (d.InUse(j) ==> d'.InUse(j)) && (d.bits[j] ==> d'.Frozen(j))
  {
  }

  /** A sweep makes no inode an entry point of a snapshot, nor does it unmake one. */
  lemma SweptEntryPoints(d: Disk, share: bool, j: nat)
    requires d.Shape() && j < |d.bits|
    ensures Swept(d, share).attr[j].status == SnapshotEntry <==> d.attr[j].status == SnapshotEntry
  {
  }

  /** After the second sweep every block in use is frozen and shared; the blocks in use are exactly
      the allocated ones of a real type. */
  lemma SweptShares(s: State, s': State)
    requires Consistent(s) && s' == s.(disk := Swept(s.disk, true))
    ensures Consistent(s')
    ensures forall i :: i in s.live ==>
        Content(s'.disk, i) == Content(s.disk, i) && Footprint(s'.disk, i) == Footprint(s.disk, i)
    ensures forall j: nat :: s'.disk.InUse(j) ==> s'.disk.Shared(j) && s'.disk.attr[j].refs == 2
    ensures forall j: nat :: j < |s.disk.bits| ==>
              (s'.disk.InUse(j) <==> s.disk.bits[j] && s.disk.attr[j].typ != Redundancy)
  {
    SweptKeeps(s, s', true);
    hide Consistent;
  }

  lemma SweptFile(d: Disk, d': Disk, i: nat, share: bool)
    requires WellFormed(d, i) && d' == Swept(d, share)
    ensures WellFormed(d', i) && TreeAt(d', i) == TreeAt(d, i) && Content(d', i) == Content(d, i)
  {
    var t := TreeAt(d, i);
    SweptUse(d, share);
    forall j | j in TreeBlocks(t) + {i}
      ensures d'.InUse(j) && d'.attr[j].typ == d.attr[j].typ
    {
      assert d.InUse(j);
    }
    SameTyped(d, d', t.l1, Pointer);
    SameTyped(d, d', t.l2, Pointer);
    SameTyped(d, d', t.l3, Storage);
    FileFrame(d, d', d.data[i]);
  }

  lemma SameTyped(d: Disk, d': Disk, l: seq<nat>, t: BlockType)
    requires SameGeometry(d, d') && Typed(d, l, t) && Owns(d, Elems(l)) && d'.data == d.data
    requires forall j :: j in Elems(l) ==> d'.attr[j].typ == d.attr[j].typ
    ensures Typed(d', l, t) && SameData(d, d', l)
  {
    forall k | 0 <= k < |l|
      ensures l[k] in Elems(l)
    {
    }
  }

  /* ---- isolation ---- */

  /** A block belongs to a live file or to a loose copy. */
  ghost predicate OwnedBy(s: State, z: nat) {
    z in s.loose || exists i :: i in s.live && WellFormed(s.disk, i) && z in Footprint(s.disk, i)
  }

  lemma OwnedInUse(s: State, z: nat)
    requires Consistent(s) && OwnedBy(s, z)
    ensures s.disk.InUse(z)
  {
    if z !in s.loose {
      var i :| i in s.live && WellFormed(s.disk, i) && z in Footprint(s.disk, i);
    }
  }

  /** A block owned after a step on one file, outside that file's tree, was owned before. */
  lemma FileStepUnowned(s: State, ino: nat, s': State, cow: bool, z: nat)
    requires Consistent(s) && Consistent(s')
    requires ino in s.live && FileStep(s.disk, ino, s'.disk, cow)
    requires s'.live == s.live && s'.loose == s.loose
    requires OwnedBy(s', z) && z !in TreeBlocks(TreeAt(s'.disk, ino))
    ensures OwnedBy(s, z) && z !in TreeBlocks(TreeAt(s.disk, ino)) && s.disk.InUse(z)
  {
    hide EvolvesAt, KeepsAccount, TreeOf, Evolves;
    assert ino in Footprint(s.disk, ino);
    if z in s.loose {
      assert z !in Footprint(s.disk, ino);
    } else {
      var i :| i in s'.live && z in Footprint(s'.disk, i);
      if i == ino {
        assert z == ino;
      } else {
        FileStepOther(s, ino, s'.disk, cow, i);
        assert z in Footprint(s.disk, i) && z !in Footprint(s.disk, ino);
      }
    }
  }

  /** The blocks in use on the snapshot disk `d0` are still allocated and frozen, and have the same
      bytes if those are protected too, as they are by copy-on-write; each has two references, or one
      once no live file owns it any more. */
  ghost predicate Protects(s: State, d0: Disk, bytes: bool) {
    && SameGeometry(s.disk, d0)
    && forall z: nat :: d0.InUse(z) ==> ProtectedAt(s, d0, z, bytes)
  }

  ghost predicate ProtectedAt(s: State, d0: Disk, z: nat, bytes: bool)
    requires SameGeometry(s.disk, d0) && d0.InUse(z)
  {
    var d := s.disk;
    && d.InUse(z) && d.Frozen(z) && d.attr[z].typ == d0.attr[z].typ && (bytes ==> d.data[z] == d0.data[z])
    && d.attr[z].refs <= 2
    && (OwnedBy(s, z) ==> d.attr[z].refs == 2)
  }

  /** Inodes that are written in place must not be frozen. Copying the path to the root first
      is what guarantees this. */
  ghost predicate WritesUnfrozen(s: State, e: Event) {
    match e
    case Wrote(ino, _, _) => !s.disk.Frozen(ino)
    case Resized(ino, _) => !s.disk.Frozen(ino)
    case StatSet(ino) => !s.disk.Frozen(ino)
    case Failed(ino, _) => !s.disk.Frozen(ino)
    case _ => true
  }

  /** A protected block never gains a reference, and loses one only when the live tree lets go of it. */
  ghost predicate Dwindles(s: State, s': State, z: nat)
    requires SameGeometry(s.disk, s'.disk) && z < |s.disk.attr|
  {
    var (r, r') := (s.disk.attr[z].refs, s'.disk.attr[z].refs);
    r' == r || (r == 2 && r' == 1 && OwnedBy(s, z) && !OwnedBy(s', z))
  }

  lemma FileStepProtects(s: State, ino: nat, s': State, d0: Disk, z: nat, bytes: bool)
    requires Consistent(s) && Protects(s, d0, bytes) && Consistent(s')
    requires ino in s.live && (bytes ==> !s.disk.Frozen(ino)) && FileStep(s.disk, ino, s'.disk, bytes)
    requires s'.live == s.live && s'.loose == s.loose && d0.InUse(z)
    ensures ProtectedAt(s', d0, z, bytes) && Dwindles(s, s', z)
  {
    hide KeepsAccount, TreeHeld;
    var (d, d') := (s.disk, s'.disk);
    var (K, K') := (TreeBlocks(TreeAt(d, ino)), TreeBlocks(TreeAt(d', ino)));
    assert ProtectedAt(s, d0, z, bytes) && EvolvesAt(d, K, d', K', ino, bytes, z);
    if z in K {
      assert z in Footprint(d, ino) && OwnedBy(s, z);
    }
    if OwnedBy(s', z) && z !in K' {
      FileStepUnowned(s, ino, s', bytes, z);
    }
  }

  lemma LooseStepProtects(s: State, K: set<nat>, s': State, K': set<nat>, d0: Disk, z: nat, bytes: bool)
    requires Consistent(s) && Protects(s, d0, bytes) && Consistent(s') && K <= s.loose && d0.InUse(z)
    requires Transfers(s.disk, K, s'.disk, K', -1, true)
    requires s'.live - s.live <= K' && s'.loose <= (s.loose - K) + K'
    requires forall i :: i in s'.live - s.live ==> Footprint(s'.disk, i) == {i}
    ensures ProtectedAt(s', d0, z, bytes) && Dwindles(s, s', z)
  {
    hide WellFormed;
    var (d, d') := (s.disk, s'.disk);
    assert ProtectedAt(s, d0, z, bytes) && EvolvesAt(d, K, d', K', -1, true, z);
    LooseStepKeeps(s, K, d', K');
    if z in K {
      assert OwnedBy(s, z);
    }
    if OwnedBy(s', z) {
      if z in s'.loose {
        assert z in s.loose ==> OwnedBy(s, z);
      } else {
        var i :| i in s'.live && z in Footprint(d', i);
        if i in s.live {
          assert OwnedBy(s, z);
          assert Footprint(d, i) !! s.loose;
        }
      }
    }
  }

  lemma AdoptProtects(s: State, ino: nat, copy: nat, s': State, d0: Disk, z: nat, bytes: bool)
    requires Consistent(s) && Protects(s, d0, bytes) && Step(s, Adopted(ino, copy), s', bytes) && Consistent(s')
    requires d0.InUse(z)
    ensures ProtectedAt(s', d0, z, bytes) && Dwindles(s, s', z)
  {
    assert ProtectedAt(s, d0, z, bytes);
    assert copy !in Footprint(s.disk, ino);
    SameFileSameTree(s.disk, ino, copy);
    assert ino in Footprint(s.disk, ino);
    if OwnedBy(s', z) && z !in s'.loose {
      var i :| i in s'.live && z in Footprint(s'.disk, i);
      if i == copy && z != copy {
        assert z in Footprint(s.disk, ino);
      }
    }
    assert OwnedBy(s', z) ==> OwnedBy(s, z);
  }

  lemma FailedProtects(s: State, ino: nat, held: set<nat>, s': State, d0: Disk, z: nat, bytes: bool)
    requires Consistent(s) && Protects(s, d0, bytes) && Step(s, Failed(ino, held), s', bytes) && Consistent(s')
    requires (bytes ==> !s.disk.Frozen(ino)) && d0.InUse(z)
    ensures ProtectedAt(s', d0, z, bytes) && Dwindles(s, s', z)
  {
    var (d, d') := (s.disk, s'.disk);
    var K := TreeBlocks(TreeAt(d, ino));
    assert ProtectedAt(s, d0, z, bytes) && EvolvesAt(d, K, d', held, ino, bytes, z);
    FailedConsistent(s, ino, held, s', bytes);
    if z in K {
      assert z in Footprint(d, ino) && OwnedBy(s, z);
    }
    if OwnedBy(s', z) {
      if z !in s'.loose {
        var i :| i in s'.live && z in Footprint(d', i);
        assert z in Footprint(d, i) && Footprint(d, i) !! Footprint(d, ino);
      }
      assert OwnedBy(s, z) && z !in Footprint(d, ino);
    }
  }

  lemma StepProtectsAt(s: State, e: Event, s': State, d0: Disk, z: nat, bytes: bool)
    requires Consistent(s) && Protects(s, d0, bytes) && Step(s, e, s', bytes) && (bytes ==> WritesUnfrozen(s, e))
    requires Consistent(s') && d0.InUse(z)
    ensures SameGeometry(s.disk, s'.disk) && z < |s.disk.attr| && ProtectedAt(s', d0, z, bytes) && Dwindles(s, s', z)
  {
    hide WellFormed;
    match e
    case Wrote(ino, src, offset) =>
      FileStepProtects(s, ino, s', d0, z, bytes);
    case Resized(ino, size) =>
      FileStepProtects(s, ino, s', d0, z, bytes);
    case StatSet(ino) =>
      StatSetIsFileStep(s.disk, ino, s'.disk, bytes);
      FileStepProtects(s, ino, s', d0, z, bytes);
    case Staged(ino, copy) =>
      LooseStepProtects(s, {}, s', {copy}, d0, z, bytes);
    case Adopted(ino, copy) =>
      AdoptProtects(s, ino, copy, s', d0, z, bytes);
    case Retired(ino) =>
      LooseStepProtects(s, {ino}, s', {}, d0, z, bytes);
    case Created(ino, img) =>
      CreateWellFormed(s, ino, img, s', bytes);
      LooseStepProtects(s, {}, s', {ino}, d0, z, bytes);
    case Failed(ino, held) =>
      FailedProtects(s, ino, held, s', d0, z, bytes);
    case Searched =>
      LooseStepProtects(s, {}, s', {}, d0, z, bytes);
  }

  /** No event harms a protected block. With `bytes`, which stands for copy-on-write, its bytes are
      safe too, unless a frozen inode is written in place. */
  lemma StepProtects(s: State, e: Event, s': State, d0: Disk, bytes: bool)
    requires Consistent(s) && Protects(s, d0, bytes) && Step(s, e, s', bytes) && (bytes ==> WritesUnfrozen(s, e))
    ensures Consistent(s') && Protects(s', d0, bytes)
    ensures SameGeometry(s.disk, s'.disk) && forall z: nat :: d0.InUse(z) ==> z < |s.disk.attr| && Dwindles(s, s', z)
  {
    StepConsistent(s, e, s', bytes);
    hide Consistent, WellFormed, WritesUnfrozen;
    forall z: nat | d0.InUse(z)
      ensures z < |s.disk.attr| && ProtectedAt(s', d0, z, bytes) && Dwindles(s, s', z)
    {
      StepProtectsAt(s, e, s', d0, z, bytes);
    }
  }

  /** Over a run protected blocks stay protected, and their references never grow. */
  lemma {:induction false} RunProtects(ss: seq<State>, es: seq<Event>, d0: Disk, k: nat)
    requires Run(ss, es, true) && Consistent(ss[0]) && Protects(ss[0], d0, true) && k < |ss|
    requires forall i :: 0 <= i < |es| ==> WritesUnfrozen(ss[i], es[i])
    ensures Consistent(ss[k]) && Protects(ss[k], d0, true)
    ensures forall z: nat :: d0.InUse(z) ==>
              z < |ss[0].disk.attr| && z < |ss[k].disk.attr| && ss[k].disk.attr[z].refs <= ss[0].disk.attr[z].refs
    decreases k
  {
    if k != 0 {
      RunProtects(ss, es, d0, k - 1);
      StepProtects(ss[k - 1], es[k - 1], ss[k], d0, true);
    } else {
      forall z: nat | d0.InUse(z)
        ensures z < |ss[0].disk.attr|
      {
        assert ProtectedAt(ss[0], d0, z, true);
      }
    }
  }

  /** A snapshot reads as it did when it was taken: every block of a file is still allocated and
      frozen, has lost at most the live reference, and the file read through its frozen inode
      block has exactly the same bytes. */
  ghost predicate ReadsAsTaken(d: Disk, d': Disk, i: nat)
    requires WellFormed(d, i)
  {
    && SameGeometry(d, d')
    && (forall z :: z in Footprint(d, i) ==>
          d'.InUse(z) && d'.Frozen(z) && 1 <= d'.attr[z].refs <= 2 && d'.data[z] == d.data[z])
    && d'.data[i] == d.data[i] && Fits(d'.bs, SizeOf(d'.data[i]))
    && ContentOf(d', d'.data[i]) == Content(d, i)
  }

  lemma ProtectedReads(s: State, s': State, i: nat)
    requires Consistent(s) && Protects(s', Swept(s.disk, true), true) && i in s.live
    ensures ReadsAsTaken(s.disk, s'.disk, i)
  {
    var (d, d0, d') := (s.disk, Swept(s.disk, true), s'.disk);
    SweptShares(s, s.(disk := d0));
    forall z | z in Footprint(d, i)
      ensures d'.InUse(z) && d'.Frozen(z) && 1 <= d'.attr[z].refs <= 2 && d'.data[z] == d.data[z]
    {
      assert z in Footprint(d0, i) && d0.InUse(z);
      assert ProtectedAt(s', d0, z, true);
    }
    assert i in Footprint(d, i);
    var t := TreeAt(d, i);
    TreeData(d, d', t.l1, Footprint(d, i));
    TreeData(d, d', t.l2, Footprint(d, i));
    TreeData(d, d', t.l3, Footprint(d, i));
    FileFrame(d, d', d.data[i]);
  }

  lemma SweptProtects(s: State, s': State)
    requires Consistent(s) && s' == s.(disk := Swept(s.disk, true))
    ensures Consistent(s') && Protects(s', s'.disk, true) && Protects(s', s'.disk, false)
  {
    SweptShares(s, s');
  }

  /** The first sweep leaves earlier snapshots protected. */
  lemma FirstSweepProtects(s: State, s': State, d0: Disk, bytes: bool)
    requires Consistent(s) && Protects(s, d0, bytes) && s' == s.(disk := Swept(s.disk, false))
    ensures Consistent(s') && Protects(s', d0, bytes)
  {
    SweptKeeps(s, s', false);
    SweptUse(s.disk, false);
    hide Swept;
    forall z: nat | d0.InUse(z)
      ensures ProtectedAt(s', d0, z, bytes)
    {
      assert ProtectedAt(s, d0, z, bytes);
      SweptOwned(s, s', z);
    }
  }

  lemma SweptOwned(s: State, s': State, z: nat)
    requires Consistent(s) && Consistent(s') && s'.live == s.live && s'.loose == s.loose
    requires forall i :: i in s.live ==> Footprint(s'.disk, i) == Footprint(s.disk, i)
    ensures OwnedBy(s', z) ==> OwnedBy(s, z)
  {
    if OwnedBy(s', z) && z !in s.loose {
      var i :| i in s'.live && WellFormed(s'.disk, i) && z in Footprint(s'.disk, i);
    }
  }

  /** Snapshot isolation over elementary steps. A consistent file system is swept once, then anything
      may happen (copying the root, saving its entries), then it is swept again, and any events follow
      that write only unfrozen inodes in place. In every later state the snapshot reads as it did at
      the second sweep. */
  lemma SnapshotIsolation(s: State, before: seq<State>, preparing: seq<Event>, after: seq<State>, es: seq<Event>,
                          k: nat, i: nat)
    requires Consistent(s) && Run(before, preparing, true) && before[0] == s.(disk := Swept(s.disk, false))
    requires var t := before[|before| - 1];
             && t.disk.Shape()
             && Run(after, es, true) && after[0] == t.(disk := Swept(t.disk, true))
             && i in t.live
    requires forall j :: 0 <= j < |es| ==> WritesUnfrozen(after[j], es[j])
    requires k < |after|
    ensures Consistent(before[|before| - 1])
    ensures ReadsAsTaken(before[|before| - 1].disk, after[k].disk, i)
  {
    hide Protects, ReadsAsTaken, Step;
    var t := before[|before| - 1];
    SweptKeeps(s, before[0], false);
    RunConsistent(before, preparing, true, |before| - 1);
    SweptProtects(t, after[0]);
    RunProtects(after, es, after[0].disk, k);
    ProtectedReads(t, after[k], i);
  }

  lemma TreeData(d: Disk, d': Disk, l: seq<nat>, F: set<nat>)
    requires SameGeometry(d, d') && Elems(l) <= F
    requires forall z :: z in F ==> z < |d.data| && d'.data[z] == d.data[z]
    ensures SameData(d, d', l)
  {
    forall q | 0 <= q < |l|
      ensures l[q] in Elems(l)
    {
    }
  }
}
