/** Many files on one volume: what each elementary change does to the files it does not concern,
    over whole runs. */
module FileSystem {
  import opened Bytes
  import opened DiskState
  import opened Wrappers
  import opened Evolution
  import opened Allocation
  import opened BlockSteps
  import opened FileTree
  import opened FileContent
  import opened TreeOwnership

  /** A disk with the inodes of its live files and with loose inode blocks: copies of a live
      inode that no file uses yet, or no longer uses, while a path is being copied. */
  datatype State = State(disk: Disk, live: set<nat>, loose: set<nat>)

  datatype Event =
    | Wrote(ino: nat, src: seq<byte>, offset: nat)
    | Resized(ino: nat, size: nat)
    | StatSet(ino: nat)
    | Staged(ino: nat, copy: nat)
    | Adopted(ino: nat, copy: nat)
    | Retired(ino: nat)
    | Created(ino: nat, img: Block)
    | Failed(ino: nat, held: set<nat>)
    | Searched

  /** Every live file is well-formed, no two share a block, and loose blocks are apart. */
  ghost predicate Consistent(s: State) {
    && s.disk.Shape()
    && (forall i :: i in s.live ==> WellFormed(s.disk, i))
    && (forall i, j :: i in s.live && j in s.live && i != j ==> Footprint(s.disk, i) !! Footprint(s.disk, j))
    && Owns(s.disk, s.loose)
    && (forall i :: i in s.live ==> Footprint(s.disk, i) !! s.loose)
  }

  const EMPTY_STATE := State(Disk(512, [false], [FRESH_ATTR], [Zeros(512)], 0, 0, 0), {}, {})

  type FileSys = s: State | Consistent(s) ghost witness EMPTY_STATE

  /** The same file seen through two inode images: size and level-1 pointers agree. */
  ghost predicate SameFile(img: Block, img': Block) {
    && |img| == |img'| && 512 <= |img|
    && SizeOf(img') == SizeOf(img)
    && forall k: nat :: STAT_SIZE + WORD * k + WORD <= |img| ==> SlotAt(img', k) == SlotAt(img, k)
  }

  /** An operation on the file `ino` alone. */
  ghost predicate FileStep(d: Disk, ino: nat, d': Disk, cow: bool) {
    && WellFormed(d, ino) && WellFormed(d', ino)
    && Evolves(d, TreeBlocks(TreeAt(d, ino)), d', TreeBlocks(TreeAt(d', ino)), ino, cow)
  }

  ghost predicate Step(s: State, e: Event, s': State, cow: bool) {
    var (d, d') := (s.disk, s'.disk);
    match e
    case Wrote(ino, src, offset) =>
      && ino in s.live && s'.live == s.live && s'.loose == s.loose
      && FileStep(d, ino, d', cow)
      && Content(d', ino) == Written(Content(d, ino), src, offset)
    case Resized(ino, size) =>
      && ino in s.live && s'.live == s.live && s'.loose == s.loose
      && FileStep(d, ino, d', cow)
      && ResizedContent(Content(d, ino), Content(d', ino), size)
    case StatSet(ino) =>
      && ino in s.live && s'.live == s.live && s'.loose == s.loose
      && WellFormed(d, ino) && Evolves(d, {}, d', {}, ino, cow)
      && d'.attr == d.attr && d'.data == d.data[ino := d'.data[ino]] && SameFile(d.data[ino], d'.data[ino])
    case Staged(ino, copy) =>
      && ino in s.live && s'.live == s.live && s'.loose == s.loose + {copy}
      && WellFormed(d, ino) && Evolves(d, {}, d', {copy}, -1, true)
      && d'.data == d.data[copy := d.data[ino]] && d'.attr[copy].typ == IndexNode
      && (d'.sweeps == d.sweeps ==> !d.bits[copy])
    case Adopted(ino, copy) =>
      && ino in s.live && copy in s.loose
      && s'.live == s.live - {ino} + {copy} && s'.loose == s.loose - {copy} + {ino}
      && d' == d && WellFormed(d, ino) && d.InUse(copy)
      && d.attr[copy].typ == IndexNode && SameFile(d.data[ino], d.data[copy])
    case Retired(ino) =>
      && ino in s.loose && s'.live == s.live && s'.loose == s.loose - {ino}
      && Evolves(d, {ino}, d', {}, -1, true) && d'.data == d.data
    case Created(ino, img) =>
      && s'.live == s.live + {ino} && s'.loose == s.loose
      && d.Shape() && Allocate(d).1 == Some(ino) && |img| == d.bs && SizeOf(img) == 0
      && d' == Create(d, ino, img)
    // A write or resize that ran out of space: its file is given up, whatever it still holds.
    case Failed(ino, held) =>
      && ino in s.live && s'.live == s.live - {ino} && s'.loose == s.loose
      && WellFormed(d, ino) && Evolves(d, TreeBlocks(TreeAt(d, ino)), d', held, ino, cow)
    // The allocator searched in vain.
    case Searched =>
      s'.live == s.live && s'.loose == s.loose && Evolves(d, {}, d', {}, -1, true)
  }

  /* ---- what a step leaves alone ---- */

  /** A file is not affected by an operation that owns none of its blocks and does not write
      its inode in place. */
  lemma FileKept(d: Disk, K: set<nat>, d': Disk, K': set<nat>, written: int, cow: bool, i: nat)
    requires Transfers(d, K, d', K', written, cow)
    requires WellFormed(d, i) && Footprint(d, i) !! K && written !in Footprint(d, i)
    ensures d'.Frozen(i) == d.Frozen(i)
    ensures d'.data[i] == d.data[i] && WellFormed(d', i) && TreeAt(d', i) == TreeAt(d, i)
    ensures Content(d', i) == Content(d, i)
    ensures Footprint(d', i) == Footprint(d, i) && Footprint(d', i) !! K'
  {
    var t := TreeAt(d, i);
    assert i in Footprint(d, i);
    OthersUntouched(d, K, d', K', written, cow, i);
    TreeHeldFrame(d, K, d', K', written, cow, i, t);
    FileFrame(d, d', d.data[i]);
  }

  lemma LooseKept(d: Disk, K: set<nat>, d': Disk, K': set<nat>, written: int, cow: bool, L: set<nat>)
    requires Transfers(d, K, d', K', written, cow) && Owns(d, L) && L !! K
    ensures Owns(d', L) && L !! K'
  {
    forall j | j in L
      ensures d'.InUse(j) && j !in K'
    {
      OthersUntouched(d, K, d', K', written, cow, j);
    }
  }

  /** The same tree under another inode block. */
  lemma SameFileSameTree(d: Disk, i: nat, j: nat)
    requires WellFormed(d, i) && d.InUse(j) && d.attr[j].typ == IndexNode && j !in Footprint(d, i)
    requires SameFile(d.data[i], d.data[j])
    ensures WellFormed(d, j) && TreeAt(d, j) == TreeAt(d, i) && Content(d, j) == Content(d, i)
    ensures Footprint(d, j) == Footprint(d, i) - {i} + {j}
  {
    LinksOfTree(d, d.data[i]);
    TreeFromLinks(d, d.data[j], TreeAt(d, i));
  }

  /** Setting stat fields other than the size keeps the file. */
  lemma StatSetIsFileStep(d: Disk, ino: nat, d': Disk, cow: bool)
    requires WellFormed(d, ino) && Evolves(d, {}, d', {}, ino, cow)
    requires d'.attr == d.attr && d'.data == d.data[ino := d'.data[ino]] && SameFile(d.data[ino], d'.data[ino])
    ensures FileStep(d, ino, d', cow)
    ensures Content(d', ino) == Content(d, ino)
  {
    var t := TreeAt(d, ino);
    OthersUntouched(d, {}, d', {}, ino, cow, ino);
    TreeHeldFrame(d, {}, d', {}, ino, cow, ino, t);
    FileFrame(d, d', d.data[ino]);
    LinksOfTree(d', d.data[ino]);
    TreeFromLinks(d', d'.data[ino], t);
    EvolvesFrame(d, {}, d', {}, TreeBlocks(t), ino, cow);
    assert {} + TreeBlocks(t) == TreeBlocks(t);
  }

  /* ---- consistency over all runs ---- */

  lemma FileStepOther(s: State, ino: nat, d': Disk, cow: bool, i: nat)
    requires Consistent(s) && ino in s.live && FileStep(s.disk, ino, d', cow)
    requires i in s.live && i != ino
    ensures WellFormed(d', i) && Content(d', i) == Content(s.disk, i) && d'.data[i] == s.disk.data[i]
    ensures d'.Frozen(i) == s.disk.Frozen(i)
    ensures Footprint(d', i) == Footprint(s.disk, i) && Footprint(d', i) !! Footprint(d', ino)
  {
    var (K, K') := (TreeBlocks(TreeAt(s.disk, ino)), TreeBlocks(TreeAt(d', ino)));
    assert ino in Footprint(s.disk, ino) && K <= Footprint(s.disk, ino);
    FileKept(s.disk, K, d', K', ino, cow, i);
  }

  lemma FileStepConsistent(s: State, ino: nat, s': State, cow: bool)
    requires Consistent(s) && ino in s.live && FileStep(s.disk, ino, s'.disk, cow)
    requires s'.live == s.live && s'.loose == s.loose
    ensures Consistent(s')
  {
    hide EvolvesAt, TreeBlocks, KeepsAccount;
    forall i | i in s.live && i != ino
      ensures WellFormed(s'.disk, i) && Footprint(s'.disk, i) == Footprint(s.disk, i)
      ensures Footprint(s'.disk, i) !! Footprint(s'.disk, ino)
    {
      FileStepOther(s, ino, s'.disk, cow, i);
    }
    var (K, K') := (TreeBlocks(TreeAt(s.disk, ino)), TreeBlocks(TreeAt(s'.disk, ino)));
    assert K <= Footprint(s.disk, ino) && ino in Footprint(s.disk, ino);
    LooseKept(s.disk, K, s'.disk, K', ino, cow, s.loose);
  }

  lemma FailedConsistent(s: State, ino: nat, held: set<nat>, s': State, cow: bool)
    requires Consistent(s) && Step(s, Failed(ino, held), s', cow)
    ensures Consistent(s')
    ensures forall i :: i in s'.live ==>
              && Content(s'.disk, i) == Content(s.disk, i) && s'.disk.data[i] == s.disk.data[i]
              && Footprint(s'.disk, i) == Footprint(s.disk, i)
  {
    var K := TreeBlocks(TreeAt(s.disk, ino));
    assert ino in Footprint(s.disk, ino) && K <= Footprint(s.disk, ino);
    forall i | i in s'.live
      ensures WellFormed(s'.disk, i) && Footprint(s'.disk, i) == Footprint(s.disk, i)
      ensures Content(s'.disk, i) == Content(s.disk, i) && s'.disk.data[i] == s.disk.data[i]
    {
      FileKept(s.disk, K, s'.disk, held, ino, cow, i);
    }
    LooseKept(s.disk, K, s'.disk, held, ino, cow, s.loose);
  }

  /** A step that owns only loose or fresh blocks keeps every live file. */
  lemma LooseStepKeeps(s: State, K: set<nat>, d': Disk, K': set<nat>)
    requires Consistent(s) && K <= s.loose && Transfers(s.disk, K, d', K', -1, true)
    ensures forall i :: i in s.live ==> && WellFormed(d', i) && Content(d', i) == Content(s.disk, i)
                                        && d'.data[i] == s.disk.data[i] && d'.Frozen(i) == s.disk.Frozen(i)
                                        && Footprint(d', i) == Footprint(s.disk, i) && Footprint(d', i) !! K'
    ensures Owns(d', (s.loose - K) + K') && (s.loose - K) !! K'
  {
    forall i | i in s.live
      ensures WellFormed(d', i) && Content(d', i) == Content(s.disk, i) && d'.data[i] == s.disk.data[i]
      ensures d'.Frozen(i) == s.disk.Frozen(i)
      ensures Footprint(d', i) == Footprint(s.disk, i) && Footprint(d', i) !! K'
    {
      FileKept(s.disk, K, d', K', -1, true, i);
    }
    LooseKept(s.disk, K, d', K', -1, true, s.loose - K);
  }

  lemma AdoptConsistent(s: State, ino: nat, copy: nat, s': State, cow: bool)
    requires Consistent(s) && Step(s, Adopted(ino, copy), s', cow)
    ensures Consistent(s') && WellFormed(s'.disk, copy) && Content(s'.disk, copy) == Content(s.disk, ino)
  {
    hide Transfers, TreeHeld, TreeOf, FileBytes, TreeBlocks;
    assert copy !in Footprint(s.disk, ino) && s.disk.InUse(copy);
    SameFileSameTree(s.disk, ino, copy);
    assert ino in Footprint(s.disk, ino);
    forall i | i in s.live && i != ino
      ensures Footprint(s.disk, i) !! Footprint(s.disk, copy) && ino !in Footprint(s.disk, i)
    {
      assert copy !in Footprint(s.disk, i);
      assert Footprint(s.disk, i) !! Footprint(s.disk, ino);
    }
  }

  lemma NothingDescribed(bs: nat)
    requires BlockSize(bs)
    ensures Describe(bs, 0) == Descriptor(0, 0, 0)
  {
  }

  lemma CreateWellFormed(s: State, ino: nat, img: Block, s': State, cow: bool)
    requires Consistent(s) && Step(s, Created(ino, img), s', cow)
    ensures Transfers(s.disk, {}, s'.disk, {ino}, -1, true)
    ensures WellFormed(s'.disk, ino) && Content(s'.disk, ino) == [] && Footprint(s'.disk, ino) == {ino}
  {
    hide Consistent, EvolvesAt, Describe;
    var d' := s'.disk;
    CreateTransfers(s.disk, ino, img);
    assert d'.InUse(ino) && d'.data[ino] == img;
    NothingDescribed(d'.bs);
    assert TreeOf(d', d'.data[ino]) == Tree([], [], []);
  }

  lemma StagedConsistent(s: State, ino: nat, copy: nat, s': State, cow: bool)
    requires Consistent(s) && Step(s, Staged(ino, copy), s', cow)
    ensures Consistent(s')
  {
    LooseStepKeeps(s, {}, s'.disk, {copy});
    assert s.loose - {} == s.loose;
  }

  lemma RetiredConsistent(s: State, ino: nat, s': State, cow: bool)
    requires Consistent(s) && Step(s, Retired(ino), s', cow)
    ensures Consistent(s')
  {
    LooseStepKeeps(s, {ino}, s'.disk, {});
    assert (s.loose - {ino}) + {} == s'.loose;
  }

  lemma CreatedConsistent(s: State, ino: nat, img: Block, s': State, cow: bool)
    requires Consistent(s) && Step(s, Created(ino, img), s', cow)
    ensures Consistent(s')
  {
    CreateWellFormed(s, ino, img, s', cow);
    LooseStepKeeps(s, {}, s'.disk, {ino});
    assert s.loose - {} == s.loose;
  }

  lemma SearchedConsistent(s: State, s': State, cow: bool)
    requires Consistent(s) && Step(s, Searched, s', cow)
    ensures Consistent(s')
  {
    LooseStepKeeps(s, {}, s'.disk, {});
    assert (s.loose - {}) + {} == s'.loose;
  }

  lemma StatSetConsistent(s: State, ino: nat, s': State, cow: bool)
    requires Consistent(s) && Step(s, StatSet(ino), s', cow)
    ensures Consistent(s')
  {
    StatSetIsFileStep(s.disk, ino, s'.disk, cow);
    FileStepConsistent(s, ino, s', cow);
  }

  /** Every step keeps the file system consistent: all live files stay well-formed and disjoint. */
  lemma StepConsistent(s: State, e: Event, s': State, cow: bool)
    requires Consistent(s) && Step(s, e, s', cow)
    ensures Consistent(s')
  {
    hide Consistent, FileStep, Evolves, Create;
    match e
    case Wrote(ino, _, _) => FileStepConsistent(s, ino, s', cow);
    case Resized(ino, _) => FileStepConsistent(s, ino, s', cow);
    case StatSet(ino) => StatSetConsistent(s, ino, s', cow);
    case Staged(ino, copy) => StagedConsistent(s, ino, copy, s', cow);
    case Adopted(ino, copy) => AdoptConsistent(s, ino, copy, s', cow);
    case Retired(ino) => RetiredConsistent(s, ino, s', cow);
    case Created(ino, img) => CreatedConsistent(s, ino, img, s', cow);
    case Failed(ino, held) => FailedConsistent(s, ino, held, s', cow);
    case Searched => SearchedConsistent(s, s', cow);
  }

  /** The file a step is about, if any. */
  function Subject(e: Event): int {
    match e
    case Searched => -1
    case Wrote(ino, _, _) => ino
    case Resized(ino, _) => ino
    case StatSet(ino) => ino
    case Staged(ino, _) => ino
    case Adopted(ino, _) => ino
    case Retired(ino) => ino
    case Created(ino, _) => ino
    case Failed(ino, _) => ino
  }

  /** No step changes the contents or the inode of a file it is not about. */
  lemma StepKeepsOthers(s: State, e: Event, s': State, cow: bool, i: nat)
    requires Consistent(s) && Step(s, e, s', cow)
    requires i in s.live && i != Subject(e)
    ensures i in s'.live && WellFormed(s'.disk, i)
    ensures Content(s'.disk, i) == Content(s.disk, i) && s'.disk.data[i] == s.disk.data[i]
  {
    match e
    case Wrote(ino, src, offset) =>
      FileStepOther(s, ino, s'.disk, cow, i);
    case Resized(ino, size) =>
      FileStepOther(s, ino, s'.disk, cow, i);
    case StatSet(ino) =>
      StatSetIsFileStep(s.disk, ino, s'.disk, cow);
      FileStepOther(s, ino, s'.disk, cow, i);
    case Staged(ino, copy) =>
      LooseStepKeeps(s, {}, s'.disk, {copy});
    case Adopted(ino, copy) =>
    case Retired(ino) =>
      LooseStepKeeps(s, {ino}, s'.disk, {});
    case Created(ino, img) =>
      CreateWellFormed(s, ino, img, s', cow);
      LooseStepKeeps(s, {}, s'.disk, {ino});
    case Failed(ino, held) =>
      FailedConsistent(s, ino, held, s', cow);
    case Searched =>
      LooseStepKeeps(s, {}, s'.disk, {});
  }

  /** A run: consecutive states related by the events. */
  ghost predicate Run(ss: seq<State>, es: seq<Event>, cow: bool) {
    && |ss| == |es| + 1
    && forall k :: 0 <= k < |es| ==> Step(ss[k], es[k], ss[k + 1], cow)
  }

  /** Tree well-formedness over all runs: in every state of a run, every live file is
      well-formed and no two files share a block. */
  lemma {:induction false} RunConsistent(ss: seq<State>, es: seq<Event>, cow: bool, k: nat)
    requires Run(ss, es, cow) && Consistent(ss[0]) && k < |ss|
    ensures Consistent(ss[k])
    decreases k
  {
    if k != 0 {
      RunConsistent(ss, es, cow, k - 1);
      StepConsistent(ss[k - 1], es[k - 1], ss[k], cow);
    }
  }

  /** A file that no event of a run is about reads the same throughout. */
  lemma {:induction false} RunKeepsOthers(ss: seq<State>, es: seq<Event>, cow: bool, k: nat, i: nat)
    requires Run(ss, es, cow) && Consistent(ss[0]) && k < |ss|
    requires i in ss[0].live && forall e :: e in es ==> Subject(e) != i
    ensures i in ss[k].live && WellFormed(ss[0].disk, i) && WellFormed(ss[k].disk, i)
    ensures Content(ss[k].disk, i) == Content(ss[0].disk, i)
    decreases k
  {
    if k != 0 {
      RunKeepsOthers(ss, es, cow, k - 1, i);
      RunConsistent(ss, es, cow, k - 1);
      StepKeepsOthers(ss[k - 1], es[k - 1], ss[k], cow, i);
    }
  }
}
