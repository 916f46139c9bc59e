/** The header's count of used blocks over whole runs. */
module Accounting {
  import opened DiskState
  import opened Evolution
  import opened BlockSteps
  import opened FileTree
  import opened FileSystem
  import opened Snapshot

  /** Every frozen block of a live file or loose copy is still shared with a snapshot. */
  ghost predicate GuardedAll(s: State) {
    forall z: nat :: OwnedBy(s, z) && s.disk.Frozen(z) ==> s.disk.Shared(z)
  }

  /** No block of a real type has lost its last reference, nor will one. */
  ghost predicate Steady(s: State) {
    Referenced(s.disk) && GuardedAll(s)
  }

  /* ---- inode blocks keep the counter away from zero ---- */

  ghost function Inodes(d: Disk): set<nat> {
    set j | j in UsedSet(d) && d.attr[j].typ == IndexNode
  }

  /** The counter is `c` short, where `c` inodes besides the loose copies still exist. */
  ghost predicate Tallied(s: State, c: nat) {
    Tally(s.disk, c) && c + |s.loose| <= |Inodes(s.disk)|
  }

  ghost predicate ShortBy(s: State, c: nat) {
    Tallied(s, c) && Steady(s)
  }

  /** Between these states no block of a real type is reclaimed: nothing is, or all are referenced. */
  ghost predicate Counted(s: State, s': State) {
    s'.disk.sweeps == s.disk.sweeps || Steady(s)
  }

  lemma InodesKept(d: Disk, K: set<nat>, d': Disk, K': set<nat>, ino: int, cow: bool)
    requires Transfers(d, K, d', K', ino, cow) && (d'.sweeps == d.sweeps || Referenced(d))
    ensures Inodes(d) - K <= Inodes(d') && (Inodes(d) - K) !! K'
  {
    forall j | j in Inodes(d) - K
      ensures j in Inodes(d') && j !in K'
    {
      assert EvolvesAt(d, K, d', K', ino, cow, j);
    }
  }

  /** There is room in the counter for giving up blocks that are not inodes. */
  lemma Room(d: Disk, K: set<nat>, c: nat)
    requires Owns(d, K) && K !! Inodes(d) && c <= |Inodes(d)|
    ensures c + |K| <= |UsedSet(d)|
  {
    SubsetSize(K + Inodes(d), UsedSet(d));
    assert |K + Inodes(d)| == |K| + |Inodes(d)|;
  }

  lemma TreeHasNoInodes(d: Disk, ino: nat)
    requires WellFormed(d, ino)
    ensures TreeBlocks(TreeAt(d, ino)) !! Inodes(d)
  {
    var t := TreeAt(d, ino);
    assert forall j :: j in TreeBlocks(t) ==> d.attr[j].typ != IndexNode;
  }

  /** An operation that owns no inode block keeps the counter as exact as it was. */
  lemma CountKept(d: Disk, K: set<nat>, d': Disk, K': set<nat>, ino: int, cow: bool, c: nat)
    requires Evolves(d, K, d', K', ino, cow) && Tally(d, c) && Countable(d, K, d')
    requires K !! Inodes(d) && c <= |Inodes(d)|
    ensures Tally(d', c) && |Inodes(d)| <= |Inodes(d')|
  {
    hide EvolvesAt;
    Room(d, K, c);
    InodesKept(d, K, d', K', ino, cow);
    SubsetSize(Inodes(d), Inodes(d'));
  }

  /* ---- what every step makes of the counter ---- */

  lemma TreeCountable(s: State, ino: nat, s': State)
    requires Counted(s, s') && ino in s.live && WellFormed(s.disk, ino)
    ensures Countable(s.disk, TreeBlocks(TreeAt(s.disk, ino)), s'.disk)
  {
    if Steady(s) {
      TreeGuarded(s, ino);
    }
  }

  lemma FileStepTally(s: State, ino: nat, s': State, cow: bool, c: nat)
    requires Consistent(s) && Tallied(s, c) && Counted(s, s')
    requires ino in s.live && FileStep(s.disk, ino, s'.disk, cow)
    requires s'.live == s.live && s'.loose == s.loose
    ensures Tallied(s', c)
  {
    hide EvolvesAt, KeepsAccount, TreeHeld;
    var (K, K') := (TreeBlocks(TreeAt(s.disk, ino)), TreeBlocks(TreeAt(s'.disk, ino)));
    TreeCountable(s, ino, s');
    TreeHasNoInodes(s.disk, ino);
    CountKept(s.disk, K, s'.disk, K', ino, cow, c);
  }

  lemma StagedTally(s: State, ino: nat, copy: nat, s': State, c: nat)
    requires Consistent(s) && Tallied(s, c) && Counted(s, s') && Step(s, Staged(ino, copy), s', true)
    ensures Tallied(s', c)
  {
    hide EvolvesAt, WellFormed, KeepsAccount;
    InodesKept(s.disk, {}, s'.disk, {copy}, -1, true);
    CountKept(s.disk, {}, s'.disk, {copy}, -1, true, c);
    SubsetSize(Inodes(s.disk) + {copy}, Inodes(s'.disk));
  }

  lemma RetiredTally(s: State, x: nat, s': State, c: nat)
    requires Consistent(s) && Tallied(s, c) && Counted(s, s') && Step(s, Retired(x), s', true)
    ensures Tallied(s', c)
  {
    hide EvolvesAt, WellFormed;
    InodesKept(s.disk, {x}, s'.disk, {}, -1, true);
    SubsetSize(Inodes(s.disk) - {x}, Inodes(s'.disk));
    SubsetSize(Inodes(s.disk), UsedSet(s.disk));
    assert Steady(s) ==> Guarded(s.disk, {x}) by {
      assert OwnedBy(s, x);
    }
  }

  lemma FailedTally(s: State, ino: nat, held: set<nat>, s': State, cow: bool, c: nat)
    requires Consistent(s) && Tallied(s, c) && Counted(s, s') && Step(s, Failed(ino, held), s', cow)
    ensures Tallied(s', c)
  {
    hide EvolvesAt, KeepsAccount, TreeHeld, Transfers, Consistent;
    TreeCountable(s, ino, s');
    TreeHasNoInodes(s.disk, ino);
    CountKept(s.disk, TreeBlocks(TreeAt(s.disk, ino)), s'.disk, held, ino, cow, c);
  }

  lemma CreatedTally(s: State, ino: nat, img: Block, s': State, cow: bool, c: nat)
    requires Consistent(s) && Tallied(s, c) && Counted(s, s') && Step(s, Created(ino, img), s', cow)
    ensures Tallied(s', c + 1)
  {
    hide Consistent, EvolvesAt;
    var (d, d') := (s.disk, s'.disk);
    CreateAccount(d, ino, img);
    CreateTransfers(d, ino, img);
    InodesKept(d, {}, d', {ino}, -1, true);
    SubsetSize(Inodes(d) + {ino}, Inodes(d'));
  }

  lemma SearchedTally(s: State, s': State, c: nat)
    requires Tallied(s, c) && Counted(s, s') && Step(s, Searched, s', true)
    ensures Tallied(s', c)
  {
    hide EvolvesAt, KeepsAccount;
    CountKept(s.disk, {}, s'.disk, {}, -1, true, c);
  }

  function Behind(c: nat, e: Event): nat {
    if e.Created? then c + 1 else c
  }

  /** Every step keeps the counter as exact as it was, except that creating an inode leaves it one
      further behind. This needs only that no block of a real type is reclaimed. */
  lemma StepTally(s: State, e: Event, s': State, cow: bool, c: nat)
    requires Consistent(s) && Tallied(s, c) && Counted(s, s') && Step(s, e, s', cow)
    ensures Tallied(s', Behind(c, e))
  {
    hide Tallied, Counted, Consistent, Evolves, FileStep, WellFormed;
    match e
    case Wrote(ino, _, _) => FileStepTally(s, ino, s', cow, c);
    case Resized(ino, _) => FileStepTally(s, ino, s', cow, c);
    case StatSet(ino) =>
      StatSetIsFileStep(s.disk, ino, s'.disk, cow);
      FileStepTally(s, ino, s', cow, c);
    case Staged(ino, copy) => StagedTally(s, ino, copy, s', c);
    case Adopted(ino, copy) => AdoptedTally(s, ino, copy, s', cow, c);
    case Retired(ino) => RetiredTally(s, ino, s', c);
    case Created(ino, img) => CreatedTally(s, ino, img, s', cow, c);
    case Failed(ino, held) => FailedTally(s, ino, held, s', cow, c);
    case Searched => SearchedTally(s, s', c);
  }

  lemma AdoptedTally(s: State, ino: nat, copy: nat, s': State, cow: bool, c: nat)
    requires Consistent(s) && Tallied(s, c) && Step(s, Adopted(ino, copy), s', cow)
    ensures Tallied(s', c)
  {
    hide WellFormed, TreeBlocks, TreeOf, Evolves, SameFile, UsedSet, Inodes;
    assert ino in Footprint(s.disk, ino);
    hide TreeHeld;
    assert |s'.loose| == |s.loose - {copy}| + |{ino}|;
  }

  /* ---- no real block loses its last reference ---- */

  lemma TreeGuarded(s: State, ino: nat)
    requires GuardedAll(s) && ino in s.live && WellFormed(s.disk, ino)
    ensures Guarded(s.disk, TreeBlocks(TreeAt(s.disk, ino)))
  {
    forall z | z in TreeBlocks(TreeAt(s.disk, ino)) && s.disk.Frozen(z)
      ensures s.disk.Shared(z)
    {
      assert z in Footprint(s.disk, ino) && OwnedBy(s, z);
    }
  }

  /** Blocks that stay owned without being touched stay guarded. */
  lemma StillShared(s: State, K: set<nat>, d': Disk, K': set<nat>, ino: int, cow: bool, z: nat)
    requires GuardedAll(s) && Transfers(s.disk, K, d', K', ino, cow)
    requires OwnedBy(s, z) && z !in K && s.disk.InUse(z) && d'.Frozen(z)
    ensures d'.Shared(z)
  {
    OthersUntouched(s.disk, K, d', K', ino, cow, z);
  }

  lemma FileStepGuarded(s: State, ino: nat, s': State, cow: bool)
    requires Consistent(s) && GuardedAll(s) && Consistent(s')
    requires ino in s.live && FileStep(s.disk, ino, s'.disk, cow)
    requires s'.live == s.live && s'.loose == s.loose
    ensures GuardedAll(s')
  {
    hide EvolvesAt, KeepsAccount, TreeHeld;
    var (d, d') := (s.disk, s'.disk);
    var (K, K') := (TreeBlocks(TreeAt(d, ino)), TreeBlocks(TreeAt(d', ino)));
    TreeGuarded(s, ino);
    GuardedKept(d, K, d', K', ino, cow);
    forall z: nat | OwnedBy(s', z) && d'.Frozen(z)
      ensures d'.Shared(z)
    {
      if z !in K' {
        FileStepUnowned(s, ino, s', cow, z);
        StillShared(s, K, d', K', ino, cow, z);
      }
    }
  }

  lemma FileStepSteady(s: State, ino: nat, s': State, cow: bool)
    requires Consistent(s) && Steady(s) && Consistent(s')
    requires ino in s.live && FileStep(s.disk, ino, s'.disk, cow)
    requires s'.live == s.live && s'.loose == s.loose
    ensures Steady(s')
  {
    hide EvolvesAt, TreeHeld;
    FileStepGuarded(s, ino, s', cow);
    TreeGuarded(s, ino);
  }

  /** What is owned after a step that owns only loose or fresh blocks, was owned before. */
  lemma LooseStepUnowned(s: State, K: set<nat>, s': State, K': set<nat>, z: nat)
    requires Consistent(s) && K <= s.loose && Transfers(s.disk, K, s'.disk, K', -1, true)
    requires s'.loose <= (s.loose - K) + K'
    requires forall i :: i in s'.live - s.live && WellFormed(s'.disk, i) ==> Footprint(s'.disk, i) <= K'
    requires OwnedBy(s', z) && z !in K'
    ensures OwnedBy(s, z) && z !in K && s.disk.InUse(z)
  {
    hide Transfers, TreeHeld;
    if z !in s'.loose {
      var i :| i in s'.live && WellFormed(s'.disk, i) && z in Footprint(s'.disk, i);
      LooseStepKeeps(s, K, s'.disk, K');
      assert i in s.live && z in Footprint(s.disk, i) && Footprint(s.disk, i) !! s.loose;
    }
    OwnedInUse(s, z);
  }

  /** A step that owns only loose or fresh blocks, or creates a file without contents. */
  lemma LooseStepGuarded(s: State, K: set<nat>, s': State, K': set<nat>)
    requires Consistent(s) && GuardedAll(s) && K <= s.loose
    requires Transfers(s.disk, K, s'.disk, K', -1, true)
    requires s'.loose <= (s.loose - K) + K'
    requires forall i :: i in s'.live - s.live && WellFormed(s'.disk, i) ==> Footprint(s'.disk, i) <= K'
    ensures GuardedAll(s')
  {
    var (d, d') := (s.disk, s'.disk);
    hide Consistent, EvolvesAt, WellFormed;
    forall z | z in K && d.Frozen(z)
      ensures d.Shared(z)
    {
      assert OwnedBy(s, z);
    }
    GuardedKept(d, K, d', K', -1, true);
    forall z: nat | OwnedBy(s', z) && d'.Frozen(z)
      ensures d'.Shared(z)
    {
      if z !in K' {
        LooseStepUnowned(s, K, s', K', z);
        StillShared(s, K, d', K', -1, true, z);
      }
    }
  }

  lemma StagedSteady(s: State, ino: nat, copy: nat, s': State)
    requires Consistent(s) && Steady(s) && Step(s, Staged(ino, copy), s', true) && Consistent(s')
    ensures Steady(s')
  {
    hide EvolvesAt, WellFormed;
    LooseStepGuarded(s, {}, s', {copy});
  }

  lemma RetiredSteady(s: State, x: nat, s': State)
    requires Consistent(s) && Steady(s) && Step(s, Retired(x), s', true) && Consistent(s')
    ensures Steady(s')
  {
    hide EvolvesAt, WellFormed;
    LooseStepGuarded(s, {x}, s', {});
    assert Guarded(s.disk, {x}) by {
      assert OwnedBy(s, x);
    }
  }

  lemma AdoptedSteady(s: State, ino: nat, copy: nat, s': State, cow: bool)
    requires Consistent(s) && Steady(s) && Step(s, Adopted(ino, copy), s', cow) && Consistent(s')
    ensures Steady(s')
  {
    hide TreeHeld;
    assert copy !in Footprint(s.disk, ino);
    SameFileSameTree(s.disk, ino, copy);
    assert ino in Footprint(s.disk, ino);
    forall z: nat | OwnedBy(s', z)
      ensures OwnedBy(s, z)
    {
      if z !in s'.loose {
        var i :| i in s'.live && z in Footprint(s'.disk, i);
        if i == copy && z != copy {
          assert z in Footprint(s.disk, ino);
        }
      }
    }
  }

  lemma FailedGuarded(s: State, ino: nat, held: set<nat>, s': State, cow: bool)
    requires Consistent(s) && GuardedAll(s) && Step(s, Failed(ino, held), s', cow)
    ensures GuardedAll(s')
  {
    hide Evolves, TreeHeld;
    var (d, d') := (s.disk, s'.disk);
    var K := TreeBlocks(TreeAt(d, ino));
    FailedConsistent(s, ino, held, s', cow);
    forall z: nat | OwnedBy(s', z) && d'.Frozen(z)
      ensures d'.Shared(z)
    {
      assert OwnedBy(s, z) && z !in Footprint(d, ino) by {
        if z !in s'.loose {
          var i :| i in s'.live && WellFormed(d', i) && z in Footprint(d', i);
          assert z in Footprint(d, i) && Footprint(d, i) !! Footprint(d, ino);
        }
      }
      OwnedInUse(s, z);
      FailedTransfers(s, ino, held, s', cow);
      StillShared(s, K, d', held, ino, cow, z);
    }
  }

  lemma FailedTransfers(s: State, ino: nat, held: set<nat>, s': State, cow: bool)
    requires Step(s, Failed(ino, held), s', cow)
    ensures Transfers(s.disk, TreeBlocks(TreeAt(s.disk, ino)), s'.disk, held, ino, cow)
  {
  }

  lemma FailedSteady(s: State, ino: nat, held: set<nat>, s': State, cow: bool)
    requires Consistent(s) && Steady(s) && Step(s, Failed(ino, held), s', cow) && Consistent(s')
    ensures Steady(s')
  {
    hide EvolvesAt, TreeHeld, GuardedAll, Consistent, WellFormed, TreeOf;
    FailedGuarded(s, ino, held, s', cow);
    TreeGuarded(s, ino);
  }

  lemma CreatedSteady(s: State, ino: nat, img: Block, s': State, cow: bool)
    requires Consistent(s) && Steady(s) && Step(s, Created(ino, img), s', cow) && Consistent(s')
    ensures Steady(s')
  {
    hide Consistent, EvolvesAt, WellFormed;
    CreateWellFormed(s, ino, img, s', cow);
    LooseStepGuarded(s, {}, s', {ino});
    CreateAccount(s.disk, ino, img);
  }

  lemma SearchedSteady(s: State, s': State)
    requires Consistent(s) && Steady(s) && Step(s, Searched, s', true) && Consistent(s')
    ensures Steady(s')
  {
    hide EvolvesAt, WellFormed;
    LooseStepGuarded(s, {}, s', {});
  }

  lemma StepSteady(s: State, e: Event, s': State, cow: bool)
    requires Consistent(s) && Steady(s) && Step(s, e, s', cow)
    ensures Consistent(s') && Steady(s')
  {
    hide Steady, Consistent, Evolves, FileStep, WellFormed;
    StepConsistent(s, e, s', cow);
    match e
    case Wrote(ino, _, _) => FileStepSteady(s, ino, s', cow);
    case Resized(ino, _) => FileStepSteady(s, ino, s', cow);
    case StatSet(ino) =>
      StatSetIsFileStep(s.disk, ino, s'.disk, cow);
      FileStepSteady(s, ino, s', cow);
    case Staged(ino, copy) => StagedSteady(s, ino, copy, s');
    case Adopted(ino, copy) => AdoptedSteady(s, ino, copy, s', cow);
    case Retired(ino) => RetiredSteady(s, ino, s');
    case Created(ino, img) => CreatedSteady(s, ino, img, s', cow);
    case Failed(ino, held) => FailedSteady(s, ino, held, s', cow);
    case Searched => SearchedSteady(s, s');
  }

  /* ---- runs ---- */

  /** The count stays exact in one step exactly if the step creates no inode. */
  lemma StepAccounted(s: State, e: Event, s': State, cow: bool)
    requires Consistent(s) && GuardedAll(s) && Accounted(s.disk) && s.loose <= Inodes(s.disk)
    requires Step(s, e, s', cow)
    ensures Consistent(s') && GuardedAll(s')
    ensures Accounted(s'.disk) <==> !e.Created?
  {
    SubsetSize(s.loose, Inodes(s.disk));
    StepTally(s, e, s', cow, 0);
    StepSteady(s, e, s', cow);
  }

  function Creations(es: seq<Event>): nat {
    if es == [] then 0 else Behind(Creations(es[..|es| - 1]), es[|es| - 1])
  }

  lemma CreationsNext(es: seq<Event>, k: nat)
    requires 0 < k <= |es|
    ensures Creations(es[..k]) == Behind(Creations(es[..k - 1]), es[k - 1])
  {
    assert es[..k][..k - 1] == es[..k - 1] && es[..k][k - 1] == es[k - 1];
  }

  lemma {:induction false} RunShort(ss: seq<State>, es: seq<Event>, cow: bool, k: nat, c: nat)
    requires Run(ss, es, cow) && Consistent(ss[0]) && ShortBy(ss[0], c) && k < |ss|
    ensures Consistent(ss[k]) && ShortBy(ss[k], c + Creations(es[..k]))
    decreases k
  {
    hide Consistent, Step, Tallied, Steady;
    if k != 0 {
      RunShort(ss, es, cow, k - 1, c);
      StepTally(ss[k - 1], es[k - 1], ss[k], cow, c + Creations(es[..k - 1]));
      StepSteady(ss[k - 1], es[k - 1], ss[k], cow);
      CreationsNext(es, k);
    }
  }

  /** Used-block conservation: in every state of a run, whatever the mode, the header counter, what it
      was short at first and the number of inodes created since add up to the number of allocated
      blocks that are not redundancy. So the saturating decrement never saturates, and the counter is
      exact if and only if it was and no inode is created. Runs may start from a formatted disk or
      from the second sweep of a snapshot. */
  lemma RunAccounted(ss: seq<State>, es: seq<Event>, cow: bool, k: nat, c: nat)
    requires Run(ss, es, cow) && Consistent(ss[0]) && ShortBy(ss[0], c) && k < |ss|
    ensures Consistent(ss[k]) && ShortBy(ss[k], c + Creations(es[..k]))
    ensures ss[k].disk.used + c + Creations(es[..k]) == |UsedSet(ss[k].disk)|
    ensures Accounted(ss[k].disk) <==> c + Creations(es[..k]) == 0
  {
    hide Step, Run, UsedSet, Inodes;
    RunShort(ss, es, cow, k, c);
  }

  /** A run never undoes a reclamation. */
  lemma StepSweeps(s: State, e: Event, s': State, cow: bool)
    requires Consistent(s) && Step(s, e, s', cow)
    ensures s.disk.sweeps <= s'.disk.sweeps
  {
    hide EvolvesAt, KeepsAccount, TreeHeld;
    if e.Created? {
      CreateTransfers(s.disk, e.ino, e.img);
    }
  }

  /** Without regard to references, as between the two sweeps of a snapshot: the sum stays the same as
      long as nothing is reclaimed. */
  lemma {:induction false} RunTallied(ss: seq<State>, es: seq<Event>, cow: bool, k: nat, c: nat)
    requires Run(ss, es, cow) && Consistent(ss[0]) && Tallied(ss[0], c) && k < |ss|
    ensures Consistent(ss[k]) && ss[0].disk.sweeps <= ss[k].disk.sweeps
    ensures ss[k].disk.sweeps == ss[0].disk.sweeps ==> Tallied(ss[k], c + Creations(es[..k]))
    decreases k
  {
    hide Consistent, Step, Tallied;
    if k != 0 {
      RunTallied(ss, es, cow, k - 1, c);
      StepConsistent(ss[k - 1], es[k - 1], ss[k], cow);
      StepSweeps(ss[k - 1], es[k - 1], ss[k], cow);
      if ss[k].disk.sweeps == ss[0].disk.sweeps {
        StepTally(ss[k - 1], es[k - 1], ss[k], cow, c + Creations(es[..k - 1]));
      }
      CreationsNext(es, k);
    }
  }

  /** Either freeze sweep keeps the tally. The second one leaves every used block referenced, and every
      frozen block of a live file with a reference to spare: this is what `RunAccounted` starts from. */
  lemma SweptAccounted(s: State, s': State, share: bool, c: nat)
    requires Consistent(s) && s' == s.(disk := Swept(s.disk, share)) && Tallied(s, c)
    ensures Consistent(s') && Tallied(s', c)
    ensures share ==> ShortBy(s', c)
  {
    SweptKeeps(s, s', share);
    SweptUse(s.disk, share);
    assert UsedSet(s'.disk) == UsedSet(s.disk);
    assert Inodes(s'.disk) == Inodes(s.disk);
    hide Consistent, Swept;
    if share {
      forall z: nat | OwnedBy(s', z)
        ensures s'.disk.Shared(z)
      {
        OwnedInUse(s', z);
      }
    }
  }

  /** The account over a snapshot: first sweep, any events without reclamation, second sweep, any
      events. */
  lemma SnapshotAccounted(s: State, before: seq<State>, preparing: seq<Event>, after: seq<State>, es: seq<Event>,
                          k: nat, c: nat)
    requires Consistent(s) && Tallied(s, c)
    requires Run(before, preparing, true) && before[0] == s.(disk := Swept(s.disk, false))
    requires var t := before[|before| - 1];
             && t.disk.Shape() && t.disk.sweeps == s.disk.sweeps
             && Run(after, es, true) && after[0] == t.(disk := Swept(t.disk, true))
    requires k < |after|
    ensures after[k].disk.used + c + Creations(preparing) + Creations(es[..k]) == |UsedSet(after[k].disk)|
  {
    hide Consistent, Tallied, Step, Steady;
    var last := |before| - 1;
    SweptAccounted(s, before[0], false, c);
    RunTallied(before, preparing, true, last, c);
    assert preparing[..last] == preparing;
    SweptAccounted(before[last], after[0], true, c + Creations(preparing));
    RunAccounted(after, es, true, k, c + Creations(preparing));
  }

  /** Creating one inode on a fresh two-block disk: two blocks are used, the counter says one. */
  lemma CreationUncounted() returns (d: Disk, d': Disk)
    ensures d.Shape() && d.bs == 512 && Accounted(d) && Allocation.Allocate(d).1 == Wrappers.Some(1)
    ensures d' == Create(d, 1, Bytes.Zeros(512)) && d'.used == 1 && UsedSet(d') == {0, 1} && !Accounted(d')
  {
    var z := Bytes.Zeros(512);
    d := Disk(512, [true, false], [INODE_ATTR, FRESH_ATTR], [z, z], 0, 1, 0);
    assert d.Shape();
    assert Allocation.FirstFree(d.bits, 1, 2) == Wrappers.Some(1);
    assert Allocation.TakeFirst(d, 1).1 == Wrappers.Some(1) && Allocation.Allocate(d).1 == Wrappers.Some(1);
    d' := Create(d, 1, z);
    assert UsedSet(d) == {0} && UsedSet(d') == {0, 1};
  }

  /** The only other way to lose count: an allocation on a full disk frees unreferenced blocks of a
      real type without counting them down. Nothing else about an allocation matters. */
  lemma AllocationAccounted(d: Disk)
    requires d.Shape() && d.used == |UsedSet(d)|
    ensures var d' := Allocation.Allocate(d).0;
            d'.used == |UsedSet(d')| <==>
              !Allocation.Full(d) || forall j: nat :: j < |d.bits| && d.attr[j].typ != Redundancy ==>
                  !Allocation.OldEnough(d, j)
  {
    var d' := Allocation.Allocate(d).0;
    Allocation.AllocateKeepsData(d);
    forall j: nat | j < |d.bits|
      ensures j in UsedSet(d') <==> j in UsedSet(d) && !(Allocation.Full(d) && Allocation.OldEnough(d, j))
    {
      UsedAfterAllocation(d, j);
    }
    hide Allocation.Allocate;
    if j: nat :| Allocation.Full(d) && j < |d.bits| && d.attr[j].typ != Redundancy && Allocation.OldEnough(d, j) {
      assert j in UsedSet(d);
      hide Allocation.OldEnough;
      SubsetSize(UsedSet(d'), UsedSet(d) - {j});
    } else {
      hide Allocation.OldEnough;
      assert UsedSet(d') == UsedSet(d);
    }
  }

  lemma UsedAfterAllocation(d: Disk, j: nat)
    requires d.Shape() && j < |d.bits|
    ensures j in UsedSet(Allocation.Allocate(d).0) <==>
              j in UsedSet(d) && !(Allocation.Full(d) && Allocation.OldEnough(d, j))
  {
    if Allocation.Allocate(d).1 == Wrappers.Some(j) {
      Allocation.AllocateMarks(d, j);
      if Allocation.Full(d) {
        Allocation.AllocateReclaims(d);
      } else {
        var k: nat :| k < |d.bits| && !d.bits[k];
        Allocation.AllocateChoosesFree(d, k);
      }
    } else {
      Allocation.AllocateKeepsOthers(d, j);
    }
  }
}
