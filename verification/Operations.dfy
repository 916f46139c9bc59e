/** The operations that path copying is made of, on a volume in copy-on-write mode. Each of them
    is a step of the file system, successful or not, and keeps every snapshot `d0` intact. */
module Operations {
  import opened Wrappers
  import opened Bytes
  import opened DiskState
  import opened Allocation
  import opened Evolution
  import opened BlockSteps
  import opened FileTree
  import opened FileContent
  import opened FileSystem
  import opened Snapshot
  import opened Volume
  import opened InodeService
  import opened FileCommit
  import opened TreeOwnership
  import opened Occupancy
  import opened Budget

  const INO_OFFSET := 8

  /** From one consistent state to another without harm to the snapshot `d0`; its bytes are safe with
      copy-on-write. */
  ghost predicate Advances(s: FileSys, s': FileSys, d0: Disk, cow: bool) {
    && SameGeometry(s.disk, s'.disk)
    && (Protects(s, d0, false) ==> Protects(s', d0, false))
    && (cow && Protects(s, d0, true) ==> Protects(s', d0, true))
  }

  lemma AdvancesRefl(s: FileSys, d0: Disk, cow: bool)
    ensures Advances(s, s, d0, cow)
  {
  }

  lemma AdvancesTrans(s: FileSys, s1: FileSys, s2: FileSys, d0: Disk, cow: bool)
    requires Advances(s, s1, d0, cow) && Advances(s1, s2, d0, cow)
    ensures Advances(s, s2, d0, cow)
  {
  }

  lemma AdvancesWeaken(s: FileSys, s': FileSys, d0: Disk, cow: bool)
    requires Advances(s, s', d0, true)
    ensures Advances(s, s', d0, cow)
  {
  }

  /** What copy-on-write does is allowed in place, too. */
  lemma StepWeaken(s: State, e: Event, s': State)
    requires Step(s, e, s', true)
    ensures Step(s, e, s', false)
  {
    forall K: set<nat>, K': set<nat>, ino: int | Evolves(s.disk, K, s'.disk, K', ino, true)
      ensures Evolves(s.disk, K, s'.disk, K', ino, false)
    {
      EvolvesInPlace(s.disk, K, s'.disk, K', ino);
    }
  }

  lemma StepAdvances(s: FileSys, e: Event, t: State, d0: Disk, cow: bool) returns (s': FileSys)
    requires Step(s, e, t, cow) && (cow ==> WritesUnfrozen(s, e))
    ensures s' == t && Advances(s, s', d0, cow)
  {
    StepConsistent(s, e, t, cow);
    s' := t;
    if cow {
      StepWeaken(s, e, t);
    }
    if Protects(s, d0, false) {
      StepProtects(s, e, t, d0, false);
    }
    if cow && Protects(s, d0, true) {
      StepProtects(s, e, t, d0, true);
    }
    assert SameGeometry(s.disk, t.disk) by {
      StepGeometry(s, e, t, cow);
    }
  }

  lemma StepGeometry(s: State, e: Event, s': State, cow: bool)
    requires Consistent(s) && Step(s, e, s', cow)
    ensures SameGeometry(s.disk, s'.disk)
  {
    hide EvolvesAt, KeepsAccount, TreeHeld;
  }

  /** A state of this volume in which `ino` is a live inode that may be written in place: with
      copy-on-write, not a frozen one. */
  ghost predicate Writable(volume: Volume, s: FileSys, ino: nat)
    reads volume.Repr()
  {
    && volume.Valid() && volume.State() == s.disk
    && ino in s.live && (!volume.noCow ==> !s.disk.Frozen(ino))
  }

  /** A change to one file that keeps its stat record apart from the size. */
  ghost predicate FileChanged(s: FileSys, ino: nat, s': FileSys, cow: bool) {
    && s'.live == s.live && s'.loose == s.loose && ino in s.live
    && FileStep(s.disk, ino, s'.disk, cow)
    && StatRest(s'.disk.data[ino]) == StatRest(s.disk.data[ino])
    && s'.disk.Frozen(ino) == s.disk.Frozen(ino)
  }

  method WriteFile(volume: Volume, ino: nat, data: seq<byte>, offset: nat, ghost s: FileSys, ghost d0: Disk)
    returns (ok: bool, ghost s': FileSys)
    requires Writable(volume, s, ino) && |data| + offset < TWO_64
    modifies volume.Repr()
    ensures volume.Valid() && volume.State() == s'.disk && Advances(s, s', d0, !volume.noCow)
    ensures ok ==> && FileChanged(s, ino, s', !volume.noCow) && Writable(volume, s', ino)
                   && BytesAt(s'.disk, ino) == Written(BytesAt(s.disk, ino), data, offset)
    ensures var (bs, size) := (s.disk.bs, |BytesAt(s.disk, ino)|);
            var cost := WriteCost(bs, size, offset, |data|);
            && Within(s.disk, s'.disk, cost, WriteFits(bs, size, offset, |data|), ok)
            && (ok ==> WriteFits(bs, size, offset, |data|))
            && (ok ==> CanGrow(s.disk, ino, |data| + offset, !volume.noCow))
            && (volume.noCow && !EmptyAtEnd(size, |data|, offset, bs) && CanGrow(s.disk, ino, |data| + offset, false)
                ==> ok)
  {
    hide Advances, Took, Spare, WriteCost, CanGrow, EmptyAtEnd, Capacity, Volume.State, TreeOf;
    var service := new InodeService(volume, ino);
    var r;
    ghost var held;
    r, held := service.Write(data, offset);
    if !r.NoSpace? {
      if r.Done? {
        FitsIfGrown(s.disk, ino, offset, |data|, !volume.noCow);
      }
      s' := StepAdvances(s, Wrote(ino, data, offset), State(volume.State(), s.live, s.loose), d0, !volume.noCow);
      OthersUntouched(s.disk, TreeBlocks(TreeAt(s.disk, ino)), s'.disk, TreeBlocks(TreeAt(s'.disk, ino)), ino,
                      !volume.noCow, ino);
      return r.Done?, s';
    } else {
      s' := StepAdvances(s, Failed(ino, held), State(volume.State(), s.live - {ino}, s.loose), d0, !volume.noCow);
      return false, s';
    }
  }

  method ResizeFile(volume: Volume, ino: nat, size: nat, ghost s: FileSys, ghost d0: Disk)
    returns (ok: bool, ghost s': FileSys)
    requires Writable(volume, s, ino) && size < TWO_64
    modifies volume.Repr()
    ensures volume.Valid() && volume.State() == s'.disk && Advances(s, s', d0, !volume.noCow)
    ensures ok ==> && FileChanged(s, ino, s', !volume.noCow) && Writable(volume, s', ino)
                   && ResizedContent(BytesAt(s.disk, ino), BytesAt(s'.disk, ino), size)
    ensures ok <==> && size <= Capacity(s.disk.bs)
                    && HasRoom(s.disk, TreeAt(s.disk, ino), Describe(s.disk.bs, size), !volume.noCow)
    ensures Within(s.disk, s'.disk, ResizeCost(s.disk.bs, |BytesAt(s.disk, ino)|, size),
                   size <= Capacity(s.disk.bs), ok)
  {
    hide Volume.State;
    hide Took, Spare, ResizeCost, HasRoom, Capacity, ResizedTree, Describe, GaveUp, Dropped, UsedWith, GivenBack;
    var service := new InodeService(volume, ino);
    ghost var held;
    if Spare(s.disk, ResizeCost(s.disk.bs, SizeOf(s.disk.data[ino]), size)) {
      SpareForResize(s.disk, ino, size, !volume.noCow);
    }
    ok, held := service.Resize(size);
    if ok {
      ResizeTook(s.disk, ino, volume.State(), size, !volume.noCow);
      s' := StepAdvances(s, Resized(ino, size), State(volume.State(), s.live, s.loose), d0, !volume.noCow);
      OthersUntouched(s.disk, TreeBlocks(TreeAt(s.disk, ino)), s'.disk, TreeBlocks(TreeAt(s'.disk, ino)), ino,
                      !volume.noCow, ino);
    } else {
      s' := StepAdvances(s, Failed(ino, held), State(volume.State(), s.live - {ino}, s.loose), d0, !volume.noCow);
    }
  }

  /** Allocate an inode block and fill it with a copy of a live one. */
  method StageCopy(volume: Volume, content: Block, ghost ino: nat, ghost s: FileSys, ghost d0: Disk)
    returns (r: Option<nat>, ghost s': FileSys)
    requires volume.Valid() && volume.State() == s.disk && ino in s.live
    requires content == s.disk.data[ino]
    modifies volume.Repr()
    ensures volume.Valid() && volume.State() == s'.disk && Advances(s, s', d0, true)
    ensures r.Some? ==> && s'.live == s.live && s'.loose == s.loose + {r.value}
                        && Step(s, Staged(ino, r.value), s', true)
                        && !s.disk.InUse(r.value) && !s'.disk.Frozen(r.value)
    ensures r.Some? <==> |Uses(s.disk)| < |s.disk.bits|
    ensures Within(s.disk, s'.disk, 1, true, r.Some?)
  {
    hide Within, Took, Uses;
    ghost var d := volume.State();
    AllocateRoom(d);
    r := volume.Allocate();
    if r.None? {
      AllocationWithin(d, volume.State(), false);
      AllocateNoneEvolves(d);
      s' := StepAdvances(s, Searched, State(volume.State(), s.live, s.loose), d0, true);
      return;
    }
    var n := r.value;
    AllocateEvolves(d, n, IndexNode);
    volume.SetType(n, IndexNode);
    ghost var d1 := volume.State();
    volume.WriteBlock(n, content);
    NewBlockEvolves(d, d1, n, content);
    BlockTook(d, volume.State(), n);
    AllocationWithin(d, volume.State(), true);
    s' := StepAdvances(s, Staged(ino, n), State(volume.State(), s.live, s.loose + {n}), d0, true);
  }

  /** Give up an inode block that has been replaced. */
  method RetireInode(volume: Volume, x: nat, ghost s: FileSys, ghost d0: Disk) returns (ghost s': FileSys)
    requires volume.Valid() && volume.State() == s.disk && x in s.loose
    modifies volume.Repr()
    ensures volume.Valid() && volume.State() == s'.disk && Advances(s, s', d0, true)
    ensures s'.live == s.live && s'.loose == s.loose - {x} && Step(s, Retired(x), s', true)
    ensures Took(s.disk, s'.disk, 0)
  {
    assert s.disk.InUse(x);
    volume.Retire(x);
    RetireEvolves(s.disk, x);
    NoBlockTook(s.disk, {x}, volume.State(), -1);
    s' := StepAdvances(s, Retired(x), State(volume.State(), s.live, s.loose - {x}), d0, true);
  }

  lemma InoPut(img: Block, n: nat)
    requires 512 <= |img| && n < TWO_64
    ensures SameFile(img, Put(img, INO_OFFSET, WordBytes(n)))
  {
    GetPutOther(img, INO_OFFSET, WordBytes(n), SIZE_OFFSET);
    forall k: nat | STAT_SIZE + WORD * k + WORD <= |img|
      ensures SlotAt(Put(img, INO_OFFSET, WordBytes(n)), k) == SlotAt(img, k)
    {
      GetPutOther(img, INO_OFFSET, WordBytes(n), STAT_SIZE + WORD * k);
    }
  }

  /** Record an inode's own number in its stat. */
  method SetIno(volume: Volume, n: nat, ghost s: FileSys, ghost d0: Disk) returns (ghost s': FileSys)
    requires Writable(volume, s, n) && !volume.noCow
    modifies volume.Repr()
    ensures volume.Valid() && volume.State() == s'.disk && Advances(s, s', d0, true)
    ensures Step(s, StatSet(n), s', true) && Writable(volume, s', n) && s'.loose == s.loose
    ensures s'.disk.data[n] == Put(s.disk.data[n], INO_OFFSET, WordBytes(n)) && Took(s.disk, s'.disk, 0)
  {
    assert WellFormed(s.disk, n);
    var img := Put(volume.data[n], INO_OFFSET, WordBytes(n));
    InoPut(s.disk.data[n], n);
    volume.WriteBlock(n, img);
    WriteInodeEvolves(s.disk, n, img, true);
    NoBlockTook(s.disk, {}, volume.State(), n);
    s' := StepAdvances(s, StatSet(n), State(volume.State(), s.live, s.loose), d0, true);
  }

  /** The stat record of a new inode, with its own number filled in, on an otherwise empty block. */
  function NewInode(bs: nat, stat: seq<byte>, n: nat): (img: Block)
    requires 512 <= bs && |stat| == STAT_SIZE
    ensures |img| == bs
  {
    Put(Put(Zeros(bs), 0, stat), INO_OFFSET, WordBytes(n))
  }

  lemma NewInodeStat(bs: nat, stat: seq<byte>, n: nat)
    requires 512 <= bs && |stat| == STAT_SIZE && n < TWO_64
    ensures SizeOf(NewInode(bs, stat, n)) == GetWord(stat, SIZE_OFFSET)
    ensures Stamped(NewInode(bs, stat, n), stat, n)
  {
    GetPutOther(Put(Zeros(bs), 0, stat), INO_OFFSET, WordBytes(n), SIZE_OFFSET);
    PutPrefix(Zeros(bs), stat, SIZE_OFFSET, SIZE_OFFSET + WORD);
    GetPutSame(Put(Zeros(bs), 0, stat), INO_OFFSET, n);
  }

  /** The block starts with the stat record, in which bytes 8 to 16 hold the inode's number; the rest is
      zero. */
  ghost predicate Stamped(img: Block, stat: seq<byte>, n: nat) {
    && |stat| == 120 <= |img| && GetWord(img, 8) == n
    && (forall i :: 0 <= i < 120 && !(8 <= i < 16) ==> img[i] == stat[i])
    && (forall i :: 120 <= i < |img| ==> img[i] == 0)
  }

  /** Allocate a block for a new inode and write its stat record. */
  method CreateInode(volume: Volume, stat: seq<byte>, ghost s: FileSys, ghost d0: Disk)
      returns (r: Option<nat>, ghost s': FileSys)
    requires volume.Valid() && volume.State() == s.disk && |stat| == STAT_SIZE && GetWord(stat, SIZE_OFFSET) == 0
    modifies volume.Repr()
    ensures volume.Valid() && volume.State() == s'.disk && Advances(s, s', d0, true)
    ensures r.Some? ==> && Step(s, Created(r.value, NewInode(s.disk.bs, stat, r.value)), s', true)
                        && !s.disk.InUse(r.value) && r.value < |s.disk.bits|
    ensures r.None? ==> s'.live == s.live && s'.loose == s.loose
    ensures r.Some? <==> |Uses(s.disk)| < |s.disk.bits|
    ensures Within(s.disk, s'.disk, 1, true, r.Some?)
  {
    hide Within, Took, Uses;
    ghost var d := volume.State();
    AllocateRoom(d);
    r := volume.Allocate();
    if r.None? {
      AllocationWithin(d, volume.State(), false);
      AllocateNoneEvolves(d);
      s' := StepAdvances(s, Searched, State(volume.State(), s.live, s.loose), d0, true);
      return;
    }
    var n := r.value;
    AllocateNotInUse(d, n);
    volume.SetAttr(n, INODE_ATTR);
    var img := NewInode(volume.blockSize, stat, n);
    volume.WriteBlock(n, img);
    NewInodeStat(volume.blockSize, stat, n);
    CreateTransfers(d, n, img);
    BlockTook(d, volume.State(), n);
    AllocationWithin(d, volume.State(), true);
    s' := StepAdvances(s, Created(n, img), State(volume.State(), s.live + {n}, s.loose), d0, true);
  }
}
