/** The single-block steps of copy-on-write, and how each of them evolves the disk. */
module BlockSteps {
  import opened Wrappers
  import opened DiskState
  import opened Allocation
  import opened Evolution

  /** A used block that becomes redundancy is counted down, if the counter allows. */
  lemma SetRedundancyAccount(d: Disk, j: nat)
    requires d.Shape() && d.InUse(j)
    ensures UsedSet(d.SetType(j, Redundancy)) == UsedSet(d) - {j} && j in UsedSet(d)
    ensures forall c: nat :: Tally(d, c) && c + 1 <= |UsedSet(d)| ==> Tally(d.SetType(j, Redundancy), c)
  {
    assert UsedSet(d.SetType(j, Redundancy)) == UsedSet(d) - {j};
  }

  lemma SaveTypeUsed(d: Disk, j: nat)
    requires d.Shape() && j < |d.bits|
    ensures UsedSet(d.SaveType(j)) == UsedSet(d)
  {
  }

  lemma DecRefsUsed(d: Disk, j: nat)
    requires d.Shape() && j < |d.bits|
    ensures UsedSet(d.DecRefs(j)) == UsedSet(d)
  {
  }

  lemma RedundantEvolves(d: Disk, j: nat)
    requires d.Shape() && d.InUse(j) && d.attr[j].status == Available
    ensures Evolves(d, {j}, d.SaveType(j).SetType(j, Redundancy), {}, -1, true)
  {
    SaveTypeUsed(d, j);
    SetRedundancyAccount(d.SaveType(j), j);
    hide UsedSet;
  }

  lemma DecRefsEvolves(d: Disk, j: nat)
    requires d.Shape() && d.InUse(j) && (d.Frozen(j) || 2 <= d.attr[j].refs)
    ensures Evolves(d, {j}, d.DecRefs(j), {}, -1, true)
  {
    DecRefsUsed(d, j);
    hide UsedSet;
  }

  /** Copy-on-write gives up the block that was replaced. */
  lemma RetireEvolves(d: Disk, j: nat)
    requires d.Shape() && d.InUse(j)
    ensures Evolves(d, {j}, d.Retire(j), {}, -1, true)
    ensures d.Retire(j).data == d.data
  {
    hide Evolves;
    if d.attr[j].status == Available {
      RedundantEvolves(d, j);
    } else {
      DecRefsEvolves(d, j);
    }
  }

  /** What becomes of a block that copy-on-write has replaced, or that is given back: a private one is
      redundancy that remembers its type, any other has lost one reference; no other block changes. */
  lemma GivenUp(d: Disk, j: nat)
    requires d.Shape() && d.InUse(j)
    ensures var (a, retired, freed) := (d.attr[j], d.Retire(j), d.Deallocate(j));
            && retired.attr[j] == (if a.status == Available then Attr(Available, Redundancy, a.typ, a.age, a.refs)
                                   else a.(refs := a.refs - 1))
            && freed.attr[j] == (if a.status == Available
                                 && a.refs == 1 then Attr(Available, Redundancy, a.typ, a.age, 1)
                                 else a.(refs := a.refs - 1))
            && retired == d.(attr := d.attr[j := retired.attr[j]], used := retired.used)
            && freed == d.(attr := d.attr[j := freed.attr[j]], used := freed.used)
  {
  }

  /** A block that has been copied remembers its type, too. */
  lemma CopyRemembers(d: Disk, x: nat)
    requires d.Shape() && d.InUse(x) && CopyOnWrite(d, x).1.Some?
    ensures CopyOnWrite(d, x).0.attr[x].typCow == d.attr[x].typ
  {
    AllocateKeepsOthers(d, x);
    AllocateNotInUse(d, Allocate(d).1.value);
  }

  /** The block manager takes a block back. */
  lemma DeallocateEvolves(d: Disk, j: nat)
    requires d.Shape() && d.InUse(j)
    ensures Evolves(d, {j}, d.Deallocate(j), {}, -1, true)
    ensures d.Deallocate(j).data == d.data
  {
    hide Evolves;
    if d.attr[j].status == Available && d.attr[j].refs <= 1 {
      RedundantEvolves(d, j);
    } else {
      DecRefsEvolves(d, j);
    }
  }

  /** Block 0 may be dropped from the owned blocks without being given back. */
  lemma DropZeroEvolves(d: Disk)
    requires d.Shape() && d.InUse(0)
    ensures Evolves(d, {0}, d, {}, -1, true)
  {
  }

  lemma SaveTypeEvolves(d: Disk, j: nat)
    requires d.Shape() && j < |d.bits|
    ensures Evolves(d, {}, d.SaveType(j), {}, -1, true)
    ensures d.SaveType(j).data == d.data
  {
    assert UsedSet(d.SaveType(j)) == UsedSet(d);
  }

  /** Any block may be written in place when copy-on-write is off; otherwise only a private one,
      and it counts as written in place. */
  lemma WriteEvolves(d: Disk, j: nat, b: Block, ino: int, cow: bool)
    requires d.Shape() && d.InUse(j) && |b| == d.bs
    requires cow ==> !d.Frozen(j) && ino == j
    ensures Evolves(d, {j}, d.SetData(j, b), {j}, ino, cow)
  {
    assert UsedSet(d.SetData(j, b)) == UsedSet(d);
  }

  /** The inode's own block is the one written in place. */
  lemma WriteInodeEvolves(d: Disk, ino: nat, b: Block, cow: bool)
    requires d.Shape() && ino < |d.bits| && |b| == d.bs
    ensures Evolves(d, {}, d.SetData(ino, b), {}, ino, cow)
  {
    assert UsedSet(d.SetData(ino, b)) == UsedSet(d);
  }

  /** Retyping a block that was freshly allocated. */
  lemma SetTypeEvolves(d: Disk, j: nat, t: BlockType)
    requires d.Shape() && d.InUse(j) && t != Redundancy
    requires !d.Frozen(j) && d.attr[j].refs == 1
    ensures Evolves(d, {j}, d.SetType(j, t), {j}, -1, true)
    ensures d.SetType(j, t).data == d.data
  {
    assert UsedSet(d.SetType(j, t)) == UsedSet(d);
  }

  /** A private copy of block `x`, typed as storage. */
  function CopyOnWrite(d: Disk, x: nat): (r: (Disk, Option<nat>))
    requires d.Shape() && x < |d.bits|
    ensures SameGeometry(d, r.0)
    ensures r.1.Some? ==> r.1.value < |d.bits|
  {
    match Allocate(d)
    case (d1, Some(n)) =>
      AllocateNotInUse(d, n);
      (d1.SetType(n, Storage).SetData(n, d1.data[x]).SaveType(x), Some(n))
    case (d1, None) => (d1, None)
  }

  lemma CopyOnWriteEvolves(d: Disk, x: nat, n: nat)
    requires d.Shape() && d.InUse(x) && CopyOnWrite(d, x).1 == Some(n)
    ensures n < |d.bits| && !d.InUse(n) && n != x
    ensures var d' := CopyOnWrite(d, x).0;
            && Evolves(d, {}, d', {n}, -1, true)
            && d'.data == d.data[n := d.data[x]]
            && d'.attr[n] == FRESH_ATTR.(typ := Storage)
            && d'.InUse(x) && SameAttr(d, d', x)
            && (d'.sweeps == d.sweeps ==> !d.bits[n])
  {
    AllocateEvolves(d, n, Storage);
    var d2 := Allocate(d).0.SetType(n, Storage);
    var d3 := d2.SetData(n, d.data[x]);
    var d4 := d3.SaveType(x);
    NewBlockEvolves(d, d2, n, d.data[x]);
    SaveTypeEvolves(d3, x);
    EvolvesFrame(d3, {}, d4, {}, {n}, -1, true);
    assert {} + {n} == {n};
    EvolvesTrans(d, {}, d3, {n}, d4, {n}, -1, true);
    OthersUntouched(d, {}, d4, {n}, -1, true, x);
  }

  /** A block that has just been allocated may be filled. */
  lemma NewBlockEvolves(d: Disk, d1: Disk, n: nat, b: Block)
    requires Evolves(d, {}, d1, {n}, -1, true) && |b| == d.bs && n < |d.bits| && !d.InUse(n)
    requires !d1.Frozen(n) && (d1.sweeps == d.sweeps ==> !d.bits[n])
    ensures Evolves(d, {}, d1.SetData(n, b), {n}, -1, true)
  {
    EvolvesWeaken(d, {}, d1, {n}, n, true);
    WriteEvolves(d1, n, b, n, true);
    EvolvesTrans(d, {}, d1, {n}, d1.SetData(n, b), {n}, n, true);
    EvolvesNew(d, {}, d1.SetData(n, b), {n}, n);
  }

  /** After a copy: fill the new block, then give up the old one. */
  function Replace(d: Disk, n: nat, x: nat, b: Block, t: BlockType): (r: Disk)
    requires d.Shape() && n < |d.bits| && x < |d.bits| && |b| == d.bs
    ensures SameGeometry(d, r)
  {
    d.SetType(n, t).SetData(n, b).Retire(x)
  }

  lemma ReplaceEvolves(d: Disk, n: nat, x: nat, b: Block, t: BlockType)
    requires d.Shape() && d.InUse(n) && d.InUse(x) && n != x && |b| == d.bs
    requires !d.Frozen(n) && d.attr[n].refs == 1 && t != Redundancy
    ensures Evolves(d, {n, x}, Replace(d, n, x, b, t), {n}, n, true)
    ensures var d' := Replace(d, n, x, b, t);
            d'.data == d.data[n := b] && d'.attr[n] == d.attr[n].(typ := t)
  {
    var d1 := d.SetType(n, t);
    var d2 := d1.SetData(n, b);
    var d3 := d2.Retire(x);
    SetTypeEvolves(d, n, t);
    EvolvesWeaken(d, {n}, d1, {n}, n, true);
    WriteEvolves(d1, n, b, n, true);
    EvolvesTrans(d, {n}, d1, {n}, d2, {n}, n, true);
    EvolvesFrame(d, {n}, d2, {n}, {x}, n, true);
    RetireEvolves(d2, x);
    EvolvesFrame(d2, {x}, d3, {}, {n}, -1, true);
    assert {n} + {x} == {n, x} == {x} + {n} && {} + {n} == {n};
    EvolvesWeaken(d2, {n, x}, d3, {n}, n, true);
    EvolvesTrans(d, {n, x}, d2, {n, x}, d3, {n}, n, true);
  }

  /** A whole copy-on-write replacement of block `x`: it turns into a block `n` that was not in
      use before, holding `b`; nothing else in use changes. */
  lemma RelocateEvolves(d: Disk, x: nat, n: nat, b: Block, t: BlockType)
    requires d.Shape() && d.InUse(x) && CopyOnWrite(d, x).1 == Some(n)
    requires |b| == d.bs && t != Redundancy
    ensures n < |d.bits| && !d.InUse(n) && n != x
    ensures var d' := Replace(CopyOnWrite(d, x).0, n, x, b, t);
            && Evolves(d, {x}, d', {n}, -1, true)
            && d'.data == d.data[n := b]
            && d'.attr[n] == FRESH_ATTR.(typ := t)
  {
    hide EvolvesAt, KeepsAccount;
    var d1 := CopyOnWrite(d, x).0;
    var d2 := Replace(d1, n, x, b, t);
    CopyOnWriteEvolves(d, x, n);
    EvolvesFrame(d, {}, d1, {n}, {x}, -1, true);
    ReplaceEvolves(d1, n, x, b, t);
    assert {} + {x} == {x} && {n} + {x} == {n, x};
    EvolvesWeaken(d, {x}, d1, {n, x}, n, true);
    EvolvesTrans(d, {x}, d1, {n, x}, d2, {n}, n, true);
    EvolvesNew(d, {x}, d2, {n}, n);
  }

  /** A new inode block `ino` with image `img`. Its attribute is overwritten as a whole, so unlike
      a change of type this leaves the header's count of used blocks alone. */
  function Create(d: Disk, ino: nat, img: Block): (r: Disk)
    requires d.Shape() && Allocate(d).1 == Some(ino) && |img| == d.bs
    ensures SameGeometry(d, r)
  {
    AllocateNotInUse(d, ino);
    Allocate(d).0.SetAttr(ino, INODE_ATTR).SetData(ino, img)
  }

  lemma CreateTransfers(d: Disk, ino: nat, img: Block)
    requires d.Shape() && Allocate(d).1 == Some(ino) && |img| == d.bs
    ensures ino < |d.bits| && !d.InUse(ino)
    ensures var d' := Create(d, ino, img);
            && Transfers(d, {}, d', {ino}, -1, true)
            && d'.data == d.data[ino := img] && d'.used == d.used
            && d'.attr[ino] == INODE_ATTR == Attr(Available, IndexNode, Redundancy, 0, 1)
  {
    AllocateNotInUse(d, ino);
    AllocateMarks(d, ino);
    AllocateKeepsData(d);
    AllocateSweeps(d);
    var d' := Create(d, ino, img);
    forall j: nat | j < |d.bits|
      ensures EvolvesAt(d, {}, d', {ino}, -1, true, j)
    {
      if j != ino {
        AllocateKeepsOthers(d, j);
      }
    }
  }

  /** Creating an inode takes one more block, but does not count it. */
  lemma CreateAccount(d: Disk, ino: nat, img: Block)
    requires d.Shape() && Allocate(d).1 == Some(ino) && |img| == d.bs
    ensures var d' := Create(d, ino, img);
            && (Referenced(d) ==> Referenced(d'))
            && (d'.sweeps == d.sweeps || Referenced(d) ==>
                  ino !in UsedSet(d) && UsedSet(d') == UsedSet(d) + {ino} && d'.used == d.used)
  {
    CreateTransfers(d, ino, img);
    AllocateAccount(d, ino, IndexNode);
    var (d', e) := (Create(d, ino, img), Allocate(d).0.SetType(ino, IndexNode));
    AllocateMarks(d, ino);
    AllocateKeepsData(d);
    assert UsedSet(d') == UsedSet(e);
  }
}
