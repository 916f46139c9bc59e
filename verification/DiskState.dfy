/** The data region of a volume as a value: allocation bits, per-block attributes and block
    contents, together with the two runtime counters kept in the volume header. */
module DiskState {
  import opened Bytes

  datatype Status = Available | SnapshotEntry | SnapshotRegular | ReservedStatus
  datatype BlockType = Redundancy | IndexNode | Pointer | Storage

  const MAX_AGE := 0xF
  const MAX_REFS := 0x1FFFF

  type Age = a: nat | a <= MAX_AGE
  type RefCount = r: nat | r <= MAX_REFS

  datatype Attr = Attr(status: Status, typ: BlockType, typCow: BlockType, age: Age, refs: RefCount)

  /** The attribute of a block that has just been allocated, and of a new inode block. */
  const FRESH_ATTR := Attr(Available, Redundancy, Redundancy, 0, 1)
  const INODE_ATTR := Attr(Available, IndexNode, Redundancy, 0, 1)

  type Block = seq<byte>

  /** `bs` is the block size in bytes; `last` and `used` are the header fields
      last_allocated_block and allocated_non_cow_blocks. `sweeps` only records history: how often
      the allocator has found every block taken and freed retired ones. */
  datatype Disk = Disk(bs: nat, bits: seq<bool>, attr: seq<Attr>, data: seq<Block>, last: nat, used: nat, sweeps: nat)
  {
    predicate Shape() {
      && 512 <= bs && bs % 512 == 0
      && 0 < |bits| <= TWO_64
      && |attr| == |bits| && |data| == |bits|
      && last < |bits|
      && forall i :: 0 <= i < |data| ==> |data[i]| == bs
    }

    /** Pointers per block. */
    function Fanout(): nat { bs / WORD }

    /** A block that the allocator must not hand out: allocated, of a real type and referenced. */
    predicate InUse(j: nat) {
      j < |bits| && j < |attr| && bits[j] && attr[j].typ != Redundancy && attr[j].refs != 0
    }

    predicate Frozen(j: nat) {
      j < |attr| && attr[j].status != Available
    }

    /** Frozen and still referenced by the live tree besides the snapshot. */
    predicate Shared(j: nat) {
      Frozen(j) && 2 <= attr[j].refs
    }

    function SetAttr(j: nat, a: Attr): Disk
      requires j < |attr|
    {
      this.(attr := attr[j := a])
    }

    /** Setting the block type keeps the count of non-redundancy blocks in the header. */
    function SetType(j: nat, t: BlockType): Disk
      requires j < |attr|
    {
      var was := attr[j].typ;
      var used' :=
        if t == Redundancy && was != Redundancy then (if used > 0 then used - 1 else used)
        else if t != Redundancy && was == Redundancy then used + 1
        else used;
      this.(attr := attr[j := attr[j].(typ := t)], used := used')
    }

    function SaveType(j: nat): Disk
      requires j < |attr|
    {
      SetAttr(j, attr[j].(typCow := attr[j].typ))
    }

    function DecRefs(j: nat): Disk
      requires j < |attr|
    {
      if attr[j].refs >= 1 then SetAttr(j, attr[j].(refs := attr[j].refs - 1)) else this
    }

    /** What copy-on-write does to the block it replaced. */
    function Retire(j: nat): Disk
      requires j < |attr|
    {
      if attr[j].status == Available then SaveType(j).SetType(j, Redundancy) else DecRefs(j)
    }

    /** What the block manager does to a block given back. */
    function Deallocate(j: nat): Disk
      requires j < |attr|
    {
      if attr[j].status == Available && attr[j].refs <= 1
      then SaveType(j).SetType(j, Redundancy)
      else DecRefs(j)
    }

    function SetData(j: nat, b: Block): Disk
      requires j < |data|
    {
      this.(data := data[j := b])
    }
  }

  /** The allocated blocks whose type is not redundancy. */
  ghost function UsedSet(d: Disk): set<nat> {
    set j | 0 <= j < |d.bits| && j < |d.attr| && d.bits[j] && d.attr[j].typ != Redundancy
  }

  /** The header counter is `c` short. */
  ghost predicate Tally(d: Disk, c: nat) {
    d.used + c == |UsedSet(d)|
  }

  /** No real block has lost its last reference. */
  ghost predicate Referenced(d: Disk) {
    forall j :: j in UsedSet(d) ==> d.attr[j].refs != 0
  }

  ghost predicate AccountedBy(d: Disk, c: nat) {
    Tally(d, c) && Referenced(d)
  }

  /** The header counter is exact. */
  ghost predicate Accounted(d: Disk) {
    AccountedBy(d, 0)
  }

  predicate SameAttr(d: Disk, d': Disk, j: nat)
    requires j < |d.attr| && j < |d'.attr|
  {
    && d'.attr[j].status == d.attr[j].status
    && d'.attr[j].typ == d.attr[j].typ
    && d'.attr[j].refs == d.attr[j].refs
  }

  predicate SameGeometry(d: Disk, d': Disk) {
    d.Shape() && d'.Shape() && d.bs == d'.bs && |d.bits| == |d'.bits|
  }

  /** Which frozen blocks may a set of owned blocks contain? Only ones that are still shared,
      so that giving one up never drops its last reference. */
  ghost predicate Guarded(d: Disk, K: set<nat>) {
    forall j :: j in K && d.Frozen(j) ==> d.Shared(j)
  }

  /* ---- the sweeps that freeze a volume for a snapshot ---- */

  /** A snapshot's first sweep: every allocated block that may be modified becomes frozen. */
  function FreezeAttr(bit: bool, a: Attr): Attr {
    if bit && a.status == Available then a.(status := SnapshotRegular) else a
  }

  /** The second sweep also gives every real block exactly two references: the snapshot's and
      the live tree's. */
  function ShareAttr(bit: bool, a: Attr): Attr {
    var f := FreezeAttr(bit, a);
    if bit && a.typ != Redundancy then f.(refs := 2) else f
  }

  function SweptAttr(bit: bool, a: Attr, share: bool): Attr {
    if share then ShareAttr(bit, a) else FreezeAttr(bit, a)
  }

  function Swept(d: Disk, share: bool): (r: Disk)
    requires d.Shape()
    ensures SameGeometry(d, r)
  {
    d.(attr := seq(|d.attr|, i requires 0 <= i < |d.attr| => SweptAttr(d.bits[i], d.attr[i], share)))
  }
}
