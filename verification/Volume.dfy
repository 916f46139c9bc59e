/** A mounted volume: the allocation bitmaps, the attribute table, the data blocks and the
    header counters, all updated in place, and the block manager working on them. */
module Volume {
  import opened Wrappers
  import opened Bytes
  import opened DiskState
  import opened Allocation
  import opened Bitmap

  /** The disk a formatted volume starts with. */
  function Formatted(bs: nat, attrs: seq<Attr>, blocks: seq<Block>, stat: seq<byte>): Disk
    requires 0 < |blocks| == |attrs| && |stat| <= |blocks[0]|
  {
    Disk(bs, seq(|blocks|, i => i == 0), attrs[0 := INODE_ATTR], blocks[0 := Put(blocks[0], 0, stat)], 0, 1, 0)
  }

  lemma FormattedFrom(d: Disk, stat: seq<byte>)
    requires 0 < |d.data| == |d.attr| && |stat| <= |d.data[0]|
    requires d == Disk(d.bs, seq(|d.data|, _ => false), d.attr, d.data, 0, 1, 0)
    ensures d.(bits := d.bits[0 := true], attr := d.attr[0 := INODE_ATTR],
               data := d.data[0 := Put(d.data[0], 0, stat)]) == Formatted(d.bs, d.attr, d.data, stat)
  {
  }

  /** A loop's progress in turning `was` into `now`, position by position. */
  ghost function Spliced<T>(now: seq<T>, was: seq<T>, i: nat): (r: seq<T>)
    requires i <= |now| == |was|
    ensures |r| == |now|
  {
    now[..i] + was[i..]
  }

  lemma SplicedStep<T>(now: seq<T>, was: seq<T>, i: nat)
    requires i < |now| == |was|
    ensures Spliced(now, was, i)[i] == was[i]
    ensures Spliced(now, was, i + 1) == Spliced(now, was, i)[i := now[i]]
  {
  }

  lemma SplicedEnds<T>(now: seq<T>, was: seq<T>)
    requires |now| == |was|
    ensures Spliced(now, was, |now|) == now && Spliced(now, was, 0) == was
  {
  }

  /** The reclaimable blocks below `n` with their ages. */
  ghost function Scanned(d: Disk, n: nat): map<nat, nat>
    requires n <= |d.attr|
  {
    if n == 0 then map[]
    else if Reclaimable(d, n - 1) then Scanned(d, n - 1)[n - 1 := d.attr[n - 1].age]
    else Scanned(d, n - 1)
  }

  lemma {:induction false} ScannedKeys(d: Disk, n: nat, k: nat)
    requires n <= |d.attr|
    ensures k in Scanned(d, n) <==> k < n && Reclaimable(d, k)
    ensures k in Scanned(d, n) ==> Scanned(d, n)[k] == d.attr[k].age
  {
    if n != 0 {
      ScannedKeys(d, n - 1, k);
    }
  }

  class Volume {
    const blockSize: nat
    /** Set at mount time: update pointers and storage in place. */
    const noCow: bool
    const bitmap: MirroredBitmap
    const attr: array<Attr>
    const data: array<Block>
    var lastAllocated: nat
    var allocatedNonCow: nat
    /** How often reclamation has run; kept for the record only. */
    ghost var sweeps: nat

    ghost function Repr(): set<object> {
      {this, bitmap.mirror1, bitmap.mirror2, attr, data}
    }

    ghost predicate Separate() {
      && bitmap.Shape()
      && bitmap.mirror1 as object !in {attr as object, data as object}
      && bitmap.mirror2 as object !in {attr as object, data as object}
      && attr as object != data as object
    }

    /** The volume as a value. */
    ghost function State(): (d: Disk)
      requires Separate()
      reads Repr()
      ensures d.bs == blockSize && |d.attr| == Blocks()
    {
      Disk(blockSize, bitmap.Bits(), attr[..], data[..], lastAllocated, allocatedNonCow, sweeps)
    }

    ghost predicate Valid()
      reads Repr()
      ensures Valid() ==> Separate() && State().Shape()
    {
      Separate() && bitmap.Consistent() && State().Shape()
    }

    function Blocks(): nat {
      attr.Length
    }

    /** A freshly formatted volume on a device with arbitrary previous contents: only block 0,
        the root inode, is allocated, and the counters are at their initial values. */
    constructor Format(blockSize: nat, noCow: bool, attrs: seq<Attr>, blocks: seq<Block>, stat: seq<byte>)
      requires 512 <= blockSize && blockSize % 512 == 0
      requires 0 < |blocks| == |attrs| <= TWO_64
      requires forall i :: 0 <= i < |blocks| ==> |blocks[i]| == blockSize
      requires |stat| <= blockSize
      ensures Valid() && fresh(Repr()) && this.noCow == noCow
      ensures State() == Formatted(blockSize, attrs, blocks, stat)
    {
      this.blockSize, this.noCow := blockSize, noCow;
      bitmap := new MirroredBitmap(|blocks|);
      var a := new Attr[|attrs|](i requires 0 <= i < |attrs| => attrs[i]);
      var d := new Block[|blocks|](i requires 0 <= i < |blocks| => blocks[i]);
      attr, data := a, d;
      lastAllocated, allocatedNonCow, sweeps := 0, 1, 0;
      new;
      assert attr[..] == attrs && data[..] == blocks;
      assert State() == Disk(blockSize, seq(|blocks|, _ => false), attrs, blocks, 0, 1, 0);
      FormattedFrom(State(), stat);
      CreateRoot(stat);
    }

    /** The last step of formatting: allocate the root inode and write its stat. */
    method CreateRoot(stat: seq<byte>)
      requires Valid() && |stat| <= blockSize
      modifies Repr()
      ensures Valid()
      ensures var d := old(State());
              State() == d.(bits := d.bits[0 := true], attr := d.attr[0 := INODE_ATTR],
                            data := d.data[0 := Put(d.data[0], 0, stat)])
    {
      SetBit(0, true);
      WriteBlock(0, Put(data[0], 0, stat));
      SetAttr(0, INODE_ATTR);
    }

    method GetBit(i: nat) returns (bit: bool)
      requires Valid() && i < Blocks()
      ensures bit == State().bits[i]
    {
      var consistent;
      consistent, bit := bitmap.GetBit(i);
    }

    method SetBit(i: nat, bit: bool)
      requires Valid() && i < Blocks()
      modifies Repr()
      ensures Valid() && State() == old(State()).(bits := old(State()).bits[i := bit])
    {
      var consistent := bitmap.SetBit(i, bit);
    }

    method SetAttr(i: nat, a: Attr)
      requires Valid() && i < Blocks()
      modifies Repr()
      ensures Valid() && State() == old(State()).SetAttr(i, a)
    {
      attr[i] := a;
    }

    /** Changing the block type keeps the header's count of blocks that are not redundancy. */
    method SetType(i: nat, t: BlockType)
      requires Valid() && i < Blocks()
      modifies Repr()
      ensures Valid() && State() == old(State()).SetType(i, t)
    {
      if t == Redundancy && attr[i].typ != Redundancy {
        if allocatedNonCow > 0 {
          allocatedNonCow := allocatedNonCow - 1;
        }
      } else if t != Redundancy && attr[i].typ == Redundancy {
        allocatedNonCow := allocatedNonCow + 1;
      }
      attr[i] := attr[i].(typ := t);
    }

    method SaveType(i: nat)
      requires Valid() && i < Blocks()
      modifies Repr()
      ensures Valid() && State() == old(State()).SaveType(i)
    {
      attr[i] := attr[i].(typCow := attr[i].typ);
    }

    method DecRefs(i: nat)
      requires Valid() && i < Blocks()
      modifies Repr()
      ensures Valid() && State() == old(State()).DecRefs(i)
    {
      if attr[i].refs >= 1 {
        attr[i] := attr[i].(refs := attr[i].refs - 1);
      }
    }

    method WriteBlock(i: nat, b: Block)
      requires Valid() && i < Blocks() && |b| == blockSize
      modifies Repr()
      ensures Valid() && State() == old(State()).SetData(i, b)
    {
      data[i] := b;
    }

    /** Mark a free block as allocated, with a fresh attribute. */
    method AllocateAt(i: nat)
      requires Valid() && i < Blocks()
      modifies Repr()
      ensures Valid() && State() == Take(old(State()), i)
    {
      lastAllocated := i;
      SetBit(i, true);
      SetAttr(i, FRESH_ATTR);
    }

    method RefreshAllocate(start: nat) returns (r: Option<nat>)
      requires Valid() && start <= Blocks()
      modifies Repr()
      ensures Valid() && (State(), r) == TakeFirst(old(State()), start)
    {
      hide FirstFree;
      var i := start;
      while i < Blocks()
        invariant start <= i <= Blocks()
        invariant Valid() && State() == old(State())
        invariant FirstFree(State().bits, start, Blocks()) == FirstFree(State().bits, i, Blocks())
      {
        var bit := GetBit(i);
        if !bit {
          AllocateAt(i);
          return Some(i);
        }
        i := i + 1;
      }
      r := None;
    }

    /** One more unsuccessful search for every allocated block. */
    method AgeAll()
      requires Valid()
      modifies Repr()
      ensures Valid() && State() == Aged(old(State()))
    {
      ghost var d := State();
      var i := 0;
      while i < Blocks()
        invariant i <= Blocks()
        invariant Valid() && State() == d.(attr := State().attr)
        invariant forall k :: 0 <= k < i ==> State().attr[k] == Aged(d).attr[k]
        invariant forall k :: i <= k < Blocks() ==> State().attr[k] == d.attr[k]
      {
        var bit := GetBit(i);
        if bit {
          var a := attr[i];
          if a.age + 1 <= MAX_AGE {
            SetAttr(i, a.(age := a.age + 1));
          }
        }
        i := i + 1;
      }
    }

    method IsReclaimable(i: nat) returns (reclaimable: bool, age: nat)
      requires Valid() && i < Blocks()
      ensures reclaimable == Reclaimable(State(), i) && age == State().attr[i].age
    {
      var bit := GetBit(i);
      reclaimable := bit && (attr[i].typ == Redundancy || attr[i].refs == 0);
      age := attr[i].age;
    }

    /** Collect the reclaimable blocks with their ages, and the greatest of these ages. */
    method ScanReclaimable() returns (oldest: nat, scanned: map<nat, nat>)
      requires Valid()
      ensures oldest == Oldest(State(), Blocks())
      ensures scanned == Scanned(State(), Blocks())
    {
      ghost var d := State();
      oldest, scanned := 0, map[];
      var i := 0;
      while i < Blocks()
        invariant i <= Blocks() == |d.attr|
        invariant oldest == Oldest(d, i) && scanned == Scanned(d, i)
      {
        var reclaimable, age := IsReclaimable(i);
        if reclaimable {
          if oldest < age {
            oldest := age;
          }
          scanned := scanned[i := age];
        }
        i := i + 1;
      }
    }

    method ClearBitIf(i: nat, expired: bool)
      requires Valid() && i < Blocks()
      modifies Repr()
      ensures Valid()
      ensures var d := old(State());
              State() == d.(bits := d.bits[i := d.bits[i] && !expired])
    {
      if expired {
        SetBit(i, false);
      }
    }

    /** Free the scanned blocks that are at least half as old as the oldest. */
    method FreeScanned(oldest: nat, scanned: map<nat, nat>, ghost d: Disk, ghost bits: seq<bool>)
      requires Valid() && State() == d && |bits| == |d.bits|
      requires forall k: nat :: k < |bits| ==>
                 bits[k] == (d.bits[k] && !(k in scanned && scanned[k] >= oldest / 2))
      modifies Repr()
      ensures Valid() && State() == d.(bits := bits)
    {
      var i := 0;
      SplicedEnds(bits, d.bits);
      while i < Blocks()
        invariant i <= Blocks() == |bits| == |d.bits|
        invariant Valid() && State() == d.(bits := Spliced(bits, d.bits, i))
      {
        SplicedStep(bits, d.bits, i);
        ClearBitIf(i, i in scanned && scanned[i] >= oldest / 2);
        i := i + 1;
      }
    }

    method ReclaimOldest()
      requires Valid()
      modifies Repr()
      ensures Valid() && State() == Reclaimed(old(State()))
    {
      ghost var d := State();
      var oldest, scanned := ScanReclaimable();
      ghost var bits := Reclaimed(d).bits;
      forall k: nat | k < |bits|
        ensures bits[k] == (d.bits[k] && !(k in scanned && scanned[k] >= oldest / 2))
      {
        ReclaimedBit(d, k);
        ScannedKeys(d, |d.bits|, k);
      }
      FreeScanned(oldest, scanned, d, bits);
      sweeps := sweeps + 1;
    }

    /** Allocate a block, or report that the volume is full. */
    method Allocate() returns (r: Option<nat>)
      requires Valid()
      modifies Repr()
      ensures Valid() && (State(), r) == Allocation.Allocate(old(State()))
    {
      if lastAllocated + 1 < Blocks() {
        r := RefreshAllocate(lastAllocated + 1);
        if r.Some? {
          return;
        }
      }
      r := RefreshAllocate(0);
      if r.None? {
        AgeAll();
        ReclaimOldest();
        r := RefreshAllocate(0);
      }
    }

    /** Give a block back to the block manager. */
    method Deallocate(i: nat)
      requires Valid() && i < Blocks()
      modifies Repr()
      ensures Valid() && State() == old(State()).Deallocate(i)
    {
      if attr[i].status == Available && attr[i].refs <= 1 {
        SaveType(i);
        SetType(i, Redundancy);
      } else {
        DecRefs(i);
      }
    }

    /** Give up a block that a copy has replaced. */
    method Retire(i: nat)
      requires Valid() && i < Blocks()
      modifies Repr()
      ensures Valid() && State() == old(State()).Retire(i)
    {
      if attr[i].status == Available {
        SaveType(i);
        SetType(i, Redundancy);
      } else {
        DecRefs(i);
      }
    }

    /** What a snapshot's first sweep does to block `i`, or its second one if `share` holds. */
    method SweepBlock(i: nat, share: bool)
      requires Valid() && i < Blocks()
      modifies Repr()
      ensures Valid()
      ensures State() == old(State()).SetAttr(i, SweptAttr(old(State()).bits[i], old(State()).attr[i], share))
    {
      var bit := GetBit(i);
      if bit {
        if attr[i].status == Available {
          attr[i] := attr[i].(status := SnapshotRegular);
        }
        if share && attr[i].typ != Redundancy {
          attr[i] := attr[i].(refs := 2);
        }
      }
    }

    /** Sweep all blocks. */
    method Sweep(share: bool)
      requires Valid()
      modifies Repr()
      ensures Valid() && State() == Swept(old(State()), share)
    {
      SweepBlocks(share, State(), Swept(State(), share).attr);
    }

    method SweepBlocks(share: bool, ghost d: Disk, ghost attrs: seq<Attr>)
      requires Valid() && State() == d && |attrs| == |d.attr|
      requires forall k: nat :: k < |attrs| ==> attrs[k] == SweptAttr(d.bits[k], d.attr[k], share)
      modifies Repr()
      ensures Valid() && State() == d.(attr := attrs)
    {
      hide SweptAttr;
      var i := 0;
      SplicedEnds(attrs, d.attr);
      while i < Blocks()
        invariant i <= Blocks() == |attrs| == |d.attr|
        invariant Valid() && State() == d.(attr := Spliced(attrs, d.attr, i))
      {
        SplicedStep(attrs, d.attr, i);
        SweepBlock(i, share);
        i := i + 1;
      }
    }
  }
}
