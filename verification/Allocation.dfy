/** The block allocator as a function of the disk: next-fit search, then a search from the
    beginning, then reclamation of the oldest retired blocks. */
module Allocation {
  import opened Wrappers
  import opened DiskState
  import opened Evolution

  /** The first free block in [start, end). */
  function FirstFree(bits: seq<bool>, start: nat, end: nat): (r: Option<nat>)
    requires start <= end <= |bits|
    ensures r.Some? ==> start <= r.value < end && !bits[r.value] && forall k :: start <= k < r.value ==> bits[k]
    ensures r.None? ==> (forall k :: start <= k < end ==> bits[k])
    decreases end - start
  {
    if start == end then None
    else if !bits[start] then Some(start)
    else FirstFree(bits, start + 1, end)
  }

  /** Ages are four bits wide and saturate. */
  function IncAge(a: Attr): Attr {
    if a.age + 1 <= MAX_AGE then a.(age := a.age + 1) else a
  }

  /** Every allocated block has one more unsuccessful search behind it. */
  function Aged(d: Disk): (r: Disk)
    requires d.Shape()
    ensures r.Shape() && SameGeometry(d, r)
  {
    d.(attr := seq(|d.attr|, i requires 0 <= i < |d.attr| =>
      if d.bits[i] then IncAge(d.attr[i]) else d.attr[i]))
  }

  predicate Reclaimable(d: Disk, i: nat) {
    i < |d.bits| && i < |d.attr| && d.bits[i] && (d.attr[i].typ == Redundancy || d.attr[i].refs == 0)
  }

  /** The greatest age of a reclaimable block below `n`. */
  function Oldest(d: Disk, n: nat): nat
    requires n <= |d.attr|
  {
    if n == 0 then 0
    else
      var r := Oldest(d, n - 1);
      if Reclaimable(d, n - 1) && r < d.attr[n - 1].age then d.attr[n - 1].age else r
  }

  /** It is attained, and nothing reclaimable is older. */
  lemma {:induction false} OldestIsGreatest(d: Disk, n: nat)
    requires n <= |d.attr|
    ensures forall i: nat :: i < n && Reclaimable(d, i) ==> d.attr[i].age <= Oldest(d, n)
    ensures Oldest(d, n) == 0 || exists i: nat :: i < n && Reclaimable(d, i) && d.attr[i].age == Oldest(d, n)
  {
    if n != 0 {
      OldestIsGreatest(d, n - 1);
    }
  }

  predicate Expired(d: Disk, oldest: nat, i: nat) {
    Reclaimable(d, i) && d.attr[i].age >= oldest / 2
  }

  /** Free every reclaimable block at least half as old as the oldest. */
  function Reclaimed(d: Disk): (r: Disk)
    requires d.Shape()
    ensures r.Shape() && SameGeometry(d, r)
  {
    var oldest := Oldest(d, |d.attr|);
    d.(bits := seq(|d.bits|, i requires 0 <= i < |d.bits| => d.bits[i] && !Expired(d, oldest, i)),
       sweeps := d.sweeps + 1)
  }

  /** Hand out block `i`: mark it, reset its attribute, remember the position. */
  function Take(d: Disk, i: nat): (r: Disk)
    requires d.Shape() && i < |d.bits|
    ensures SameGeometry(d, r)
  {
    d.(bits := d.bits[i := true], attr := d.attr[i := FRESH_ATTR], last := i)
  }

  function TakeFirst(d: Disk, start: nat): (r: (Disk, Option<nat>))
    requires d.Shape() && start <= |d.bits|
    ensures SameGeometry(d, r.0)
  {
    match FirstFree(d.bits, start, |d.bits|)
    case Some(i) => (Take(d, i), Some(i))
    case None => (d, None)
  }

  function Allocate(d: Disk): (r: (Disk, Option<nat>))
    requires d.Shape()
    ensures SameGeometry(d, r.0)
  {
    if d.last + 1 < |d.bits| && TakeFirst(d, d.last + 1).1.Some? then TakeFirst(d, d.last + 1)
    else if TakeFirst(d, 0).1.Some? then TakeFirst(d, 0)
    else TakeFirst(Reclaimed(Aged(d)), 0)
  }

  lemma ReclaimedBit(d: Disk, k: nat)
    requires d.Shape() && k < |d.bits|
    ensures Reclaimed(d).bits[k] <==> d.bits[k] && !Expired(d, Oldest(d, |d.attr|), k)
    ensures Reclaimed(d).attr == d.attr
  {
  }

  /** If anything is reclaimable, reclamation frees something. */
  lemma ReclaimFrees(d: Disk, i: nat) returns (k: nat)
    requires d.Shape() && Reclaimable(d, i)
    ensures k < |d.bits| && !Reclaimed(d).bits[k]
  {
    var oldest := Oldest(d, |d.attr|);
    OldestIsGreatest(d, |d.attr|);
    if oldest == 0 {
      k := i;
    } else {
      k :| k < |d.attr| && Reclaimable(d, k) && d.attr[k].age == oldest;
    }
    ReclaimedBit(d, k);
  }

  /** Allocation fails exactly when every block is allocated, of a real type and referenced. */
  lemma AllocateFailsExactlyWhenFull(d: Disk)
    requires d.Shape()
    ensures Allocate(d).1.None? <==> forall i: nat :: i < |d.bits| ==> d.InUse(i)
  {
    var a := Aged(d);
    if Allocate(d).1.None? {
      forall i: nat | i < |d.bits|
        ensures d.InUse(i)
      {
        assert d.bits[i];
        if Reclaimable(a, i) {
          var k := ReclaimFrees(a, i);
        }
      }
    } else {
      var i := Allocate(d).1.value;
      if d.InUse(i) {
        ReclaimedBit(a, i);
      }
    }
  }

  /** Which block is chosen when some block is free: the first free one after the last
      allocation, otherwise the first free one. */
  lemma AllocateChoosesFree(d: Disk, k: nat)
    requires d.Shape() && k < |d.bits| && !d.bits[k]
    ensures Allocate(d).1.Some?
    ensures var i := Allocate(d).1.value;
            && i < |d.bits| && !d.bits[i]
            && (d.last < k ==> d.last < i <= k && forall m: nat :: d.last < m < i ==> d.bits[m])
            && ((forall m: nat :: d.last < m < |d.bits| ==> d.bits[m]) ==> i <= k && forall m: nat :: m < i ==>
                d.bits[m])
  {
  }

  /** How old a block is once it has one more unsuccessful search behind it. */
  function NextAge(a: Attr): nat {
    if a.age < 15 then a.age + 1 else 15
  }

  /** On a full disk this block is free for reuse, and then at least half as old as any such block. */
  ghost predicate OldEnough(d: Disk, i: nat) {
    && i < |d.attr| && (d.attr[i].typ == Redundancy || d.attr[i].refs == 0)
    && forall j: nat :: j < |d.attr| && (d.attr[j].typ == Redundancy || d.attr[j].refs == 0) ==>
                          NextAge(d.attr[j]) / 2 <= NextAge(d.attr[i])
  }

  /** What is compared with half the greatest age is compared with half of every age. */
  lemma ExpiredExactly(d: Disk, i: nat)
    requires d.Shape() && Full(d) && i < |d.bits|
    ensures Expired(Aged(d), Oldest(Aged(d), |d.bits|), i) <==> OldEnough(d, i)
  {
    var a := Aged(d);
    var oldest := Oldest(a, |d.bits|);
    OldestIsGreatest(a, |d.bits|);
    assert forall j: nat :: j < |d.bits| ==>
        (Reclaimable(a, j) <==> d.attr[j].typ == Redundancy || d.attr[j].refs == 0);
    assert forall j: nat :: j < |d.bits| ==> a.attr[j].age == NextAge(d.attr[j]);
    if OldEnough(d, i) && oldest != 0 {
      var j: nat :| j < |d.bits| && Reclaimable(a, j) && a.attr[j].age == oldest;
      assert NextAge(d.attr[j]) / 2 <= NextAge(d.attr[i]);
    }
  }

  /** Which block is chosen when no block is free: the first one old enough to be reclaimed. */
  lemma AllocateReclaims(d: Disk)
    requires d.Shape() && Allocate(d).1.Some?
    requires forall k: nat :: k < |d.bits| ==> d.bits[k]
    ensures var i := Allocate(d).1.value;
            i < |d.bits| && OldEnough(d, i) && forall k: nat :: k < i ==> !OldEnough(d, k)
  {
    var a := Aged(d);
    var i := Allocate(d).1.value;
    assert TakeFirst(Reclaimed(a), 0).1 == Some(i);
    hide OldEnough, Expired;
    ReclaimedBit(a, i);
    ExpiredExactly(d, i);
    forall k: nat | k < i
      ensures !OldEnough(d, k)
    {
      ReclaimedBit(a, k);
      ExpiredExactly(d, k);
    }
  }

  lemma AllocateNotInUse(d: Disk, i: nat)
    requires d.Shape() && Allocate(d).1 == Some(i)
    ensures i < |d.bits| && !d.InUse(i)
  {
    if forall k: nat :: k < |d.bits| ==> d.bits[k] {
      AllocateReclaims(d);
    } else {
      var k: nat :| k < |d.bits| && !d.bits[k];
      AllocateChoosesFree(d, k);
    }
  }

  predicate Full(d: Disk) {
    forall k: nat :: k < |d.bits| ==> d.bits[k]
  }

  /** Block `j` under an allocation that did not choose it: it is left alone, unless every block was
      taken. Then it ages, up to the greatest age, and loses its bit exactly if it is redundancy or
      unreferenced and at least half as old as the oldest such block. */
  ghost predicate KeptByAllocation(d: Disk, d': Disk, j: nat)
    requires d.Shape() && SameGeometry(d, d') && j < |d.bits|
  {
    if Full(d) then
      && d'.attr[j] == d.attr[j].(age := if d.attr[j].age < 15 then d.attr[j].age + 1 else 15)
      && (d'.bits[j] <==> !OldEnough(d, j))
    else
      d'.attr[j] == d.attr[j] && d'.bits[j] == d.bits[j]
  }

  lemma TakeFirstKeeps(d: Disk, start: nat, j: nat)
    requires d.Shape() && j < |d.bits| && start <= |d.bits|
    requires TakeFirst(d, start).1 != Some(j)
    ensures TakeFirst(d, start).0.bits[j] == d.bits[j] && TakeFirst(d, start).0.attr[j] == d.attr[j]
  {
  }

  /** What else changes. */
  lemma AllocateKeepsOthers(d: Disk, j: nat)
    requires d.Shape() && j < |d.bits|
    requires Allocate(d).1 != Some(j)
    ensures KeptByAllocation(d, Allocate(d).0, j)
  {
    if d.last + 1 < |d.bits| && TakeFirst(d, d.last + 1).1.Some? {
      TakeFirstKeeps(d, d.last + 1, j);
    } else if TakeFirst(d, 0).1.Some? {
      TakeFirstKeeps(d, 0, j);
    } else {
      ReclaimedBit(Aged(d), j);
      ExpiredExactly(d, j);
      hide OldEnough, Expired;
      TakeFirstKeeps(Reclaimed(Aged(d)), 0, j);
    }
  }

  /** Reclamation runs exactly when no block is free; otherwise every allocated block stays
      allocated. */
  lemma AllocateSweeps(d: Disk)
    requires d.Shape()
    ensures var d' := Allocate(d).0;
            && (d'.sweeps == d.sweeps <==> exists k: nat :: k < |d.bits| && !d.bits[k])
            && d.sweeps <= d'.sweeps
            && (d'.sweeps == d.sweeps ==>
                  && (forall j: nat :: j < |d.bits| && d.bits[j] ==> d'.bits[j])
                  && (forall i :: Allocate(d).1 == Some(i) ==> !d.bits[i]))
  {
    if k: nat :| k < |d.bits| && !d.bits[k] {
      AllocateChoosesFree(d, k);
    }
  }

  lemma AllocateKeepsData(d: Disk)
    requires d.Shape()
    ensures Allocate(d).0.data == d.data && Allocate(d).0.used == d.used
    ensures Allocate(d).1.None? ==> Allocate(d).0.last == d.last
  {
  }

  /** The chosen block comes back marked, with a fresh attribute, and is remembered. */
  lemma AllocateMarks(d: Disk, i: nat)
    requires d.Shape() && Allocate(d).1 == Some(i)
    ensures var d' := Allocate(d).0;
            i < |d.bits| && d'.bits[i] && d'.attr[i] == FRESH_ATTR == Attr(Available, Redundancy, Redundancy, 0, 1)
            && d'.last == i
  {
  }

  /** Allocating and typing a block takes ownership of one block that was not in use. */
  lemma AllocateEvolves(d: Disk, i: nat, t: BlockType)
    requires d.Shape() && Allocate(d).1 == Some(i) && t != Redundancy
    ensures i < |d.bits| && !d.InUse(i)
    ensures var d' := Allocate(d).0.SetType(i, t);
            && Evolves(d, {}, d', {i}, -1, true)
            && d'.data == d.data && d'.attr[i] == FRESH_ATTR.(typ := t)
            && (d'.sweeps == d.sweeps ==> !d.bits[i])
  {
    hide Allocate, UsedSet;
    AllocateSweeps(d);
    AllocateNotInUse(d, i);
    AllocateMarks(d, i);
    AllocateKeepsData(d);
    var d1 := Allocate(d).0;
    var d' := d1.SetType(i, t);
    forall j: nat | j < |d.bits|
      ensures EvolvesAt(d, {}, d', {i}, -1, true, j)
    {
      if j != i {
        AllocateKeepsOthers(d, j);
      }
    }
    AllocateAccount(d, i, t);
    hide Allocate, EvolvesAt;
  }

  /** An allocation that reclaims no real block takes one more, and counts it. */
  lemma AllocateAccount(d: Disk, i: nat, t: BlockType)
    requires d.Shape() && Allocate(d).1 == Some(i) && t != Redundancy
    ensures var d' := Allocate(d).0.SetType(i, t);
            && (Referenced(d) ==> Referenced(d'))
            && (d'.sweeps == d.sweeps || Referenced(d) ==>
                  i !in UsedSet(d) && UsedSet(d') == UsedSet(d) + {i} && d'.used == d.used + 1)
  {
    AllocateNotInUse(d, i);
    AllocateMarks(d, i);
    AllocateKeepsData(d);
    AllocateSweeps(d);
    var d' := Allocate(d).0.SetType(i, t);
    forall j: nat | j < |d.bits| && j != i
      ensures j in UsedSet(d') ==> j in UsedSet(d) && d'.attr[j].refs == d.attr[j].refs
      ensures d'.sweeps == d.sweeps || Referenced(d) ==> (j in UsedSet(d) ==> j in UsedSet(d'))
    {
      AllocateKeepsOthers(d, j);
    }
    if d'.sweeps == d.sweeps || Referenced(d) {
      assert i !in UsedSet(d);
      assert UsedSet(d') == UsedSet(d) + {i};
    }
  }

  /** A failed allocation changes nothing that is in use. */
  lemma AllocateNoneEvolves(d: Disk)
    requires d.Shape() && Allocate(d).1.None?
    ensures Evolves(d, {}, Allocate(d).0, {}, -1, true)
    ensures Allocate(d).0.data == d.data
  {
    AllocateFailsExactlyWhenFull(d);
    AllocateKeepsData(d);
    AllocateSweeps(d);
    var d' := Allocate(d).0;
    forall j: nat | j < |d.bits|
      ensures EvolvesAt(d, {}, d', {}, -1, true, j)
      ensures d'.attr[j].refs == d.attr[j].refs && d'.attr[j].typ == d.attr[j].typ
      ensures d.bits[j] && d'.bits[j]
    {
      assert d.InUse(j);
      AllocateKeepsOthers(d, j);
    }
    assert UsedSet(d') == UsedSet(d);
  }
}
