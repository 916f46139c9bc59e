/** How one operation changes a shared disk, stated block by block.

    `Evolves(d, K, d', K', ino, cow)`: an operation that owned the blocks `K` of disk `d` leaves
    disk `d'` and owns `K'`. `ino` is a block whose contents the operation updates in place
    and `cow` says that storage is otherwise updated by copy-on-write. The relation composes
    and can be framed with any blocks in use that the operation does not own. */
module Evolution {
  import opened DiskState

  /** A block in use and not owned is left alone. */
  ghost predicate Untouched(d: Disk, K: set<nat>, d': Disk, K': set<nat>, ino: int, j: nat)
    requires SameGeometry(d, d') && j < |d.bits|
  {
    d.InUse(j) && j !in K ==>
      && j !in K' && d'.InUse(j) && SameAttr(d, d', j)
      && (j != ino ==> d'.data[j] == d.data[j])
  }

  /** An owned block shared with a snapshot stays allocated and keeps its bytes; it loses
      exactly one reference if it is given up. (Block 0 may be given up silently.) */
  ghost predicate SnapshotSafe(d: Disk, K: set<nat>, d': Disk, K': set<nat>, ino: int, cow: bool, j: nat)
    requires SameGeometry(d, d') && j < |d.bits|
  {
    j in K && d.Shared(j) ==>
      && d'.InUse(j)
      && d'.attr[j].status == d.attr[j].status && d'.attr[j].typ == d.attr[j].typ
      && (cow && j != ino ==> d'.data[j] == d.data[j])
      && (d'.attr[j].refs == d.attr[j].refs - 1 || ((j in K' || j == 0) && d'.attr[j].refs == d.attr[j].refs))
      && (j in K' ==> d'.attr[j].refs == d.attr[j].refs)
  }

  /** A block owned afterwards is in use: either kept as it was or freshly allocated. */
  ghost predicate Held(d: Disk, K: set<nat>, d': Disk, K': set<nat>, j: nat)
    requires SameGeometry(d, d') && j < |d.bits|
  {
    j in K' ==>
      && d'.InUse(j)
      && ((j in K && SameAttr(d, d', j)) || (!d'.Frozen(j) && d'.attr[j].refs == 1))
  }

  /** An owned block with a single reference that is given up becomes free for reuse. */
  ghost predicate Released(d: Disk, K: set<nat>, d': Disk, K': set<nat>, j: nat)
    requires SameGeometry(d, d') && j < |d.bits|
  {
    j in K && j !in K' && j != 0 && d.attr[j].refs <= 1 ==> !d'.InUse(j)
  }

  /** Nothing leaks: a block in use afterwards was in use before or is owned. */
  ghost predicate NoLeak(d: Disk, d': Disk, K': set<nat>, j: nat) {
    d'.InUse(j) && j != 0 ==> d.InUse(j) || j in K'
  }

  /** With copy-on-write, and as long as nothing is reclaimed, a block that was allocated keeps
      its bytes, whether it is still in use or has been retired. */
  ghost predicate OldBytes(d: Disk, d': Disk, ino: int, cow: bool, j: nat)
    requires SameGeometry(d, d') && j < |d.bits|
  {
    cow && d'.sweeps == d.sweeps && j != ino && d.bits[j] ==> d'.bits[j] && d'.data[j] == d.data[j]
  }

  /** As long as nothing is reclaimed, an allocated block of a real type that is not owned stays one,
      even if it has lost its last reference. */
  ghost predicate OldUse(d: Disk, K: set<nat>, d': Disk, K': set<nat>, j: nat)
    requires SameGeometry(d, d') && j < |d.bits|
  {
    d'.sweeps == d.sweeps && j !in K && d.bits[j] && d.attr[j].typ != Redundancy ==>
      j !in K' && d'.bits[j] && d'.attr[j].typ == d.attr[j].typ
  }

  ghost predicate EvolvesAt(d: Disk, K: set<nat>, d': Disk, K': set<nat>, ino: int, cow: bool, j: nat)
    requires SameGeometry(d, d') && j < |d.bits|
  {
    && Untouched(d, K, d', K', ino, j)
    && SnapshotSafe(d, K, d', K', ino, cow, j)
    && Held(d, K, d', K', j)
    && Released(d, K, d', K', j)
    && NoLeak(d, d', K', j)
    && OldBytes(d, d', ino, cow, j)
    && OldUse(d, K, d', K', j)
  }

  ghost predicate Owns(d: Disk, K: set<nat>) {
    forall j :: j in K ==> d.InUse(j)
  }

  /** No block of a real type can be reclaimed: because nothing is, or because all are referenced and
      stay so. */
  ghost predicate Countable(d: Disk, K: set<nat>, d': Disk) {
    d'.sweeps == d.sweeps || (Referenced(d) && Guarded(d, K))
  }

  /** The header counter stays as exact as it was, unless real blocks are reclaimed or the counter is
      too short to be decremented for every owned block. */
  ghost predicate KeepsAccount(d: Disk, K: set<nat>, d': Disk) {
    && (Referenced(d) && Guarded(d, K) ==> Referenced(d'))
    && forall c: nat :: Tally(d, c) && Countable(d, K, d') && c + |K| <= |UsedSet(d)| ==> Tally(d', c)
  }

  /** The change of ownership alone, without the header counter. */
  ghost predicate Transfers(d: Disk, K: set<nat>, d': Disk, K': set<nat>, ino: int, cow: bool) {
    && SameGeometry(d, d') && d.sweeps <= d'.sweeps
    && Owns(d, K) && Owns(d', K')
    && forall j: nat :: j < |d.bits| ==> EvolvesAt(d, K, d', K', ino, cow, j)
  }

  ghost predicate Evolves(d: Disk, K: set<nat>, d': Disk, K': set<nat>, ino: int, cow: bool) {
    Transfers(d, K, d', K', ino, cow) && KeepsAccount(d, K, d')
  }

  lemma EvolvesRefl(d: Disk, K: set<nat>, ino: int, cow: bool)
    requires d.Shape() && Owns(d, K)
    ensures Evolves(d, K, d, K, ino, cow)
  {
  }

  lemma GuardedKept(d: Disk, K: set<nat>, d': Disk, K': set<nat>, ino: int, cow: bool)
    requires Transfers(d, K, d', K', ino, cow)
    requires Guarded(d, K)
    ensures Guarded(d', K')
  {
    forall j | j in K' && d'.Frozen(j)
      ensures d'.Shared(j)
    {
      assert EvolvesAt(d, K, d', K', ino, cow, j);
    }
  }

  lemma SubsetSize(A: set<nat>, B: set<nat>)
    requires A <= B
    ensures |A| <= |B|
  {
    assert B == A + (B - A);
  }

  /** The blocks used and not owned stay used. */
  lemma UsedGrows(d: Disk, K: set<nat>, d': Disk, K': set<nat>, ino: int, cow: bool)
    requires Transfers(d, K, d', K', ino, cow) && (d'.sweeps == d.sweeps || Referenced(d))
    ensures |UsedSet(d)| + |K'| <= |UsedSet(d')| + |K|
  {
    var rest := UsedSet(d) - K;
    forall j | j in rest
      ensures j in UsedSet(d') && j !in K'
    {
      assert EvolvesAt(d, K, d', K', ino, cow, j);
    }
    SubsetSize(rest + K', UsedSet(d'));
    assert |rest + K'| == |rest| + |K'|;
    assert UsedSet(d) == rest + K;
  }

  lemma AccountTrans(d: Disk, K: set<nat>, d1: Disk, K1: set<nat>, d2: Disk, K2: set<nat>, ino: int, cow: bool)
    requires Evolves(d, K, d1, K1, ino, cow) && Evolves(d1, K1, d2, K2, ino, cow)
    ensures KeepsAccount(d, K, d2)
  {
    if Guarded(d, K) {
      GuardedKept(d, K, d1, K1, ino, cow);
    }
    forall c: nat | Tally(d, c) && Countable(d, K, d2) && c + |K| <= |UsedSet(d)|
      ensures Tally(d2, c)
    {
      UsedGrows(d, K, d1, K1, ino, cow);
      assert Tally(d1, c);
    }
  }

  /** Evolution composes. */
  lemma EvolvesTrans(d: Disk, K: set<nat>, d1: Disk, K1: set<nat>, d2: Disk, K2: set<nat>, ino: int, cow: bool)
    requires Evolves(d, K, d1, K1, ino, cow) && Evolves(d1, K1, d2, K2, ino, cow)
    ensures Evolves(d, K, d2, K2, ino, cow)
  {
    AccountTrans(d, K, d1, K1, d2, K2, ino, cow);
    forall j: nat | j < |d.bits|
      ensures EvolvesAt(d, K, d2, K2, ino, cow, j)
    {
      assert EvolvesAt(d, K, d1, K1, ino, cow, j);
      assert EvolvesAt(d1, K1, d2, K2, ino, cow, j);
    }
  }

  /** Evolution can be framed with other blocks in use. */
  lemma EvolvesFrame(d: Disk, K: set<nat>, d': Disk, K': set<nat>, R: set<nat>, ino: int, cow: bool)
    requires Evolves(d, K, d', K', ino, cow)
    requires Owns(d, R) && R !! K && ino !in R
    ensures R !! K'
    ensures Evolves(d, K + R, d', K' + R, ino, cow)
  {
    forall j | j in R
      ensures d'.InUse(j) && j !in K' && SameAttr(d, d', j) && d'.data[j] == d.data[j]
    {
      assert EvolvesAt(d, K, d', K', ino, cow, j);
    }
    forall j: nat | j < |d.bits|
      ensures EvolvesAt(d, K + R, d', K' + R, ino, cow, j)
    {
      assert EvolvesAt(d, K, d', K', ino, cow, j);
    }
    SubsetSize(K, K + R);
  }

  /** A block in use that the operation does not own is unchanged. */
  lemma OthersUntouched(d: Disk, K: set<nat>, d': Disk, K': set<nat>, ino: int, cow: bool, j: nat)
    requires Transfers(d, K, d', K', ino, cow)
    requires d.InUse(j) && j !in K
    ensures j !in K' && d'.InUse(j) && SameAttr(d, d', j)
    ensures j != ino ==> d'.data[j] == d.data[j]
  {
    assert EvolvesAt(d, K, d', K', ino, cow, j);
  }

  /** A block that was free beforehand need not count as written in place. */
  lemma EvolvesNew(d: Disk, K: set<nat>, d': Disk, K': set<nat>, n: nat)
    requires Evolves(d, K, d', K', n, true)
    requires n < |d.bits| && !d.InUse(n) && (d'.sweeps == d.sweeps ==> !d.bits[n])
    ensures Evolves(d, K, d', K', -1, true)
  {
    forall j: nat | j < |d.bits|
      ensures EvolvesAt(d, K, d', K', -1, true, j)
    {
      assert EvolvesAt(d, K, d', K', n, true, j);
    }
  }

  /** What copy-on-write may do, updating in place may do. */
  lemma EvolvesInPlace(d: Disk, K: set<nat>, d': Disk, K': set<nat>, ino: int)
    requires Evolves(d, K, d', K', ino, true)
    ensures Evolves(d, K, d', K', ino, false)
  {
    forall j: nat | j < |d.bits|
      ensures EvolvesAt(d, K, d', K', ino, false, j)
    {
      assert EvolvesAt(d, K, d', K', ino, true, j);
    }
  }

  /** An operation that writes nothing in place qualifies for any in-place block and mode. */
  lemma EvolvesWeaken(d: Disk, K: set<nat>, d': Disk, K': set<nat>, ino: int, cow: bool)
    requires Evolves(d, K, d', K', -1, true)
    ensures Evolves(d, K, d', K', ino, cow)
  {
    forall j: nat | j < |d.bits|
      ensures EvolvesAt(d, K, d', K', ino, cow, j)
    {
      assert EvolvesAt(d, K, d', K', -1, true, j);
    }
  }
}
