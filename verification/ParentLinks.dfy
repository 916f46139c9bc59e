/** Rewriting the parents of a level, one block of pointers at a time. */
module ParentLinks {
  import opened Arithmetic
  import opened Bytes
  import opened DiskState
  import opened Evolution
  import opened FileTree
  import opened Occupancy

  /** The effect of rewriting parent block `p` as block `n` starting with the pointers `children`. */
  ghost predicate ParentSaved(d: Disk, p: nat, children: seq<nat>, d': Disk, n: nat, ino: nat, cow: bool)
  {
    && SameGeometry(d, d') && p < |d.bits| && n < |d.bits|
    && WORD * |children| <= |d.data[p]|
    && (n == p || !d.InUse(n)) && MovedUses(d, p, d', n, cow)
    && Evolves(d, {p}, d', {n}, ino, cow)
    && d'.data == d.data[n := Put(d.data[p], 0, WordsBytes(children))]
    && d'.attr[n].typ == Pointer
  }

  /** A duplicate-free list of pointer blocks in use. */
  ghost predicate Parents(d: Disk, upper: seq<nat>) {
    NoDup(upper) && Owns(d, Elems(upper)) && Typed(d, upper, Pointer)
  }

  /** The pointers `lower` are linked from `upper`, except new ones from position `done` on. */
  ghost predicate LinkedUpTo(d: Disk, upper: seq<nat>, lower: seq<nat>, isNew: seq<bool>, done: nat)
    requires d.Shape() && |isNew| == |lower|
  {
    forall k: nat :: k < |lower| && (k < done || !isNew[k]) ==> PtrAt(d, upper, k) == lower[k]
  }

  /** Parent `u`, of `p` children each, has a new child. */
  ghost predicate HasNew(isNew: seq<bool>, p: nat, u: nat)
    requires 0 < p
  {
    exists k: nat :: k < |isNew| && Quot(k, p) == u && isNew[k]
  }

  /** Of the first `done` parents exactly those with a new child have moved, under copy-on-write;
      in place none has. */
  ghost predicate Relocated(upper: seq<nat>, upper': seq<nat>, isNew: seq<bool>, p: nat, done: nat, cow: bool)
    requires 0 < p
  {
    && |upper'| == |upper|
    && forall u: nat :: u < |upper| ==> (upper'[u] != upper[u] <==> cow && u < done && HasNew(isNew, p, u))
  }

  /** The flags of the parents: a parent that moved is new. */
  function Flags(flags: seq<bool>, upper: seq<nat>, upper': seq<nat>): (r: seq<bool>)
    requires |flags| == |upper| == |upper'|
    ensures |r| == |upper| && forall u :: 0 <= u < |r| ==> r[u] == (flags[u] || upper'[u] != upper[u])
  {
    seq(|upper|, u requires 0 <= u < |upper| => flags[u] || upper'[u] != upper[u])
  }

  ghost predicate Moved(upper: seq<nat>, flags: seq<bool>, upper': seq<nat>, flags': seq<bool>, isNew: seq<bool>,
                        p: nat, done: nat, cow: bool)
    requires 0 < p
  {
    Relocated(upper, upper', isNew, p, done, cow) && |flags| == |upper| && flags' == Flags(flags, upper, upper')
  }

  /* ---- room for moving parents ---- */

  /** Of the first `u` parents, those that move and then stay in use for a snapshot. */
  ghost function Pinned(d: Disk, upper: seq<nat>, isNew: seq<bool>, p: nat, u: nat): set<nat>
    requires 0 < p
  {
    set v: nat | v < u && v < |upper| && d.Shared(upper[v]) && HasNew(isNew, p, v)
  }

  /** With `used` blocks in use at first, every one of the first `count` parents that moves finds a
      block for its copy. */
  ghost predicate RoomToMove(d: Disk, used: nat, upper: seq<nat>, isNew: seq<bool>, p: nat, count: nat)
    requires 0 < p
  {
    forall u: nat :: u < count && HasNew(isNew, p, u) ==> used + |Pinned(d, upper, isNew, p, u)| < |d.bits|
  }

  /** The blocks of a snapshot among two lists of parents are the same. */
  ghost predicate PinnedSame(d: Disk, upper: seq<nat>, d': Disk, upper': seq<nat>) {
    forall v: nat :: v < |upper'| ==> (d'.Shared(upper'[v]) <==> v < |upper| && d.Shared(upper[v]))
  }

  lemma PinnedEqual(d: Disk, upper: seq<nat>, d': Disk, upper': seq<nat>, isNew: seq<bool>, p: nat, u: nat)
    requires 0 < p && PinnedSame(d, upper, d', upper') && u <= |upper'|
    ensures Pinned(d', upper', isNew, p, u) == Pinned(d, upper, isNew, p, u)
  {
    hide HasNew;
  }

  lemma RoomEqual(d: Disk, used: nat, upper: seq<nat>, d': Disk, upper': seq<nat>, isNew: seq<bool>, p: nat)
    requires 0 < p && PinnedSame(d, upper, d', upper') && |d'.bits| == |d.bits|
    ensures RoomToMove(d', used, upper', isNew, p, |upper'|) <==> RoomToMove(d, used, upper, isNew, p, |upper'|)
  {
    hide HasNew, Pinned;
    forall u: nat | u < |upper'|
      ensures Pinned(d', upper', isNew, p, u) == Pinned(d, upper, isNew, p, u)
    {
      PinnedEqual(d, upper, d', upper', isNew, p, u);
    }
  }

  /** One more parent. */
  lemma PinnedNext(d: Disk, upper: seq<nat>, isNew: seq<bool>, p: nat, u: nat)
    requires 0 < p && u < |upper|
    ensures |Pinned(d, upper, isNew, p, u + 1)| ==
            |Pinned(d, upper, isNew, p, u)| + if d.Shared(upper[u]) && HasNew(isNew, p, u) then 1 else 0
  {
    hide HasNew;
    assert u !in Pinned(d, upper, isNew, p, u);
    var (now, next) := (Pinned(d, upper, isNew, p, u), Pinned(d, upper, isNew, p, u + 1));
    var pinned := d.Shared(upper[u]) && HasNew(isNew, p, u);
    forall v: nat
      ensures v in next <==> v in now || (v == u && pinned)
    {
    }
    hide Pinned;
    if pinned {
      assert next == now + {u};
    } else {
      assert next == now;
    }
  }

  /** Without new children, no parent moves. */
  lemma NothingMoved(upper: seq<nat>, flags: seq<bool>, upper': seq<nat>, flags': seq<bool>, isNew: seq<bool>,
                     p: nat, done: nat, cow: bool)
    requires 0 < p && Moved(upper, flags, upper', flags', isNew, p, done, cow)
    requires forall k :: 0 <= k < |isNew| ==> !isNew[k]
    ensures upper' == upper && flags' == flags
  {
    assert forall u: nat :: u < |upper| ==> !HasNew(isNew, p, u);
  }

  /** The group of children `u` contains a new one exactly if its parent has a new child. */
  lemma GroupHasNew(p: nat, lower: seq<nat>, isNew: seq<bool>, u: nat, children: seq<nat>, foundNew: bool)
    requires 0 < p && Group(p, lower, isNew, u, children, foundNew)
    requires |children| == p || u * p + |children| == |lower|
    ensures foundNew <==> HasNew(isNew, p, u)
  {
    if foundNew {
      var k: nat :| u * p <= k < u * p + |children| && isNew[k];
      QuotRemUnique(u, k - u * p, p);
    }
    if HasNew(isNew, p, u) {
      var k: nat :| k < |isNew| && Quot(k, p) == u && isNew[k];
      QuotRem(k, p);
      assert foundNew;
    }
  }

  lemma MovedOne(upper0: seq<nat>, flags0: seq<bool>, upper: seq<nat>, flags: seq<bool>, isNew: seq<bool>, p: nat,
                 u: nat, cow: bool, n: nat)
    requires 0 < p && Moved(upper0, flags0, upper, flags, isNew, p, u, cow) && u < |upper|
    requires HasNew(isNew, p, u) && (n != upper[u] <==> cow)
    ensures Moved(upper0, flags0, upper[u := n], if n != upper[u] then flags[u := true] else flags,
                  isNew, p, u + 1, cow)
  {
    hide HasNew;
    assert upper[u] == upper0[u];
    var flags' := if n != upper[u] then flags[u := true] else flags;
    assert flags' == Flags(flags0, upper0, upper[u := n]);
  }

  lemma MovedNone(upper0: seq<nat>, flags0: seq<bool>, upper: seq<nat>, flags: seq<bool>, isNew: seq<bool>, p: nat,
                  u: nat, cow: bool)
    requires 0 < p && Moved(upper0, flags0, upper, flags, isNew, p, u, cow) && !HasNew(isNew, p, u)
    ensures Moved(upper0, flags0, upper, flags, isNew, p, u + 1, cow)
  {
    hide HasNew;
  }

  lemma ReplaceParent(d: Disk, upper: seq<nat>, u: nat, children: seq<nat>, d': Disk, n: nat, ino: nat, cow: bool)
    requires Parents(d, upper) && u < |upper| && ino !in Elems(upper) && d.InUse(ino)
    requires ParentSaved(d, upper[u], children, d', n, ino, cow)
    ensures Parents(d', upper[u := n]) && ino !in Elems(upper[u := n]) && d'.InUse(ino)
    ensures Evolves(d, Elems(upper), d', Elems(upper[u := n]), ino, cow)
    ensures d'.data[ino] == d.data[ino]
  {
    hide EvolvesAt, KeepsAccount;
    InElems(upper, u);
    assert n in Elems(upper) ==> d.InUse(n);
    ReplaceElem(upper, u, n);
    var R := Elems(upper) - {upper[u]};
    OthersUntouched(d, {upper[u]}, d', {n}, ino, cow, ino);
    EvolvesFrame(d, {upper[u]}, d', {n}, R, ino, cow);
    assert {upper[u]} + R == Elems(upper) && {n} + R == Elems(upper[u := n]);
    forall k | 0 <= k < |upper| && k != u
      ensures d'.attr[upper[k]].typ == Pointer
    {
      InElems(upper, k);
      OthersUntouched(d, {upper[u]}, d', {n}, ino, cow, upper[k]);
    }
  }

  /** Pointers under the other parents keep their value. */
  lemma OtherPtrs(d: Disk, upper: seq<nat>, u: nat, children: seq<nat>, d': Disk, n: nat, ino: nat, cow: bool, k: nat)
    requires d.Shape() && Parents(d, upper) && u < |upper|
    requires ParentSaved(d, upper[u], children, d', n, ino, cow)
    requires Quot(k, Fanout(d.bs)) != u && Quot(k, Fanout(d.bs)) < |upper|
    ensures PtrAt(d', upper[u := n], k) == PtrAt(d, upper, k)
  {
    var q := Quot(k, Fanout(d.bs));
    InElems(upper, q);
    assert d.InUse(upper[q]);
  }

  /** The rewritten parent holds its children. */
  lemma OwnPtrs(d: Disk, upper: seq<nat>, u: nat, children: seq<nat>, d': Disk, n: nat, ino: nat, cow: bool, r: nat)
    requires d.Shape() && Parents(d, upper) && u < |upper| && r < |children| <= Fanout(d.bs)
    requires ParentSaved(d, upper[u], children, d', n, ino, cow)
    requires children[r] < TWO_64 && r < Fanout(d.bs)
    ensures PtrAt(d', upper[u := n], u * Fanout(d.bs) + r) == children[r]
  {
    QuotRemUnique(u, r, Fanout(d.bs));
    GetPutWords(d.data[upper[u]], children, r);
  }

  lemma LinkOne(d: Disk, upper: seq<nat>, u: nat, children: seq<nat>, d': Disk, n: nat, ino: nat, cow: bool,
                lower: seq<nat>, k: nat)
    requires d.Shape() && Parents(d, upper) && u < |upper| == CeilDiv(Fanout(d.bs), |lower|)
    requires ParentSaved(d, upper[u], children, d', n, ino, cow)
    requires k < |lower| && lower[k] < TWO_64
    requires u * Fanout(d.bs) + |children| <= |lower| && |children| <= Fanout(d.bs)
    requires children == lower[u * Fanout(d.bs)..u * Fanout(d.bs) + |children|]
    requires u * Fanout(d.bs) <= k < u * Fanout(d.bs) + |children| || PtrAt(d, upper, k) == lower[k]
    requires u * Fanout(d.bs) <= k < (u + 1) * Fanout(d.bs) ==> k < u * Fanout(d.bs) + |children|
    ensures PtrAt(d', upper[u := n], k) == lower[k]
  {
    var p := Fanout(d.bs);
    SuccTimes(u, p);
    if u * p <= k < u * p + |children| {
      OwnPtrs(d, upper, u, children, d', n, ino, cow, k - u * p);
    } else {
      QuotCell(p, |lower|, k);
      QuotRem(k, p);
      assert Quot(k, p) != u;
      OtherPtrs(d, upper, u, children, d', n, ino, cow, k);
    }
  }

  /** After a parent has been rewritten, its group is linked. */
  lemma LinkGroup(d: Disk, upper: seq<nat>, u: nat, children: seq<nat>, d': Disk, n: nat, ino: nat, cow: bool,
                  lower: seq<nat>, isNew: seq<bool>)
    requires d.Shape() && Parents(d, upper) && u < |upper| == CeilDiv(Fanout(d.bs), |lower|) && |isNew| == |lower|
    requires ParentSaved(d, upper[u], children, d', n, ino, cow)
    requires forall k :: 0 <= k < |lower| ==> lower[k] < TWO_64
    requires LinkedUpTo(d, upper, lower, isNew, u * Fanout(d.bs))
    requires u * Fanout(d.bs) + |children| <= |lower| && |children| <= Fanout(d.bs)
    requires children == lower[u * Fanout(d.bs)..u * Fanout(d.bs) + |children|]
    requires |children| == Fanout(d.bs) || u * Fanout(d.bs) + |children| == |lower|
    ensures LinkedUpTo(d', upper[u := n], lower, isNew, (u + 1) * Fanout(d.bs))
  {
    SuccTimes(u, Fanout(d.bs));
    forall k: nat | k < |lower| && (k < (u + 1) * Fanout(d.bs) || !isNew[k])
      ensures PtrAt(d', upper[u := n], k) == lower[k]
    {
      LinkOne(d, upper, u, children, d', n, ino, cow, lower, k);
    }
  }

  /** The blocks in use after the first `u` parents; until then each parent that moved found room. */
  ghost predicate UsesMoved(d: Disk, upper0: seq<nat>, d1: Disk, isNew: seq<bool>, u: nat, cow: bool)
    requires d.Shape()
  {
    if cow then
      && |Uses(d1)| == |Uses(d)| + |Pinned(d, upper0, isNew, Fanout(d.bs), u)|
      && RoomToMove(d, |Uses(d)|, upper0, isNew, Fanout(d.bs), u)
    else
      |Uses(d1)| == |Uses(d)|
  }

  lemma UsesMovedNone(d: Disk, upper0: seq<nat>, d1: Disk, isNew: seq<bool>, u: nat, cow: bool)
    requires d.Shape() && UsesMoved(d, upper0, d1, isNew, u, cow) && !HasNew(isNew, Fanout(d.bs), u)
    ensures UsesMoved(d, upper0, d1, isNew, u + 1, cow)
  {
    var p := Fanout(d.bs);
    assert Pinned(d, upper0, isNew, p, u + 1) == Pinned(d, upper0, isNew, p, u);
    hide HasNew, Uses, Pinned;
  }

  lemma UsesMovedOne(d: Disk, upper0: seq<nat>, d1: Disk, isNew: seq<bool>, u: nat, cow: bool, d2: Disk, x: nat, n: nat)
    requires d.Shape() && UsesMoved(d, upper0, d1, isNew, u, cow) && HasNew(isNew, Fanout(d.bs), u)
    requires SameGeometry(d, d1) && SameGeometry(d1, d2) && u < |upper0| && x == upper0[u]
    requires x in Uses(d1) && (d1.Shared(x) <==> d.Shared(x))
    requires MovedUses(d1, x, d2, n, cow)
    ensures UsesMoved(d, upper0, d2, isNew, u + 1, cow)
  {
    hide HasNew, Uses, Pinned;
    PinnedNext(d, upper0, isNew, Fanout(d.bs), u);
    if cow {
      hide MovedUses;
      UsesMovedCount(d1, x, d2, n);
    }
  }

  /** Progress of recording `lower` in its parents: from `upper0` on disk `d` to `upper` on disk
      `d1`, with the first `u` groups done. */
  ghost predicate Recording(d: Disk, upper0: seq<nat>, flags0: seq<bool>, d1: Disk, upper: seq<nat>,
                            flags: seq<bool>, lower: seq<nat>, isNew: seq<bool>, u: nat, ino: nat, cow: bool)
  {
    && |flags0| == |upper0| && |isNew| == |lower|
    && Evolves(d, Elems(upper0), d1, Elems(upper), ino, cow)
    && d1.InUse(ino) && d.InUse(ino) && d1.data[ino] == d.data[ino] && ino !in Elems(upper)
    && |upper| == CeilDiv(Fanout(d.bs), |lower|)
    && (forall k :: 0 <= k < |lower| ==> lower[k] < TWO_64)
    && Parents(d1, upper) && Moved(upper0, flags0, upper, flags, isNew, Fanout(d.bs), u, cow)
    && UsesMoved(d, upper0, d1, isNew, u, cow)
    && LinkedUpTo(d1, upper, lower, isNew, u * Fanout(d.bs))
  }

  /** The children collected for group `u`. */
  ghost predicate Group(p: nat, lower: seq<nat>, isNew: seq<bool>, u: nat, children: seq<nat>, foundNew: bool) {
    && |isNew| == |lower| && |children| <= p
    && u * p + |children| <= |lower|
    && children == lower[u * p..u * p + |children|]
    && (!foundNew ==> forall k :: u * p <= k < u * p + |children| ==> !isNew[k])
    && (foundNew ==> exists k: nat :: u * p <= k < u * p + |children| && isNew[k])
  }

  /** Recording before the next child, at position `i`. */
  ghost predicate Collecting(d: Disk, upper0: seq<nat>, flags0: seq<bool>, d1: Disk, upper: seq<nat>,
                             flags: seq<bool>, lower: seq<nat>, isNew: seq<bool>, ino: nat, cow: bool, u: nat,
                             children: seq<nat>, foundNew: bool, i: nat)
  {
    && Recording(d, upper0, flags0, d1, upper, flags, lower, isNew, u, ino, cow)
    && Group(Fanout(d.bs), lower, isNew, u, children, foundNew)
    && i == u * Fanout(d.bs) + |children| <= |lower| && |children| < Fanout(d.bs)
  }

  lemma CollectingStarts(d: Disk, upper: seq<nat>, flags: seq<bool>, lower: seq<nat>, isNew: seq<bool>, ino: nat,
                         cow: bool)
    requires d.Shape() && d.InUse(ino) && Parents(d, upper) && ino !in Elems(upper)
    requires |upper| == CeilDiv(Fanout(d.bs), |lower|)
    requires |flags| == |upper| && |isNew| == |lower|
    requires LinkedUpTo(d, upper, lower, isNew, 0)
    requires forall k :: 0 <= k < |lower| ==> lower[k] < TWO_64
    ensures Collecting(d, upper, flags, d, upper, flags, lower, isNew, ino, cow, 0, [], false, 0)
  {
    EvolvesRefl(d, Elems(upper), ino, cow);
  }

  /** The result of recording: everything is linked. */
  lemma RecordingEnds(d: Disk, upper0: seq<nat>, flags0: seq<bool>, d1: Disk, upper: seq<nat>, flags: seq<bool>,
                      lower: seq<nat>, isNew: seq<bool>, u: nat, ino: nat, cow: bool)
    requires Recording(d, upper0, flags0, d1, upper, flags, lower, isNew, u, ino, cow)
    requires |lower| <= u * Fanout(d.bs)
    ensures Linked(d1, upper, lower)
    ensures Moved(upper0, flags0, upper, flags, isNew, Fanout(d.bs), |upper|, cow)
    ensures UsesMoved(d, upper0, d1, isNew, |upper|, cow) && !NoRoom(d, upper0, isNew, cow)
  {
    CeilDivFits(Fanout(d.bs), |lower|, u);
    hide HasNew;
    assert Pinned(d, upper0, isNew, Fanout(d.bs), u) == Pinned(d, upper0, isNew, Fanout(d.bs), |upper|);
  }

  /** Some parent that has to move finds every block in use. */
  ghost predicate NoRoom(d: Disk, upper: seq<nat>, isNew: seq<bool>, cow: bool)
    requires d.Shape()
  {
    cow && !RoomToMove(d, |Uses(d)|, upper, isNew, Fanout(d.bs), |upper|)
  }

  lemma OutOfRoom(d: Disk, upper0: seq<nat>, flags0: seq<bool>, d1: Disk, upper: seq<nat>, flags: seq<bool>,
                  lower: seq<nat>, isNew: seq<bool>, u: nat, children: seq<nat>, ino: nat, cow: bool)
    requires Recording(d, upper0, flags0, d1, upper, flags, lower, isNew, u, ino, cow) && u < |upper| && cow
    requires Group(Fanout(d.bs), lower, isNew, u, children, true)
    requires |children| == Fanout(d.bs) || u * Fanout(d.bs) + |children| == |lower|
    requires |d1.bits| <= |Uses(d1)|
    ensures NoRoom(d, upper0, isNew, cow)
  {
    GroupHasNew(Fanout(d.bs), lower, isNew, u, children, true);
    hide HasNew, Pinned, Uses, Evolves, Group, Parents, LinkedUpTo;
  }

  /** A finished group, as a step of the recording. */
  lemma RecordGroup(d: Disk, upper0: seq<nat>, flags0: seq<bool>, d1: Disk, upper: seq<nat>, flags: seq<bool>,
                    lower: seq<nat>, isNew: seq<bool>, u: nat, children: seq<nat>, d2: Disk, n: nat, ino: nat,
                    cow: bool)
    requires Recording(d, upper0, flags0, d1, upper, flags, lower, isNew, u, ino, cow) && u < |upper|
    requires Group(Fanout(d.bs), lower, isNew, u, children, true)
    requires |children| == Fanout(d.bs) || u * Fanout(d.bs) + |children| == |lower|
    requires ParentSaved(d1, upper[u], children, d2, n, ino, cow)
    ensures var flags' := if n != upper[u] then flags[u := true] else flags;
            Recording(d, upper0, flags0, d2, upper[u := n], flags', lower, isNew, u + 1, ino, cow)
  {
    GroupHasNew(Fanout(d.bs), lower, isNew, u, children, true);
    MovedOne(upper0, flags0, upper, flags, isNew, Fanout(d.bs), u, cow, n);
    hide HasNew, Pinned, RoomToMove, LinkedUpTo, Group;
    InElems(upper, u);
    InElems(upper0, u);
    StillOwned(d, Elems(upper0), d1, Elems(upper), ino, cow, upper[u]);
    UsesMovedOne(d, upper0, d1, isNew, u, cow, d2, upper[u], n);
    hide Moved, UsesMoved, Uses, Evolves, EvolvesAt;
    ReplaceParent(d1, upper, u, children, d2, n, ino, cow);
    LinkGroup(d1, upper, u, children, d2, n, ino, cow, lower, isNew);
    EvolvesTrans(d, Elems(upper0), d1, Elems(upper), d2, Elems(upper[u := n]), ino, cow);
  }

  lemma GroupHasParent(p: nat, n: nat, u: nat, c: nat)
    requires 0 < p && 0 < c && u * p + c <= n
    ensures u < CeilDiv(p, n)
  {
    CeilDivFits(p, n, u);
  }

  /** A range of a list, extended by the next element. */
  lemma ExtendRange(s: seq<nat>, lo: nat, c: seq<nat>)
    requires lo + |c| < |s| && c == s[lo..lo + |c|]
    ensures c + [s[lo + |c|]] == s[lo..lo + |c| + 1]
  {
  }

  lemma ExtendNew(isNew: seq<bool>, lo: nat, hi: nat, foundNew: bool)
    requires lo <= hi < |isNew|
    requires !foundNew ==> forall k :: lo <= k < hi ==> !isNew[k]
    requires foundNew ==> exists k: nat :: lo <= k < hi && isNew[k]
    ensures !(foundNew || isNew[hi]) ==> forall k :: lo <= k < hi + 1 ==> !isNew[k]
    ensures foundNew || isNew[hi] ==> exists k: nat :: lo <= k < hi + 1 && isNew[k]
  {
  }

  lemma GroupGrows(p: nat, lower: seq<nat>, isNew: seq<bool>, u: nat, children: seq<nat>, foundNew: bool)
    requires Group(p, lower, isNew, u, children, foundNew)
    requires |children| < p && u * p + |children| < |lower|
    ensures var i := u * p + |children|;
            Group(p, lower, isNew, u, children + [lower[i]], foundNew || isNew[i])
  {
    var lo := u * p;
    ExtendRange(lower, lo, children);
    ExtendNew(isNew, lo, lo + |children|, foundNew);
  }

  lemma GroupStarts(p: nat, lower: seq<nat>, isNew: seq<bool>, u: nat)
    requires |isNew| == |lower| && u * p <= |lower|
    ensures Group(p, lower, isNew, u, [], false)
  {
  }

  /** A group without new pointers needs no rewriting. */
  lemma GroupUnchanged(d: Disk, upper0: seq<nat>, flags0: seq<bool>, d1: Disk, upper: seq<nat>, flags: seq<bool>,
                       lower: seq<nat>, isNew: seq<bool>, u: nat, children: seq<nat>, ino: nat, cow: bool)
    requires Recording(d, upper0, flags0, d1, upper, flags, lower, isNew, u, ino, cow)
    requires Group(Fanout(d.bs), lower, isNew, u, children, false)
    requires |children| == Fanout(d.bs) || u * Fanout(d.bs) + |children| == |lower|
    ensures Recording(d, upper0, flags0, d1, upper, flags, lower, isNew, u + 1, ino, cow)
  {
    SuccTimes(u, Fanout(d.bs));
    GroupHasNew(Fanout(d.bs), lower, isNew, u, children, false);
    MovedNone(upper0, flags0, upper, flags, isNew, Fanout(d.bs), u, cow);
    UsesMovedNone(d, upper0, d1, isNew, u, cow);
    hide Moved, Evolves, Parents, UsesMoved, HasNew;
  }
}
