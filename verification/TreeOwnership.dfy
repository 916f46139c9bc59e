/** Ownership of whole trees: framing, shrinking and growing a held tree. */
module TreeOwnership {
  import opened DiskState
  import opened Evolution
  import opened FileTree

  lemma TailElems(s: seq<nat>, i: nat)
    requires i < |s| && NoDup(s)
    ensures NoDup(s[i..]) && NoDup(s[i + 1..])
    ensures s[i] !in Elems(s[i + 1..])
    ensures Elems(s[i..]) == {s[i]} + Elems(s[i + 1..])
  {
    SplitElems(s, i);
    SplitElems(s[i..], 1);
    assert s[i..][1..] == s[i + 1..] && s[i..][..1] == [s[i]];
    assert [s[i]][0] in Elems([s[i]]);
  }

  /** Blocks that an operation does not own keep their type and, if not written in place, their bytes. */
  lemma KeepTyped(d: Disk, K: set<nat>, d': Disk, K': set<nat>, ino: int, cow: bool, s: seq<nat>, t: BlockType)
    requires Transfers(d, K, d', K', ino, cow)
    requires Owns(d, Elems(s)) && Elems(s) !! K && Typed(d, s, t)
    ensures Owns(d', Elems(s)) && Elems(s) !! K' && Typed(d', s, t)
    ensures ino !in Elems(s) ==> SameData(d, d', s)
  {
    forall k | 0 <= k < |s|
      ensures s[k] in Elems(s) && d'.InUse(s[k]) && s[k] !in K' && d'.attr[s[k]].typ == t
      ensures ino !in Elems(s) ==> d'.data[s[k]] == d.data[s[k]]
    {
      InElems(s, k);
      OthersUntouched(d, K, d', K', ino, cow, s[k]);
    }
  }

  /** Allocating more while holding on to what was allocated before. */
  lemma OwnMore(d: Disk, K: set<nat>, d1: Disk, s: seq<nat>, d2: Disk, more: set<nat>, t: BlockType)
    requires Evolves(d, K, d1, Elems(s), -1, true) && Typed(d1, s, t)
    requires Evolves(d1, {}, d2, more, -1, true)
    ensures Evolves(d, K, d2, Elems(s) + more, -1, true) && Typed(d2, s, t)
    ensures Elems(s) !! more
  {
    hide EvolvesAt, KeepsAccount;
    KeepTyped(d1, {}, d2, more, -1, true, s, t);
    EvolvesFrame(d1, {}, d2, more, Elems(s), -1, true);
    assert {} + Elems(s) == Elems(s) && more + Elems(s) == Elems(s) + more;
    EvolvesTrans(d, K, d1, Elems(s), d2, Elems(s) + more, -1, true);
  }

  /** An operation on part `U` of what is owned. */
  lemma EvolvesPart(d: Disk, K: set<nat>, d1: Disk, K1: set<nat>, U: set<nat>, d2: Disk, U': set<nat>, ino: int,
                    cow: bool)
    requires Evolves(d, K, d1, K1, ino, cow) && Evolves(d1, U, d2, U', ino, cow)
    requires U <= K1 && ino !in K1
    ensures (K1 - U) !! U'
    ensures Evolves(d, K, d2, (K1 - U) + U', ino, cow)
  {
    hide EvolvesAt, KeepsAccount;
    EvolvesFrame(d1, U, d2, U', K1 - U, ino, cow);
    assert U + (K1 - U) == K1 && U' + (K1 - U) == (K1 - U) + U';
    EvolvesTrans(d, K, d1, K1, d2, (K1 - U) + U', ino, cow);
  }

  /** A tree outlives any operation that owns none of its blocks. */
  lemma TreeHeldFrame(d: Disk, K: set<nat>, d': Disk, K': set<nat>, written: int, cow: bool, ino: nat, t: Tree)
    requires Transfers(d, K, d', K', written, cow)
    requires TreeHeld(d, ino, t) && TreeBlocks(t) !! K
    ensures TreeHeld(d', ino, t) && TreeBlocks(t) !! K'
    ensures written !in TreeBlocks(t) ==> SameData(d, d', t.l1) && SameData(d, d', t.l2) && SameData(d, d', t.l3)
  {
    KeepTyped(d, K, d', K', written, cow, t.l1, Pointer);
    KeepTyped(d, K, d', K', written, cow, t.l2, Pointer);
    KeepTyped(d, K, d', K', written, cow, t.l3, Storage);
  }

  function Keep(s: seq<nat>, n: nat): seq<nat> {
    if n < |s| then s[..n] else s
  }

  function Drop(s: seq<nat>, n: nat): seq<nat> {
    if n < |s| then s[n..] else []
  }

  function Prefix(t: Tree, n: Descriptor): Tree {
    Tree(Keep(t.l1, n.n1), Keep(t.l2, n.n2), Keep(t.l3, n.n3))
  }

  /** The pointers beyond the first `n` of each level. */
  function Dropped(t: Tree, n: Descriptor): seq<nat> {
    Drop(t.l1, n.n1) + Drop(t.l2, n.n2) + Drop(t.l3, n.n3)
  }

  lemma SplitLevel(d: Disk, s: seq<nat>, n: nat, t: BlockType)
    requires NoDup(s) && Typed(d, s, t)
    ensures NoDup(Keep(s, n)) && NoDup(Drop(s, n)) && Typed(d, Keep(s, n), t)
    ensures Elems(Keep(s, n)) !! Elems(Drop(s, n)) && Elems(Keep(s, n)) + Elems(Drop(s, n)) == Elems(s)
  {
    if n < |s| {
      SplitElems(s, n);
    } else {
      assert Elems([]) == {};
    }
  }

  /** A held tree splits into a held prefix and the dropped rest. */
  lemma SplitTree(d: Disk, ino: nat, t: Tree, n: Descriptor)
    requires TreeHeld(d, ino, t)
    ensures TreeHeld(d, ino, Prefix(t, n))
    ensures NoDup(Dropped(t, n)) && Elems(Dropped(t, n)) !! TreeBlocks(Prefix(t, n))
    ensures Elems(Dropped(t, n)) + TreeBlocks(Prefix(t, n)) == TreeBlocks(t)
  {
    var (k1, k2, k3) := (Keep(t.l1, n.n1), Keep(t.l2, n.n2), Keep(t.l3, n.n3));
    var (b1, b2, b3) := (Drop(t.l1, n.n1), Drop(t.l2, n.n2), Drop(t.l3, n.n3));
    SplitLevel(d, t.l1, n.n1, Pointer);
    SplitLevel(d, t.l2, n.n2, Pointer);
    SplitLevel(d, t.l3, n.n3, Storage);
    UnionOfSplits(Elems(t.l1), Elems(t.l2), Elems(t.l3), Elems(k1), Elems(k2), Elems(k3), Elems(b1), Elems(b2),
                  Elems(b3));
    ConcatElems(b1, b2);
    ConcatElems(b1 + b2, b3);
  }

  lemma UnionOfSplits(a1: set<nat>, a2: set<nat>, a3: set<nat>, k1: set<nat>, k2: set<nat>, k3: set<nat>,
                      b1: set<nat>, b2: set<nat>, b3: set<nat>)
    requires a1 !! a2 && a1 !! a3 && a2 !! a3
    requires a1 == k1 + b1 && a2 == k2 + b2 && a3 == k3 + b3 && k1 !! b1 && k2 !! b2 && k3 !! b3
    ensures b1 !! b2 && (b1 + b2) !! b3 && k1 !! k2 && k1 !! k3 && k2 !! k3
    ensures (b1 + b2 + b3) !! (k1 + k2 + k3)
    ensures (b1 + b2 + b3) + (k1 + k2 + k3) == a1 + a2 + a3
  {
  }

  /** Adding more blocks to level 1, 2 or 3. */
  function Extended(t: Tree, level: nat, more: seq<nat>): Tree {
    if level == 1 then t.(l1 := t.l1 + more)
    else if level == 2 then t.(l2 := t.l2 + more)
    else t.(l3 := t.l3 + more)
  }

  function LevelType(level: nat): BlockType {
    if level == 3 then Storage else Pointer
  }

  lemma TypedConcat(d: Disk, s: seq<nat>, r: seq<nat>, t: BlockType)
    requires Typed(d, s, t) && Typed(d, r, t)
    ensures Typed(d, s + r, t)
  {
  }

  lemma GrowTree(d: Disk, d': Disk, ino: nat, t: Tree, level: nat, more: seq<nat>)
    requires TreeHeld(d, ino, t) && d.InUse(ino) && 1 <= level <= 3
    requires Evolves(d, {}, d', Elems(more), -1, true)
    requires NoDup(more) && Typed(d', more, LevelType(level))
    ensures d'.InUse(ino)
    ensures TreeHeld(d', ino, Extended(t, level, more))
    ensures TreeBlocks(Extended(t, level, more)) == TreeBlocks(t) + Elems(more)
    ensures Evolves(d, TreeBlocks(t), d', TreeBlocks(Extended(t, level, more)), -1, true)
  {
    hide EvolvesAt, KeepsAccount;
    TreeHeldFrame(d, {}, d', Elems(more), -1, true, ino, t);
    OthersUntouched(d, {}, d', Elems(more), -1, true, ino);
    var s := if level == 1 then t.l1 else if level == 2 then t.l2 else t.l3;
    ConcatElems(s, more);
    TypedConcat(d', s, more, LevelType(level));
    EvolvesFrame(d, {}, d', Elems(more), TreeBlocks(t), -1, true);
    assert {} + TreeBlocks(t) == TreeBlocks(t);
    assert TreeBlocks(Extended(t, level, more)) == Elems(more) + TreeBlocks(t);
  }

  /** All blocks of a tree as one list. */
  lemma WholeTree(d: Disk, ino: nat, t: Tree)
    requires TreeHeld(d, ino, t)
    ensures NoDup(t.l3 + t.l2 + t.l1) && Elems(t.l3 + t.l2 + t.l1) == TreeBlocks(t)
  {
    ConcatElems(t.l3, t.l2);
    ConcatElems(t.l3 + t.l2, t.l1);
  }
}
