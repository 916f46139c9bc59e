/** Copying a path, as a relation between states: what happens to the open inodes along it, and
    why the name space keeps its meaning. */
module PathCopy {
  import opened Bytes
  import opened DentryCodec
  import opened DirectoryTree

  datatype Info = Info(bytes: seq<byte>, image: seq<byte>, frozen: bool)

  /** What is to be seen of a file system: the name space, the bytes and the block image of
      each live inode and whether it is frozen, and the loose copies. */
  datatype Scene = Scene(ns: Namespace, info: map<nat, Info>, loose: set<nat>)
  {
    function BytesOf(i: nat): seq<byte> {
      if i in info then info[i].bytes else []
    }

    function ImageOf(i: nat): seq<byte> {
      if i in info then info[i].image else []
    }

    predicate FrozenAt(i: nat) {
      i in info && info[i].frozen
    }
  }

  /** A live inode that still shows what it did, and is frozen as it was. */
  ghost predicate Kept(s: Scene, s': Scene, i: nat) {
    && i in s.ns.nodes && i in s'.ns.nodes && s'.ns.nodes[i] == s.ns.nodes[i]
    && s'.BytesOf(i) == s.BytesOf(i) && s'.FrozenAt(i) == s.FrozenAt(i)
  }

  /** And whose inode block has the same bytes. */
  ghost predicate Intact(s: Scene, s': Scene, i: nat) {
    Kept(s, s', i) && s'.ImageOf(i) == s.ImageOf(i)
  }

  /** What is kept in memory about an open inode: its block, where its entries start, the
      entries, and the name under which each inode is entered. */
  datatype Handle = Handle(current: nat, start: nat, entries: map<Name, nat>, reverse: map<nat, Name>)

  /** `m` leads from `a` to `i` exactly if `r` leads back. */
  ghost predicate Paired(m: map<Name, nat>, r: map<nat, Name>, a: Name, i: nat) {
    (a in m && m[a] == i) == (i in r && r[i] == a)
  }

  ghost predicate Inverse(m: map<Name, nat>, r: map<nat, Name>) {
    forall a, i :: Paired(m, r, a, i)
  }

  /** The memory agrees with what is there. Only directories have entries. */
  ghost predicate Remembers(s: Scene, h: Handle) {
    && h.current in s.ns.nodes
    && (s.ns.nodes[h.current].DirNode? ==>
          && h.entries == s.ns.nodes[h.current].entries
          && StartsAt(s.BytesOf(h.current), h.start) && Inverse(h.entries, h.reverse))
  }

  /** Handle `h` was opened through the directory of handle `up`. */
  ghost predicate OpenedThrough(s: Scene, up: Handle, h: Handle) {
    up.current in s.ns.nodes && s.ns.nodes[up.current].DirNode? && h.current in up.reverse
  }

  ghost predicate LinkAt(s: Scene, hs: seq<Handle>, k: nat)
    requires 0 < k < |hs|
  {
    OpenedThrough(s, hs[k - 1], hs[k])
  }

  /** The open inodes from the root down to some inode. */
  ghost predicate PathOpen(s: Scene, root: nat, hs: seq<Handle>) {
    && hs != [] && hs[0].current == root && root in s.ns.nodes && s.ns.nodes[root].DirNode?
    && (forall k :: 0 <= k < |hs| ==> Remembers(s, hs[k]))
    && (forall k :: 0 < k < |hs| ==> LinkAt(s, hs, k))
  }

  lemma Entered(s: Scene, up: Handle, h: Handle)
    requires OpenedThrough(s, up, h) && Remembers(s, up)
    ensures EnteredFrom(s.ns, up.current, h.current)
  {
    var (ns, name) := (s.ns, up.reverse[h.current]);
    assert Paired(up.entries, up.reverse, name, h.current);
    assert name in EntriesOf(ns.nodes[up.current]) && EntriesOf(ns.nodes[up.current])[name] == h.current;
  }

  function Currents(hs: seq<Handle>): (r: seq<nat>)
    ensures |r| == |hs|
  {
    seq(|hs|, k requires 0 <= k < |hs| => hs[k].current)
  }

  lemma EnteredAt(s: Scene, root: nat, hs: seq<Handle>, k: nat)
    requires PathOpen(s, root, hs) && 0 < k < |hs|
    ensures EnteredFrom(s.ns, hs[k - 1].current, hs[k].current)
  {
    assert LinkAt(s, hs, k);
    Entered(s, hs[k - 1], hs[k]);
  }

  lemma PathDescends(s: Scene, root: nat, hs: seq<Handle>)
    requires PathOpen(s, root, hs)
    ensures Descends(s.ns, root, Currents(hs))
  {
    forall k | 0 < k < |hs|
      ensures EnteredFrom(s.ns, hs[k - 1].current, hs[k].current)
    {
      EnteredAt(s, root, hs, k);
    }
    DescendsFrom(s.ns, root, hs);
  }

  lemma DescendsFrom(ns: Namespace, root: nat, hs: seq<Handle>)
    requires hs != [] && hs[0].current == root
    requires forall k :: 0 < k < |hs| ==> EnteredFrom(ns, hs[k - 1].current, hs[k].current)
    ensures Descends(ns, root, Currents(hs))
  {
  }

  lemma PathDistinct(s: Scene, root: nat, hs: seq<Handle>, j: nat, k: nat)
    requires IsTree(s.ns, root) && PathOpen(s, root, hs) && j < k < |hs|
    ensures hs[j].current != hs[k].current
  {
    PathDescends(s, root, hs);
    DescendsDistinct(s.ns, root, Currents(hs), j, k);
    assert Currents(hs)[j] == hs[j].current && Currents(hs)[k] == hs[k].current;
  }

  ghost predicate OnPath(hs: seq<Handle>, i: nat) {
    exists k :: 0 <= k < |hs| && hs[k].current == i
  }

  lemma NameEntered(s: Scene, h: Handle, c: nat)
    requires DirReady(s, h) && c in h.reverse
    ensures h.reverse[c] in h.entries
  {
    assert Paired(h.entries, h.reverse, h.reverse[c], c);
  }

  /** A path stays open as long as its inodes are kept. */
  lemma PathKept(s: Scene, s': Scene, root: nat, hs: seq<Handle>)
    requires PathOpen(s, root, hs)
    requires forall k :: 0 <= k < |hs| ==> Kept(s, s', hs[k].current)
    ensures PathOpen(s', root, hs)
  {
    forall k | 0 < k < |hs|
      ensures LinkAt(s', hs, k)
    {
      assert LinkAt(s, hs, k);
    }
  }

  lemma PathExtended(s: Scene, root: nat, hs: seq<Handle>, h: Handle)
    requires PathOpen(s, root, hs) && h.current in s.ns.nodes && Remembers(s, h)
    requires OpenedThrough(s, hs[|hs| - 1], h)
    ensures PathOpen(s, root, hs + [h])
  {
    var hs' := hs + [h];
    forall k | 0 <= k < |hs'|
      ensures hs'[k].current in s.ns.nodes && Remembers(s, hs'[k])
    {
      assert k < |hs| ==> hs'[k] == hs[k];
    }
    forall k | 0 < k < |hs'|
      ensures LinkAt(s, hs', k)
    {
      assert hs'[k - 1] == hs[k - 1];
      assert k < |hs| ==> hs'[k] == hs[k] && LinkAt(s, hs, k);
    }
  }

  lemma PathPrefix(s: Scene, root: nat, hs: seq<Handle>, h: Handle)
    requires PathOpen(s, root, hs + [h]) && hs != []
    ensures PathOpen(s, root, hs) && OpenedThrough(s, hs[|hs| - 1], h)
    ensures h.current in s.ns.nodes && Remembers(s, h)
  {
    var all := hs + [h];
    assert all[|hs|] == h && all[0] == hs[0] && all[|hs| - 1] == hs[|hs| - 1];
    assert LinkAt(s, all, |hs|);
    forall k | 0 <= k < |hs|
      ensures Remembers(s, hs[k])
    {
      assert all[k] == hs[k];
    }
    forall k | 0 < k < |hs|
      ensures LinkAt(s, hs, k)
    {
      assert LinkAt(s, all, k) && all[k] == hs[k] && all[k - 1] == hs[k - 1];
    }
  }

  /* ---- the effect of copying a path ---- */

  /** Every inode of the path `hs` has moved to an unfrozen block, and every other inode is where
      it was. */
  ghost predicate PathShifted(s: Scene, hs: seq<Handle>, s': Scene, hs': seq<Handle>, rho: map<nat, nat>) {
    && s'.loose == s.loose && |hs'| == |hs| > 0
    && (forall k :: 0 <= k < |hs| ==> hs'[k].current == Rename(rho, hs[k].current) && !s'.FrozenAt(hs'[k].current))
    && (forall i :: i in s.ns.nodes && !OnPath(hs, i) ==> Rename(rho, i) == i && Intact(s, s', i))
    && hs'[|hs| - 1].entries == hs[|hs| - 1].entries && hs'[|hs| - 1].reverse == hs[|hs| - 1].reverse
  }

  /** And the whole name space shows the same. */
  ghost predicate PathMoved(s: Scene, hs: seq<Handle>, s': Scene, hs': seq<Handle>, rho: map<nat, nat>) {
    Moves(s.ns, s'.ns, rho) && PathShifted(s, hs, s', hs', rho)
  }

  /** An open directory whose entries can be saved. */
  ghost predicate DirReady(s: Scene, h: Handle) {
    && h.current in s.ns.nodes && s.ns.nodes[h.current] == DirNode(h.entries)
    && Inverse(h.entries, h.reverse) && EncodableMap(h.entries)
    && StartsAt(s.BytesOf(h.current), h.start)
  }

  ghost predicate Fresh(ns: Namespace, n: nat) {
    n !in ns.nodes && n !in ns.outside
  }

  /** What copying the root does, with `h` and `h'` the root's handle before and after. */
  ghost predicate RootCopied(s: Scene, h: Handle, s': Scene, h': Handle) {
    && s'.loose == s.loose && Fresh(s.ns, h'.current) && !s'.FrozenAt(h'.current)
    && h.current in s.ns.nodes && s'.ns == WithRootAt(s.ns, h.current, h'.current)
    && (forall i :: i in s.ns.nodes && i != h.current ==> Intact(s, s', i))
    && Remembers(s', h') && h'.entries == h.entries && h'.reverse == h.reverse
  }

  lemma RootPathMoved(s: Scene, h: Handle, s': Scene, h': Handle)
    requires IsTree(s.ns, h.current) && RootCopied(s, h, s', h')
    ensures PathMoved(s, [h], s', [h'], MoveOne(s.ns, h.current, h'.current))
    ensures PathOpen(s', h'.current, [h']) && IsTree(s'.ns, h'.current)
  {
    hide Kept, Remembers, Moves, WithRootAt;
    RootMoves(s.ns, h.current, h'.current);
    assert [h][0] == h && [h'][0] == h';
    assert forall i :: i in s.ns.nodes && !OnPath([h], i) ==> i != h.current;
  }

  /** The parent's directory now leads to `n`, a copy of the child at `c` that nobody has adopted
      yet. */
  ghost predicate Redirected(s1: Scene, up: Handle, s3: Scene, up': Handle, c: nat, n: nat) {
    && s3.loose == s1.loose + {n} && n !in s1.loose
    && Fresh(s1.ns, n)
    && up.current in s1.ns.nodes && up.current != c && c in up.reverse
    && s3.FrozenAt(up.current) == s1.FrozenAt(up.current)
    && up'.current == up.current && up'.entries == up.entries[up.reverse[c] := n]
    && up'.reverse == (up.reverse - {c})[n := up.reverse[c]]
    && Remembers(s3, up')
    && s3.ns == s1.ns.(nodes := s1.ns.nodes[up.current := DirNode(up'.entries)])
    && (forall i :: i in s1.ns.nodes && i != up.current ==> Intact(s1, s3, i))
  }

  /** The copy `n` of `c` has taken its place. */
  ghost predicate Settled(s3: Scene, s6: Scene, c: nat, n: nat) {
    && c in s3.ns.nodes && s6.ns == WithRootAt(s3.ns, c, n)
    && s6.loose == s3.loose - {n} && n in s6.ns.nodes && !s6.FrozenAt(n)
    && s6.BytesOf(n) == s3.BytesOf(c) && s6.ns.nodes[n] == s3.ns.nodes[c]
    && (forall i :: i in s3.ns.nodes && i != c ==> Intact(s3, s6, i))
  }

  /** Redirecting the entry first and moving the child afterwards is moving it with its entry. */
  lemma ChildAtInTwo(ns: Namespace, p: nat, name: Name, c: nat, n: nat, x: Node)
    requires c in ns.nodes && p in ns.nodes && p != c && n !in ns.nodes
    requires x == DirNode(EntriesOf(ns.nodes[p])[name := n])
    ensures WithRootAt(ns.(nodes := ns.nodes[p := x]), c, n) == WithChildAt(ns, p, name, c, n)
  {
    SameMap(WithRootAt(ns.(nodes := ns.nodes[p := x]), c, n).nodes, WithChildAt(ns, p, name, c, n).nodes);
  }

  /** The name space after redirecting and settling. */
  lemma ChildTreeMoves(ns1: Namespace, root: nat, up: Handle, c: nat, n: nat, ns6: Namespace)
    requires IsTree(ns1, root) && Fresh(ns1, n) && up.current in ns1.nodes && up.current != c && c in ns1.nodes
    requires ns1.nodes[up.current] == DirNode(up.entries) && Inverse(up.entries, up.reverse) && c in up.reverse
    requires ns6 == WithRootAt(ns1.(nodes := ns1.nodes[up.current := DirNode(up.entries[up.reverse[c] := n])]), c, n)
    ensures Moves(ns1, ns6, MoveOne(ns1, c, n)) && IsTree(ns6, root) && c != root
  {
    var name := up.reverse[c];
    assert Paired(up.entries, up.reverse, name, c);
    ChildMoves(ns1, root, up.current, name, c, n);
    ChildAtInTwo(ns1, up.current, name, c, n, DirNode(up.entries[name := n]));
  }

  function WithLast(hs: seq<Handle>, h: Handle): (r: seq<Handle>)
    requires hs != []
    ensures |r| == |hs|
  {
    hs[|hs| - 1 := h]
  }

  lemma WithLastCurrents(hs: seq<Handle>, h: Handle)
    requires hs != [] && h.current == hs[|hs| - 1].current
    ensures forall k :: 0 <= k < |hs| ==> WithLast(hs, h)[k].current == hs[k].current
  {
  }

  /** The path down to a directory whose entries have changed is open with its new handle. */
  lemma PathRelinked(s1: Scene, s3: Scene, root: nat, hs: seq<Handle>, up': Handle)
    requires PathOpen(s1, root, hs)
    requires forall k :: 0 <= k < |hs| - 1 ==> Kept(s1, s3, hs[k].current)
    requires up'.current == hs[|hs| - 1].current && up'.current in s3.ns.nodes
    requires Remembers(s3, up') && s3.ns.nodes[up'.current].DirNode?
    ensures PathOpen(s3, root, WithLast(hs, up'))
  {
    var hs' := WithLast(hs, up');
    forall k | 0 <= k < |hs'|
      ensures hs'[k].current in s3.ns.nodes && Remembers(s3, hs'[k]) && hs'[k].current == hs[k].current
    {
      assert k < |hs| - 1 ==> Kept(s1, s3, hs[k].current);
    }
    forall k | 0 < k < |hs'|
      ensures LinkAt(s3, hs', k)
    {
      assert LinkAt(s1, hs, k) && Kept(s1, s3, hs[k - 1].current);
    }
  }

  lemma KeptElsewhere(s: Scene, s': Scene, p: nat, i: nat)
    requires forall i :: i in s.ns.nodes && i != p ==> Intact(s, s', i)
    requires i in s.ns.nodes && i != p
    ensures Kept(s, s', i)
  {
    assert Intact(s, s', i);
  }

  lemma PathKeptAbove(s1: Scene, s3: Scene, root: nat, hs: seq<Handle>, k: nat)
    requires IsTree(s1.ns, root) && PathOpen(s1, root, hs) && k < |hs| - 1
    requires forall i :: i in s1.ns.nodes && i != hs[|hs| - 1].current ==> Intact(s1, s3, i)
    ensures Kept(s1, s3, hs[k].current)
  {
    var i := hs[k].current;
    assert i in s1.ns.nodes && i != hs[|hs| - 1].current by {
      PathDistinct(s1, root, hs, k, |hs| - 1);
    }
    KeptElsewhere(s1, s3, hs[|hs| - 1].current, i);
  }

  /** The path down to the parent is open again once its entry has been redirected. */
  lemma RedirectedPath(s1: Scene, root: nat, hs: seq<Handle>, s3: Scene, up': Handle)
    requires IsTree(s1.ns, root) && PathOpen(s1, root, hs)
    requires forall i :: i in s1.ns.nodes && i != hs[|hs| - 1].current ==> Intact(s1, s3, i)
    requires up'.current == hs[|hs| - 1].current && up'.current in s3.ns.nodes
    requires Remembers(s3, up') && s3.ns.nodes[up'.current].DirNode?
    ensures PathOpen(s3, root, WithLast(hs, up'))
  {
    forall k | 0 <= k < |hs| - 1
      ensures Kept(s1, s3, hs[k].current)
    {
      PathKeptAbove(s1, s3, root, hs, k);
    }
    PathRelinked(s1, s3, root, hs, up');
  }

  /** A child that the copying of the path above it has not touched is still open below it. */
  lemma ChildStillOpen(s: Scene, root: nat, hs: seq<Handle>, h: Handle, s1: Scene, root1: nat, hs1: seq<Handle>,
                       r1: map<nat, nat>)
    requires IsTree(s.ns, root) && PathOpen(s, root, hs + [h]) && hs != []
    requires PathMoved(s, hs, s1, hs1, r1) && PathOpen(s1, root1, hs1)
    ensures PathOpen(s1, root1, hs1 + [h]) && Rename(r1, h.current) == h.current && Intact(s, s1, h.current)
  {
    var all := hs + [h];
    assert all[|hs|] == h && all[|hs| - 1] == hs[|hs| - 1];
    forall k | 0 <= k < |hs|
      ensures hs[k].current != h.current
    {
      assert all[k] == hs[k];
      PathDistinct(s, root, all, k, |hs|);
    }
    assert !OnPath(hs, h.current) && h.current in s.ns.nodes;
    assert LinkAt(s, all, |hs|);
    var up1 := hs1[|hs1| - 1];
    assert up1.reverse == hs[|hs| - 1].reverse;
    MovedKind(s.ns, s1.ns, r1, hs[|hs| - 1].current);
    PathExtended(s1, root1, hs1, h);
  }

  /** Once the copy has settled, the child is open below its parent again. */
  lemma SettledPath(s3: Scene, root: nat, hs: seq<Handle>, s6: Scene, c: nat, h': Handle)
    requires PathOpen(s3, root, hs) && h'.current in hs[|hs| - 1].reverse && h'.current in s6.ns.nodes
    requires forall k :: 0 <= k < |hs| ==> hs[k].current != c
    requires forall i :: i in s3.ns.nodes && i != c ==> Intact(s3, s6, i)
    requires Remembers(s6, h') && s3.ns.nodes[hs[|hs| - 1].current].DirNode?
    ensures PathOpen(s6, root, hs + [h'])
  {
    forall k | 0 <= k < |hs|
      ensures Kept(s3, s6, hs[k].current)
    {
      KeptElsewhere(s3, s6, c, hs[k].current);
    }
    PathKept(s3, s6, root, hs);
    PathExtended(s6, root, hs, h');
  }

  lemma ComposedAt(ns1: Namespace, r1: map<nat, nat>, c: nat, n: nat, i: nat)
    requires i in r1 && r1[i] in ns1.nodes
    ensures Rename(Compose(r1, MoveOne(ns1, c, n)), i) == if r1[i] == c then n else r1[i]
  {
  }

  /** One move after another, seen from an inode of the first name space. */
  lemma ChildPosition(ns: Namespace, ns1: Namespace, r1: map<nat, nat>, c: nat, n: nat, i: nat)
    requires Moves(ns, ns1, r1) && i in ns.nodes && c in ns.nodes && Rename(r1, c) == c
    ensures Rename(Compose(r1, MoveOne(ns1, c, n)), i) == if i == c then n else Rename(r1, i)
  {
    MovedKind(ns, ns1, r1, i);
    MovedKind(ns, ns1, r1, c);
    ComposedAt(ns1, r1, c, n, i);
  }

  lemma Untaken(ns: Namespace, ns1: Namespace, r1: map<nat, nat>, i: nat, p: nat)
    requires Moves(ns, ns1, r1) && i in ns.nodes && p in ns.nodes && i != p
    ensures Rename(r1, i) != Rename(r1, p)
  {
    MovedKind(ns, ns1, r1, i);
    MovedKind(ns, ns1, r1, p);
  }

  lemma IntactTrans(s: Scene, s1: Scene, s3: Scene, s6: Scene, p: nat, c: nat, i: nat)
    requires forall j :: j in s1.ns.nodes && j != p ==> Intact(s1, s3, j)
    requires forall j :: j in s3.ns.nodes && j != c ==> Intact(s3, s6, j)
    requires Intact(s, s1, i) && i != p && i != c
    ensures Intact(s, s6, i)
  {
    assert Intact(s1, s3, i);
    assert Intact(s3, s6, i);
  }

  /** An inode that is not on the path. */
  lemma ChildOthers(s: Scene, hs: seq<Handle>, c: nat, s1: Scene, hs1: seq<Handle>, r1: map<nat, nat>, s3: Scene,
                    s6: Scene, i: nat)
    requires PathMoved(s, hs, s1, hs1, r1) && hs[|hs| - 1].current in s.ns.nodes
    requires forall j :: j in s1.ns.nodes && j != hs1[|hs1| - 1].current ==> Intact(s1, s3, j)
    requires forall j :: j in s3.ns.nodes && j != c ==> Intact(s3, s6, j)
    requires i in s.ns.nodes && !OnPath(hs, i) && i != c
    ensures Rename(r1, i) == i && Intact(s, s6, i)
  {
    var p := hs[|hs| - 1].current;
    assert p != i;
    Untaken(s.ns, s1.ns, r1, i, p);
    IntactTrans(s, s1, s3, s6, hs1[|hs1| - 1].current, c, i);
  }

  ghost predicate ChildMoved(s1: Scene, root1: nat, hs1: seq<Handle>, h: Handle, s3: Scene, up': Handle, s6: Scene,
                             h': Handle) {
    && IsTree(s1.ns, root1) && PathOpen(s1, root1, hs1 + [h]) && PathOpen(s1, root1, hs1)
    && Redirected(s1, hs1[|hs1| - 1], s3, up', h.current, h'.current)
    && Settled(s3, s6, h.current, h'.current) && Fresh(s1.ns, h'.current)
    && h' == h.(current := h'.current)
  }

  lemma ChildNotAbove(s1: Scene, root1: nat, hs1: seq<Handle>, h: Handle)
    requires IsTree(s1.ns, root1) && PathOpen(s1, root1, hs1 + [h])
    ensures forall k :: 0 <= k < |hs1| ==> hs1[k].current != h.current
  {
    var all := hs1 + [h];
    forall k | 0 <= k < |hs1|
      ensures hs1[k].current != h.current
    {
      assert all[k] == hs1[k] && all[|hs1|] == h;
      PathDistinct(s1, root1, all, k, |hs1|);
    }
  }

  /** In the end the child is open again below its parent. */
  lemma ChildPathOpen(s1: Scene, root1: nat, hs1: seq<Handle>, h: Handle, s3: Scene, up': Handle, s6: Scene, h': Handle)
    requires ChildMoved(s1, root1, hs1, h, s3, up', s6, h')
    ensures PathOpen(s6, root1, WithLast(hs1, up') + [h'])
  {
    RedirectedPath(s1, root1, hs1, s3, up');
    ChildNotAbove(s1, root1, hs1, h);
    SettledHandle(s1, root1, hs1, h, s3, s6, h');
    ChildBelow(s3, root1, hs1, up', s6, h.current, h');
  }

  lemma ChildBelow(s3: Scene, root1: nat, hs1: seq<Handle>, up': Handle, s6: Scene, c: nat, h': Handle)
    requires hs1 != [] && PathOpen(s3, root1, WithLast(hs1, up')) && up'.current == hs1[|hs1| - 1].current
    requires forall k :: 0 <= k < |hs1| ==> hs1[k].current != c
    requires Settled(s3, s6, c, h'.current) && Remembers(s6, h')
    requires h'.current in up'.reverse && up'.current in s3.ns.nodes && s3.ns.nodes[up'.current].DirNode?
    ensures PathOpen(s6, root1, WithLast(hs1, up') + [h'])
  {
    var hs3 := WithLast(hs1, up');
    WithLastCurrents(hs1, up');
    SettledPath(s3, root1, hs3, s6, c, h');
  }

  lemma SettledHandle(s1: Scene, root1: nat, hs1: seq<Handle>, h: Handle, s3: Scene, s6: Scene, h': Handle)
    requires PathOpen(s1, root1, hs1 + [h]) && hs1 != [] && h.current in s1.ns.nodes
    requires h.current in s3.ns.nodes && h'.current in s6.ns.nodes
    requires s6.ns.nodes[h'.current] == s3.ns.nodes[h.current] && s6.BytesOf(h'.current) == s3.BytesOf(h.current)
    requires Kept(s1, s3, h.current) && h' == h.(current := h'.current)
    ensures Remembers(s6, h')
  {
    assert (hs1 + [h])[|hs1|] == h;
  }

  lemma ChildNamespace(s1: Scene, root1: nat, hs1: seq<Handle>, h: Handle, s3: Scene, up': Handle, s6: Scene,
                       h': Handle)
    requires ChildMoved(s1, root1, hs1, h, s3, up', s6, h')
    ensures Moves(s1.ns, s6.ns, MoveOne(s1.ns, h.current, h'.current))
    ensures IsTree(s6.ns, root1)
  {
    var up := hs1[|hs1| - 1];
    var all := hs1 + [h];
    assert all[|hs1| - 1] == up && all[|hs1|] == h && LinkAt(s1, all, |hs1|);
    ChildTreeMoves(s1.ns, root1, up, h.current, h'.current, s6.ns);
  }

  /** The handles after moving the child as well are where the composed move takes them. */
  lemma ChildPositions(s: Scene, hs: seq<Handle>, h: Handle, s1: Scene, hs1: seq<Handle>, r1: map<nat, nat>,
                       n: nat, k: nat)
    requires PathMoved(s, hs, s1, hs1, r1) && k < |hs| && hs[k].current in s.ns.nodes && h.current in s.ns.nodes
    requires Rename(r1, h.current) == h.current && hs[k].current != h.current
    ensures hs1[k].current == Rename(Compose(r1, MoveOne(s1.ns, h.current, n)), hs[k].current)
  {
    ChildPosition(s.ns, s1.ns, r1, h.current, n, hs[k].current);
  }

  /** Inodes other than `p` stay as they are from `s1` to `s3`, and other than `c` to `s6`. */
  ghost predicate OneByOne(s1: Scene, p: nat, s3: Scene, c: nat, s6: Scene) {
    && (forall j :: j in s1.ns.nodes && j != p ==> Intact(s1, s3, j))
    && (forall j :: j in s3.ns.nodes && j != c ==> Intact(s3, s6, j))
    && p in s3.ns.nodes && s3.FrozenAt(p) == s1.FrozenAt(p)
  }

  lemma ChildUnfrozen(s1: Scene, p: nat, s3: Scene, c: nat, s6: Scene, i: nat)
    requires OneByOne(s1, p, s3, c, s6) && i in s1.ns.nodes && i != c && !s1.FrozenAt(i)
    ensures !s6.FrozenAt(i)
  {
    assert i != p ==> Intact(s1, s3, i);
    assert Intact(s3, s6, i);
  }

  lemma OnLongerPath(hs: seq<Handle>, h: Handle, i: nat)
    requires !OnPath(hs + [h], i)
    ensures !OnPath(hs, i) && i != h.current
  {
    var all := hs + [h];
    assert all[|hs|] == h;
    assert forall k :: 0 <= k < |hs| ==> all[k] == hs[k];
  }

  /** A path with one more inode, from what is known of its two parts. */
  lemma ShiftedBelow(s: Scene, hs: seq<Handle>, h: Handle, s6: Scene, hs1: seq<Handle>, up': Handle, h': Handle,
                     rho: map<nat, nat>)
    requires s6.loose == s.loose && |hs1| == |hs| > 0 && up'.current == hs1[|hs1| - 1].current
    requires forall k :: 0 <= k < |hs| ==> hs1[k].current == Rename(rho, hs[k].current) && !s6.FrozenAt(hs1[k].current)
    requires h'.current == Rename(rho, h.current) && !s6.FrozenAt(h'.current)
    requires forall i :: i in s.ns.nodes && !OnPath(hs, i) && i != h.current ==> Rename(rho, i) == i && Intact(s, s6, i)
    requires h'.entries == h.entries && h'.reverse == h.reverse
    ensures PathShifted(s, hs + [h], s6, WithLast(hs1, up') + [h'], rho)
  {
    var (all, all') := (hs + [h], WithLast(hs1, up') + [h']);
    forall i | i in s.ns.nodes && !OnPath(all, i)
      ensures Rename(rho, i) == i && Intact(s, s6, i)
    {
      OnLongerPath(hs, h, i);
    }
    forall k | 0 <= k < |all|
      ensures all'[k].current == Rename(rho, all[k].current) && !s6.FrozenAt(all'[k].current)
    {
      if k < |hs| {
        assert all[k] == hs[k] && all'[k].current == hs1[k].current;
      }
    }
  }

  lemma ShiftedAbove(s: Scene, hs: seq<Handle>, h: Handle, s1: Scene, hs1: seq<Handle>, r1: map<nat, nat>,
                     s3: Scene, s6: Scene, n: nat, rho: map<nat, nat>)
    requires PathMoved(s, hs, s1, hs1, r1) && h.current in s.ns.nodes && Rename(r1, h.current) == h.current
    requires forall k :: 0 <= k < |hs| ==> hs[k].current in s.ns.nodes && hs[k].current != h.current
    requires forall k :: 0 <= k < |hs1| ==> hs1[k].current in s1.ns.nodes && hs1[k].current != h.current
    requires OneByOne(s1, hs1[|hs1| - 1].current, s3, h.current, s6)
    requires rho == Compose(r1, MoveOne(s1.ns, h.current, n))
    ensures forall k :: 0 <= k < |hs| ==> hs1[k].current == Rename(rho, hs[k].current) && !s6.FrozenAt(hs1[k].current)
  {
    forall k | 0 <= k < |hs|
      ensures hs1[k].current == Rename(rho, hs[k].current) && !s6.FrozenAt(hs1[k].current)
    {
      ChildPositions(s, hs, h, s1, hs1, r1, n, k);
      ChildUnfrozen(s1, hs1[|hs1| - 1].current, s3, h.current, s6, hs1[k].current);
    }
  }

  lemma ShiftedOthers(s: Scene, hs: seq<Handle>, c: nat, s1: Scene, hs1: seq<Handle>, r1: map<nat, nat>, s3: Scene,
                      s6: Scene, n: nat, rho: map<nat, nat>)
    requires PathMoved(s, hs, s1, hs1, r1) && hs[|hs| - 1].current in s.ns.nodes && c in s.ns.nodes
    requires Rename(r1, c) == c
    requires OneByOne(s1, hs1[|hs1| - 1].current, s3, c, s6)
    requires rho == Compose(r1, MoveOne(s1.ns, c, n))
    ensures forall i :: i in s.ns.nodes && !OnPath(hs, i) && i != c ==> Rename(rho, i) == i && Intact(s, s6, i)
    ensures Rename(rho, c) == n
  {
    ChildPosition(s.ns, s1.ns, r1, c, n, c);
    forall i | i in s.ns.nodes && !OnPath(hs, i) && i != c
      ensures Rename(rho, i) == i && Intact(s, s6, i)
    {
      ChildOthers(s, hs, c, s1, hs1, r1, s3, s6, i);
      ChildPosition(s.ns, s1.ns, r1, c, n, i);
    }
  }

  lemma ChildShifted(s: Scene, hs: seq<Handle>, h: Handle, s1: Scene, hs1: seq<Handle>, r1: map<nat, nat>,
                     s3: Scene, up': Handle, s6: Scene, h': Handle, rho: map<nat, nat>)
    requires PathMoved(s, hs, s1, hs1, r1) && h.current in s.ns.nodes && Rename(r1, h.current) == h.current
    requires forall k :: 0 <= k < |hs| ==> hs[k].current in s.ns.nodes && hs[k].current != h.current
    requires forall k :: 0 <= k < |hs1| ==> hs1[k].current in s1.ns.nodes && hs1[k].current != h.current
    requires up'.current == hs1[|hs1| - 1].current && OneByOne(s1, up'.current, s3, h.current, s6)
    requires s6.loose == s.loose && !s6.FrozenAt(h'.current) && h' == h.(current := h'.current)
    requires rho == Compose(r1, MoveOne(s1.ns, h.current, h'.current))
    ensures PathShifted(s, hs + [h], s6, WithLast(hs1, up') + [h'], rho)
  {
    var n := h'.current;
    ShiftedAbove(s, hs, h, s1, hs1, r1, s3, s6, n, rho);
    ShiftedOthers(s, hs, h.current, s1, hs1, r1, s3, s6, n, rho);
    ShiftedBelow(s, hs, h, s6, hs1, up', h', rho);
  }

  lemma ChildOffPath(s: Scene, root: nat, hs: seq<Handle>, h: Handle, s1: Scene, root1: nat, hs1: seq<Handle>,
                     r1: map<nat, nat>)
    requires IsTree(s.ns, root) && PathOpen(s, root, hs) && PathOpen(s, root, hs + [h])
    requires IsTree(s1.ns, root1) && PathOpen(s1, root1, hs1)
    requires PathMoved(s, hs, s1, hs1, r1)
    ensures h.current in s.ns.nodes && Rename(r1, h.current) == h.current
    ensures forall k :: 0 <= k < |hs| ==> hs[k].current in s.ns.nodes && hs[k].current != h.current
    ensures forall k :: 0 <= k < |hs1| ==> hs1[k].current in s1.ns.nodes && hs1[k].current != h.current
  {
    ChildStillOpen(s, root, hs, h, s1, root1, hs1, r1);
    ChildNotAbove(s, root, hs, h);
    ChildNotAbove(s1, root1, hs1, h);
    assert (hs + [h])[|hs|] == h;
  }

  lemma ChildSteps(s: Scene, hs: seq<Handle>, s1: Scene, hs1: seq<Handle>, r1: map<nat, nat>, c: nat, s3: Scene,
                   up': Handle, s6: Scene, n: nat)
    requires PathShifted(s, hs, s1, hs1, r1)
    requires Redirected(s1, hs1[|hs1| - 1], s3, up', c, n) && Settled(s3, s6, c, n)
    ensures up'.current == hs1[|hs1| - 1].current && OneByOne(s1, up'.current, s3, c, s6)
    ensures s6.loose == s.loose && !s6.FrozenAt(n)
  {
  }

  lemma ChildPathShifted(s: Scene, root: nat, hs: seq<Handle>, h: Handle, s1: Scene, root1: nat, hs1: seq<Handle>,
                         r1: map<nat, nat>, s3: Scene, up': Handle, s6: Scene, h': Handle)
    requires IsTree(s.ns, root) && PathOpen(s, root, hs) && PathOpen(s, root, hs + [h])
    requires PathMoved(s, hs, s1, hs1, r1)
    requires ChildMoved(s1, root1, hs1, h, s3, up', s6, h')
    ensures PathShifted(s, hs + [h], s6, WithLast(hs1, up') + [h'], Compose(r1, MoveOne(s1.ns, h.current, h'.current)))
  {
    ChildOffPath(s, root, hs, h, s1, root1, hs1, r1);
    ChildSteps(s, hs, s1, hs1, r1, h.current, s3, up', s6, h'.current);
    ChildShifted(s, hs, h, s1, hs1, r1, s3, up', s6, h', Compose(r1, MoveOne(s1.ns, h.current, h'.current)));
  }

  lemma ChildTreeMoved(s: Scene, root: nat, hs: seq<Handle>, h: Handle, s1: Scene, root1: nat, hs1: seq<Handle>,
                       r1: map<nat, nat>, s3: Scene, up': Handle, s6: Scene, h': Handle)
    requires IsTree(s.ns, root) && Moves(s.ns, s1.ns, r1)
    requires ChildMoved(s1, root1, hs1, h, s3, up', s6, h')
    ensures Moves(s.ns, s6.ns, Compose(r1, MoveOne(s1.ns, h.current, h'.current)))
  {
    ChildNamespace(s1, root1, hs1, h, s3, up', s6, h');
    MovesTrans(s.ns, s1.ns, s6.ns, r1, MoveOne(s1.ns, h.current, h'.current), root);
  }

  /** Copying the path above a child, redirecting its entry and settling the copy is copying the
      whole path. */
  lemma ChildPathMoved(s: Scene, root: nat, hs: seq<Handle>, h: Handle, s1: Scene, root1: nat, hs1: seq<Handle>,
                       r1: map<nat, nat>, s3: Scene, up': Handle, s6: Scene, h': Handle)
    requires IsTree(s.ns, root) && PathOpen(s, root, hs) && PathOpen(s, root, hs + [h])
    requires PathMoved(s, hs, s1, hs1, r1)
    requires ChildMoved(s1, root1, hs1, h, s3, up', s6, h')
    ensures PathMoved(s, hs + [h], s6, WithLast(hs1, up') + [h'], Compose(r1, MoveOne(s1.ns, h.current, h'.current)))
  {
    ChildPathShifted(s, root, hs, h, s1, root1, hs1, r1, s3, up', s6, h');
    ChildTreeMoved(s, root, hs, h, s1, root1, hs1, r1, s3, up', s6, h');
  }

  /* ---- consequences ---- */

  /** After a path has been copied, every path from the new root leads to where the same path led
      from the old root, and shows the same there. */
  lemma PathMovedLocates(s: Scene, root: nat, hs: seq<Handle>, s': Scene, hs': seq<Handle>, rho: map<nat, nat>,
                         path: seq<Name>)
    requires IsTree(s.ns, root) && PathOpen(s, root, hs) && PathMoved(s, hs, s', hs', rho)
    ensures Locate(s'.ns, hs'[0].current, path) == MovedPlace(rho, Locate(s.ns, root, path))
    ensures Locate(s.ns, root, path).At? ==>
              var x := Locate(s.ns, root, path).ino;
              x in s.ns.nodes && rho[x] in s'.ns.nodes && ViewOf(s'.ns.nodes[rho[x]]) == ViewOf(s.ns.nodes[x])
  {
    MovesLocate(s.ns, s'.ns, rho, root, root, path);
    assert root in rho;
  }

  /** The copy of a file has its bytes. */
  lemma MovedFile(s: Scene, root: nat, hs: seq<Handle>, s': Scene, hs': seq<Handle>, rho: map<nat, nat>)
    requires PathOpen(s, root, hs) && PathMoved(s, hs, s', hs', rho)
    ensures var (i, i') := (hs[|hs| - 1].current, hs'[|hs'| - 1].current);
            i in s.ns.nodes && i' in s'.ns.nodes && (s.ns.nodes[i].FileNode? ==> s'.ns.nodes[i'] == s.ns.nodes[i])
  {
    var i := hs[|hs| - 1].current;
    MovedKind(s.ns, s'.ns, rho, i);
    assert MovesNode(s.ns.nodes[i], s'.ns.nodes[rho[i]], rho);
  }

  /** The copy of a directory is a directory. */
  lemma MovedDir(s: Scene, root: nat, hs: seq<Handle>, s': Scene, hs': seq<Handle>, rho: map<nat, nat>)
    requires PathOpen(s, root, hs) && PathMoved(s, hs, s', hs', rho)
    ensures var (i, i') := (hs[|hs| - 1].current, hs'[|hs'| - 1].current);
            i in s.ns.nodes && i' in s'.ns.nodes && s'.ns.nodes[i'].DirNode? == s.ns.nodes[i].DirNode?
  {
    MovedKind(s.ns, s'.ns, rho, hs[|hs| - 1].current);
  }

  /** Changing the bytes of a file leaves the tree, and every open path, as it was. */
  lemma FileRewritten(s: Scene, s': Scene, root: nat, hs: seq<Handle>, i: nat, b: seq<byte>)
    requires IsTree(s.ns, root) && PathOpen(s, root, hs) && i in s.ns.nodes && s.ns.nodes[i].FileNode?
    requires s'.ns == s.ns.(nodes := s.ns.nodes[i := FileNode(b)])
    requires forall j :: j in s.ns.nodes && j != i ==> Intact(s, s', j)
    ensures IsTree(s'.ns, root) && PathOpen(s', root, hs)
  {
    FileRewrittenTree(s.ns, s'.ns, root, i, b);
    forall k | 0 <= k < |hs|
      ensures Remembers(s', hs[k])
    {
      assert hs[k].current != i ==> Intact(s, s', hs[k].current);
    }
    forall k | 0 < k < |hs|
      ensures LinkAt(s', hs, k)
    {
      assert LinkAt(s, hs, k);
      assert Intact(s, s', hs[k - 1].current);
    }
  }

  lemma FileRewrittenTree(ns: Namespace, ns': Namespace, root: nat, i: nat, b: seq<byte>)
    requires IsTree(ns, root) && i in ns.nodes && ns.nodes[i].FileNode?
    requires ns' == ns.(nodes := ns.nodes[i := FileNode(b)])
    ensures IsTree(ns', root)
  {
    assert forall j :: j in ns'.nodes ==> EntriesOf(ns'.nodes[j]) == EntriesOf(ns.nodes[j]);
    forall j, a | j in ns'.nodes && a in EntriesOf(ns'.nodes[j])
      ensures EntryAllowed(ns', root, a, EntriesOf(ns'.nodes[j])[a])
    {
      assert EntryAllowed(ns, root, a, EntriesOf(ns.nodes[j])[a]);
    }
    forall j, k, a, c | EntersTwice(ns', j, k, a, c)
      ensures j == k && a == c
    {
      assert EntersTwice(ns, j, k, a, c);
    }
  }

  /* ---- a new entry ---- */

  ghost predicate EmptyNode(n: Node) {
    n == FileNode([]) || n == DirNode(map[])
  }

  /** A new inode `n` and, in directory `p`, an entry that leads to it. */
  ghost function WithEntry(ns: Namespace, p: nat, m: map<Name, nat>, n: nat, node: Node): Namespace {
    ns.(nodes := ns.nodes[n := node][p := DirNode(m)])
  }

  lemma EntryAddedTree(ns: Namespace, root: nat, p: nat, name: Name, n: nat, node: Node)
    requires IsTree(ns, root) && Fresh(ns, n) && p in ns.nodes && ns.nodes[p].DirNode? && EmptyNode(node)
    requires NulFree(name)
    requires name !in ns.nodes[p].entries
    ensures IsTree(WithEntry(ns, p, ns.nodes[p].entries[name := n], n, node), root)
  {
    var m := ns.nodes[p].entries;
    var ns' := WithEntry(ns, p, m[name := n], n, node);
    forall j, a | j in ns'.nodes && a in EntriesOf(ns'.nodes[j])
      ensures EntryAllowed(ns', root, a, EntriesOf(ns'.nodes[j])[a])
      ensures EntriesOf(ns'.nodes[j])[a] == n <==> j == p && a == name
      ensures j != p || a != name ==>
          j in ns.nodes && a in EntriesOf(ns.nodes[j]) && EntriesOf(ns.nodes[j])[a] == EntriesOf(ns'.nodes[j])[a]
    {
      if j != p || a != name {
        assert EntryAllowed(ns, root, a, EntriesOf(ns.nodes[j])[a]);
      }
    }
    forall j, k, a, b | EntersTwice(ns', j, k, a, b)
      ensures j == k && a == b
    {
      if EntriesOf(ns'.nodes[j])[a] != n {
        assert EntersTwice(ns, j, k, a, b);
      }
    }
  }

  lemma InverseExtended(m: map<Name, nat>, r: map<nat, Name>, name: Name, n: nat)
    requires Inverse(m, r) && name !in m && n !in r
    ensures Inverse(m[name := n], r[n := name])
  {
    var (m', r') := (m[name := n], r[n := name]);
    forall a, i
      ensures Paired(m', r', a, i)
    {
      assert Paired(m, r, a, i) && Paired(m, r, name, i) && Paired(m, r, a, n);
    }
  }

  /** The path to the directory stays open, and the new inode can be opened below it. */
  lemma EntryAddedPath(s: Scene, root: nat, hs: seq<Handle>, s': Scene, up': Handle, name: Name, n: nat, node: Node)
    requires IsTree(s.ns, root) && PathOpen(s, root, hs) && Fresh(s.ns, n) && EmptyNode(node)
    requires var up := hs[|hs| - 1];
             && DirReady(s, up) && name !in up.entries && n !in up.reverse
             && up'.current == up.current && up'.entries == up.entries[name := n]
             && up'.reverse == up.reverse[n := name]
             && s'.ns == WithEntry(s.ns, up.current, up'.entries, n, node)
             && forall j :: j in s.ns.nodes && j != up.current ==> Intact(s, s', j)
    requires StartsAt(s'.BytesOf(up'.current), up'.start)
    ensures PathOpen(s', root, WithLast(hs, up'))
    ensures PathOpen(s', root, WithLast(hs, up') + [Handle(n, 0, map[], map[])])
  {
    var up := hs[|hs| - 1];
    InverseExtended(up.entries, up.reverse, name, n);
    assert s'.ns.nodes[up.current] == DirNode(up'.entries);
    RedirectedPath(s, root, hs, s', up');
    assert forall a, i :: Paired(map[], map[], a, i);
    PathExtended(s', root, WithLast(hs, up'), Handle(n, 0, map[], map[]));
  }
}
