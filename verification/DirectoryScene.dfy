/** The steps of copying a path, on the disk, are the steps on abstract scenes. */
module DirectoryScene {
  import opened Bytes
  import opened DiskState
  import opened Evolution
  import opened BlockSteps
  import opened FileTree
  import opened FileSystem
  import opened Snapshot
  import opened DentryCodec
  import opened DirectoryTree
  import opened Operations
  import opened PathCopy
  import opened PathBudget
  import opened DirectoryView

  ghost function SceneOf(s: State, z: Compression, kept: set<nat>): Scene {
    Scene(NamespaceOf(s, z, kept),
          map i | i in s.live :: Info(BytesAt(s.disk, i), ImageAt(s.disk, i), s.disk.Frozen(i)), s.loose)
  }

  /** The entries of an open directory can be saved. */
  lemma OpenDirReady(s: FileSys, z: Compression, kept: set<nat>, root: nat, h: Handle)
    requires KeptInUse(s, kept) && IsTree(NamespaceOf(s, z, kept), root)
    requires Remembers(SceneOf(s, z, kept), h) && SceneOf(s, z, kept).ns.nodes[h.current].DirNode?
    ensures DirReady(SceneOf(s, z, kept), h)
  {
    hide Consistent, WellFormed, NodeAt, BytesAt;
    InodesInside(s, z, kept);
    SceneDirReady(SceneOf(s, z, kept), root, h, |s.disk.bits|);
  }

  lemma SceneDirReady(s: Scene, root: nat, h: Handle, n: nat)
    requires IsTree(s.ns, root) && Remembers(s, h) && s.ns.nodes[h.current].DirNode?
    requires n <= TWO_64 && forall i :: i in s.ns.nodes || i in s.ns.outside ==> i < n
    ensures DirReady(s, h)
  {
    TreeTargets(s.ns, root, h.current, n);
    assert EntriesOf(s.ns.nodes[h.current]) == h.entries;
  }

  /** No entry leads to a fresh block. */
  lemma FreshNotEntered(s: Scene, root: nat, h: Handle, n: nat)
    requires IsTree(s.ns, root) && DirReady(s, h) && Fresh(s.ns, n)
    ensures n !in h.reverse
  {
    forall i | i in h.reverse
      ensures i != n
    {
      var name := h.reverse[i];
      assert Paired(h.entries, h.reverse, name, i);
      assert name in EntriesOf(s.ns.nodes[h.current]);
      assert EntryAllowed(s.ns, root, name, h.entries[name]);
    }
  }

  lemma InverseUpdated(m: map<Name, nat>, r: map<nat, Name>, c: nat, n: nat)
    requires Inverse(m, r) && c in r && n !in r
    ensures Inverse(m[r[c] := n], (r - {c})[n := r[c]])
  {
    var (m', r') := (m[r[c] := n], (r - {c})[n := r[c]]);
    forall a, i
      ensures Paired(m', r', a, i)
    {
      assert Paired(m, r, a, i) && Paired(m, r, a, c) && Paired(m, r, r[c], i);
    }
  }

  lemma SceneIntact(s: State, s': State, i: nat, z: Compression, kept: set<nat>)
    requires StaysIntact(s, s', i, z)
    ensures Intact(SceneOf(s, z, kept), SceneOf(s', z, kept), i)
  {
  }

  lemma RootSceneFrom(s: State, h: Handle, s6: State, h': Handle, z: Compression, kept: set<nat>)
    requires h.current in s.live
    requires NamespaceOf(s6, z, kept) == WithRootAt(NamespaceOf(s, z, kept), h.current, h'.current)
    requires s6.loose == s.loose && Fresh(NamespaceOf(s, z, kept), h'.current) && !s6.disk.Frozen(h'.current)
    requires forall i :: i in s.live && i != h.current ==> StaysIntact(s, s6, i, z)
    requires h'.current in s6.live && NodeAt(s6.disk, h'.current, z) == DirNode(h.entries)
    requires Inverse(h.entries, h.reverse) && StartsAt(BytesAt(s6.disk, h'.current), h'.start)
    requires h'.entries == h.entries && h'.reverse == h.reverse
    ensures RootCopied(SceneOf(s, z, kept), h, SceneOf(s6, z, kept), h')
  {
    var (v, v') := (SceneOf(s, z, kept), SceneOf(s6, z, kept));
    forall i: nat | i in v.ns.nodes && i != h.current
      ensures Intact(v, v', i)
    {
      SceneIntact(s, s6, i, z, kept);
    }
  }

  /** The inode block records its own number. */
  ghost predicate Numbered(d: Disk, n: nat) {
    n < |d.data| && 16 <= |d.data[n]| && GetWord(d.data[n], 8) == n
  }

  /** The last steps leave the new root's bytes alone, and its block records its number. */
  lemma RootPublished(s: FileSys, c: nat, n: nat, s1: FileSys, s2: FileSys, s3: FileSys, s5: FileSys, s6: FileSys,
                      z: Compression)
    requires RootSteps(s, c, n, s1, s2, s3, s5, s6)
    ensures BytesAt(s6.disk, n) == BytesAt(s3.disk, n) && Numbered(s6.disk, n)
  {
    assert n in s3.live && WellFormed(s3.disk, n);
    hide Consistent, NodeAt, BytesAt, FileStep;
    TailStays(s3, n, s5, c, s6, z);
    GetPutSame(s3.disk.data[n], INO_OFFSET, n);
  }

  lemma SettledNumber(s3: FileSys, c: nat, n: nat, s4: FileSys, s5: FileSys, s6: FileSys)
    requires Settles(s3, c, n, s4, s5, s6)
    ensures Numbered(s6.disk, n)
  {
    assert n in s4.live && WellFormed(s4.disk, n);
    hide Consistent, Evolves;
    GetPutSame(s4.disk.data[n], INO_OFFSET, n);
  }

  /** What was in use when the root's copy was staged is marked in the bitmap that is dumped. */
  lemma UsedWhenDumped(s: FileSys, c: nat, n: nat, s1: FileSys, s2: FileSys, j: nat)
    requires Step(s, Staged(c, n), s1, true) && Step(s1, Adopted(c, n), s2, true) && s.disk.InUse(j)
    ensures |s2.disk.bits| == |s.disk.bits| && s2.disk.bits[j]
  {
    hide Consistent, WellFormed;
    assert EvolvesAt(s.disk, {}, s1.disk, {n}, -1, true, j);
  }

  /** Copying the root, as a change of scene. */
  lemma RootScene(s: FileSys, h: Handle, s1: FileSys, s2: FileSys, s3: FileSys, s5: FileSys, s6: FileSys,
                  h': Handle, z: Compression, kept: set<nat>)
    requires RootSteps(s, h.current, h'.current, s1, s2, s3, s5, s6)
    requires DirReady(SceneOf(s, z, kept), h)
    requires ReadDir(BytesAt(s3.disk, h'.current), z) == h.entries && StartsAt(BytesAt(s3.disk, h'.current), h'.start)
    requires h'.entries == h.entries && h'.reverse == h.reverse
    requires Fresh(NamespaceOf(s, z, kept), h'.current) && !s2.disk.Frozen(h'.current) && s6.loose == s.loose
    ensures RootCopied(SceneOf(s, z, kept), h, SceneOf(s6, z, kept), h')
  {
    var (c, n) := (h.current, h'.current);
    assert NodeAt(s.disk, c, z) == DirNode(h.entries);
    RootAdopted(s, c, n, s1, s2, z, kept);
    FileChangedView(s2, n, s3, z, kept, true);
    assert NodeAt(s3.disk, n, z) == NodeAt(s2.disk, n, z);
    RootSaved(s2, n, s3, s5, c, s6, z, kept);
    RootStepsKeep(s, c, n, s1, s2, s3, s5, s6, z);
    TailStays(s3, n, s5, c, s6, z);
    RootSceneFrom(s, h, s6, h', z, kept);
  }

  /** Redirecting a parent's entry, as a change of scene. */
  lemma RedirectedScene(s1: State, up: Handle, s3: State, up': Handle, c: nat, n: nat, z: Compression, kept: set<nat>)
    requires up.current in s1.live && NodeAt(s1.disk, up.current, z).DirNode?
    requires NamespaceOf(s3, z, kept) == ViewWith(s1, z, kept, up.current, DirNode(up'.entries))
    requires forall i :: i in s1.live && i != up.current ==> StaysIntact(s1, s3, i, z)
    requires s3.loose == s1.loose + {n} && n !in s1.loose && Fresh(NamespaceOf(s1, z, kept), n)
    requires up.current != c && c in up.reverse && s3.disk.Frozen(up.current) == s1.disk.Frozen(up.current)
    requires up'.current == up.current && up'.entries == up.entries[up.reverse[c] := n]
    requires up'.reverse == (up.reverse - {c})[n := up.reverse[c]] && Inverse(up'.entries, up'.reverse)
    requires StartsAt(BytesAt(s3.disk, up.current), up'.start)
    ensures Redirected(SceneOf(s1, z, kept), up, SceneOf(s3, z, kept), up', c, n)
  {
    var (v, v') := (SceneOf(s1, z, kept), SceneOf(s3, z, kept));
    forall i: nat | i in v.ns.nodes && i != up.current
      ensures Intact(v, v', i)
    {
      SceneIntact(s1, s3, i, z, kept);
    }
    assert v'.ns.nodes[up.current] == DirNode(up'.entries);
  }

  lemma SettledSceneFrom(s3: State, s6: State, c: nat, n: nat, z: Compression, kept: set<nat>)
    requires c in s3.live && NamespaceOf(s6, z, kept) == WithRootAt(NamespaceOf(s3, z, kept), c, n)
    requires s6.loose == s3.loose - {n} && n in s6.live && !s6.disk.Frozen(n)
    requires BytesAt(s6.disk, n) == BytesAt(s3.disk, c) && NodeAt(s6.disk, n, z) == NodeAt(s3.disk, c, z)
    requires forall i :: i in s3.live && i != c ==> StaysIntact(s3, s6, i, z)
    ensures Settled(SceneOf(s3, z, kept), SceneOf(s6, z, kept), c, n)
  {
    var (v, v') := (SceneOf(s3, z, kept), SceneOf(s6, z, kept));
    forall i: nat | i in v.ns.nodes && i != c
      ensures Intact(v, v', i)
    {
      SceneIntact(s3, s6, i, z, kept);
    }
  }

  /** Adopting the copy and retiring the child's old block, as a change of scene. */
  lemma SettledScene(s3: FileSys, c: nat, n: nat, s4: FileSys, s5: FileSys, s6: FileSys, z: Compression, kept: set<nat>)
    requires Settles(s3, c, n, s4, s5, s6) && !s3.disk.Frozen(n)
    ensures Settled(SceneOf(s3, z, kept), SceneOf(s6, z, kept), c, n)
  {
    SettledView(s3, c, n, s4, s5, s6, z, kept);
    SettledNode(s3, c, n, s4, s5, s6, z);
    SettledKeeps(s3, c, n, s4, s5, s6, z);
    SettledSceneFrom(s3, s6, c, n, z, kept);
  }

  lemma RelinkedNamespace(s1: FileSys, p: nat, c: nat, n: nat, s2: FileSys, s3: FileSys, z: Compression, kept: set<nat>)
    requires Step(s1, Staged(c, n), s2, true) && FileChanged(s2, p, s3, true) && c != p
    requires p in s1.live && NodeAt(s1.disk, p, z).DirNode?
    ensures NamespaceOf(s3, z, kept) == ViewWith(s1, z, kept, p, DirNode(ReadDir(BytesAt(s3.disk, p), z)))
    ensures s3.loose == s1.loose + {n} && s3.disk.Frozen(p) == s1.disk.Frozen(p)
  {
    LooseStepView(s1, s2, Staged(c, n), z, kept);
    assert Stays(s1, s2, p, z);
    FileChangedView(s2, p, s3, z, kept, true);
  }

  /** Staging a copy of `c` and saving the parent's entries, as a change of scene. */
  lemma RelinkedScene(s1: FileSys, up: Handle, s2: FileSys, s3: FileSys, up': Handle, c: nat, n: nat,
                      z: Compression, kept: set<nat>)
    requires DirReady(SceneOf(s1, z, kept), up) && c in up.reverse && n !in up.reverse && up.current != c
    requires Step(s1, Staged(c, n), s2, true) && FileChanged(s2, up.current, s3, true)
    requires Fresh(NamespaceOf(s1, z, kept), n) && n !in s1.loose
    requires up'.current == up.current && up'.entries == up.entries[up.reverse[c] := n]
    requires up'.reverse == (up.reverse - {c})[n := up.reverse[c]]
    requires ReadDir(BytesAt(s3.disk, up.current), z) == up'.entries
    requires StartsAt(BytesAt(s3.disk, up.current), up'.start)
    ensures Redirected(SceneOf(s1, z, kept), up, SceneOf(s3, z, kept), up', c, n)
  {
    RelinkedNamespace(s1, up.current, c, n, s2, s3, z, kept);
    RelinkedOthers(s1, up.current, c, n, s2, s3, z);
    InverseUpdated(up.entries, up.reverse, c, n);
    RedirectedScene(s1, up, s3, up', c, n, z, kept);
  }

  /** With a child's copy staged, the parent can be rewritten with an entry that leads there. */
  lemma StagedReady(s: FileSys, c: nat, n: nat, s2: FileSys, p: nat, m: map<Name, nat>, name: Name, z: Compression)
    requires Step(s, Staged(c, n), s2, true) && p in s.live && EncodableMap(m) && NulFree(name)
    ensures p in s2.live && s2.disk.Frozen(p) == s.disk.Frozen(p) && BytesAt(s2.disk, p) == BytesAt(s.disk, p)
    ensures EncodableMap(m[name := n])
  {
    hide Consistent, WellFormed, NodeAt, BytesAt;
    assert Stays(s, s2, p, z) by {
      LooseStepView(s, s2, Staged(c, n), z, {});
    }
    assert n < TWO_64 by {
      assert s2.disk.InUse(n);
    }
  }

  lemma SceneNotFrozen(s: State, z: Compression, kept: set<nat>, i: nat)
    requires i in s.live
    ensures SceneOf(s, z, kept).FrozenAt(i) == s.disk.Frozen(i)
    ensures SceneOf(s, z, kept).ImageOf(i) == ImageAt(s.disk, i)
    ensures SceneOf(s, z, kept).BytesOf(i) == BytesAt(s.disk, i)
  {
  }

  /** What is known about a path after it has been copied, in order to move one more inode
      below it. */
  lemma ChildReadyScene(s: Scene, root: nat, hs: seq<Handle>, h: Handle, s1: Scene, root1: nat, hs1: seq<Handle>,
                        rho: map<nat, nat>)
    requires IsTree(s.ns, root) && PathOpen(s, root, hs) && PathOpen(s, root, hs + [h])
    requires PathMoved(s, hs, s1, hs1, rho) && IsTree(s1.ns, root1) && PathOpen(s1, root1, hs1)
    ensures var up := hs1[|hs1| - 1];
            && Remembers(s1, up) && s1.ns.nodes[up.current].DirNode? && !s1.FrozenAt(up.current)
            && h.current in s1.ns.nodes && h.current != up.current && h.current in up.reverse
            && s1.ImageOf(h.current) == s.ImageOf(h.current)
    ensures PathOpen(s1, root1, hs1 + [h])
  {
    ChildStillOpen(s, root, hs, h, s1, root1, hs1, rho);
    ChildNotAbove(s1, root1, hs1, h);
    PathPrefix(s1, root1, hs1, h);
  }

  lemma ChildReady(s: FileSys, root: nat, hs: seq<Handle>, h: Handle, s1: FileSys, root1: nat, hs1: seq<Handle>,
                   rho: map<nat, nat>, z: Compression, kept: set<nat>, d0: Disk)
    requires Mounted(s, z, kept, root, d0) && PathOpen(SceneOf(s, z, kept), root, hs)
    requires PathOpen(SceneOf(s, z, kept), root, hs + [h])
    requires PathMoved(SceneOf(s, z, kept), hs, SceneOf(s1, z, kept), hs1, rho)
    requires Mounted(s1, z, kept, root1, d0) && PathOpen(SceneOf(s1, z, kept), root1, hs1)
    ensures var up := hs1[|hs1| - 1];
            && DirReady(SceneOf(s1, z, kept), up) && EncodableMap(up.entries)
            && StartsAt(BytesAt(s1.disk, up.current), up.start)
            && up.current in s1.live && !s1.disk.Frozen(up.current)
            && h.current in s1.live && h.current != up.current && h.current in up.reverse
            && NulFree(up.reverse[h.current])
            && h.current < |s1.disk.data| && s1.disk.data[h.current] == ImageAt(s.disk, h.current)
    ensures KeptInUse(s1, kept) && PathOpen(SceneOf(s1, z, kept), root1, hs1 + [h])
  {
    hide Consistent, WellFormed, NodeAt, BytesAt, ImageAt, Moves, PathOpen;
    var up := hs1[|hs1| - 1];
    ChildReadyScene(SceneOf(s, z, kept), root, hs, h, SceneOf(s1, z, kept), root1, hs1, rho);
    MountedKept(s1, z, kept, root1, d0);
    OpenDirReady(s1, z, kept, root1, up);
    PathPrefix(SceneOf(s, z, kept), root, hs, h);
    SceneNotFrozen(s, z, kept, h.current);
    SceneNotFrozen(s1, z, kept, h.current);
    LiveImage(s1, h.current);
    assert Paired(up.entries, up.reverse, up.reverse[h.current], h.current);
  }

  /** A staged copy that can take the place of `c`. */
  ghost predicate Adoptable(s: State, c: nat, n: nat) {
    && c in s.live && n in s.loose && s.disk.InUse(n) && n < |s.disk.attr| && s.disk.attr[n].typ == IndexNode
    && c < |s.disk.data| && n < |s.disk.data| && s.disk.data[n] == s.disk.data[c] && !s.disk.Frozen(n)
  }

  lemma RelinkedAdoptable(s1: FileSys, p: nat, c: nat, n: nat, s2: FileSys, s3: FileSys, z: Compression)
    requires Step(s1, Staged(c, n), s2, true) && FileChanged(s2, p, s3, true) && p in s1.live
    requires c != p && !s2.disk.Frozen(n)
    ensures Adoptable(s3, c, n)
  {
    hide Consistent, WellFormed, Evolves, FileStep;
    RelinkedCopy(s1, p, c, n, s2, s3, z);
    assert c in s3.live && n in s3.loose;
  }

  /** Redirecting an entry of an open directory: everything that follows for the scene. */
  lemma EntryRedirected(s1: FileSys, root1: nat, up: Handle, s2: FileSys, s3: FileSys, up': Handle, c: nat, n: nat,
                        z: Compression, kept: set<nat>)
    requires IsTree(NamespaceOf(s1, z, kept), root1) && DirReady(SceneOf(s1, z, kept), up) && KeptInUse(s1, kept)
    requires c in up.reverse && up.current != c && up.current in s1.live
    requires Step(s1, Staged(c, n), s2, true) && FileChanged(s2, up.current, s3, true) && !s1.disk.InUse(n)
    requires !s2.disk.Frozen(n)
    requires up'.current == up.current && up'.entries == up.entries[up.reverse[c] := n]
    requires up'.reverse == (up.reverse - {c})[n := up.reverse[c]]
    requires ReadDir(BytesAt(s3.disk, up.current), z) == up'.entries
    requires StartsAt(BytesAt(s3.disk, up.current), up'.start)
    ensures Redirected(SceneOf(s1, z, kept), up, SceneOf(s3, z, kept), up', c, n) && Adoptable(s3, c, n)
  {
    hide Consistent, WellFormed, NodeAt, BytesAt, Step, FileChanged, IsTree, DirReady, Redirected, Adoptable;
    FreshOutside(s1, z, kept, n);
    FreshNotEntered(SceneOf(s1, z, kept), root1, up, n);
    RelinkedScene(s1, up, s2, s3, up', c, n, z, kept);
    RelinkedAdoptable(s1, up.current, c, n, s2, s3, z);
  }

  lemma MountedTree(s: FileSys, z: Compression, kept: set<nat>, root: nat, d0: Disk)
    requires Mounted(s, z, kept, root, d0)
    ensures IsTree(NamespaceOf(s, z, kept), root)
  {
  }

  lemma MountedAdvances(s: FileSys, z: Compression, kept: set<nat>, root: nat, d0: Disk, s': FileSys, root': nat,
                        cow: bool)
    requires Mounted(s, z, kept, root, d0) && Advances(s, s', d0, cow) && IsTree(NamespaceOf(s', z, kept), root')
    ensures Mounted(s', z, kept, root', d0)
  {
    hide IsTree, Protects, Consistent;
  }

  /** The root alone has been copied. */
  lemma RootCopiedReady(s: FileSys, h: Handle, s': FileSys, h': Handle, z: Compression, kept: set<nat>, d0: Disk)
    requires Mounted(s, z, kept, h.current, d0) && Advances(s, s', d0, true)
    requires RootCopied(SceneOf(s, z, kept), h, SceneOf(s', z, kept), h')
    ensures PathMoved(SceneOf(s, z, kept), [h], SceneOf(s', z, kept), [h'],
                      MoveOne(NamespaceOf(s, z, kept), h.current, h'.current))
    ensures PathOpen(SceneOf(s', z, kept), h'.current, [h']) && Mounted(s', z, kept, h'.current, d0)
  {
    hide IsTree, Protects, Consistent, RootCopied, PathMoved, PathOpen, WellFormed, NodeAt, BytesAt;
    RootPathMoved(SceneOf(s, z, kept), h, SceneOf(s', z, kept), h');
    MountedAdvances(s, z, kept, h.current, d0, s', h'.current, true);
  }

  /** The situation after a child's entry has been redirected and before it has settled. */
  ghost predicate Pending(s: FileSys, root: nat, hs: seq<Handle>, s1: FileSys, root1: nat, hs1: seq<Handle>,
                          r1: map<nat, nat>, s3: FileSys, up': Handle, c: nat, n: nat, z: Compression,
                          kept: set<nat>, d0: Disk) {
    && Mounted(s1, z, kept, root1, d0) && PathMoved(SceneOf(s, z, kept), hs, SceneOf(s1, z, kept), hs1, r1)
    && hs1 != [] && PathOpen(SceneOf(s1, z, kept), root1, hs1)
    && Redirected(SceneOf(s1, z, kept), hs1[|hs1| - 1], SceneOf(s3, z, kept), up', c, n)
    && Adoptable(s3, c, n)
  }

  /** Once the child has settled as well, its whole path has been copied. */
  lemma ChildCopiedReady(s: FileSys, root: nat, hs: seq<Handle>, h: Handle, s1: FileSys, root1: nat,
                         hs1: seq<Handle>, r1: map<nat, nat>, s3: FileSys, up': Handle, n: nat, s4: FileSys,
                         s5: FileSys, s6: FileSys, z: Compression, kept: set<nat>, d0: Disk)
    returns (rho: map<nat, nat>)
    requires Mounted(s, z, kept, root, d0) && PathOpen(SceneOf(s, z, kept), root, hs)
    requires PathOpen(SceneOf(s, z, kept), root, hs + [h])
    requires Pending(s, root, hs, s1, root1, hs1, r1, s3, up', h.current, n, z, kept, d0)
    requires Settles(s3, h.current, n, s4, s5, s6) && Advances(s1, s6, d0, true)
    ensures PathMoved(SceneOf(s, z, kept), hs + [h], SceneOf(s6, z, kept), WithLast(hs1, up') + [h.(current := n)], rho)
    ensures PathOpen(SceneOf(s6, z, kept), root1, WithLast(hs1, up') + [h.(current := n)])
    ensures Mounted(s6, z, kept, root1, d0)
  {
    hide IsTree, Protects, Consistent, PathMoved, PathOpen, Redirected, Settled, Settles, WellFormed, NodeAt,
         BytesAt, SceneOf, NamespaceOf;
    var (v, v1, v3, v6) := (SceneOf(s, z, kept), SceneOf(s1, z, kept), SceneOf(s3, z, kept), SceneOf(s6, z, kept));
    SceneNs(s, z, kept);
    SceneNs(s1, z, kept);
    SceneNs(s6, z, kept);
    ChildReadyScene(v, root, hs, h, v1, root1, hs1, r1);
    SettledScene(s3, h.current, n, s4, s5, s6, z, kept);
    RedirectedFresh(v1, hs1[|hs1| - 1], v3, up', h.current, n);
    var h' := h.(current := n);
    rho := Compose(r1, MoveOne(v1.ns, h.current, n));
    ChildPathMoved(v, root, hs, h, v1, root1, hs1, r1, v3, up', v6, h');
    ChildPathOpen(v1, root1, hs1, h, v3, up', v6, h');
    ChildNamespace(v1, root1, hs1, h, v3, up', v6, h');
    MountedAdvances(s1, z, kept, root1, d0, s6, root1, true);
  }

  lemma WithNewLast(above: seq<Handle>, h: Handle, h': Handle)
    ensures WithLast(above + [h], h') == above + [h']
  {
  }

  lemma SceneNs(s: State, z: Compression, kept: set<nat>)
    ensures SceneOf(s, z, kept).ns == NamespaceOf(s, z, kept)
  {
  }

  lemma RedirectedFresh(s1: Scene, up: Handle, s3: Scene, up': Handle, c: nat, n: nat)
    requires Redirected(s1, up, s3, up', c, n)
    ensures Fresh(s1.ns, n)
  {
  }

  lemma RootReady(s: FileSys, z: Compression, kept: set<nat>, root: nat, d0: Disk, h: Handle)
    requires Mounted(s, z, kept, root, d0) && PathOpen(SceneOf(s, z, kept), root, [h])
    ensures h.current == root && root in s.live && DirReady(SceneOf(s, z, kept), h)
    ensures EncodableMap(h.entries) && KeptInUse(s, kept)
  {
    hide Consistent, WellFormed, NodeAt, BytesAt;
    MountedKept(s, z, kept, root, d0);
    assert [h][0] == h;
    OpenDirReady(s, z, kept, root, h);
  }

  lemma ChildOpen(s: FileSys, z: Compression, kept: set<nat>, root: nat, hs: seq<Handle>, h: Handle)
    requires hs != [] && PathOpen(SceneOf(s, z, kept), root, hs + [h])
    ensures PathOpen(SceneOf(s, z, kept), root, hs) && h.current in s.live
    ensures h.current < |s.disk.data| && ImageAt(s.disk, h.current) == s.disk.data[h.current]
  {
    hide Consistent, WellFormed, NodeAt, BytesAt, ImageAt;
    PathPrefix(SceneOf(s, z, kept), root, hs, h);
    LiveImage(s, h.current);
  }

  lemma PendingAdoptable(s: FileSys, root: nat, hs: seq<Handle>, s1: FileSys, root1: nat, hs1: seq<Handle>,
                         r1: map<nat, nat>, s3: FileSys, up': Handle, c: nat, n: nat, z: Compression,
                         kept: set<nat>, d0: Disk)
    requires Pending(s, root, hs, s1, root1, hs1, r1, s3, up', c, n, z, kept, d0)
    ensures Adoptable(s3, c, n)
  {
  }

  lemma PendingLast(s: FileSys, root: nat, hs: seq<Handle>, s1: FileSys, root1: nat, hs1: seq<Handle>,
                    r1: map<nat, nat>, s3: FileSys, up': Handle, c: nat, n: nat, z: Compression, kept: set<nat>,
                    d0: Disk)
    requires Pending(s, root, hs, s1, root1, hs1, r1, s3, up', c, n, z, kept, d0)
    ensures hs1 != [] && up'.current == hs1[|hs1| - 1].current
  {
    hide Mounted, PathMoved, PathOpen, Consistent;
  }

  lemma StaysFile(s: FileSys, i: nat, s': FileSys, z: Compression, cow: bool)
    requires FileChanged(s, i, s', cow) && NodeAt(s.disk, i, z).FileNode?
    ensures NodeAt(s'.disk, i, z) == FileNode(BytesAt(s'.disk, i))
  {
    SameKind(s.disk.data[i], s'.disk.data[i]);
  }

  /** A write to an open file, after its path has been copied. */
  lemma FileWritten(s: FileSys, root: nat, hs: seq<Handle>, s': FileSys, z: Compression, kept: set<nat>, d0: Disk,
                    cow: bool)
    requires Mounted(s, z, kept, root, d0) && PathOpen(SceneOf(s, z, kept), root, hs) && Advances(s, s', d0, cow)
    requires hs != [] && var i := hs[|hs| - 1].current; FileChanged(s, i, s', cow) && NodeAt(s.disk, i, z).FileNode?
    ensures var i := hs[|hs| - 1].current;
            NamespaceOf(s', z, kept) == ViewWith(s, z, kept, i, FileNode(BytesAt(s'.disk, i)))
    ensures Mounted(s', z, kept, root, d0) && PathOpen(SceneOf(s', z, kept), root, hs)
  {
    hide Consistent, Evolves, FileStep, IsTree, PathOpen, Protects;
    var i := hs[|hs| - 1].current;
    var (v, v') := (SceneOf(s, z, kept), SceneOf(s', z, kept));
    FileChangedView(s, i, s', z, kept, cow);
    StaysFile(s, i, s', z, cow);
    FileChangedKeeps(s, i, s', z, cow);
    forall j | j in v.ns.nodes && j != i
      ensures Intact(v, v', j)
    {
      SceneIntact(s, s', j, z, kept);
    }
    FileRewritten(v, v', root, hs, i, BytesAt(s'.disk, i));
    MountedAdvances(s, z, kept, root, d0, s', root, cow);
  }

  /** Changing one file leaves the inode block of a new one alone. */
  lemma NewInodeKept(s: FileSys, n: nat, stat: seq<byte>, s2: FileSys, p: nat, s': FileSys, cow: bool)
    requires 512 <= s.disk.bs && |stat| == STAT_SIZE && p in s.live && n < |s.disk.bits|
    requires Step(s, Created(n, NewInode(s.disk.bs, stat, n)), s2, true) && FileChanged(s2, p, s', cow)
    ensures n < |s'.disk.data| && Stamped(s'.disk.data[n], stat, n)
  {
    hide FileChanged, Footprint;
    NewInodeStat(s.disk.bs, stat, n);
    CreateTransfers(s.disk, n, NewInode(s.disk.bs, stat, n));
    assert WellFormed(s.disk, p);
    assert n != p;
    hide NewInode, Stamped;
    OtherInodeKept(s2, p, s', cow, n);
  }

  lemma OtherInodeKept(s: FileSys, i: nat, s': FileSys, cow: bool, j: nat)
    requires FileChanged(s, i, s', cow) && j in s.live && j != i
    ensures j < |s.disk.data| == |s'.disk.data| && s'.disk.data[j] == s.disk.data[j]
  {
    var (K, K') := (TreeBlocks(TreeAt(s.disk, i)), TreeBlocks(TreeAt(s'.disk, i)));
    assert WellFormed(s.disk, j) && j in Footprint(s.disk, j);
    assert Footprint(s.disk, i) !! Footprint(s.disk, j);
    hide TreeHeld, TreeOf, TreeBlocks;
    assert EvolvesAt(s.disk, K, s'.disk, K', i, cow, j);
  }

  /** A copied path has no entry point of a snapshot on it. */
  lemma CopiedUnfrozen(v: Scene, hs: seq<Handle>, s1: FileSys, root: nat, hs1: seq<Handle>, rho: map<nat, nat>,
                       z: Compression, kept: set<nat>)
    requires PathMoved(v, hs, SceneOf(s1, z, kept), hs1, rho) && PathOpen(SceneOf(s1, z, kept), root, hs1)
    ensures NoEntryPoint(s1.disk, hs1)
  {
    hide Moves, Consistent, WellFormed, NodeAt, BytesAt;
    forall k | 0 <= k < |hs1|
      ensures NotEntryPoint(s1.disk, hs1[k])
    {
      assert Remembers(SceneOf(s1, z, kept), hs1[k]);
      SceneNotFrozen(s1, z, kept, hs1[k].current);
    }
  }

  /** Changing one file makes no inode on a path an entry point. */
  lemma StatusKept(s: FileSys, root: nat, hs: seq<Handle>, i: nat, s': FileSys, cow: bool, z: Compression,
                   kept: set<nat>)
    requires PathOpen(SceneOf(s, z, kept), root, hs) && FileChanged(s, i, s', cow) && NoEntryPoint(s.disk, hs)
    ensures NoEntryPoint(s'.disk, hs)
  {
    hide Consistent, WellFormed, NodeAt, BytesAt, FileChanged, NotEntryPoint;
    forall k | 0 <= k < |hs|
      ensures NotEntryPoint(s'.disk, hs[k])
    {
      assert Remembers(SceneOf(s, z, kept), hs[k]) && NotEntryPoint(s.disk, hs[k]);
      InodeStatus(s, i, s', cow, hs[k]);
    }
  }

  lemma InodeStatus(s: FileSys, i: nat, s': FileSys, cow: bool, h: Handle)
    requires FileChanged(s, i, s', cow) && h.current in s.live && NotEntryPoint(s.disk, h)
    ensures NotEntryPoint(s'.disk, h)
  {
    var (K, K', j) := (TreeBlocks(TreeAt(s.disk, i)), TreeBlocks(TreeAt(s'.disk, i)), h.current);
    assert WellFormed(s.disk, j) && j in Footprint(s.disk, j);
    assert j != i ==> Footprint(s.disk, i) !! Footprint(s.disk, j);
    assert j !in K;
    hide TreeHeld, TreeOf, TreeBlocks;
    assert EvolvesAt(s.disk, K, s'.disk, K', i, cow, j);
  }

  /** A sweep changes nothing that can be seen. After the first one earlier snapshots still are
      protected; after the second one the frozen state is itself a snapshot that what is mounted
      relies on. */
  lemma SweptMounted(s: FileSys, s': FileSys, share: bool, z: Compression, kept: set<nat>, root: nat, d0: Disk)
    requires Mounted(s, z, kept, root, d0) && s' == s.(disk := Swept(s.disk, share))
    ensures NamespaceOf(s', z, kept) == NamespaceOf(s, z, kept)
    ensures forall i :: i in s.live ==>
        BytesAt(s'.disk, i) == BytesAt(s.disk, i) && NodeAt(s'.disk, i, z) == NodeAt(s.disk, i, z)
    ensures Mounted(s', z, kept, root, if share then s'.disk else d0)
  {
    hide IsTree, Protects;
    MountedKept(s, z, kept, root, d0);
    if share {
      SweptProtects(s, s');
    } else {
      FirstSweepProtects(s, s', d0, false);
    }
    SweptInUse(s, s', share, kept);
    forall i | i in s.live
      ensures BytesAt(s'.disk, i) == BytesAt(s.disk, i) && NodeAt(s'.disk, i, z) == NodeAt(s.disk, i, z)
    {
      SweptNode(s, s', share, i, z);
    }
    SameView(s, s', z, kept);
  }

  lemma SweptState(s: FileSys, share: bool) returns (s': FileSys)
    ensures s' == s.(disk := Swept(s.disk, share))
  {
    SweptKeeps(s, s.(disk := Swept(s.disk, share)), share);
    s' := s.(disk := Swept(s.disk, share));
  }

  lemma SweptInUse(s: FileSys, s': FileSys, share: bool, kept: set<nat>)
    requires s'.disk == Swept(s.disk, share) && KeptInUse(s, kept)
    ensures forall k :: k in kept ==> s'.disk.InUse(k)
  {
    SweptUse(s.disk, share);
  }

  lemma SweptNode(s: FileSys, s': FileSys, share: bool, i: nat, z: Compression)
    requires s'.disk == Swept(s.disk, share) && i in s.live
    ensures BytesAt(s'.disk, i) == BytesAt(s.disk, i) && NodeAt(s'.disk, i, z) == NodeAt(s.disk, i, z)
  {
    assert WellFormed(s.disk, i);
    SweptFile(s.disk, s'.disk, i, share);
  }

  /** Open paths stay open when everything that can be seen of their inodes stays the same. */
  lemma SweptPath(s: State, s': State, z: Compression, kept: set<nat>, root: nat, hs: seq<Handle>)
    requires PathOpen(SceneOf(s, z, kept), root, hs) && s'.live == s.live
    requires NamespaceOf(s', z, kept) == NamespaceOf(s, z, kept)
    requires forall i :: i in s.live ==> BytesAt(s'.disk, i) == BytesAt(s.disk, i)
    ensures PathOpen(SceneOf(s', z, kept), root, hs)
  {
    hide BytesAt, NodeAt;
    var (v, v') := (SceneOf(s, z, kept), SceneOf(s', z, kept));
    forall k | 0 < k < |hs|
      ensures LinkAt(v', hs, k)
    {
      assert LinkAt(v, hs, k);
    }
  }

  lemma UpdatedNode(s1: State, s': State, i: nat, z: Compression, kept: set<nat>)
    requires NamespaceOf(s', z, kept) == ViewWith(s1, z, kept, i, FileNode(BytesAt(s'.disk, i)))
    ensures NodeAt(s'.disk, i, z).FileNode?
  {
    hide BytesAt, WellFormed, NodeAt;
    assert i in NamespaceOf(s', z, kept).nodes && NamespaceOf(s', z, kept).nodes[i] == NodeAt(s'.disk, i, z);
  }

  /* ---- creating an inode ---- */

  lemma CreatedKeeps(s: FileSys, n: nat, img: Block, s': FileSys, z: Compression)
    requires 512 <= |img|
    requires Step(s, Created(n, img), s', true)
    ensures forall i :: i in s.live ==> StaysIntact(s, s', i, z)
    ensures n in s'.live && !s'.disk.Frozen(n)
    ensures NodeAt(s'.disk, n, z) == (if IsDir(img) then DirNode(map[]) else FileNode([]))
    ensures BytesAt(s'.disk, n) == []
  {
    CreateWellFormed(s, n, img, s', true);
    CreateTransfers(s.disk, n, img);
    LooseStepKeeps(s, {}, s'.disk, {n});
    forall i | i in s.live
      ensures StaysIntact(s, s', i, z)
    {
      KeptAt(s, s', i, z);
    }
  }

  lemma TwoChanged(s: State, s': State, p: nat, n: nat, z: Compression, kept: set<nat>)
    requires p in s.live && n !in s.live && s'.live == s.live + {n}
    requires forall i :: i in s.live && i != p ==> NodeAt(s'.disk, i, z) == NodeAt(s.disk, i, z)
    requires NodeAt(s'.disk, p, z).DirNode?
    ensures NamespaceOf(s', z, kept)
        == WithEntry(NamespaceOf(s, z, kept), p, NodeAt(s'.disk, p, z).entries, n, NodeAt(s'.disk, n, z))
  {
    hide NodeAt;
    SameMap(WithEntry(NamespaceOf(s, z, kept), p, NodeAt(s'.disk, p, z).entries, n, NodeAt(s'.disk, n, z)).nodes,
            NamespaceOf(s', z, kept).nodes);
  }

  /** A new inode has been created and an entry for it saved. */
  lemma EntrySaved(s1: FileSys, p: nat, n: nat, img: Block, s2: FileSys, s3: FileSys, z: Compression, cow: bool)
    requires 512 <= |img|
    requires Step(s1, Created(n, img), s2, true) && FileChanged(s2, p, s3, cow) && p in s1.live
    requires NodeAt(s1.disk, p, z).DirNode?
    ensures s3.live == s1.live + {n} && n !in s1.live
    ensures forall i :: i in s1.live && i != p ==> StaysIntact(s1, s3, i, z)
    ensures NodeAt(s3.disk, p, z) == DirNode(ReadDir(BytesAt(s3.disk, p), z))
    ensures NodeAt(s3.disk, n, z) == (if IsDir(img) then DirNode(map[]) else FileNode([])) && BytesAt(s3.disk, n) == []
  {
    CreatedOutside(s1, n, img, s2);
    hide Consistent, WellFormed, BytesAt, FileStep, Evolves;
    CreatedKeeps(s1, n, img, s2, z);
    assert StaysIntact(s1, s2, p, z);
    FileChangedKeeps(s2, p, s3, z, cow);
    assert StaysIntact(s2, s3, n, z);
    ChangedDir(s2, p, s3, z, cow);
  }

  lemma CreatedOutside(s: FileSys, n: nat, img: Block, s': FileSys)
    requires Step(s, Created(n, img), s', true)
    ensures n !in s.live && !s.disk.InUse(n)
  {
    CreateTransfers(s.disk, n, img);
    assert n in s.live ==> !WellFormed(s.disk, n);
  }

  lemma ChangedDir(s: FileSys, p: nat, s': FileSys, z: Compression, cow: bool)
    requires FileChanged(s, p, s', cow) && NodeAt(s.disk, p, z).DirNode?
    ensures NodeAt(s'.disk, p, z) == DirNode(ReadDir(BytesAt(s'.disk, p), z))
  {
    SameKind(s.disk.data[p], s'.disk.data[p]);
  }

  /** The same, as a change of scene. */
  lemma EntrySavedScene(s1: FileSys, root: nat, up: Handle, s2: FileSys, s3: FileSys, up': Handle, name: Name,
                        n: nat, img: Block, z: Compression, kept: set<nat>, cow: bool)
    requires 512 <= |img|
    requires KeptInUse(s1, kept) && IsTree(NamespaceOf(s1, z, kept), root) && DirReady(SceneOf(s1, z, kept), up)
    requires up'.current == up.current && up'.entries == up.entries[name := n]
    requires Step(s1, Created(n, img), s2, true) && FileChanged(s2, up.current, s3, cow)
    requires ReadDir(BytesAt(s3.disk, up.current), z) == up'.entries
    requires StartsAt(BytesAt(s3.disk, up.current), up'.start)
    ensures var (v1, v3) := (SceneOf(s1, z, kept), SceneOf(s3, z, kept));
            && Fresh(v1.ns, n) && n !in up.reverse && StartsAt(v3.BytesOf(up.current), up'.start)
            && v3.ns == WithEntry(v1.ns, up.current, up'.entries, n,
                                  if IsDir(img) then DirNode(map[]) else FileNode([]))
            && forall j :: j in v1.ns.nodes && j != up.current ==> Intact(v1, v3, j)
  {
    var (v1, v3) := (SceneOf(s1, z, kept), SceneOf(s3, z, kept));
    hide Consistent, WellFormed, NodeAt, BytesAt, Step, FileChanged, IsTree, IsDir;
    CreatedOutside(s1, n, img, s2);
    FreshOutside(s1, z, kept, n);
    FreshNotEntered(v1, root, up, n);
    EntrySaved(s1, up.current, n, img, s2, s3, z, cow);
    TwoChanged(s1, s3, up.current, n, z, kept);
    forall j | j in v1.ns.nodes && j != up.current
      ensures Intact(v1, v3, j)
    {
      SceneIntact(s1, s3, j, z, kept);
    }
    SceneNotFrozen(s3, z, kept, up.current);
  }

  /** The same, for open paths. */
  lemma EntryAddedScene(s1: FileSys, root: nat, hs: seq<Handle>, s2: FileSys, s3: FileSys, up': Handle, name: Name,
                        n: nat, img: Block, z: Compression, kept: set<nat>, d0: Disk, cow: bool)
    requires 512 <= |img|
    requires Mounted(s1, z, kept, root, d0) && hs != [] && PathOpen(SceneOf(s1, z, kept), root, hs)
    requires Advances(s1, s3, d0, cow)
    requires var up := hs[|hs| - 1];
             && DirReady(SceneOf(s1, z, kept), up) && name !in up.entries && NulFree(name)
             && up'.current == up.current && up'.entries == up.entries[name := n]
             && up'.reverse == up.reverse[n := name]
             && Step(s1, Created(n, img), s2, true) && FileChanged(s2, up.current, s3, cow)
             && ReadDir(BytesAt(s3.disk, up.current), z) == up'.entries
             && StartsAt(BytesAt(s3.disk, up.current), up'.start)
    ensures NamespaceOf(s3, z, kept) ==
              WithEntry(NamespaceOf(s1, z, kept), hs[|hs| - 1].current, up'.entries, n,
                        if IsDir(img) then DirNode(map[]) else FileNode([]))
    ensures Mounted(s3, z, kept, root, d0) && PathOpen(SceneOf(s3, z, kept), root, WithLast(hs, up'))
    ensures PathOpen(SceneOf(s3, z, kept), root, WithLast(hs, up') + [Handle(n, 0, map[], map[])])
  {
    var (v1, v3, up) := (SceneOf(s1, z, kept), SceneOf(s3, z, kept), hs[|hs| - 1]);
    var node := if IsDir(img) then DirNode(map[]) else FileNode([]);
    hide Consistent, WellFormed, NodeAt, BytesAt, Step, FileChanged, PathOpen, IsTree, Protects, Advances, IsDir,
         DirReady, Inverse;
    SceneNs(s1, z, kept);
    SceneNs(s3, z, kept);
    MountedKept(s1, z, kept, root, d0);
    EntrySavedScene(s1, root, up, s2, s3, up', name, n, img, z, kept, cow);
    hide SceneOf, NamespaceOf;
    DirReadyNode(v1, up);
    EntryAddedTree(v1.ns, root, up.current, name, n, node);
    EntryAddedPath(v1, root, hs, v3, up', name, n, node);
    MountedAdvances(s1, z, kept, root, d0, s3, root, cow);
  }

  lemma DirReadyNode(s: Scene, h: Handle)
    requires DirReady(s, h)
    ensures h.current in s.ns.nodes && s.ns.nodes[h.current] == DirNode(h.entries)
  {
  }

  lemma CreatedReady(s: FileSys, n: nat, img: Block, s2: FileSys, p: nat, m: map<Name, nat>, name: Name, z: Compression)
    requires 512 <= |img| && Step(s, Created(n, img), s2, true) && p in s.live && EncodableMap(m) && NulFree(name)
    ensures p in s2.live && s2.disk.Frozen(p) == s.disk.Frozen(p) && BytesAt(s2.disk, p) == BytesAt(s.disk, p)
    ensures EncodableMap(m[name := n])
  {
    hide Consistent, WellFormed, BytesAt;
    assert StaysIntact(s, s2, p, z) by {
      CreatedKeeps(s, n, img, s2, z);
    }
    assert n < TWO_64 by {
      CreateTransfers(s.disk, n, img);
    }
  }
}
