/** A freshly formatted volume is a file system: consistent, accounted for, and with a root that can
    be opened. Every run in this project can start from one. */
module Formatting {
  import opened Bytes
  import opened DiskState
  import opened FileTree
  import opened FileSystem
  import opened Accounting
  import opened Volume
  import opened DentryCodec
  import opened DirectoryTree
  import opened DirectoryView
  import opened DirectoryScene
  import opened PathCopy
  import opened Budget
  import opened PathBudget
  import opened Directory

  /** The stat record of an empty directory. */
  predicate EmptyDirStat(stat: seq<byte>) {
    |stat| == STAT_SIZE && GetWord(stat, SIZE_OFFSET) == 0 && stat[MODE_OFFSET + 1] / 16 == 4
  }

  predicate Formattable(bs: nat, attrs: seq<Attr>, blocks: seq<Block>) {
    && BlockSize(bs) && 0 < |blocks| == |attrs| <= TWO_64
    && forall i :: 0 <= i < |blocks| ==> |blocks[i]| == bs
  }

  lemma RootImage(block: Block, stat: seq<byte>)
    requires 512 <= |block| && EmptyDirStat(stat)
    ensures SizeOf(Put(block, 0, stat)) == 0 && IsDir(Put(block, 0, stat))
  {
    PutPrefix(block, stat, SIZE_OFFSET, SIZE_OFFSET + WORD);
    assert Put(block, 0, stat)[MODE_OFFSET + 1] == stat[MODE_OFFSET + 1];
  }

  lemma FormattedRoot(bs: nat, attrs: seq<Attr>, blocks: seq<Block>, stat: seq<byte>)
    requires Formattable(bs, attrs, blocks) && EmptyDirStat(stat)
    ensures var d := Formatted(bs, attrs, blocks, stat);
            && d.Shape() && WellFormed(d, 0) && TreeAt(d, 0) == Tree([], [], []) && Content(d, 0) == []
            && IsDir(d.data[0])
            && UsedSet(d) == {0} && (forall j: nat :: d.InUse(j) <==> j == 0) && d.attr[0] == INODE_ATTR
  {
    var d := Formatted(bs, attrs, blocks, stat);
    RootImage(blocks[0], stat);
    assert Describe(bs, 0) == Descriptor(0, 0, 0);
    assert TreeOf(d, d.data[0]) == Tree([], [], []);
  }

  /** Formatting yields a consistent file system with an empty root directory and an exact count. */
  lemma FormattedConsistent(bs: nat, attrs: seq<Attr>, blocks: seq<Block>, stat: seq<byte>) returns (s: FileSys)
    requires Formattable(bs, attrs, blocks) && EmptyDirStat(stat)
    ensures s == State(Formatted(bs, attrs, blocks, stat), {0}, {})
    ensures Content(s.disk, 0) == [] && IsDir(s.disk.data[0])
    ensures Accounted(s.disk) && GuardedAll(s) && ShortBy(s, 0)
    ensures Blank(s.disk, blocks, stat)
  {
    var d := Formatted(bs, attrs, blocks, stat);
    FormattedRoot(bs, attrs, blocks, stat);
    s := State(d, {0}, {});
    assert Inodes(d) == {0};
  }

  /** Only block 0 is allocated, as an inode that starts with this stat record; all else is as it was. */
  ghost predicate Blank(d: Disk, blocks: seq<Block>, stat: seq<byte>) {
    && |d.bits| == |d.attr| == |d.data| == |blocks| > 0
    && (forall j: nat :: j < |d.bits| ==> (d.bits[j] <==> j == 0))
    && d.attr[0] == Attr(Available, IndexNode, Redundancy, 0, 1)
    && |stat| <= |blocks[0]| == |d.data[0]| && d.data[0][..|stat|] == stat && d.data[0][|stat|..] == blocks[0][|stat|..]
    && d.data[1..] == blocks[1..] && d.last == 0 && d.used == 1
  }

  /** Nothing is protected yet. */
  function Unprotected(d: Disk): Disk {
    d.(bits := seq(|d.bits|, _ => false))
  }

  lemma FormattedMounted(s: FileSys, z: Compression)
    requires s.live == {0} && s.loose == {} && NodeAt(s.disk, 0, z) == DirNode(map[])
    ensures Mounted(s, z, {}, 0, Unprotected(s.disk))
  {
    var ns := NamespaceOf(s, z, {});
    assert ns.nodes == map[0 := DirNode(map[])];
    assert IsTree(ns, 0);
  }

  lemma EmptyRootOpen(s: FileSys, z: Compression)
    requires s.live == {0} && NodeAt(s.disk, 0, z) == DirNode(map[]) && BytesAt(s.disk, 0) == []
    ensures PathOpen(SceneOf(s, z, {}), 0, [Handle(0, 0, map[], map[])])
  {
  }

  /** Format a volume and open its root. */
  method MakeFileSystem(bs: nat, noCow: bool, attrs: seq<Attr>, blocks: seq<Block>, stat: seq<byte>,
                        z: Compression, reserved: nat)
    returns (root: Inode, ghost s: FileSys)
    requires Formattable(bs, attrs, blocks) && EmptyDirStat(stat) && z.RoundTrips()
    ensures fresh(root) && fresh(root.volume.Repr()) && fresh(root.header) && root.volume.noCow == noCow
    ensures s == State(Formatted(bs, attrs, blocks, stat), {0}, {}) && ShortBy(s, 0)
    ensures root.Ready(s, {}, Unprotected(s.disk)) && root.current == 0
    ensures NamespaceOf(s, z, {}) == Namespace(map[0 := DirNode(map[])], {})
    ensures Blank(s.disk, blocks, stat) && |Busy(s.disk)| == 1
    ensures root.dentries == map[] && root.Here() == Setting(bs, |blocks|, z, reserved)
    ensures root.Memory() == [Handle(0, 0, map[], map[])]
  {
    s := FormattedConsistent(bs, attrs, blocks, stat);
    EmptyRootNode(s, z);
    FormattedMounted(s, z);
    EmptyRootOpen(s, z);
    assert Busy(s.disk) == {0};
    hide Consistent, ShortBy, Mounted, PathOpen, SceneOf, Formatted, Busy;
    var volume := new Volume.Format(bs, noCow, attrs, blocks, stat);
    var header := new Header(0);
    root := new Inode(volume, header, null, 0, map[], 0, map[], z, reserved);
    assert root.Memory() == [Handle(0, 0, map[], map[])];
  }

  lemma EmptyRootNode(s: FileSys, z: Compression)
    requires s.live == {0} && Content(s.disk, 0) == [] && IsDir(s.disk.data[0])
    ensures NodeAt(s.disk, 0, z) == DirNode(map[]) && BytesAt(s.disk, 0) == []
    ensures NamespaceOf(s, z, {}) == Namespace(map[0 := DirNode(map[])], {})
  {
    assert NamespaceOf(s, z, {}).nodes == map[0 := DirNode(map[])];
  }

  /** How large the root gets at most with one entry. */
  ghost function FirstSize(v: Setting, name: Name): nat {
    SavedSize(v.z, RootStart(v), {name})
  }

  /** On a freshly formatted volume with so many blocks, creating an inode in the root succeeds. */
  method MakeFirstInode(bs: nat, attrs: seq<Attr>, blocks: seq<Block>, rootStat: seq<byte>, z: Compression,
                        reserved: nat, name: Name, stat: seq<byte>) returns (child: Inode?, ghost s': FileSys)
    requires Formattable(bs, attrs, blocks) && EmptyDirStat(rootStat) && z.RoundTrips()
    requires NulFree(name) && |stat| == STAT_SIZE && GetWord(stat, SIZE_OFFSET) == 0
    requires var v := Setting(bs, |blocks|, z, reserved);
             && Storable(bs, SavedSize(z, RootStart(v), {})) && Storable(bs, FirstSize(v, name))
             && 3 + 7 * Pass(bs, SavedSize(z, RootStart(v), {})) + 4 * Pass(bs, FirstSize(v, name)) <= |blocks|
    ensures child != null && child.volume.Valid() && child.volume.State() == s'.disk
    ensures IsStamped(s'.disk, stat, child.current)
  {
    hide Mounted, Consistent, NodeAt, PathOpen;
    ghost var v := Setting(bs, |blocks|, z, reserved);
    hide Pass, Capacity, NamesLength, Within, Blank;
    var root;
    ghost var s;
    root, s := MakeFileSystem(bs, false, attrs, blocks, rootStat, z, reserved);
    ghost var rho, s1, hs1;
    RootCost(v, Handle(0, 0, map[], map[]));
    assert root.dentries.Keys + {name} == {name};
    assert Handle(0, 0, map[], map[]).entries.Keys == {};
    FirstFits(s, blocks, rootStat);
    hide NoEntryPoint, PathCost, PathFits;
    child, rho, s1, hs1, s' := root.MakeInode(name, stat, s, {}, Unprotected(s.disk));
  }

  lemma FirstFits(s: FileSys, blocks: seq<Block>, stat: seq<byte>)
    requires Blank(s.disk, blocks, stat)
    ensures NoEntryPoint(s.disk, [Handle(0, 0, map[], map[])])
  {
  }
}
