/** Open inodes and copy-on-write of whole paths: a change to an inode first moves it, and every
    directory above it, to fresh blocks, and publishes the new root. */
module Directory {
  import opened Wrappers
  import opened Bytes
  import opened DiskState
  import opened FileTree
  import opened FileContent
  import opened FileSystem
  import opened Snapshot
  import opened Volume
  import opened DentryCodec
  import opened DirectoryTree
  import opened Operations
  import opened Arithmetic
  import opened Budget
  import opened PathBudget
  import opened DirectoryFile
  import opened DirectoryView
  import opened DirectoryScene
  import opened PathCopy
  import opened History
  import opened Modes

  /** The part of the volume header that names the root inode. */
  class Header {
    var root: nat

    constructor (root: nat)
      ensures this.root == root
    {
      this.root := root;
    }
  }

  /** The copy `n` of the live inode `c` takes its place. */
  lemma Adopt(s: FileSys, c: nat, n: nat, d0: Disk) returns (s': FileSys)
    requires c in s.live && n in s.loose && s.disk.InUse(n) && s.disk.attr[n].typ == IndexNode
    requires c < |s.disk.data| && s.disk.data[n] == s.disk.data[c]
    ensures Step(s, Adopted(c, n), s', true) && Advances(s, s', d0, true)
  {
    assert WellFormed(s.disk, c);
    s' := StepAdvances(s, Adopted(c, n), State(s.disk, s.live - {c} + {n}, s.loose - {n} + {c}), d0, true);
  }

  /** An open inode, with the open directory that it was reached through. */
  class Inode {
    const volume: Volume
    const header: Header
    const parent: Inode?
    const z: Compression
    /** Size of the placeholder that the root keeps in front of its entries. */
    const reserved: nat
    ghost const depth: nat
    ghost const family: set<Inode>

    var current: nat
    var dentryStart: nat
    var dentries: map<Name, nat>
    var reverse: map<nat, Name>

    /** `family` is this inode and all the directories above it. */
    ghost predicate Chain()
      decreases depth
    {
      && this in family && z.RoundTrips() && BlockSize(volume.blockSize)
      && (parent == null ==> family == {this})
      && (parent != null ==>
            && parent.depth < depth && this !in parent.family && family == {this} + parent.family
            && parent.volume == volume && parent.header == header && parent.z == z && parent.reserved == reserved
            && parent.Chain())
    }

    ghost function Mem(): Handle
      reads this
    {
      Handle(current, dentryStart, dentries, reverse)
    }

    /** What is kept in memory about the inodes from the root down to this one. */
    ghost function Memory(): (hs: seq<Handle>)
      requires Chain()
      reads family
      ensures hs != [] && hs[|hs| - 1] == Mem()
      decreases depth
    {
      (if parent == null then [] else parent.Memory()) + [Mem()]
    }

    ghost function Here(): Setting {
      Setting(volume.blockSize, volume.Blocks(), z, reserved)
    }

    /** How many blocks copying this path takes at most. */
    ghost function CopyCost(): nat
      requires Chain()
      reads family
    {
      if volume.noCow then 0 else PathCost(Here(), Memory())
    }

    /** With so many blocks to spare, this path can be copied: no inode on it is the entry point of a
        snapshot, and the directories fit into their inodes. */
    ghost predicate CopyFits(d: Disk)
      requires Chain()
      reads family
    {
      volume.noCow || (PathFits(Here(), Memory()) && NoEntryPoint(d, Memory()))
    }

    /** The same for an entry of this directory. */
    ghost function ChildCost(h: Handle): nat
      requires Chain()
      reads family
    {
      PathCost(Here(), Memory() + [h])
    }

    ghost predicate ChildFits(h: Handle, d: Disk)
      requires Chain()
      reads family
    {
      PathFits(Here(), Memory() + [h]) && NoEntryPoint(d, Memory())
    }

    /** The situation in which an open inode may be changed. */
    ghost predicate Ready(s: FileSys, kept: set<nat>, d0: Disk)
      reads volume.Repr(), family, header
    {
      && volume.Valid() && volume.State() == s.disk && Chain()
      && Mounted(s, z, kept, header.root, d0) && PathOpen(SceneOf(s, z, kept), header.root, Memory())
    }

    /** Refer to the inode `index`, the root or an entry of `parent`, with what has been read of it. */
    constructor (volume: Volume, header: Header, parent: Inode?, index: nat, m: map<Name, nat>, start: nat,
                 r: map<nat, Name>, z: Compression, reserved: nat)
      requires z.RoundTrips() && BlockSize(volume.blockSize)
      requires parent != null ==>
                 && parent.volume == volume && parent.header == header && parent.z == z
                 && parent.reserved == reserved && parent.Chain()
      ensures Chain() && Mem() == Handle(index, start, m, r) && fresh(this)
      ensures this.volume == volume && this.header == header && this.parent == parent && this.z == z
      ensures this.reserved == reserved
    {
      this.volume, this.header, this.parent, this.z, this.reserved := volume, header, parent, z, reserved;
      depth := if parent == null then 0 else parent.depth + 1;
      family := if parent == null then {this} else {this} + parent.family;
      current, dentryStart, dentries, reverse := index, start, m, r;
    }

    /** What the root keeps in front of its entries: the allocation bitmap and its inode block. */
    method DumpMetadata(n: nat) returns (bytes: seq<byte>)
      requires volume.Valid() && n < volume.Blocks()
      ensures Dumps(bytes, volume.State().bits, volume.State().data[n])
    {
      var bits := volume.bitmap.mirror1;
      bytes := seq(bits.Length, i requires 0 <= i < bits.Length reads bits => bits[i] as byte) + volume.data[n];
      assert forall k :: 0 <= k < bits.Length ==> bytes[k] == bits[k] as byte;
      forall i: nat | i < volume.Blocks()
        ensures BitAt(bytes, i) == volume.State().bits[i]
      {
        CellOf(8, volume.Blocks(), i);
        PackedBit(bits[..], bytes, i);
      }
    }

    /** Write the root's metadata. Returns where its entries are to start. */
    method SaveMetadata(n: nat, ghost s: FileSys, ghost d0: Disk) returns (ok: bool, start: nat, ghost s': FileSys)
      requires Writable(volume, s, n) && !volume.noCow && z.RoundTrips() && n < volume.Blocks()
      modifies volume.Repr()
      ensures volume.Valid() && volume.State() == s'.disk && Advances(s, s', d0, true)
      ensures ok ==> FileChanged(s, n, s', true) && Writable(volume, s', n) && StartsAt(BytesAt(s'.disk, n), start)
      ensures ok ==> MetadataAt(BytesAt(s'.disk, n), start, reserved, z, s.disk.bits, s.disk.data[n])
      ensures 0 < start <= RootStart(Here()) && (ok ==> |BytesAt(s'.disk, n)| == start)
      ensures var limit := RootStart(Here());
              Within(s.disk, s'.disk, 3 * Pass(s.disk.bs, limit), Storable(s.disk.bs, limit), ok)
    {
      hide FileChanged, Advances, BytesAt, Protects, Consistent, Within, Pass, Capacity, Dumps, MetadataAt;
      var metadata := DumpMetadata(n);
      DumpLength(metadata, s.disk.bits, s.disk.data[n]);
      var packed := z.pack(metadata);
      assert 0 < |packed| <= z.bound(|metadata|);
      ok, start, s' := false, |packed| + WORD + reserved, s;
      ghost var limit := RootStart(Here());
      AdvancesRefl(s, d0, true);
      NothingWithin(s.disk, 3 * Pass(s.disk.bs, limit));
      if start < TWO_64 {
        ok, s' := WriteRootPrefix(volume, n, start, packed, s, d0);
        PassMonotone(s.disk.bs, start, limit);
        WithinMore(s.disk, s'.disk, 3 * Pass(s.disk.bs, start), start <= Capacity(s.disk.bs), ok,
                   3 * Pass(s.disk.bs, limit), Storable(s.disk.bs, limit));
        if ok {
          MetadataSaved(BytesAt(s'.disk, n), packed, reserved, z, metadata, s.disk.bits, s.disk.data[n]);
        }
      }
    }

    /** Write the root's metadata and its entries. */
    method SaveRoot(n: nat, m: map<Name, nat>, ghost s: FileSys, ghost d0: Disk)
        returns (ok: bool, start: nat, ghost s': FileSys)
      requires Writable(volume, s, n) && !volume.noCow && z.RoundTrips() && n < volume.Blocks() && EncodableMap(m)
      modifies volume.Repr()
      ensures volume.Valid() && volume.State() == s'.disk && Advances(s, s', d0, true)
      ensures ok ==> && FileChanged(s, n, s', true) && Writable(volume, s', n)
                     && ReadDir(BytesAt(s'.disk, n), z) == m && StartsAt(BytesAt(s'.disk, n), start)
                     && s'.loose == s.loose
                     && MetadataAt(BytesAt(s'.disk, n), start, reserved, z, s.disk.bits, s.disk.data[n])
      ensures 0 < start <= RootStart(Here())
      ensures var size := SavedSize(z, RootStart(Here()), m.Keys);
              Within(s.disk, s'.disk, 7 * Pass(s.disk.bs, size), Storable(s.disk.bs, size), ok)
    {
      hide FileChanged, Advances, BytesAt, Protects, Consistent, Within, Pass, Capacity, NamesLength, MetadataAt,
           FrontKept;
      ghost var (bs, size) := (s.disk.bs, SavedSize(z, RootStart(Here()), m.Keys));
      var saved;
      ghost var s1;
      saved, start, s1 := SaveMetadata(n, s, d0);
      PassMonotone(bs, RootStart(Here()), size);
      WithinMore(s.disk, s1.disk, 3 * Pass(bs, RootStart(Here())), Storable(bs, RootStart(Here())), saved,
                 3 * Pass(bs, size), Storable(bs, size));
      ok, s' := saved, s1;
      if saved {
        ghost var at := start;
        ok, start, s' := SaveDentries(volume, n, start, m, z, s1, d0);
        AdvancesTrans(s, s1, s', d0, true);
        ghost var used := SavedSize(z, at, m.Keys);
        PassMonotone(bs, used, size);
        WithinMore(s1.disk, s'.disk, 4 * Pass(bs, used), Storable(bs, used), ok, 4 * Pass(bs, size),
                   Storable(bs, size));
        if ok {
          FileChangedTrans(s, n, s1, s', true);
          MetadataKept(BytesAt(s1.disk, n), BytesAt(s'.disk, n), at, reserved, z, s.disk.bits, s.disk.data[n]);
        }
      }
      WithinThen(s.disk, s1.disk, 3 * Pass(bs, size), Storable(bs, size), saved,
                 s'.disk, 4 * Pass(bs, size), Storable(bs, size), ok);
    }

    /** Allocate the root's new block, copy the inode there and let the copy take over. */
    method CopyRoot(c: nat, ghost s: FileSys, ghost d0: Disk)
        returns (r: Option<nat>, ghost s': FileSys, ghost s1: FileSys)
      requires volume.Valid() && volume.State() == s.disk && c in s.live && !volume.noCow
      modifies volume.Repr()
      ensures volume.Valid() && volume.State() == s'.disk && Advances(s, s', d0, true)
      ensures r.Some? ==> && Step(s, Staged(c, r.value), s1, true) && Step(s1, Adopted(c, r.value), s', true)
                          && s1.disk.data[r.value] == s1.disk.data[c]
                          && !s.disk.InUse(r.value) && Writable(volume, s', r.value) && c in s'.loose
                          && !s'.disk.Frozen(r.value) && r.value < volume.Blocks()
                          && s'.disk.data[r.value] == s.disk.data[c]
      ensures Within(s.disk, s'.disk, 1, true, r.Some?)
    {
      hide Within;
      assert WellFormed(s.disk, c);
      r, s1 := StageCopy(volume, volume.data[c], c, s, d0);
      s' := s1;
      if r.Some? {
        s' := Adopt(s1, c, r.value, d0);
      }
    }

    /** Publish the root's new block and give up the old one. */
    method PublishRoot(c: nat, n: nat, ghost s: FileSys, ghost d0: Disk) returns (ghost s5: FileSys, ghost s': FileSys)
      requires Writable(volume, s, n) && !volume.noCow && c in s.loose
      modifies volume.Repr(), header
      ensures volume.Valid() && volume.State() == s'.disk && Advances(s, s', d0, true) && header.root == n
      ensures Step(s, StatSet(n), s5, true) && s5.disk.data[n] == Put(s.disk.data[n], INO_OFFSET, WordBytes(n))
      ensures Step(s5, Retired(c), s', true) && Took(s.disk, s'.disk, 0)
    {
      hide Step, Consistent, Advances, Writable, Took;
      header.root := n;
      s5 := SetIno(volume, n, s, d0);
      s' := RetireInode(volume, c, s5, d0);
      TookTrans(s.disk, s5.disk, s'.disk, 0, 0);
      AdvancesTrans(s, s5, s', d0, true);
    }

    /** Everything that copying the root does to the volume and its header. */
    method MoveRoot(c: nat, m: map<Name, nat>, ghost s: FileSys, ghost d0: Disk)
      returns (r: Option<nat>, start: nat, ghost s1: FileSys, ghost s2: FileSys, ghost s3: FileSys,
               ghost s5: FileSys, ghost s': FileSys)
      requires volume.Valid() && volume.State() == s.disk && !volume.noCow && z.RoundTrips()
      requires c in s.live && EncodableMap(m)
      modifies volume.Repr(), header
      ensures volume.Valid() && volume.State() == s'.disk && Advances(s, s', d0, true)
      ensures r.Some? ==> header.root == r.value && RootSteps(s, c, r.value, s1, s2, s3, s5, s')
      ensures r.Some? ==> && ReadDir(BytesAt(s3.disk, r.value), z) == m && StartsAt(BytesAt(s3.disk, r.value), start)
                          && !s.disk.InUse(r.value) && !s2.disk.Frozen(r.value) && s'.loose == s.loose
                          && DumpedAt(BytesAt(s3.disk, r.value), start, reserved, z, s.disk, s.disk.data[c])
                          && 0 < start <= RootStart(Here())
      ensures var size := SavedSize(z, RootStart(Here()), m.Keys);
              Within(s.disk, s'.disk, 1 + 7 * Pass(s.disk.bs, size), Storable(s.disk.bs, size), r.Some?)
    {
      ghost var (bs, size) := (s.disk.bs, SavedSize(z, RootStart(Here()), m.Keys));
      ghost var (cost, fits) := (7 * Pass(bs, size), Storable(bs, size));
      hide *;
      r, s2, s1 := CopyRoot(c, s, d0);
      ghost var copied := r.Some?;
      start, s3, s5, s' := 0, s, s, s2;
      if r.Some? {
        var ok;
        ok, start, s3 := SaveRoot(r.value, m, s2, d0);
        if ok {
          RootDumped(s, c, r.value, s1, s2, BytesAt(s3.disk, r.value), start, reserved, z);
          s5, s' := PublishRoot(c, r.value, s3, d0);
          RootStepsLoose(s, c, r.value, s1, s2, s3, s5, s');
          AdvancesTrans(s2, s3, s', d0, true);
          WithinRest(s2.disk, s3.disk, cost, fits, s'.disk);
        } else {
          r, s' := None, s3;
        }
        AdvancesTrans(s, s2, s', d0, true);
      }
      WithinThen(s.disk, s2.disk, 1, true, copied, s'.disk, cost, fits, r.Some?);
    }

    /** The same, as a change of scene. */
    method CopyRootHandle(ghost h: Handle, m: map<Name, nat>, c: nat, ghost s: FileSys, ghost kept: set<nat>,
                          ghost d0: Disk)
      returns (ok: bool, n: nat, start: nat, ghost s': FileSys)
      requires volume.Valid() && volume.State() == s.disk && !volume.noCow && z.RoundTrips() && KeptInUse(s, kept)
      requires DirReady(SceneOf(s, z, kept), h) && h.current == c && h.entries == m && c in s.live && EncodableMap(m)
      modifies volume.Repr(), header
      ensures volume.Valid() && volume.State() == s'.disk && Advances(s, s', d0, true)
      ensures ok ==> && header.root == n
                     && RootCopied(SceneOf(s, z, kept), h, SceneOf(s', z, kept), h.(current := n, start := start))
      ensures ok ==> OldKept(s.disk, s'.disk, -1) && NewSince(s.disk, s'.disk, n)
      ensures ok ==> 0 < start <= RootStart(Here())
      ensures ok ==> DumpedAt(BytesAt(s'.disk, n), start, reserved, z, s.disk, s.disk.data[c]) && Numbered(s'.disk, n)
      ensures var size := SavedSize(z, RootStart(Here()), m.Keys);
              Within(s.disk, s'.disk, 1 + 7 * Pass(s.disk.bs, size), Storable(s.disk.bs, size), ok)
    {
      var r;
      ghost var s1, s2, s3, s5;
      hide *;
      r, start, s1, s2, s3, s5, s' := MoveRoot(c, m, s, d0);
      ok, n := r.Some?, 0;
      if r.Some? {
        n := r.value;
        FreshOutside(s, z, kept, n);
        RootStepsOld(s, c, n, s1, s2, s3, s5, s');
        RootPublished(s, c, n, s1, s2, s3, s5, s', z);
        RootScene(s, h, s1, s2, s3, s5, s', h.(current := n, start := start), z, kept);
      }
    }

    /** Copy-on-write of the root inode. */
    method RootCow(ghost s: FileSys, ghost kept: set<nat>, ghost d0: Disk) returns (ok: bool, ghost s': FileSys)
      requires volume.Valid() && volume.State() == s.disk && !volume.noCow && z.RoundTrips() && KeptInUse(s, kept)
      requires DirReady(SceneOf(s, z, kept), Mem()) && current in s.live && EncodableMap(dentries)
      modifies volume.Repr(), header, this
      ensures volume.Valid() && volume.State() == s'.disk && Advances(s, s', d0, true)
      ensures ok ==> header.root == current && RootCopied(SceneOf(s, z, kept), old(Mem()), SceneOf(s', z, kept), Mem())
      ensures ok ==> OldKept(s.disk, s'.disk, -1) && NewSince(s.disk, s'.disk, current)
      ensures ok ==> 0 < dentryStart <= RootStart(Here()) && dentries == old(dentries)
      ensures ok ==> && DumpedAt(BytesAt(s'.disk, current), dentryStart, reserved, z, s.disk, s.disk.data[old(current)])
                     && Numbered(s'.disk, current)
      ensures var size := SavedSize(z, RootStart(Here()), old(dentries).Keys);
              Within(s.disk, s'.disk, 1 + 7 * Pass(s.disk.bs, size), Storable(s.disk.bs, size), ok)
    {
      hide Volume.State, Volume.Valid, Within, Pass, Capacity, NamesLength, Storable, Consistent;
      hide SceneOf, OldKept, NewSince, RootCopied, DirReady, Advances, DumpedAt, Numbered;
      ghost var h := Mem();
      var n, start;
      ok, n, start, s' := CopyRootHandle(h, dentries, current, s, kept, d0);
      if ok {
        current, dentryStart := n, start;
        assert Mem() == h.(current := n, start := start);
      }
    }

    /** Stage the copy of a child and save the parent's entries with the child's entry redirected
        to it. */
    method RedirectEntry(p: nat, start: nat, m: map<Name, nat>, name: Name, content: Block, ghost c: nat,
                         ghost s: FileSys, ghost d0: Disk)
      returns (r: Option<nat>, start': nat, ghost s2: FileSys, ghost s': FileSys)
      requires Writable(volume, s, p) && !volume.noCow && z.RoundTrips() && StartsAt(BytesAt(s.disk, p), start)
      requires c in s.live && c != p && content == s.disk.data[c] && EncodableMap(m) && NulFree(name)
      modifies volume.Repr()
      ensures volume.Valid() && volume.State() == s'.disk && Advances(s, s', d0, true)
      ensures r.Some? ==> && Step(s, Staged(c, r.value), s2, true) && FileChanged(s2, p, s', true)
                          && ReadDir(BytesAt(s'.disk, p), z) == m[name := r.value]
                          && StartsAt(BytesAt(s'.disk, p), start')
                          && !s.disk.InUse(r.value) && !s2.disk.Frozen(r.value)
                          && start' == FirstStart(start)
      ensures var size := SavedSize(z, FirstStart(start), m.Keys + {name});
              Within(s.disk, s'.disk, 1 + 5 * Pass(s.disk.bs, size), Storable(s.disk.bs, size), r.Some?)
    {
      hide Step, Consistent, WellFormed, BytesAt, EncodableMap, StartsAt, Advances, FileChanged, Within, Pass,
           Capacity, NamesLength;
      ghost var (bs, size) := (s.disk.bs, SavedSize(z, FirstStart(start), m.Keys + {name}));
      r, s2 := StageCopy(volume, content, c, s, d0);
      ghost var staged := r.Some?;
      s', start' := s2, start;
      if r.Some? {
        var ok;
        StagedReady(s, c, r.value, s2, p, m, name, z);
        assert m[name := r.value].Keys == m.Keys + {name};
        ok, start', s' := ResaveEntries(p, start, m[name := r.value], s2, d0);
        AdvancesTrans(s, s2, s', d0, true);
        if !ok {
          r := None;
        }
      }
      WithinThen(s.disk, s2.disk, 1, true, staged, s'.disk, 5 * Pass(bs, size), Storable(bs, size), r.Some?);
    }

    /** Clear the entries of a directory and write them again. */
    method ResaveEntries(p: nat, start: nat, m: map<Name, nat>, ghost s: FileSys, ghost d0: Disk)
      returns (ok: bool, start': nat, ghost s': FileSys)
      requires Writable(volume, s, p) && !volume.noCow && z.RoundTrips() && StartsAt(BytesAt(s.disk, p), start)
      requires EncodableMap(m)
      modifies volume.Repr()
      ensures volume.Valid() && volume.State() == s'.disk && Advances(s, s', d0, true)
      ensures ok ==> && FileChanged(s, p, s', true)
                     && ReadDir(BytesAt(s'.disk, p), z) == m && StartsAt(BytesAt(s'.disk, p), start')
                     && start' == (if m == map[] then start else FirstStart(start))
      ensures var size := SavedSize(z, FirstStart(start), m.Keys);
              Within(s.disk, s'.disk, 5 * Pass(s.disk.bs, size), Storable(s.disk.bs, size), ok)
    {
      hide FileChanged, Advances, BytesAt, Protects, Consistent, Within, Pass, Capacity, NamesLength, FrontKept;
      ghost var (bs, size) := (s.disk.bs, SavedSize(z, FirstStart(start), m.Keys));
      start' := start;
      var cleared;
      ghost var s1;
      cleared, s1 := ResizePart(volume, p, start, s, d0);
      PassMonotone(bs, start, size);
      WithinMore(s.disk, s1.disk, Pass(bs, start), start <= Capacity(bs), cleared, Pass(bs, size), Storable(bs, size));
      ok, s' := cleared, s1;
      if cleared {
        ResizedStart(BytesAt(s.disk, p), BytesAt(s1.disk, p), start, start);
        ok, start', s' := SaveDentries(volume, p, start, m, z, s1, d0);
        AdvancesTrans(s, s1, s', d0, true);
        if ok {
          FileChangedTrans(s, p, s1, s', true);
        }
      }
      WithinThen(s.disk, s1.disk, Pass(bs, size), Storable(bs, size), cleared,
                 s'.disk, 4 * Pass(bs, size), Storable(bs, size), ok);
    }

    /** The child's last steps: refer to the copy, record its number, retire the old block. */
    method Settle(c: nat, n: nat, ghost s: FileSys, ghost d0: Disk)
        returns (ghost s4: FileSys, ghost s5: FileSys, ghost s': FileSys)
      requires volume.Valid() && volume.State() == s.disk && !volume.noCow
      requires Adoptable(s, c, n)
      modifies volume.Repr()
      ensures volume.Valid() && volume.State() == s'.disk && Advances(s, s', d0, true)
      ensures Settles(s, c, n, s4, s5, s') && Took(s.disk, s'.disk, 0)
    {
      hide Took, Step, Consistent, Volume.State, Advances;
      s4 := Adopt(s, c, n, d0);
      s5 := SetIno(volume, n, s4, d0);
      AdvancesTrans(s, s4, s5, d0, true);
      s' := RetireInode(volume, c, s5, d0);
      AdvancesTrans(s, s5, s', d0, true);
      TookTrans(s.disk, s5.disk, s'.disk, 0, 0);
    }

    /** Redirect the entry of a child to a copy of it, on the volume and in memory. The child must
        refer to the copy from now on. */
    method RelinkChild(cowIndex: nat, content: Block, ghost s: FileSys, ghost root: nat, ghost kept: set<nat>,
                       ghost d0: Disk)
      returns (r: Option<nat>, ghost s': FileSys)
      requires Writable(volume, s, current) && !volume.noCow && z.RoundTrips() && KeptInUse(s, kept)
      requires IsTree(NamespaceOf(s, z, kept), root) && DirReady(SceneOf(s, z, kept), Mem())
      requires EncodableMap(dentries) && StartsAt(BytesAt(s.disk, current), dentryStart)
      requires cowIndex in s.live && cowIndex != current && cowIndex in reverse && NulFree(reverse[cowIndex])
      requires content == s.disk.data[cowIndex]
      modifies volume.Repr(), this
      ensures volume.Valid() && volume.State() == s'.disk && Advances(s, s', d0, true)
      ensures r.Some? ==> && Redirected(SceneOf(s, z, kept), old(Mem()), SceneOf(s', z, kept), Mem(), cowIndex, r.value)
                          && Adoptable(s', cowIndex, r.value)
                          && OldKept(s.disk, s'.disk, current) && NewSince(s.disk, s'.disk, r.value)
                          && dentries.Keys == old(dentries).Keys && dentryStart == FirstStart(old(dentryStart))
      ensures var size := SavedSize(z, FirstStart(old(dentryStart)), old(dentries).Keys);
              Within(s.disk, s'.disk, 1 + 5 * Pass(s.disk.bs, size), Storable(s.disk.bs, size), r.Some?)
    {
      hide Volume.State, Volume.Valid, Within, Pass, Capacity, NamesLength, SavedSize, ReadDir;
      hide Step, Consistent, WellFormed, BytesAt, EncodableMap, StartsAt, Advances, FileChanged, IsTree, SceneOf,
           NamespaceOf, DirReady, Redirected, Adoptable, OldKept, NewSince;
      var name := reverse[cowIndex];
      var start;
      ghost var s2;
      ghost var up := Mem();
      NameEntered(SceneOf(s, z, kept), up, cowIndex);
      assert dentries.Keys + {name} == dentries.Keys;
      r, start, s2, s' := RedirectEntry(current, dentryStart, dentries, name, content, cowIndex, s, d0);
      if r.Some? {
        var n := r.value;
        ghost var up' := Handle(current, start, dentries[name := n], (reverse - {cowIndex})[n := name]);
        EntryRedirected(s, root, up, s2, s', up', cowIndex, n, z, kept);
        RelinkOld(s, current, cowIndex, n, s2, s');
        reverse := (reverse - {cowIndex})[n := name];
        dentries := dentries[name := n];
        dentryStart := start;
        assert Mem() == up' && old(Mem()) == up;
      }
    }

    /** The same, after the path down to this directory has been copied. */
    method RelinkBelow(cowIndex: nat, content: Block, ghost h: Handle, ghost s: FileSys, ghost root: nat,
                       ghost hs: seq<Handle>, ghost s1: FileSys, ghost r1: map<nat, nat>, ghost kept: set<nat>,
                       ghost d0: Disk)
      returns (r: Option<nat>, ghost s': FileSys)
      requires volume.Valid() && volume.State() == s1.disk && !volume.noCow && Chain()
      requires Mounted(s, z, kept, root, d0) && PathOpen(SceneOf(s, z, kept), root, hs)
      requires PathOpen(SceneOf(s, z, kept), root, hs + [h])
      requires Mounted(s1, z, kept, header.root, d0) && PathOpen(SceneOf(s1, z, kept), header.root, Memory())
      requires PathMoved(SceneOf(s, z, kept), hs, SceneOf(s1, z, kept), Memory(), r1)
      requires h.current == cowIndex && content == ImageAt(s.disk, cowIndex)
      requires hs != [] && SameSizes(hs, Memory()) && RootPlaced(Here(), Memory())
      modifies volume.Repr(), this
      ensures volume.Valid() && volume.State() == s'.disk && Advances(s1, s', d0, true)
      ensures r.Some? ==> && Pending(s, root, hs, s1, header.root, old(Memory()), r1, s', Mem(), cowIndex, r.value,
                                     z, kept, d0)
                          && Memory() == WithLast(old(Memory()), Mem())
                          && OldKept(s1.disk, s'.disk, Mem().current) && NewSince(s1.disk, s'.disk, r.value)
                          && SameSizes(hs, Memory()) && RootPlaced(Here(), Memory())
      ensures var size := SizeOfDir(Here(), hs, |hs| - 1);
              Within(s1.disk, s'.disk, 1 + 5 * Pass(volume.blockSize, size), Storable(volume.blockSize, size), r.Some?)
    {
      hide Within, Pass, Capacity, NamesLength, SameSizes, RootPlaced, SizeOfDir;
      hide OldKept, NewSince, Mounted, PathOpen, PathMoved, Consistent, IsTree, SceneOf, NamespaceOf, DirReady,
           Redirected, Adoptable, Advances, WellFormed, BytesAt, EncodableMap, StartsAt, KeptInUse, ImageAt;
      ghost var hs1 := Memory();
      ghost var above := if parent == null then [] else parent.Memory();
      WithNewLast(above, Mem(), Mem());
      ChildReady(s, root, hs, h, s1, header.root, hs1, r1, z, kept, d0);
      MountedTree(s1, z, kept, header.root, d0);
      r, s' := RelinkChild(cowIndex, content, s1, header.root, kept, d0);
      WithNewLast(above, hs1[|hs1| - 1], Mem());
      LevelWithin(Here(), hs, hs1, s1.disk, s'.disk, r.Some?);
      if r.Some? {
        RelinkedSizes(Here(), hs, hs1, Mem());
      }
    }

    /** Called by a child that is about to be written: copy this directory's path, then redirect
        the child's entry. */
    method CopyOnWriteInvokedFromChild(cowIndex: nat, content: Block, ghost h: Handle, ghost s: FileSys,
                                       ghost kept: set<nat>, ghost d0: Disk)
      returns (r: Option<nat>, ghost s1: FileSys, ghost hs1: seq<Handle>, ghost r1: map<nat, nat>, ghost s': FileSys)
      requires Ready(s, kept, d0) && !volume.noCow
      requires PathOpen(SceneOf(s, z, kept), header.root, Memory() + [h]) && h.current == cowIndex
      requires content == ImageAt(s.disk, cowIndex)
      modifies volume.Repr(), family, header
      ensures volume.Valid() && volume.State() == s'.disk && Advances(s, s', d0, true)
      ensures r.Some? ==> && Advances(s1, s', d0, true)
                          && Pending(s, old(header.root), old(Memory()), s1, header.root, hs1, r1, s', Mem(),
                                     cowIndex, r.value, z, kept, d0)
                          && Memory() == WithLast(hs1, Mem())
                          && OldKept(s.disk, s1.disk, -1) && PathNew(s.disk, s1.disk, hs1)
                          && OldKept(s1.disk, s'.disk, Mem().current) && NewSince(s1.disk, s'.disk, r.value)
      ensures r.Some? ==> && NoEntryPoint(s.disk, old(Memory()))
                          && SameSizes(old(Memory()), Memory()) && RootPlaced(Here(), Memory())
      ensures Within(s.disk, s'.disk, old(ChildCost(h)), old(ChildFits(h, s.disk)), r.Some?)
      decreases depth, 3
    {
      hide Within, Pass, Capacity, NamesLength, PathCost, PathFits, NoEntryPoint, SameSizes, RootPlaced, SizeOfDir,
           Storable, Volume.Valid, Inode.Memory, Pending, Volume.State;
      hide OldKept, NewSince, PathNew, Mounted, PathOpen, PathMoved, Consistent, IsTree, SceneOf, NamespaceOf,
           DirReady, Redirected, Adoptable, Advances, WellFormed, BytesAt, EncodableMap, StartsAt, KeptInUse,
           ImageAt, WithLast;
      AdvancesRefl(s, d0, true);
      r, s1, hs1, r1, s' := None, s, [], map[], s;
      ghost var (v, hs) := (Here(), Memory());
      ghost var size := SizeOfDir(v, hs, |hs| - 1);
      ghost var (above, below) := (PathCost(v, hs), 1 + 5 * Pass(v.bs, size));
      ghost var fits := PathFits(v, hs) && NoEntryPoint(s.disk, hs);
      PathCostChild(v, hs, h);
      PathFitsChild(v, hs, h);
      var ok;
      ok, r1, s1 := CheckAndCopy(s, kept, d0);
      s', hs1 := s1, Memory();
      if ok {
        r, s' := RelinkBelow(cowIndex, content, h, s, old(header.root), old(Memory()), s1, r1, kept, d0);
        AdvancesTrans(s, s1, s', d0, true);
      }
      WithinThen(s.disk, s1.disk, above, fits, ok, s'.disk, below, Storable(v.bs, size), r.Some?);
    }

    /** The entry point of a snapshot is refused right away; the path of any other directory is copied. */
    method CheckAndCopy(ghost s: FileSys, ghost kept: set<nat>, ghost d0: Disk)
        returns (ok: bool, ghost rho: map<nat, nat>, ghost s': FileSys)
      requires Ready(s, kept, d0) && !volume.noCow
      modifies volume.Repr(), family, header
      ensures volume.Valid() && volume.State() == s'.disk && Advances(s, s', d0, true)
      ensures ok ==>
                && PathMoved(SceneOf(s, z, kept), old(Memory()), SceneOf(s', z, kept), Memory(), rho)
                && Mounted(s', z, kept, header.root, d0)
                && PathOpen(SceneOf(s', z, kept), header.root, Memory())
                && OldKept(s.disk, s'.disk, -1) && PathNew(s.disk, s'.disk, Memory())
                && NoEntryPoint(s.disk, old(Memory()))
                && SameSizes(old(Memory()), Memory()) && RootPlaced(Here(), Memory())
      ensures Within(s.disk, s'.disk, old(CopyCost()), old(CopyFits(s.disk)), ok)
      decreases depth, 2
    {
      hide Within, PathCost, PathFits, NoEntryPoint, SameSizes, RootPlaced, Numbered;
      hide Mounted, PathOpen, PathMoved, Consistent, IsTree, SceneOf, NamespaceOf, Advances, WellFormed, OldKept,
           PathNew;
      rho, s' := map[], s;
      ok := SnapshotCheck(s, kept, d0);
      if ok {
        ok, rho, s' := CopyOnWrite(s, kept, d0);
      } else {
        AdvancesRefl(s, d0, true);
        CheckedLast(s.disk, Memory());
        NothingWithin(s.disk, CopyCost());
      }
    }

    /** An inode that is the entry point of a snapshot must not be copied. */
    method SnapshotCheck(ghost s: FileSys, ghost kept: set<nat>, ghost d0: Disk) returns (ok: bool)
      requires Ready(s, kept, d0)
      ensures ok == NotEntryPoint(s.disk, Mem())
    {
      ok := volume.attr[current].status != SnapshotEntry;
    }

    /** Copy-on-write of this inode and of every directory above it. */
    method CopyOnWrite(ghost s: FileSys, ghost kept: set<nat>, ghost d0: Disk)
        returns (ok: bool, ghost rho: map<nat, nat>, ghost s': FileSys)
      requires Ready(s, kept, d0)
      modifies volume.Repr(), family, header
      ensures volume.Valid() && volume.State() == s'.disk && Advances(s, s', d0, true)
      ensures volume.noCow ==> ok && s' == s && Memory() == old(Memory()) && header.root == old(header.root)
      ensures ok && !volume.noCow ==>
                && PathMoved(SceneOf(s, z, kept), old(Memory()), SceneOf(s', z, kept), Memory(), rho)
                && Mounted(s', z, kept, header.root, d0)
                && PathOpen(SceneOf(s', z, kept), header.root, Memory())
                && OldKept(s.disk, s'.disk, -1) && PathNew(s.disk, s'.disk, Memory())
                && Numbered(s'.disk, current) && NoEntryPoint(s.disk, old(Memory()))
                && SameSizes(old(Memory()), Memory()) && RootPlaced(Here(), Memory())
      ensures Within(s.disk, s'.disk, old(CopyCost()), old(CopyFits(s.disk)), ok)
      decreases depth, 1
    {
      hide Within, PathCost, PathFits, NoEntryPoint, SameSizes, RootPlaced, Numbered;
      hide Mounted, PathOpen, PathMoved, Consistent, IsTree, SceneOf, NamespaceOf, Advances, WellFormed, OldKept,
           PathNew;
      ok, rho, s' := true, map[], s;
      AdvancesRefl(s, d0, true);
      if !volume.noCow {
        ok := SnapshotCheck(s, kept, d0);
        if ok {
          if parent != null {
            ok, rho, s' := CopyBelowParent(s, kept, d0);
          } else {
            ok, rho, s' := CopyAsRoot(s, kept, d0);
          }
        } else {
          CheckedLast(s.disk, Memory());
          NothingWithin(s.disk, CopyCost());
        }
      } else {
        NoMoreWithin(s.disk, 0, true);
      }
    }

    method CopyAsRoot(ghost s: FileSys, ghost kept: set<nat>, ghost d0: Disk)
        returns (ok: bool, ghost rho: map<nat, nat>, ghost s': FileSys)
      requires Ready(s, kept, d0) && !volume.noCow && parent == null && NotEntryPoint(s.disk, Mem())
      modifies volume.Repr(), this, header
      ensures volume.Valid() && volume.State() == s'.disk && Advances(s, s', d0, true)
      ensures ok ==> && PathMoved(SceneOf(s, z, kept), old(Memory()), SceneOf(s', z, kept), Memory(), rho)
                     && Mounted(s', z, kept, header.root, d0)
                     && PathOpen(SceneOf(s', z, kept), header.root, Memory())
                     && OldKept(s.disk, s'.disk, -1) && PathNew(s.disk, s'.disk, Memory())
      ensures NoEntryPoint(s.disk, old(Memory()))
      ensures ok ==> SameSizes(old(Memory()), Memory()) && RootPlaced(Here(), Memory()) && Numbered(s'.disk, current)
      ensures Within(s.disk, s'.disk, PathCost(Here(), old(Memory())), PathFits(Here(), old(Memory())), ok)
    {
      hide Within, Pass, Capacity, NamesLength;
      hide OldKept, NewSince, Mounted, PathOpen, PathMoved, Consistent, IsTree, SceneOf, NamespaceOf, Advances,
           WellFormed, DirReady, RootCopied, KeptInUse, EncodableMap, MoveOne;
      rho := MoveOne(NamespaceOf(s, z, kept), current, current);
      ghost var h := Mem();
      assert Memory() == [h];
      RootReady(s, z, kept, header.root, d0, h);
      ok, s' := RootCow(s, kept, d0);
      if ok {
        RootCopiedReady(s, h, s', Mem(), z, kept, d0);
        rho := MoveOne(NamespaceOf(s, z, kept), h.current, current);
        assert Memory() == [Mem()];
      }
      RootCost(Here(), h);
    }

    method CopyBelowParent(ghost s: FileSys, ghost kept: set<nat>, ghost d0: Disk)
        returns (ok: bool, ghost rho: map<nat, nat>, ghost s': FileSys)
      requires Ready(s, kept, d0) && !volume.noCow && parent != null && NotEntryPoint(s.disk, Mem())
      modifies volume.Repr(), family, header
      ensures volume.Valid() && volume.State() == s'.disk && Advances(s, s', d0, true)
      ensures ok ==> && PathMoved(SceneOf(s, z, kept), old(Memory()), SceneOf(s', z, kept), Memory(), rho)
                     && Mounted(s', z, kept, header.root, d0)
                     && PathOpen(SceneOf(s', z, kept), header.root, Memory())
                     && OldKept(s.disk, s'.disk, -1) && PathNew(s.disk, s'.disk, Memory())
      ensures ok ==> && NoEntryPoint(s.disk, old(Memory())) && Numbered(s'.disk, current)
                     && SameSizes(old(Memory()), Memory()) && RootPlaced(Here(), Memory())
      ensures Within(s.disk, s'.disk, PathCost(Here(), old(Memory())),
                     PathFits(Here(), old(Memory())) && NoEntryPoint(s.disk, old(Memory())), ok)
      decreases depth, 0
    {
      hide Within, PathCost, PathFits, NoEntryPoint, SameSizes, RootPlaced, Numbered;
      hide OldKept, NewSince, PathNew, Mounted, PathOpen, PathMoved, Consistent, IsTree, SceneOf, NamespaceOf,
           Advances, WellFormed, ImageAt, Pending, Settles, Adoptable;
      ghost var (h, hs, root) := (Mem(), parent.Memory(), header.root);
      ChildOpen(s, z, kept, root, hs, h);
      var r;
      ghost var s1, hs1, r1, s3;
      r, s1, hs1, r1, s3 := parent.CopyOnWriteInvokedFromChild(current, volume.data[current], h, s, kept, d0);
      ok, rho, s' := r.Some?, r1, s3;
      CheckedPath(s.disk, hs, h);
      if r.Some? {
        ghost var hs3 := parent.Memory();
        rho, s' := FinishBelow(r.value, h, s, root, hs, s1, hs1, r1, s3, kept, d0);
        AdvancesTrans(s, s3, s', d0, true);
        SameSizesChild(Here(), hs, h, hs3, Mem());
        WithinRest(s.disk, s3.disk, PathCost(Here(), hs + [h]), PathFits(Here(), hs + [h]) && NoEntryPoint(s.disk, hs),
                   s'.disk);
      }
    }

    /** The child's part of copying its path, after its parent has redirected the entry. */
    method FinishBelow(n: nat, ghost h: Handle, ghost s: FileSys, ghost root: nat, ghost hs: seq<Handle>,
                       ghost s1: FileSys, ghost hs1: seq<Handle>, ghost r1: map<nat, nat>, ghost s3: FileSys,
                       ghost kept: set<nat>, ghost d0: Disk)
      returns (ghost rho: map<nat, nat>, ghost s': FileSys)
      requires volume.Valid() && volume.State() == s3.disk && !volume.noCow && Chain() && parent != null && h == Mem()
      requires Mounted(s, z, kept, root, d0) && PathOpen(SceneOf(s, z, kept), root, hs)
      requires PathOpen(SceneOf(s, z, kept), root, hs + [h])
      requires Pending(s, root, hs, s1, header.root, hs1, r1, s3, parent.Mem(), current, n, z, kept, d0)
      requires Advances(s1, s3, d0, true) && parent.Memory() == WithLast(hs1, parent.Mem())
      requires OldKept(s.disk, s1.disk, -1) && PathNew(s.disk, s1.disk, hs1)
      requires OldKept(s1.disk, s3.disk, parent.Mem().current) && NewSince(s1.disk, s3.disk, n)
      modifies volume.Repr(), this
      ensures volume.Valid() && volume.State() == s'.disk && Advances(s3, s', d0, true)
      ensures PathMoved(SceneOf(s, z, kept), hs + [h], SceneOf(s', z, kept), Memory(), rho)
      ensures Mounted(s', z, kept, header.root, d0) && PathOpen(SceneOf(s', z, kept), header.root, Memory())
      ensures OldKept(s.disk, s'.disk, -1) && PathNew(s.disk, s'.disk, Memory())
      ensures Memory() == old(parent.Memory()) + [Mem()] && Mem() == h.(current := n) && Took(s3.disk, s'.disk, 0)
      ensures Numbered(s'.disk, n)
    {
      hide Took, Numbered;
      hide OldKept, NewSince, PathNew, Mounted, PathOpen, PathMoved, Consistent, IsTree, SceneOf, NamespaceOf,
           Advances, WellFormed, ImageAt, Settles, Adoptable, Redirected;
      ghost var up' := parent.Mem();
      PendingAdoptable(s, root, hs, s1, header.root, hs1, r1, s3, up', current, n, z, kept, d0);
      ghost var s4, s5;
      s4, s5, s' := Relocate(n, s3, d0);
      AdvancesTrans(s1, s3, s', d0, true);
      SettlesOld(s3, h.current, n, s4, s5, s');
      SettledNumber(s3, h.current, n, s4, s5, s');
      PendingLast(s, root, hs, s1, header.root, hs1, r1, s3, up', h.current, n, z, kept, d0);
      ChildOld(s.disk, s1.disk, hs1, s3.disk, up', s'.disk, h.(current := n));
      rho := ChildCopiedReady(s, root, hs, h, s1, header.root, hs1, r1, s3, up', n, s4, s5, s', z, kept, d0);
    }

    /** Refer to the copy at `n` from now on. */
    method Relocate(n: nat, ghost s: FileSys, ghost d0: Disk)
        returns (ghost s4: FileSys, ghost s5: FileSys, ghost s': FileSys)
      requires volume.Valid() && volume.State() == s.disk && !volume.noCow && Chain() && parent != null
      requires Adoptable(s, current, n)
      modifies volume.Repr(), this
      ensures volume.Valid() && volume.State() == s'.disk && Advances(s, s', d0, true)
      ensures Settles(s, old(current), n, s4, s5, s') && Took(s.disk, s'.disk, 0)
      ensures Memory() == old(parent.Memory()) + [old(Mem()).(current := n)]
    {
      hide Advances, Settles, Adoptable, Consistent, Took;
      s4, s5, s' := Settle(current, n, s, d0);
      current := n;
    }

    /** What precedes a change: the open path has been copied on the way to `s1`; on a volume that is
        updated in place nothing has happened. */
    ghost predicate PathCopied(s: FileSys, hs: seq<Handle>, s1: FileSys, hs1: seq<Handle>, rho: map<nat, nat>,
                               kept: set<nat>)
    {
      if volume.noCow then s1 == s && hs1 == hs
      else PathMoved(SceneOf(s, z, kept), hs, SceneOf(s1, z, kept), hs1, rho) && OldKept(s.disk, s1.disk, -1)
    }

    /** The state of a file that is open for writing, after an operation that succeeded: its path
        has been copied on the way to `s1`, and its bytes changed afterwards. */
    ghost predicate Updated(s: FileSys, hs: seq<Handle>, s1: FileSys, rho: map<nat, nat>, s': FileSys, kept: set<nat>)
      requires Chain()
      reads family
    {
      && PathCopied(s, hs, s1, Memory(), rho, kept)
      && NamespaceOf(s', z, kept) == ViewWith(s1, z, kept, current, FileNode(BytesAt(s'.disk, current)))
      && (!volume.noCow ==> OldKept(s.disk, s'.disk, -1))
    }

    /** The path has been copied if need be, and the file still has its bytes. */
    method CopyFilePath(ghost s: FileSys, ghost kept: set<nat>, ghost d0: Disk)
        returns (ok: bool, ghost rho: map<nat, nat>, ghost s1: FileSys)
      requires Ready(s, kept, d0) && NodeAt(s.disk, current, z).FileNode?
      modifies volume.Repr(), family, header
      ensures volume.Valid() && volume.State() == s1.disk && Advances(s, s1, d0, !volume.noCow)
      ensures ok ==> && Ready(s1, kept, d0) && Writable(volume, s1, current)
                     && PathCopied(s, old(Memory()), s1, Memory(), rho, kept)
                     && NodeAt(s1.disk, current, z).FileNode?
                     && BytesAt(s1.disk, current) == BytesAt(s.disk, old(current))
                     && (!volume.noCow ==> NewSince(s.disk, s1.disk, current))
                     && CopyAgain(s.disk, s1.disk, old(Memory()))
      ensures Within(s.disk, s1.disk, old(CopyCost()), old(CopyFits(s.disk)), ok)
    {
      hide Within, SameSizes, RootPlaced, NoEntryPoint, PathCost, PathFits, CopyAgain;
      ghost var hs := Memory();
      hide Mounted, PathOpen, PathMoved, Consistent, IsTree, SceneOf, NamespaceOf, Advances, WellFormed, OldKept,
           NewSince, NodeAt, BytesAt;
      ok, rho, s1 := CopyOnWrite(s, kept, d0);
      AdvancesWeaken(s, s1, d0, !volume.noCow);
      if ok && volume.noCow {
        assert Mem() == old(Mem());
        OpenLive(s, header.root, Memory(), z, kept);
        CopiesInPlace(s.disk, hs);
      } else if ok {
        CopiedFile(s, old(header.root), old(Memory()), s1, Memory(), rho, z, kept);
        CopiedAgain(s, hs, s1, rho, kept);
        assert PathNew(s.disk, s1.disk, Memory());
      }
    }

    /** The path `hs` could be copied, as it has been if need be by now, and copying it again takes no more
        blocks and is possible again. */
    ghost predicate CopyAgain(d: Disk, d1: Disk, hs: seq<Handle>)
      requires Chain() && hs != []
      reads family
    {
      && Memory() != [] && SameSizes(hs, Memory()) && (volume.noCow ==> Memory() == hs)
      && (!volume.noCow ==> && NoEntryPoint(d, hs) && NoEntryPoint(d1, Memory()) && RootPlaced(Here(), Memory())
                            && PathCost(Here(), Memory()) == PathCost(Here(), hs)
                            && (PathFits(Here(), Memory()) <==> PathFits(Here(), hs)))
    }

    lemma CopiesInPlace(d: Disk, hs: seq<Handle>)
      requires Chain() && hs == Memory() && volume.noCow
      ensures CopyAgain(d, d, hs)
    {
    }

    lemma CopiedAgain(s: FileSys, hs: seq<Handle>, s1: FileSys, rho: map<nat, nat>, kept: set<nat>)
      requires Chain() && hs != [] && !volume.noCow && NoEntryPoint(s.disk, hs)
      requires SameSizes(hs, Memory()) && RootPlaced(Here(), Memory())
      requires PathMoved(SceneOf(s, z, kept), hs, SceneOf(s1, z, kept), Memory(), rho)
      requires PathOpen(SceneOf(s1, z, kept), header.root, Memory())
      ensures CopyAgain(s.disk, s1.disk, hs)
    {
      hide Moves, SameSizes, RootPlaced, PathCost, PathFits;
      SameSizesCost(Here(), hs, Memory());
      CopiedUnfrozen(SceneOf(s, z, kept), hs, s1, header.root, Memory(), rho, z, kept);
    }

    lemma CopiesAsBefore(d: Disk, d1: Disk, hs: seq<Handle>)
      requires Chain() && hs != [] && CopyAgain(d, d1, hs)
      ensures CopyCost() == if volume.noCow then 0 else PathCost(Here(), hs)
      ensures CopyFits(d1) <==> volume.noCow || PathFits(Here(), hs)
    {
    }

    lemma CopyChecked(d: Disk, d1: Disk, hs: seq<Handle>)
      requires Chain() && hs != [] && CopyAgain(d, d1, hs)
      ensures volume.noCow || NoEntryPoint(d, hs)
    {
    }

    /** What has been written since does not matter. */
    lemma CopyAgainAfter(d: Disk, s1: FileSys, hs: seq<Handle>, s': FileSys, kept: set<nat>, cow: bool)
      requires Chain() && hs != [] && CopyAgain(d, s1.disk, hs)
      requires PathOpen(SceneOf(s1, z, kept), header.root, Memory()) && FileChanged(s1, current, s', cow)
      ensures CopyAgain(d, s'.disk, hs)
    {
      hide SameSizes, RootPlaced, PathCost, PathFits, PathOpen, FileChanged;
      if !volume.noCow {
        StatusKept(s1, header.root, Memory(), current, s', cow, z, kept);
      }
    }

    /** Write to a file whose path has been copied. */
    method WriteHere(data: seq<byte>, offset: nat, ghost s: FileSys, ghost kept: set<nat>, ghost d0: Disk)
      returns (ok: bool, ghost s': FileSys)
      requires Ready(s, kept, d0) && Writable(volume, s, current) && NodeAt(s.disk, current, z).FileNode?
      requires |data| + offset < TWO_64
      modifies volume.Repr()
      ensures volume.Valid() && volume.State() == s'.disk && Advances(s, s', d0, !volume.noCow)
      ensures ok ==> && Ready(s', kept, d0) && FileChanged(s, current, s', !volume.noCow)
                     && NamespaceOf(s', z, kept) == ViewWith(s, z, kept, current, FileNode(BytesAt(s'.disk, current)))
                     && BytesAt(s'.disk, current) == Written(BytesAt(s.disk, current), data, offset)
                     && WriteFits(s.disk.bs, |BytesAt(s.disk, current)|, offset, |data|)
      ensures var size := |BytesAt(s.disk, current)|;
              Within(s.disk, s'.disk, WriteCost(s.disk.bs, size, offset, |data|),
                     WriteFits(s.disk.bs, size, offset, |data|), ok)
    {
      hide Within, WriteCost, WriteFits, CanGrow, EmptyAtEnd;
      hide Mounted, PathOpen, Consistent, SceneOf, NamespaceOf, Advances, WellFormed, NodeAt, BytesAt, FileChanged,
           ViewWith;
      ok, s' := WriteFile(volume, current, data, offset, s, d0);
      if ok {
        FileWritten(s, header.root, Memory(), s', z, kept, d0, !volume.noCow);
      }
    }

    /** Write to an open file. Nothing is assumed about snapshots; whatever `d0` holds survives. */
    method Write(data: seq<byte>, offset: nat, ghost s: FileSys, ghost kept: set<nat>, ghost d0: Disk)
      returns (ok: bool, ghost rho: map<nat, nat>, ghost s1: FileSys, ghost s': FileSys)
      requires Ready(s, kept, d0) && NodeAt(s.disk, current, z).FileNode?
      requires |data| + offset < TWO_64
      modifies volume.Repr(), family, header
      ensures volume.Valid() && volume.State() == s'.disk && Advances(s, s', d0, !volume.noCow)
      ensures ok ==> && Ready(s', kept, d0) && Updated(s, old(Memory()), s1, rho, s', kept)
                     && BytesAt(s'.disk, current) == Written(BytesAt(s.disk, old(current)), data, offset)
                     && CopyAgain(s.disk, s'.disk, old(Memory()))
                     && WriteFits(s.disk.bs, |BytesAt(s.disk, old(current))|, offset, |data|)
      ensures var size := |BytesAt(s.disk, old(current))|;
              Within(s.disk, s'.disk, old(CopyCost()) + WriteCost(s.disk.bs, size, offset, |data|),
                     old(CopyFits(s.disk)) && WriteFits(s.disk.bs, size, offset, |data|), ok)
    {
      hide Within, CopyAgain, WriteCost, WriteFits, CopyCost, CopyFits;
      hide Mounted, PathOpen, PathMoved, Consistent, IsTree, SceneOf, NamespaceOf, Advances, WellFormed, OldKept,
           NewSince, NodeAt, BytesAt, FileChanged, ViewWith, Volume.State, Volume.Valid, Writable, Inode.Memory;
      ghost var (bs, size, hs) := (s.disk.bs, |BytesAt(s.disk, current)|, Memory());
      ghost var (cost, fits) := (CopyCost(), CopyFits(s.disk));
      var copied;
      copied, rho, s1 := CopyFilePath(s, kept, d0);
      ok, s' := copied, s1;
      if copied {
        ok, s' := WriteHere(data, offset, s1, kept, d0);
        AdvancesTrans(s, s1, s', d0, !volume.noCow);
        if ok {
          CopyAgainAfter(s.disk, s1, hs, s', kept, !volume.noCow);
          WrittenOld(s, s1, s', kept, d0);
        }
      }
      WithinThen(s.disk, s1.disk, cost, fits, copied,
                 s'.disk, WriteCost(bs, size, offset, |data|), WriteFits(bs, size, offset, |data|), ok);
    }

    /** With copy-on-write the blocks before the operation keep their bytes. */
    lemma WrittenOld(s: FileSys, s1: FileSys, s': FileSys, kept: set<nat>, d0: Disk)
      requires Ready(s', kept, d0) && FileChanged(s1, current, s', !volume.noCow)
      requires !volume.noCow ==> OldKept(s.disk, s1.disk, -1) && NewSince(s.disk, s1.disk, current)
      ensures !volume.noCow ==> OldKept(s.disk, s'.disk, -1)
    {
      hide OldKept, NewSince, FileChanged;
      if !volume.noCow {
        FileChangedOld(s1, current, s');
        OldTrans(s.disk, s1.disk, s'.disk, current);
      }
    }

    /** Change the size of a file whose path has been copied. */
    method ResizeHere(size: nat, ghost s: FileSys, ghost kept: set<nat>, ghost d0: Disk)
      returns (ok: bool, ghost s': FileSys)
      requires Ready(s, kept, d0) && Writable(volume, s, current) && NodeAt(s.disk, current, z).FileNode?
      requires size < TWO_64
      modifies volume.Repr()
      ensures volume.Valid() && volume.State() == s'.disk && Advances(s, s', d0, !volume.noCow)
      ensures ok ==> && Ready(s', kept, d0) && FileChanged(s, current, s', !volume.noCow)
                     && NamespaceOf(s', z, kept) == ViewWith(s, z, kept, current, FileNode(BytesAt(s'.disk, current)))
                     && ResizedContent(BytesAt(s.disk, current), BytesAt(s'.disk, current), size)
                     && size <= Capacity(s.disk.bs)
      ensures Within(s.disk, s'.disk, ResizeCost(s.disk.bs, |BytesAt(s.disk, current)|, size),
                     size <= Capacity(s.disk.bs), ok)
    {
      hide Within, ResizeCost, Capacity, Writable, Inode.Memory;
      hide Mounted, PathOpen, Consistent, SceneOf, NamespaceOf, Advances, WellFormed, NodeAt, BytesAt, FileChanged,
           ViewWith;
      ok, s' := ResizeFile(volume, current, size, s, d0);
      if ok {
        FileWritten(s, header.root, Memory(), s', z, kept, d0, !volume.noCow);
      }
    }

    /** Change the size of an open file. */
    method Resize(size: nat, ghost s: FileSys, ghost kept: set<nat>, ghost d0: Disk)
      returns (ok: bool, ghost rho: map<nat, nat>, ghost s1: FileSys, ghost s': FileSys)
      requires Ready(s, kept, d0) && NodeAt(s.disk, current, z).FileNode?
      requires size < TWO_64
      modifies volume.Repr(), family, header
      ensures volume.Valid() && volume.State() == s'.disk && Advances(s, s', d0, !volume.noCow)
      ensures ok ==> && Ready(s', kept, d0) && Updated(s, old(Memory()), s1, rho, s', kept)
                     && ResizedContent(BytesAt(s.disk, old(current)), BytesAt(s'.disk, current), size)
                     && CopyAgain(s.disk, s'.disk, old(Memory())) && size <= Capacity(s.disk.bs)
      ensures Within(s.disk, s'.disk,
                     old(CopyCost()) + ResizeCost(s.disk.bs, |BytesAt(s.disk, old(current))|, size),
                     old(CopyFits(s.disk)) && size <= Capacity(s.disk.bs), ok)
    {
      hide Within, CopyAgain, ResizeCost, CopyCost, CopyFits, Capacity;
      hide Mounted, PathOpen, PathMoved, Consistent, IsTree, SceneOf, NamespaceOf, Advances, WellFormed, OldKept,
           NewSince, NodeAt, BytesAt, FileChanged, ViewWith, Volume.State, Volume.Valid, Writable, Inode.Memory;
      ghost var (bs, was, hs) := (s.disk.bs, |BytesAt(s.disk, current)|, Memory());
      ghost var (cost, fits) := (CopyCost(), CopyFits(s.disk));
      var copied;
      copied, rho, s1 := CopyFilePath(s, kept, d0);
      ok, s' := copied, s1;
      if copied {
        ok, s' := ResizeHere(size, s1, kept, d0);
        AdvancesTrans(s, s1, s', d0, !volume.noCow);
        if ok {
          CopyAgainAfter(s.disk, s1, hs, s', kept, !volume.noCow);
          WrittenOld(s, s1, s', kept, d0);
        }
      }
      WithinThen(s.disk, s1.disk, cost, fits, copied, s'.disk, ResizeCost(bs, was, size), size <= Capacity(bs), ok);
    }

    /** Create an inode and save the directory's entries with a new one for it. A name that is
        already taken is refused. */
    method AddInode(name: Name, stat: seq<byte>, ghost s: FileSys, ghost d0: Disk)
      returns (r: Option<nat>, start: nat, ghost s2: FileSys, ghost s': FileSys)
      requires Writable(volume, s, current) && z.RoundTrips() && EncodableMap(dentries) && NulFree(name)
      requires StartsAt(BytesAt(s.disk, current), dentryStart)
      requires |stat| == STAT_SIZE && GetWord(stat, SIZE_OFFSET) == 0
      modifies volume.Repr()
      ensures volume.Valid() && volume.State() == s'.disk && Advances(s, s', d0, !volume.noCow)
      ensures r.Some? ==> && 512 <= s.disk.bs && Step(s, Created(r.value, NewInode(s.disk.bs, stat, r.value)), s2, true)
                          && FileChanged(s2, current, s', !volume.noCow)
                          && ReadDir(BytesAt(s'.disk, current), z) == dentries[name := r.value]
                          && StartsAt(BytesAt(s'.disk, current), start) && start == FirstStart(dentryStart)
                          && IsStamped(s'.disk, stat, r.value)
      ensures var size := SavedSize(z, FirstStart(dentryStart), dentries.Keys + {name});
              Within(s.disk, s'.disk, 1 + 4 * Pass(s.disk.bs, size), Storable(s.disk.bs, size), r.Some?)
    {
      hide Step, Consistent, WellFormed, BytesAt, EncodableMap, StartsAt, Advances, FileChanged, Within, Pass,
           Capacity, NamesLength, FrontKept, ReadDir, Stamped;
      ghost var (bs, size) := (s.disk.bs, SavedSize(z, FirstStart(dentryStart), dentries.Keys + {name}));
      r, s2 := CreateInode(volume, stat, s, d0);
      ghost var created := r.Some?;
      AdvancesWeaken(s, s2, d0, !volume.noCow);
      s', start := s2, dentryStart;
      if r.Some? {
        CreatedReady(s, r.value, NewInode(s.disk.bs, stat, r.value), s2, current, dentries, name, z);
        assert dentries[name := r.value].Keys == dentries.Keys + {name};
        var ok;
        ok, start, s' := SaveDentries(volume, current, dentryStart, dentries[name := r.value], z, s2, d0);
        AdvancesTrans(s, s2, s', d0, !volume.noCow);
        if ok {
          NewInodeKept(s, r.value, stat, s2, current, s', !volume.noCow);
        } else {
          r := None;
        }
      }
      WithinThen(s.disk, s2.disk, 1, true, created, s'.disk, 4 * Pass(bs, size), Storable(bs, size), r.Some?);
    }

    /** Create an inode below this directory, after the directory's path has been copied. */
    method AddBelow(name: Name, stat: seq<byte>, ghost s: FileSys, ghost kept: set<nat>, ghost d0: Disk)
      returns (r: Option<nat>, ghost s': FileSys)
      requires Ready(s, kept, d0) && Writable(volume, s, current) && DirReady(SceneOf(s, z, kept), Mem())
      requires EncodableMap(dentries) && StartsAt(BytesAt(s.disk, current), dentryStart)
      requires name !in dentries && NulFree(name) && |stat| == STAT_SIZE && GetWord(stat, SIZE_OFFSET) == 0
      modifies volume.Repr(), this
      ensures volume.Valid() && volume.State() == s'.disk && Advances(s, s', d0, !volume.noCow)
      ensures r.Some? ==>
                var n := r.value;
                && current == old(current) && dentries == old(dentries)[name := n]
                && EntryMade(s, s', current, dentries, n, stat, z, kept) && IsStamped(s'.disk, stat, n)
                && Ready(s', kept, d0)
                && PathOpen(SceneOf(s', z, kept), header.root, Memory() + [Handle(n, 0, map[], map[])])
      ensures var size := SavedSize(z, FirstStart(old(dentryStart)), old(dentries).Keys + {name});
              Within(s.disk, s'.disk, 1 + 4 * Pass(s.disk.bs, size), Storable(s.disk.bs, size), r.Some?)
    {
      hide Volume.State, Volume.Valid, Inode.Memory, ReadDir, Writable, Within, Pass, Capacity, NamesLength;
      hide Step, Consistent, WellFormed, BytesAt, EncodableMap, StartsAt, Advances, FileChanged, IsTree, SceneOf,
           NamespaceOf, DirReady, Mounted, PathOpen, WithEntry, IsDir, NewInode, EntryMade, IsStamped;
      var start;
      ghost var s2;
      r, start, s2, s' := AddInode(name, stat, s, d0);
      if r.Some? {
        EnterBelow(name, r.value, start, stat, s, s2, s', kept, d0);
      }
    }

    /** Remember a new entry once the directory has been saved with it. */
    method EnterBelow(name: Name, n: nat, start: nat, ghost stat: seq<byte>, ghost s: FileSys, ghost s2: FileSys,
                      ghost s': FileSys, ghost kept: set<nat>, ghost d0: Disk)
      requires volume.Valid() && volume.State() == s'.disk && Chain()
      requires Mounted(s, z, kept, header.root, d0) && PathOpen(SceneOf(s, z, kept), header.root, Memory())
      requires DirReady(SceneOf(s, z, kept), Mem()) && name !in dentries && NulFree(name)
      requires |stat| == STAT_SIZE && 512 <= s.disk.bs && Advances(s, s', d0, !volume.noCow)
      requires Step(s, Created(n, NewInode(s.disk.bs, stat, n)), s2, true)
      requires FileChanged(s2, current, s', !volume.noCow)
      requires ReadDir(BytesAt(s'.disk, current), z) == dentries[name := n]
      requires StartsAt(BytesAt(s'.disk, current), start)
      modifies this
      ensures current == old(current) && dentries == old(dentries)[name := n]
      ensures EntryMade(s, s', current, dentries, n, stat, z, kept) && Ready(s', kept, d0)
      ensures PathOpen(SceneOf(s', z, kept), header.root, Memory() + [Handle(n, 0, map[], map[])])
    {
      hide Volume.State, Volume.Valid, Memory;
      hide Step, Consistent, WellFormed, BytesAt, EncodableMap, StartsAt, Advances, FileChanged, IsTree, SceneOf,
           NamespaceOf, DirReady, Mounted, PathOpen, WithEntry, IsDir, NewInode;
      ghost var hs := Memory();
      ghost var up' := Handle(current, start, dentries[name := n], reverse[n := name]);
      EntryAddedScene(s, header.root, hs, s2, s', up', name, n, NewInode(s.disk.bs, stat, n), z, kept, d0,
                      !volume.noCow);
      Enter(name, n, start, s', kept, d0);
    }

    /** Remember a new entry. */
    method Enter(name: Name, n: nat, start: nat, ghost s: FileSys, ghost kept: set<nat>, ghost d0: Disk)
      requires volume.Valid() && volume.State() == s.disk && Chain() && Mounted(s, z, kept, header.root, d0)
      requires PathOpen(SceneOf(s, z, kept), header.root,
                        WithLast(Memory(), Handle(current, start, dentries[name := n], reverse[n := name])))
      modifies this
      ensures Mem() == old(Handle(current, start, dentries[name := n], reverse[n := name]))
      ensures Memory() == WithLast(old(Memory()), Mem())
      ensures Ready(s, kept, d0)
    {
      hide Mounted, PathOpen, SceneOf, Consistent;
      ghost var above := if parent == null then [] else parent.Memory();
      WithNewLast(above, Mem(), Mem());
      dentries := dentries[name := n];
      reverse := reverse[n := name];
      dentryStart := start;
      WithNewLast(above, old(Mem()), Mem());
    }

    /** The path of this directory has been copied if need be; its entries are as before. */
    method CopyDirPath(ghost s: FileSys, ghost kept: set<nat>, ghost d0: Disk)
        returns (ok: bool, ghost rho: map<nat, nat>, ghost s1: FileSys)
      requires Ready(s, kept, d0) && NodeAt(s.disk, current, z).DirNode?
      modifies volume.Repr(), family, header
      ensures volume.Valid() && volume.State() == s1.disk && Advances(s, s1, d0, !volume.noCow)
      ensures ok ==> && Ready(s1, kept, d0) && Writable(volume, s1, current)
                     && PathCopied(s, old(Memory()), s1, Memory(), rho, kept)
                     && DirReady(SceneOf(s1, z, kept), Mem()) && EncodableMap(dentries)
                     && StartsAt(BytesAt(s1.disk, current), dentryStart) && dentries == old(dentries)
                     && CopyAgain(s.disk, s1.disk, old(Memory()))
      ensures Within(s.disk, s1.disk, old(CopyCost()), old(CopyFits(s.disk)), ok)
    {
      hide Within, SameSizes, RootPlaced, NoEntryPoint, PathCost, PathFits, CopyAgain, Volume.State, Inode.Chain,
           Inode.Memory;
      ghost var hs := Memory();
      hide Mounted, PathOpen, PathMoved, Consistent, IsTree, SceneOf, NamespaceOf, Advances, WellFormed, OldKept,
           PathNew, NodeAt, BytesAt, DirReady, EncodableMap, StartsAt;
      ok, rho, s1 := CopyOnWrite(s, kept, d0);
      AdvancesWeaken(s, s1, d0, !volume.noCow);
      if ok && volume.noCow {
        assert Mem() == old(Mem());
        OpenDir(s, header.root, Memory(), z, kept, d0);
        CopiesInPlace(s.disk, hs);
      } else if ok {
        CopiedDir(s, old(header.root), old(Memory()), s1, header.root, Memory(), rho, z, kept, d0);
        CopiedAgain(s, hs, s1, rho, kept);
      }
    }

    /** Where this directory's entries start at most once its path has been copied. */
    ghost function EntryStart(): nat
      requires Chain()
      reads family
    {
      if volume.noCow then FirstStart(dentryStart) else StartOf(Here(), Memory(), |Memory()| - 1)
    }

    /** For a new entry: the inode block, and saving the entries in four passes. */
    ghost function EntryCost(name: Name): nat
      requires Chain()
      reads family
    {
      1 + 4 * Pass(volume.blockSize, SavedSize(z, EntryStart(), dentries.Keys + {name}))
    }

    /** The directory fits into its inode with the new entry. */
    ghost predicate EntryFits(name: Name)
      requires Chain()
      reads family
    {
      Storable(volume.blockSize, SavedSize(z, EntryStart(), dentries.Keys + {name}))
    }

    /** Once the path has been copied, the entries start where this has been accounted for. */
    lemma EntryPlaced(d: Disk, d1: Disk, hs: seq<Handle>, start: nat)
      requires Chain() && hs != [] && CopyAgain(d, d1, hs)
      requires start == if volume.noCow then FirstStart(hs[|hs| - 1].start) else StartOf(Here(), hs, |hs| - 1)
      ensures FirstStart(dentryStart) <= start
    {
    }

    /** Create an inode in this directory: the directory's path is copied if need be, the inode
        allocated and entered, and the result can be opened. A name that is already taken is refused. */
    method MakeInode(name: Name, stat: seq<byte>, ghost s: FileSys, ghost kept: set<nat>, ghost d0: Disk)
      returns (child: Inode?, ghost rho: map<nat, nat>, ghost s1: FileSys, ghost hs1: seq<Handle>, ghost s': FileSys)
      requires Ready(s, kept, d0) && NodeAt(s.disk, current, z).DirNode?
      requires NulFree(name) && |stat| == STAT_SIZE && GetWord(stat, SIZE_OFFSET) == 0
      modifies volume.Repr(), family, header
      ensures volume.Valid() && volume.State() == s'.disk && Advances(s, s', d0, !volume.noCow)
      ensures name in old(dentries) ==> child == null && s' == s
      ensures child != null ==>
                && fresh(child) && child.parent == this && child.volume == volume
                && child.Ready(s', kept, d0) && Ready(s', kept, d0)
                && hs1 != [] && PathCopied(s, old(Memory()), s1, hs1, rho, kept)
                && current == hs1[|hs1| - 1].current && dentries == old(dentries)[name := child.current]
                && EntryMade(s1, s', current, dentries, child.current, stat, z, kept)
                && IsStamped(s'.disk, stat, child.current)
                && (volume.noCow || NoEntryPoint(s.disk, old(Memory())))
      ensures Within(s.disk, s'.disk, old(CopyCost()) + old(EntryCost(name)),
                     name !in old(dentries) && old(CopyFits(s.disk)) && old(EntryFits(name)), child != null)
    {
      hide Advances, Mounted, PathOpen, SceneOf, NodeAt, EntryMade, IsStamped, PathCopied, Within, NoEntryPoint,
           CopyCost, CopyFits, EntryCost, EntryFits, Inode.Memory;
      child, rho, s1, hs1, s' := null, map[], s, [], s;
      AdvancesRefl(s, d0, !volume.noCow);
      if name !in dentries {
        child, rho, s1, hs1, s' := AddEntry(name, stat, s, kept, d0);
      } else {
        NothingWithin(s.disk, CopyCost() + EntryCost(name));
      }
    }

    method AddEntry(name: Name, stat: seq<byte>, ghost s: FileSys, ghost kept: set<nat>, ghost d0: Disk)
      returns (child: Inode?, ghost rho: map<nat, nat>, ghost s1: FileSys, ghost hs1: seq<Handle>, ghost s': FileSys)
      requires Ready(s, kept, d0) && NodeAt(s.disk, current, z).DirNode? && name !in dentries
      requires NulFree(name) && |stat| == STAT_SIZE && GetWord(stat, SIZE_OFFSET) == 0
      modifies volume.Repr(), family, header
      ensures volume.Valid() && volume.State() == s'.disk && Advances(s, s', d0, !volume.noCow)
      ensures child != null ==>
                && fresh(child) && child.parent == this && child.volume == volume
                && child.Ready(s', kept, d0) && Ready(s', kept, d0)
                && hs1 != [] && PathCopied(s, old(Memory()), s1, hs1, rho, kept)
                && current == hs1[|hs1| - 1].current && dentries == old(dentries)[name := child.current]
                && EntryMade(s1, s', current, dentries, child.current, stat, z, kept)
                && IsStamped(s'.disk, stat, child.current)
                && (volume.noCow || NoEntryPoint(s.disk, old(Memory())))
      ensures Within(s.disk, s'.disk, old(CopyCost()) + old(EntryCost(name)),
                     old(CopyFits(s.disk)) && old(EntryFits(name)), child != null)
    {
      hide Consistent, WellFormed, BytesAt, EncodableMap, StartsAt, Advances, IsTree, SceneOf, NamespaceOf,
           DirReady, Mounted, PathOpen, PathMoved, EntryMade, IsStamped, Moves, NodeAt, Within, Pass, NamesLength,
           Capacity, NoEntryPoint, SameSizes, RootPlaced, PathCost, PathFits, Volume.State, Volume.Repr,
           Inode.Memory, CopyCost, Storable, PathCopied, FirstStart;
      ghost var (hs, cost, fits) := (Memory(), CopyCost(), CopyFits(s.disk));
      ghost var (names, start) := (dentries.Keys + {name}, EntryStart());
      ghost var size := SavedSize(z, start, names);
      var copied, r;
      copied, rho, s1 := CopyDirPath(s, kept, d0);
      child, r, s', hs1 := null, None, s1, Memory();
      if copied {
        ghost var now := FirstStart(dentryStart);
        EntryPlaced(s.disk, s1.disk, hs, start);
        r, s' := AddBelow(name, stat, s1, kept, d0);
        AdvancesTrans(s, s1, s', d0, !volume.noCow);
        EntriesWithin(s1.disk, z, now, start, names, s'.disk, r.Some?);
        if r.Some? {
          child := OpenAs(r.value, map[], 0, map[], s', kept, d0);
        }
      }
      WithinThen(s.disk, s1.disk, cost, fits, copied, s'.disk, 1 + 4 * Pass(s.disk.bs, size),
                 Storable(s.disk.bs, size), r.Some?);
    }

    /** What is remembered of an inode that is being opened: for a directory, its entries. */
    method ReadHandle(n: nat, ghost s: FileSys, ghost root: nat, ghost kept: set<nat>, ghost d0: Disk)
      returns (m: map<Name, nat>, start: nat, r: map<nat, Name>)
      requires volume.Valid() && volume.State() == s.disk && n in s.live
      requires Mounted(s, z, kept, root, d0) && StartsSoundly(BytesAt(s.disk, n))
      ensures Recalled(s, Handle(n, start, m, r), z)
    {
      hide Mounted, Consistent, WellFormed, BytesAt, NodeAt, OneNameEach;
      LiveKind(s, n, z);
      m, start, r := map[], 0, map[];
      if IsDir(volume.data[n]) {
        m, start := ReadDentries(volume, n, 0, z);
        EntriesDistinct(s, root, n, z, kept, d0);
        assert EntriesOf(NodeAt(s.disk, n, z)) == m;
        r := ReverseMap(m);
      }
    }

    /** Open an entry of this directory; a directory's own entries are read. There is nothing to open
        for a name that is not there. */
    method Open(name: Name, ghost s: FileSys, ghost kept: set<nat>, ghost d0: Disk) returns (child: Inode?)
      requires Ready(s, kept, d0) && NodeAt(s.disk, current, z).DirNode?
      requires name in dentries ==> dentries[name] in s.live && StartsSoundly(BytesAt(s.disk, dentries[name]))
      ensures child == null <==> name !in dentries
      ensures child != null ==>
                && fresh(child) && child.parent == this && child.volume == volume && child.Ready(s, kept, d0)
                && child.current == dentries[name] && Recalled(s, child.Mem(), z)
    {
      hide Mounted, PathOpen, Consistent, SceneOf, BytesAt, NodeAt, Recalled;
      if name !in dentries {
        return null;
      }
      var n := dentries[name];
      var m, start, r := ReadHandle(n, s, header.root, kept, d0);
      OpenExtended(s, header.root, Memory(), name, Handle(n, start, m, r), z, kept);
      child := OpenAs(n, m, start, r, s, kept, d0);
    }

    /** Refer to an inode below this directory with what has been read of it. */
    method OpenAs(n: nat, m: map<Name, nat>, start: nat, r: map<nat, Name>, ghost s: FileSys, ghost kept: set<nat>,
                  ghost d0: Disk) returns (child: Inode)
      requires Ready(s, kept, d0)
      requires PathOpen(SceneOf(s, z, kept), header.root, Memory() + [Handle(n, start, m, r)])
      ensures fresh(child) && child.parent == this && child.volume == volume && child.Ready(s, kept, d0)
      ensures child.Mem() == Handle(n, start, m, r)
    {
      hide Mounted, PathOpen, SceneOf;
      child := new Inode(volume, header, this, n, m, start, r, z, reserved);
      assert child.Memory() == Memory() + [Handle(n, start, m, r)];
    }

    /** One operation on an open file. */
    method Perform(op: Op, ghost s: FileSys, ghost kept: set<nat>, ghost d0: Disk) returns (ok: bool, ghost s': FileSys)
      requires Ready(s, kept, d0) && NodeAt(s.disk, current, z).FileNode? && Permitted(op)
      modifies volume.Repr(), family, header
      ensures volume.Valid() && volume.State() == s'.disk && Advances(s, s', d0, !volume.noCow)
      ensures ok ==> && Ready(s', kept, d0) && NodeAt(s'.disk, current, z).FileNode?
                     && ContentStep(BytesAt(s.disk, old(current)), op, BytesAt(s'.disk, current))
                     && (volume.noCow || NoEntryPoint(s.disk, old(Memory())))
                     && CopyCost() == old(CopyCost()) && (old(CopyFits(s.disk)) ==> CopyFits(s'.disk))
      ensures var (bs, size) := (s.disk.bs, |BytesAt(s.disk, old(current))|);
              Within(s.disk, s'.disk, old(CopyCost()) + OpCost(bs, size, op),
                     old(CopyFits(s.disk)) && OpFits(bs, size, op), ok)
    {
      hide Within, CopyAgain, NoEntryPoint, PathCost, PathFits, WriteCost, ResizeCost, WriteFits, Capacity;
      hide Mounted, PathOpen, PathMoved, Consistent, IsTree, SceneOf, NamespaceOf, Advances, WellFormed, OldKept,
           NodeAt, BytesAt;
      ghost var hs := Memory();
      ghost var rho, s1;
      match op
      case WriteOp(src, offset) =>
        ok, rho, s1, s' := Write(src, offset, s, kept, d0);
        if ok {
          UpdatedNode(s1, s', current, z, kept);
          CopiesAsBefore(s.disk, s'.disk, hs);
          CopyChecked(s.disk, s'.disk, hs);
        }
      case ResizeOp(size) =>
        ok, rho, s1, s' := Resize(size, s, kept, d0);
        if ok {
          UpdatedNode(s1, s', current, z, kept);
          CopiesAsBefore(s.disk, s'.disk, hs);
          CopyChecked(s.disk, s'.disk, hs);
        }
    }

    /** One sweep of a snapshot. This path stays open. The first sweep leaves earlier snapshots
        protected, and any operations may follow before the second one; from the second sweep on
        it is the frozen state that survives. */
    method Sweep(share: bool, ghost s: FileSys, ghost kept: set<nat>, ghost d0: Disk) returns (ghost s': FileSys)
      requires Ready(s, kept, d0)
      modifies volume.Repr()
      ensures Ready(s', kept, if share then s'.disk else d0) && s' == s.(disk := Swept(s.disk, share))
      ensures Memory() == old(Memory()) && NamespaceOf(s', z, kept) == NamespaceOf(s, z, kept)
      ensures BytesAt(s'.disk, current) == BytesAt(s.disk, current)
      ensures NodeAt(s'.disk, current, z) == NodeAt(s.disk, current, z)
      ensures forall j: nat :: j < |s.disk.attr| ==>
                (s'.disk.attr[j].status == SnapshotEntry <==> s.disk.attr[j].status == SnapshotEntry)
      ensures CopyCost() == old(CopyCost()) && (CopyFits(s'.disk) <==> old(CopyFits(s.disk)))
      ensures !share ==> Took(s.disk, s'.disk, 0)
    {
      hide Mounted, PathOpen, SceneOf, NamespaceOf, BytesAt, NodeAt, Swept, Protects, WellFormed, Consistent,
           Volume.State, Took, PathCost, PathFits;
      SweptEntries(s, share, Memory());
      OpenLive(s, header.root, Memory(), z, kept);
      s' := SweptState(s, share);
      SweptMounted(s, s', share, z, kept, header.root, d0);
      SweptPath(s, s', z, kept, header.root, Memory());
      volume.Sweep(share);
    }

    /** Operations on an open file, one after the other. */
    method PerformAll(ops: seq<Op>, ghost s: FileSys, ghost kept: set<nat>, ghost d0: Disk)
        returns (ok: bool, ghost s': FileSys)
      requires Ready(s, kept, d0) && NodeAt(s.disk, current, z).FileNode?
      requires forall i :: 0 <= i < |ops| ==> Permitted(ops[i])
      modifies volume.Repr(), family, header
      ensures volume.Valid() && volume.State() == s'.disk && Advances(s, s', d0, !volume.noCow)
      ensures ok ==> && Ready(s', kept, d0) && NodeAt(s'.disk, current, z).FileNode?
                     && Agrees(BytesAt(s'.disk, current), ApplyAll(Everything(BytesAt(s.disk, old(current))), ops))
                     && CopyCost() == old(CopyCost()) && (old(CopyFits(s.disk)) ==> CopyFits(s'.disk))
      ensures AllWithin(s.disk, s'.disk, old(CopyCost()), old(CopyFits(s.disk)),
                        Everything(BytesAt(s.disk, old(current))), ops, ok)
      decreases |ops|
    {
      hide Within, AllWithin, CopyCost, CopyFits, NoEntryPoint, OpCost, OpFits, Inode.Memory, Volume.State,
           Inode.Mem, Volume.Valid, Everything;
      ghost var (k, cost, fits) := (Everything(BytesAt(s.disk, current)), CopyCost(), CopyFits(s.disk));
      hide Mounted, PathOpen, Consistent, SceneOf, NamespaceOf, BytesAt, NodeAt, Advances, Agrees, Apply,
           ContentStep, Permitted;
      if |ops| == 0 {
        EverythingAgrees(BytesAt(s.disk, current));
        AdvancesRefl(s, d0, !volume.noCow);
        NothingToDo(s.disk, k, cost, fits);
        return true, s;
      }
      var n := |ops| - 1;
      ghost var s1;
      ok, s1 := PerformAll(ops[..n], s, kept, d0);
      s' := s1;
      if ok {
        ok, s' := PerformLast(ops, s, cost, fits, k, s1, kept, d0);
        AdvancesTrans(s, s1, s', d0, !volume.noCow);
      } else {
        LastWithin(s.disk, s1.disk, false, s1.disk, false, cost, fits, true, k, ops);
      }
    }

    /** The last one of several operations, of which the others have led from `s0` to `s`. */
    method PerformLast(ops: seq<Op>, ghost s0: FileSys, ghost cost: nat, ghost fits: bool, ghost k: Known,
                       ghost s: FileSys, ghost kept: set<nat>,
                       ghost d0: Disk) returns (ok: bool, ghost s': FileSys)
      requires Ready(s, kept, d0) && NodeAt(s.disk, current, z).FileNode?
      requires ops != [] && Permitted(ops[|ops| - 1])
      requires Agrees(BytesAt(s.disk, current), ApplyAll(k, ops[..|ops| - 1]))
      requires CopyCost() == cost && (fits ==> CopyFits(s.disk))
      requires AllWithin(s0.disk, s.disk, cost, fits, k, ops[..|ops| - 1], true) && s.disk.bs == s0.disk.bs
      modifies volume.Repr(), family, header
      ensures volume.Valid() && volume.State() == s'.disk && Advances(s, s', d0, !volume.noCow)
      ensures ok ==> && Ready(s', kept, d0) && NodeAt(s'.disk, current, z).FileNode?
                     && Agrees(BytesAt(s'.disk, current), ApplyAll(k, ops))
                     && CopyCost() == cost && (fits ==> CopyFits(s'.disk))
                     && (volume.noCow || NoEntryPoint(s.disk, old(Memory())))
      ensures AllWithin(s0.disk, s'.disk, cost, fits, k, ops, ok)
    {
      hide Within, AllWithin, CopyCost, CopyFits, NoEntryPoint, OpCost, OpFits, Inode.Memory, Mounted, PathOpen,
           Consistent, SceneOf, NamespaceOf, BytesAt, NodeAt, Advances, Agrees, Apply, ContentStep, Permitted;
      ghost var (op, before) := (ops[|ops| - 1], ApplyAll(k, ops[..|ops| - 1]));
      ghost var c, again := BytesAt(s.disk, current), CopyFits(s.disk);
      AgreesSize(c, before);
      ok, s' := Perform(ops[|ops| - 1], s, kept, d0);
      if ok {
        StepAgrees(c, before, op, BytesAt(s'.disk, current));
      }
      LastWithin(s0.disk, s.disk, true, s'.disk, ok, cost, fits, again, k, ops);
    }

    /** The second sweep and operations after it: everything reads afterwards as it did before. */
    method SweepAndPerform(ops: seq<Op>, ghost s: FileSys, ghost kept: set<nat>, ghost d0: Disk)
      returns (ok: bool, ghost s': FileSys)
      requires Ready(s, kept, d0) && !volume.noCow && NodeAt(s.disk, current, z).FileNode?
      requires forall i :: 0 <= i < |ops| ==> Permitted(ops[i])
      modifies volume.Repr(), family, header
      ensures volume.Valid() && volume.State() == s'.disk
      ensures forall i :: i in s.live ==> ReadsAsTaken(s.disk, s'.disk, i)
      ensures ok ==> && Ready(s', kept, Swept(s.disk, true))
                     && Agrees(BytesAt(s'.disk, current), ApplyAll(Everything(BytesAt(s.disk, old(current))), ops))
      ensures AllWithin(Swept(s.disk, true), s'.disk, old(CopyCost()), old(CopyFits(s.disk)),
                        Everything(BytesAt(s.disk, old(current))), ops, ok)
    {
      hide AllWithin, Inode.Memory, CopyCost, CopyFits, Took, Everything, Volume.State, Volume.Repr, Inode.Chain;
      hide Mounted, PathOpen, WellFormed, SceneOf, NamespaceOf, BytesAt, NodeAt, Advances, Agrees, Swept,
           ReadsAsTaken;
      ghost var s1 := Sweep(true, s, kept, d0);
      ok, s' := PerformAll(ops, s1, kept, s1.disk);
      forall i | i in s.live
        ensures ReadsAsTaken(s.disk, s'.disk, i)
      {
        OperationsIsolated(s, s1, s', i);
      }
    }

    /** A snapshot in the life of an open file: first sweep, operations, second sweep, more operations.
        Whether or not the latter succeed, everything reads afterwards as it did at the second sweep,
        when this file was inode `c` with the contents that the first operations gave it. */
    method PerformAround(preparing: seq<Op>, ops: seq<Op>, ghost s: FileSys, ghost kept: set<nat>, ghost d0: Disk)
      returns (taken: bool, ok: bool, ghost t: FileSys, ghost c: nat, ghost s': FileSys)
      requires Ready(s, kept, d0) && !volume.noCow && NodeAt(s.disk, current, z).FileNode?
      requires forall i :: 0 <= i < |preparing| ==> Permitted(preparing[i])
      requires forall i :: 0 <= i < |ops| ==> Permitted(ops[i])
      modifies volume.Repr(), family, header
      ensures volume.Valid() && volume.State() == s'.disk
      ensures taken ==>
                && c in t.live
                && Agrees(BytesAt(t.disk, c), ApplyAll(Everything(BytesAt(s.disk, old(current))), preparing))
                && forall i :: i in t.live ==> ReadsAsTaken(t.disk, s'.disk, i)
      ensures taken && ok ==> && Ready(s', kept, Swept(t.disk, true))
                              && Agrees(BytesAt(s'.disk, current), ApplyAll(Everything(BytesAt(t.disk, c)), ops))
      ensures AllWithin(s.disk, t.disk, old(CopyCost()), old(CopyFits(s.disk)),
                        Everything(BytesAt(s.disk, old(current))), preparing, taken)
      ensures taken ==>
                AllWithin(Swept(t.disk, true), s'.disk, old(CopyCost()), old(CopyFits(s.disk)),
                          Everything(BytesAt(t.disk, c)), ops, ok)
    {
      hide AllWithin, Inode.Memory, CopyCost, CopyFits, Took, Everything, Volume.State, Volume.Repr, Inode.Chain;
      hide Mounted, PathOpen, WellFormed, SceneOf, NamespaceOf, BytesAt, NodeAt, Advances, Agrees, Swept,
           ReadsAsTaken;
      ghost var s1 := Sweep(false, s, kept, d0);
      ghost var (k, cost, fits) := (Everything(BytesAt(s.disk, current)), CopyCost(), old(CopyFits(s.disk)));
      taken, t := PerformAll(preparing, s1, kept, d0);
      WithinBefore(s.disk, s1.disk, t.disk, cost, fits, fits, k, preparing, taken);
      ok, c, s' := false, current, t;
      if taken {
        OpenLive(t, header.root, Memory(), z, kept);
        ghost var again := CopyFits(t.disk);
        ok, s' := SweepAndPerform(ops, t, kept, d0);
        NothingTook(Swept(t.disk, true), 0);
        WithinBefore(Swept(t.disk, true), Swept(t.disk, true), s'.disk, cost, again, fits,
                     Everything(BytesAt(t.disk, c)), ops, ok);
      }
    }
  }

  /** The bitmap dumped after the root's copy was staged marks all blocks in use before. */
  lemma RootDumped(s: FileSys, c: nat, n: nat, s1: FileSys, s2: FileSys, bytes: seq<byte>, start: nat,
                   reserved: nat, z: Compression)
    requires Step(s, Staged(c, n), s1, true) && Step(s1, Adopted(c, n), s2, true)
    requires c < |s.disk.data| && MetadataAt(bytes, start, reserved, z, s2.disk.bits, s.disk.data[c])
    ensures DumpedAt(bytes, start, reserved, z, s.disk, s.disk.data[c])
  {
    hide Step, Consistent, MetadataAt;
    forall j: nat | s.disk.InUse(j)
      ensures |s2.disk.bits| == |s.disk.bits| && s2.disk.bits[j]
    {
      UsedWhenDumped(s, c, n, s1, s2, j);
    }
    BitsAsMany(s, Staged(c, n), s1, Adopted(c, n), s2);
    assert Marks(s2.disk.bits, s.disk);
  }

  lemma BitsAsMany(s: FileSys, e: Event, s1: FileSys, e': Event, s2: FileSys)
    requires Step(s, e, s1, true) && Step(s1, e', s2, true)
    ensures |s2.disk.bits| == |s.disk.bits|
  {
    StepGeometry(s, e, s1, true);
    StepGeometry(s1, e', s2, true);
  }

  /** Snapshot isolation for the operations of this module: they all lead from one state to another
      without harm to `d0`, and such changes compose. After the second sweep, whatever they do, the
      snapshot reads as it was taken. */
  lemma OperationsIsolated(s: FileSys, s0: FileSys, s': FileSys, i: nat)
    requires s0 == s.(disk := Swept(s.disk, true)) && Advances(s0, s', s0.disk, true) && i in s.live
    ensures ReadsAsTaken(s.disk, s'.disk, i)
  {
    SweptProtects(s, s0);
    ProtectedReads(s, s', i);
  }

  /** A sweep makes no inode an entry point, nor unmakes one; the first one takes no block. */
  lemma SweptEntries(s: FileSys, share: bool, hs: seq<Handle>)
    ensures var (d, d') := (s.disk, Swept(s.disk, share));
            && |d'.attr| == |d.attr|
            && (forall j: nat :: j < |d.attr| ==>
                  (d'.attr[j].status == SnapshotEntry <==> d.attr[j].status == SnapshotEntry))
            && (NoEntryPoint(d', hs) <==> NoEntryPoint(d, hs))
            && (!share ==> Took(d, d', 0))
  {
    var (d, d') := (s.disk, Swept(s.disk, share));
    SweptUse(d, share);
    forall j: nat | j < |d.attr|
      ensures d'.attr[j].status == SnapshotEntry <==> d.attr[j].status == SnapshotEntry
    {
      SweptEntryPoints(d, share, j);
    }
    hide Consistent, Swept;
    if !share {
      assert Busy(d') == Busy(d);
    }
    forall k | 0 <= k < |hs|
      ensures NotEntryPoint(d', hs[k]) <==> NotEntryPoint(d, hs[k])
    {
    }
  }

  /** The directory at the end of an open path. */
  lemma OpenDir(s: FileSys, root: nat, hs: seq<Handle>, z: Compression, kept: set<nat>, d0: Disk)
    requires Mounted(s, z, kept, root, d0) && PathOpen(SceneOf(s, z, kept), root, hs)
    requires NodeAt(s.disk, hs[|hs| - 1].current, z).DirNode?
    ensures var h := hs[|hs| - 1];
            && h.current in s.live && DirReady(SceneOf(s, z, kept), h) && EncodableMap(h.entries)
            && StartsAt(BytesAt(s.disk, h.current), h.start)
  {
    hide Consistent, WellFormed, BytesAt, NodeAt, EncodableMap;
    OpenLive(s, root, hs, z, kept);
    MountedKept(s, z, kept, root, d0);
    MountedTree(s, z, kept, root, d0);
    OpenDirReady(s, z, kept, root, hs[|hs| - 1]);
  }

  /** Where the entries start, as far as a file says so, is not inside that very word. */
  ghost predicate StartsSoundly(c: seq<byte>) {
    WORD <= |c| ==> GetWord(c, 0) == 0 || WORD <= GetWord(c, 0)
  }

  /** A handle agrees with a live inode: for a directory, it has the entries and where they start. */
  ghost predicate Recalled(s: FileSys, h: Handle, z: Compression) {
    && h.current in s.live
    && var node := NodeAt(s.disk, h.current, z);
       && h.entries == EntriesOf(node)
       && (node.DirNode? ==> StartsAt(BytesAt(s.disk, h.current), h.start) && Inverse(h.entries, h.reverse))
  }

  /** What a live inode is, and that its entries can be read. */
  lemma LiveKind(s: FileSys, n: nat, z: Compression)
    requires n in s.live
    ensures WellFormed(s.disk, n) && n < |s.disk.data| && |s.disk.data[n]| >= 512
    ensures NodeAt(s.disk, n, z) == if IsDir(s.disk.data[n]) then DirNode(ReadDir(Content(s.disk, n), z))
                                    else FileNode(Content(s.disk, n))
    ensures BytesAt(s.disk, n) == Content(s.disk, n)
  {
  }

  lemma EntriesDistinct(s: FileSys, root: nat, n: nat, z: Compression, kept: set<nat>, d0: Disk)
    requires Mounted(s, z, kept, root, d0) && n in s.live
    ensures OneNameEach(EntriesOf(NodeAt(s.disk, n, z)))
  {
    hide NodeAt;
    var ns := NamespaceOf(s, z, kept);
    var m := EntriesOf(NodeAt(s.disk, n, z));
    forall a, b | a in m && b in m && m[a] == m[b]
      ensures a == b
    {
      assert EntersTwice(ns, n, n, a, b);
    }
  }

  /** An entry that has been opened continues the path. */
  lemma OpenExtended(s: FileSys, root: nat, hs: seq<Handle>, name: Name, h: Handle, z: Compression, kept: set<nat>)
    requires PathOpen(SceneOf(s, z, kept), root, hs) && hs != []
    requires var up := hs[|hs| - 1];
             && NodeAt(s.disk, up.current, z).DirNode?
             && name in up.entries && up.entries[name] == h.current && Recalled(s, h, z)
    ensures PathOpen(SceneOf(s, z, kept), root, hs + [h])
  {
    hide NodeAt, BytesAt, WellFormed, Consistent;
    var (v, up) := (SceneOf(s, z, kept), hs[|hs| - 1]);
    assert Remembers(v, up);
    assert Paired(up.entries, up.reverse, name, h.current);
    PathExtended(v, root, hs, h);
  }

  lemma OpenLive(s: FileSys, root: nat, hs: seq<Handle>, z: Compression, kept: set<nat>)
    requires PathOpen(SceneOf(s, z, kept), root, hs) && hs != []
    ensures hs[|hs| - 1].current in s.live
  {
  }

  /** The directory at the end of a copied path. */
  lemma CopiedDir(s: FileSys, root: nat, hs: seq<Handle>, s1: FileSys, root1: nat, hs1: seq<Handle>,
                  rho: map<nat, nat>, z: Compression, kept: set<nat>, d0: Disk)
    requires PathOpen(SceneOf(s, z, kept), root, hs)
    requires PathMoved(SceneOf(s, z, kept), hs, SceneOf(s1, z, kept), hs1, rho)
    requires Mounted(s1, z, kept, root1, d0) && PathOpen(SceneOf(s1, z, kept), root1, hs1)
    requires hs != [] && NodeAt(s.disk, hs[|hs| - 1].current, z).DirNode?
    ensures hs1 != []
    ensures var h := hs1[|hs1| - 1];
            && h.entries == hs[|hs| - 1].entries && DirReady(SceneOf(s1, z, kept), h) && EncodableMap(h.entries)
            && StartsAt(BytesAt(s1.disk, h.current), h.start)
            && h.current in s1.live && !s1.disk.Frozen(h.current)
  {
    hide Consistent, WellFormed, Moves, IsTree, BytesAt, NodeAt;
    var h := hs1[|hs1| - 1];
    MovedFile(SceneOf(s, z, kept), root, hs, SceneOf(s1, z, kept), hs1, rho);
    MovedDir(SceneOf(s, z, kept), root, hs, SceneOf(s1, z, kept), hs1, rho);
    SceneNotFrozen(s1, z, kept, h.current);
    MountedKept(s1, z, kept, root1, d0);
    MountedTree(s1, z, kept, root1, d0);
    OpenDirReady(s1, z, kept, root1, h);
  }

  /** The inode has this stat record, with its own number in it. */
  ghost predicate IsStamped(d: Disk, stat: seq<byte>, n: nat) {
    n < |d.data| && Stamped(d.data[n], stat, n)
  }

  /** Between these states the inode `n` was created and entered into directory `p`, which now has these
      entries; nothing else in the name space changed. */
  ghost predicate EntryMade(s: FileSys, s': FileSys, p: nat, entries: map<Name, nat>, n: nat, stat: seq<byte>,
                            z: Compression, kept: set<nat>) {
    && 512 <= s.disk.bs && |stat| == STAT_SIZE
    && NamespaceOf(s', z, kept) ==
         WithEntry(NamespaceOf(s, z, kept), p, entries, n,
                   if IsDir(NewInode(s.disk.bs, stat, n)) then DirNode(map[]) else FileNode([]))
  }

  /** The file at the end of a copied path. */
  lemma CopiedFile(s: FileSys, root: nat, hs: seq<Handle>, s': FileSys, hs': seq<Handle>, rho: map<nat, nat>,
                   z: Compression, kept: set<nat>)
    requires PathOpen(SceneOf(s, z, kept), root, hs)
    requires PathMoved(SceneOf(s, z, kept), hs, SceneOf(s', z, kept), hs', rho)
    ensures hs != [] && hs' != []
    ensures var (i, i') := (hs[|hs| - 1].current, hs'[|hs'| - 1].current);
            && i' in s'.live && !s'.disk.Frozen(i')
            && (NodeAt(s.disk, i, z).FileNode? ==>
                NodeAt(s'.disk, i', z).FileNode? && BytesAt(s'.disk, i') == BytesAt(s.disk, i))
  {
    hide Consistent, WellFormed, Moves;
    MovedFile(SceneOf(s, z, kept), root, hs, SceneOf(s', z, kept), hs', rho);
    SceneNotFrozen(s', z, kept, hs'[|hs'| - 1].current);
  }
}
