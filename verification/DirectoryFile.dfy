/** Directories as files: saving the entries of a directory, and the metadata that the root
    keeps in front of its entries. */
module DirectoryFile {
  import opened Arithmetic
  import opened Bitmap
  import opened Bytes
  import opened DiskState
  import opened Evolution
  import opened FileTree
  import opened FileContent
  import opened FileSystem
  import opened Snapshot
  import opened Volume
  import opened DentryCodec
  import opened Operations
  import opened Budget
  import opened PathBudget

  /** The bytes of all entries, in some order: parsing them gives the map back. */
  method SerializeEntries(m: map<Name, nat>) returns (buffer: seq<byte>, ghost es: seq<Entry>)
    requires EncodableMap(m)
    ensures buffer == Serialize(es) && MapOf(es) == m && Encodable(es)
    ensures m != map[] ==> es != []
    ensures FeedAll(START, buffer).entries == m
    ensures |buffer| == NamesLength(m.Keys)
  {
    hide FeedAll, NamesLength;
    buffer, es := [], [];
    var todo := m;
    while todo != map[]
      invariant buffer == Serialize(es) && Encodable(es)
      invariant |buffer| + NamesLength(todo.Keys) == NamesLength(m.Keys)
      invariant forall name :: name in todo ==> name in m && todo[name] == m[name]
      invariant forall name :: name in m ==> (name in todo || name in MapOf(es))
      invariant forall name :: name in MapOf(es) ==> name in m && MapOf(es)[name] == m[name]
      decreases |todo.Keys|
    {
      assert todo.Keys != {};
      var name :| name in todo.Keys;
      var e := Entry(name, todo[name]);
      OneNameLess(todo.Keys, name);
      EntryLength(e);
      buffer := EntryBytes(e) + buffer;
      ghost var es' := [e] + es;
      assert es'[1..] == es;
      es := es';
      ghost var keys := todo.Keys;
      todo := map x | x in todo && x != name :: todo[x];
      assert todo.Keys == keys - {name};
    }
    NoNames();
    assert todo.Keys == {};
    assert MapOf(es) == m;
    ParseSerialize(es);
  }

  lemma FileChangedTrans(s: FileSys, ino: nat, s1: FileSys, s2: FileSys, cow: bool)
    requires FileChanged(s, ino, s1, cow) && FileChanged(s1, ino, s2, cow)
    ensures FileChanged(s, ino, s2, cow)
  {
    EvolvesTrans(s.disk, TreeBlocks(TreeAt(s.disk, ino)), s1.disk, TreeBlocks(TreeAt(s1.disk, ino)),
                 s2.disk, TreeBlocks(TreeAt(s2.disk, ino)), ino, cow);
  }

  lemma ResizedStart(c: seq<byte>, c1: seq<byte>, start: nat, n: nat)
    requires StartsAt(c, start) && ResizedContent(c, c1, n) && start <= n
    ensures StartsAt(c1, start)
  {
    if start != 0 {
      assert c1[0..0 + WORD] == c[0..0 + WORD];
    }
  }

  /** Signature and packed entries written one after the other at the end of a file. */
  lemma SavedBytes(c: seq<byte>, start: nat, packed: seq<byte>)
    requires |c| == start + WORD + |packed|
    ensures var c' := Put(Put(c, start, WordBytes(MAGIC)), start + WORD, packed);
            && |c'| == |c| && c'[start..] == WordBytes(MAGIC) + packed
            && c'[..start] == c[..start]
  {
  }

  lemma SavedStart(c: seq<byte>, c': seq<byte>, start: nat)
    requires WORD <= start <= |c| == |c'| && c'[..start] == c[..start]
    ensures GetWord(c', 0) == GetWord(c, 0)
  {
    assert c'[..start][0..0 + WORD] == c'[0..0 + WORD];
    assert c[..start][0..0 + WORD] == c[0..0 + WORD];
  }

  /** Write inside a file: one pass at most. */
  method WritePart(volume: Volume, ino: nat, data: seq<byte>, offset: nat, ghost s: FileSys, ghost d0: Disk)
    returns (ok: bool, ghost s': FileSys)
    requires Writable(volume, s, ino) && 0 < |data| && offset + |data| <= |BytesAt(s.disk, ino)|
    modifies volume.Repr()
    ensures volume.Valid() && volume.State() == s'.disk && Advances(s, s', d0, !volume.noCow)
    ensures ok ==> && FileChanged(s, ino, s', !volume.noCow) && Writable(volume, s', ino)
                   && BytesAt(s'.disk, ino) == Put(BytesAt(s.disk, ino), offset, data)
    ensures Within(s.disk, s'.disk, Pass(s.disk.bs, |BytesAt(s.disk, ino)|),
                   |BytesAt(s.disk, ino)| <= Capacity(s.disk.bs), ok)
  {
    hide FileChanged, Advances, Protects, Consistent, Within, Capacity, EmptyAtEnd, CanGrow, Pass, WriteCost,
         WriteFits;
    ghost var size := |BytesAt(s.disk, ino)|;
    SizeFits(s, ino);
    WriteInPass(s.disk.bs, size, offset, |data|, size);
    ok, s' := WriteFile(volume, ino, data, offset, s, d0);
    WithinMore(s.disk, s'.disk, WriteCost(s.disk.bs, size, offset, |data|), WriteFits(s.disk.bs, size, offset, |data|),
               ok, Pass(s.disk.bs, size), size <= Capacity(s.disk.bs));
  }

  lemma SizeFits(s: FileSys, ino: nat)
    requires ino in s.live
    ensures |BytesAt(s.disk, ino)| < TWO_64
  {
  }

  /** Change the size of a file: one pass at most. */
  method ResizePart(volume: Volume, ino: nat, size: nat, ghost s: FileSys, ghost d0: Disk)
    returns (ok: bool, ghost s': FileSys)
    requires Writable(volume, s, ino) && size < TWO_64
    modifies volume.Repr()
    ensures volume.Valid() && volume.State() == s'.disk && Advances(s, s', d0, !volume.noCow)
    ensures ok ==> && FileChanged(s, ino, s', !volume.noCow) && Writable(volume, s', ino)
                   && ResizedContent(BytesAt(s.disk, ino), BytesAt(s'.disk, ino), size)
    ensures Within(s.disk, s'.disk, Pass(s.disk.bs, size), size <= Capacity(s.disk.bs), ok)
  {
    hide FileChanged, Advances, BytesAt, Protects, Consistent, Within, Capacity, Pass, ResizeCost;
    ResizeInPass(s.disk.bs, |BytesAt(s.disk, ino)|, size, size);
    ok, s' := ResizeFile(volume, ino, size, s, d0);
    WithinMore(s.disk, s'.disk, ResizeCost(s.disk.bs, |BytesAt(s.disk, ino)|, size), size <= Capacity(s.disk.bs), ok,
               Pass(s.disk.bs, size), size <= Capacity(s.disk.bs));
  }

  /** Write the signature and the packed entries behind `start`. */
  method WriteEntries(volume: Volume, ino: nat, start: nat, packed: seq<byte>, ghost s: FileSys, ghost d0: Disk)
    returns (ok: bool, ghost s': FileSys)
    requires Writable(volume, s, ino) && WORD <= start && 0 < |packed| && start + WORD + |packed| < TWO_64
    requires |BytesAt(s.disk, ino)| == start + WORD + |packed| && GetWord(BytesAt(s.disk, ino), 0) == start
    modifies volume.Repr()
    ensures volume.Valid() && volume.State() == s'.disk && Advances(s, s', d0, !volume.noCow)
    ensures ok ==> && FileChanged(s, ino, s', !volume.noCow) && Writable(volume, s', ino)
                   && |BytesAt(s'.disk, ino)| == start + WORD + |packed|
                   && BytesAt(s'.disk, ino)[start..] == WordBytes(MAGIC) + packed
                   && BytesAt(s'.disk, ino)[..start] == BytesAt(s.disk, ino)[..start]
                   && GetWord(BytesAt(s'.disk, ino), 0) == start
    ensures var size := start + WORD + |packed|;
            Within(s.disk, s'.disk, 2 * Pass(s.disk.bs, size), size <= Capacity(s.disk.bs), ok)
  {
    hide FileChanged, Advances, BytesAt, Protects, Consistent, Within, Capacity, EmptyAtEnd, CanGrow;
    ghost var c := BytesAt(s.disk, ino);
    ghost var (pass, fits) := (Pass(s.disk.bs, |c|), |c| <= Capacity(s.disk.bs));
    var written;
    ghost var s1;
    written, s1 := WritePart(volume, ino, WordBytes(MAGIC), start, s, d0);
    ok, s' := written, s1;
    if written {
      ok, s' := WritePart(volume, ino, packed, start + WORD, s1, d0);
      AdvancesTrans(s, s1, s', d0, !volume.noCow);
      if ok {
        FileChangedTrans(s, ino, s1, s', !volume.noCow);
        SavedBytes(c, start, packed);
        SavedStart(c, BytesAt(s'.disk, ino), start);
      }
    }
    WithinThen(s.disk, s1.disk, pass, fits, written, s'.disk, pass, fits, ok);
  }

  /** What precedes the entries stays as it is. */
  ghost predicate FrontKept(c: seq<byte>, c': seq<byte>, start: nat) {
    start != 0 && start <= |c| ==> start <= |c'| && c'[..start] == c[..start]
  }

  lemma ResizedFront(c: seq<byte>, c': seq<byte>, start: nat, size: nat)
    requires ResizedContent(c, c', size) && start <= size
    ensures FrontKept(c, c', start)
  {
  }

  /** Save the entries of a directory. Returns where they start. */
  method SaveDentries(volume: Volume, ino: nat, start: nat, m: map<Name, nat>, z: Compression, ghost s: FileSys,
                      ghost d0: Disk)
    returns (ok: bool, start': nat, ghost s': FileSys)
    requires Writable(volume, s, ino) && z.RoundTrips() && EncodableMap(m)
    requires StartsAt(BytesAt(s.disk, ino), start)
    modifies volume.Repr()
    ensures volume.Valid() && volume.State() == s'.disk && Advances(s, s', d0, !volume.noCow)
    ensures ok ==> && FileChanged(s, ino, s', !volume.noCow) && Writable(volume, s', ino)
                   && ReadDir(BytesAt(s'.disk, ino), z) == m && StartsAt(BytesAt(s'.disk, ino), start')
                   && FrontKept(BytesAt(s.disk, ino), BytesAt(s'.disk, ino), start)
    ensures start' == if m == map[] then start else FirstStart(start)
    ensures var size := SavedSize(z, FirstStart(start), m.Keys);
            Within(s.disk, s'.disk, 4 * Pass(s.disk.bs, size), Storable(s.disk.bs, size), ok)
  {
    hide FileChanged, Advances, BytesAt, Protects, Consistent, Within, Capacity, Pass, NamesLength, FeedAll;
    start' := start;
    ghost var size := SavedSize(z, FirstStart(start), m.Keys);
    ghost var (cost, fits) := (4 * Pass(s.disk.bs, size), Storable(s.disk.bs, size));
    if m == map[] {
      ok, s' := ResizePart(volume, ino, start, s, d0);
      PassMonotone(s.disk.bs, start, size);
      WithinMore(s.disk, s'.disk, Pass(s.disk.bs, start), start <= Capacity(s.disk.bs), ok, cost, fits);
      if ok {
        ResizedStart(BytesAt(s.disk, ino), BytesAt(s'.disk, ino), start, start);
        ResizedFront(BytesAt(s.disk, ino), BytesAt(s'.disk, ino), start, start);
        if start != 0 {
          SavedDirReads(BytesAt(s'.disk, ino), start, [], z);
        }
      }
      return;
    }
    var buffer;
    ghost var es;
    buffer, es := SerializeEntries(m);
    var packed := z.pack(buffer);
    assert 0 < |packed| <= z.bound(|buffer|);
    ok, start', s' := SavePacked(volume, ino, start, packed, s, d0);
    ghost var used := FirstStart(start) + WORD + |packed|;
    PassMonotone(s.disk.bs, used, size);
    WithinMore(s.disk, s'.disk, 4 * Pass(s.disk.bs, used), Storable(s.disk.bs, used), ok, cost, fits);
    if ok {
      SavedDirReads(BytesAt(s'.disk, ino), start', es, z);
    }
  }

  /** Save packed entries; a directory saved for the first time gets its start recorded. Sizes
      beyond 64 bits cannot arise on a volume and are refused. */
  method SavePacked(volume: Volume, ino: nat, start: nat, packed: seq<byte>, ghost s: FileSys, ghost d0: Disk)
    returns (ok: bool, start': nat, ghost s': FileSys)
    requires Writable(volume, s, ino) && 0 < |packed|
    requires StartsAt(BytesAt(s.disk, ino), start)
    modifies volume.Repr()
    ensures volume.Valid() && volume.State() == s'.disk && Advances(s, s', d0, !volume.noCow)
    ensures ok ==> && FileChanged(s, ino, s', !volume.noCow) && Writable(volume, s', ino)
                   && WORD <= start' < TWO_64 && WORD <= |BytesAt(s'.disk, ino)|
                   && GetWord(BytesAt(s'.disk, ino), 0) == start'
                   && |BytesAt(s'.disk, ino)| >= start' + WORD
                   && BytesAt(s'.disk, ino)[start'..] == WordBytes(MAGIC) + packed
                   && FrontKept(BytesAt(s.disk, ino), BytesAt(s'.disk, ino), start)
    ensures start' == FirstStart(start)
    ensures var size := FirstStart(start) + WORD + |packed|;
            Within(s.disk, s'.disk, 4 * Pass(s.disk.bs, size), Storable(s.disk.bs, size), ok)
  {
    hide FileChanged, Advances, BytesAt, Protects, Consistent, Within, Capacity, Pass;
    start', s' := if start != 0 then start else WORD, s;
    var size := start' + |packed| + WORD;
    AdvancesRefl(s, d0, !volume.noCow);
    if size >= TWO_64 {
      NothingWithin(s.disk, 4 * Pass(s.disk.bs, size));
      return false, start', s';
    }
    ghost var (pass, fits) := (Pass(s.disk.bs, size), size <= Capacity(s.disk.bs));
    var resized;
    ghost var s2;
    resized, s2 := ResizeToSave(volume, ino, start, size, s, d0);
    ok, s' := resized, s2;
    if resized {
      ok, s' := WriteEntries(volume, ino, start', packed, s2, d0);
      AdvancesTrans(s, s2, s', d0, !volume.noCow);
      if ok {
        FileChangedTrans(s, ino, s2, s', !volume.noCow);
        FrontTrans(BytesAt(s.disk, ino), BytesAt(s2.disk, ino), BytesAt(s'.disk, ino), start);
      }
    }
    WithinThen(s.disk, s2.disk, 2 * pass, fits, resized, s'.disk, 2 * pass, fits, ok);
  }

  lemma FrontTrans(c: seq<byte>, c1: seq<byte>, c2: seq<byte>, start: nat)
    requires FrontKept(c, c1, start) && start <= |c1| && start <= |c2| && c2[..start] == c1[..start]
    ensures FrontKept(c, c2, start)
  {
  }

  /** Give the file of a directory its new size, and record where its entries start if that is new. */
  method ResizeToSave(volume: Volume, ino: nat, start: nat, size: nat, ghost s: FileSys, ghost d0: Disk)
    returns (ok: bool, ghost s': FileSys)
    requires Writable(volume, s, ino) && StartsAt(BytesAt(s.disk, ino), start)
    requires FirstStart(start) + WORD <= size < TWO_64
    modifies volume.Repr()
    ensures volume.Valid() && volume.State() == s'.disk && Advances(s, s', d0, !volume.noCow)
    ensures ok ==> && FileChanged(s, ino, s', !volume.noCow) && Writable(volume, s', ino)
                   && |BytesAt(s'.disk, ino)| == size && GetWord(BytesAt(s'.disk, ino), 0) == FirstStart(start)
                   && FrontKept(BytesAt(s.disk, ino), BytesAt(s'.disk, ino), start)
    ensures Within(s.disk, s'.disk, 2 * Pass(s.disk.bs, size), size <= Capacity(s.disk.bs), ok)
  {
    hide FileChanged, Advances, BytesAt, Protects, Consistent, Within, Capacity, Pass;
    ghost var (pass, fits) := (Pass(s.disk.bs, size), size <= Capacity(s.disk.bs));
    var resized;
    ghost var s1;
    resized, s1 := ResizePart(volume, ino, size, s, d0);
    ok, s' := resized, s1;
    if resized {
      ResizedStart(BytesAt(s.disk, ino), BytesAt(s1.disk, ino), start, size);
      ResizedFront(BytesAt(s.disk, ino), BytesAt(s1.disk, ino), start, size);
      if start == 0 {
        ok, s' := WritePart(volume, ino, WordBytes(WORD), 0, s1, d0);
        AdvancesTrans(s, s1, s', d0, !volume.noCow);
        if ok {
          GetPutSame(BytesAt(s1.disk, ino), 0, WORD);
          FileChangedTrans(s, ino, s1, s', !volume.noCow);
        }
      } else {
        NoMoreWithin(s1.disk, pass, fits);
      }
    }
    WithinThen(s.disk, s1.disk, pass, fits, resized, s'.disk, pass, fits, ok);
  }

  /** Behind the word that says where the entries start, a file holds the packed bitmap and an inode block;
      `reserved` bytes lie between them and the entries. */
  ghost predicate MetadataAt(c: seq<byte>, start: nat, reserved: nat, z: Compression, bits: seq<bool>, img: Block) {
    && WORD + reserved <= start <= |c|
    && Dumps(z.unpack(c[WORD..start - reserved]), bits, img)
  }

  /** The same with some bitmap in which all blocks in use on `d` are marked. */
  ghost predicate DumpedAt(c: seq<byte>, start: nat, reserved: nat, z: Compression, d: Disk, img: Block) {
    exists bits: seq<bool> :: Marks(bits, d) && MetadataAt(c, start, reserved, z, bits, img)
  }

  ghost predicate Marks(bits: seq<bool>, d: Disk) {
    |bits| == |d.bits| && forall j: nat :: d.InUse(j) ==> bits[j]
  }

  /** Eight bits to a byte, then the inode block. */
  ghost predicate Dumps(metadata: seq<byte>, bits: seq<bool>, img: Block) {
    && |metadata| == CeilDiv(8, |bits|) + |img|
    && metadata[CeilDiv(8, |bits|)..] == img
    && forall i: nat :: i < |bits| ==> BitAt(metadata, i) == bits[i]
  }

  lemma PackedBit(packed: seq<bv8>, bytes: seq<byte>, i: nat)
    requires i / 8 < |packed| <= |bytes| && bytes[i / 8] == packed[i / 8] as byte
    ensures BitAt(bytes, i) == BitOf(packed[i / 8], i % 8)
  {
    hide BitOf;
    ByteOfBits(packed[i / 8]);
  }

  lemma ByteOfBits(c: bv8)
    ensures (c as byte) as bv8 == c
  {
  }

  lemma DumpLength(metadata: seq<byte>, bits: seq<bool>, img: Block)
    requires Dumps(metadata, bits, img)
    ensures |metadata| == CeilDiv(8, |bits|) + |img|
  {
  }

  ghost predicate BitAt(metadata: seq<byte>, i: nat) {
    i / 8 < |metadata| && BitOf(metadata[i / 8] as bv8, i % 8)
  }

  lemma MetadataSaved(c: seq<byte>, packed: seq<byte>, reserved: nat, z: Compression, metadata: seq<byte>,
                      bits: seq<bool>, img: Block)
    requires z.RoundTrips() && packed == z.pack(metadata) && Dumps(metadata, bits, img)
    requires |c| == |packed| + WORD + reserved && c[WORD..WORD + |packed|] == packed
    ensures MetadataAt(c, |c|, reserved, z, bits, img)
  {
  }

  lemma MetadataKept(c: seq<byte>, c': seq<byte>, start: nat, reserved: nat, z: Compression, bits: seq<bool>,
                     img: Block)
    requires MetadataAt(c, start, reserved, z, bits, img) && FrontKept(c, c', start)
    ensures MetadataAt(c', start, reserved, z, bits, img)
  {
    assert c'[WORD..start - reserved] == c'[..start][WORD..start - reserved];
    assert c[WORD..start - reserved] == c[..start][WORD..start - reserved];
  }

  /** Write what the root keeps in front of its entries: where they start, and packed metadata.
      The region behind it, up to the entries, is a placeholder. */
  method WriteRootPrefix(volume: Volume, ino: nat, start: nat, packed: seq<byte>, ghost s: FileSys, ghost d0: Disk)
    returns (ok: bool, ghost s': FileSys)
    requires Writable(volume, s, ino) && 0 < |packed| && WORD + |packed| <= start < TWO_64
    modifies volume.Repr()
    ensures volume.Valid() && volume.State() == s'.disk && Advances(s, s', d0, !volume.noCow)
    ensures ok ==> && FileChanged(s, ino, s', !volume.noCow) && Writable(volume, s', ino)
                   && |BytesAt(s'.disk, ino)| == start && StartsAt(BytesAt(s'.disk, ino), start)
                   && BytesAt(s'.disk, ino)[WORD..WORD + |packed|] == packed
    ensures Within(s.disk, s'.disk, 3 * Pass(s.disk.bs, start), start <= Capacity(s.disk.bs), ok)
  {
    hide FileChanged, Advances, BytesAt, Protects, Consistent, Within, Capacity, Pass;
    ghost var (pass, fits) := (Pass(s.disk.bs, start), start <= Capacity(s.disk.bs));
    var resized;
    ghost var s1;
    resized, s1 := ResizePart(volume, ino, start, s, d0);
    ok, s' := resized, s1;
    if resized {
      ok, s' := WriteMetadata(volume, ino, start, packed, s1, d0);
      AdvancesTrans(s, s1, s', d0, !volume.noCow);
      if ok {
        FileChangedTrans(s, ino, s1, s', !volume.noCow);
      }
    }
    WithinThen(s.disk, s1.disk, pass, fits, resized, s'.disk, 2 * pass, fits, ok);
  }

  method WriteMetadata(volume: Volume, ino: nat, start: nat, packed: seq<byte>, ghost s: FileSys, ghost d0: Disk)
    returns (ok: bool, ghost s': FileSys)
    requires Writable(volume, s, ino) && 0 < |packed| && WORD + |packed| <= start < TWO_64
    requires |BytesAt(s.disk, ino)| == start
    modifies volume.Repr()
    ensures volume.Valid() && volume.State() == s'.disk && Advances(s, s', d0, !volume.noCow)
    ensures ok ==> && FileChanged(s, ino, s', !volume.noCow) && Writable(volume, s', ino)
                   && |BytesAt(s'.disk, ino)| == start && StartsAt(BytesAt(s'.disk, ino), start)
                   && BytesAt(s'.disk, ino)[WORD..WORD + |packed|] == packed
    ensures Within(s.disk, s'.disk, 2 * Pass(s.disk.bs, start), start <= Capacity(s.disk.bs), ok)
  {
    hide FileChanged, Advances, BytesAt, Protects, Consistent, Within, Capacity, Pass;
    ghost var (pass, fits) := (Pass(s.disk.bs, start), start <= Capacity(s.disk.bs));
    var written;
    ghost var s1;
    written, s1 := WritePart(volume, ino, WordBytes(start), 0, s, d0);
    ok, s' := written, s1;
    if written {
      ok, s' := WritePart(volume, ino, packed, WORD, s1, d0);
      AdvancesTrans(s, s1, s', d0, !volume.noCow);
      if ok {
        FileChangedTrans(s, ino, s1, s', !volume.noCow);
        GetPutSame(BytesAt(s.disk, ino), 0, start);
        GetPutOther(BytesAt(s1.disk, ino), WORD, packed, 0);
      }
    }
    WithinThen(s.disk, s1.disk, pass, fits, written, s'.disk, pass, fits, ok);
  }

  lemma FeedNext(s: seq<byte>, i: nat)
    requires i < |s|
    ensures FeedAll(START, s[..i + 1]) == Feed(FeedAll(START, s[..i]), s[i])
  {
    assert s[..i + 1] == s[..i] + [s[i]];
    FeedConcat(START, s[..i], [s[i]]);
    var p := FeedAll(START, s[..i]);
    assert FeedAll(p, [s[i]]) == FeedAll(Feed(p, s[i]), [s[i]][1..]);
  }

  /** Parse unpacked entries byte by byte. */
  method ParseEntries(bytes: seq<byte>) returns (m: map<Name, nat>)
    ensures m == FeedAll(START, bytes).entries
  {
    m := map[];
    var name: Name, pointer: seq<byte>, inName := [], [], true;
    var i := 0;
    while i < |bytes|
      invariant i <= |bytes|
      invariant Parser(m, name, pointer, inName) == FeedAll(START, bytes[..i])
    {
      FeedNext(bytes, i);
      var c := bytes[i];
      if inName {
        if c == 0 {
          pointer, inName := [], false;
        } else {
          name := name + [c];
        }
      } else {
        pointer := pointer + [c];
        if |pointer| == WORD {
          if name !in m {
            m := m[name := FromBytes(pointer)];
          }
          name, pointer, inName := [], [], true;
        }
      }
      i := i + 1;
    }
    assert bytes[..i] == bytes;
  }

  /** Decode what lies behind the start of the entries. */
  method DecodeBuffer(buffer: seq<byte>, z: Compression, ghost c: seq<byte>) returns (m: map<Name, nat>)
    requires WORD <= |c| && GetWord(c, 0) < |c| && buffer == c[GetWord(c, 0)..]
    ensures m == ReadDir(c, z)
  {
    ghost var start := GetWord(c, 0);
    m := map[];
    if |buffer| >= WORD {
      assert c[start..start + WORD] == buffer[..WORD];
      if buffer[..WORD] == WordBytes(MAGIC) {
        assert c[start + WORD..] == buffer[WORD..];
        m := ParseEntries(z.unpack(buffer[WORD..]));
      }
    }
  }

  /** A range of a file's contents. */
  method ReadRange(volume: Volume, ino: nat, size: nat, offset: nat, ghost c: seq<byte>) returns (bytes: seq<byte>)
    requires volume.Valid() && WellFormed(volume.State(), ino)
    requires c == Content(volume.State(), ino) && offset < |c| && offset + size <= |c|
    ensures bytes == c[offset..offset + size]
  {
    var service := new InodeService.InodeService(volume, ino);
    var read := service.Read(size, offset);
    bytes := read.value;
    assert |bytes| == size;
  }

  ghost predicate OneNameEach(m: map<Name, nat>) {
    forall a, b :: a in m && b in m && m[a] == m[b] ==> a == b
  }

  /** The names of the entries' targets. */
  method ReverseMap(m: map<Name, nat>) returns (r: map<nat, Name>)
    requires OneNameEach(m)
    ensures forall a, i :: (a in m && m[a] == i) <==> (i in r && r[i] == a)
  {
    r := map[];
    var todo := m.Keys;
    while todo != {}
      invariant todo <= m.Keys
      invariant forall i :: i in r ==> r[i] in m && m[r[i]] == i && r[i] !in todo
      invariant forall a :: a in m && a !in todo ==> m[a] in r && r[m[a]] == a
      decreases |todo|
    {
      var name :| name in todo;
      r := r[m[name] := name];
      todo := todo - {name};
    }
  }

  /** Read the entries of a directory back. `start` keeps its value when nothing was ever saved. */
  method ReadDentries(volume: Volume, ino: nat, start: nat, z: Compression) returns (m: map<Name, nat>, start': nat)
    requires volume.Valid() && WellFormed(volume.State(), ino)
    ensures m == ReadDir(Content(volume.State(), ino), z)
    ensures start' == if |Content(volume.State(), ino)| < WORD then start else GetWord(Content(volume.State(), ino), 0)
  {
    hide FeedAll, TreeHeld;
    ghost var c := Content(volume.State(), ino);
    m, start' := map[], start;
    var size := SizeOf(volume.data[ino]);
    if size >= WORD {
      var first := ReadRange(volume, ino, WORD, 0, c);
      start' := GetWord(first, 0);
      assert first[0..0 + WORD] == c[0..0 + WORD];
      if start' < size {
        var buffer := ReadRange(volume, ino, size - start', start', c);
        assert buffer == c[start'..];
        m := DecodeBuffer(buffer, z, c);
      }
    }
  }
}
