/** A file as a three-level pointer tree below its inode block: its layout, its linearization
    into pointer lists, its well-formedness and the bytes it denotes. */
module FileTree {
  import opened Arithmetic
  import opened Bytes
  import opened DiskState
  import opened Evolution

  /** The stat record at the start of an inode block, and the size field inside it. */
  const STAT_SIZE := 120
  const SIZE_OFFSET := 48

  datatype Tree = Tree(l1: seq<nat>, l2: seq<nat>, l3: seq<nat>)

  /** How many pointers a file needs on each level. */
  datatype Descriptor = Descriptor(n1: nat, n2: nat, n3: nat)

  predicate BlockSize(bs: nat) {
    512 <= bs && bs % 512 == 0
  }

  lemma WordsInBlock(bs: nat)
    requires BlockSize(bs)
    ensures bs / 8 * 8 == bs && 64 <= bs / 8 && (bs - STAT_SIZE) / 8 == bs / 8 - 15
  {
    DivMod(bs, 512);
    var q := bs / 512;
    DivModUnique(64 * q, 0, 8);
    DivModUnique(64 * q - 15, 0, 8);
  }

  function Fanout(bs: nat): (p: nat)
    requires BlockSize(bs)
    ensures p * WORD == bs && 64 <= p
  {
    WordsInBlock(bs);
    bs / WORD
  }

  /** The number of level-1 pointers that fit behind the stat record. */
  function Slots(bs: nat): (n: nat)
    requires BlockSize(bs)
    ensures STAT_SIZE + WORD * n == bs
  {
    WordsInBlock(bs);
    (bs - STAT_SIZE) / WORD
  }

  function Describe(bs: nat, size: nat): Descriptor
    requires BlockSize(bs)
  {
    var n3 := CeilDiv(bs, size);
    var n2 := CeilDiv(Fanout(bs), n3);
    Descriptor(CeilDiv(Fanout(bs), n2), n2, n3)
  }

  predicate Fits(bs: nat, size: nat)
    requires BlockSize(bs)
  {
    Describe(bs, size).n1 <= Slots(bs)
  }

  /** A smaller file needs no more pointers on any level. */
  lemma DescribeMonotone(bs: nat, size: nat, size': nat)
    requires BlockSize(bs) && size <= size'
    ensures var (n, n') := (Describe(bs, size), Describe(bs, size'));
            n.n1 <= n'.n1 && n.n2 <= n'.n2 && n.n3 <= n'.n3
  {
    var (n, n') := (Describe(bs, size), Describe(bs, size'));
    hide CeilDiv;
    CeilDivMonotone(bs, size, size');
    CeilDivMonotone(Fanout(bs), n.n3, n'.n3);
    CeilDivMonotone(Fanout(bs), n.n2, n'.n2);
  }

  /** The product of the level capacities. */
  function Capacity(bs: nat): nat
    requires BlockSize(bs)
  {
    Slots(bs) * Fanout(bs) * Fanout(bs) * bs
  }

  /** A size is accepted exactly up to the capacity. */
  lemma FitsExactly(bs: nat, size: nat)
    requires BlockSize(bs)
    ensures Fits(bs, size) <==> size <= Capacity(bs)
  {
    var n3 := CeilDiv(bs, size);
    var n2 := CeilDiv(Fanout(bs), n3);
    CeilDivFits(Fanout(bs), n2, Slots(bs));
    CeilDivFits(Fanout(bs), n3, Slots(bs) * Fanout(bs));
    CeilDivFits(bs, size, Slots(bs) * Fanout(bs) * Fanout(bs));
  }

  function SizeOf(img: Block): nat
    requires 512 <= |img|
  {
    GetWord(img, SIZE_OFFSET)
  }

  /** The stat record without the size. */
  function StatRest(img: Block): seq<byte>
    requires STAT_SIZE <= |img|
  {
    img[..SIZE_OFFSET] + img[SIZE_OFFSET + WORD..STAT_SIZE]
  }

  function SlotAt(img: Block, k: nat): nat
    requires STAT_SIZE + WORD * k + WORD <= |img|
  {
    GetWord(img, STAT_SIZE + WORD * k)
  }

  /** Pointer `k` of the level below `upper`: it lies in the `k / Fanout`-th upper block. */
  function PtrAt(d: Disk, upper: seq<nat>, k: nat): nat
    requires d.Shape()
  {
    var (q, r) := (Quot(k, Fanout(d.bs)), Rem(k, Fanout(d.bs)));
    if q < |upper| && upper[q] < |d.data| then GetWord(d.data[upper[q]], WORD * r) else 0
  }

  function Lower(d: Disk, upper: seq<nat>, n: nat): (lower: seq<nat>)
    requires d.Shape()
    ensures |lower| == n
  {
    seq(n, k requires 0 <= k < n => PtrAt(d, upper, k))
  }

  /** The tree read through the inode image `img`. */
  function TreeOf(d: Disk, img: Block): (t: Tree)
    requires d.Shape() && |img| == d.bs && Fits(d.bs, SizeOf(img))
  {
    var n := Describe(d.bs, SizeOf(img));
    var l1 := seq(n.n1, k requires 0 <= k < n.n1 => SlotAt(img, k));
    var l2 := Lower(d, l1, n.n2);
    Tree(l1, l2, Lower(d, l2, n.n3))
  }

  function ByteAt(d: Disk, l3: seq<nat>, p: nat): byte
    requires d.Shape()
  {
    var (q, r) := (Quot(p, d.bs), Rem(p, d.bs));
    if q < |l3| && l3[q] < |d.data| then d.data[l3[q]][r] else 0
  }

  function FileBytes(d: Disk, l3: seq<nat>, size: nat): (bytes: seq<byte>)
    requires d.Shape()
    ensures |bytes| == size
  {
    seq(size, p requires 0 <= p < size => ByteAt(d, l3, p))
  }

  /** The contents of the file whose inode image is `img`. */
  function ContentOf(d: Disk, img: Block): seq<byte>
    requires d.Shape() && |img| == d.bs && Fits(d.bs, SizeOf(img))
  {
    FileBytes(d, TreeOf(d, img).l3, SizeOf(img))
  }

  /* ---- well-formedness ---- */

  ghost predicate NoDup(s: seq<nat>) {
    forall i, j :: 0 <= i < j < |s| ==> s[i] != s[j]
  }

  ghost function Elems(s: seq<nat>): set<nat> {
    set k | 0 <= k < |s| :: s[k]
  }

  ghost function TreeBlocks(t: Tree): set<nat> {
    Elems(t.l1) + Elems(t.l2) + Elems(t.l3)
  }

  ghost predicate Typed(d: Disk, s: seq<nat>, t: BlockType) {
    forall k :: 0 <= k < |s| ==> s[k] < |d.attr| && d.attr[s[k]].typ == t
  }

  /** All pointers are distinct, in use and of the right type, and none is the inode itself. */
  ghost predicate TreeHeld(d: Disk, ino: nat, t: Tree) {
    && NoDup(t.l1) && NoDup(t.l2) && NoDup(t.l3)
    && Elems(t.l1) !! Elems(t.l2) && Elems(t.l1) !! Elems(t.l3) && Elems(t.l2) !! Elems(t.l3)
    && ino !in TreeBlocks(t)
    && Owns(d, TreeBlocks(t))
    && Typed(d, t.l1, Pointer) && Typed(d, t.l2, Pointer) && Typed(d, t.l3, Storage)
  }

  ghost predicate WellFormed(d: Disk, ino: nat) {
    && d.Shape() && d.InUse(ino) && d.attr[ino].typ == IndexNode
    && Fits(d.bs, SizeOf(d.data[ino]))
    && TreeHeld(d, ino, TreeOf(d, d.data[ino]))
  }

  ghost function TreeAt(d: Disk, ino: nat): Tree
    requires WellFormed(d, ino)
  {
    TreeOf(d, d.data[ino])
  }

  ghost function Content(d: Disk, ino: nat): (c: seq<byte>)
    requires WellFormed(d, ino)
    ensures |c| == SizeOf(d.data[ino])
  {
    ContentOf(d, d.data[ino])
  }

  lemma TreeInside(d: Disk, ino: nat)
    requires WellFormed(d, ino)
    ensures var (t, n) := (TreeAt(d, ino), Describe(d.bs, SizeOf(d.data[ino])));
            && |t.l1| == n.n1 && |t.l2| == n.n2 && |t.l3| == n.n3
            && (forall k :: 0 <= k < |t.l1| ==> t.l1[k] < |d.data|)
            && (forall k :: 0 <= k < |t.l2| ==> t.l2[k] < |d.data|)
            && (forall k :: 0 <= k < |t.l3| ==> t.l3[k] < |d.data|)
  {
    var t := TreeAt(d, ino);
    hide Describe, Lower;
    assert Elems(t.l1) <= TreeBlocks(t) && Elems(t.l2) <= TreeBlocks(t) && Elems(t.l3) <= TreeBlocks(t);
    assert forall j :: j in TreeBlocks(t) ==> d.InUse(j);
    assert forall k :: 0 <= k < |t.l1| ==> t.l1[k] in Elems(t.l1);
    assert forall k :: 0 <= k < |t.l2| ==> t.l2[k] in Elems(t.l2);
    assert forall k :: 0 <= k < |t.l3| ==> t.l3[k] in Elems(t.l3);
  }

  /** Where the bytes of a file are: byte `q * bs + r` is byte `r` of storage block `q`. */
  lemma BytePlace(d: Disk, ino: nat, q: nat, r: nat)
    requires WellFormed(d, ino) && r < d.bs && q * d.bs + r < SizeOf(d.data[ino])
    ensures var t := TreeAt(d, ino);
            q < |t.l3| && t.l3[q] < |d.data| && Content(d, ino)[q * d.bs + r] == d.data[t.l3[q]][r]
  {
    var (t, p) := (TreeAt(d, ino), q * d.bs + r);
    TreeInside(d, ino);
    QuotRemUnique(q, r, d.bs);
    QuotCell(d.bs, SizeOf(d.data[ino]), p);
    assert Content(d, ino)[p] == ByteAt(d, t.l3, p);
    hide TreeOf, TreeHeld, WellFormed, CeilDiv;
  }

  /** Where the pointers are: level 1 behind the stat record, and as many as fit in each block of level 1 and
      of level 2. */
  lemma PointerPlace(d: Disk, ino: nat, q: nat, r: nat)
    requires WellFormed(d, ino) && r < Fanout(d.bs)
    ensures var (t, k) := (TreeAt(d, ino), q * Fanout(d.bs) + r);
            && (q < |t.l1| ==> 120 + 8 * q + 8 <= d.bs && t.l1[q] == GetWord(d.data[ino], 120 + 8 * q))
            && (k < |t.l2| ==> PointerAt(d, t.l1, q, r) == t.l2[k])
            && (k < |t.l3| ==> PointerAt(d, t.l2, q, r) == t.l3[k])
  {
    var t := TreeAt(d, ino);
    TreeInside(d, ino);
    hide TreeHeld, CeilDiv, Lower;
    LowerPlace(d, t.l1, |t.l2|, q, r);
    LowerPlace(d, t.l2, |t.l3|, q, r);
  }

  lemma LowerPlace(d: Disk, upper: seq<nat>, n: nat, q: nat, r: nat)
    requires d.Shape() && r < Fanout(d.bs) && |upper| == CeilDiv(Fanout(d.bs), n)
    requires forall k :: 0 <= k < |upper| ==> upper[k] < |d.data|
    ensures var k := q * Fanout(d.bs) + r;
            k < n ==> PointerAt(d, upper, q, r) == Lower(d, upper, n)[k]
  {
    var p := Fanout(d.bs);
    var k := q * p + r;
    QuotRemUnique(q, r, p);
    if k < n {
      QuotCell(p, n, k);
      assert PtrAt(d, upper, k) == GetWord(d.data[upper[q]], WORD * r);
    }
  }

  /** The `r`-th pointer in the `q`-th of these blocks. */
  function PointerAt(d: Disk, upper: seq<nat>, q: nat, r: nat): nat {
    if q < |upper| && upper[q] < |d.data| && 8 * r + 8 <= |d.data[upper[q]]| then GetWord(d.data[upper[q]], 8 * r)
    else 0
  }

  /** The same for any block; only well-formed inodes have contents. */
  ghost function BytesAt(d: Disk, ino: nat): seq<byte> {
    if WellFormed(d, ino) then Content(d, ino) else []
  }

  /** All blocks of a file, with its inode. */
  ghost function Footprint(d: Disk, ino: nat): set<nat>
    requires WellFormed(d, ino)
  {
    TreeBlocks(TreeAt(d, ino)) + {ino}
  }

  lemma InElems(s: seq<nat>, k: nat)
    requires k < |s|
    ensures s[k] in Elems(s)
  {
  }

  /** Replacing one element of a duplicate-free list by a new one. */
  lemma ReplaceElem(s: seq<nat>, k: nat, n: nat)
    requires k < |s| && NoDup(s) && (n == s[k] || n !in Elems(s))
    ensures NoDup(s[k := n])
    ensures Elems(s[k := n]) == Elems(s) - {s[k]} + {n}
  {
    var s' := s[k := n];
    forall i | 0 <= i < |s|
      ensures s[i] in Elems(s)
    {
    }
    forall x | x in Elems(s) - {s[k]} + {n}
      ensures x in Elems(s')
    {
      if x == n {
        assert s'[k] == n;
      } else {
        var i :| 0 <= i < |s| && s[i] == x;
        assert s'[i] == x;
      }
    }
    forall x | x in Elems(s')
      ensures x in Elems(s) - {s[k]} + {n}
    {
      var i :| 0 <= i < |s'| && s'[i] == x;
    }
  }

  lemma AppendElem(s: seq<nat>, n: nat)
    requires NoDup(s) && n !in Elems(s)
    ensures NoDup(s + [n]) && Elems(s + [n]) == Elems(s) + {n}
  {
    forall i | 0 <= i < |s|
      ensures s[i] in Elems(s)
    {
    }
    var s' := s + [n];
    assert s'[|s|] == n;
    forall x | x in Elems(s)
      ensures x in Elems(s')
    {
      var i :| 0 <= i < |s| && s[i] == x;
      assert s'[i] == x;
    }
  }

  /** Splitting a duplicate-free list splits its elements. */
  lemma SplitElems(s: seq<nat>, n: nat)
    requires n <= |s| && NoDup(s)
    ensures NoDup(s[..n]) && NoDup(s[n..])
    ensures Elems(s[..n]) !! Elems(s[n..])
    ensures Elems(s[..n]) + Elems(s[n..]) == Elems(s)
  {
    forall x | x in Elems(s)
      ensures x in Elems(s[..n]) + Elems(s[n..])
    {
      var i :| 0 <= i < |s| && s[i] == x;
      if i < n {
        assert s[..n][i] == x;
      } else {
        assert s[n..][i - n] == x;
      }
    }
  }

  lemma ConcatElems(s: seq<nat>, r: seq<nat>)
    requires NoDup(s) && NoDup(r) && Elems(s) !! Elems(r)
    ensures NoDup(s + r) && Elems(s + r) == Elems(s) + Elems(r)
  {
    var w := s + r;
    forall i, j | 0 <= i < j < |w|
      ensures w[i] != w[j]
    {
      if i < |s| <= j {
        InElems(s, i);
        InElems(r, j - |s|);
      }
    }
    forall x | x in Elems(s) + Elems(r)
      ensures x in Elems(w)
    {
      if x in Elems(s) {
        var i :| 0 <= i < |s| && s[i] == x;
        assert w[i] == x;
      } else {
        var i :| 0 <= i < |r| && r[i] == x;
        assert w[|s| + i] == x;
      }
    }
    assert forall i :: 0 <= i < |s| ==> w[i] == s[i] && s[i] in Elems(s);
    assert forall i :: |s| <= i < |w| ==> w[i] == r[i - |s|] && r[i - |s|] in Elems(r);
  }

  /* ---- framing ---- */

  lemma PtrAtFrame(d: Disk, upper: seq<nat>, d': Disk, upper': seq<nat>, k: nat)
    requires SameGeometry(d, d')
    requires var q := Quot(k, Fanout(d.bs));
             q < |upper| && q < |upper'| && upper'[q] == upper[q] &&
             (upper[q] < |d.data| ==> d'.data[upper[q]] == d.data[upper[q]])
    ensures PtrAt(d', upper', k) == PtrAt(d, upper, k)
  {
  }

  /** Pointers below unchanged blocks are unchanged. */
  lemma LowerFrame(d: Disk, d': Disk, upper: seq<nat>, n: nat)
    requires SameGeometry(d, d')
    requires forall q :: 0 <= q < |upper| ==> upper[q] < |d.data| && d'.data[upper[q]] == d.data[upper[q]]
    ensures Lower(d', upper, n) == Lower(d, upper, n)
  {
    forall k: nat | k < n
      ensures PtrAt(d', upper, k) == PtrAt(d, upper, k)
    {
    }
  }

  ghost predicate SameData(d: Disk, d': Disk, s: seq<nat>)
    requires SameGeometry(d, d')
  {
    forall q :: 0 <= q < |s| ==> s[q] < |d.data| && d'.data[s[q]] == d.data[s[q]]
  }

  /** A file reads the same, through the same image, as long as its blocks keep their bytes. */
  lemma FileFrame(d: Disk, d': Disk, img: Block)
    requires SameGeometry(d, d') && |img| == d.bs && Fits(d.bs, SizeOf(img))
    requires var t := TreeOf(d, img); SameData(d, d', t.l1) && SameData(d, d', t.l2) && SameData(d, d', t.l3)
    ensures TreeOf(d', img) == TreeOf(d, img)
    ensures ContentOf(d', img) == ContentOf(d, img)
  {
    var t := TreeOf(d, img);
    LowerFrame(d, d', t.l1, |t.l2|);
    LowerFrame(d, d', t.l2, |t.l3|);
    forall p: nat | p < SizeOf(img)
      ensures ByteAt(d', t.l3, p) == ByteAt(d, t.l3, p)
    {
    }
  }

  /** Every pointer list is what its parents say. */
  ghost predicate Linked(d: Disk, upper: seq<nat>, lower: seq<nat>)
    requires d.Shape()
  {
    forall k: nat :: k < |lower| ==> PtrAt(d, upper, k) == lower[k]
  }

  /** Reading a tree back from an image that links it. */
  lemma TreeFromLinks(d: Disk, img: Block, t: Tree)
    requires d.Shape() && |img| == d.bs && Fits(d.bs, SizeOf(img))
    requires Describe(d.bs, SizeOf(img)) == Descriptor(|t.l1|, |t.l2|, |t.l3|)
    requires forall k: nat :: k < |t.l1| ==> SlotAt(img, k) == t.l1[k]
    requires Linked(d, t.l1, t.l2) && Linked(d, t.l2, t.l3)
    ensures TreeOf(d, img) == t
  {
    var r := TreeOf(d, img);
    assert r.l1 == t.l1;
    assert r.l2 == t.l2;
    assert r.l3 == t.l3;
  }

  lemma LinksOfTree(d: Disk, img: Block)
    requires d.Shape() && |img| == d.bs && Fits(d.bs, SizeOf(img))
    ensures var t := TreeOf(d, img);
            && Describe(d.bs, SizeOf(img)) == Descriptor(|t.l1|, |t.l2|, |t.l3|)
            && (forall k: nat :: k < |t.l1| ==> SlotAt(img, k) == t.l1[k])
            && Linked(d, t.l1, t.l2) && Linked(d, t.l2, t.l3)
  {
  }
}
