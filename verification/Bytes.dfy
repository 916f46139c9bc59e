/** Byte buffers and the little-endian 64-bit words that pointers and sizes are stored as. */
module Bytes {
  import opened Arithmetic

  type byte = b: int | 0 <= b < 256

  const WORD := 8
  const TWO_64 := 0x1_0000_0000_0000_0000

  function Pow256(n: nat): (r: nat)
    ensures 0 < r
  {
    if n == 0 then 1 else 256 * Pow256(n - 1)
  }

  /** The `n` little-endian bytes of `v`. */
  function ToBytes(v: nat, n: nat): (s: seq<byte>)
    ensures |s| == n
  {
    if n == 0 then [] else [v % 256] + ToBytes(v / 256, n - 1)
  }

  function FromBytes(s: seq<byte>): (v: nat)
    ensures v < Pow256(|s|)
  {
    if s == [] then 0 else s[0] + 256 * FromBytes(s[1..])
  }

  lemma {:induction false} FromToBytes(v: nat, n: nat)
    requires v < Pow256(n)
    ensures FromBytes(ToBytes(v, n)) == v
  {
    if n != 0 {
      FromToBytes(v / 256, n - 1);
      assert ToBytes(v, n)[1..] == ToBytes(v / 256, n - 1);
    }
  }

  lemma {:induction false} ToFromBytes(s: seq<byte>)
    ensures ToBytes(FromBytes(s), |s|) == s
  {
    if s != [] {
      var v := FromBytes(s);
      ToFromBytes(s[1..]);
      assert v % 256 == s[0] && v / 256 == FromBytes(s[1..]);
      assert s == [s[0]] + s[1..];
    }
  }

  lemma Pow256Word()
    ensures Pow256(WORD) == TWO_64
  {
    assert Pow256(2) == 0x1_0000;
    assert Pow256(4) == 0x1_0000_0000;
    assert Pow256(6) == 0x1_0000_0000_0000;
  }

  lemma Pow2Word()
    ensures Pow2(64) == TWO_64
  {
    assert Pow2(8) == 0x100;
    hide Pow2;
    Pow2Sum(8, 8);
    Pow2Sum(16, 16);
    Pow2Sum(32, 32);
  }

  /** The bytes of one 64-bit word. */
  function WordBytes(v: nat): (s: seq<byte>)
    ensures |s| == WORD
  {
    ToBytes(v, WORD)
  }

  /** The 64-bit word stored at byte offset `off`. */
  function GetWord(b: seq<byte>, off: nat): (v: nat)
    requires off + WORD <= |b|
    ensures v < TWO_64
  {
    Pow256Word();
    FromBytes(b[off..off + WORD])
  }

  /** Words are little-endian. */
  lemma LittleEndian(b: seq<byte>, off: nat)
    requires off + WORD <= |b|
    ensures GetWord(b, off) ==
            b[off] as nat + b[off + 1] as nat * 0x100 + b[off + 2] as nat * 0x1_0000
            + b[off + 3] as nat * 0x100_0000 + b[off + 4] as nat * 0x1_0000_0000
            + b[off + 5] as nat * 0x100_0000_0000 + b[off + 6] as nat * 0x1_0000_0000_0000
            + b[off + 7] as nat * 0x100_0000_0000_0000
  {
    var w := b[off..off + WORD];
    assert FromBytes(w[8..]) == 0;
    FirstByte(w, 7);
    FirstByte(w, 6);
    FirstByte(w, 5);
    FirstByte(w, 4);
    FirstByte(w, 3);
    FirstByte(w, 2);
    FirstByte(w, 1);
    FirstByte(w, 0);
    assert w[0..] == w;
  }

  lemma FirstByte(w: seq<byte>, k: nat)
    requires k < |w|
    ensures FromBytes(w[k..]) == w[k] + 256 * FromBytes(w[k + 1..])
  {
    assert w[k..][1..] == w[k + 1..];
  }

  /** The buffer `b` after copying `src` over it at byte offset `off`. */
  function Put(b: seq<byte>, off: nat, src: seq<byte>): (r: seq<byte>)
    requires off + |src| <= |b|
    ensures |r| == |b|
  {
    b[..off] + src + b[off + |src|..]
  }

  lemma GetWordBytes(b: seq<byte>, off: nat, v: nat)
    requires off + WORD <= |b| && v < TWO_64
    requires b[off..off + WORD] == WordBytes(v)
    ensures GetWord(b, off) == v
  {
    Pow256Word();
    FromToBytes(v, WORD);
  }

  lemma GetPutSame(b: seq<byte>, off: nat, v: nat)
    requires off + WORD <= |b| && v < TWO_64
    ensures GetWord(Put(b, off, WordBytes(v)), off) == v
  {
    GetWordBytes(Put(b, off, WordBytes(v)), off, v);
  }

  lemma GetPutOther(b: seq<byte>, off: nat, src: seq<byte>, at: nat)
    requires off + |src| <= |b| && at + WORD <= |b|
    requires at + WORD <= off || off + |src| <= at
    ensures GetWord(Put(b, off, src), at) == GetWord(b, at)
  {
    assert Put(b, off, src)[at..at + WORD] == b[at..at + WORD];
  }

  /** A vector of 64-bit words as it lies in memory. */
  function WordsBytes(ws: seq<nat>): (s: seq<byte>)
    ensures |s| == WORD * |ws|
  {
    if ws == [] then [] else WordBytes(ws[0]) + WordsBytes(ws[1..])
  }

  lemma {:induction false} WordsBytesAt(ws: seq<nat>, k: nat)
    requires k < |ws|
    ensures WordsBytes(ws)[WORD * k..WORD * k + WORD] == WordBytes(ws[k])
  {
    if k != 0 {
      WordsBytesAt(ws[1..], k - 1);
      var rest := WordsBytes(ws[1..]);
      assert WordsBytes(ws)[WORD * k..WORD * k + WORD] == rest[WORD * (k - 1)..WORD * (k - 1) + WORD];
    }
  }

  lemma PutPrefix(b: seq<byte>, src: seq<byte>, lo: nat, hi: nat)
    requires lo <= hi <= |src| <= |b|
    ensures Put(b, 0, src)[lo..hi] == src[lo..hi]
  {
  }

  /** Copying a vector of words to the start of a buffer makes each of them readable there. */
  lemma GetPutWords(b: seq<byte>, ws: seq<nat>, k: nat)
    requires WORD * |ws| <= |b| && k < |ws| && ws[k] < TWO_64
    ensures GetWord(Put(b, 0, WordsBytes(ws)), WORD * k) == ws[k]
  {
    WordsBytesAt(ws, k);
    PutPrefix(b, WordsBytes(ws), WORD * k, WORD * k + WORD);
    GetWordBytes(Put(b, 0, WordsBytes(ws)), WORD * k, ws[k]);
  }

  function Zeros(n: nat): (s: seq<byte>)
    ensures |s| == n
  {
    seq(n, _ => 0)
  }
}
