/** The checksums: table-driven CRCs without reflection, for any register width of at least eight
    bits. Registers and polynomials are lists of bits, most significant bit first. */
module Crc {
  import opened Arithmetic
  import opened Bytes

  type Bits = seq<bool>

  /* ---- numbers as bits ---- */

  function BitsOf(n: nat, w: nat): (b: Bits)
    ensures |b| == w
  {
    if w == 0 then [] else BitsOf(n / 2, w - 1) + [n % 2 == 1]
  }

  function NatOf(b: Bits): nat {
    if b == [] then 0 else 2 * NatOf(b[..|b| - 1]) + if b[|b| - 1] then 1 else 0
  }

  lemma {:induction false} BitsOfNat(b: Bits)
    ensures BitsOf(NatOf(b), |b|) == b
  {
    if b != [] {
      var n, half, last := NatOf(b), NatOf(b[..|b| - 1]), if b[|b| - 1] then 1 else 0;
      BitsOfNat(b[..|b| - 1]);
      assert n == 2 * half + last;
      assert n / 2 == half && n % 2 == last;
      assert b == b[..|b| - 1] + [b[|b| - 1]];
      assert BitsOf(n, |b|) == BitsOf(n / 2, |b| - 1) + [n % 2 == 1];
    }
  }

  lemma {:induction false} NatOfBelow(b: Bits)
    ensures NatOf(b) < Pow2(|b|)
  {
    if b != [] {
      NatOfBelow(b[..|b| - 1]);
    }
  }

  /* ---- the shift register ---- */

  function Xor(a: Bits, b: Bits): (r: Bits)
    requires |a| == |b|
    ensures |r| == |a|
    ensures forall i :: 0 <= i < |a| ==> r[i] == (a[i] != b[i])
  {
    seq(|a|, i requires 0 <= i < |a| => a[i] != b[i])
  }

  function Clear(n: nat): (r: Bits)
    ensures |r| == n && forall i :: 0 <= i < n ==> !r[i]
  {
    seq(n, _ => false)
  }

  predicate Poly(p: Bits) {
    8 <= |p|
  }

  /** One step of the register without a message bit: shift out the most significant bit and, if it
      was set, subtract the polynomial. */
  function Turn(p: Bits, r: Bits): (r': Bits)
    requires Poly(p) && |r| == |p|
    ensures |r'| == |p|
  {
    if r[0] then Xor(r[1..] + [false], p) else r[1..] + [false]
  }

  function Turns(p: Bits, r: Bits, k: nat): (r': Bits)
    requires Poly(p) && |r| == |p|
    ensures |r'| == |p|
    decreases k
  {
    if k == 0 then r else Turns(p, Turn(p, r), k - 1)
  }

  /** The message bits enter the register one by one: this is division, bit by bit. */
  function Divide(p: Bits, r: Bits, message: Bits): (r': Bits)
    requires Poly(p) && |r| == |p|
    ensures |r'| == |p|
    decreases |message|
  {
    if message == [] then r else Divide(p, Turn(p, r[0 := r[0] != message[0]]), message[1..])
  }

  lemma TurnXor(p: Bits, a: Bits, b: Bits)
    requires Poly(p) && |a| == |p| == |b|
    ensures Turn(p, Xor(a, b)) == Xor(Turn(p, a), Turn(p, b))
  {
  }

  /** The register is linear. */
  lemma {:induction false} TurnsXor(p: Bits, a: Bits, b: Bits, k: nat)
    requires Poly(p) && |a| == |p| == |b|
    ensures Turns(p, Xor(a, b), k) == Xor(Turns(p, a, k), Turns(p, b, k))
    decreases k
  {
    if k != 0 {
      TurnXor(p, a, b);
      TurnsXor(p, Turn(p, a), Turn(p, b), k - 1);
    }
  }

  /** As long as only zeros are shifted out, nothing is subtracted. */
  lemma {:induction false} TurnsShift(p: Bits, r: Bits, k: nat)
    requires Poly(p) && |r| == |p| && k <= |p| && forall i :: 0 <= i < k ==> !r[i]
    ensures Turns(p, r, k) == r[k..] + Clear(k)
    decreases k
  {
    if k != 0 {
      var r1 := r[1..] + [false];
      TurnsShift(p, r1, k - 1);
      assert r1[k - 1..] + Clear(k - 1) == r[k..] + Clear(k);
    }
  }

  lemma {:induction false} TurnsSplit(p: Bits, r: Bits, j: nat, k: nat)
    requires Poly(p) && |r| == |p|
    ensures Turns(p, r, j + k) == Turns(p, Turns(p, r, j), k)
    decreases j
  {
    if j != 0 {
      TurnsSplit(p, Turn(p, r), j - 1, k);
    }
  }

  lemma AddFirst(r: Bits, message: Bits, w: nat)
    requires |r| == w && 0 < |message| <= w
    ensures Xor(r, message + Clear(w - |message|)) ==
            Xor(r[0 := r[0] != message[0]], [false] + message[1..] + Clear(w - |message|))
  {
  }

  /** Message bits can be added to the register beforehand, all at once. */
  lemma {:induction false} DivideAhead(p: Bits, r: Bits, message: Bits)
    requires Poly(p) && |r| == |p| && |message| <= |p|
    ensures Divide(p, r, message) == Turns(p, Xor(r, message + Clear(|p| - |message|)), |message|)
    decreases |message|
  {
    hide Xor;
    var n := |message|;
    if n == 0 {
      assert Xor(r, message + Clear(|p|)) == r;
    } else {
      var rest := message[1..];
      var first := r[0 := r[0] != message[0]];
      var later := [false] + rest + Clear(|p| - n);
      DivideAhead(p, Turn(p, first), rest);
      AddFirst(r, message, |p|);
      TurnXor(p, first, later);
      assert later[1..] + [false] == rest + Clear(|p| - |rest|);
      hide Xor;
    }
  }

  lemma {:induction false} DivideConcat(p: Bits, r: Bits, a: Bits, b: Bits)
    requires Poly(p) && |r| == |p|
    ensures Divide(p, r, a + b) == Divide(p, Divide(p, r, a), b)
    decreases |a|
  {
    if a == [] {
      assert a + b == b;
    } else {
      assert (a + b)[0] == a[0] && (a + b)[1..] == a[1..] + b;
      DivideConcat(p, Turn(p, r[0 := r[0] != a[0]]), a[1..], b);
    }
  }

  /* ---- the table ---- */

  /** The table entry of an index: the index, in the low bits, after a whole turn of the register. */
  function Entry(p: Bits, index: Bits): (r: Bits)
    requires Poly(p) && |index| == 8
    ensures |r| == |p|
  {
    Turns(p, Clear(|p| - 8) + index, |p|)
  }

  lemma EntryIsEightTurns(p: Bits, index: Bits)
    requires Poly(p) && |index| == 8
    ensures Entry(p, index) == Turns(p, index + Clear(|p| - 8), 8)
  {
    var r := Clear(|p| - 8) + index;
    TurnsSplit(p, r, |p| - 8, 8);
    TurnsShift(p, r, |p| - 8);
    assert r[|p| - 8..] == index;
  }

  /** Looking up the byte to be shifted out replaces eight steps of the division. */
  lemma LookupDivides(p: Bits, r: Bits, b: Bits)
    requires Poly(p) && |r| == |p| && |b| == 8
    ensures Xor(Entry(p, Xor(b, r[..8])), r[8..] + Clear(8)) == Divide(p, r, b)
  {
    var high := Xor(b, r[..8]) + Clear(|p| - 8);
    var low := Clear(8) + r[8..];
    DivideAhead(p, r, b);
    assert Xor(r, b + Clear(|p| - 8)) == Xor(high, low);
    TurnsXor(p, high, low, 8);
    EntryIsEightTurns(p, Xor(b, r[..8]));
    TurnsShift(p, low, 8);
    assert low[8..] == r[8..];
  }

  /** Compute one table entry. */
  method TableValue(p: Bits, index: nat) returns (remainder: Bits)
    requires Poly(p) && index < 256
    ensures remainder == Entry(p, BitsOf(index, 8))
  {
    remainder := Clear(|p| - 8) + BitsOf(index, 8);
    ghost var start := remainder;
    var i := 0;
    while i < |p|
      invariant i <= |p| && |remainder| == |p|
      invariant Turns(p, start, |p|) == Turns(p, remainder, |p| - i)
    {
      if remainder[0] {
        remainder := Xor(remainder[1..] + [false], p);
      } else {
        remainder := remainder[1..] + [false];
      }
      i := i + 1;
    }
  }

  predicate Table(p: Bits, table: seq<Bits>)
    requires Poly(p)
  {
    |table| == 256 && forall i :: 0 <= i < 256 ==> table[i] == Entry(p, BitsOf(i, 8))
  }

  method MakeTable(p: Bits) returns (table: seq<Bits>)
    requires Poly(p)
    ensures Table(p, table)
  {
    table := [];
    while |table| < 256
      invariant |table| <= 256
      invariant forall i :: 0 <= i < |table| ==> table[i] == Entry(p, BitsOf(i, 8))
    {
      var entry := TableValue(p, |table|);
      table := table + [entry];
    }
  }

  /* ---- messages of bytes ---- */

  function MessageBits(bytes: seq<byte>): Bits {
    if bytes == [] then [] else BitsOf(bytes[0], 8) + MessageBits(bytes[1..])
  }

  /** The most significant bit of each byte comes first. */
  lemma ByteBits(c: byte)
    ensures var b := BitsOf(c, 8);
            c == Bit(b[0]) * 128 + Bit(b[1]) * 64 + Bit(b[2]) * 32 + Bit(b[3]) * 16
                 + Bit(b[4]) * 8 + Bit(b[5]) * 4 + Bit(b[6]) * 2 + Bit(b[7])
  {
    var (c1, c2) := (c / 2, c / 2 / 2);
    var (c3, c4) := (c2 / 2, c2 / 2 / 2);
    var (c5, c6) := (c4 / 2, c4 / 2 / 2);
    var c7 := c6 / 2;
    LastBit(c, 8);
    LastBit(c1, 7);
    LastBit(c2, 6);
    LastBit(c3, 5);
    LastBit(c4, 4);
    LastBit(c5, 3);
    LastBit(c6, 2);
    LastBit(c7, 1);
    hide BitsOf;
    assert c7 < 2;
  }

  lemma LastBit(n: nat, w: nat)
    requires 0 < w
    ensures n == 2 * (n / 2) + Bit(BitsOf(n, w)[w - 1]) && BitsOf(n, w)[..w - 1] == BitsOf(n / 2, w - 1)
  {
  }

  function Bit(b: bool): nat {
    if b then 1 else 0
  }

  lemma {:induction false} MessageByte(bytes: seq<byte>, k: nat)
    requires k < |bytes|
    ensures |MessageBits(bytes)| == 8 * |bytes| && MessageBits(bytes)[8 * k..8 * k + 8] == BitsOf(bytes[k], 8)
    decreases |bytes|
  {
    if k != 0 {
      MessageByte(bytes[1..], k - 1);
      var rest := MessageBits(bytes[1..]);
      assert MessageBits(bytes)[8 * k..8 * k + 8] == rest[8 * (k - 1)..8 * (k - 1) + 8];
    } else {
      MessageLength(bytes);
    }
  }

  lemma {:induction false} MessageLength(bytes: seq<byte>)
    ensures |MessageBits(bytes)| == 8 * |bytes|
    decreases |bytes|
  {
    if bytes != [] {
      MessageLength(bytes[1..]);
    }
  }

  lemma {:induction false} MessageConcat(a: seq<byte>, b: seq<byte>)
    ensures MessageBits(a + b) == MessageBits(a) + MessageBits(b)
    decreases |a|
  {
    if a == [] {
      assert a + b == b;
    } else {
      assert (a + b)[0] == a[0] && (a + b)[1..] == a[1..] + b;
      MessageConcat(a[1..], b);
    }
  }

  lemma OneByte(b: byte)
    ensures MessageBits([b]) == BitsOf(b, 8)
  {
    assert [b][1..] == [];
    assert MessageBits([]) == [];
  }

  lemma NextByte(p: Bits, r: Bits, bytes: seq<byte>, i: nat)
    requires Poly(p) && |r| == |p| && i < |bytes|
    ensures Divide(p, r, MessageBits(bytes[..i + 1]))
        == Divide(p, Divide(p, r, MessageBits(bytes[..i])), BitsOf(bytes[i], 8))
  {
    hide Divide, MessageBits, BitsOf, Turn;
    assert bytes[..i + 1] == bytes[..i] + [bytes[i]];
    MessageConcat(bytes[..i], [bytes[i]]);
    OneByte(bytes[i]);
    DivideConcat(p, r, MessageBits(bytes[..i]), BitsOf(bytes[i], 8));
  }

  /** The table-driven loop computes exactly the bit-by-bit division. */
  method CalculateCrc(p: Bits, table: seq<Bits>, bytes: seq<byte>, prior: Bits) returns (crc: Bits)
    requires Poly(p) && Table(p, table) && |prior| == |p|
    ensures crc == Divide(p, prior, MessageBits(bytes))
  {
    crc := prior;
    var i := 0;
    while i < |bytes|
      invariant i <= |bytes| && |crc| == |p|
      invariant crc == Divide(p, prior, MessageBits(bytes[..i]))
    {
      NextByte(p, prior, bytes, i);
      LookupDivides(p, crc, BitsOf(bytes[i], 8));
      var index := Xor(BitsOf(bytes[i], 8), crc[..8]);
      BitsOfNat(index);
      IndexInTable(index);
      crc := Xor(table[NatOf(index)], crc[8..] + Clear(8));
      i := i + 1;
    }
    assert bytes[..i] == bytes;
  }

  lemma IndexInTable(index: Bits)
    requires |index| == 8
    ensures NatOf(index) < 256
  {
    NatOfBelow(index);
    assert Pow2(8) == 256;
  }

  /** Continuing from a prior value equals one pass over the concatenation. */
  lemma Chaining(p: Bits, prior: Bits, a: seq<byte>, b: seq<byte>)
    requires Poly(p) && |prior| == |p|
    ensures Divide(p, prior, MessageBits(a + b)) == Divide(p, Divide(p, prior, MessageBits(a)), MessageBits(b))
  {
    MessageConcat(a, b);
    DivideConcat(p, prior, MessageBits(a), MessageBits(b));
  }

  /* ---- long division of polynomials ---- */

  datatype Division = Division(quotient: Bits, remainder: Bits)

  /** Textbook long division by x^w + p, where w is the length of p: the leading coefficient is
      the next coefficient of the quotient, and if it is set the divisor is subtracted. */
  function LongDivision(p: Bits, dividend: Bits): (q: Division)
    requires Poly(p) && |p| <= |dividend|
    ensures |q.remainder| == |p| && |q.quotient| == |dividend| - |p|
    decreases |dividend|
  {
    var w := |p|;
    if |dividend| == w then Division([], dividend)
    else
      var rest := if dividend[0] then Xor(dividend[1..w + 1], p) + dividend[w + 1..] else dividend[1..];
      var q := LongDivision(p, rest);
      Division([dividend[0]] + q.quotient, q.remainder)
  }

  /** quotient * (x^w + p) + remainder, as a polynomial. */
  function Recomposed(p: Bits, quotient: Bits, remainder: Bits): (d: Bits)
    requires Poly(p) && |remainder| == |p|
    ensures |d| == |quotient| + |p|
    decreases |quotient|
  {
    if quotient == [] then remainder
    else
      var d := [false] + Recomposed(p, quotient[1..], remainder);
      if quotient[0] then Xor(d, [true] + p + Clear(|d| - 1 - |p|)) else d
  }

  lemma RecomposedRemainder(p: Bits, remainder: Bits)
    requires Poly(p) && |remainder| == |p|
    ensures Recomposed(p, [], remainder) == remainder
  {
  }

  lemma SubtractAndAdd(p: Bits, dividend: Bits)
    requires |p| < |dividend| && dividend[0]
    ensures Xor([false] + Xor(dividend[1..|p| + 1], p) + dividend[|p| + 1..],
                [true] + p + Clear(|dividend| - 1 - |p|)) == dividend
  {
    var w := |p|;
    var less := [false] + Xor(dividend[1..w + 1], p) + dividend[w + 1..];
    var divisor := [true] + p + Clear(|dividend| - 1 - w);
    forall i | 0 <= i < |dividend| ensures (less[i] != divisor[i]) == dividend[i] {
      if i == 0 {
      } else if i <= w {
        assert less[i] == (dividend[i] != p[i - 1]);
        assert divisor[i] == p[i - 1];
      } else {
        assert less[i] == dividend[i];
        assert !divisor[i];
      }
    }
  }

  lemma FirstCoefficient(p: Bits, dividend: Bits, rest: Bits, q: Division)
    requires Poly(p) && |p| < |dividend| && |q.remainder| == |p|
    requires rest == if dividend[0] then Xor(dividend[1..|p| + 1], p) + dividend[|p| + 1..] else dividend[1..]
    requires Recomposed(p, q.quotient, q.remainder) == rest
    ensures Recomposed(p, [dividend[0]] + q.quotient, q.remainder) == dividend
  {
    var quotient := [dividend[0]] + q.quotient;
    assert quotient[1..] == q.quotient;
    assert Recomposed(p, quotient, q.remainder) ==
           if dividend[0] then Xor([false] + rest, [true] + p + Clear(|[false] + rest| - 1 - |p|)) else [false] + rest;
    hide Recomposed;
    if dividend[0] {
      hide Xor;
      SubtractAndAdd(p, dividend);
      assert [false] + rest == [false] + Xor(dividend[1..|p| + 1], p) + dividend[|p| + 1..];
    } else {
      assert [false] + rest == dividend;
    }
  }

  /** Long division is division: dividend = quotient * divisor + remainder. */
  lemma {:induction false} LongDivisionLaw(p: Bits, dividend: Bits)
    requires Poly(p) && |p| <= |dividend|
    ensures var q := LongDivision(p, dividend); Recomposed(p, q.quotient, q.remainder) == dividend
    decreases |dividend|
  {
    hide Xor, Recomposed;
    var w := |p|;
    if |dividend| == w {
      RecomposedRemainder(p, dividend);
    } else {
      var rest := if dividend[0] then Xor(dividend[1..w + 1], p) + dividend[w + 1..] else dividend[1..];
      LongDivisionLaw(p, rest);
      var q := LongDivision(p, rest);
      assert ([dividend[0]] + q.quotient)[1..] == q.quotient;
      FirstCoefficient(p, dividend, rest, q);
    }
  }

  /** The register `r` superimposed on the message with w zeros appended. */
  function Superimposed(p: Bits, r: Bits, message: Bits): (d: Bits)
    requires Poly(p) && |r| == |p|
    ensures |d| == |message| + |p|
  {
    Xor(message + Clear(|p|), r + Clear(|message|))
  }

  /** The register always ends with the remainder of long division. */
  lemma {:induction false} RegisterIsRemainder(p: Bits, r: Bits, message: Bits)
    requires Poly(p) && |r| == |p|
    ensures LongDivision(p, Superimposed(p, r, message)).remainder == Divide(p, r, message)
    decreases |message|
  {
    var d := Superimposed(p, r, message);
    if message == [] {
      assert d == r;
    } else {
      var r' := Turn(p, r[0 := r[0] != message[0]]);
      SuperimposedTurn(p, r, message);
      RegisterIsRemainder(p, r', message[1..]);
      hide Xor, Superimposed, Turn;
      assert LongDivision(p, d).remainder == LongDivision(p, Superimposed(p, r', message[1..])).remainder;
    }
  }

  /** One step of long division is one step of the register. */
  lemma SuperimposedTurn(p: Bits, r: Bits, message: Bits)
    requires Poly(p) && |r| == |p| && message != []
    ensures var d := Superimposed(p, r, message);
            (if d[0] then Xor(d[1..|p| + 1], p) + d[|p| + 1..] else d[1..]) ==
            Superimposed(p, Turn(p, r[0 := r[0] != message[0]]), message[1..])
  {
    var (w, d, first) := (|p|, Superimposed(p, r, message), r[0 := r[0] != message[0]]);
    var lhs := if d[0] then Xor(d[1..w + 1], p) + d[w + 1..] else d[1..];
    var rhs := Superimposed(p, Turn(p, first), message[1..]);
    var (m1, z, z1) := (message[1..] + Clear(w), r + Clear(|message|), Turn(p, first) + Clear(|message| - 1));
    assert first[0] == d[0];
    forall i | 0 <= i < |lhs|
      ensures lhs[i] == rhs[i]
    {
      assert d[i + 1] == (m1[i] != z[i + 1]);
      assert rhs[i] == (m1[i] != z1[i]);
      if i < w {
        TurnAt(p, first, i);
        assert lhs[i] == if d[0] then d[i + 1] != p[i] else d[i + 1];
      } else {
        assert !z1[i] && !z[i + 1] && lhs[i] == d[i + 1];
      }
    }
  }

  /** One bit of a turned register. */
  lemma TurnAt(p: Bits, r: Bits, i: nat)
    requires Poly(p) && |r| == |p| && i < |p|
    ensures var moved := i + 1 < |p| && r[i + 1]; Turn(p, r)[i] == if r[0] then moved != p[i] else moved
  {
  }

  /* ---- the two checksums in use ---- */

  /** The polynomial of Annex B of ECMA-182, and the one of CRC-8/CDMA2000. */
  const ECMA := BitsOf(0x42F0E1EBA9EA3693, 64)
  const CDMA2000 := BitsOf(0x9B, 8)

  function Hash64(bytes: seq<byte>): (h: nat)
    ensures h < TWO_64
  {
    var r := Divide(ECMA, Clear(64), MessageBits(bytes));
    NatOfBelow(r);
    Pow2Word();
    NatOf(r)
  }

  method ComputeHash64(bytes: seq<byte>) returns (h: nat)
    ensures h == Hash64(bytes)
  {
    var table := MakeTable(ECMA);
    var crc := CalculateCrc(ECMA, table, bytes, Clear(64));
    h := NatOf(crc);
  }

  /** The 64-bit hash is the remainder of the message, followed by 64 zeros, under division by the
      ECMA polynomial. */
  lemma Hash64IsRemainder(bytes: seq<byte>)
    ensures BitsOf(Hash64(bytes), 64) == LongDivision(ECMA, MessageBits(bytes) + Clear(64)).remainder
  {
    var m := MessageBits(bytes);
    RegisterIsRemainder(ECMA, Clear(64), m);
    assert Superimposed(ECMA, Clear(64), m) == m + Clear(64);
    BitsOfNat(Divide(ECMA, Clear(64), m));
  }

  /** Bits 7, 5, 3, 1 and 0 of an eight-bit checksum. */
  function Pick(c: Bits): (b: Bits)
    requires |c| == 8
    ensures |b| == 5
  {
    [c[0], c[2], c[4], c[6], c[7]]
  }

  method ComputeHash5(bytes: seq<byte>) returns (h: nat)
    ensures h < 32
    ensures var c := LongDivision(CDMA2000, Superimposed(CDMA2000, BitsOf(0xFF, 8), MessageBits(bytes))).remainder;
            |c| == 8 && BitsOf(h, 5) == [c[0], c[2], c[4], c[6], c[7]]
  {
    hide Divide, BitsOf, LongDivision, Superimposed, MessageBits, Table;
    var table := MakeTable(CDMA2000);
    var checksum := CalculateCrc(CDMA2000, table, bytes, BitsOf(0xFF, 8));
    RegisterIsRemainder(CDMA2000, BitsOf(0xFF, 8), MessageBits(bytes));
    h := NatOf(Pick(checksum));
    BitsOfNat(Pick(checksum));
    NatOfBelow(Pick(checksum));
    assert Pow2(5) == 32;
  }
}
