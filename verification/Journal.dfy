/** The action journal: a ring of bytes that keeps whole 64-byte action records while it wraps. */
module Journal {
  import opened Arithmetic
  import opened Bytes
  import Crc

  const MAGIC: nat := 0xCFADBEEF20251216
  const HEADER: nat := 32
  const RECORD: nat := 64
  const PARAMS: nat := 6

  /* ---- action records ---- */

  datatype Action = Action(magic: nat, crc: nat, params: seq<nat>)

  /** The action number and its five parameters, as passed to the journal. */
  type Params = p: seq<nat> | |p| == PARAMS && forall i :: 0 <= i < PARAMS ==> p[i] < TWO_64
    witness [0, 0, 0, 0, 0, 0]

  /** The record that pushing these parameters writes. */
  function Signed(params: Params): Action {
    Action(MAGIC, Crc.Hash64(WordsBytes(params)), params)
  }

  function Encode(params: Params): (b: seq<byte>)
    ensures |b| == RECORD
  {
    WordBytes(MAGIC) + WordBytes(Signed(params).crc) + WordsBytes(params)
  }

  /** What a pointer to 64 bytes, cast to an action, reads. */
  function Decode(b: seq<byte>): (a: Action)
    requires |b| == RECORD
  {
    Action(GetWord(b, 0), GetWord(b, 8), seq(PARAMS, i requires 0 <= i < PARAMS => GetWord(b, 16 + 8 * i)))
  }

  lemma DecodeEncode(params: Params)
    ensures Decode(Encode(params)) == Signed(params)
  {
    hide Crc.Hash64, WordBytes, WordsBytes, GetWord;
    var b, words := Encode(params), WordsBytes(params);
    assert b[0..8] == WordBytes(MAGIC);
    GetWordBytes(b, 0, MAGIC);
    assert b[8..16] == WordBytes(Signed(params).crc);
    GetWordBytes(b, 8, Signed(params).crc);
    forall i | 0 <= i < PARAMS ensures GetWord(b, 16 + 8 * i) == params[i] {
      ParamAt(params, i);
    }
    assert Decode(b).params == params;
  }

  /** How a record lies in memory. */
  lemma RecordFormat(params: Params, i: nat)
    requires i < 6
    ensures var b := Encode(params);
            && |b| == 64 && GetWord(b, 0) == 0xCFADBEEF20251216 && GetWord(b, 8) == Crc.Hash64(WordsBytes(params))
            && GetWord(b, 16 + 8 * i) == params[i]
  {
    DecodeEncode(params);
    hide Crc.Hash64, WordBytes, WordsBytes, GetWord, Encode;
    assert Decode(Encode(params)).params[i] == params[i];
  }

  lemma ParamAt(params: Params, i: nat)
    requires i < PARAMS
    ensures GetWord(Encode(params), 16 + 8 * i) == params[i]
  {
    hide Crc.Hash64, WordBytes, WordsBytes, GetWord;
    var b, words := Encode(params), WordsBytes(params);
    WordsBytesAt(params, i);
    assert b[16..] == words;
    assert b[16 + 8 * i..16 + 8 * i + 8] == words[8 * i..8 * i + 8];
    GetWordBytes(b, 16 + 8 * i, params[i]);
  }

  /** All records, one after the other. */
  function EncodeAll(pushed: seq<Params>): (b: seq<byte>)
    ensures |b| == RECORD * |pushed|
  {
    if pushed == [] then [] else Encode(pushed[0]) + EncodeAll(pushed[1..])
  }

  lemma {:induction false} EncodeAllPush(pushed: seq<Params>, params: Params)
    ensures EncodeAll(pushed + [params]) == EncodeAll(pushed) + Encode(params)
  {
    hide Encode;
    var all := pushed + [params];
    assert EncodeAll(all) == Encode(all[0]) + EncodeAll(all[1..]);
    if pushed == [] {
      assert all[1..] == [];
    } else {
      assert all[1..] == pushed[1..] + [params];
      EncodeAllPush(pushed[1..], params);
    }
  }

  lemma {:induction false} EncodeAllDrop(pushed: seq<Params>, k: nat)
    requires k <= |pushed|
    ensures EncodeAll(pushed)[RECORD * k..] == EncodeAll(pushed[k..])
  {
    if k != 0 {
      EncodeAllDrop(pushed[1..], k - 1);
      assert pushed[1..][k - 1..] == pushed[k..];
      assert EncodeAll(pushed)[RECORD * k..] == EncodeAll(pushed[1..])[RECORD * (k - 1)..];
    }
  }

  /** The last `n` elements, or all of them. */
  function Last<T>(s: seq<T>, n: nat): (r: seq<T>)
    ensures |r| == if |s| <= n then |s| else n
  {
    if |s| <= n then s else s[|s| - n..]
  }

  lemma LastOfLast<T>(s: seq<T>, t: seq<T>, n: nat)
    ensures Last(Last(s, n) + t, n) == Last(s + t, n)
  {
  }

  /** A ring of whole records forgets whole records. */
  lemma LastRecords(pushed: seq<Params>, n: nat)
    ensures Last(EncodeAll(pushed), RECORD * n) == EncodeAll(Last(pushed, n))
  {
    hide EncodeAll;
    if n < |pushed| {
      EncodeAllDrop(pushed, |pushed| - n);
    }
  }

  /** Search a buffer for records: at each byte a record is tried, which may read beyond the end of
      the buffer; a match skips the record, a mismatch one byte. */
  function Scan(data: seq<byte>, beyond: seq<byte>): seq<Action>
    requires |beyond| == RECORD - 1
    decreases |data|
  {
    if data == [] then []
    else
      var a := Decode((data + beyond)[..RECORD]);
      if a.magic != MAGIC then Scan(data[1..], beyond)
      else [a] + if |data| <= RECORD then [] else Scan(data[RECORD..], beyond)
  }

  function SignedAll(pushed: seq<Params>): (r: seq<Action>)
    ensures |r| == |pushed|
  {
    seq(|pushed|, i requires 0 <= i < |pushed| => Signed(pushed[i]))
  }

  lemma {:induction false} ScanRecords(pushed: seq<Params>, beyond: seq<byte>)
    requires |beyond| == RECORD - 1
    ensures Scan(EncodeAll(pushed), beyond) == SignedAll(pushed)
  {
    if pushed != [] {
      hide Encode, Decode, Signed;
      var data := EncodeAll(pushed);
      assert (data + beyond)[..RECORD] == Encode(pushed[0]);
      DecodeEncode(pushed[0]);
      assert data[RECORD..] == EncodeAll(pushed[1..]);
      ScanRecords(pushed[1..], beyond);
      assert SignedAll(pushed) == [Signed(pushed[0])] + SignedAll(pushed[1..]);
    }
  }

  /* ---- the ring ---- */

  /** The position `i` bytes after `tail`. */
  function At(tail: nat, i: nat, capacity: nat): (k: nat)
    requires tail < capacity && i <= capacity
    ensures k < capacity
  {
    if tail + i < capacity then tail + i else tail + i - capacity
  }

  /** The bytes of a ring, oldest first. */
  function Unrolled(body: seq<byte>, tail: nat, size: nat): (s: seq<byte>)
    requires tail < |body| && size <= |body|
    ensures |s| == size
  {
    seq(size, i requires 0 <= i < size => body[At(tail, i, |body|)])
  }

  /** Writing at the head, and dropping the oldest byte when the ring is full. */
  lemma UnrolledPush(body: seq<byte>, tail: nat, size: nat, c: byte)
    requires tail < |body| && size <= |body|
    ensures var written := body[At(tail, size, |body|) := c];
            Last(Unrolled(body, tail, size) + [c], |body|) ==
            if size < |body| then Unrolled(written, tail, size + 1)
            else Unrolled(written, At(tail, 1, |body|), size)
  {
    var n := |body|;
    var written := body[At(tail, size, n) := c];
    var before := Unrolled(body, tail, size);
    if size < n {
      assert Unrolled(written, tail, size + 1) == before + [c];
    } else {
      var next := At(tail, 1, n);
      forall i | 0 <= i < n ensures Unrolled(written, next, n)[i] == (before + [c])[i + 1] {
        assert At(next, i, n) == if i < n - 1 then At(tail, i + 1, n) else tail;
      }
      assert Unrolled(written, next, n) == (before + [c])[1..];
    }
  }

  lemma Wraps(tail: nat, i: nat, capacity: nat)
    requires tail < capacity && i <= capacity
    ensures (tail + i) % capacity == At(tail, i, capacity)
  {
    if tail + i < capacity {
      DivModUnique(0, tail + i, capacity);
    } else {
      DivModUnique(1, tail + i - capacity, capacity);
    }
  }

  datatype Cursor = Cursor(head: nat, tail: nat, size: nat)

  class Ring {
    const capacity: nat
    const body: array<byte>
    var cursor: Cursor
    var cursorCow: Cursor
    ghost var pushed: seq<Params>

    /** The ring by itself. */
    ghost predicate Shape()
      reads this
    {
      && body.Length == capacity
      && cursor.head < capacity && cursor.tail < capacity && cursor.size <= capacity
      && cursor.head == At(cursor.tail, cursor.size, capacity)
    }

    /** The bytes in the ring, oldest first. */
    ghost function Contents(): (s: seq<byte>)
      requires Shape()
      reads this, body
      ensures |s| == cursor.size
    {
      Unrolled(body[..], cursor.tail, cursor.size)
    }

    /** The ring holds the last whole records of everything that was pushed. */
    ghost predicate Valid()
      reads this, body
    {
      && Shape()
      && capacity % RECORD == 0
      && Contents() == Last(EncodeAll(pushed), capacity)
    }

    /** The journal of a freshly formatted file system: a zeroed region, with room for the header at
        its start and for the copy of the header at its end. */
    constructor (blocks: nat, blockSize: nat)
      requires 0 < blocks && 0 < blockSize && blockSize % 512 == 0
      ensures Valid() && pushed == [] && capacity == blocks * blockSize - 2 * HEADER
      ensures fresh(body)
    {
      RegionHoldsRecords(blocks, blockSize);
      capacity := blocks * blockSize - 2 * HEADER;
      body := new byte[blocks * blockSize - 2 * HEADER](_ => 0);
      cursor := Cursor(0, 0, 0);
      cursorCow := Cursor(0, 0, 0);
      pushed := [];
    }

    /** One byte; when the ring is full it replaces the oldest one. */
    method PutChar(c: byte)
      requires Shape()
      modifies this`cursor, body
      ensures Shape()
      ensures Contents() == Last(old(Contents()) + [c], capacity)
    {
      UnrolledPush(body[..], cursor.tail, cursor.size, c);
      Wraps(cursor.head, 1, capacity);
      Wraps(cursor.tail, 1, capacity);
      body[cursor.head] := c;
      cursor := cursor.(head := (cursor.head + 1) % capacity);
      if cursor.size < capacity {
        cursor := cursor.(size := cursor.size + 1);
      } else {
        // the ring is full: discard the oldest byte
        cursor := cursor.(tail := (cursor.tail + 1) % capacity);
      }
    }

    method PushAction(params: Params)
      requires Valid()
      modifies this, body
      ensures Valid() && pushed == old(pushed) + [params]
      ensures cursorCow == old(cursor)
    {
      hide EncodeAll, Unrolled, WordBytes, WordsBytes, Crc.Hash64;
      ghost var before := Contents();
      var crc := Crc.ComputeHash64(WordsBytes(params));
      var record := WordBytes(MAGIC) + WordBytes(crc) + WordsBytes(params);
      cursorCow := cursor;
      assert before + record[..0] == before;
      var i := 0;
      while i < |record|
        invariant i <= |record| && Shape()
        invariant Contents() == Last(before + record[..i], capacity)
        invariant cursorCow == old(cursor) && pushed == old(pushed)
      {
        LastOfLast(before + record[..i], [record[i]], capacity);
        assert before + record[..i] + [record[i]] == before + record[..i + 1];
        PutChar(record[i]);
        i := i + 1;
      }
      assert record[..i] == Encode(params);
      LastOfLast(EncodeAll(pushed), Encode(params), capacity);
      EncodeAllPush(pushed, params);
      pushed := pushed + [params];
    }

    method Dump() returns (out: seq<byte>)
      requires Shape()
      ensures out == Contents()
    {
      out := [];
      for i := 0 to cursor.size
        invariant out == Contents()[..i]
      {
        Wraps(cursor.tail, i, capacity);
        var index := (cursor.tail + i) % capacity;
        out := out + [body[index]];
      }
    }

    /** Whatever was pushed, and however often the ring wrapped: the journal lists exactly the last
        actions that fit, in order and with their checksums. `beyond` is the memory after the dumped
        bytes. */
    method DumpActions(beyond: seq<byte>) returns (actions: seq<Action>)
      requires Valid() && |beyond| == RECORD - 1
      ensures Lists(actions, pushed, capacity / RECORD)
    {
      hide Encode, Decode, EncodeAll, SignedAll, Last, Unrolled, Lists;
      var data := Dump();
      actions := [];
      var i := 0;
      while i < |data|
        invariant i <= |data| ==> Scan(data, beyond) == actions + Scan(data[i..], beyond)
        invariant |data| < i ==> Scan(data, beyond) == actions
        decreases |data| - i
      {
        var a := Decode((data + beyond)[i..i + RECORD]);
        assert (data + beyond)[i..i + RECORD] == (data[i..] + beyond)[..RECORD];
        if a.magic == MAGIC {
          assert i + RECORD <= |data| ==> data[i..][RECORD..] == data[i + RECORD..];
          actions := actions + [a];
          i := i + RECORD;
        } else {
          assert data[i..][1..] == data[i + 1..];
          i := i + 1;
        }
      }
      assert i <= |data| ==> data[i..] == [];
      LastRecords(pushed, capacity / RECORD);
      ScanRecords(Last(pushed, capacity / RECORD), beyond);
      assert actions == SignedAll(Last(pushed, capacity / RECORD));
      LastListed(pushed, capacity / RECORD);
    }
  }

  /** These are the last `n` actions pushed, or all of them: each with the magic number, its parameters, and
      their checksum. */
  ghost predicate Lists(actions: seq<Action>, pushed: seq<Params>, n: nat) {
    && |actions| == (if |pushed| <= n then |pushed| else n)
    && forall i :: 0 <= i < |actions| ==>
         && actions[i].magic == 0xCFADBEEF20251216
         && actions[i].params == pushed[|pushed| - |actions| + i]
         && actions[i].crc == Crc.Hash64(WordsBytes(actions[i].params))
  }

  lemma LastListed(pushed: seq<Params>, n: nat)
    ensures Lists(SignedAll(Last(pushed, n)), pushed, n)
  {
    hide Crc.Hash64, WordsBytes;
  }

  /** A region of whole sectors, without its two headers, divides into records. */
  lemma RegionHoldsRecords(blocks: nat, blockSize: nat)
    requires 0 < blocks && 0 < blockSize && blockSize % 512 == 0
    ensures 0 < blocks * blockSize - 2 * HEADER
    ensures (blocks * blockSize - 2 * HEADER) % RECORD == 0
  {
    var sectors := blockSize / 512;
    assert blocks * blockSize == 512 * (blocks * sectors);
    assert 1 <= blocks * sectors;
  }

  /** Any sequence of actions, from an empty journal. */
  method PushAll(blocks: nat, blockSize: nat, all: seq<Params>, beyond: seq<byte>) returns (actions: seq<Action>)
    requires 0 < blocks && 0 < blockSize && blockSize % 512 == 0 && |beyond| == RECORD - 1
    ensures Lists(actions, all, (blocks * blockSize - 2 * HEADER) / RECORD)
  {
    hide EncodeAll;
    var ring := new Ring(blocks, blockSize);
    for i := 0 to |all|
      invariant fresh(ring) && fresh(ring.body) && ring.Valid() && ring.pushed == all[..i]
    {
      ring.PushAction(all[i]);
    }
    assert all[..|all|] == all;
    actions := ring.DumpActions(beyond);
  }
}
