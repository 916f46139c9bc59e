/** Dividing a device into its regions: head, allocation bitmap and its backup, attribute table,
    data, journal and the backup of the head. */
module Layout {
  import opened Arithmetic
  import opened Bytes
  import opened Wrappers

  const SECTOR: nat := 512
  const ATTRIBUTE: nat := 4

  /** What unsigned 64-bit arithmetic makes of an integer. */
  function Wrap(x: int): (r: nat)
    ensures r < TWO_64
    ensures 0 <= x < TWO_64 ==> r == x
  {
    x % TWO_64
  }

  /* ---- the solver ---- */

  /** The blocks of bitmap, backup bitmap, attribute table and data for so many data blocks. */
  function AllBlocks(blockSize: nat, dataBlocks: nat): nat
    requires SECTOR <= blockSize
  {
    2 * CeilDiv(8 * blockSize, dataBlocks) + CeilDiv(blockSize / ATTRIBUTE, dataBlocks) + dataBlocks
  }

  /** They are the fewest blocks that hold one bit twice and four bytes for each of them, and themselves. */
  lemma AllBlocksFewest(blockSize: nat, x: nat, n: nat)
    requires SECTOR <= blockSize && blockSize % SECTOR == 0
    ensures AllBlocks(blockSize, x) <= n <==>
            exists b: nat, a: nat :: Describes(blockSize, x, b, a) && 2 * b + a + x <= n
  {
    var (b0, a0) := (CeilDiv(8 * blockSize, x), CeilDiv(blockSize / ATTRIBUTE, x));
    hide CeilDiv;
    forall b: nat, a: nat
      ensures Describes(blockSize, x, b, a) <==> b0 <= b && a0 <= a
    {
      CeilDivFits(8 * blockSize, x, b);
      CeilDivFits(blockSize, ATTRIBUTE * x, a);
      FourBytesEach(blockSize, x);
      EightTimes(b, blockSize);
    }
    hide Describes;
    assert Describes(blockSize, x, b0, a0);
  }

  /** `b` blocks hold a bit, and `a` blocks hold four bytes, for each of `x` blocks. */
  ghost predicate Describes(blockSize: nat, x: nat, b: nat, a: nat) {
    x <= 8 * (b * blockSize) && 4 * x <= a * blockSize
  }

  lemma EightTimes(b: nat, blockSize: nat)
    ensures b * (8 * blockSize) == 8 * (b * blockSize)
  {
  }

  lemma AllBlocksMonotone(blockSize: nat, x: nat, y: nat)
    requires SECTOR <= blockSize && x <= y
    ensures AllBlocks(blockSize, x) + (y - x) <= AllBlocks(blockSize, y)
  {
    hide CeilDiv;
    CeilDivMonotone(8 * blockSize, x, y);
    CeilDivMonotone(blockSize / ATTRIBUTE, x, y);
  }

  lemma AllBlocksExceeds(blockSize: nat, x: nat)
    requires SECTOR <= blockSize && 0 < x
    ensures x < AllBlocks(blockSize, x)
  {
    CeilDivFits(8 * blockSize, x, 0);
  }

  lemma CeilDivBelow(unit: nat, cell: nat, x: nat)
    requires 0 < unit <= cell
    ensures CeilDiv(cell, x) <= x / unit + 1
  {
    DivMod(x, unit);
    SuccTimes(x / unit, unit);
    MulMonotone(unit, cell, x / unit + 1);
    CeilDivFits(cell, x, x / unit + 1);
  }

  /** The size formula stays within 64 bits wherever the solver applies it. */
  lemma AllBlocksFits(blockSize: nat, x: nat, body: nat)
    requires SECTOR <= blockSize && body < TWO_64 && x <= body - body / 100
    ensures AllBlocks(blockSize, x) < TWO_64
  {
    CeilDivBelow(4096, 8 * blockSize, x);
    CeilDivBelow(128, blockSize / ATTRIBUTE, x);
  }

  /** `best` is the largest number of data blocks that fits into `total` blocks. */
  ghost predicate Best(blockSize: nat, total: nat, best: nat)
    requires SECTOR <= blockSize
  {
    AllBlocks(blockSize, best) <= total < AllBlocks(blockSize, best + 1)
  }

  ghost predicate NearlyBest(blockSize: nat, total: nat, x: nat)
    requires SECTOR <= blockSize
  {
    && AllBlocks(blockSize, x) <= total
    && forall best: nat :: Best(blockSize, total, best) ==> x <= best && total - x <= 2 * (total - best)
  }

  /** There is a best number of data blocks, between any that fits and any that does not. */
  lemma {:induction false} BestExists(blockSize: nat, total: nat, x: nat) returns (best: nat)
    requires SECTOR <= blockSize && AllBlocks(blockSize, x) <= total
    ensures Best(blockSize, total, best)
    decreases total - x
  {
    if total < AllBlocks(blockSize, x + 1) {
      best := x;
    } else {
      AllBlocksExceeds(blockSize, x + 1);
      best := BestExists(blockSize, total, x + 1);
    }
  }

  lemma BestBelow(blockSize: nat, total: nat, best: nat, x: nat)
    requires SECTOR <= blockSize && Best(blockSize, total, best)
    ensures x <= best <==> AllBlocks(blockSize, x) <= total
  {
    if x <= best {
      AllBlocksMonotone(blockSize, x, best);
    } else {
      AllBlocksMonotone(blockSize, best + 1, x);
    }
  }

  function JournalBlocks(body: nat): nat {
    if 32 <= body / 100 then body / 100 else 32
  }

  /** Where the search for `total` blocks arrives from `lo`. */
  function Search(blockSize: nat, total: nat, lo: nat): (r: nat)
    requires SECTOR <= blockSize && lo <= total
    decreases total - lo
  {
    var mid := lo + (total - lo) / 2;
    if AllBlocks(blockSize, mid) > total || lo == mid then lo else Search(blockSize, total, mid)
  }

  /** The search halves the distance to the upper end, which never moves, and stops at the first
      candidate that is too large. It may miss the best number of data blocks, but it leaves at
      most twice as many blocks without data as the best number would. It fails only when the
      number of bits in a block overflows to zero. */
  method Solve(body: nat, blockSize: nat, journal: nat) returns (r: Option<nat>)
    requires SECTOR <= blockSize < TWO_64 && blockSize % SECTOR == 0
    requires journal < body < TWO_64 && journal == JournalBlocks(body)
    requires Wrap(8 * blockSize) in {0, 8 * blockSize}
    ensures r.None? <==> TWO_64 <= 8 * blockSize
    ensures r.Some? ==> r.value == Search(blockSize, body - journal, 0)
    ensures r.Some? ==> NearlyBest(blockSize, body - journal, r.value)
  {
    var total := body - journal;
    var bitsPerBlock := Wrap(8 * blockSize);
    var attributesPerBlock := blockSize / ATTRIBUTE;
    var lo, hi := 0, total;
    assert total <= body - body / 100;
    hide CeilDiv, JournalBlocks;
    while lo < hi
      invariant lo <= hi
      invariant AllBlocks(blockSize, lo) <= total
      invariant Search(blockSize, total, lo) == Search(blockSize, total, 0)
      invariant lo == 0 || 8 * blockSize < TWO_64
      decreases hi - lo
    {
      var mid := lo + (hi - lo) / 2;
      if bitsPerBlock == 0 {
        return None;
      }
      var all := 2 * CeilDiv(bitsPerBlock, mid) + CeilDiv(attributesPerBlock, mid) + mid;
      AllBlocksFits(blockSize, mid, body);
      assert all == AllBlocks(blockSize, mid) < TWO_64;
      if all > total || lo == mid {
        break;
      }
      lo := mid;
    }
    Wasted(blockSize, total, lo, lo + (hi - lo) / 2);
    return Some(lo);
  }

  lemma Wasted(blockSize: nat, total: nat, lo: nat, mid: nat)
    requires SECTOR <= blockSize && lo <= total && 0 < total && mid == lo + (total - lo) / 2
    requires AllBlocks(blockSize, lo) <= total
    requires AllBlocks(blockSize, mid) > total || lo == mid
    ensures NearlyBest(blockSize, total, lo)
  {
    hide AllBlocks;
    forall best: nat | Best(blockSize, total, best)
      ensures lo <= best && total - lo <= 2 * (total - best)
    {
      BestBelow(blockSize, total, best, lo);
      BestBelow(blockSize, total, best, mid);
      BestBelow(blockSize, total, best, total);
      AllBlocksExceeds(blockSize, total);
    }
  }

  /* ---- the regions ---- */

  datatype Region = Region(start: nat, end: nat)

  datatype Head = Head(
    blockSize: nat,
    blocks: nat,
    bitmap: Region,
    bitmapBackup: Region,
    attributes: Region,
    data: Region,
    journal: Region)
  {
    function Regions(): seq<Region> {
      [Region(0, 1), bitmap, bitmapBackup, attributes, data, journal, Region(Wrap(blocks - 1), blocks)]
    }
  }

  /** The regions follow each other, from the start of the device to its end. */
  ghost predicate Tiles(regions: seq<Region>, start: nat, end: nat) {
    if regions == [] then start == end
    else regions[0].start == start && start <= regions[0].end && Tiles(regions[1..], regions[0].end, end)
  }

  ghost predicate Within(region: Region, block: nat) {
    region.start <= block < region.end
  }

  lemma {:induction false} TilesBounds(regions: seq<Region>, start: nat, end: nat)
    requires Tiles(regions, start, end)
    ensures start <= end
    ensures forall i :: 0 <= i < |regions| ==> start <= regions[i].start <= regions[i].end <= end
  {
    if regions != [] {
      TilesBounds(regions[1..], regions[0].end, end);
      assert forall i :: 1 <= i < |regions| ==> regions[i] == regions[1..][i - 1];
    }
  }

  /** Tiling means that every block is in exactly one region. */
  lemma {:induction false} TilesExactlyOnce(regions: seq<Region>, start: nat, end: nat, block: nat) returns (i: nat)
    requires Tiles(regions, start, end) && start <= block < end
    ensures i < |regions| && Within(regions[i], block)
    ensures forall j :: 0 <= j < |regions| && Within(regions[j], block) ==> j == i
  {
    TilesBounds(regions[1..], regions[0].end, end);
    assert forall j :: 1 <= j < |regions| ==> regions[j] == regions[1..][j - 1];
    if block < regions[0].end {
      i := 0;
    } else {
      var k := TilesExactlyOnce(regions[1..], regions[0].end, end, block);
      i := k + 1;
    }
  }

  /* ---- making the head ---- */

  ghost predicate PowerOfTwo(n: nat) {
    exists k: nat :: n == Pow2(k)
  }

  /** Shift out zeros until the lowest set bit; it has to be the only one. */
  method IsPowerOfTwo(n: nat) returns (r: bool)
    requires n < TWO_64
    ensures r <==> PowerOfTwo(n)
  {
    hide PowerOfTwo, Pow2;
    var x := n;
    FirstBit(n);
    for i := 0 to 64
      invariant n == x * Pow2(i)
    {
      if x % 2 == 1 {
        OddPart(x, i);
        return x / 2 == 0;
      }
      ShiftedOnce(x, i);
      x := x / 2;
    }
    ShiftedOut(x);
    return false;
  }

  lemma FirstBit(n: nat)
    ensures n == n * Pow2(0)
  {
  }

  lemma ShiftedOnce(x: nat, i: nat)
    requires x % 2 == 0
    ensures x * Pow2(i) == x / 2 * Pow2(i + 1)
  {
    var half := x / 2;
    assert 2 * half * Pow2(i) == half * (2 * Pow2(i));
  }

  lemma ShiftedOut(x: nat)
    requires x * Pow2(64) < TWO_64
    ensures !PowerOfTwo(x * Pow2(64))
  {
    Pow2Word();
    assert 0 < x ==> TWO_64 <= x * TWO_64;
  }

  lemma {:induction false} OddPart(x: nat, i: nat)
    requires x % 2 == 1
    ensures x == 1 <==> PowerOfTwo(x * Pow2(i))
  {
    if k: nat :| x * Pow2(i) == Pow2(k) {
      OddPower(x, i, k);
    }
    if x == 1 {
      assert x * Pow2(i) == Pow2(i);
    }
  }

  lemma {:induction false} OddPower(x: nat, i: nat, k: nat)
    requires x % 2 == 1 && x * Pow2(i) == Pow2(k)
    ensures x == 1
    decreases i
  {
    if i != 0 {
      assert x * Pow2(i) == 2 * (x * Pow2(i - 1));
      if k != 0 {
        OddPower(x, i - 1, k - 1);
      }
    }
  }

  ghost predicate Aligned(blockSize: nat) {
    && SECTOR <= blockSize
    && blockSize % SECTOR == 0
    && PowerOfTwo(blockSize / SECTOR)
  }

  /** A block size is accepted exactly if it is a power of two from 512 on. */
  lemma AlignedExactly(blockSize: nat)
    ensures Aligned(blockSize) <==> exists k: nat :: blockSize == 512 * Pow2(k)
  {
    if Aligned(blockSize) {
      var k: nat :| blockSize / SECTOR == Pow2(k);
      assert blockSize == 512 * Pow2(k);
    }
    if k: nat :| blockSize == 512 * Pow2(k) {
      assert blockSize / SECTOR == Pow2(k);
    }
  }

  method CheckAligned(blockSize: nat) returns (aligned: bool)
    requires blockSize < TWO_64
    ensures aligned <==> Aligned(blockSize)
  {
    aligned := SECTOR <= blockSize && blockSize % SECTOR == 0;
    if aligned {
      aligned := IsPowerOfTwo(blockSize / SECTOR);
    }
  }

  datatype Error = NotAligned | NotEnoughSpace | DivisionByZero

  datatype Result = Success(head: Head) | Failure(error: Error)

  /** Four bytes for each of `count` blocks, in blocks. */
  lemma FourBytesEach(blockSize: nat, count: nat)
    requires SECTOR <= blockSize && blockSize % SECTOR == 0
    ensures CeilDiv(blockSize, ATTRIBUTE * count) == CeilDiv(blockSize / ATTRIBUTE, count)
  {
    hide CeilDiv;
    var quarter := blockSize / ATTRIBUTE;
    DivMod(blockSize, SECTOR);
    DivModUnique(128 * (blockSize / SECTOR), 0, ATTRIBUTE);
    assert blockSize == ATTRIBUTE * quarter;
    var m, n := CeilDiv(blockSize, ATTRIBUTE * count), CeilDiv(quarter, count);
    FourTimesFits(blockSize, quarter, count, m);
    FourTimesFits(blockSize, quarter, count, n);
  }

  lemma FourTimesFits(blockSize: nat, quarter: nat, count: nat, m: nat)
    requires 0 < quarter && blockSize == ATTRIBUTE * quarter
    ensures CeilDiv(blockSize, ATTRIBUTE * count) <= m <==> CeilDiv(quarter, count) <= m
  {
    hide CeilDiv;
    CeilDivFits(blockSize, ATTRIBUTE * count, m);
    CeilDivFits(quarter, count, m);
    FourTimes(m, quarter);
  }

  lemma FourTimes(m: nat, quarter: nat)
    ensures m * (ATTRIBUTE * quarter) == ATTRIBUTE * (m * quarter)
  {
  }

  function Size(region: Region): int {
    region.end - region.start
  }

  /** Each region is as large as its purpose demands: bitmap and backup are the fewest blocks with
      a bit for each data block, the attribute table the fewest with four bytes for each, and the
      journal takes what remains, at least its minimum. */
  ghost predicate Dimensioned(h: Head) {
    && 2 <= h.blocks && SECTOR <= h.blockSize
    && Size(h.data) >= 0
    && (forall m: nat :: Size(h.bitmap) <= m <==> Size(h.data) <= 8 * (m * h.blockSize))
    && Size(h.bitmapBackup) == Size(h.bitmap)
    && (forall m: nat :: Size(h.attributes) <= m <==> ATTRIBUTE * Size(h.data) <= m * h.blockSize)
    && 32 <= Size(h.journal) && (h.blocks - 2) / 100 <= Size(h.journal)
  }

  /** The head, then the bitmap, its backup, the attributes, the data, the journal and the head's backup. */
  ghost predicate Ordered(h: Head) {
    && h.bitmap.start == 1 && h.bitmapBackup.start == h.bitmap.end && h.attributes.start == h.bitmapBackup.end
    && h.data.start == h.attributes.end && h.journal.start == h.data.end && h.journal.end == h.blocks - 1
  }

  /** The number of bits in a block overflows to zero or not at all. */
  lemma BitsWrap(blockSize: nat)
    requires Aligned(blockSize) && blockSize < TWO_64
    ensures Wrap(8 * blockSize) == if 8 * blockSize < TWO_64 then 8 * blockSize else 0
  {
    var k: nat :| blockSize / SECTOR == Pow2(k);
    assert Pow2(12) == 0x1000;
    Pow2Sum(12, k);
    hide Pow2;
    PowerWraps(12 + k);
  }

  lemma PowerWraps(j: nat)
    ensures Wrap(Pow2(j)) == if Pow2(j) < TWO_64 then Pow2(j) else 0
  {
    Pow2Word();
    if 64 <= j {
      Pow2Sum(64, j - 64);
      hide Pow2;
      DivModUnique(Pow2(j - 64), 0, TWO_64);
    } else {
      Pow2Sum(j, 64 - j);
      assert Pow2(64 - j) == 2 * Pow2(63 - j);
      hide Pow2;
      MulMonotone(2, Pow2(64 - j), Pow2(j));
    }
  }

  lemma BlocksFit(fileSize: nat, blockSize: nat, blocks: nat)
    requires SECTOR <= blockSize && fileSize < TWO_64 && blocks == fileSize / blockSize
    ensures SECTOR * blocks < TWO_64
    ensures 8 <= blocks ==> 8 * blockSize < TWO_64
  {
    DivMod(fileSize, blockSize);
    MulMonotone(SECTOR, blockSize, blocks);
    if 8 <= blocks {
      MulMonotone(8, blocks, blockSize);
    }
  }

  /** Carve the regions one after the other. */
  method Carve(blockSize: nat, blocks: nat, dataBlocks: nat) returns (h: Head)
    requires SECTOR <= blockSize && blockSize % SECTOR == 0 && 8 * blockSize < TWO_64 && SECTOR * blocks < TWO_64
    requires var body := Wrap(blocks - 2);
      AllBlocks(blockSize, dataBlocks) + JournalBlocks(body) <= body
    ensures h.blockSize == blockSize && h.blocks == blocks
    ensures Tiles(h.Regions(), 0, blocks) <==> 2 <= blocks
    ensures 2 <= blocks ==> Dimensioned(h) && Ordered(h) && Size(h.data) == dataBlocks
  {
    hide CeilDiv;
    if 2 <= blocks {
      FourBytesEach(blockSize, dataBlocks);
      assert 1 + AllBlocks(blockSize, dataBlocks) < blocks;
    }
    var bitmapBlocks := CeilDiv(Wrap(8 * blockSize), dataBlocks);
    var attributeBlocks := CeilDiv(blockSize, Wrap(ATTRIBUTE * dataBlocks));
    var offset := 1;
    var bitmap := Region(offset, Wrap(offset + bitmapBlocks));
    offset := Wrap(offset + bitmapBlocks);
    var backup := Region(offset, Wrap(offset + bitmapBlocks));
    offset := Wrap(offset + bitmapBlocks);
    var attributes := Region(offset, Wrap(offset + attributeBlocks));
    offset := Wrap(offset + attributeBlocks);
    var data := Region(offset, Wrap(offset + dataBlocks));
    offset := Wrap(offset + dataBlocks);
    h := Head(blockSize, blocks, bitmap, backup, attributes, data, Region(offset, Wrap(blocks - 1)));
    if 2 <= blocks {
      CarvedTiles(h, dataBlocks);
    } else {
      TooSmallForRegions(h);
    }
  }

  ghost predicate Carved(h: Head, dataBlocks: nat)
    requires 0 < h.blockSize && 0 < h.blocks
  {
    && h.bitmap.start == 1 && Size(h.bitmap) == CeilDiv(8 * h.blockSize, dataBlocks)
    && h.bitmapBackup.start == h.bitmap.end && Size(h.bitmapBackup) == Size(h.bitmap)
    && h.attributes.start == h.bitmapBackup.end && Size(h.attributes) == CeilDiv(h.blockSize, ATTRIBUTE * dataBlocks)
    && h.data.start == h.attributes.end && Size(h.data) == dataBlocks
    && h.journal == Region(h.data.end, h.blocks - 1)
  }

  lemma CarvedTiles(h: Head, dataBlocks: nat)
    requires 2 <= h.blocks < TWO_64 && SECTOR <= h.blockSize && h.blockSize % SECTOR == 0
    requires Carved(h, dataBlocks)
    requires AllBlocks(h.blockSize, dataBlocks) + JournalBlocks(h.blocks - 2) <= h.blocks - 2
    ensures Tiles(h.Regions(), 0, h.blocks) && Dimensioned(h) && Ordered(h)
  {
    FourBytesEach(h.blockSize, dataBlocks);
    CarvedDimensions(h, dataBlocks);
    hide CeilDiv, AllBlocks, JournalBlocks, Carved, Dimensioned;
    assert h.bitmap.start == 1 && h.bitmapBackup.start == h.bitmap.end && h.attributes.start == h.bitmapBackup.end;
    SevenRegions(h);
  }

  lemma SevenRegions(h: Head)
    requires 2 <= h.blocks < TWO_64
    requires h.bitmap.start == 1 && h.bitmapBackup.start == h.bitmap.end && h.attributes.start == h.bitmapBackup.end
    requires h.data.start == h.attributes.end && h.journal == Region(h.data.end, h.blocks - 1)
    requires Size(h.bitmap) >= 0 && Size(h.bitmapBackup) >= 0 && Size(h.attributes) >= 0
    requires Size(h.data) >= 0 && Size(h.journal) >= 0
    ensures Tiles(h.Regions(), 0, h.blocks)
  {
    var regions := h.Regions();
    assert regions[6..][1..] == [];
    assert Tiles(regions[6..], h.blocks - 1, h.blocks);
    assert regions[5..][1..] == regions[6..] && regions[4..][1..] == regions[5..];
    assert Tiles(regions[4..], h.data.start, h.blocks);
    assert regions[3..][1..] == regions[4..] && regions[2..][1..] == regions[3..];
    assert Tiles(regions[2..], h.bitmapBackup.start, h.blocks);
    assert regions[1..][1..] == regions[2..];
  }

  lemma TooSmallForRegions(h: Head)
    requires h.blocks < 2
    ensures !Tiles(h.Regions(), 0, h.blocks)
  {
    var rest := h.Regions()[1..];
    assert h.blocks == 1 ==> rest[5].start == 0;
    if Tiles(h.Regions(), 0, h.blocks) {
      TilesBounds(rest, 1, h.blocks);
    }
  }

  lemma CarvedDimensions(h: Head, dataBlocks: nat)
    requires 2 <= h.blocks && SECTOR <= h.blockSize
    requires Carved(h, dataBlocks) && JournalBlocks(h.blocks - 2) <= Size(h.journal)
    ensures Dimensioned(h)
  {
    hide CeilDiv;
    forall m: nat ensures Size(h.bitmap) <= m <==> Size(h.data) <= 8 * (m * h.blockSize) {
      CeilDivFits(8 * h.blockSize, dataBlocks, m);
      assert m * (8 * h.blockSize) == 8 * (m * h.blockSize);
    }
    forall m: nat ensures Size(h.attributes) <= m <==> ATTRIBUTE * Size(h.data) <= m * h.blockSize {
      CeilDivFits(h.blockSize, ATTRIBUTE * dataBlocks, m);
    }
  }

  /** However many data blocks could be described beside the least journal: at most twice as many blocks are
      left without data. */
  ghost predicate Efficient(h: Head) {
    var room := h.blocks - 2 - if 32 <= (h.blocks - 2) / 100 then (h.blocks - 2) / 100 else 32;
    forall x: nat, b: nat, a: nat :: Describes(h.blockSize, x, b, a) && 2 * b + a + x <= room ==>
      room - Size(h.data) <= 2 * (room - x)
  }

  lemma NearlyBestIsEfficient(h: Head)
    requires 2 <= h.blocks && SECTOR <= h.blockSize && h.blockSize % SECTOR == 0 && 0 <= Size(h.data)
    requires var body := h.blocks - 2;
             JournalBlocks(body) <= body && NearlyBest(h.blockSize, body - JournalBlocks(body), Size(h.data))
    ensures Efficient(h)
  {
    var room := h.blocks - 2 - JournalBlocks(h.blocks - 2);
    var best := BestExists(h.blockSize, room, Size(h.data));
    forall x: nat, b: nat, a: nat | Describes(h.blockSize, x, b, a) && 2 * b + a + x <= room
      ensures room - Size(h.data) <= 2 * (room - x)
    {
      AllBlocksFewest(h.blockSize, x, room);
      hide Describes, AllBlocks;
      BestBelow(h.blockSize, room, best, x);
    }
  }

  /** Decide how many blocks hold data, and carve. */
  method Divide(blockSize: nat, blocks: nat) returns (r: Result)
    requires Aligned(blockSize) && blockSize < TWO_64 && SECTOR * blocks < TWO_64
    requires 8 <= blocks ==> 8 * blockSize < TWO_64
    ensures r == Failure(NotEnoughSpace) <==> 2 <= blocks <= 34
    ensures r == Failure(DivisionByZero) <==> blocks < 2 && TWO_64 <= 8 * blockSize
    ensures r != Failure(NotAligned)
    ensures r.Success? ==> r.head.blockSize == blockSize && r.head.blocks == blocks
    ensures r.Success? ==> (Tiles(r.head.Regions(), 0, blocks) <==> 2 <= blocks)
    ensures r.Success? && 2 <= blocks ==> Dimensioned(r.head) && Ordered(r.head) && Efficient(r.head)
  {
    hide AllBlocks, Dimensioned, Tiles, PowerOfTwo, Best, Ordered, Efficient;
    var body := Wrap(blocks - 2);
    var journal := JournalBlocks(body);
    if body <= journal {
      return Failure(NotEnoughSpace);
    }
    if blocks < 2 {
      assert body == TWO_64 + blocks - 2;
    }
    BitsWrap(blockSize);
    var solved := Solve(body, blockSize, journal);
    if solved.None? {
      return Failure(DivisionByZero);
    }
    var head := Carve(blockSize, blocks, solved.value);
    if 2 <= blocks {
      NearlyBestIsEfficient(head);
    }
    return Success(head);
  }

  /** A device of fewer than two blocks makes the number of body blocks wrap around. Such a device is
      not refused for lack of space, although its regions cannot tile it. */
  method MakeHead(fileSize: nat, blockSize: nat) returns (r: Result)
    requires fileSize < TWO_64 && blockSize < TWO_64
    ensures r == Failure(NotAligned) <==> !Aligned(blockSize)
    ensures r == Failure(NotEnoughSpace) <==> Aligned(blockSize) && 2 <= fileSize / blockSize <= 34
    ensures r == Failure(DivisionByZero) <==> Aligned(blockSize) && fileSize / blockSize < 2 && TWO_64 <= 8 * blockSize
    ensures r.Success? ==> r.head.blockSize == blockSize && r.head.blocks == fileSize / blockSize
    ensures r.Success? ==> (Tiles(r.head.Regions(), 0, r.head.blocks) <==> 2 <= r.head.blocks)
    ensures r.Success? && 2 <= r.head.blocks ==>
              Dimensioned(r.head) && Ordered(r.head) && Efficient(r.head)
  {
    hide AllBlocks, Dimensioned, Tiles, PowerOfTwo, Efficient, Ordered;
    var aligned := CheckAligned(blockSize);
    if !aligned {
      return Failure(NotAligned);
    }
    var blocks := fileSize / blockSize;
    BlocksFit(fileSize, blockSize, blocks);
    r := Divide(blockSize, blocks);
  }
}
