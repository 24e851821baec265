// The flash device kept in one flat mapping, byte by byte: where each sector
// and each spare lies, and that the device can be used as if they were apart.
module MappedDevice {
  import opened Geometry

  /** A page of the mapping has a fifth sector, in which the spares of the other four lie. */
  const SECTORS_PER_PAGE_INTERNAL := SECTORS_PER_PAGE + 1
  const PAGE_BYTES := SECTORS_PER_PAGE_INTERNAL * SECTOR_SIZE
  const FIRST_SPARE := 0x804
  const SPARE_STRIDE := 0x10
  const SPARE_SIZE := 4

  function SectorsPerBlock(pages: nat): nat {
    SECTORS_PER_PAGE_INTERNAL * pages
  }

  function BlockLength(pages: nat): nat {
    SectorsPerBlock(pages) * SECTOR_SIZE
  }

  /** The offset into the mapping, in 32-bit arithmetic. */
  function GetOffset(pages: nat, block: nat, page: nat, sector: nat, offset: nat): nat {
    (block * SectorsPerBlock(pages) * SECTOR_SIZE + page * SECTORS_PER_PAGE_INTERNAL * SECTOR_SIZE +
     sector * SECTOR_SIZE + offset) % WORD32
  }

  // ------------------------------------------------------------------ the layout

  /** What the device is divided into: the data of each sector, and its spare. */
  datatype Area = Data(block: nat, page: nat, sector: nat) | Spare(block: nat, page: nat, sector: nat)

  predicate InRange(pages: nat, blocks: nat, a: Area) {
    a.block < blocks && a.page < pages && a.sector < SECTORS_PER_PAGE
  }

  function AreaSize(a: Area): nat {
    if a.Data? then SECTOR_SIZE else SPARE_SIZE
  }

  function AreaStart(pages: nat, a: Area): nat {
    match a
    case Data(block, page, sector) => GetOffset(pages, block, page, sector, 0)
    case Spare(block, page, sector) => GetOffset(pages, block, page, 0, FIRST_SPARE + sector * SPARE_STRIDE)
  }

  /** Where an area lies within its page. */
  function InPage(a: Area): nat {
    if a.Data? then a.sector * SECTOR_SIZE else FIRST_SPARE + a.sector * SPARE_STRIDE
  }

  /** Where an area lies within its block. */
  function InBlock(a: Area): nat {
    a.page * PAGE_BYTES + InPage(a)
  }

  /** The offset at which a block starts. */
  function BlockStart(pages: nat, block: nat): nat {
    block * BlockLength(pages)
  }

  lemma BlocksInOrder(pages: nat, a: nat, b: nat)
    requires a < b
    ensures BlockStart(pages, a) + BlockLength(pages) <= BlockStart(pages, b)
  {
    var n := BlockLength(pages);
    assert (a + 1) * n == a * n + n;
    assert (a + 1) * n <= b * n by { ProductsGrow(a + 1, b, n); }
  }

  lemma SizeAssociates(block: nat, pages: nat)
    ensures block * SectorsPerBlock(pages) * SECTOR_SIZE == BlockStart(pages, block)
  {
  }

  /** In-range offsets do not wrap. */
  lemma OffsetIs(pages: nat, blocks: nat, block: nat, page: nat, sector: nat, offset: nat)
    requires block < blocks && page < pages && sector * SECTOR_SIZE + offset <= PAGE_BYTES
    requires BlockStart(pages, blocks) < WORD32
    ensures GetOffset(pages, block, page, sector, offset) ==
            (BlockStart(pages, block) + page * PAGE_BYTES + sector * SECTOR_SIZE + offset) % WORD32
    ensures BlockStart(pages, block) + page * PAGE_BYTES + sector * SECTOR_SIZE + offset <=
            BlockStart(pages, block) + BlockLength(pages) <= BlockStart(pages, blocks)
  {
    hide BlockStart;
    SizeAssociates(block, pages);
    BlocksInOrder(pages, block, blocks);
  }

  /** Every area lies within its block, and so within the mapping. */
  lemma AreaPlace(pages: nat, blocks: nat, a: Area)
    requires InRange(pages, blocks, a)
    requires BlockStart(pages, blocks) < WORD32
    ensures InPage(a) + AreaSize(a) <= PAGE_BYTES
    ensures AreaStart(pages, a) == BlockStart(pages, a.block) + InBlock(a)
    ensures AreaStart(pages, a) + AreaSize(a) <= BlockStart(pages, a.block) + BlockLength(pages) <= BlockStart(pages, blocks)
  {
    hide BlockStart, GetOffset;
    BlocksInOrder(pages, a.block, blocks);
    if a.Data? {
      OffsetIs(pages, blocks, a.block, a.page, a.sector, 0);
    } else {
      OffsetIs(pages, blocks, a.block, a.page, 0, FIRST_SPARE + a.sector * SPARE_STRIDE);
    }
  }

  predicate Disjoint(pages: nat, a: Area, b: Area) {
    || AreaStart(pages, a) + AreaSize(a) <= AreaStart(pages, b)
    || AreaStart(pages, b) + AreaSize(b) <= AreaStart(pages, a)
  }

  lemma InPageApart(a: Area, b: Area)
    requires a.sector < SECTORS_PER_PAGE && b.sector < SECTORS_PER_PAGE
    requires a.Data? != b.Data? || a.sector != b.sector
    ensures InPage(a) + AreaSize(a) <= InPage(b) || InPage(b) + AreaSize(b) <= InPage(a)
    ensures InPage(a) + AreaSize(a) <= PAGE_BYTES && InPage(b) + AreaSize(b) <= PAGE_BYTES
  {
  }

  lemma InBlockApart(a: Area, b: Area)
    requires a.sector < SECTORS_PER_PAGE && b.sector < SECTORS_PER_PAGE
    requires a != b && a.block == b.block
    ensures InBlock(a) + AreaSize(a) <= InBlock(b) || InBlock(b) + AreaSize(b) <= InBlock(a)
  {
    if a.page == b.page {
      InPageApart(a, b);
    } else if a.page < b.page {
      assert a.page * PAGE_BYTES + PAGE_BYTES <= b.page * PAGE_BYTES;
    } else {
      assert b.page * PAGE_BYTES + PAGE_BYTES <= a.page * PAGE_BYTES;
    }
  }

  /** No two areas overlap. */
  lemma AreasApart(pages: nat, blocks: nat, a: Area, b: Area)
    requires InRange(pages, blocks, a) && InRange(pages, blocks, b)
    requires BlockStart(pages, blocks) < WORD32
    ensures a != b ==> Disjoint(pages, a, b)
  {
    hide BlockStart, AreaStart, BlockLength, InPage, InBlock;
    AreaPlace(pages, blocks, a);
    AreaPlace(pages, blocks, b);
    if a.block < b.block {
      BlocksInOrder(pages, a.block, b.block);
    } else if b.block < a.block {
      BlocksInOrder(pages, b.block, a.block);
    } else if a != b {
      InBlockApart(a, b);
    }
  }

  /** Erasing a block erases exactly the areas of that block. */
  lemma BlockCovers(pages: nat, blocks: nat, block: nat, a: Area)
    requires InRange(pages, blocks, a) && block < blocks
    requires BlockStart(pages, blocks) < WORD32
    ensures var start, end := BlockStart(pages, block), BlockStart(pages, block) + BlockLength(pages);
      && end <= BlockStart(pages, blocks)
      && (a.block == block ==> start <= AreaStart(pages, a) && AreaStart(pages, a) + AreaSize(a) <= end)
      && (a.block != block ==> AreaStart(pages, a) + AreaSize(a) <= start || end <= AreaStart(pages, a))
  {
    hide BlockStart, AreaStart, BlockLength;
    AreaPlace(pages, blocks, a);
    BlocksInOrder(pages, block, blocks);
    if a.block < block {
      BlocksInOrder(pages, a.block, block);
    } else if block < a.block {
      BlocksInOrder(pages, block, a.block);
    }
  }

  // ------------------------------------------------------------------ the device

  ghost predicate AllErased(bytes: seq<byte>) {
    forall i | 0 <= i < |bytes| :: bytes[i] == ERASED_BYTE
  }

  class Device {
    const pages: nat
    const blockCount: nat
    const mapped: array<byte>
    var openBlock: nat
    var openPage: nat

    ghost predicate Valid() {
      && mapped.Length == BlockStart(pages, blockCount)
      && mapped.Length < WORD32
    }

    constructor (pages: nat, blockCount: nat)
      requires BlockStart(pages, blockCount) < WORD32
      ensures Valid() && fresh(mapped)
      ensures this.pages == pages && this.blockCount == blockCount
    {
      this.pages := pages;
      this.blockCount := blockCount;
      mapped := new byte[BlockStart(pages, blockCount)](_ => 0);
      openBlock := NO_BLOCK;
      openPage := 0;
    }

    /** What the device holds in an area. */
    ghost function Bytes(a: Area): (r: seq<byte>)
      requires Valid() && InRange(pages, blockCount, a)
      reads mapped
      ensures |r| == AreaSize(a)
    {
      AreaPlace(pages, blockCount, a);
      mapped[AreaStart(pages, a)..AreaStart(pages, a) + AreaSize(a)]
    }

    /** What the device holds, area by area. */
    ghost function Held(): imap<Area, seq<byte>>
      requires Valid()
      reads mapped
    {
      imap a | InRange(pages, blockCount, a) :: Bytes(a)
    }

    ghost predicate PageOpen()
      reads this
    {
      openBlock < blockCount && openPage < pages
    }

    method OpenPage(block: nat, page: nat)
      modifies `openBlock, `openPage
      ensures openBlock == block && openPage == page
    {
      openBlock := block;
      openPage := page;
    }

    /** Sets the bytes of a stretch to the erased value. */
    method EraseBytes(start: nat, n: nat)
      requires start + n <= mapped.Length
      modifies mapped
      ensures forall k | 0 <= k < mapped.Length ::
        mapped[k] == if start <= k < start + n then ERASED_BYTE else old(mapped[k])
    {
      for i := 0 to n
        invariant forall k | 0 <= k < mapped.Length ::
          mapped[k] == if start <= k < start + i then ERASED_BYTE else old(mapped[k])
      {
        mapped[start + i] := ERASED_BYTE;
      }
    }

    /** Every area of the block is erased, and no other area changes. */
    method EraseBlock(block: nat)
      requires Valid() && block < blockCount
      modifies mapped
      ensures forall a | InRange(pages, blockCount, a) ::
        if a.block == block then AllErased(Bytes(a)) else Bytes(a) == old(Bytes(a))
    {
      hide BlockStart, BlockLength, AreaStart, GetOffset;
      var start, size := GetOffset(pages, block, 0, 0, 0), BlockLength(pages);
      FirstOffset(pages, blockCount, block);
      EraseBytes(start, size);
      forall a | InRange(pages, blockCount, a)
        ensures if a.block == block then AllErased(Bytes(a)) else Bytes(a) == old(Bytes(a))
      {
        BlockCovers(pages, blockCount, block, a);
        AreaPlace(pages, blockCount, a);
      }
    }

    /** Copies `src` to `dst` if all bytes there are erased; else nothing is written, and
        verified_memcpy stops with a failed assertion. */
    method VerifiedCopy(dst: nat, src: seq<byte>) returns (ok: bool)
      requires dst + |src| <= mapped.Length
      modifies mapped
      ensures ok <==> AllErased(old(mapped[dst..dst + |src|]))
      ensures ok ==> mapped[..] == Splice(old(mapped[..]), dst, src)
      ensures !ok ==> mapped[..] == old(mapped[..])
    {
      for i := 0 to |src|
        invariant AllErased(mapped[dst..dst + i])
        invariant mapped[..] == old(mapped[..])
      {
        if mapped[dst + i] != ERASED_BYTE {
          assert mapped[dst..dst + |src|][i] != ERASED_BYTE;
          return false;
        }
        assert mapped[dst..dst + i + 1] == mapped[dst..dst + i] + [mapped[dst + i]];
      }
      ghost var was := mapped[..];
      for i := 0 to |src|
        invariant forall k | 0 <= k < mapped.Length :: mapped[k] == if dst <= k < dst + i then src[k - dst] else was[k]
      {
        mapped[dst + i] := src[i];
      }
      assert mapped[..] == Splice(was, dst, src);
      ok := true;
    }

    method ReadArea(ghost a: Area, start: nat, n: nat) returns (data: seq<byte>)
      requires Valid() && InRange(pages, blockCount, a)
      requires AreaStart(pages, a) <= start && start + n <= AreaStart(pages, a) + AreaSize(a)
      ensures data == Bytes(a)[start - AreaStart(pages, a)..start - AreaStart(pages, a) + n]
    {
      AreaPlace(pages, blockCount, a);
      SliceTwice(mapped[..], AreaStart(pages, a), AreaSize(a), start, n);
      data := mapped[start..start + n];
    }

    /** Writes into one area and leaves all others alone. */
    method WriteArea(ghost a: Area, start: nat, data: seq<byte>) returns (ok: bool)
      requires Valid() && InRange(pages, blockCount, a)
      requires AreaStart(pages, a) <= start && start + |data| <= AreaStart(pages, a) + AreaSize(a)
      modifies mapped
      ensures var offset := start - AreaStart(pages, a);
        && (ok <==> AllErased(old(Bytes(a))[offset..offset + |data|]))
        && (forall x | InRange(pages, blockCount, x) ::
              Bytes(x) == if ok && x == a then Splice(old(Bytes(x)), offset, data) else old(Bytes(x)))
    {
      hide BlockStart, AreaStart, BlockLength, Splice, AllErased;
      AreaPlace(pages, blockCount, a);
      ghost var base, offset := AreaStart(pages, a), start - AreaStart(pages, a);
      ghost var was := mapped[..];
      SliceTwice(was, base, AreaSize(a), start, |data|);
      ok := VerifiedCopy(start, data);
      ghost var done := ok;
      forall x | InRange(pages, blockCount, x)
        ensures Bytes(x) == if done && x == a then Splice(old(Bytes(x)), offset, data) else old(Bytes(x))
      {
        AreaAfter(pages, blockCount, was, a, offset, data, x);
        assert old(Bytes(x)) == was[AreaStart(pages, x)..AreaStart(pages, x) + AreaSize(x)];
        assert Bytes(x) == mapped[..][AreaStart(pages, x)..AreaStart(pages, x) + AreaSize(x)];
      }
    }

    /** The area of a sector of the open page. */
    function DataHere(sector: nat): Area
      reads this
    {
      Data(openBlock, openPage, sector % SECTORS_PER_PAGE)
    }

    function SpareHere(sector: nat): Area
      reads this
    {
      Spare(openBlock, openPage, sector % SECTORS_PER_PAGE)
    }

    method ReadSector(sector: nat, offset: nat, n: nat) returns (data: seq<byte>)
      requires Valid() && PageOpen() && offset + n <= SECTOR_SIZE
      ensures data == Bytes(DataHere(sector))[offset..offset + n]
    {
      AreaPlace(pages, blockCount, DataHere(sector));
      OffsetAdds(pages, blockCount, DataHere(sector), offset);
      data := ReadArea(DataHere(sector), GetOffset(pages, openBlock, openPage, sector % SECTORS_PER_PAGE, offset), n);
    }

    method ReadSpare(sector: nat) returns (data: seq<byte>)
      requires Valid() && PageOpen()
      ensures data == Bytes(SpareHere(sector))
    {
      data := ReadArea(SpareHere(sector),
                       GetOffset(pages, openBlock, openPage, 0, FIRST_SPARE + (sector % SECTORS_PER_PAGE) * SPARE_STRIDE),
                       SPARE_SIZE);
    }

    /** Writes to a sector of the open page succeed exactly if the bytes are erased, and reach only them. */
    method WriteSector(sector: nat, offset: nat, data: seq<byte>) returns (ok: bool)
      requires Valid() && PageOpen() && offset + |data| <= SECTOR_SIZE
      modifies mapped
      ensures ok <==> AllErased(old(Bytes(DataHere(sector)))[offset..offset + |data|])
      ensures Held() == if ok then old(Held())[DataHere(sector) := Splice(old(Bytes(DataHere(sector))), offset, data)]
                        else old(Held())
    {
      AreaPlace(pages, blockCount, DataHere(sector));
      OffsetAdds(pages, blockCount, DataHere(sector), offset);
      ok := WriteArea(DataHere(sector), GetOffset(pages, openBlock, openPage, sector % SECTORS_PER_PAGE, offset), data);
    }

    method WriteSpare(sector: nat, data: seq<byte>) returns (ok: bool)
      requires Valid() && PageOpen() && |data| == SPARE_SIZE
      modifies mapped
      ensures ok <==> AllErased(old(Bytes(SpareHere(sector))))
      ensures Held() == if ok then old(Held())[SpareHere(sector) := data] else old(Held())
    {
      ok := WriteArea(SpareHere(sector),
                      GetOffset(pages, openBlock, openPage, 0, FIRST_SPARE + (sector % SECTORS_PER_PAGE) * SPARE_STRIDE),
                      data);
      assert Splice(old(Bytes(SpareHere(sector))), 0, data) == data;
      assert old(Bytes(SpareHere(sector)))[0..SPARE_SIZE] == old(Bytes(SpareHere(sector)));
    }
  }

  lemma OffsetAdds(pages: nat, blocks: nat, a: Area, offset: nat)
    requires InRange(pages, blocks, a) && a.Data? && offset <= SECTOR_SIZE
    requires BlockStart(pages, blocks) < WORD32
    ensures GetOffset(pages, a.block, a.page, a.sector, offset) == AreaStart(pages, a) + offset
  {
    hide BlockStart, AreaStart, GetOffset;
    AreaPlace(pages, blocks, a);
    OffsetIs(pages, blocks, a.block, a.page, a.sector, offset);
  }

  lemma FirstOffset(pages: nat, blocks: nat, block: nat)
    requires block < blocks && BlockStart(pages, blocks) < WORD32
    ensures GetOffset(pages, block, 0, 0, 0) == BlockStart(pages, block)
    ensures BlockStart(pages, block) + BlockLength(pages) <= BlockStart(pages, blocks)
  {
    SizeAssociates(block, pages);
    BlocksInOrder(pages, block, blocks);
  }

  /** What a write into area `a` does to area `x`. */
  lemma AreaAfter(pages: nat, blocks: nat, was: seq<byte>, a: Area, offset: nat, data: seq<byte>, x: Area)
    requires InRange(pages, blocks, a) && InRange(pages, blocks, x)
    requires |was| == BlockStart(pages, blocks) < WORD32
    requires offset + |data| <= AreaSize(a)
    ensures AreaStart(pages, a) + AreaSize(a) <= |was| && AreaStart(pages, x) + AreaSize(x) <= |was|
    ensures var before, after := was[AreaStart(pages, x)..AreaStart(pages, x) + AreaSize(x)],
      Splice(was, AreaStart(pages, a) + offset, data)[AreaStart(pages, x)..AreaStart(pages, x) + AreaSize(x)];
      after == if x == a then Splice(before, offset, data) else before
  {
    hide BlockStart, AreaStart, BlockLength, Splice;
    AreaPlace(pages, blocks, a);
    AreaPlace(pages, blocks, x);
    AreasApart(pages, blocks, a, x);
    SliceOfSplice(was, AreaStart(pages, a) + offset, data, AreaStart(pages, x), AreaSize(x));
  }

  lemma SliceTwice(s: seq<byte>, base: nat, size: nat, start: nat, n: nat)
    requires base <= start && start + n <= base + size <= |s|
    ensures s[start..start + n] == s[base..base + size][start - base..start - base + n]
  {
    var part, left, right := s[base..base + size], s[start..start + n], s[base..base + size][start - base..start - base + n];
    forall i | 0 <= i < n ensures left[i] == right[i] {
      assert part[start - base + i] == s[start + i];
    }
  }

  /** A stretch of a sequence after part of it has been replaced. */
  lemma SliceOfSplice(s: seq<byte>, start: nat, data: seq<byte>, from: nat, n: nat)
    requires start + |data| <= |s| && from + n <= |s|
    ensures from <= start && start + |data| <= from + n ==>
      Splice(s, start, data)[from..from + n] == Splice(s[from..from + n], start - from, data)
    ensures from + n <= start || start + |data| <= from ==> Splice(s, start, data)[from..from + n] == s[from..from + n]
  {
    var left := Splice(s, start, data)[from..from + n];
    if from <= start && start + |data| <= from + n {
      var right := Splice(s[from..from + n], start - from, data);
      forall i | 0 <= i < n ensures left[i] == right[i] {
        assert left[i] == Splice(s, start, data)[from + i];
        assert s[from..from + n][i] == s[from + i];
      }
    }
  }
}
