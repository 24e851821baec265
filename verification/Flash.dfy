// The flash device as the file system sees it: blocks of sectors with spares,
// one open page, and writes that may only hit erased bytes. The structures the
// file system puts at the start of a sector are kept as datatypes; only their
// sizes in bytes are modelled.
module Flash {
  import opened Geometry

  datatype Header =
    | NoHeader
    | Statistics(version: nat, keyValid: bool)
    | FileInit(id: nat)
    | FileTail(next: nat, stamp: nat, count: nat)
    | InodeInit(stamp: nat)
    | InodeTail(next: nat, stamp: nat)
    | Allocation(id: nat, first: nat, stamp: nat, name: string)
    | Invalidation(stamp: nat, last: nat)

  /** A spare: the type of the block and the payload size or the inode index. */
  datatype Spare = Spare(kind: nat, value: nat)

  /** `bytes` beyond the header; a byte is erased if it is 0xFF. */
  datatype Sector = Sector(header: Header, bytes: seq<byte>, spare: Spare)

  type Block = seq<Sector>

  const KIND_INODE := 1
  const KIND_FILE := 2
  const KIND_UNALLOCATED := 0xFF

  const ERASED_SPARE := Spare(KIND_UNALLOCATED, ERASED16)

  /** The size of the structure as the C compiler lays it out. */
  function HeaderBytes(h: Header): nat {
    match h
    case NoHeader => 0
    case Statistics(_, _) => 28
    case FileInit(_) => INIT_HEADER_SIZE
    case FileTail(_, _, _) => TAIL_HEADER_SIZE
    case InodeInit(_) => 8
    case InodeTail(_, _) => 12
    case Allocation(_, _, _, _) => 16 + MAX_NAME
    case Invalidation(_, _) => 8
  }

  function BlankBytes(): (s: seq<byte>)
    ensures |s| == SECTOR_SIZE
    ensures forall i | 0 <= i < |s| :: s[i] == ERASED_BYTE
  {
    seq(SECTOR_SIZE, _ => ERASED_BYTE)
  }

  function BlankSector(): Sector {
    Sector(NoHeader, BlankBytes(), ERASED_SPARE)
  }

  ghost predicate Blank(s: Sector) {
    s == BlankSector()
  }

  function BlankBlock(pages: nat): (b: Block)
    ensures |b| == SectorCount(pages)
    ensures forall s | 0 <= s < |b| :: b[s] == BlankSector()
  {
    seq(SectorCount(pages), _ => BlankSector())
  }

  /** The bytes `offset .. offset + n` of a sector are all erased. */
  ghost predicate RegionErased(s: Sector, offset: nat, n: nat) {
    && offset + n <= |s.bytes|
    && (n > 0 ==> offset >= HeaderBytes(s.header))
    && forall i | offset <= i < offset + n :: s.bytes[i] == ERASED_BYTE
  }

  /** A structure (or none) and the bytes behind it written at `offset`. */
  function Written(s: Sector, offset: nat, h: Header, payload: seq<byte>): Sector
    requires offset + HeaderBytes(h) + |payload| <= |s.bytes|
  {
    Sector(if h.NoHeader? then s.header else h, Splice(s.bytes, offset + HeaderBytes(h), payload), s.spare)
  }

  ghost predicate BlockShaped(pages: nat, b: Block) {
    && |b| == SectorCount(pages)
    && forall s | 0 <= s < |b| :: |b[s].bytes| == SECTOR_SIZE
  }

  ghost predicate Shaped(pages: nat, blocks: seq<Block>) {
    forall b | 0 <= b < |blocks| :: BlockShaped(pages, blocks[b])
  }

  function Put(blocks: seq<Block>, b: nat, s: nat, x: Sector): seq<Block>
    requires b < |blocks| && s < |blocks[b]|
  {
    blocks[b := blocks[b][s := x]]
  }

  /** This structure is at the start of a sector. */
  ghost predicate HeaderAt(blocks: seq<Block>, b: nat, s: nat, h: Header) {
    b < |blocks| && s < |blocks[b]| && blocks[b][s].header == h
  }

  lemma PutAt(blocks: seq<Block>, b: nat, s: nat, x: Sector)
    requires b < |blocks| && s < |blocks[b]|
    ensures |Put(blocks, b, s, x)| == |blocks|
    ensures |Put(blocks, b, s, x)[b]| == |blocks[b]| && Put(blocks, b, s, x)[b][s] == x
  {
  }

  lemma PutSame(blocks: seq<Block>, b: nat, s: nat)
    requires b < |blocks| && s < |blocks[b]|
    ensures Put(blocks, b, s, blocks[b][s]) == blocks
  {
    assert blocks[b][s := blocks[b][s]] == blocks[b];
  }

  lemma PutTwice(blocks: seq<Block>, b: nat, s: nat, x: Sector, y: Sector)
    requires b < |blocks| && s < |blocks[b]|
    ensures Put(Put(blocks, b, s, x), b, s, y) == Put(blocks, b, s, y)
  {
    assert blocks[b][s := x][s := y] == blocks[b][s := y];
  }

  class FlashDevice {
    const pages: nat
    var blocks: seq<Block>
    var openBlock: nat
    var openPage: nat

    constructor (pages: nat, blocks: seq<Block>)
      requires Shaped(pages, blocks)
      ensures this.pages == pages && this.blocks == blocks
    {
      this.pages := pages;
      this.blocks := blocks;
      openBlock := NO_BLOCK;
      openPage := 0;
    }

    /** The open page is a page of the device. */
    ghost predicate Ready()
      reads this
    {
      && Shaped(pages, blocks)
      && openBlock < |blocks|
      && openPage < pages
    }

    /** The sector of the open block that `sector`, taken within the open page, denotes. */
    function Target(sector: nat): (r: nat)
      requires Ready()
      reads this
      ensures r < |blocks[openBlock]|
      ensures openPage == sector / SECTORS_PER_PAGE ==> r == sector
    {
      assert BlockShaped(pages, blocks[openBlock]);
      openPage * SECTORS_PER_PAGE + sector % SECTORS_PER_PAGE
    }

    method OpenPage(block: nat, page: nat)
      modifies `openBlock, `openPage
      ensures openBlock == block && openPage == page
    {
      openBlock := block;
      openPage := page;
    }

    method EraseBlock(block: nat)
      requires block < |blocks|
      modifies `blocks
      ensures blocks == old(blocks)[block := BlankBlock(pages)]
      ensures old(Shaped(pages, blocks)) ==> Shaped(pages, blocks)
    {
      blocks := blocks[block := BlankBlock(pages)];
    }

    method ReadHeader(sector: nat) returns (h: Header)
      requires Ready()
      ensures h == blocks[openBlock][Target(sector)].header
    {
      h := blocks[openBlock][Target(sector)].header;
    }

    method ReadBytes(sector: nat, offset: nat, n: nat) returns (data: seq<byte>)
      requires Ready()
      requires offset + n <= SECTOR_SIZE
      ensures offset + n <= |blocks[openBlock][Target(sector)].bytes|
      ensures data == blocks[openBlock][Target(sector)].bytes[offset..offset + n]
    {
      assert BlockShaped(pages, blocks[openBlock]);
      data := blocks[openBlock][Target(sector)].bytes[offset..offset + n];
    }

    method ReadSpare(sector: nat) returns (spare: Spare)
      requires Ready()
      ensures spare == blocks[openBlock][Target(sector)].spare
    {
      spare := blocks[openBlock][Target(sector)].spare;
    }

    /** The device refuses to write bytes that are not erased: its check is the precondition. */
    method WriteSector(sector: nat, offset: nat, h: Header, payload: seq<byte>)
      requires Ready()
      requires h.NoHeader? || offset == 0
      requires RegionErased(blocks[openBlock][Target(sector)], offset, HeaderBytes(h) + |payload|)
      modifies `blocks
      ensures offset + HeaderBytes(h) + |payload| <= |old(blocks[openBlock][Target(sector)]).bytes|
      ensures blocks == Put(old(blocks), openBlock, old(Target(sector)),
                            Written(old(blocks[openBlock][Target(sector)]), offset, h, payload))
      ensures Shaped(pages, blocks)
    {
      assert BlockShaped(pages, blocks[openBlock]);
      var s := Target(sector);
      blocks := Put(blocks, openBlock, s, Written(blocks[openBlock][s], offset, h, payload));
    }

    method WriteSpare(sector: nat, spare: Spare)
      requires Ready()
      requires blocks[openBlock][Target(sector)].spare == ERASED_SPARE
      modifies `blocks
      ensures blocks == Put(old(blocks), openBlock, old(Target(sector)),
                            old(blocks[openBlock][Target(sector)]).(spare := spare))
      ensures Shaped(pages, blocks)
    {
      assert BlockShaped(pages, blocks[openBlock]);
      var s := Target(sector);
      blocks := Put(blocks, openBlock, s, blocks[openBlock][s].(spare := spare));
    }
  }
}
