// How the flash contents represent the tables: what every sector of a block
// must hold for the block to mean what the tables say it means.
module Image {
  import opened Geometry
  import opened Flash
  import opened Tables

  /** The statistics sector marks the block as one of this volume, in its current version. */
  ghost predicate GoodStatistics(version: nat, s: Sector) {
    s.header == Statistics(version, true)
  }

  ghost predicate BlankBeyondStatistics(b: Block) {
    forall s | 1 <= s < |b| :: Blank(b[s])
  }

  /** Sector `sec`, committed as number `j` of its block, holds `data`. */
  ghost predicate SlotHolds(pages: nat, sec: Sector, j: nat, a: AbstractBlock)
    requires a.FileBlock? && j < |a.slots|
    requires pages >= 2
  {
    var h := HeaderSize(SectorOf(pages, j));
    var data := a.slots[j];
    && h + |data| <= |sec.bytes|
    && sec.bytes[h..h + |data|] == data
    && sec.spare.value == |data|
    && (if j == 0 then sec.header == FileInit(a.id) && sec.spare.kind == KIND_FILE
        else if j == SlotCount(pages) - 1 then
          sec.header.FileTail? && sec.header.next == a.next && sec.header.count == a.count &&
          sec.header.stamp < ERASED32
        else sec.header.NoHeader? && sec.spare.kind == KIND_FILE)
  }

  ghost predicate FileSectorOk(pages: nat, b: Block, s: nat, a: AbstractBlock)
    requires a.FileBlock? && pages >= 2
    requires |b| == SectorCount(pages) && 1 <= s < |b|
  {
    var j := SlotOf(pages, s);
    if j < |a.slots| then SlotHolds(pages, b[s], j, a) else Blank(b[s])
  }

  /** Record `k` of an inode block: an allocation sector and an invalidation sector. */
  ghost predicate RecordOk(pages: nat, b: Block, k: nat, a: AbstractBlock)
    requires a.InodeBlock? && pages >= 2
    requires |b| == SectorCount(pages) && k < EntriesPerBlock(pages)
  {
    var s := FIRST_ENTRY_SECTOR + 2 * k;
    if k < |a.entries| then
      var e := a.entries[k];
      && b[s].header.Allocation?
      && b[s].header.id == e.id && b[s].header.first == e.first && b[s].header.name == e.name
      && (if e.dead then b[s + 1].header.Invalidation? && b[s + 1].header.stamp < ERASED32 && b[s + 1].header.last == e.last
          else Blank(b[s + 1]))
    else
      Blank(b[s]) && Blank(b[s + 1])
  }

  /** The number that an inode block carries: the iterator that makes a new one always counts from the
      number of the first, so that every block but that is number 1. */
  function InodeNumber(idx: nat): nat {
    if idx == 0 then 0 else 1
  }

  ghost predicate InodeHeadOk(b: Block, a: AbstractBlock)
    requires a.InodeBlock?
    requires |b| >= 4
  {
    && b[INIT_SECTOR].header.InodeInit?
    && b[INIT_SECTOR].spare.kind == KIND_INODE
    && b[INIT_SECTOR].spare.value == InodeNumber(a.idx)
    && (if a.next == NO_BLOCK then Blank(b[TAIL_SECTOR])
        else b[TAIL_SECTOR].header.InodeTail? && b[TAIL_SECTOR].header.next == a.next)
  }

  /** Block `b` means `a`. */
  ghost predicate Represents(pages: nat, version: nat, b: Block, a: AbstractBlock)
    requires pages >= 2
  {
    && BlockShaped(pages, b)
    && match a {
         case Free => BlankBeyondStatistics(b) && (Blank(b[STATISTICS_SECTOR]) || b[STATISTICS_SECTOR].header.Statistics?)
         case FileBlock(_, _, _, _, _) =>
           && GoodStatistics(version, b[STATISTICS_SECTOR])
           && |a.slots| <= SlotCount(pages)
           && forall s {:trigger FileSectorOk(pages, b, s, a)} | 1 <= s < |b| :: FileSectorOk(pages, b, s, a)
         case InodeBlock(_, _, _) =>
           && GoodStatistics(version, b[STATISTICS_SECTOR])
           && InodeHeadOk(b, a)
           && |a.entries| <= EntriesPerBlock(pages)
           && forall k {:trigger RecordOk(pages, b, k, a)} | 0 <= k < EntriesPerBlock(pages) :: RecordOk(pages, b, k, a)
       }
  }

  ghost predicate RepresentsAll(version: nat, blocks: seq<Block>, t: Tables)
    requires t.pages >= 2
  {
    && |blocks| == |t.disk|
    && forall b {:trigger Represents(t.pages, version, blocks[b], t.disk[b])} | 0 <= b < |blocks| ::
      Represents(t.pages, version, blocks[b], t.disk[b])
  }

  lemma RepresentsShaped(version: nat, blocks: seq<Block>, t: Tables)
    requires t.pages >= 2
    requires RepresentsAll(version, blocks, t)
    ensures Shaped(t.pages, blocks)
  {
    forall b | 0 <= b < |blocks| ensures BlockShaped(t.pages, blocks[b]) {
      assert Represents(t.pages, version, blocks[b], t.disk[b]);
    }
  }

  /** A blank sector after a structure and `held` behind it, then `data` behind that, have been written. */
  function Filled(h: Header, held: seq<byte>, data: seq<byte>): Sector
    requires HeaderBytes(h) + |held| + |data| <= SECTOR_SIZE
  {
    Written(Written(BlankSector(), 0, h, held), HeaderBytes(h) + |held|, NoHeader, data)
  }

  lemma FilledHolds(h: Header, held: seq<byte>, data: seq<byte>)
    requires HeaderBytes(h) + |held| + |data| <= SECTOR_SIZE
    ensures RegionErased(BlankSector(), 0, HeaderBytes(h) + |held|)
    ensures RegionErased(Written(BlankSector(), 0, h, held), HeaderBytes(h) + |held|, |data|)
    ensures Filled(h, held, data).header == h && Filled(h, held, data).spare == ERASED_SPARE
    ensures |Filled(h, held, data).bytes| == SECTOR_SIZE
    ensures Filled(h, held, data).bytes[HeaderBytes(h)..HeaderBytes(h) + |held| + |data|] == held + data
  {
    var n := HeaderBytes(h);
    var bytes := Filled(h, held, data).bytes;
    assert bytes[n..n + |held|] == held;
    assert bytes[n + |held|..n + |held| + |data|] == data;
  }

  /** A write of nothing changes nothing. */
  lemma WriteNothing(s: Sector, offset: nat)
    requires offset <= |s.bytes|
    ensures Written(s, offset, NoHeader, []) == s
  {
  }

  /** One sector written, and with it the meaning of one block changed. */
  lemma PutRepresents(version: nat, blocks: seq<Block>, t: Tables, u: Tables, b: nat, s: nat, sec: Sector)
    requires t.pages >= 2 && u.pages == t.pages
    requires RepresentsAll(version, blocks, t)
    requires |u.disk| == |t.disk| && b < |t.disk| && s < |blocks[b]|
    requires forall x | 0 <= x < |t.disk| && x != b :: u.disk[x] == t.disk[x]
    requires Represents(t.pages, version, blocks[b][s := sec], u.disk[b])
    ensures RepresentsAll(version, Put(blocks, b, s, sec), u)
  {
  }

  /** A free block that carries good statistics can start a new part of a chain. */
  lemma FreeBecomesFile(pages: nat, version: nat, b: Block, id: nat, idx: nat)
    requires pages >= 2
    requires Represents(pages, version, b, Free)
    requires GoodStatistics(version, b[STATISTICS_SECTOR])
    ensures Represents(pages, version, b, FileBlock(id, idx, [], NO_BLOCK, 0))
  {
  }

  /** Committing the next sector of a file block, except TAIL. */
  lemma CommitRepresents(pages: nat, version: nat, b: Block, a: AbstractBlock, data: seq<byte>, sec: Sector)
    requires pages >= 2
    requires a.FileBlock? && Represents(pages, version, b, a)
    requires |a.slots| + 1 < SlotCount(pages)
    requires |data| <= Capacity(pages, |a.slots|)
    requires var h := HeaderSize(SectorOf(pages, |a.slots|));
      && |sec.bytes| == SECTOR_SIZE
      && sec.bytes[h..h + |data|] == data
      && sec.spare == Spare(KIND_FILE, |data|)
      && (if |a.slots| == 0 then sec.header == FileInit(a.id) else sec.header.NoHeader?)
    ensures Represents(pages, version, b[SectorOf(pages, |a.slots|) := sec], a.(slots := a.slots + [data]))
  {
    var s0 := SectorOf(pages, |a.slots|);
    var c := b[s0 := sec];
    var a' := a.(slots := a.slots + [data]);
    forall s | 1 <= s < |c| ensures FileSectorOk(pages, c, s, a') {
      assert FileSectorOk(pages, b, s, a);
    }
  }

  /** Committing the TAIL sector of a file block. */
  lemma TailRepresents(pages: nat, version: nat, b: Block, a: AbstractBlock, data: seq<byte>,
                       sec: Sector, next: nat, count: nat)
    requires pages >= 2
    requires a.FileBlock? && Represents(pages, version, b, a)
    requires |a.slots| + 1 == SlotCount(pages)
    requires |data| <= Capacity(pages, |a.slots|)
    requires |sec.bytes| == SECTOR_SIZE
    requires sec.bytes[TAIL_HEADER_SIZE..TAIL_HEADER_SIZE + |data|] == data
    requires sec.spare.value == |data|
    requires sec.header.FileTail? && sec.header.next == next && sec.header.count == count
    requires sec.header.stamp < ERASED32
    ensures Represents(pages, version, b[TAIL_SECTOR := sec],
                       a.(slots := a.slots + [data], next := next, count := count))
  {
    var c := b[TAIL_SECTOR := sec];
    var a' := a.(slots := a.slots + [data], next := next, count := count);
    forall s | 1 <= s < |c| ensures FileSectorOk(pages, c, s, a') {
      assert FileSectorOk(pages, b, s, a);
    }
  }

  /** Making the next record of an inode block. */
  lemma RecordRepresents(pages: nat, version: nat, b: Block, a: AbstractBlock, e: Entry, sec: Sector)
    requires pages >= 2
    requires a.InodeBlock? && Represents(pages, version, b, a)
    requires |a.entries| < EntriesPerBlock(pages) && !e.dead
    requires |sec.bytes| == SECTOR_SIZE
    requires sec.header.Allocation?
    requires sec.header.id == e.id && sec.header.first == e.first && sec.header.name == e.name
    ensures Represents(pages, version, b[FIRST_ENTRY_SECTOR + 2 * |a.entries| := sec],
                       InodeBlock(a.idx, a.entries + [e], a.next))
  {
    var c := b[FIRST_ENTRY_SECTOR + 2 * |a.entries| := sec];
    var a' := InodeBlock(a.idx, a.entries + [e], a.next);
    forall k | 0 <= k < EntriesPerBlock(pages) ensures RecordOk(pages, c, k, a') {
      assert RecordOk(pages, b, k, a);
    }
  }

  /** Marking a record of an inode block dead. */
  lemma DeadRepresents(pages: nat, version: nat, b: Block, a: AbstractBlock, k: nat, sec: Sector)
    requires pages >= 2
    requires a.InodeBlock? && Represents(pages, version, b, a)
    requires k < |a.entries|
    requires |sec.bytes| == SECTOR_SIZE
    requires sec.header.Invalidation? && sec.header.stamp < ERASED32
    ensures Represents(pages, version, b[FIRST_ENTRY_SECTOR + 2 * k + 1 := sec],
                       InodeBlock(a.idx, a.entries[k := Died(a.entries[k], sec.header.last)], a.next))
  {
    var c := b[FIRST_ENTRY_SECTOR + 2 * k + 1 := sec];
    var a' := InodeBlock(a.idx, a.entries[k := Died(a.entries[k], sec.header.last)], a.next);
    forall m | 0 <= m < EntriesPerBlock(pages) ensures RecordOk(pages, c, m, a') {
      assert RecordOk(pages, b, m, a);
    }
  }

  /** Linking the next inode block. */
  lemma LinkRepresents(pages: nat, version: nat, b: Block, a: AbstractBlock, next: nat, sec: Sector)
    requires pages >= 2
    requires a.InodeBlock? && Represents(pages, version, b, a)
    requires |sec.bytes| == SECTOR_SIZE
    requires sec.header.InodeTail? && sec.header.next == next
    requires next != NO_BLOCK
    ensures Represents(pages, version, b[TAIL_SECTOR := sec], InodeBlock(a.idx, a.entries, next))
  {
    var c := b[TAIL_SECTOR := sec];
    var a' := InodeBlock(a.idx, a.entries, next);
    forall m | 0 <= m < EntriesPerBlock(pages) ensures RecordOk(pages, c, m, a') {
      assert RecordOk(pages, b, m, a);
    }
  }

  /** An erased block with good statistics made an inode block. */
  lemma InodeInitRepresents(pages: nat, version: nat, b: Block, idx: nat, sec: Sector)
    requires pages >= 2
    requires Represents(pages, version, b, Free)
    requires GoodStatistics(version, b[STATISTICS_SECTOR])
    requires |sec.bytes| == SECTOR_SIZE
    requires sec.header.InodeInit? && sec.spare.kind == KIND_INODE
    requires sec.spare.value == InodeNumber(idx)
    ensures Represents(pages, version, b[INIT_SECTOR := sec], InodeBlock(idx, [], NO_BLOCK))
  {
    var c := b[INIT_SECTOR := sec];
    forall m | 0 <= m < EntriesPerBlock(pages) ensures RecordOk(pages, c, m, InodeBlock(idx, [], NO_BLOCK)) {
    }
  }

  /** An erased block with statistics written to it. */
  function WithStatistics(pages: nat, version: nat, keyValid: bool): Block
    requires pages >= 1
  {
    BlankBlock(pages)[STATISTICS_SECTOR := Written(BlankSector(), 0, Statistics(version, keyValid), [])]
  }

  lemma ErasedRepresents(pages: nat, version: nat, keyValid: bool)
    requires pages >= 2
    ensures Represents(pages, version, BlankBlock(pages), Free)
    ensures Represents(pages, version, WithStatistics(pages, version, keyValid), Free)
    ensures keyValid ==> GoodStatistics(version, WithStatistics(pages, version, keyValid)[STATISTICS_SECTOR])
    ensures RegionErased(BlankSector(), 0, HeaderBytes(Statistics(version, keyValid)))
  {
  }

  /** With no dirty block, every block in use is told from a free one by its statistics and the
      type in its INIT spare. */
  lemma InUseShows(version: nat, blocks: seq<Block>, t: Tables, b: nat)
    requires TablesOk(t) && t.dirty == None
    requires RepresentsAll(version, blocks, t)
    requires b < |t.disk|
    ensures |blocks[b]| == SectorCount(t.pages)
    ensures t.disk[b] != Free ==>
      GoodStatistics(version, blocks[b][STATISTICS_SECTOR]) &&
      blocks[b][INIT_SECTOR].spare.kind != KIND_UNALLOCATED
    ensures t.disk[b] == Free ==> blocks[b][INIT_SECTOR].spare.kind == KIND_UNALLOCATED
    ensures blocks[b][STATISTICS_SECTOR].header.NoHeader? || blocks[b][STATISTICS_SECTOR].header.Statistics?
  {
    assert Represents(t.pages, version, blocks[b], t.disk[b]);
    assert OwnerOk(t, b);
    match t.disk[b]
    case Free =>
    case InodeBlock(_, _, _) =>
    case FileBlock(id, idx, _, _, _) =>
      assert ChainOk(t, id) && LinkOk(t, id, t.chains[id], idx);
      assert FileSectorOk(t.pages, blocks[b], INIT_SECTOR, t.disk[b]);
  }
}
