// The state of the file system, the handles its callers own, and the page cache.
module FileSystem {
  import opened Geometry
  import opened Flash
  import opened Tables
  import opened Image
  import opened Prealloc

  /** The part of a write handle that the tables determine. */
  datatype WriterView = WriterView(id: nat, block: nat, sector: nat, offset: nat, remaining: nat, held: seq<byte>)

  /** A file opened for writing. */
  class WriteFile {
    var fileSize: word
    var block: nat
    var sector: nat
    var offset: nat
    var remaining: nat
    var bytesInBlock: word
    var id: nat
    /** The buffer is part of the handle, so nothing else can refer to it. */
    var buffer: seq<byte>

    constructor ()
      ensures |buffer| == SECTOR_SIZE
    {
      fileSize, block, sector, offset, remaining, bytesInBlock, id := 0, 0, 0, 0, 0, 0, 0;
      buffer := seq(SECTOR_SIZE, _ => 0);
    }

    /** Stands at the start of `sector` of `block`, with `n` more bytes in the file. */
    method MoveTo(block: nat, sector: nat, n: nat, bytesInBlock: word)
      requires |buffer| == SECTOR_SIZE
      modifies this
      ensures View() == WriterView(old(id), block, sector, HeaderSize(sector), SECTOR_SIZE - HeaderSize(sector), [])
      ensures id == old(id) && buffer == old(buffer)
      ensures this.bytesInBlock == bytesInBlock && fileSize == Add32(old(fileSize), n)
    {
      this.block := block;
      this.sector := sector;
      this.bytesInBlock := bytesInBlock;
      fileSize := Add32(fileSize, n);
      offset := HeaderSize(sector);
      remaining := SECTOR_SIZE - offset;
      assert View().held == [];
    }

    /** Stands, as writer of a new file, at the INIT sector of its first block. */
    method Start(id: nat, block: nat)
      requires |buffer| == SECTOR_SIZE
      modifies this
      ensures View() == WriterView(id, block, INIT_SECTOR, INIT_HEADER_SIZE, SECTOR_SIZE - INIT_HEADER_SIZE, [])
      ensures |buffer| == SECTOR_SIZE && bytesInBlock == 0 && fileSize == 0
    {
      this.block := block;
      this.id := id;
      bytesInBlock := 0;
      fileSize := 0;
      sector := INIT_SECTOR;
      offset := INIT_HEADER_SIZE;
      remaining := SECTOR_SIZE - INIT_HEADER_SIZE;
      assert View().held == [];
    }

    /** Stands, as writer of an existing file, at `sector`. No room is left for the header of an INIT
        sector, and the counter of the bytes in the block is left as it happens to be. */
    method Resume(id: nat, block: nat, sector: nat, size: word)
      requires |buffer| == SECTOR_SIZE
      modifies this
      ensures var offset := if sector == TAIL_SECTOR then TAIL_HEADER_SIZE else 0;
        View() == WriterView(id, block, sector, offset, SECTOR_SIZE - offset, [])
      ensures |buffer| == SECTOR_SIZE && bytesInBlock == old(bytesInBlock) && fileSize == size
    {
      this.block := block;
      this.id := id;
      this.sector := sector;
      fileSize := size;
      offset := if sector == TAIL_SECTOR then TAIL_HEADER_SIZE else 0;
      remaining := SECTOR_SIZE - offset;
      assert View().held == [];
    }

    /** Puts `data` behind the bytes already held. */
    method Hold(data: seq<byte>)
      requires HeaderSize(sector) <= offset && offset + |data| <= |buffer| == SECTOR_SIZE
      requires remaining == SECTOR_SIZE - offset
      modifies this
      ensures View() == old(View()).(offset := old(offset) + |data|, remaining := old(remaining) - |data|,
                                     held := old(View()).held + data)
      ensures |buffer| == SECTOR_SIZE
      ensures bytesInBlock == Add32(old(bytesInBlock), |data|) && fileSize == Add32(old(fileSize), |data|)
    {
      SpliceBehind(buffer, HeaderSize(sector), offset, data);
      buffer := Splice(buffer, offset, data);
      remaining := remaining - |data|;
      offset := offset + |data|;
      bytesInBlock := Add32(bytesInBlock, |data|);
      fileSize := Add32(fileSize, |data|);
    }

    /** The buffered bytes lie behind the room for the sector's header. */
    ghost function View(): WriterView
      reads this
    {
      WriterView(id, block, sector, offset, remaining,
                 if HeaderSize(sector) <= offset <= |buffer| then buffer[HeaderSize(sector)..offset] else [])
    }
  }

  lemma SpliceBehind(buffer: seq<byte>, from: nat, offset: nat, data: seq<byte>)
    requires from <= offset && offset + |data| <= |buffer|
    ensures Splice(buffer, offset, data)[from..offset + |data|] == buffer[from..offset] + data
  {
  }

  /** Where the writer of `id` must stand: at the first sector not yet committed. */
  ghost function WriterFor(t: Tables, id: nat): WriterView
    requires Writable(t, id)
  {
    var sector := SectorOf(t.pages, |LastBlock(t, id).slots|);
    var offset := HeaderSize(sector) + |t.bufs[id]|;
    WriterView(id, Last(t.chains[id]), sector, offset, if offset <= SECTOR_SIZE then SECTOR_SIZE - offset else 0,
               t.bufs[id])
  }

  /** `file` stands where the writer of `id` must stand. */
  ghost predicate Stands(t: Tables, id: nat, file: WriteFile)
    reads file
  {
    Writable(t, id) && |file.buffer| == SECTOR_SIZE && file.View() == WriterFor(t, id)
  }

  /** From `t` to `u` the writers other than those of `ids` need not move. */
  ghost predicate OthersStand(t: Tables, u: Tables, ids: set<nat>) {
    forall x {:trigger StaysPut(t, u, x)} | x in t.bufs && x !in ids :: StaysPut(t, u, x)
  }

  ghost predicate StaysPut(t: Tables, u: Tables, x: nat) {
    x in u.bufs && Writable(t, x) && Writable(u, x) && WriterFor(u, x) == WriterFor(t, x)
  }

  /** The page the file system believes to be open. */
  datatype CacheStatus = CacheStatus(open: bool, block: nat, page: nat)

  const CLOSED := CacheStatus(false, 0, 0)

  /** The block allocated last, as long as nothing in it has been committed. */
  datatype DirtyBlock = DirtyBlock(block: nat, file: WriteFile?)

  const NOT_DIRTY := DirtyBlock(NO_BLOCK, null)

  /** Blocks on the available list are erased and carry good statistics. */
  ghost predicate ReadyOk(version: nat, ready: seq<nat>, blocks: seq<Block>, t: Tables) {
    && |blocks| == |t.disk|
    && forall x | x in ready ::
      && x < |t.disk| && t.disk[x] == Free
      && |blocks[x]| > 0 && GoodStatistics(version, blocks[x][STATISTICS_SECTOR])
  }

  /** All that `OpenPage` may do to the preallocator. */
  ghost predicate Reopened(before: Lists, after: Lists, block: nat) {
    && after.ready == before.ready
    && (forall x | x in after.popped :: x in before.popped)
    && (forall x | x in before.popped && x != block :: x in after.popped)
    && (before.free != [] ==> after.free != [])
  }

  class FlogFs {
    const device: FlashDevice
    const prealloc: Preallocator
    const blockCount: nat
    const pages: nat
    /** What the random numbers of the device come from: any stream, of which `drawn` have been used. */
    const draws: nat -> nat
    var drawn: nat

    var mounted: bool
    var version: nat
    var inode0: nat
    var maxFileId: nat
    var time: nat
    var cache: CacheStatus
    var dirty: DirtyBlock

    /** The meaning of the volume. */
    ghost var t: Tables

    /** The device and the preallocator are in order. */
    ghost predicate Sound()
      reads this, device, prealloc, prealloc.nodes
    {
      && pages >= 2 && device.pages == pages
      && |device.blocks| == blockCount < NO_BLOCK
      && Shaped(pages, device.blocks)
      && prealloc.Valid()
    }

    /** If the cache believes this page to be open, it is. */
    ghost predicate Truthful(block: nat, page: nat)
      reads this, device
    {
      cache == CacheStatus(true, block, page) ==> device.openBlock == block && device.openPage == page
    }

    /** Besides, the cache tells the truth about the device. */
    ghost predicate Base()
      reads this, device, prealloc, prealloc.nodes
    {
      && Sound()
      && (cache.open ==>
            cache.block == device.openBlock < blockCount && cache.page == device.openPage < pages)
    }

    /** The flash holds the volume `t`. */
    ghost predicate Holds()
      reads this, device, prealloc, prealloc.nodes
    {
      && Base()
      && t.pages == pages && |t.disk| == blockCount
      && TablesOk(t)
      && RepresentsAll(version, device.blocks, t)
      && version != 0
    }

    /** The dirty block is the last block of the one file that has nothing committed there. */
    ghost predicate DirtyOk()
      reads this, if dirty.file == null then {} else {dirty.file}
    {
      match t.dirty
      case None => dirty == NOT_DIRTY
      case Some(id) =>
        && dirty.file != null
        && Stands(t, id, dirty.file)
        && dirty.block == Last(t.chains[id])
    }

    /** The invariant of a mounted file system. */
    ghost predicate Valid()
      reads this, device, prealloc, prealloc.nodes, if dirty.file == null then {} else {dirty.file}
    {
      && Holds()
      && mounted
      && ReadyOk(version, prealloc.lists.ready, device.blocks, t)
      && inode0 == 0
      && maxFileId == |t.log|
      && time < ERASED32
      && DirtyOk()
    }

    /** `file` is the handle that writes file `file.id`. There may be one such handle a file. */
    ghost predicate Open(file: WriteFile)
      reads this, file
    {
      && file.id in t.bufs
      && Stands(t, file.id, file)
      && (t.dirty == Some(file.id) <==> dirty.file == file)
    }

    /** Each of these is such a handle. */
    ghost predicate AllOpen(files: set<WriteFile>)
      reads this, files
    {
      forall o | o in files :: Open(o)
    }

    constructor (device: FlashDevice, preallocated: nat, draws: nat -> nat)
      requires Shaped(device.pages, device.blocks)
      requires device.pages >= 2 && |device.blocks| < NO_BLOCK
      ensures this.device == device && fresh(prealloc) && fresh(prealloc.nodes)
      ensures prealloc.nodes.Length == preallocated
      ensures Base() && !mounted && version == 31337 && time == 0
      ensures this.draws == draws && drawn == 0
    {
      this.device := device;
      this.draws := draws;
      drawn := 0;
      blockCount := |device.blocks|;
      pages := device.pages;
      mounted, version, inode0, maxFileId, time := false, 31337, 0, 0, 0;
      cache, dirty := CLOSED, NOT_DIRTY;
      prealloc := new Preallocator(preallocated);
      t := Tables(device.pages, [], [], [], map[], map[], None);
      new;
      prealloc.Initialize();
    }

    // --------------------------------------------------------------- page cache

    /** Opens a page unless the cache knows that it is open; if it has to be opened,
        its block is no longer pending. The cache need only be truthful about the
        page asked for: a page opened past the cache does no harm. */
    method OpenPage(block: nat, page: nat)
      requires Sound() && Truthful(block, page)
      requires block < blockCount && page < pages
      modifies `cache, device`openBlock, device`openPage, prealloc, prealloc.nodes
      ensures Base()
      ensures device.openBlock == block && device.openPage == page
      ensures cache == CacheStatus(true, block, page)
      ensures Reopened(old(prealloc.lists), prealloc.lists, block)
      ensures block !in old(prealloc.lists.popped) ==> prealloc.lists == old(prealloc.lists)
      ensures block in prealloc.lists.popped <==>
              old(cache) == CacheStatus(true, block, page) && block in old(prealloc.lists.popped)
    {
      hide Preallocator.Valid, Shaped;
      if cache.open && cache.block == block && cache.page == page {
        return;
      }
      device.OpenPage(block, page);
      cache := CacheStatus(true, block, page);
      prealloc.RemovePending(block);
    }

    /** After this, an access to `sector` reaches that sector of `block`. */
    method OpenSector(block: nat, sector: nat)
      requires Sound() && Truthful(block, sector / SECTORS_PER_PAGE)
      requires block < blockCount && sector < SectorCount(pages)
      modifies `cache, device`openBlock, device`openPage, prealloc, prealloc.nodes
      ensures Base() && device.Ready()
      ensures device.openBlock == block && device.Target(sector) == sector
      ensures device.openPage == sector / SECTORS_PER_PAGE
      ensures Reopened(old(prealloc.lists), prealloc.lists, block)
      ensures block !in old(prealloc.lists.popped) ==> prealloc.lists == old(prealloc.lists)
    {
      OpenPage(block, sector / SECTORS_PER_PAGE);
    }

    method CloseSector()
      requires Base()
      modifies `cache
      ensures Base() && !cache.open
    {
      cache := cache.(open := false);
    }
  }
}
