// Writing files: committing sectors, flushing, the dirty block and its
// allocation.
module Writer {
  import opened Geometry
  import opened Flash
  import opened Tables
  import opened TablesProofs
  import opened Refinement
  import opened Image
  import opened Prealloc
  import opened FileSystem
  import opened Allocator
  import opened Counts
  import opened Effects
  import opened Fullness
  import opened Machine

  /** Where an open writer stands. */
  lemma WriterStands(fs: FlogFs, file: WriteFile)
    requires TablesOk(fs.t)
    requires file.id in fs.t.bufs && Stands(fs.t, file.id, file)
    ensures Writable(fs.t, file.id)
    ensures var a := LastBlock(fs.t, file.id);
      && a.id == file.id
      && |a.slots| < SlotCount(fs.t.pages)
      && file.block == Last(fs.t.chains[file.id]) < |fs.t.disk|
      && file.sector == SectorOf(fs.t.pages, |a.slots|)
      && 1 <= file.sector < SectorCount(fs.t.pages)
      && file.offset == HeaderSize(file.sector) + |fs.t.bufs[file.id]| < SECTOR_SIZE
      && file.remaining == SECTOR_SIZE - file.offset
      && |file.buffer| == SECTOR_SIZE
      && file.buffer[HeaderSize(file.sector)..file.offset] == fs.t.bufs[file.id]
      && Capacity(fs.t.pages, |a.slots|) == SECTOR_SIZE - HeaderSize(file.sector)
      && (file.sector == TAIL_SECTOR <==> |a.slots| == SlotCount(fs.t.pages) - 1)
      && (file.sector == INIT_SECTOR <==> |a.slots| == 0)
      && (|a.slots| == 0 <==> fs.t.dirty == Some(file.id))
  {
    WritableIfOpen(fs.t, file.id);
  }

  /** The sector an open writer stands at is blank. */
  lemma StandsAtBlank(version: nat, blocks: seq<Block>, t: Tables, id: nat)
    requires TablesOk(t) && id in t.bufs && Writable(t, id)
    requires RepresentsAll(version, blocks, t)
    ensures Last(t.chains[id]) < |blocks|
    ensures var a, b := LastBlock(t, id), blocks[Last(t.chains[id])];
      && Represents(t.pages, version, b, a)
      && |b| == SectorCount(t.pages)
      && SectorOf(t.pages, |a.slots|) < |b|
      && Blank(b[SectorOf(t.pages, |a.slots|)])
  {
    WritableIfOpen(t, id);
    var a, k := LastBlock(t, id), Last(t.chains[id]);
    assert Represents(t.pages, version, blocks[k], t.disk[k]);
    assert FileSectorOk(t.pages, blocks[k], SectorOf(t.pages, |a.slots|), a);
  }

  /** Writes a structure and `held` at the start of the open blank sector, `data` behind them, and the spare. */
  method ProgramSector(device: FlashDevice, sector: nat, h: Header, held: seq<byte>, data: seq<byte>, spare: Spare)
    requires device.Ready()
    requires Blank(device.blocks[device.openBlock][device.Target(sector)])
    requires HeaderBytes(h) + |held| + |data| <= SECTOR_SIZE
    modifies device`blocks
    ensures Shaped(device.pages, device.blocks)
    ensures device.blocks == Put(old(device.blocks), device.openBlock, old(device.Target(sector)),
                                 Filled(h, held, data).(spare := spare))
  {
    hide Put, Written, Splice, BlankSector, Shaped;
    FilledHolds(h, held, data);
    FilledIs(h, held, data);
    var offset := HeaderBytes(h) + |held|;
    ghost var before, b, s := device.blocks, device.openBlock, device.Target(sector);
    ghost var first := Written(BlankSector(), 0, h, held);
    if offset != 0 {
      device.WriteSector(sector, 0, h, held);
    } else {
      WriteNothing(BlankSector(), 0);
      PutSame(before, b, s);
    }
    PutAt(before, b, s, first);
    if |data| != 0 {
      device.WriteSector(sector, offset, NoHeader, data);
    } else {
      WriteNothing(first, offset);
      PutSame(device.blocks, b, s);
    }
    PutTwice(before, b, s, first, Filled(h, held, data));
    PutAt(before, b, s, Filled(h, held, data));
    PutTwice(before, b, s, Filled(h, held, data), Filled(h, held, data).(spare := spare));
    device.WriteSpare(sector, spare);
  }

  lemma FilledIs(h: Header, held: seq<byte>, data: seq<byte>)
    requires HeaderBytes(h) + |held| + |data| <= SECTOR_SIZE
    ensures |BlankSector().bytes| == SECTOR_SIZE
    ensures |Written(BlankSector(), 0, h, held).bytes| == SECTOR_SIZE
    ensures Filled(h, held, data) ==
            Written(Written(BlankSector(), 0, h, held), HeaderBytes(h) + |held|, NoHeader, data)
  {
  }

  /** The other writers stay where they are when one commits a sector; that one moves to the next. */
  lemma CommitMoves(t: Tables, id: nat, data: seq<byte>)
    requires TablesOk(t) && id in t.bufs && Writable(t, id)
    requires |LastBlock(t, id).slots| + 1 < SlotCount(t.pages)
    requires TablesOk(CommitStep(t, id, data))
    ensures OthersStand(t, CommitStep(t, id, data), {id})
    ensures Writable(CommitStep(t, id, data), id)
    ensures var u := CommitStep(t, id, data);
      id in u.bufs && u.chains == t.chains && u.log == t.log &&
      u.dirty == if t.dirty == Some(id) then None else t.dirty
    ensures var sector := IncrementSector(t.pages, SectorOf(t.pages, |LastBlock(t, id).slots|));
      WriterFor(CommitStep(t, id, data), id) ==
      WriterView(id, Last(t.chains[id]), sector, HeaderSize(sector), SECTOR_SIZE - HeaderSize(sector), [])
  {
    var u := CommitStep(t, id, data);
    WritableIfOpen(t, id);
    WritableIfOpen(u, id);
    forall x | x in t.bufs && x != id
      ensures StaysPut(t, u, x)
    {
      WritableIfOpen(t, x);
      WritableIfOpen(u, x);
    }
  }

  /** The tables and the flash after a commit: the writing in terms of values. */
  lemma CommitImage(version: nat, blocks: seq<Block>, t: Tables, id: nat, data: seq<byte>, header: Header)
    requires TablesOk(t) && id in t.bufs && Writable(t, id)
    requires RepresentsAll(version, blocks, t)
    requires |LastBlock(t, id).slots| + 1 < SlotCount(t.pages)
    requires |t.bufs[id]| + |data| <= Capacity(t.pages, |LastBlock(t, id).slots|)
    requires header == if |LastBlock(t, id).slots| == 0 then FileInit(id) else NoHeader
    ensures HeaderBytes(header) + |t.bufs[id]| + |data| <= SECTOR_SIZE
    ensures var k, s := Last(t.chains[id]), SectorOf(t.pages, |LastBlock(t, id).slots|);
      var sec := Filled(header, t.bufs[id], data).(spare := Spare(KIND_FILE, |t.bufs[id]| + |data|));
      && k < |blocks| && s < |blocks[k]|
      && RepresentsAll(version, Put(blocks, k, s, sec), CommitStep(t, id, data))
    ensures TablesOk(CommitStep(t, id, data))
  {
    StandsAtBlank(version, blocks, t, id);
    WritableIfOpen(t, id);
    var a, k := LastBlock(t, id), Last(t.chains[id]);
    var s := SectorOf(t.pages, |a.slots|);
    var sec := Filled(header, t.bufs[id], data).(spare := Spare(KIND_FILE, |t.bufs[id]| + |data|));
    FilledHolds(header, t.bufs[id], data);
    CommitRepresents(t.pages, version, blocks[k], a, t.bufs[id] + data, sec);
    PutRepresents(version, blocks, t, CommitStep(t, id, data), k, s, sec);
    CommitKeeps(t, id, data);
  }

  /** Blocks on the available list stay as they are when a block that is not free is written. */
  lemma ReadyKept(version: nat, ready: seq<nat>, blocks: seq<Block>, t: Tables, u: Tables, k: nat, s: nat, sec: Sector)
    requires ReadyOk(version, ready, blocks, t)
    requires k < |blocks| && s < |blocks[k]|
    requires |u.disk| == |t.disk| && t.disk[k] != Free
    requires forall x | x in ready && x < |t.disk| && t.disk[x] == Free :: u.disk[x] == Free
    ensures ReadyOk(version, ready, Put(blocks, k, s, sec), u)
  {
  }

  /** The flash and the tables after a sector other than TAIL has been committed; the handle is not moved yet. */
  method CommitOnFlash(fs: FlogFs, file: WriteFile, data: seq<byte>)
    requires fs.Valid() && fs.Open(file)
    requires file.sector != TAIL_SECTOR
    requires |data| <= file.remaining
    modifies fs`cache, fs`t, fs.device, fs.prealloc, fs.prealloc.nodes
    ensures fs.Holds()
    ensures Writable(old(fs.t), file.id) && fs.t == CommitStep(old(fs.t), file.id, data)
    ensures ReadyOk(fs.version, fs.prealloc.lists.ready, fs.device.blocks, fs.t)
    ensures Reopened(old(fs.prealloc.lists), fs.prealloc.lists, old(file.block))
  {
    hide TablesOk, RepresentsAll, Preallocator.Valid, ReadyOk, Represents, Filled;
    WriterStands(fs, file);
    StandsAtBlank(fs.version, fs.device.blocks, fs.t, file.id);
    ghost var t := fs.t;
    ghost var blocks := fs.device.blocks;
    var header := if file.sector == INIT_SECTOR then FileInit(file.id) else NoHeader;
    var nbytes := file.offset + |data| - HeaderSize(file.sector);
    var held := file.buffer[HeaderSize(file.sector)..file.offset];
    fs.OpenSector(file.block, file.sector);
    ProgramSector(fs.device, file.sector, header, held, data, Spare(KIND_FILE, nbytes));
    CommitImage(fs.version, blocks, t, file.id, data, header);
    fs.t := CommitStep(t, file.id, data);
    ReadyKept(fs.version, fs.prealloc.lists.ready, blocks, t, fs.t, file.block, file.sector,
              Filled(header, held, data).(spare := Spare(KIND_FILE, nbytes)));
  }

  /** The handles of `others` are open beside `file`, each for a file of its own. */
  ghost predicate Beside(fs: FlogFs, file: WriteFile, others: set<WriteFile>)
    reads fs, others, file
  {
    forall o | o in others && o != file :: fs.Open(o) && o.id != file.id
  }

  /** A handle that was open is open, and holds what it held. */
  twostate predicate Untouched(fs: FlogFs, o: WriteFile)
    reads fs, o
  {
    fs.Open(o) && o.id == old(o.id) && o.bytesInBlock == old(o.bytesInBlock) && o.fileSize == old(o.fileSize)
  }

  /** What writing to one file keeps for the handles of all others. */
  twostate predicate OthersKept(fs: FlogFs, file: WriteFile, others: set<WriteFile>)
    reads fs, others
  {
    forall o | o in others && o != file :: Untouched(fs, o)
  }

  /** No handle but that of `file` has come to be the one of the dirty block. */
  twostate predicate OnlyDirties(fs: FlogFs, file: WriteFile)
    reads fs
  {
    fs.dirty.file == null || fs.dirty.file == old(fs.dirty.file) || fs.dirty.file == file
  }

  /** Commits the buffer and `data` to a sector other than TAIL. */
  method CommitData(fs: FlogFs, file: WriteFile, data: seq<byte>, ghost others: set<WriteFile>)
    requires fs.Valid() && fs.Open(file) && Beside(fs, file, others)
    requires file.sector != TAIL_SECTOR
    requires |data| <= file.remaining
    modifies fs`cache, fs`dirty, fs`t, fs.device, fs.prealloc, fs.prealloc.nodes, file
    ensures fs.Valid() && fs.Open(file)
    ensures Writable(old(fs.t), file.id) && fs.t == CommitStep(old(fs.t), file.id, data)
    ensures OthersKept(fs, file, others)
    ensures file.id == old(file.id)
    ensures file.bytesInBlock == Add32(old(file.bytesInBlock), |data|)
    ensures file.fileSize == Add32(old(file.fileSize), |data|)
    ensures Reopened(old(fs.prealloc.lists), fs.prealloc.lists, old(file.block))
    ensures fs.dirty == (if old(fs.dirty.file) == file then NOT_DIRTY else old(fs.dirty))
    ensures file.sector == IncrementSector(fs.pages, old(file.sector)) && file.offset == HeaderSize(file.sector)
  {
    hide TablesOk, RepresentsAll, Preallocator.Valid, Shaped, ReadyOk, CommitStep;
    WriterStands(fs, file);
    DirtyIsOpen(fs.t);
    ghost var t := fs.t;
    CommitOnFlash(fs, file, data);
    CommitMoves(t, file.id, data);
    if fs.dirty.file == file {
      fs.dirty := NOT_DIRTY;
    } else {
      assert t.dirty.Some? ==> Stands(fs.t, t.dirty.value, fs.dirty.file) by {
        if t.dirty.Some? { assert StaysPut(t, fs.t, t.dirty.value); }
      }
    }
    file.MoveTo(file.block, IncrementSector(fs.pages, file.sector), |data|, Add32(file.bytesInBlock, |data|));
    forall o | o in others && o != file ensures Untouched(fs, o) {
      assert StaysPut(t, fs.t, o.id);
    }
  }

  /** The handles that were open are open. */
  twostate predicate StillOpen(fs: FlogFs, others: set<WriteFile>)
    reads fs, others
  {
    forall o | o in others :: Untouched(fs, o)
  }

  /** Commits the INIT sector of the dirty block, if there is one. Its file stands at that sector,
      so the flush is a single commit that allocates nothing. */
  method FlushDirtyBlock(fs: FlogFs, ghost others: set<WriteFile>)
    requires fs.Valid() && fs.AllOpen(others)
    modifies fs`cache, fs`dirty, fs`t, fs.device, fs.prealloc, fs.prealloc.nodes
    modifies if fs.dirty.file == null then {} else {fs.dirty.file}
    ensures fs.Valid()
    ensures fs.dirty == NOT_DIRTY && fs.t.dirty == None
    ensures old(fs.t.dirty).Some? ==> Writable(old(fs.t), old(fs.t.dirty).value)
    ensures fs.t == FlushDirtyStep(old(fs.t))
    ensures if old(fs.dirty.file) == null then fs.prealloc.lists == old(fs.prealloc.lists)
            else Reopened(old(fs.prealloc.lists), fs.prealloc.lists, old(fs.dirty.block))
    ensures StillOpen(fs, others)
  {
    hide RepresentsAll, Preallocator.Valid, Shaped, ReadyOk, Stands;
    if fs.dirty.file == null {
      return;
    }
    DirtyStands(fs);
    AddNothing(fs.dirty.file.bytesInBlock);
    AddNothing(fs.dirty.file.fileSize);
    CommitData(fs, fs.dirty.file, [], others);
  }

  lemma DirtyIsOpen(t: Tables)
    requires TablesOk(t)
    ensures t.dirty.Some? ==> t.dirty.value in t.bufs
  {
  }

  /** The dirty file is open and stands at an INIT sector. */
  lemma DirtyStands(fs: FlogFs)
    requires fs.Valid() && fs.dirty.file != null
    ensures fs.Open(fs.dirty.file) && fs.t.dirty == Some(fs.dirty.file.id)
    ensures fs.dirty.file.sector == INIT_SECTOR && fs.dirty.file.block == fs.dirty.block
  {
    WritableIfOpen(fs.t, fs.t.dirty.value);
  }

  // ------------------------------------------------------------- the TAIL sector

  /** The tables and the flash after the TAIL sector has been written, in terms of values. */
  lemma TailImage(version: nat, ready: seq<nat>, blocks: seq<Block>, t: Tables, id: nat, data: seq<byte>,
                  next: nat, stamp: nat, count: nat, kind: nat)
    requires TablesOk(t) && id in t.bufs && Writable(t, id)
    requires RepresentsAll(version, blocks, t) && ReadyOk(version, ready, blocks, t)
    requires t.dirty == None
    requires |LastBlock(t, id).slots| + 1 == SlotCount(t.pages)
    requires |t.bufs[id]| + |data| <= Capacity(t.pages, |LastBlock(t, id).slots|)
    requires next < |t.disk| && t.disk[next] == Free && next !in ready
    requires |blocks[next]| > 0 && GoodStatistics(version, blocks[next][STATISTICS_SECTOR])
    requires stamp < ERASED32
    ensures TAIL_HEADER_SIZE + |t.bufs[id]| + |data| <= SECTOR_SIZE
    ensures Last(t.chains[id]) < |blocks| && TAIL_SECTOR < |blocks[Last(t.chains[id])]|
    ensures var k := Last(t.chains[id]);
      var sec := Filled(FileTail(next, stamp, count), t.bufs[id], data).(spare := Spare(kind, |t.bufs[id]| + |data|));
      && RepresentsAll(version, Put(blocks, k, TAIL_SECTOR, sec), TailStep(t, id, data, next, count))
      && ReadyOk(version, ready, Put(blocks, k, TAIL_SECTOR, sec), TailStep(t, id, data, next, count))
    ensures TablesOk(TailStep(t, id, data, next, count))
  {
    StandsAtBlank(version, blocks, t, id);
    WritableIfOpen(t, id);
    var a, k := LastBlock(t, id), Last(t.chains[id]);
    var u := TailStep(t, id, data, next, count);
    var header := FileTail(next, stamp, count);
    var sec := Filled(header, t.bufs[id], data).(spare := Spare(kind, |t.bufs[id]| + |data|));
    FilledHolds(header, t.bufs[id], data);
    TailRepresents(t.pages, version, blocks[k], a, t.bufs[id] + data, sec, next, count);
    assert Represents(t.pages, version, blocks[next], t.disk[next]);
    FreeBecomesFile(t.pages, version, blocks[next], id, |t.chains[id]|);
    var after := Put(blocks, k, TAIL_SECTOR, sec);
    forall x | 0 <= x < |after| ensures Represents(t.pages, version, after[x], u.disk[x]) {
      assert Represents(t.pages, version, blocks[x], t.disk[x]);
    }
    TailKeeps(t, id, data, next, count);
  }

  /** The other writers stay where they are when one commits its TAIL sector; that one moves to the next block. */
  lemma TailMoves(t: Tables, id: nat, data: seq<byte>, next: nat, count: nat)
    requires TablesOk(t) && id in t.bufs && Writable(t, id)
    requires next < |t.disk| && t.disk[next] == Free
    requires TablesOk(TailStep(t, id, data, next, count))
    ensures OthersStand(t, TailStep(t, id, data, next, count), {id})
    ensures Writable(TailStep(t, id, data, next, count), id)
    ensures WriterFor(TailStep(t, id, data, next, count), id) ==
            WriterView(id, next, INIT_SECTOR, INIT_HEADER_SIZE, SECTOR_SIZE - INIT_HEADER_SIZE, [])
    ensures var u := TailStep(t, id, data, next, count);
      id in u.bufs && u.dirty == Some(id) && Last(u.chains[id]) == next && u.log == t.log && u.pages == t.pages &&
      |u.disk| == |t.disk|
  {
    var u := TailStep(t, id, data, next, count);
    WritableIfOpen(t, id);
    WritableIfOpen(u, id);
    forall x | x in t.bufs && x != id
      ensures StaysPut(t, u, x)
    {
      WritableIfOpen(t, x);
      WritableIfOpen(u, x);
    }
  }

  /** Writes the TAIL sector, which links block `next`. */
  method TailOnFlash(fs: FlogFs, file: WriteFile, data: seq<byte>, next: nat, count: nat)
    requires Primable(fs) && Taken(fs, next)
    requires file.id in fs.t.bufs && Stands(fs.t, file.id, file)
    requires file.sector == TAIL_SECTOR
    requires |data| <= file.remaining
    requires fs.time < ERASED32
    modifies fs`cache, fs`t, fs.device, fs.prealloc, fs.prealloc.nodes
    ensures fs.Holds()
    ensures Writable(old(fs.t), file.id) && next < |old(fs.t).disk|
    ensures fs.t == TailStep(old(fs.t), file.id, data, next, count)
    ensures ReadyOk(fs.version, fs.prealloc.lists.ready, fs.device.blocks, fs.t)
    ensures HeaderAt(fs.device.blocks, file.block, TAIL_SECTOR, FileTail(next, fs.time, count))
    ensures fs.prealloc.lists.ready == old(fs.prealloc.lists.ready)
  {
    hide TablesOk, RepresentsAll, Preallocator.Valid, ReadyOk, Represents, Filled;
    WriterStands(fs, file);
    StandsAtBlank(fs.version, fs.device.blocks, fs.t, file.id);
    ghost var t := fs.t;
    ghost var blocks := fs.device.blocks;
    // The type in the spare is never set for a TAIL sector.
    var kind: nat :| kind <= 0xFF;
    var nbytes := file.offset + |data| - TAIL_HEADER_SIZE;
    var held := file.buffer[TAIL_HEADER_SIZE..file.offset];
    fs.OpenSector(file.block, TAIL_SECTOR);
    ProgramSector(fs.device, TAIL_SECTOR, FileTail(next, fs.time, count), held, data, Spare(kind, nbytes));
    FilledHolds(FileTail(next, fs.time, count), held, data);
    PutAt(blocks, file.block, TAIL_SECTOR, Filled(FileTail(next, fs.time, count), held, data).(spare := Spare(kind, nbytes)));
    TailImage(fs.version, fs.prealloc.lists.ready, blocks, t, file.id, data, next, fs.time, count, kind);
    fs.t := TailStep(t, file.id, data, next, count);
  }

  /** The free blocks that were pending still are, and so is the one just taken; no others are. */
  ghost predicate StillPending(disk: seq<AbstractBlock>, had: seq<nat>, taken: nat, popped: seq<nat>) {
    && (forall x | x in popped :: x in had || x == taken)
    && (forall x | x in had && x < |disk| && disk[x] == Free :: x in popped)
    && taken in popped
  }

  /** One block has been taken off the list `had`; if it was the last, free blocks have been looked for.
      `pending` are the blocks that were pending before. */
  ghost predicate OneTakenFrom(disk: seq<AbstractBlock>, draws: nat -> nat, from: nat, size: nat, had: seq<nat>,
                               pending: seq<nat>, stock: (seq<nat>, nat)) {
    && had != []
    && exists popped: seq<nat> ::
      StillPending(disk, pending, had[0], popped) && Restocked(disk, draws, from, size, had, popped, stock)
  }

  twostate predicate TookOne(fs: FlogFs)
    reads fs, fs.prealloc
  {
    OneTakenFrom(old(fs.t.disk), fs.draws, old(fs.drawn), fs.prealloc.nodes.Length, old(fs.prealloc.lists.ready),
                 old(fs.prealloc.lists.popped), Stock(fs))
  }

  /** The list of available blocks is as it was, and none has been looked for. */
  twostate predicate TookNone(fs: FlogFs)
    reads fs, fs.prealloc
  {
    Stock(fs) == old(Stock(fs))
  }

  lemma FlushFrees(t: Tables)
    requires TablesOk(t)
    requires t.dirty.Some? ==> Writable(t, t.dirty.value)
    ensures FreeBlocks(FlushDirtyStep(t).disk) == FreeBlocks(t.disk) && |FlushDirtyStep(t).disk| == |t.disk|
  {
  }

  lemma RestockedSame(d: seq<AbstractBlock>, e: seq<AbstractBlock>, draws: nat -> nat, from: nat, size: nat, had: seq<nat>,
                      popped: seq<nat>, stock: (seq<nat>, nat))
    requires FreeBlocks(d) == FreeBlocks(e) && |d| == |e|
    ensures Restocked(d, draws, from, size, had, popped, stock) <==> Restocked(e, draws, from, size, had, popped, stock)
  {
  }

  /** Every allocation flushes the dirty block first, so that priming cannot mistake it for a free one. */
  method FlushAndAllocate(fs: FlogFs, ghost others: set<WriteFile>) returns (next: nat)
    requires fs.Valid() && fs.AllOpen(others)
    modifies fs`cache, fs`drawn, fs`dirty, fs`t, fs.device, fs.prealloc, fs.prealloc.nodes
    modifies if fs.dirty.file == null then {} else {fs.dirty.file}
    ensures fs.Valid() && Primable(fs)
    ensures old(fs.t).dirty.Some? ==> Writable(old(fs.t), old(fs.t).dirty.value)
    ensures fs.t == FlushDirtyStep(old(fs.t)) && fs.dirty == NOT_DIRTY
    ensures next == NO_BLOCK <==> old(fs.prealloc.lists.ready) == []
    ensures next != NO_BLOCK ==> Taken(fs, next) && next == old(fs.prealloc.lists.ready)[0] && TookOne(fs)
    ensures next == NO_BLOCK ==> TookNone(fs)
    ensures StillOpen(fs, others)
  {
    hide TablesOk, RepresentsAll, Preallocator.Valid, ReadyOk, FlushDirtyStep, Restocked, FreeBlocks, Prepared, InUseKept;
    ghost var t, popped, ready, dirty := fs.t, fs.prealloc.lists.popped, fs.prealloc.lists.ready, fs.dirty.block;
    DirtyInUse(fs);
    FlushFrees(t);
    FlushDirtyBlock(fs, others);
    ghost var still := fs.prealloc.lists.popped;
    next := AllocateBlock(fs);
    if next != NO_BLOCK {
      PendingSince(t.disk, popped, dirty, still, next);
      RestockedSame(t.disk, fs.t.disk, fs.draws, old(fs.drawn), fs.prealloc.nodes.Length, ready, fs.prealloc.lists.popped, Stock(fs));
    }
  }

  lemma DirtyInUse(fs: FlogFs)
    requires fs.Valid()
    ensures fs.dirty.file != null ==> fs.dirty.block < |fs.t.disk| && fs.t.disk[fs.dirty.block] != Free
  {
    if fs.t.dirty.Some? { WritableIfOpen(fs.t, fs.t.dirty.value); }
  }

  lemma PendingSince(disk: seq<AbstractBlock>, had: seq<nat>, dirty: nat, still: seq<nat>, taken: nat)
    requires still == had || (dirty < |disk| && disk[dirty] != Free && (forall x | x in still :: x in had) &&
                              (forall x | x in had && x != dirty :: x in still))
    ensures StillPending(disk, had, taken, still + [taken])
  {
  }

  /** `next` is a free block that can be linked behind the last one of `id`. */
  ghost predicate Linkable(t: Tables, id: nat, next: nat) {
    Writable(t, id) && next < |t.disk| && t.disk[next] == Free
  }

  /** Commits the buffer and `data` to the TAIL sector, links `next` there and moves the writer to it. */
  method LinkTail(fs: FlogFs, file: WriteFile, data: seq<byte>, next: nat, ghost others: set<WriteFile>)
    requires fs.Valid() && fs.Open(file) && Beside(fs, file, others)
    requires fs.dirty == NOT_DIRTY && Primable(fs) && Taken(fs, next)
    requires file.sector == TAIL_SECTOR
    requires |data| <= file.remaining
    requires fs.time + 1 < ERASED32
    modifies fs`cache, fs`dirty, fs`t, fs`time, fs.device, fs.prealloc, fs.prealloc.nodes, file
    ensures fs.Valid() && fs.Open(file)
    ensures file.id == old(file.id)
    ensures Linkable(old(fs.t), file.id, next)
    ensures fs.t == TailStep(old(fs.t), file.id, data, next, Add32(old(file.bytesInBlock), |data|))
    ensures fs.dirty == DirtyBlock(next, file) && file.sector == INIT_SECTOR && file.offset == INIT_HEADER_SIZE
    ensures HeaderAt(fs.device.blocks, old(file.block), TAIL_SECTOR,
                     FileTail(next, fs.time, Add32(old(file.bytesInBlock), |data|)))
    ensures fs.time == old(fs.time) + 1
    ensures fs.prealloc.lists.ready == old(fs.prealloc.lists.ready)
    ensures file.bytesInBlock == 0 && file.fileSize == Add32(old(file.fileSize), |data|)
    ensures OthersKept(fs, file, others)
  {
    hide TablesOk, RepresentsAll, Preallocator.Valid, ReadyOk, TailStep, Shaped, Add32;
    WriterStands(fs, file);
    ghost var t := fs.t;
    var count := Add32(file.bytesInBlock, |data|);
    fs.dirty := DirtyBlock(next, file);
    fs.time := fs.time + 1;
    TailOnFlash(fs, file, data, next, count);
    TailMoves(t, file.id, data, next, count);
    file.MoveTo(next, INIT_SECTOR, |data|, 0);
    forall o | o in others && o != file ensures Untouched(fs, o) {
      assert StaysPut(t, fs.t, o.id);
    }
  }

  /** Commits the buffer and `data` to the TAIL sector, for which another block must be had. */
  method CommitTail(fs: FlogFs, file: WriteFile, data: seq<byte>, ghost others: set<WriteFile>) returns (ok: bool)
    requires fs.Valid() && fs.Open(file) && Beside(fs, file, others)
    requires file.sector == TAIL_SECTOR
    requires |data| <= file.remaining
    requires fs.time + 1 < ERASED32
    modifies fs`cache, fs`drawn, fs`dirty, fs`t, fs`time, fs.device, fs.prealloc, fs.prealloc.nodes, file
    modifies if fs.dirty.file == null then {} else {fs.dirty.file}
    ensures fs.Valid() && fs.Open(file)
    ensures file.id == old(file.id)
    ensures old(fs.t).dirty.Some? ==> Writable(old(fs.t), old(fs.t).dirty.value)
    ensures var t := FlushDirtyStep(old(fs.t));
      if ok then
        && Linkable(t, file.id, fs.dirty.block)
        && fs.t == TailStep(t, file.id, data, fs.dirty.block, Add32(old(file.bytesInBlock), |data|))
        && fs.time == old(fs.time) + 1
        && HeaderAt(fs.device.blocks, old(file.block), TAIL_SECTOR,
                    FileTail(fs.dirty.block, fs.time, Add32(old(file.bytesInBlock), |data|)))
        && file.bytesInBlock == 0 && file.fileSize == Add32(old(file.fileSize), |data|)
      else
        && fs.t == t && fs.time == old(fs.time)
        && file.View() == old(file.View())
        && file.bytesInBlock == old(file.bytesInBlock) && file.fileSize == old(file.fileSize)
    ensures OthersKept(fs, file, others)
    ensures ok <==> old(fs.prealloc.lists.ready) != []
    ensures if ok then TookOne(fs) && fs.dirty.block == old(fs.prealloc.lists.ready)[0] else TookNone(fs)
    ensures !ok ==> fs.prealloc.lists.ready == [] && fs.dirty == NOT_DIRTY
    ensures ok ==> fs.dirty.file == file && file.sector == INIT_SECTOR && file.offset == INIT_HEADER_SIZE
  {
    hide TablesOk, RepresentsAll, FlogFs.Base, ReadyOk, TailStep, FlushDirtyStep, Add32, Stands, OneTakenFrom;
    NotDirtyAtTail(fs, file);
    var next := FlushAndAllocate(fs, others + {file});
    if next == NO_BLOCK {
      return false;
    }
    LinkTail(fs, file, data, next, others);
    ok := true;
  }

  lemma NotDirtyAtTail(fs: FlogFs, file: WriteFile)
    requires fs.Valid() && fs.Open(file) && file.sector == TAIL_SECTOR
    ensures fs.dirty.file != file && fs.t.dirty != Some(file.id)
    ensures fs.dirty.file != null ==> fs.t.dirty == Some(fs.dirty.file.id)
  {
    WriterStands(fs, file);
  }

  lemma FlushTailWrote(t: Tables, id: nat, data: seq<byte>, next: nat, n: word)
    requires TablesOk(t) && id in t.bufs
    requires t.dirty.Some? ==> Writable(t, t.dirty.value)
    requires Linkable(FlushDirtyStep(t), id, next)
    ensures Wrote(t, TailStep(FlushDirtyStep(t), id, data, next, Add32(n, |data|)), id, data, n, 0)
    ensures var u := TailStep(FlushDirtyStep(t), id, data, next, Add32(n, |data|));
      id in u.bufs && u.bufs[id] == []
  {
    hide Wrote;
    var u := FlushDirtyStep(t);
    FlushWrote(t, id, n);
    FlushMeans(t);
    TailWrote(u, id, data, next, n);
    WroteTrans(t, u, TailStep(u, id, data, next, Add32(n, |data|)), id, [], data, n, n, 0);
    assert [] + data == data;
  }

  /** A flush leaves the other writers where they are. */
  lemma FlushStands(t: Tables, id: nat)
    requires TablesOk(t) && id in t.bufs && t.dirty != Some(id)
    requires t.dirty.Some? ==> Writable(t, t.dirty.value)
    ensures Writable(t, id) && Writable(FlushDirtyStep(t), id)
    ensures LastBlock(FlushDirtyStep(t), id) == LastBlock(t, id)
    ensures var u := FlushDirtyStep(t); id in u.bufs && u.bufs[id] == t.bufs[id] && u.pages == t.pages
  {
    WritableIfOpen(t, id);
    if t.dirty.Some? { WritableIfOpen(t, t.dirty.value); }
  }

  /** A TAIL sector that gets full is committed, after the flush, as the machine does it. */
  lemma FlushTailTakes(t: Tables, id: nat, data: seq<byte>, next: nat, n: word)
    requires TablesOk(t) && id in t.bufs && t.dirty != Some(id)
    requires t.dirty.Some? ==> Writable(t, t.dirty.value)
    requires Writable(t, id) && Fills(t, id, |data|) && |LastBlock(t, id).slots| + 1 == SlotCount(t.pages)
    requires Linkable(FlushDirtyStep(t), id, next)
    ensures Takes(t, TailStep(FlushDirtyStep(t), id, data, next, Add32(n, |data|)), id, n, 0)
    ensures FullKept(t, TailStep(FlushDirtyStep(t), id, data, next, Add32(n, |data|)), id)
  {
    hide Takes, FullKept, TailStep;
    var u := FlushDirtyStep(t);
    FlushMeans(t);
    FlushStands(t, id);
    FlushTakes(t, id, n);
    StepTakes(u, ToTail(id, data, next), n);
    TakesTrans(t, u, TailStep(u, id, data, next, Add32(n, |data|)), id, n, n, 0);
    FlushFull(t, id);
    TailFull(u, id, data, next, Add32(n, |data|));
    FullKeptTrans(t, u, TailStep(u, id, data, next, Add32(n, |data|)), id);
  }

  /** CommitTail in terms of what the user sees. */
  method CommitTailSector(fs: FlogFs, file: WriteFile, data: seq<byte>, ghost others: set<WriteFile>) returns (ok: bool)
    requires fs.Valid() && fs.Open(file) && Beside(fs, file, others)
    requires file.sector == TAIL_SECTOR
    requires |data| <= file.remaining
    requires fs.time + 1 < ERASED32
    modifies fs`cache, fs`drawn, fs`dirty, fs`t, fs`time, fs.device, fs.prealloc, fs.prealloc.nodes, file
    modifies if fs.dirty.file == null then {} else {fs.dirty.file}
    ensures fs.Valid() && fs.Open(file)
    ensures file.id == old(file.id)
    ensures Wrote(old(fs.t), fs.t, file.id, if ok then data else [], old(file.bytesInBlock), file.bytesInBlock)
    ensures file.fileSize == Add32(old(file.fileSize), if ok then |data| else 0)
    ensures ok <==> old(fs.prealloc.lists.ready) != []
    ensures ok ==> fs.t.bufs[file.id] == [] && fs.dirty.file == file
    ensures ok ==> file.sector == INIT_SECTOR && file.offset == INIT_HEADER_SIZE
    ensures !ok ==> file.View() == old(file.View()) && fs.prealloc.lists.ready == [] && fs.dirty == NOT_DIRTY
    ensures fs.time == old(fs.time) + (if ok then 1 else 0)
    ensures |data| == old(file.remaining) ==>
      && FullKept(old(fs.t), fs.t, file.id)
      && Takes(old(fs.t), fs.t, file.id, old(file.bytesInBlock), file.bytesInBlock)
    ensures if ok then TookOne(fs) && fs.dirty.block == old(fs.prealloc.lists.ready)[0] else TookNone(fs)
    ensures OthersKept(fs, file, others)
  {
    hide TablesOk, RepresentsAll, FlogFs.Base, FlogFs.DirtyOk, ReadyOk, Wrote, CommitStep, TailStep, FlushDirtyStep, FullKept,
      Takes, OneTakenFrom;
    ghost var t, n := fs.t, file.bytesInBlock;
    NotDirtyAtTail(fs, file);
    FlushMeans(t);
    FlushFull(t, file.id);
    FlushTakes(t, file.id, n);
    FillsSector(fs, file, data);
    ghost var fills := |data| == file.remaining;
    FlushWrote(t, file.id, n);
    ok := CommitTail(fs, file, data, others);
    if ok {
      FlushTailWrote(t, file.id, data, fs.dirty.block, n);
      if fills { FlushTailTakes(t, file.id, data, fs.dirty.block, n); }
    }
  }

  lemma FillsSector(fs: FlogFs, file: WriteFile, data: seq<byte>)
    requires fs.Valid() && fs.Open(file)
    ensures Writable(fs.t, file.id)
    ensures |data| == file.remaining <==> Fills(fs.t, file.id, |data|)
    ensures file.remaining > 0
    ensures |LastBlock(fs.t, file.id).slots| + 1 <= SlotCount(fs.t.pages)
    ensures file.sector == TAIL_SECTOR <==> |LastBlock(fs.t, file.id).slots| + 1 == SlotCount(fs.t.pages)
  {
    WriterStands(fs, file);
  }

  lemma SectorEnabled(fs: FlogFs, file: WriteFile, data: seq<byte>)
    requires fs.Valid() && fs.Open(file)
    requires file.sector != TAIL_SECTOR
    requires |data| == file.remaining || (data == [] && Writable(fs.t, file.id) && MayFlush(fs.t, file.id))
    ensures Enabled(fs.t, ToSector(file.id, data))
  {
    WriterStands(fs, file);
  }

  /** A sector committed full, or flushed, is committed as the machine does it. */
  lemma SectorTakes(fs: FlogFs, file: WriteFile, data: seq<byte>)
    requires fs.Valid() && fs.Open(file)
    requires file.sector != TAIL_SECTOR
    ensures Writable(fs.t, file.id)
    ensures var n := file.bytesInBlock;
      |data| == file.remaining ==>
        && FullKept(fs.t, CommitStep(fs.t, file.id, data), file.id)
        && Takes(fs.t, CommitStep(fs.t, file.id, data), file.id, n, Add32(n, |data|))
    ensures data == [] && MayFlush(fs.t, file.id) ==> KeepsBy(fs.t, CommitStep(fs.t, file.id, data), Closes(file.id))
  {
    hide TablesOk, RepresentsAll, Takes, KeepsBy, FullKept, Enabled, CommitStep, ReadyOk, Preallocator.Valid;
    FillsSector(fs, file, data);
    if |data| == file.remaining {
      SectorEnabled(fs, file, data);
      CommitFull(fs.t, file.id, data);
      StepTakes(fs.t, ToSector(file.id, data), file.bytesInBlock);
    }
    if data == [] && MayFlush(fs.t, file.id) {
      SectorEnabled(fs, file, data);
      FlushKeeps(fs.t, file.id, Closes(file.id));
    }
  }

  /** CommitData in terms of what the user sees. */
  method CommitDataSector(fs: FlogFs, file: WriteFile, data: seq<byte>, ghost others: set<WriteFile>)
    requires fs.Valid() && fs.Open(file) && Beside(fs, file, others)
    requires file.sector != TAIL_SECTOR
    requires |data| <= file.remaining
    modifies fs`cache, fs`dirty, fs`t, fs.device, fs.prealloc, fs.prealloc.nodes, file
    ensures fs.Valid() && fs.Open(file)
    ensures file.id == old(file.id)
    ensures Wrote(old(fs.t), fs.t, file.id, data, old(file.bytesInBlock), file.bytesInBlock)
    ensures file.fileSize == Add32(old(file.fileSize), |data|)
    ensures fs.t.bufs[file.id] == []
    ensures fs.dirty == (if old(fs.dirty.file) == file then NOT_DIRTY else old(fs.dirty))
    ensures file.sector == IncrementSector(fs.pages, old(file.sector)) && file.offset == HeaderSize(file.sector)
    ensures |data| == old(file.remaining) ==>
      && FullKept(old(fs.t), fs.t, file.id)
      && Takes(old(fs.t), fs.t, file.id, old(file.bytesInBlock), file.bytesInBlock)
    ensures SameCounts(old(fs.t), fs.t, file.id)
    ensures data == [] && Writable(old(fs.t), file.id) && MayFlush(old(fs.t), file.id) ==>
      KeepsBy(old(fs.t), fs.t, Closes(file.id))
    ensures TookNone(fs)
    ensures OthersKept(fs, file, others)
  {
    hide TablesOk, RepresentsAll, Preallocator.Valid, ReadyOk, Wrote, FullKept, Takes, KeepsBy, CountsOk;
    ghost var t := fs.t;
    SectorTakes(fs, file, data);
    CommitWrote(t, file.id, data, file.bytesInBlock);
    CommitData(fs, file, data, others);
  }

  /** Commits the buffer and `data` to the sector the writer stands at. */
  method CommitFileSector(fs: FlogFs, file: WriteFile, data: seq<byte>, ghost others: set<WriteFile>) returns (ok: bool)
    requires fs.Valid() && fs.Open(file) && Beside(fs, file, others)
    requires |data| <= file.remaining
    requires file.sector == TAIL_SECTOR ==> fs.time + 1 < ERASED32
    modifies fs`cache, fs`drawn, fs`dirty, fs`t, fs`time, fs.device, fs.prealloc, fs.prealloc.nodes, file
    modifies if fs.dirty.file == null then {} else {fs.dirty.file}
    ensures fs.Valid() && fs.Open(file)
    ensures file.id == old(file.id)
    ensures Wrote(old(fs.t), fs.t, file.id, if ok then data else [], old(file.bytesInBlock), file.bytesInBlock)
    ensures file.fileSize == Add32(old(file.fileSize), if ok then |data| else 0)
    ensures ok <==> old(file.sector) != TAIL_SECTOR || old(fs.prealloc.lists.ready) != []
    ensures !ok ==> file.sector == TAIL_SECTOR
    ensures ok ==> fs.t.bufs[file.id] == [] && file.offset == HeaderSize(file.sector)
    ensures ok && old(file.sector) == TAIL_SECTOR ==> fs.dirty.file == file && file.sector == INIT_SECTOR
    ensures !ok ==> file.View() == old(file.View()) && fs.prealloc.lists.ready == [] && fs.dirty == NOT_DIRTY
    ensures fs.time == old(fs.time) + (if ok && old(file.sector) == TAIL_SECTOR then 1 else 0)
    ensures old(file.sector) != TAIL_SECTOR ==>
      && fs.dirty == (if old(fs.dirty.file) == file then NOT_DIRTY else old(fs.dirty))
      && file.sector == IncrementSector(fs.pages, old(file.sector))
      && SameCounts(old(fs.t), fs.t, file.id)
    ensures |data| == old(file.remaining) ==>
      && FullKept(old(fs.t), fs.t, file.id)
      && Takes(old(fs.t), fs.t, file.id, old(file.bytesInBlock), file.bytesInBlock)
    ensures old(file.sector) != TAIL_SECTOR && data == [] && Writable(old(fs.t), file.id) && MayFlush(old(fs.t), file.id) ==>
      KeepsBy(old(fs.t), fs.t, Closes(file.id))
    ensures if ok && old(file.sector) == TAIL_SECTOR then TookOne(fs) && fs.dirty.block == old(fs.prealloc.lists.ready)[0]
            else TookNone(fs)
    ensures OthersKept(fs, file, others)
  {
    hide TablesOk, RepresentsAll, Preallocator.Valid, ReadyOk, Wrote, Stands, FullKept, Takes, KeepsBy, SameCounts, OneTakenFrom;
    if file.sector == TAIL_SECTOR {
      ok := CommitTailSector(fs, file, data, others);
    } else {
      ok := true;
      CommitDataSector(fs, file, data, others);
    }
  }

  /** Commits whatever the writer has buffered, and the INIT sector of the block this may have
      allocated: afterwards nothing of the file is in memory only. */
  method FlushWrite(fs: FlogFs, file: WriteFile, ghost others: set<WriteFile>) returns (ok: bool)
    requires fs.Valid() && fs.Open(file) && Beside(fs, file, others)
    requires file.sector == TAIL_SECTOR ==> fs.time + 1 < ERASED32
    modifies fs`cache, fs`drawn, fs`dirty, fs`t, fs`time, fs.device, fs.prealloc, fs.prealloc.nodes, file
    modifies if fs.dirty.file == null then {} else {fs.dirty.file}
    ensures fs.Valid() && fs.Open(file)
    ensures file.id == old(file.id) && file.fileSize == Add32(old(file.fileSize), 0)
    ensures Wrote(old(fs.t), fs.t, file.id, [], old(file.bytesInBlock), file.bytesInBlock)
    ensures ok <==> old(file.sector) != TAIL_SECTOR || old(fs.prealloc.lists.ready) != []
    ensures ok ==> fs.t.bufs[file.id] == [] && fs.t.dirty != Some(file.id)
    ensures ok && old(file.sector) == TAIL_SECTOR ==> fs.dirty == NOT_DIRTY
    ensures fs.time == old(fs.time) + (if ok && old(file.sector) == TAIL_SECTOR then 1 else 0)
    ensures old(file.sector) != TAIL_SECTOR ==> SameCounts(old(fs.t), fs.t, file.id)
    ensures old(file.sector) != TAIL_SECTOR && Writable(old(fs.t), file.id) && MayFlush(old(fs.t), file.id) ==>
      KeepsBy(old(fs.t), fs.t, Closes(file.id))
    ensures if ok && old(file.sector) == TAIL_SECTOR then TookOne(fs) else TookNone(fs)
    ensures OnlyDirties(fs, file)
    ensures OthersKept(fs, file, others)
  {
    hide TablesOk, RepresentsAll, Preallocator.Valid, ReadyOk, Wrote, KeepsBy, SameCounts, Takes, Stands, FullKept, OneTakenFrom;
    ghost var t, n := fs.t, file.bytesInBlock;
    ok := CommitFileSector(fs, file, [], others);
    if ok && fs.dirty.file == file {
      ghost var u, m := fs.t, file.bytesInBlock;
      FillsSector(fs, file, []);
      CommitWrote(u, file.id, [], m);
      CommitData(fs, file, [], others);
      assert fs.dirty == NOT_DIRTY;
      ghost var nothing: seq<byte> := [];
      assert nothing + nothing == nothing;
      WroteTrans(t, u, fs.t, file.id, nothing, nothing, n, m, file.bytesInBlock);
    }
  }

  /** Only the buffers differ. */
  lemma SameDisk(version: nat, ready: seq<nat>, blocks: seq<Block>, t: Tables, u: Tables)
    requires t.pages >= 2 && u.pages == t.pages && u.disk == t.disk
    requires RepresentsAll(version, blocks, t) && ReadyOk(version, ready, blocks, t)
    ensures RepresentsAll(version, blocks, u) && ReadyOk(version, ready, blocks, u)
  {
    SameImage(version, blocks, t, u);
  }

  lemma SameImage(version: nat, blocks: seq<Block>, t: Tables, u: Tables)
    requires t.pages >= 2 && u.pages == t.pages && u.disk == t.disk && RepresentsAll(version, blocks, t)
    ensures RepresentsAll(version, blocks, u)
  {
  }

  lemma BufferMoves(t: Tables, id: nat, data: seq<byte>)
    requires TablesOk(t) && id in t.bufs && Writable(t, id)
    requires |t.bufs[id]| + |data| < Capacity(t.pages, |LastBlock(t, id).slots|)
    ensures OthersStand(t, BufferStep(t, id, data), {id})
    ensures Writable(BufferStep(t, id, data), id)
    ensures var sector := SectorOf(t.pages, |LastBlock(t, id).slots|);
      var offset := HeaderSize(sector) + |t.bufs[id]| + |data|;
      WriterFor(BufferStep(t, id, data), id) ==
      WriterView(id, Last(t.chains[id]), sector, offset, SECTOR_SIZE - offset, t.bufs[id] + data)
  {
    forall x | x in t.bufs && x != id ensures StaysPut(t, BufferStep(t, id, data), x) {
      WritableIfOpen(t, x);
    }
  }

  lemma BufferDoes(t: Tables, id: nat, data: seq<byte>, n: word)
    requires TablesOk(t) && id in t.bufs && Writable(t, id)
    requires |t.bufs[id]| + |data| < Capacity(t.pages, |LastBlock(t, id).slots|)
    ensures var u := BufferStep(t, id, data);
      && TablesOk(u)
      && Wrote(t, u, id, data, n, Add32(n, |data|))
      && Takes(t, u, id, n, Add32(n, |data|))
      && FullKept(t, u, id)
  {
    hide TablesOk, Wrote, Takes, FullKept;
    TwoPages(t);
    FullFrame(t, BufferStep(t, id, data), id);
    StepTakes(t, ToBuffer(id, data), n);
    BufferWrote(t, id, data, n);
    BufferKeeps(t, id, data);
  }

  /** Appends to the handle's buffer, which has room. */
  method Fill(fs: FlogFs, file: WriteFile, data: seq<byte>, ghost others: set<WriteFile>)
    requires fs.Valid() && fs.Open(file) && Beside(fs, file, others)
    requires |data| < file.remaining
    modifies fs`t, file
    ensures fs.Valid() && fs.Open(file)
    ensures file.id == old(file.id) && file.sector == old(file.sector)
    ensures Wrote(old(fs.t), fs.t, file.id, data, old(file.bytesInBlock), file.bytesInBlock)
    ensures file.fileSize == Add32(old(file.fileSize), |data|)
    ensures file.offset == old(file.offset) + |data|
    ensures FullKept(old(fs.t), fs.t, file.id)
    ensures Takes(old(fs.t), fs.t, file.id, old(file.bytesInBlock), file.bytesInBlock)
    ensures OthersKept(fs, file, others)
  {
    hide TablesOk, RepresentsAll, Preallocator.Valid, ReadyOk, Wrote, FullKept, Takes;
    WriterStands(fs, file);
    BufferDoes(fs.t, file.id, data, file.bytesInBlock);
    BufferMoves(fs.t, file.id, data);
    SameDisk(fs.version, fs.prealloc.lists.ready, fs.device.blocks, fs.t, BufferStep(fs.t, file.id, data));
    DirtyIsOpen(fs.t);
    if fs.t.dirty.Some? && fs.t.dirty.value != file.id {
      assert StaysPut(fs.t, BufferStep(fs.t, file.id, data), fs.t.dirty.value);
    }
    ghost var t := fs.t;
    file.Hold(data);
    fs.t := BufferStep(fs.t, file.id, data);
    forall o | o in others && o != file ensures Untouched(fs, o) {
      assert StaysPut(t, fs.t, o.id);
    }
  }

  lemma WroteRefl(t: Tables, id: nat, n: word)
    requires TablesOk(t) && id in t.bufs
    ensures Wrote(t, t, id, [], n, n)
    ensures Takes(t, t, id, n, n)
  {
    hide Takes, KeepsBy;
    KeepsRefl(t, Writes(id));
    KeepsTakes(t, t, id, n);
    OpenIsLive(t, id);
    WritableIfOpen(t, id);
    GrownRefl(t);
    forall x | x in t.chains ensures CountKept(t, t, x) {
      CountsFrame(t, t, x);
    }
    assert Contents(t)[id] == ContentOf(t, id);
    AppendNothing(Contents(t), id);
  }

  lemma StartWrite(fs: FlogFs, file: WriteFile)
    requires fs.Valid() && fs.Open(file)
    ensures Wrote(fs.t, fs.t, file.id, [], file.bytesInBlock, file.bytesInBlock)
    ensures Takes(fs.t, fs.t, file.id, file.bytesInBlock, file.bytesInBlock)
    ensures FullKept(fs.t, fs.t, file.id)
    ensures file.fileSize == Add32(file.fileSize, 0)
  {
    WroteRefl(fs.t, file.id, file.bytesInBlock);
    FullFrame(fs.t, fs.t, file.id);
  }

  /** An open writer always has room for another byte. */
  lemma OpenRoom(fs: FlogFs, file: WriteFile)
    requires fs.Valid() && fs.Open(file)
    ensures file.remaining > 0 && file.offset + file.remaining == SECTOR_SIZE
    ensures fs.pages >= 2 && 1 <= file.sector < SectorCount(fs.pages)
    ensures HeaderSize(file.sector) <= file.offset
  {
    WriterStands(fs, file);
  }

  lemma TakeMore(src: seq<byte>, count: nat, n: nat)
    requires count + n <= |src|
    ensures src[..count] + src[count..][..n] == src[..count + n]
  {
  }

  lemma AddTwice(x: nat, a: nat, b: nat)
    ensures Add32(Add32(x, a), b) == Add32(x, a + b)
    ensures Add32(x, a) == Add32(Add32(x, a), 0)
  {
    RemainderOfSum(x + a, b);
    RemainderOfSum(x + a, 0);
  }

  /** Behind `n` bytes more the writer has that much less room in its block, or as much as a new
      block has if they have completed it. */
  lemma RoomTaken(pages: nat, sector: nat, offset: nat, n: nat)
    requires pages >= 2 && 1 <= sector < SectorCount(pages)
    requires offset + n == SECTOR_SIZE
    ensures sector != TAIL_SECTOR ==>
      var next := IncrementSector(pages, sector);
      1 <= next < SectorCount(pages) && Room(pages, next, HeaderSize(next)) == Room(pages, sector, offset) - n
    ensures sector == TAIL_SECTOR ==>
      Room(pages, INIT_SECTOR, INIT_HEADER_SIZE) == Room(pages, sector, offset) - n + BlockSize(pages)
  {
    RoomBehind(pages, sector);
    RoomBounds(pages, INIT_SECTOR, INIT_HEADER_SIZE);
  }

  /** Of the blocks on the list `k` have been taken, and as long as there were more no other has been looked for. */
  ghost predicate StockLeft(had: (seq<nat>, nat), k: nat, has: (seq<nat>, nat)) {
    && (k == 0 || k < |had.0| ==> k <= |had.0| && has == (had.0[k..], had.1))
    && (had.0 == [] ==> k == 0)
  }

  twostate lemma TookOneLeft(fs: FlogFs)
    requires TookOne(fs)
    ensures StockLeft(old(Stock(fs)), 1, Stock(fs))
  {
    hide StillPending, Gather;
  }

  /** One turn of the write loop: the rest of a sector, or what is left of `src` if that is less.
      `n` bytes are taken; none are if no block can be had. A sector is only ever committed full. */
  method WriteSome(fs: FlogFs, file: WriteFile, src: seq<byte>, ghost others: set<WriteFile>) returns (n: nat)
    requires fs.Valid() && fs.Open(file) && Beside(fs, file, others)
    requires |src| > 0 && fs.time + 1 < ERASED32
    modifies fs`cache, fs`drawn, fs`dirty, fs`t, fs`time, fs.device, fs.prealloc, fs.prealloc.nodes, file
    modifies if fs.dirty.file == null then {} else {fs.dirty.file}
    ensures fs.Valid() && fs.Open(file) && file.id == old(file.id)
    ensures n <= |src|
    ensures Wrote(old(fs.t), fs.t, file.id, src[..n], old(file.bytesInBlock), file.bytesInBlock)
    ensures Takes(old(fs.t), fs.t, file.id, old(file.bytesInBlock), file.bytesInBlock)
    ensures FullKept(old(fs.t), fs.t, file.id)
    ensures file.fileSize == Add32(old(file.fileSize), n)
    ensures file.offset + file.remaining == SECTOR_SIZE
    ensures n == 0 ==>
      && fs.prealloc.lists.ready == [] && |src| >= file.remaining
      && old(file.sector) == file.sector == TAIL_SECTOR && file.offset == old(file.offset) && fs.time == old(fs.time)
    ensures 0 < n < |src| ==> file.offset == HeaderSize(file.sector)
    ensures 0 < n < |src| && old(file.sector) == TAIL_SECTOR ==> fs.time == old(fs.time) + 1
    ensures old(fs.time) <= fs.time <= old(fs.time) + 1
    ensures if fs.time == old(fs.time) then TookNone(fs) else TookOne(fs) && StockLeft(old(Stock(fs)), 1, Stock(fs))
    ensures fs.pages >= 2 && 1 <= old(file.sector) < SectorCount(fs.pages) && 1 <= file.sector < SectorCount(fs.pages)
    ensures Room(fs.pages, file.sector, file.offset) ==
            Room(fs.pages, old(file.sector), old(file.offset)) - n + (if fs.time == old(fs.time) then 0 else BlockSize(fs.pages))
    ensures OnlyDirties(fs, file)
    ensures OthersKept(fs, file, others)
  {
    hide FlogFs.Valid, FlogFs.Open, Wrote, Takes, Add32, FullKept, Room, BlockSize, OthersKept, OneTakenFrom, StockLeft;
    OpenRoom(fs, file);
    if |src| >= file.remaining {
      n := file.remaining;
      RoomTaken(fs.pages, file.sector, file.offset, n);
      var ok := CommitFileSector(fs, file, src[..n], others);
      if !ok {
        n := 0;
      }
    } else {
      n := |src|;
      RoomLess(fs.pages, file.sector, file.offset, n);
      Fill(fs, file, src, others);
    }
    OpenRoom(fs, file);
    if fs.time != old(fs.time) { TookOneLeft(fs); }
    assert src[..0] == [] && src[..|src|] == src;
  }

  lemma RoomLess(pages: nat, sector: nat, offset: nat, n: nat)
    requires pages >= 2 && 1 <= sector < SectorCount(pages)
    ensures Room(pages, sector, offset + n) == Room(pages, sector, offset) - n
  {
  }

  /** How many blocks `count` bytes can complete. */
  lemma BlocksCompleted(size: nat, k: nat, count: nat, before: int, after: int)
    requires size > 0 && 0 < before && after <= size
    requires after + count == before + k * size
    ensures k <= count / size + 1
  {
    if k > 0 {
      assert k * size == (k - 1) * size + size;
      QuotientAtLeast(k - 1, size, count);
    }
  }

  lemma QuotientAtLeast(j: nat, size: nat, count: nat)
    requires size > 0 && j * size <= count
    ensures j <= count / size
  {
    var q := count / size;
    assert (q + 1) * size == q * size + size > count;
    Cancel(j, q + 1, size);
  }

  lemma Cancel(a: nat, b: nat, n: nat)
    requires a * n < b * n
    ensures a < b
  {
    ProductsGrow(b, a, n);
  }

  lemma MoreBlocks(size: nat, a: nat, b: nat)
    requires size > 0 && a <= b
    ensures a / size <= b / size
  {
    QuotientAtLeast(a / size, size, b);
  }

  lemma OneMoreBlock(k: nat, size: nat)
    ensures (k + 1) * size == k * size + size
  {
  }

  lemma NoneTaken(had: (seq<nat>, nat))
    ensures StockLeft(had, 0, had)
  {
  }

  lemma OneTaken(had: (seq<nat>, nat), k: nat, now: (seq<nat>, nat), has: (seq<nat>, nat))
    requires StockLeft(had, k, now) && StockLeft(now, 1, has)
    ensures StockLeft(had, k + 1, has)
  {
    if k < |had.0| && k + 1 < |had.0| { assert had.0[k..][1..] == had.0[k + 1..]; }
  }

  /** Appends as much of `src` as there is room for. It takes a timestamp for each block completed. */
  method Write(fs: FlogFs, file: WriteFile, src: seq<byte>, ghost others: set<WriteFile>) returns (count: nat)
    requires fs.Valid() && fs.Open(file) && Beside(fs, file, others)
    requires fs.pages >= 2
    requires fs.time + |src| / BlockSize(fs.pages) + 2 < ERASED32
    modifies fs`cache, fs`drawn, fs`dirty, fs`t, fs`time, fs.device, fs.prealloc, fs.prealloc.nodes, file
    modifies if fs.dirty.file == null then {} else {fs.dirty.file}
    ensures fs.Valid() && fs.Open(file)
    ensures count <= |src|
    ensures Wrote(old(fs.t), fs.t, old(file.id), src[..count], old(file.bytesInBlock), file.bytesInBlock)
    ensures Takes(old(fs.t), fs.t, old(file.id), old(file.bytesInBlock), file.bytesInBlock)
    ensures FullKept(old(fs.t), fs.t, old(file.id))
    ensures file.id == old(file.id)
    ensures file.fileSize == Add32(old(file.fileSize), count)
    ensures file.offset + file.remaining == SECTOR_SIZE
    ensures count < |src| ==>
      && fs.prealloc.lists.ready == [] && file.sector == TAIL_SECTOR && |src| - count >= file.remaining
      && file.offset == if old(file.sector) == TAIL_SECTOR && fs.time == old(fs.time) then old(file.offset) else TAIL_HEADER_SIZE
    ensures old(fs.time) <= fs.time <= old(fs.time) + count / BlockSize(fs.pages) + 1
    ensures 1 <= file.sector < SectorCount(fs.pages) && 1 <= old(file.sector) < SectorCount(fs.pages)
    ensures Room(fs.pages, file.sector, file.offset) + count ==
            Room(fs.pages, old(file.sector), old(file.offset)) + (fs.time - old(fs.time)) * BlockSize(fs.pages)
    ensures StockLeft(old(Stock(fs)), fs.time - old(fs.time), Stock(fs))
    ensures OnlyDirties(fs, file)
    ensures OthersKept(fs, file, others)
  {
    hide FlogFs.Valid, FlogFs.Open, Wrote, Takes, Add32, FullKept, Room, BlockSize, OneTakenFrom, StockLeft;
    ghost var t, n, size := fs.t, file.bytesInBlock, file.fileSize;
    ghost var block, time := BlockSize(fs.pages), fs.time;
    StartWrite(fs, file);
    OpenRoom(fs, file);
    ghost var room := Room(fs.pages, file.sector, file.offset);
    RoomBounds(fs.pages, file.sector, file.offset);
    ghost var stock := Stock(fs);
    NoneTaken(stock);
    assert src[..0] == [];
    count := 0;
    while count < |src|
      invariant fs.Valid() && fs.Open(file) && file.id == old(file.id)
      invariant 0 <= count <= |src|
      invariant Wrote(t, fs.t, file.id, src[..count], n, file.bytesInBlock)
      invariant Takes(t, fs.t, file.id, n, file.bytesInBlock)
      invariant FullKept(t, fs.t, file.id)
      invariant file.fileSize == Add32(size, count)
      invariant 1 <= file.sector < SectorCount(fs.pages) && time <= fs.time
      invariant Room(fs.pages, file.sector, file.offset) + count == room + (fs.time - time) * block
      invariant OnlyDirties(fs, file)
      invariant file.offset + file.remaining == SECTOR_SIZE
      invariant count == 0 ==> file.sector == old(file.sector) && file.offset == old(file.offset) && fs.time == time
      invariant 0 < count < |src| ==>
        file.offset == HeaderSize(file.sector) && (old(file.sector) == TAIL_SECTOR ==> fs.time > time)
      invariant StockLeft(stock, fs.time - time, Stock(fs))
      invariant OthersKept(fs, file, others)
      decreases |src| - count
    {
      ghost var u, m, now, left := fs.t, file.bytesInBlock, fs.time, Stock(fs);
      InTime(fs, file, time, room, count, |src|);
      var some := WriteSome(fs, file, src[count..], others);
      OneMoreBlock(now - time, block);
      if fs.time > now { OneTaken(stock, now - time, left, Stock(fs)); }
      TakeMore(src, count, some);
      WroteTrans(t, u, fs.t, file.id, src[..count], src[count..][..some], n, m, file.bytesInBlock);
      TakesTrans(t, u, fs.t, file.id, n, m, file.bytesInBlock);
      FullKeptTrans(t, u, fs.t, file.id);
      AddTwice(size, count, some);
      if some == 0 {
        break;
      }
      count := count + some;
    }
    OpenRoom(fs, file);
    InTime(fs, file, time, room, count, |src|);
  }

  lemma InTime(fs: FlogFs, file: WriteFile, time: nat, room: int, count: nat, all: nat)
    requires fs.Valid() && fs.Open(file)
    requires fs.pages >= 2
    requires 1 <= file.sector < SectorCount(fs.pages) && time <= fs.time
    requires 0 < room && count <= all
    requires Room(fs.pages, file.sector, file.offset) + count == room + (fs.time - time) * BlockSize(fs.pages)
    ensures fs.time - time <= count / BlockSize(fs.pages) + 1
    ensures count / BlockSize(fs.pages) <= all / BlockSize(fs.pages)
  {
    hide FlogFs.Valid, FlogFs.Open, Room, BlockSize;
    OpenRoom(fs, file);
    RoomBounds(fs.pages, file.sector, file.offset);
    BlocksCompleted(BlockSize(fs.pages), fs.time - time, count, room, Room(fs.pages, file.sector, file.offset));
    MoreBlocks(BlockSize(fs.pages), count, all);
  }
}
