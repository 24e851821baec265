// Opening files for writing and closing them.
module OpenClose {
  import opened Geometry
  import opened Flash
  import opened Tables
  import opened TablesProofs
  import opened Refinement
  import opened Image
  import opened Prealloc
  import opened FileSystem
  import opened Allocator
  import opened Counts
  import opened Effects
  import opened Writer
  import opened Inodes
  import opened NewFile
  import opened Machine

  // -------------------------------------------- what a file's sectors show

  /** The timestamp as read from the TAIL sector of a file block. */
  function TailStamp(h: Header): nat
    requires h.NoHeader? || h.FileTail?
  {
    if h.NoHeader? then ERASED32 else h.stamp
  }

  /** Block number `i` of a file shows by its TAIL sector whether another one follows. */
  lemma FileTailShows(version: nat, blocks: seq<Block>, t: Tables, id: nat, i: nat)
    requires TablesOk(t) && RepresentsAll(version, blocks, t)
    requires id in t.chains && i < |t.chains[id]|
    ensures var b := t.chains[id][i];
      && b < |blocks| && |blocks[b]| == SectorCount(t.pages)
      && var h := blocks[b][TAIL_SECTOR].header;
        && (i + 1 < |t.chains[id]| ==>
              h.FileTail? && h.stamp < ERASED32 && h.next == t.chains[id][i + 1] &&
              t.disk[b].FileBlock? && h.count == t.disk[b].count)
        && (i + 1 == |t.chains[id]| ==> h.NoHeader?)
  {
    var b := t.chains[id][i];
    assert ChainOk(t, id) && LinkOk(t, id, t.chains[id], i);
    assert Represents(t.pages, version, blocks[b], t.disk[b]);
    assert FileSectorOk(t.pages, blocks[b], TAIL_SECTOR, t.disk[b]);
  }

  /** The spare of each sector of a file block shows how much it holds, or that it is blank. */
  lemma FileSpareShows(version: nat, blocks: seq<Block>, t: Tables, id: nat, i: nat, j: nat)
    requires TablesOk(t) && RepresentsAll(version, blocks, t)
    requires id in t.chains && i < |t.chains[id]| && j < SlotCount(t.pages)
    ensures var b, s := t.chains[id][i], SectorOf(t.pages, j);
      && b < |blocks| && |blocks[b]| == SectorCount(t.pages) && s < |blocks[b]|
      && b < |t.disk| && t.disk[b].FileBlock? && |t.disk[b].slots| <= SlotCount(t.pages)
      && (j < |t.disk[b].slots| ==>
            && blocks[b][s].spare.value == |t.disk[b].slots[j]| <= SECTOR_SIZE
            && HeaderSize(s) + |t.disk[b].slots[j]| <= SECTOR_SIZE == |blocks[b][s].bytes|
            && blocks[b][s].bytes[HeaderSize(s)..HeaderSize(s) + |t.disk[b].slots[j]|] == t.disk[b].slots[j])
      && (j >= |t.disk[b].slots| ==> blocks[b][s].spare == ERASED_SPARE)
  {
    var b, s := t.chains[id][i], SectorOf(t.pages, j);
    assert ChainOk(t, id) && LinkOk(t, id, t.chains[id], i);
    assert Represents(t.pages, version, blocks[b], t.disk[b]);
    assert FileSectorOk(t.pages, blocks[b], s, t.disk[b]);
  }

  // ---------------------------------------------------- the size, by the tails

  function CountOf(disk: seq<AbstractBlock>, b: nat): nat {
    if b < |disk| && disk[b].FileBlock? then disk[b].count else 0
  }

  /** The sum of what the TAIL sectors of the first `i` blocks say. */
  function CountsBefore(disk: seq<AbstractBlock>, chain: seq<nat>, i: nat): nat
    requires i <= |chain|
  {
    if i == 0 then 0 else CountsBefore(disk, chain, i - 1) + CountOf(disk, chain[i - 1])
  }

  /** The size of a file as its completed blocks' TAIL sectors and the spares of its last block say. */
  function SizeByTails(disk: seq<AbstractBlock>, chain: seq<nat>): nat {
    if |chain| == 0 then 0
    else CountsBefore(disk, chain, |chain| - 1) + |BlockData(disk, chain[|chain| - 1])|
  }

  lemma {:induction false} CountsBeforeRight(t: Tables, id: nat, i: nat)
    requires id in t.chains && CountsOk(t, id)
    requires i < |t.chains[id]|
    ensures CountsBefore(t.disk, t.chains[id], i) % WORD32 == |Committed(t.disk, t.chains[id][..i])| % WORD32
  {
    hide Committed, CountsOk, BlockData, CountOf;
    var c := t.chains[id];
    if i == 0 {
      NoneBefore(t.disk, c);
    } else {
      CountsBeforeRight(t, id, i - 1);
      CountOfRight(t, id, i - 1);
      assert c[..i] == c[..i - 1] + [c[i - 1]];
      CommittedAppend(t.disk, c[..i - 1], c[i - 1]);
      RemaindersAdd(CountsBefore(t.disk, c, i - 1), |Committed(t.disk, c[..i - 1])|,
                    CountOf(t.disk, c[i - 1]), |BlockData(t.disk, c[i - 1])|);
    }
  }

  lemma NoneBefore(disk: seq<AbstractBlock>, c: seq<nat>)
    ensures CountsBefore(disk, c, 0) == |Committed(disk, c[..0])|
  {
  }

  lemma CountOfRight(t: Tables, id: nat, i: nat)
    requires id in t.chains && CountsOk(t, id) && i < |t.chains[id]| - 1
    ensures CountOf(t.disk, t.chains[id][i]) % WORD32 == |BlockData(t.disk, t.chains[id][i])| % WORD32
  {
    hide Flatten;
    assert CountAt(t, id, i);
    var n := |BlockData(t.disk, t.chains[id][i])|;
    RemainderUnique(n % WORD32, 0, n % WORD32);
  }

  lemma RemaindersAdd(a: nat, b: nat, c: nat, d: nat)
    requires a % WORD32 == b % WORD32 && c % WORD32 == d % WORD32
    ensures (a + c) % WORD32 == (b + d) % WORD32
  {
    SameRemainderAdded(a, b, c);
    SameRemainderAdded(c, d, b);
  }

  /** Tail summaries agree with the slow count. */
  lemma SizeByTailsRight(t: Tables, id: nat)
    requires TablesOk(t) && id in t.chains && CountsOk(t, id)
    ensures SizeByTails(t.disk, t.chains[id]) % WORD32 == |Committed(t.disk, t.chains[id])| % WORD32
  {
    hide Committed, CountsOk, BlockData, CountsBefore, TablesOk;
    var c := t.chains[id];
    ChainStarts(t, id);
    CountsBeforeRight(t, id, |c| - 1);
    CommittedSplit(t.disk, c);
    RemaindersAdd(CountsBefore(t.disk, c, |c| - 1), |Committed(t.disk, c[..|c| - 1])|,
                  |BlockData(t.disk, c[|c| - 1])|, |BlockData(t.disk, c[|c| - 1])|);
  }

  // -------------------------------------------------- reopening a file

  /** Follows the TAIL sectors to the first incomplete block, adding up what they say. */
  method FindLastBlock(fs: FlogFs, first: nat, ghost id: nat) returns (block: nat, size: word)
    requires fs.Holds()
    requires id in fs.t.chains && |fs.t.chains[id]| >= 1 && first == fs.t.chains[id][0]
    modifies fs`cache, fs.device`openBlock, fs.device`openPage, fs.prealloc, fs.prealloc.nodes
    ensures OnlyLooked(fs)
    ensures block == Last(fs.t.chains[id])
    ensures size == CountsBefore(fs.t.disk, fs.t.chains[id], |fs.t.chains[id]| - 1) % WORD32
  {
    hide TablesOk, RepresentsAll, Preallocator.Valid, Shaped;
    block := first;
    size := 0;
    ghost var i := 0;
    ghost var c := fs.t.chains[id];
    while true
      invariant OnlyLooked(fs)
      invariant 0 <= i < |c| && block == c[i]
      invariant size == CountsBefore(fs.t.disk, c, i) % WORD32
      decreases |c| - i
    {
      FileTailShows(fs.version, fs.device.blocks, fs.t, id, i);
      fs.OpenSector(block, TAIL_SECTOR);
      var h := fs.device.ReadHeader(TAIL_SECTOR);
      if TailStamp(h) == ERASED32 {
        break;
      }
      SumStep(CountsBefore(fs.t.disk, c, i), h.count);
      block := h.next;
      size := Add32(size, h.count);
      i := i + 1;
    }
  }

  lemma SumStep(a: nat, b: nat)
    ensures Add32(a % WORD32, b) == (a + b) % WORD32
  {
    RemainderOfSum(a, b);
  }

  /** Is the spare that of a sector not yet committed? */
  predicate InvalidSectorSpare(spare: Spare) {
    spare.kind == KIND_UNALLOCATED && spare.value == ERASED16
  }

  lemma PagesOf(fs: FlogFs)
    requires fs.Holds()
    ensures fs.t.pages == fs.pages >= 2
    ensures TablesOk(fs.t)
  {
  }

  /** The spare of slot `j` of block number `i` of a file. */
  method SpareOf(fs: FlogFs, block: nat, sector: nat, ghost id: nat, ghost i: nat, ghost j: nat) returns (spare: Spare)
    requires fs.Holds()
    requires id in fs.t.chains && i < |fs.t.chains[id]| && block == fs.t.chains[id][i]
    requires j < SlotCount(fs.pages) && sector == SectorOf(fs.pages, j)
    modifies fs`cache, fs.device`openBlock, fs.device`openPage, fs.prealloc, fs.prealloc.nodes
    ensures OnlyLooked(fs)
    ensures block < |fs.t.disk| && fs.t.disk[block].FileBlock?
    ensures j < |fs.t.disk[block].slots| ==>
      spare.value == |fs.t.disk[block].slots[j]| <= SECTOR_SIZE && !InvalidSectorSpare(spare)
    ensures j >= |fs.t.disk[block].slots| ==> spare == ERASED_SPARE
  {
    hide TablesOk, RepresentsAll, Preallocator.Valid, Shaped;
    FileSpareShows(fs.version, fs.device.blocks, fs.t, id, i, j);
    fs.OpenSector(block, sector);
    spare := fs.device.ReadSpare(sector);
  }

  /** Scans a file's last block for its first sector not yet committed, adding up the sizes before it. */
  method FindCursor(fs: FlogFs, block: nat, size0: word, ghost id: nat) returns (sector: nat, size: word)
    requires fs.Holds()
    requires id in fs.t.chains && |fs.t.chains[id]| >= 1 && block == Last(fs.t.chains[id])
    modifies fs`cache, fs.device`openBlock, fs.device`openPage, fs.prealloc, fs.prealloc.nodes
    ensures OnlyLooked(fs)
    ensures block < |fs.t.disk| && fs.t.disk[block].FileBlock?
    ensures sector == SectorOf(fs.pages, |fs.t.disk[block].slots|)
    ensures size == Add32(size0, |BlockData(fs.t.disk, block)|)
  {
    hide FlogFs.Holds, TablesOk;
    PagesOf(fs);
    LastIsOpenEnded(fs.t, id);
    sector := INIT_SECTOR;
    size := size0;
    ghost var j := 0;
    ghost var slots := fs.t.disk[block].slots;
    assert slots[..0] == [] && Flatten([]) == [];
    while true
      invariant OnlyLooked(fs)
      invariant 0 <= j <= |slots| && sector == SectorOf(fs.pages, j)
      invariant size == Add32(size0, |Flatten(slots[..j])|)
      decreases |slots| - j
    {
      var spare := SpareOf(fs, block, sector, id, |fs.t.chains[id]| - 1, j);
      if InvalidSectorSpare(spare) {
        break;
      }
      FlattenMore(slots, j);
      AddTwice(size0, |Flatten(slots[..j])|, spare.value);
      size := Add32(size, spare.value);
      sector := IncrementSector(fs.pages, sector);
      j := j + 1;
    }
    assert slots[..j] == slots;
  }

  lemma FlattenMore(slots: seq<seq<byte>>, j: nat)
    requires j < |slots|
    ensures Flatten(slots[..j + 1]) == Flatten(slots[..j]) + slots[j]
  {
    assert slots[..j + 1] == slots[..j] + [slots[j]];
    FlattenAppend(slots[..j], slots[j]);
  }

  /** The last block of a file is not complete; it is without a committed sector only if the file is dirty. */
  lemma LastIsOpenEnded(t: Tables, id: nat)
    requires TablesOk(t) && id in t.chains
    ensures |t.chains[id]| >= 1
    ensures var b := Last(t.chains[id]);
      && b < |t.disk| && t.disk[b].FileBlock? && t.disk[b].id == id
      && |t.disk[b].slots| < SlotCount(t.pages)
      && (|t.disk[b].slots| == 0 <==> t.dirty == Some(id))
    ensures id !in t.bufs ==> t.dirty != Some(id)
  {
    assert ChainOk(t, id) && LinkOk(t, id, t.chains[id], |t.chains[id]| - 1);
  }

  /** Opening a file moves no other writer; its own stands at the first sector not yet committed. */
  lemma OpenMoves(t: Tables, id: nat)
    requires TablesOk(t) && id in t.chains && id !in t.bufs
    ensures TablesOk(OpenStep(t, id)) && SameDisks(t, OpenStep(t, id))
    ensures OthersStand(t, OpenStep(t, id), {})
    ensures var u := OpenStep(t, id);
      && Writable(u, id)
      && LastBlock(u, id) == t.disk[Last(t.chains[id])]
      && var sector := SectorOf(t.pages, |LastBlock(u, id).slots|);
        && sector != INIT_SECTOR
        && WriterFor(u, id) ==
           WriterView(id, Last(t.chains[id]), sector, HeaderSize(sector), SECTOR_SIZE - HeaderSize(sector), [])
  {
    OpenKeeps(t, id);
    LastIsOpenEnded(t, id);
    WritableIfOpen(OpenStep(t, id), id);
    forall x | x in t.bufs ensures StaysPut(t, OpenStep(t, id), x) {
      WritableIfOpen(t, x);
      WritableIfOpen(OpenStep(t, id), x);
    }
  }

  ghost predicate SameDisks(t: Tables, u: Tables) {
    u.pages == t.pages && u.disk == t.disk && u.inodes == t.inodes && u.log == t.log && u.chains == t.chains && u.dirty == t.dirty
  }

  /** The dirty file has no committed sector in its last block. */
  lemma DirtyAtInit(t: Tables, id: nat)
    requires TablesOk(t) && id in t.chains && t.dirty == Some(id)
    ensures Writable(t, id) && LastBlock(t, id).slots == []
    ensures WriterFor(t, id).offset >= INIT_HEADER_SIZE
  {
    LastIsOpenEnded(t, id);
    WritableIfOpen(t, id);
  }

  /** The first sector of a file not yet committed, and the size of what is. */
  method FindEnd(fs: FlogFs, first: nat, ghost id: nat) returns (block: nat, sector: nat, size: word)
    requires fs.Valid()
    requires id in fs.t.chains && |fs.t.chains[id]| >= 1 && first == fs.t.chains[id][0]
    modifies fs`cache, fs.device`openBlock, fs.device`openPage, fs.prealloc, fs.prealloc.nodes
    ensures fs.Valid()
    ensures block == Last(fs.t.chains[id]) && block < |fs.t.disk| && fs.t.disk[block].FileBlock?
    ensures sector == SectorOf(fs.pages, |fs.t.disk[block].slots|)
    ensures size == SizeByTails(fs.t.disk, fs.t.chains[id]) % WORD32
    ensures fs.prealloc.lists.ready == old(fs.prealloc.lists.ready)
  {
    hide TablesOk, RepresentsAll, FlogFs.Base, ReadyOk, CountsBefore, BlockData;
    ghost var c := fs.t.chains[id];
    var before;
    block, before := FindLastBlock(fs, first, id);
    sector, size := FindCursor(fs, block, before, id);
    SumStep(CountsBefore(fs.t.disk, c, |c| - 1), |BlockData(fs.t.disk, block)|);
  }

  /** Opens an existing file for writing at its end. A file that was closed without being flushed and
      is dirty still has a handle in use; the new one then stands at INIT with no room for the header. */
  method Reopen(fs: FlogFs, file: WriteFile, id: nat, first: nat, ghost others: set<WriteFile>)
    requires fs.Valid()
    requires id in fs.t.chains && |fs.t.chains[id]| >= 1 && first == fs.t.chains[id][0]
    requires id in fs.t.bufs ==> fs.t.dirty == Some(id)
    requires |file.buffer| == SECTOR_SIZE && fs.dirty.file != file
    requires fs.AllOpen(others) && file !in others
    modifies fs`cache, fs`t, fs.device`openBlock, fs.device`openPage, fs.prealloc, fs.prealloc.nodes, file
    ensures fs.Valid() && file.id == id && id in fs.t.chains
    ensures fs.t == if old(fs.t).dirty == Some(id) then old(fs.t) else OpenStep(old(fs.t), id)
    ensures fs.Open(file) <==> old(fs.t).dirty != Some(id)
    ensures old(fs.t).dirty == Some(id) ==>
      |fs.t.chains[id]| >= 1 && file.View() == WriterView(id, Last(fs.t.chains[id]), INIT_SECTOR, 0, SECTOR_SIZE, [])
    ensures file.fileSize == SizeByTails(fs.t.disk, fs.t.chains[id]) % WORD32
    ensures file.bytesInBlock == old(file.bytesInBlock)
    ensures fs.prealloc.lists.ready == old(fs.prealloc.lists.ready)
    ensures StillOpen(fs, others)
  {
    hide TablesOk, RepresentsAll, FlogFs.Base, ReadyOk, CountsBefore, BlockData;
    LastIsOpenEnded(fs.t, id);
    var block, sector, size := FindEnd(fs, first, id);
    ghost var t := fs.t;
    if t.dirty == Some(id) {
      DirtyAtInit(t, id);
    } else {
      EnterOpen(fs, id);
    }
    file.Resume(id, block, sector, size);
    if t.dirty != Some(id) {
      forall o | o in others ensures Untouched(fs, o) {
        assert StaysPut(t, fs.t, o.id);
      }
    }
  }

  /** The file counts as open from here on. */
  ghost method EnterOpen(fs: FlogFs, id: nat)
    requires fs.Valid()
    requires id in fs.t.chains && id !in fs.t.bufs
    modifies fs`t
    ensures fs.Valid()
    ensures fs.t == OpenStep(old(fs.t), id)
    ensures OthersStand(old(fs.t), fs.t, {})
    ensures Writable(fs.t, id) && fs.t.dirty != Some(id)
    ensures var sector := SectorOf(fs.t.pages, |LastBlock(fs.t, id).slots|);
      sector != INIT_SECTOR && LastBlock(fs.t, id) == old(fs.t).disk[Last(fs.t.chains[id])]
      && WriterFor(fs.t, id) == WriterView(id, Last(fs.t.chains[id]), sector, HeaderSize(sector), SECTOR_SIZE - HeaderSize(sector), [])
  {
    hide TablesOk, RepresentsAll, Preallocator.Valid, Shaped, ReadyOk;
    OpenMoves(fs.t, id);
    LastIsOpenEnded(fs.t, id);
    DirtyIsOpen(fs.t);
    SameDisk(fs.version, fs.prealloc.lists.ready, fs.device.blocks, fs.t, OpenStep(fs.t, id));
    ghost var t := fs.t;
    fs.t := OpenStep(t, id);
    if t.dirty.Some? {
      assert StaysPut(t, fs.t, t.dirty.value);
    }
  }

  lemma OpenSame(t: Tables, id: nat, n: word)
    requires TablesOk(t) && id in t.chains && id !in t.bufs
    ensures FileMap(OpenStep(t, id)) == FileMap(t)
    ensures Grown(t, OpenStep(t, id)) && Starts(t, OpenStep(t, id), id, n, Opens(id, n))
  {
    hide Starts;
    OpenStarts(t, id, n);
    OpenMeans(t, id);
  }

  /** Opens a file for writing: at its end if it exists, else as a new and empty one. */
  method OpenWrite(fs: FlogFs, file: WriteFile, name: string, ghost others: set<WriteFile>) returns (ok: bool)
    requires fs.mounted ==> fs.Valid()
    requires ValidName(name)
    requires fs.mounted ==>
      && fs.time + 2 < ERASED32
      && |file.buffer| == SECTOR_SIZE && fs.dirty.file != file
      && fs.AllOpen(others) && file !in others
      // one writer a file, unless it was closed and is dirty
      && (name in Directory(fs.t.log) && Directory(fs.t.log)[name] in fs.t.bufs ==> fs.t.dirty == Some(Directory(fs.t.log)[name]))
      // the inode chain is not extended a second time for a record never made
      && (name !in Directory(fs.t.log) ==> (Early(fs.t) ==> fs.prealloc.lists.ready == []) && |fs.t.log| + 1 < ERASED32)
    modifies fs`cache, fs`drawn, fs`dirty, fs`t, fs`time, fs`maxFileId, fs.device, fs.prealloc, fs.prealloc.nodes, file
    modifies if fs.dirty.file == null then {} else {fs.dirty.file}
    ensures !old(fs.mounted) ==>
      !ok && fs.t == old(fs.t) && fs.device.blocks == old(fs.device.blocks) && file.View() == old(file.View())
    ensures fs.mounted == old(fs.mounted)
    ensures fs.mounted ==> fs.Valid() && StillOpen(fs, others) && Grown(old(fs.t), fs.t) && StaysEmpty(fs)
    ensures OnlyDirties(fs, file)
    ensures fs.mounted && name in Directory(old(fs.t).log) ==>
      var id := Directory(old(fs.t).log)[name];
      && ok && file.id == id && FileMap(fs.t) == FileMap(old(fs.t))
      && id in fs.t.chains && file.fileSize == SizeByTails(fs.t.disk, fs.t.chains[id]) % WORD32
      && file.bytesInBlock == old(file.bytesInBlock)
      && (fs.Open(file) <==> old(fs.t).dirty != Some(id))
      && (if old(fs.t).dirty == Some(id) then fs.t == old(fs.t)
          else fs.t == OpenStep(old(fs.t), id) && Starts(old(fs.t), fs.t, id, file.bytesInBlock, Opens(id, file.bytesInBlock)))
    ensures fs.mounted && name !in Directory(old(fs.t).log) && ok ==>
      && fs.Open(file) && Created(old(fs.t), fs.t, name) && file.id == |fs.t.log| && !Early(fs.t)
      && FileMap(fs.t) == FileMap(old(fs.t))[name := []]
      && file.fileSize == 0 && file.bytesInBlock == 0
    ensures fs.mounted && name !in Directory(old(fs.t).log) ==>
      && (old(fs.prealloc.lists.ready) == [] ==> !ok)
      && (|old(fs.prealloc.lists.ready)| > (if OneRecordLeft(old(fs.t)) then 1 else 0) ==> ok)
    ensures fs.mounted && !ok ==>
      && fs.prealloc.lists.ready == []
      && SameFiles(old(fs.t), fs.t) && FileMap(fs.t) == FileMap(old(fs.t))
      && (Early(fs.t) <==> Early(old(fs.t)) || (OneRecordLeft(old(fs.t)) && old(fs.prealloc.lists.ready) != []))
    ensures fs.mounted && name in Directory(old(fs.t).log) ==> TookNone(fs) && fs.time == old(fs.time)
    ensures fs.mounted && name !in Directory(old(fs.t).log) ==>
      && (ok ==> Provided(old(Stock(fs)), OneRecordLeft(old(fs.t)), old(fs.t).inodes, fs.t.inodes, fs.dirty.block, Stock(fs)))
      && fs.time == old(fs.time) + (if ok then 1 else 0) +
                    (if OneRecordLeft(old(fs.t)) && old(fs.prealloc.lists.ready) != [] then 1 else 0)
  {
    hide TablesOk, RepresentsAll, FlogFs.Base, ReadyOk, FlogFs.DirtyOk, Stands, Directory, Early, FileMap, CountsBefore, Contents,
      Starts, OneRecordLeft, KeepsBy, OthersCounted, CountsOk, Writable, InodeIterator.At;
    if !fs.mounted {
      return false;
    }
    var iter := new InodeIterator();
    ghost var t := fs.t;
    var found, n := LookUp(fs, name, iter, others);
    if found.first != NO_BLOCK {
      if t.dirty == Some(found.id) {
        GrownRefl(t);
      } else {
        OpenSame(t, found.id, file.bytesInBlock);
      }
      Reopen(fs, file, found.id, found.first, others);
      ok := true;
    } else {
      ok := OpenNew(fs, file, iter, name, others);
      if !ok {
        SameFilesMeans(t, fs.t);
      }
    }
  }

  /** FindFile on a mounted volume; handles stay open. */
  method LookUp(fs: FlogFs, name: string, iter: InodeIterator, ghost others: set<WriteFile>) returns (found: FileFindResult, ghost n: nat)
    requires fs.Valid()
    requires fs.AllOpen(others)
    modifies fs`cache, fs.device`openBlock, fs.device`openPage, fs.prealloc, fs.prealloc.nodes, iter
    ensures fs.Valid()
    ensures iter.At(fs.t, n) && iter.inodeBlockIdx == 0
    ensures found.first != NO_BLOCK <==> name in Directory(fs.t.log)
    ensures name !in Directory(fs.t.log) ==> n == |fs.t.log|
    ensures name in Directory(fs.t.log) ==>
      && Directory(fs.t.log)[name] == found.id == n + 1
      && found.id in fs.t.chains && |fs.t.chains[found.id]| >= 1
      && found.first == fs.t.chains[found.id][0]
    ensures fs.AllOpen(others)
    ensures fs.prealloc.lists.ready == old(fs.prealloc.lists.ready)
  {
    hide FlogFs.Holds, Directory, InodeIterator.At;
    found, n := FindFile(fs, name, iter);
  }

  // ------------------------------------------------------------------ closing

  /** Closing a file commits its buffer only if this holds of the sector and offset it stands at. */
  predicate CloseFlushes(sector: nat, offset: nat) {
    offset != 0 && (offset != 16 && sector != TAIL_SECTOR)
  }

  /** Closing a file whose writer stands here loses bytes: any in a TAIL sector, or just as many as
      take the offset to 16 in one without a header. */
  predicate LosesOnClose(sector: nat, offset: nat) {
    if sector == TAIL_SECTOR then offset != TAIL_HEADER_SIZE else sector != INIT_SECTOR && offset == 16
  }

  /** A writer that stands here is not flushed, but its file is dirty: the file system goes on
      referring to the handle, and the block stays without a committed sector. */
  predicate ForgottenOnClose(sector: nat, offset: nat) {
    sector == INIT_SECTOR && offset == 16
  }

  lemma LosesExactly(fs: FlogFs, file: WriteFile)
    requires fs.Valid() && fs.Open(file)
    ensures Writable(fs.t, file.id)
    ensures LosesOnClose(file.sector, file.offset) || ForgottenOnClose(file.sector, file.offset) <==>
            !CloseFlushes(file.sector, file.offset) && fs.t.bufs[file.id] != []
    ensures ForgottenOnClose(file.sector, file.offset) <==>
            !CloseFlushes(file.sector, file.offset) && fs.t.dirty == Some(file.id)
    ensures CloseFlushes(file.sector, file.offset) ==> MayFlush(fs.t, file.id)
  {
    WriterStands(fs, file);
  }

  /** A handle dropped. */
  method Drop(fs: FlogFs, file: WriteFile, ghost others: set<WriteFile>)
    requires fs.Valid() && fs.Open(file) && Beside(fs, file, others)
    requires fs.t.dirty != Some(file.id)
    modifies fs`t
    ensures fs.Valid()
    ensures fs.t == CloseStep(old(fs.t), file.id)
    ensures forall o | o in others && o != file :: fs.Open(o)
  {
    hide RepresentsAll, Preallocator.Valid, ReadyOk;
    CloseKeeps(fs.t, {file.id});
    SameDisk(fs.version, fs.prealloc.lists.ready, fs.device.blocks, fs.t, CloseStep(fs.t, file.id));
    fs.t := CloseStep(fs.t, file.id);
  }

  /** From `t` to `u` the writer of `id` is gone, and `left` is what its file holds; nothing else has changed. */
  ghost predicate Closing(t: Tables, u: Tables, id: nat, left: seq<byte>) {
    && u.pages == t.pages && |u.disk| == |t.disk|
    && u.log == t.log && u.inodes == t.inodes && u.chains.Keys == t.chains.Keys
    && id in t.chains && Contents(u) == Contents(t)[id := left]
    && Grown(t, u)
    && OthersCounted(t, u, {id})
    && SameCounts(t, u, id)
    && Drops(t, u, {id}, Closes(id))
  }

  /** Closes a file that was opened for writing and is the only one on the list of writers. The
      flush that is meant to come first is skipped at some positions. If the file is dirty then, its
      handle stays in use although its owner has given it up; else what it has buffered is lost. */
  method CloseWrite(fs: FlogFs, file: WriteFile, ghost others: set<WriteFile>)
    requires fs.Valid() && fs.Open(file) && Beside(fs, file, others)
    modifies fs`cache, fs`drawn, fs`dirty, fs`t, fs`time, fs.device, fs.prealloc, fs.prealloc.nodes, file
    modifies if fs.dirty.file == null then {} else {fs.dirty.file}
    ensures fs.Valid() && fs.time == old(fs.time)
    ensures ForgottenOnClose(old(file.sector), old(file.offset)) ==>
      && fs.t == old(fs.t) && fs.t.dirty == Some(old(file.id)) && fs.dirty.file == file && fs.Open(file)
      && fs.t.bufs[file.id] != []
    ensures old(file.id) in old(fs.t).chains
    ensures !ForgottenOnClose(old(file.sector), old(file.offset)) ==>
      Closing(old(fs.t), fs.t, old(file.id),
              if LosesOnClose(old(file.sector), old(file.offset))
              then Committed(old(fs.t).disk, old(fs.t).chains[old(file.id)])
              else ContentOf(old(fs.t), old(file.id)))
    ensures FileMap(fs.t) == FileMap(old(fs.t)) <==> !LosesOnClose(old(file.sector), old(file.offset))
    ensures TookNone(fs) && OnlyDirties(fs, file) && OthersKept(fs, file, others)
  {
    hide TablesOk, RepresentsAll, FlogFs.Base, FlogFs.DirtyOk, ReadyOk, Stands, Wrote, Contents, FileMap, Committed, Closing,
      KeepsBy, SameCounts, OneTakenFrom;
    ghost var t, id, n := fs.t, file.id, file.bytesInBlock;
    LosesExactly(fs, file);
    OpenIsLive(t, id);
    if CloseFlushes(file.sector, file.offset) {
      var ok := FlushWrite(fs, file, others);
      FlushedCloses(t, fs.t, id, n, file.bytesInBlock);
    } else {
      UnflushedCloses(t, id);
      if fs.dirty.file == file {
        return;
      }
    }
    Drop(fs, file, others);
  }

  /** A flush that leaves nothing buffered, and then the writer dropped. */
  lemma FlushedCloses(t: Tables, u: Tables, id: nat, n: word, m: word)
    requires TablesOk(t) && TablesOk(u) && Wrote(t, u, id, [], n, m)
    requires KeepsBy(t, u, Closes(id)) && SameCounts(t, u, id)
    requires id in u.bufs && u.bufs[id] == [] && u.dirty != Some(id)
    ensures id in t.chains && Closing(t, CloseStep(u, id), id, ContentOf(t, id))
    ensures FileMap(CloseStep(u, id)) == FileMap(t)
  {
    hide KeepsBy, Drops, Grown, CountsOk;
    var v := CloseStep(u, id);
    ContentsSame(t, u, id);
    DropMeans(u, id);
    KeepsDrops(t, u, v, {id}, Closes(id));
    GrownTrans(t, u, v);
    OthersCountedTrans(t, u, v, {id}, {id});
    assert {id} + {id} == {id};
    assert Contents(u)[id] == ContentOf(u, id) && Contents(t)[id] == ContentOf(t, id);
    SetAgain(Contents(t), id);
    assert u.pages >= 2 by { TwoPages(u); }
  }

  lemma SetAgain(c: map<nat, seq<byte>>, id: nat)
    requires id in c
    ensures c[id := c[id]] == c
  {
  }

  lemma UnflushedCloses(t: Tables, id: nat)
    requires TablesOk(t) && id in t.bufs
    ensures id in t.chains
    ensures t.dirty != Some(id) ==>
      && Closing(t, CloseStep(t, id), id, Committed(t.disk, t.chains[id]))
      && (t.bufs[id] == [] ==> Committed(t.disk, t.chains[id]) == ContentOf(t, id))
      && (FileMap(CloseStep(t, id)) == FileMap(t) <==> t.bufs[id] == [])
  {
    hide Drops, Grown, SameCounts, FileMap;
    OpenIsLive(t, id);
    if t.dirty != Some(id) {
      DropMeans(t, id);
    }
  }

  lemma DropMeans(t: Tables, id: nat)
    requires TablesOk(t) && id in t.bufs && id in t.chains && t.dirty != Some(id)
    ensures Drops(t, CloseStep(t, id), {id}, Closes(id))
    ensures var u := CloseStep(t, id);
      && Grown(t, u)
      && Contents(u) == Contents(t)[id := Committed(t.disk, t.chains[id])]
      && OthersCounted(t, u, {id})
      && SameCounts(t, u, id)
      && (FileMap(u) == FileMap(t) <==> t.bufs[id] == [])
      && (t.bufs[id] == [] ==> ContentOf(t, id) == Committed(t.disk, t.chains[id]))
  {
    hide Drops, TablesOk, Grown, FileMap, SameCounts, OthersCounted, Committed;
    TwoPages(t);
    CloseDrops(t, id);
    CloseMeans(t, {id});
    CloseLosesNothing(t, {id});
    ContentsUpdate(t, CloseStep(t, id), id, Committed(t.disk, t.chains[id]));
    CloseCounts(t, id);
    NothingBuffered(Committed(t.disk, t.chains[id]), t.bufs[id]);
  }

  lemma NothingBuffered(a: seq<byte>, b: seq<byte>)
    ensures b == [] ==> a + b == a
  {
  }

  lemma CloseCounts(t: Tables, id: nat)
    requires TablesOk(t) && id in t.chains
    ensures OthersCounted(t, CloseStep(t, id), {id})
    ensures SameCounts(t, CloseStep(t, id), id)
  {
    var u := CloseStep(t, id);
    forall x | x in t.chains && x != id ensures CountKept(t, u, x) {
      CountsFrame(t, u, x);
    }
    ChainStarts(t, id);
    CompletedSame(t, u, id);
  }
}
