// Formatting a device and mounting the volume on it.
module Mount {
  import opened Geometry
  import opened Flash
  import opened Tables
  import opened TablesProofs
  import opened Refinement
  import opened Image
  import opened Prealloc
  import opened FileSystem
  import opened Allocator
  import opened Writer
  import opened Inodes
  import opened NewFile
  import opened Machine

  /** The inode table is looked for among this many blocks. */
  const INODE0_MAX_BLOCK := 32

  /** An empty volume of `count` blocks. */
  ghost function Formatted(pages: nat, count: nat): (t: Tables)
    requires count >= 1
    ensures |t.disk| == count
  {
    Tables(pages, [InodeBlock(0, [], NO_BLOCK)] + seq(count - 1, _ => Free), [0], [], map[], map[], None)
  }

  lemma FormattedOk(pages: nat, count: nat)
    requires pages >= 2 && 1 <= count < NO_BLOCK
    ensures TablesOk(Formatted(pages, count)) && FileMap(Formatted(pages, count)) == map[]
  {
    var t := Formatted(pages, count);
    assert InodeOk(t, 0);
    assert Directory(t.log) == map[];
  }

  /** The first inode block of a volume. */
  function Inode0Sector(stamp: nat): Sector {
    WithHeader(InodeInit(stamp)).(spare := Spare(KIND_INODE, 0))
  }

  ghost predicate AllBlank(pages: nat, blocks: seq<Block>, from: nat, upTo: nat) {
    forall b | from <= b < upTo && b < |blocks| :: blocks[b] == BlankBlock(pages)
  }

  lemma FormattedImage(version: nat, pages: nat, blocks: seq<Block>)
    requires pages >= 2 && 1 <= |blocks| < NO_BLOCK
    requires AllBlank(pages, blocks, 1, |blocks|)
    requires blocks[0] == WithStatistics(pages, version, true)
    ensures INIT_SECTOR < |blocks[0]| && Blank(blocks[0][INIT_SECTOR])
    ensures RepresentsAll(version, Put(blocks, 0, INIT_SECTOR, Inode0Sector(0)), Formatted(pages, |blocks|))
  {
    ErasedRepresents(pages, version, true);
    WithHeaderIs(InodeInit(0));
    InodeInitRepresents(pages, version, blocks[0], 0, Inode0Sector(0));
    var after, t := Put(blocks, 0, INIT_SECTOR, Inode0Sector(0)), Formatted(pages, |blocks|);
    forall b | 0 <= b < |after| ensures Represents(pages, version, after[b], t.disk[b]) {
      assert b == 0 || (after[b] == blocks[b] == BlankBlock(pages) && t.disk[b] == Free);
    }
  }

  /** Erases every block. */
  method EraseAll(fs: FlogFs)
    requires fs.Base()
    modifies fs`cache, fs.device, fs.prealloc, fs.prealloc.nodes
    ensures fs.Base()
    ensures AllBlank(fs.pages, fs.device.blocks, 0, fs.blockCount)
  {
    hide Preallocator.Valid;
    for block := 0 to fs.blockCount
      invariant fs.Base()
      invariant AllBlank(fs.pages, fs.device.blocks, 0, block)
    {
      fs.OpenPage(block, 0);
      fs.device.EraseBlock(block);
    }
  }

  /** Erases the device and makes it an empty volume. flogfs_format has a branch for a block
      that still has good statistics, and an assertion that a block was found; both are beside the
      point once everything has been erased. */
  method Format(fs: FlogFs)
    requires fs.Base() && fs.blockCount >= 1
    requires fs.version != 0
    modifies fs`cache, fs`mounted, fs`t, fs.device, fs.prealloc, fs.prealloc.nodes
    ensures fs.Holds() && !fs.mounted
    ensures fs.t == Formatted(fs.pages, fs.blockCount)
    ensures FileMap(fs.t) == map[]
    ensures AllBlank(fs.pages, fs.device.blocks, 1, fs.blockCount)
    ensures HeaderAt(fs.device.blocks, 0, INIT_SECTOR, InodeInit(0))
  {
    hide Preallocator.Valid, TablesOk, RepresentsAll, FileMap, WithStatistics, Shaped, WithHeader, BlankSector, BlankBlock;
    fs.mounted := false;
    FormattedOk(fs.pages, fs.blockCount);
    EraseAll(fs);
    var statistics := FirstStatistics(fs);
    fs.CloseSector();
    assert !statistics.Statistics?;
    Renew(fs, 0, true);
    FormattedImage(fs.version, fs.pages, fs.device.blocks);
    fs.OpenSector(0, INIT_SECTOR);
    WriteHeaderAndSpare(fs.device, INIT_SECTOR, InodeInit(0), Spare(KIND_INODE, 0));
    WithHeaderIs(InodeInit(0));
    fs.t := Formatted(fs.pages, fs.blockCount);
  }

  method FirstStatistics(fs: FlogFs) returns (statistics: Header)
    requires fs.Base() && fs.blockCount >= 1
    requires AllBlank(fs.pages, fs.device.blocks, 0, fs.blockCount)
    modifies fs`cache, fs.device`openBlock, fs.device`openPage, fs.prealloc, fs.prealloc.nodes
    ensures fs.Base()
    ensures statistics.NoHeader?
  {
    hide Preallocator.Valid;
    fs.OpenPage(0, 0);
    statistics := StatisticsRead(fs, 0);
  }

  // ------------------------------------------------------------------ mounting

  /** Is this the first block of an inode table of the current version? */
  ghost predicate IsInode0(version: nat, b: Block) {
    && |b| > INIT_SECTOR
    && b[STATISTICS_SECTOR].header == Statistics(version, true)
    && b[INIT_SECTOR].spare == Spare(KIND_INODE, 0)
  }

  ghost predicate NoInode0(fs: FlogFs)
    reads fs, fs.device
  {
    && fs.blockCount >= INODE0_MAX_BLOCK && |fs.device.blocks| == fs.blockCount
    && forall b | 0 <= b < INODE0_MAX_BLOCK :: !IsInode0(fs.version, fs.device.blocks[b])
  }

  /** Looks for the inode table. flogfs_find_first_inode does not check that the device has as
      many blocks as it looks at. */
  method FindFirstInode(fs: FlogFs) returns (block: nat)
    requires fs.Base() && !fs.cache.open
    requires fs.blockCount >= INODE0_MAX_BLOCK || (fs.blockCount >= 1 && IsInode0(fs.version, fs.device.blocks[0]))
    modifies fs`cache, fs.device`openBlock, fs.device`openPage, fs.prealloc, fs.prealloc.nodes
    ensures fs.Base()
    ensures block != NO_BLOCK ==>
      && block < INODE0_MAX_BLOCK && block < fs.blockCount && IsInode0(fs.version, fs.device.blocks[block])
      && forall b | 0 <= b < block :: !IsInode0(fs.version, fs.device.blocks[b])
    ensures block == NO_BLOCK ==> NoInode0(fs)
  {
    hide Preallocator.Valid;
    block := 0;
    while block < INODE0_MAX_BLOCK
      invariant fs.Base() && !fs.cache.open
      invariant block <= INODE0_MAX_BLOCK
      invariant block > 0 ==> block <= fs.blockCount && fs.blockCount >= INODE0_MAX_BLOCK
      invariant forall b | 0 <= b < block :: !IsInode0(fs.version, fs.device.blocks[b])
    {
      fs.device.OpenPage(block, 0);
      var statistics := StatisticsRead(fs, block);
      var spare := fs.device.ReadSpare(INIT_SECTOR);
      fs.CloseSector();
      if statistics == Statistics(fs.version, true) && spare.kind == KIND_INODE && spare.value == 0 {
        return;
      }
      block := block + 1;
    }
    block := NO_BLOCK;
  }

  /** Goes through the inode table for the highest file id ever used. */
  method Inspect(fs: FlogFs)
    requires fs.Holds() && fs.inode0 == 0 && fs.maxFileId == 0
    modifies fs`cache, fs`maxFileId, fs.device`openBlock, fs.device`openPage, fs.prealloc, fs.prealloc.nodes
    ensures OnlyLooked(fs)
    ensures fs.maxFileId == |fs.t.log|
  {
    hide TablesOk, RepresentsAll, Preallocator.Valid, Shaped;
    var iter := new InodeIterator();
    IteratorInitialize(fs, iter, fs.inode0);
    ghost var n := 0;
    RecordIdBounded(fs.t);
    while true
      invariant OnlyLooked(fs)
      invariant n <= |fs.t.log| && iter.At(fs.t, n)
      invariant fs.maxFileId == n
      decreases |fs.t.log| - n
    {
      var id := IdAt(fs, iter, n);
      if id == ERASED32 {
        break;
      }
      if id > fs.maxFileId {
        fs.maxFileId := id;
      }
      var ok := IteratorNext(fs, iter, n);
      n := n + 1;
    }
  }

  method IdAt(fs: FlogFs, iter: InodeIterator, ghost n: nat) returns (id: nat)
    requires fs.Holds() && iter.At(fs.t, n) && n <= |fs.t.log|
    modifies fs`cache, fs.device`openBlock, fs.device`openPage, fs.prealloc, fs.prealloc.nodes
    ensures OnlyLooked(fs)
    ensures id == if n < |fs.t.log| then n + 1 else ERASED32
  {
    hide TablesOk, RepresentsAll, Preallocator.Valid, Shaped;
    RecordShows(fs.version, fs.device.blocks, fs.t, n, iter.at);
    InodeShows(fs.t, iter.at);
    fs.OpenSector(iter.block, iter.sector);
    var h := fs.device.ReadHeader(iter.sector);
    id := AllocatedId(h);
  }

  /** What is left of the volume when all that is in memory is lost: of the writers only that a file
      is dirty, which is to say that its last block has no committed sector. */
  ghost function Forgotten(t: Tables): Tables {
    t.(bufs := if t.dirty.Some? then map[t.dirty.value := []] else map[])
  }

  lemma ForgottenKeeps(t: Tables)
    requires TablesOk(t)
    ensures TablesOk(Forgotten(t)) && Forgotten(Forgotten(t)) == Forgotten(t)
    ensures t.dirty == None ==> Forgotten(t) == RemountStep(t)
  {
    var u := Forgotten(t);
    forall i | 0 <= i < |u.inodes| ensures InodeOk(u, i) { assert InodeOk(t, i); }
    forall n | 0 <= n < |u.log| ensures EntryOk(u, n) { assert EntryOk(t, n); }
    forall x | x in u.chains ensures ChainOk(u, x) {
      assert ChainOk(t, x);
      forall i | 0 <= i < |u.chains[x]| ensures LinkOk(u, x, u.chains[x], i) {
        assert LinkOk(t, x, t.chains[x], i);
      }
    }
    forall b | 0 <= b < |u.disk| ensures OwnerOk(u, b) { assert OwnerOk(t, b); }
    forall x | x in u.bufs ensures BufferOk(u, x) { assert BufferOk(t, x); }
  }

  /** The flash holds the volume `v`, which nobody has open. */
  ghost predicate OnFlash(fs: FlogFs, v: Tables)
    reads fs, fs.device, fs.prealloc, fs.prealloc.nodes
  {
    && fs.Base() && fs.version != 0
    && v.pages == fs.pages && |v.disk| == fs.blockCount
    && TablesOk(v) && v == Forgotten(v)
    && RepresentsAll(fs.version, fs.device.blocks, v)
  }

  lemma Inode0Shows(version: nat, blocks: seq<Block>, v: Tables)
    requires TablesOk(v) && RepresentsAll(version, blocks, v)
    ensures |blocks| > 0 && IsInode0(version, blocks[0])
  {
    FirstRecord(version, blocks, v);
    InodeShows(v, 0);
    assert Represents(v.pages, version, blocks[0], v.disk[0]);
  }

  /** Mounts the volume on the flash, or fails if there is none. */
  method MountVolume(fs: FlogFs, ghost v: Option<Tables>) returns (ok: bool)
    requires !fs.mounted ==>
      && fs.Base() && fs.time < ERASED32
      && (v.Some? ==> OnFlash(fs, v.value))
      && (v.None? ==> NoInode0(fs))
    modifies fs, fs.device, fs.prealloc, fs.prealloc.nodes
    ensures old(fs.mounted) ==>
      && ok && fs.mounted && fs.t == old(fs.t) && fs.device.blocks == old(fs.device.blocks)
      && fs.prealloc.lists == old(fs.prealloc.lists) && fs.drawn == old(fs.drawn)
    ensures !old(fs.mounted) ==> (ok <==> v.Some?)
    ensures !old(fs.mounted) && ok ==>
      && fs.mounted && Exposed(fs) && fs.t == v.value && fs.dirty == NOT_DIRTY
      && fs.inode0 == 0 && fs.maxFileId == |fs.t.log|
    ensures !old(fs.mounted) && ok && v.value.dirty == None ==> fs.Valid()
    ensures !old(fs.mounted) && ok ==>
      && InUseKept(fs.t, [], old(fs.device.blocks), fs.device.blocks)
      && Primed(fs.version, old(fs.device.blocks), fs.draws, old(fs.drawn), fs.prealloc.nodes.Length, Stock(fs))
      && Prepared(fs.pages, fs.version, old(fs.device.blocks), fs.device.blocks, [], fs.prealloc.lists.ready)
      && fs.prealloc.lists.popped == []
    ensures !ok ==> !fs.mounted && fs.device.blocks == old(fs.device.blocks)
    ensures fs.version == old(fs.version) && fs.time == old(fs.time)
  {
    hide TablesOk, RepresentsAll, Preallocator.Valid, ReadyOk;
    if fs.mounted {
      return true;
    }
    if v.Some? { Inode0Shows(fs.version, fs.device.blocks, v.value); }
    fs.maxFileId := 0;
    fs.cache := CLOSED;
    fs.dirty := NOT_DIRTY;
    fs.inode0 := FindFirstInode(fs);
    if fs.inode0 == NO_BLOCK {
      return false;
    }
    fs.t := v.value;
    ok := MountFound(fs);
  }

  /** The list of available blocks after mounting: from the random blocks drawn, those that look free,
      until 63 have been looked at or no node is left. */
  ghost predicate Primed(version: nat, blocks: seq<Block>, draws: nat -> nat, from: nat, size: nat, stock: (seq<nat>, nat)) {
    |blocks| > 0 && stock == Gather(LooksFree(version, blocks), |blocks|, draws, from, 63, [], [], size)
  }

  method MountFound(fs: FlogFs) returns (ok: bool)
    requires fs.Holds() && fs.time < ERASED32
    requires fs.inode0 == 0 && fs.maxFileId == 0 && fs.dirty == NOT_DIRTY
    modifies fs`cache, fs`drawn, fs`maxFileId, fs`mounted, fs.device, fs.prealloc, fs.prealloc.nodes
    ensures ok && fs.mounted && Exposed(fs) && fs.maxFileId == |fs.t.log|
    ensures fs.t.dirty == None ==> fs.Valid()
    ensures InUseKept(fs.t, [], old(fs.device.blocks), fs.device.blocks)
    ensures Primed(fs.version, old(fs.device.blocks), fs.draws, old(fs.drawn), fs.prealloc.nodes.Length, Stock(fs))
    ensures Prepared(fs.pages, fs.version, old(fs.device.blocks), fs.device.blocks, [], fs.prealloc.lists.ready)
    ensures fs.prealloc.lists.popped == []
  {
    hide TablesOk, RepresentsAll, Preallocator.Valid, Gather, LooksFree, Prepared;
    HoldsBlocks(fs);
    Inspect(fs);
    fs.prealloc.Initialize();
    Prime(fs);
    fs.mounted := true;
    ok := true;
  }

  // ---------------------------------------------------------------- remounting

  /** Sets the file system up anew over the same device: all it has in memory is lost. */
  method Initialize(fs: FlogFs)
    requires fs.Holds() && fs.version == 31337
    modifies fs`mounted, fs`cache, fs`version, fs`dirty, fs`t
    ensures OnFlash(fs, fs.t) && !fs.mounted && fs.cache == CLOSED && fs.dirty == NOT_DIRTY
    ensures fs.t == Forgotten(old(fs.t))
    ensures fs.device.blocks == old(fs.device.blocks)
  {
    hide RepresentsAll, Preallocator.Valid, Shaped;
    fs.mounted := false;
    fs.cache := CLOSED;
    fs.version := 31337;
    fs.dirty := NOT_DIRTY;
    ForgottenKeeps(fs.t);
    SameImage(fs.version, fs.device.blocks, fs.t, Forgotten(fs.t));
    fs.t := Forgotten(fs.t);
  }

  /** Initializing and mounting again finds the same volume, with whatever had been committed; the
      user loses nothing exactly if no writer had anything buffered. If a file is dirty, a block that
      it owns looks free from now on. */
  method Remount(fs: FlogFs) returns (ok: bool)
    requires fs.Valid() && fs.version == 31337
    modifies fs, fs.device, fs.prealloc, fs.prealloc.nodes
    ensures ok && fs.mounted && Exposed(fs)
    ensures fs.t == Forgotten(old(fs.t))
    ensures fs.t.dirty == None ==> fs.Valid() && Drops(old(fs.t), fs.t, old(fs.t).bufs.Keys, Remounts)
    ensures FileMap(fs.t) == FileMap(old(fs.t)) <==> forall id | id in old(fs.t).bufs :: old(fs.t).bufs[id] == []
    ensures Grown(old(fs.t), fs.t)
    ensures InUseKept(fs.t, [], old(fs.device.blocks), fs.device.blocks)
    ensures Primed(fs.version, old(fs.device.blocks), fs.draws, old(fs.drawn), fs.prealloc.nodes.Length, Stock(fs))
  {
    hide TablesOk, RepresentsAll, FlogFs.Base, ReadyOk, FileMap, Grown, InUseKept, Drops, Exposed, Primed, Prepared;
    RemountMeans(fs.t);
    Initialize(fs);
    ok := MountVolume(fs, Some(fs.t));
  }

  lemma RemountMeans(t: Tables)
    requires TablesOk(t)
    ensures FileMap(Forgotten(t)) == FileMap(t) <==> forall id | id in t.bufs :: t.bufs[id] == []
    ensures Grown(t, Forgotten(t))
    ensures t.dirty == None ==> Drops(t, Forgotten(t), t.bufs.Keys, Remounts)
  {
    hide Drops, TablesOk, Committed, Directory, Compose, Grown;
    CloseLosesNothing(t, t.bufs.Keys);
    CloseMeans(t, t.bufs.Keys);
    assert t.bufs - t.bufs.Keys == map[];
    assert Contents(Forgotten(t)) == Contents(t.(bufs := map[]));
    FilesKept(t, Forgotten(t));
    TwoPages(t);
    if t.dirty == None { RemountDrops(t); }
  }

  /** Priming takes a block that a chain owns for a free one exactly if a file is dirty; and then it
      is the last block of that file. */
  lemma PrimingTakesOwned(version: nat, blocks: seq<Block>, t: Tables)
    requires TablesOk(t) && RepresentsAll(version, blocks, t)
    ensures |blocks| == |t.disk|
    ensures (exists b :: 0 <= b < |blocks| && t.disk[b] != Free && Adopts(version, blocks[b])) <==> t.dirty.Some?
    ensures t.dirty.Some? ==>
      && t.dirty.value in t.chains && |t.chains[t.dirty.value]| >= 1
      && var b := Last(t.chains[t.dirty.value]);
        b != 0 && b < |blocks| && t.disk[b] != Free && Adopts(version, blocks[b])
  {
    if t.dirty.Some? {
      WritableIfOpen(t, t.dirty.value);
      AdoptsExactly(version, blocks, t, Last(t.chains[t.dirty.value]));
    }
    forall b | 0 <= b < |blocks| && t.disk[b] != Free && Adopts(version, blocks[b]) ensures t.dirty.Some? {
      AdoptsExactly(version, blocks, t, b);
    }
  }

  /** A turn of priming whose random block is that of the forgotten dirty file makes it available, so
      that the next allocation may give it to another file. */
  method PrimeForgotten(fs: FlogFs, block: nat)
    requires Exposed(fs) && IsDirtyBlock(fs.t, block)
    requires fs.prealloc.lists.free != []
    requires block !in fs.prealloc.lists.ready && block !in fs.prealloc.lists.popped
    modifies fs`cache, fs.device, fs.prealloc, fs.prealloc.nodes
    ensures Exposed(fs)
    ensures fs.prealloc.lists.ready == old(fs.prealloc.lists.ready) + [block]
    ensures block in fs.prealloc.lists.ready && block in fs.t.chains[fs.t.dirty.value]
  {
    hide Exposed, RepresentsAll, Adopts;
    ForgottenBlock(fs);
    PrimeTry(fs, block);
  }

  lemma ForgottenBlock(fs: FlogFs)
    requires Exposed(fs) && fs.t.dirty.Some?
    ensures fs.t.dirty.value in fs.t.chains && |fs.t.chains[fs.t.dirty.value]| >= 1
    ensures var b := Last(fs.t.chains[fs.t.dirty.value]);
      b != 0 && b < fs.blockCount && b < |fs.device.blocks| && Adopts(fs.version, fs.device.blocks[b])
  {
    PrimingTakesOwned(fs.version, fs.device.blocks, fs.t);
  }

  /** What a block shows in its INIT spare tells blocks in use from free ones exactly if no file is
      dirty. So a dirty file must be flushed before anybody looks for free blocks. */
  lemma InUseShowsIff(version: nat, blocks: seq<Block>, t: Tables)
    requires TablesOk(t) && RepresentsAll(version, blocks, t)
    ensures forall b | 0 <= b < |blocks| :: |blocks[b]| > INIT_SECTOR
    ensures t.dirty == None <==>
      forall b | 0 <= b < |blocks| :: t.disk[b] != Free <==> blocks[b][INIT_SECTOR].spare.kind != KIND_UNALLOCATED
  {
    RepresentsShaped(version, blocks, t);
    assert forall b | 0 <= b < |blocks| :: BlockShaped(t.pages, blocks[b]);
    if t.dirty == None {
      forall b | 0 <= b < |blocks|
        ensures t.disk[b] != Free <==> blocks[b][INIT_SECTOR].spare.kind != KIND_UNALLOCATED
      {
        InUseShows(version, blocks, t, b);
      }
    } else {
      var id := t.dirty.value;
      WritableIfOpen(t, id);
      var b := Last(t.chains[id]);
      assert ChainOk(t, id) && LinkOk(t, id, t.chains[id], |t.chains[id]| - 1);
      assert Represents(t.pages, version, blocks[b], t.disk[b]);
      assert FileSectorOk(t.pages, blocks[b], INIT_SECTOR, t.disk[b]);
      assert t.disk[b] != Free && blocks[b][INIT_SECTOR].spare.kind == KIND_UNALLOCATED;
    }
  }
}
