// Removing a file: its record is invalidated and its blocks are erased.
module Remove {
  import opened Geometry
  import opened Flash
  import opened Tables
  import opened TablesProofs
  import opened Refinement
  import opened Image
  import opened Prealloc
  import opened FileSystem
  import opened Allocator
  import opened Writer
  import opened Inodes
  import opened NewFile
  import opened OpenClose
  import opened Machine

  // --------------------------------------------------------- a chain on disk

  /** Block `k` of a chain that nobody need own any more. */
  ghost predicate StrayOk(t: Tables, id: nat, chain: seq<nat>, k: nat)
    requires t.pages >= 2 && k < |chain|
  {
    && chain[k] < |t.disk|
    && var a := t.disk[chain[k]];
    && a.FileBlock? && a.id == id && a.next == NextIn(chain, k)
    && (k + 1 < |chain| ==> |a.slots| == SlotCount(t.pages))
    && (k + 1 == |chain| ==> |a.slots| < SlotCount(t.pages))
  }

  ghost predicate StrayFrom(t: Tables, id: nat, chain: seq<nat>, i: nat) {
    && t.pages >= 2
    && Distinct(chain)
    && forall k {:trigger StrayOk(t, id, chain, k)} | i <= k < |chain| :: StrayOk(t, id, chain, k)
  }

  /** How many blocks of a chain are erased: a last block without a committed sector is left alone. */
  ghost function Freed(t: Tables, chain: seq<nat>): (r: nat)
    ensures r <= |chain|
  {
    if |chain| > 0 && chain[|chain| - 1] < |t.disk| && t.disk[chain[|chain| - 1]].FileBlock? &&
       t.disk[chain[|chain| - 1]].slots == [] then |chain| - 1
    else |chain|
  }

  ghost function EraseStep(t: Tables, chain: seq<nat>, count: nat): Tables
    requires count <= |chain|
  {
    t.(disk := Erased(t.disk, chain, count))
  }

  lemma EraseOneMore(t: Tables, id: nat, chain: seq<nat>, i: nat)
    requires i < |chain| && chain[i] < |t.disk|
    requires StrayFrom(t, id, chain, 0)
    ensures EraseStep(t, chain, i).(disk := EraseStep(t, chain, i).disk[chain[i] := Free]) == EraseStep(t, chain, i + 1)
    ensures StrayFrom(EraseStep(t, chain, i), id, chain, i)
    ensures EraseStep(t, chain, i).disk[chain[i]] == t.disk[chain[i]]
  {
    assert chain[..i + 1] == chain[..i] + [chain[i]];
    var u := EraseStep(t, chain, i);
    forall k | i <= k < |chain| ensures StrayOk(u, id, chain, k) {
      assert StrayOk(t, id, chain, k);
      assert chain[k] !in chain[..i];
    }
    assert StrayOk(u, id, chain, i);
    assert u.disk[chain[i] := Free] == Erased(t.disk, chain, i + 1);
  }

  /** What a block of such a chain shows. */
  lemma StrayShows(version: nat, blocks: seq<Block>, t: Tables, id: nat, chain: seq<nat>, i: nat)
    requires t.pages >= 2 && RepresentsAll(version, blocks, t)
    requires StrayFrom(t, id, chain, i) && i < |chain|
    ensures chain[i] < |t.disk| && t.disk[chain[i]].FileBlock? && |blocks[chain[i]]| == SectorCount(t.pages)
    ensures var a, b := t.disk[chain[i]], blocks[chain[i]];
      && (a.slots == [] ==> i + 1 == |chain| && b[INIT_SECTOR].spare.kind == KIND_UNALLOCATED)
      && (a.slots != [] ==> b[INIT_SECTOR].spare.kind == KIND_FILE && b[INIT_SECTOR].header == FileInit(id))
      && (b[TAIL_SECTOR].header.NoHeader? || b[TAIL_SECTOR].header.FileTail?)
      && NextOf(b[TAIL_SECTOR].header) == NextIn(chain, i)
  {
    assert StrayOk(t, id, chain, i);
    var b, a := blocks[chain[i]], t.disk[chain[i]];
    assert Represents(t.pages, version, b, a);
    assert FileSectorOk(t.pages, b, INIT_SECTOR, a);
    assert FileSectorOk(t.pages, b, TAIL_SECTOR, a);
  }

  lemma EraseImage(version: nat, ready: seq<nat>, blocks: seq<Block>, t: Tables, b: nat, keyValid: bool)
    requires t.pages >= 2 && RepresentsAll(version, blocks, t) && ReadyOk(version, ready, blocks, t)
    requires b < |t.disk| && t.disk[b] != Free
    ensures var after, u := blocks[b := WithStatistics(t.pages, version, keyValid)], t.(disk := t.disk[b := Free]);
      RepresentsAll(version, after, u) && ReadyOk(version, ready, after, u)
  {
    ErasedRepresents(t.pages, version, keyValid);
    var after, u := blocks[b := WithStatistics(t.pages, version, keyValid)], t.(disk := t.disk[b := Free]);
    forall x | 0 <= x < |after| ensures Represents(t.pages, version, after[x], u.disk[x]) {
      assert x == b || Represents(t.pages, version, blocks[x], t.disk[x]);
    }
  }

  /** What erasing a chain relies on and keeps; the tables need not be in order meanwhile. */
  ghost predicate Erasable(fs: FlogFs)
    reads fs, fs.device, fs.prealloc, fs.prealloc.nodes
  {
    && fs.Base() && fs.version != 0
    && fs.t.pages == fs.pages && |fs.t.disk| == fs.blockCount
    && RepresentsAll(fs.version, fs.device.blocks, fs.t)
    && ReadyOk(fs.version, fs.prealloc.lists.ready, fs.device.blocks, fs.t)
  }

  /** The block is erased but for its statistics, whose key may be valid or not. */
  ghost predicate Reset(pages: nat, version: nat, b: Block)
    requires pages >= 1
  {
    b == WithStatistics(pages, version, true) || b == WithStatistics(pages, version, false)
  }

  /** Erases one block of a chain and writes its statistics; the key in them is never set, so it
      may be valid or not. */
  method EraseLink(fs: FlogFs, block: nat)
    requires Erasable(fs)
    requires block < |fs.t.disk| && fs.t.disk[block] != Free
    modifies fs`cache, fs`t, fs.device, fs.prealloc, fs.prealloc.nodes
    ensures Erasable(fs)
    ensures fs.t == old(fs.t).(disk := old(fs.t).disk[block := Free])
    ensures block < |old(fs.device.blocks)| && |fs.device.blocks| == |old(fs.device.blocks)|
    ensures Reset(fs.pages, fs.version, fs.device.blocks[block])
    ensures fs.device.blocks == old(fs.device.blocks)[block := fs.device.blocks[block]]
    ensures fs.prealloc.lists.ready == old(fs.prealloc.lists.ready)
  {
    hide RepresentsAll, ReadyOk, Preallocator.Valid, WithStatistics;
    var keyValid: bool := *;
    EraseImage(fs.version, fs.prealloc.lists.ready, fs.device.blocks, fs.t, block, keyValid);
    Renew(fs, block, keyValid);
    fs.t := fs.t.(disk := fs.t.disk[block := Free]);
  }

  /** The type of a block as its INIT spare says. */
  method GetBlockType(fs: FlogFs, block: nat) returns (kind: nat)
    requires fs.Base() && block < fs.blockCount
    modifies fs`cache, fs.device`openBlock, fs.device`openPage, fs.prealloc, fs.prealloc.nodes
    ensures fs.Base()
    ensures INIT_SECTOR < |fs.device.blocks[block]| && kind == fs.device.blocks[block][INIT_SECTOR].spare.kind
    ensures fs.prealloc.lists.ready == old(fs.prealloc.lists.ready)
  {
    fs.OpenSector(block, INIT_SECTOR);
    var spare := fs.device.ReadSpare(INIT_SECTOR);
    kind := spare.kind;
  }

  /** One turn of the loop below, on block number `i` of the chain. The assertions in flog_invalidate_chain that
      it is a block of this file are unreachable. */
  method InvalidateLink(fs: FlogFs, block: nat, id: nat, ghost chain: seq<nat>, ghost i: nat, ghost t: Tables)
    returns (next: nat)
    requires i < |chain| && block == chain[i]
    requires Erasable(fs) && fs.t == EraseStep(t, chain, i)
    requires StrayFrom(t, id, chain, 0)
    requires fs.time + 1 < ERASED32
    modifies fs`cache, fs`t, fs`time, fs.device, fs.prealloc, fs.prealloc.nodes
    ensures Erasable(fs)
    ensures block < |t.disk| && t.disk[block].FileBlock?
    ensures t.disk[block].slots == [] ==>
      && fs.t == EraseStep(t, chain, i) && next == NO_BLOCK && fs.time == old(fs.time)
      && fs.device.blocks == old(fs.device.blocks)
    ensures t.disk[block].slots != [] ==>
      && fs.t == EraseStep(t, chain, i + 1) && next == NextIn(chain, i) && fs.time == old(fs.time) + 1
      && |fs.device.blocks| == |old(fs.device.blocks)| > block
      && Reset(fs.pages, fs.version, fs.device.blocks[block])
      && fs.device.blocks == old(fs.device.blocks)[block := fs.device.blocks[block]]
    ensures fs.prealloc.lists.ready == old(fs.prealloc.lists.ready)
  {
    hide RepresentsAll, ReadyOk, Preallocator.Valid, StrayFrom, EraseStep, Shaped, Reset;
    EraseOneMorePlace(t, id, chain, i);
    EraseOneMore(t, id, chain, i);
    StrayShows(fs.version, fs.device.blocks, fs.t, id, chain, i);
    next := NO_BLOCK;
    var kind := GetBlockType(fs, block);
    if kind == KIND_UNALLOCATED {
      var statistics := StatisticsRead(fs, block);
    } else if kind == KIND_FILE {
      fs.OpenSector(block, INIT_SECTOR);
      var header := fs.device.ReadHeader(INIT_SECTOR);
      if header == FileInit(id) {
        fs.OpenSector(block, TAIL_SECTOR);
        var tail := fs.device.ReadHeader(TAIL_SECTOR);
        fs.time := fs.time + 1;
        fs.CloseSector();
        EraseLink(fs, block);
        next := NextOf(tail);
      } else {
        assert false;
      }
    } else {
      assert false;
    }
  }

  lemma EraseOneMorePlace(t: Tables, id: nat, chain: seq<nat>, i: nat)
    requires StrayFrom(t, id, chain, 0) && i < |chain|
    ensures chain[i] < |t.disk| && t.disk[chain[i]].FileBlock?
    ensures EraseStep(t, chain, i).pages == t.pages && |EraseStep(t, chain, i).disk| == |t.disk|
  {
    assert StrayOk(t, id, chain, i);
  }

  /** The blocks of the chain are reset, and no other block has changed. */
  ghost predicate ChainReset(pages: nat, version: nat, before: seq<Block>, after: seq<Block>, chain: seq<nat>) {
    && pages >= 1
    && |after| == |before|
    && forall b | 0 <= b < |after| :: if b in chain then Reset(pages, version, after[b]) else after[b] == before[b]
  }

  lemma ChainResetMore(pages: nat, version: nat, b0: seq<Block>, b1: seq<Block>, b2: seq<Block>, chain: seq<nat>, i: nat)
    requires i < |chain| && ChainReset(pages, version, b0, b1, chain[..i])
    requires |b2| == |b1| && chain[i] < |b2| && Reset(pages, version, b2[chain[i]]) && b2 == b1[chain[i] := b2[chain[i]]]
    ensures ChainReset(pages, version, b0, b2, chain[..i + 1])
  {
    hide Reset;
    assert chain[..i + 1] == chain[..i] + [chain[i]];
  }

  /** Erases the blocks of a chain one after the other. */
  method InvalidateChain(fs: FlogFs, first: nat, id: nat, ghost chain: seq<nat>)
    requires Erasable(fs)
    requires StrayFrom(fs.t, id, chain, 0) && |chain| >= 1 && first == chain[0]
    requires fs.time + |chain| < ERASED32
    modifies fs`cache, fs`t, fs`time, fs.device, fs.prealloc, fs.prealloc.nodes
    ensures Erasable(fs)
    ensures fs.t == EraseStep(old(fs.t), chain, Freed(old(fs.t), chain))
    ensures fs.time == old(fs.time) + Freed(old(fs.t), chain)
    ensures ChainReset(fs.pages, fs.version, old(fs.device.blocks), fs.device.blocks, chain[..Freed(old(fs.t), chain)])
    ensures fs.prealloc.lists.ready == old(fs.prealloc.lists.ready)
  {
    hide RepresentsAll, ReadyOk, StrayFrom, EraseStep, Freed, ChainReset, Reset, Preallocator.Valid, Shaped;
    ghost var t, blocks := fs.t, fs.device.blocks;
    assert ChainReset(fs.pages, fs.version, blocks, blocks, []) by { NothingReset(fs.pages, fs.version, blocks); }
    assert chain[..0] == [];
    var block := first;
    ghost var i := 0;
    EraseNothing(t, chain);
    ChainPlace(t, id, chain, 0);
    SmallDisk(fs);
    while block != NO_BLOCK
      invariant Erasable(fs)
      invariant 0 <= i <= |chain| && fs.time == old(fs.time) + i
      invariant fs.t == EraseStep(t, chain, i)
      invariant ChainReset(fs.pages, fs.version, blocks, fs.device.blocks, chain[..i])
      invariant block != NO_BLOCK ==> i < |chain| && block == chain[i]
      invariant block == NO_BLOCK ==> i == Freed(t, chain)
      invariant fs.prealloc.lists.ready == old(fs.prealloc.lists.ready)
      decreases |chain| - i, block != NO_BLOCK
    {
      ChainPlace(t, id, chain, i);
      if i + 1 < |chain| { ChainPlace(t, id, chain, i + 1); }
      ghost var more, before := t.disk[block].slots != [], fs.device.blocks;
      block := InvalidateLink(fs, block, id, chain, i, t);
      if more {
        ChainResetMore(fs.pages, fs.version, blocks, before, fs.device.blocks, chain, i);
        i := i + 1;
      }
    }
  }

  lemma NothingReset(pages: nat, version: nat, blocks: seq<Block>)
    requires pages >= 1
    ensures ChainReset(pages, version, blocks, blocks, [])
  {
  }

  lemma SmallDisk(fs: FlogFs)
    requires Erasable(fs)
    ensures |fs.t.disk| < NO_BLOCK
  {
  }

  lemma EraseNothing(t: Tables, chain: seq<nat>)
    ensures EraseStep(t, chain, 0) == t
  {
    assert Erased(t.disk, chain, 0) == t.disk;
  }

  lemma ChainPlace(t: Tables, id: nat, chain: seq<nat>, i: nat)
    requires StrayFrom(t, id, chain, 0) && i < |chain|
    ensures chain[i] < |t.disk| && t.disk[chain[i]].FileBlock?
    ensures t.disk[chain[i]].slots != [] && i + 1 == |chain| ==> Freed(t, chain) == i + 1
    ensures t.disk[chain[i]].slots == [] ==> Freed(t, chain) == i && i + 1 == |chain|
  {
    assert StrayOk(t, id, chain, i);
  }

  // ------------------------------------------------------------- the file

  /** The record of a file marked dead, in the tables and on the flash. */
  lemma DeadImage(version: nat, ready: seq<nat>, blocks: seq<Block>, t: Tables, n: nat, i: nat, stamp: nat, last: nat)
    requires TablesOk(t) && RepresentsAll(version, blocks, t) && ReadyOk(version, ready, blocks, t)
    requires RecordAt(t, n, i) && n < |t.log| && n + 1 in t.chains
    requires stamp < ERASED32 && last == EndOf(t.chains[n + 1])
    ensures var b, s, k := t.inodes[i], RecordSector(t.pages, n, i) + 1, n - i * EntriesPerBlock(t.pages);
      && b < |blocks| && s < |blocks[b]| && Blank(blocks[b][s])
      && b < |t.disk| && t.disk[b].InodeBlock? && k < |t.disk[b].entries|
      && var after := Put(blocks, b, s, WithHeader(Invalidation(stamp, last)));
        RepresentsAll(version, after, MarkDeadStep(t, n, b, k)) && ReadyOk(version, ready, after, MarkDeadStep(t, n, b, k))
  {
    var size := EntriesPerBlock(t.pages);
    var b, s, k := t.inodes[i], RecordSector(t.pages, n, i) + 1, n - i * size;
    RecordShows(version, blocks, t, n, i);
    assert EntryOk(t, n) && InodeOk(t, i);
    assert Represents(t.pages, version, blocks[b], t.disk[b]);
    assert t.disk[b].entries[k] == t.log[n];
    WithHeaderIs(Invalidation(stamp, last));
    var sec := WithHeader(Invalidation(stamp, last));
    DeadRepresents(t.pages, version, blocks[b], t.disk[b], k, sec);
    PutRepresents(version, blocks, t, MarkDeadStep(t, n, b, k), b, s, sec);
    ReadyKept(version, ready, blocks, t, MarkDeadStep(t, n, b, k), b, s, sec);
  }

  /** The chain of a file without a writer, left over when its record is dead. */
  lemma ChainStrays(t: Tables, n: nat, at: nat, k: nat)
    requires TablesOk(t) && n < |t.log| && n + 1 in t.chains && n + 1 !in t.bufs
    requires at < |t.disk| && t.disk[at].InodeBlock? && k < |t.disk[at].entries|
    ensures var u, c := MarkDeadStep(t, n, at, k), t.chains[n + 1];
      && |c| >= 1 && StrayFrom(u, n + 1, c, 0)
      && Freed(u, c) == |c| && EraseStep(u, c, |c|) == RemoveStep(t, n, at, k)
  {
    var u, c, id := MarkDeadStep(t, n, at, k), t.chains[n + 1], n + 1;
    assert ChainOk(t, id);
    forall i, j | 0 <= i < j < |c| ensures c[i] != c[j] {
      if c[i] == c[j] { ChainsDisjoint(t, id, i, id, j); }
    }
    forall i | 0 <= i < |c| ensures StrayOk(u, id, c, i) {
      assert LinkOk(t, id, c, i);
    }
    assert LinkOk(t, id, c, |c| - 1);
  }

  /** Removing a file moves no writer. */
  lemma RemoveMoves(t: Tables, n: nat, at: nat, k: nat)
    requires TablesOk(t) && n < |t.log| && n + 1 in t.chains && n + 1 !in t.bufs
    requires at < |t.disk| && t.disk[at].InodeBlock? && k < |t.disk[at].entries|
    ensures var u := RemoveStep(t, n, at, k);
      OthersStand(t, u, {}) && u.bufs == t.bufs && u.dirty == t.dirty && u.pages == t.pages && |u.log| == |t.log| &&
      |u.disk| == |t.disk|
  {
    var u := RemoveStep(t, n, at, k);
    ChainBlocks(t, n + 1);
    forall x | x in t.bufs ensures StaysPut(t, u, x) {
      WritableIfOpen(t, x);
    }
  }

  /** Finds the last block of a file. */
  method LastOf(fs: FlogFs, first: nat, ghost id: nat) returns (block: nat)
    requires fs.Holds()
    requires id in fs.t.chains && |fs.t.chains[id]| >= 1 && first == fs.t.chains[id][0]
    modifies fs`cache, fs.device`openBlock, fs.device`openPage, fs.prealloc, fs.prealloc.nodes
    ensures OnlyLooked(fs)
    ensures block == EndOf(fs.t.chains[id])
  {
    hide FlogFs.Holds;
    block := first;
    ghost var c, i := fs.t.chains[id], 0;
    while true
      invariant OnlyLooked(fs)
      invariant 0 <= i < |c| && block == c[i]
      decreases |c| - i
    {
      LinkShows(fs, id, i);
      var next := UniversalGetNextBlock(fs, block);
      if next == NO_BLOCK {
        break;
      }
      block := next;
      i := i + 1;
    }
  }

  lemma LinkShows(fs: FlogFs, id: nat, i: nat)
    requires fs.Holds() && id in fs.t.chains && i < |fs.t.chains[id]|
    ensures var c := fs.t.chains[id];
      && c[i] < |fs.t.disk| && fs.t.disk[c[i]].FileBlock? && fs.t.disk[c[i]].next == NextIn(c, i)
      && c[i] != NO_BLOCK && (NextIn(c, i) == NO_BLOCK <==> i + 1 == |c|)
  {
    var t, c := fs.t, fs.t.chains[id];
    assert ChainOk(t, id) && LinkOk(t, id, c, i);
    if i + 1 < |c| { assert LinkOk(t, id, c, i + 1); }
  }

  /** Writes the invalidation of the record the iterator is at. */
  method MarkDead(fs: FlogFs, iter: InodeIterator, last: nat, ghost n: nat)
    requires fs.Valid() && iter.At(fs.t, n) && n < |fs.t.log| && n + 1 in fs.t.chains
    requires last == EndOf(fs.t.chains[n + 1])
    requires fs.time + 1 < ERASED32
    modifies fs`cache, fs`t, fs`time, fs.device, fs.prealloc, fs.prealloc.nodes
    ensures Erasable(fs) && fs.time == old(fs.time) + 1
    ensures var t, k := old(fs.t), n - iter.at * EntriesPerBlock(fs.pages);
      && iter.block < |t.disk| && t.disk[iter.block].InodeBlock? && k < |t.disk[iter.block].entries|
      && fs.t == MarkDeadStep(t, n, iter.block, k)
    ensures iter.block < |old(fs.device.blocks)| && iter.sector + 1 < |old(fs.device.blocks)[iter.block]|
    ensures fs.device.blocks ==
            Put(old(fs.device.blocks), iter.block, iter.sector + 1, WithHeader(Invalidation(fs.time, last)))
    ensures fs.prealloc.lists.ready == old(fs.prealloc.lists.ready)
  {
    hide TablesOk, RepresentsAll, Preallocator.Valid, ReadyOk, WithHeader, Shaped, BlankSector;
    ghost var t, k := fs.t, n - iter.at * EntriesPerBlock(fs.pages);
    ghost var blocks := fs.device.blocks;
    fs.time := fs.time + 1;
    DeadImage(fs.version, fs.prealloc.lists.ready, blocks, t, n, iter.at, fs.time, last);
    RecordShows(fs.version, blocks, t, n, iter.at);
    fs.OpenSector(iter.block, iter.sector + 1);
    WriteHeader(fs.device, iter.sector + 1, Invalidation(fs.time, last));
    fs.t := MarkDeadStep(t, n, iter.block, k);
  }

  /** Where the handles stood that the file system and its callers hold. */
  ghost predicate Stood(fs: FlogFs, t: Tables, others: set<WriteFile>)
    reads fs, if fs.dirty.file == null then {} else {fs.dirty.file}, others
  {
    && fs.mounted && fs.inode0 == 0 && fs.maxFileId == |t.log|
    && (match t.dirty
        case None => fs.dirty == NOT_DIRTY
        case Some(id) => id in t.bufs && fs.dirty.file != null && Stands(t, id, fs.dirty.file) && fs.dirty.block == Last(t.chains[id]))
    && forall o | o in others ::
         && o.id in t.bufs && Stands(t, o.id, o)
         && (t.dirty == Some(o.id) <==> fs.dirty.file == o)
  }

  lemma StoodBefore(fs: FlogFs, others: set<WriteFile>)
    requires fs.Valid() && fs.AllOpen(others)
    ensures Stood(fs, fs.t, others)
  {
    DirtyIsOpen(fs.t);
  }

  /** Once the chain is erased the volume is in order again, and every handle still stands. */
  lemma Restored(fs: FlogFs, t: Tables, n: nat, i: nat, others: set<WriteFile>)
    requires TablesOk(t) && n < |t.log| && n + 1 in t.chains && n + 1 !in t.bufs
    requires RecordAt(t, n, i)
    requires var at, k := t.inodes[i], n - i * EntriesPerBlock(t.pages);
      && at < |t.disk| && t.disk[at].InodeBlock? && 0 <= k < |t.disk[at].entries|
      && fs.t == RemoveStep(t, n, at, k)
    requires Erasable(fs) && fs.time < ERASED32
    requires Stood(fs, t, others)
    ensures fs.Valid() && fs.AllOpen(others)
  {
    hide RepresentsAll, ReadyOk, TablesOk, Preallocator.Valid, RemoveStep, Shaped;
    var at, k := t.inodes[i], n - i * EntriesPerBlock(t.pages);
    RemoveKeeps(t, n, i, k);
    RemoveMoves(t, n, at, k);
    if t.dirty.Some? { assert StaysPut(t, fs.t, t.dirty.value); }
    forall o | o in others ensures fs.Open(o) { assert StaysPut(t, fs.t, o.id); }
  }

  /** What removing file `n + 1`, whose record is in inode block number `i`, does to the flash: its blocks
      are reset, and the record is invalidated with a timestamp and the last block of its chain. */
  ghost predicate Wiped(version: nat, t: Tables, n: nat, i: nat, stamp: nat, before: seq<Block>, after: seq<Block>) {
    && t.pages >= 2 && n + 1 in t.chains && RecordAt(t, n, i)
    && |after| == |before|
    && var b, s, c := t.inodes[i], RecordSector(t.pages, n, i) + 1, t.chains[n + 1];
      && b < |before| && s < |before[b]|
      && forall x | 0 <= x < |after| ::
        if x in c then Reset(t.pages, version, after[x])
        else if x == b then after[x] == before[x][s := WithHeader(Invalidation(stamp, EndOf(c)))]
        else after[x] == before[x]
  }

  lemma WipedIs(version: nat, t: Tables, n: nat, i: nat, stamp: nat, before: seq<Block>, middle: seq<Block>, after: seq<Block>)
    requires TablesOk(t) && n + 1 in t.chains && RecordAt(t, n, i)
    requires var b, s := t.inodes[i], RecordSector(t.pages, n, i) + 1;
      b < |before| && s < |before[b]| && middle == Put(before, b, s, WithHeader(Invalidation(stamp, EndOf(t.chains[n + 1]))))
    requires ChainReset(t.pages, version, middle, after, t.chains[n + 1])
    ensures Wiped(version, t, n, i, stamp, before, after)
  {
    hide Reset, WithHeader;
    ChainBlocks(t, n + 1);
    InodeShows(t, i);
  }

  /** Invalidates the record the iterator is at and erases the chain of the file. */
  method MarkAndErase(fs: FlogFs, first: nat, last: nat, id: nat, iter: InodeIterator, ghost n: nat)
    requires fs.Valid()
    requires iter.At(fs.t, n) && n < |fs.t.log| && id == n + 1 && id in fs.t.chains && id !in fs.t.bufs
    requires |fs.t.chains[id]| >= 1 && first == fs.t.chains[id][0] && last == EndOf(fs.t.chains[id])
    requires fs.time + 1 + |fs.t.chains[id]| < ERASED32
    modifies fs`cache, fs`t, fs`time, fs.device, fs.prealloc, fs.prealloc.nodes
    ensures Erasable(fs)
    ensures fs.time == old(fs.time) + 1 + |old(fs.t).chains[id]|
    ensures var t, k := old(fs.t), n - iter.at * EntriesPerBlock(fs.pages);
      && iter.block < |t.disk| && t.disk[iter.block].InodeBlock? && 0 <= k < |t.disk[iter.block].entries|
      && fs.t == RemoveStep(t, n, iter.block, k)
    ensures Wiped(fs.version, old(fs.t), n, iter.at, old(fs.time) + 1, old(fs.device.blocks), fs.device.blocks)
    ensures fs.prealloc.lists.ready == old(fs.prealloc.lists.ready)
  {
    hide TablesOk, RepresentsAll, FlogFs.Base, ReadyOk, RemoveStep, MarkDeadStep, StrayFrom, Freed, EraseStep, Erasable,
      ChainReset, Wiped, WithHeader, Preallocator.Valid, EndOf;
    ghost var t, k, c := fs.t, n - iter.at * EntriesPerBlock(fs.pages), fs.t.chains[n + 1];
    RecordIsAt(t, n, iter.at);
    ChainStrays(t, n, iter.block, k);
    ghost var blocks := fs.device.blocks;
    MarkDead(fs, iter, last, n);
    ghost var marked := fs.device.blocks;
    InvalidateChain(fs, first, id, c);
    assert c[..|c|] == c;
    WipedIs(fs.version, t, n, iter.at, fs.time - |c|, blocks, marked, fs.device.blocks);
  }

  /** Removes the file whose record the iterator is at. */
  method RemoveRecord(fs: FlogFs, first: nat, id: nat, iter: InodeIterator, ghost n: nat, ghost others: set<WriteFile>)
    requires fs.Valid() && fs.AllOpen(others)
    requires iter.At(fs.t, n) && n < |fs.t.log| && id == n + 1 && id in fs.t.chains && id !in fs.t.bufs
    requires |fs.t.chains[id]| >= 1 && first == fs.t.chains[id][0]
    requires fs.time + 1 + |fs.t.chains[id]| < ERASED32
    modifies fs`cache, fs`t, fs`time, fs.device, fs.prealloc, fs.prealloc.nodes
    ensures fs.Valid() && fs.AllOpen(others)
    ensures fs.time == old(fs.time) + 1 + |old(fs.t).chains[id]|
    ensures RemovedAt(old(fs.t), fs.t, n, iter.at)
    ensures Wiped(fs.version, old(fs.t), n, iter.at, old(fs.time) + 1, old(fs.device.blocks), fs.device.blocks)
    ensures fs.prealloc.lists.ready == old(fs.prealloc.lists.ready)
  {
    hide TablesOk, RepresentsAll, FlogFs.Base, ReadyOk, RemoveStep, Erasable, RemovedAt, Wiped, EndOf;
    ghost var t := fs.t;
    RecordIsAt(t, n, iter.at);
    var last := LastOf(fs, first, id);
    StoodBefore(fs, others);
    MarkAndErase(fs, first, last, id, iter, n);
    Restored(fs, t, n, iter.at, others);
    IsRemoval(t, n, iter.at);
  }

  ghost predicate RemovedAt(t: Tables, u: Tables, n: nat, i: nat) {
    Enabled(t, Deleted(n, i)) && u == ApplyTo(t, Deleted(n, i), 0)
  }

  lemma IsRemoval(t: Tables, n: nat, i: nat)
    requires TablesOk(t) && RecordAt(t, n, i) && n < |t.log| && n + 1 in t.chains && n + 1 !in t.bufs
    requires t.inodes[i] < |t.disk| && t.disk[t.inodes[i]].InodeBlock?
    requires n - i * EntriesPerBlock(t.pages) < |t.disk[t.inodes[i]].entries|
    ensures RemovedAt(t, RemoveStep(t, n, t.inodes[i], n - i * EntriesPerBlock(t.pages)), n, i)
  {
  }

  lemma RemovedShows(t: Tables, u: Tables, n: nat, i: nat)
    requires TablesOk(t) && RemovedAt(t, u, n, i)
    ensures n < |t.log| && Removed(t, u, n + 1) && FileMap(u) == FileMap(t) - {t.log[n].name}
    ensures Grown(t, u) && KeepsBy(t, u, Removes(n))
  {
    hide TablesOk, Removed, FileMap, Grown, KeepsBy, RemoveStep;
    RemoveKeepsCounters(t, n, i);
    RemoveShows(t, n, t.inodes[i], n - i * EntriesPerBlock(t.pages));
  }

  /** What has happened to the tables once the file called `name` is gone. */
  ghost predicate Removed(t: Tables, u: Tables, id: nat) {
    && 1 <= id <= |t.log| && id in t.chains
    && u.log == t.log[id - 1 := Died(t.log[id - 1], EndOf(t.chains[id]))]
    && u.chains == t.chains - {id} && u.bufs == t.bufs && u.inodes == t.inodes && u.dirty == t.dirty
    && |u.disk| == |t.disk|
    && (forall b | b in t.chains[id] :: b < |u.disk| && u.disk[b] == Free)
    && (forall b | 0 <= b < |u.disk| && b !in t.chains[id] && !t.disk[b].InodeBlock? :: u.disk[b] == t.disk[b])
  }

  /** Removes a file that nobody has open: its name is gone, its blocks are free, and nothing
      else has changed for anybody. Its record is in inode block number `at`. */
  method Rm(fs: FlogFs, name: string, ghost others: set<WriteFile>) returns (ok: bool, ghost at: nat)
    requires fs.Valid()
    requires fs.AllOpen(others)
    requires name in Directory(fs.t.log) ==>
      var id := Directory(fs.t.log)[name];
      && id !in fs.t.bufs
      && id in fs.t.chains && fs.time + 1 + |fs.t.chains[id]| < ERASED32
    modifies fs`cache, fs`t, fs`time, fs.device, fs.prealloc, fs.prealloc.nodes
    ensures fs.Valid()
    ensures ok <==> name in Directory(old(fs.t).log)
    ensures FileMap(fs.t) == FileMap(old(fs.t)) - {name}
    ensures ok ==>
      var id := Directory(old(fs.t).log)[name];
      Removed(old(fs.t), fs.t, id) && KeepsBy(old(fs.t), fs.t, Removes(id - 1))
    ensures ok ==>
      Wiped(fs.version, old(fs.t), Directory(old(fs.t).log)[name] - 1, at, old(fs.time) + 1, old(fs.device.blocks), fs.device.blocks)
    ensures !ok ==> fs.t == old(fs.t) && fs.time == old(fs.time) && fs.device.blocks == old(fs.device.blocks)
    ensures ok ==> fs.time == old(fs.time) + 1 + |old(fs.t).chains[Directory(old(fs.t).log)[name]]|
    ensures fs.prealloc.lists.ready == old(fs.prealloc.lists.ready) && StillOpen(fs, others)
    ensures Grown(old(fs.t), fs.t)
  {
    hide TablesOk, FlogFs.Base, ReadyOk, Directory, FileMap, Grown, RemoveStep, Removed, KeepsBy, RemovedAt, Wiped;
    ghost var t := fs.t;
    var iter := new InodeIterator();
    var found, n := LookUp(fs, name, iter, others);
    if found.first == NO_BLOCK {
      NothingRemoved(t, name);
      return false, 0;
    }
    NamedRecord(t, name);
    RemoveRecord(fs, found.first, found.id, iter, n, others);
    at := iter.at;
    RemovedShows(t, fs.t, n, at);
    ok := true;
  }

  lemma NamedRecord(t: Tables, name: string)
    requires TablesOk(t) && name in Directory(t.log)
    ensures 1 <= Directory(t.log)[name] <= |t.log| && t.log[Directory(t.log)[name] - 1].name == name
  {
    DirectoryOnly(t.log, name);
  }

  lemma NothingRemoved(t: Tables, name: string)
    requires TablesOk(t) && name !in Directory(t.log)
    ensures FileMap(t) == FileMap(t) - {name}
    ensures Grown(t, t)
  {
    NamesAreDirectory(t);
    GrownRefl(t);
  }

  lemma RecordIsAt(t: Tables, n: nat, i: nat)
    requires TablesOk(t) && RecordAt(t, n, i) && n < |t.log|
    ensures var b, k := t.inodes[i], n - i * EntriesPerBlock(t.pages);
      && b < |t.disk| && t.disk[b].InodeBlock? && 0 <= k < |t.disk[b].entries|
      && t.disk[b].idx * EntriesPerBlock(t.pages) + k == n
    ensures n + 1 in t.chains ==> !t.log[n].dead
  {
    assert InodeOk(t, i);
    assert EntryOk(t, n);
  }

  /** What removing does to the tables, seen from outside. */
  lemma RemoveShows(t: Tables, n: nat, at: nat, k: nat)
    requires TablesOk(t) && n < |t.log| && n + 1 in t.chains
    requires at < |t.disk| && t.disk[at].InodeBlock? && k < |t.disk[at].entries|
    ensures var u := RemoveStep(t, n, at, k);
      Removed(t, u, n + 1) && FileMap(u) == FileMap(t) - {t.log[n].name} && Grown(t, u)
  {
    hide TablesOk, FileMap, Grown;
    ChainBlocks(t, n + 1);
    RemoveMeans(t, n, at, k);
    OthersSurviveRemove(t, n, at, k);
    var c := t.chains[n + 1];
    assert c[..|c|] == c;
  }
}
