// Making files: extending the inode chain, and the record of a new file.
module NewFile {
  import opened Geometry
  import opened Flash
  import opened Tables
  import opened TablesProofs
  import opened Refinement
  import opened Image
  import opened Prealloc
  import opened FileSystem
  import opened Allocator
  import opened Counts
  import opened Effects
  import opened Writer
  import opened Inodes
  import opened Machine

  /** Sector `s` of block `b` with a bare structure written to it. */
  function WithHeader(h: Header): Sector {
    Written(BlankSector(), 0, h, [])
  }

  lemma WithHeaderIs(h: Header)
    ensures RegionErased(BlankSector(), 0, HeaderBytes(h))
    ensures |BlankSector().bytes| == SECTOR_SIZE
    ensures WithHeader(h).header == (if h.NoHeader? then NoHeader else h)
    ensures |WithHeader(h).bytes| == SECTOR_SIZE && WithHeader(h).spare == ERASED_SPARE
  {
  }

  /** The inode chain and the flash after another inode block has been linked. */
  lemma LinkImage(version: nat, ready: seq<nat>, blocks: seq<Block>, t: Tables, next: nat, stamp: nat, index: nat)
    requires TablesOk(t) && RepresentsAll(version, blocks, t) && ReadyOk(version, ready, blocks, t)
    requires |t.inodes| * EntriesPerBlock(t.pages) == |t.log| + 1
    requires next < |t.disk| && t.disk[next] == Free && next !in ready
    requires |blocks[next]| > 0 && GoodStatistics(version, blocks[next][STATISTICS_SECTOR])
    requires index == 1
    ensures var k := Last(t.inodes);
      && k < |blocks| && k != next && TAIL_SECTOR < |blocks[k]| && Blank(blocks[k][TAIL_SECTOR])
      && INIT_SECTOR < |blocks[next]| && Blank(blocks[next][INIT_SECTOR])
      && t.disk[k].InodeBlock?
    ensures TablesOk(LinkInodeStep(t, next)) && Early(LinkInodeStep(t, next))
    ensures var after := Put(Put(blocks, Last(t.inodes), TAIL_SECTOR, WithHeader(InodeTail(next, stamp))),
                             next, INIT_SECTOR, WithHeader(InodeInit(stamp)).(spare := Spare(KIND_INODE, index)));
      RepresentsAll(version, after, LinkInodeStep(t, next)) && ReadyOk(version, ready, after, LinkInodeStep(t, next))
  {
    var k, last := Last(t.inodes), |t.inodes| - 1;
    assert InodeOk(t, last);
    var u := LinkInodeStep(t, next);
    assert Represents(t.pages, version, blocks[k], t.disk[k]);
    assert Represents(t.pages, version, blocks[next], t.disk[next]);
    LinkInodeKeeps(t, next);
    WithHeaderIs(InodeTail(next, stamp));
    WithHeaderIs(InodeInit(stamp));
    LinkRepresents(t.pages, version, blocks[k], t.disk[k], next, WithHeader(InodeTail(next, stamp)));
    InodeInitRepresents(t.pages, version, blocks[next], |t.inodes|,
                        WithHeader(InodeInit(stamp)).(spare := Spare(KIND_INODE, index)));
    var after := Put(Put(blocks, k, TAIL_SECTOR, WithHeader(InodeTail(next, stamp))),
                     next, INIT_SECTOR, WithHeader(InodeInit(stamp)).(spare := Spare(KIND_INODE, index)));
    forall x | 0 <= x < |after| ensures Represents(t.pages, version, after[x], u.disk[x]) {
      assert Represents(t.pages, version, blocks[x], t.disk[x]);
    }
  }

  lemma TwoHeaders(blocks: seq<Block>, b: nat, c: nat, h: Header, i: Header, spare: Spare)
    requires b < |blocks| && c < |blocks| && b != c && TAIL_SECTOR < |blocks[b]| && INIT_SECTOR < |blocks[c]|
    requires h != NoHeader && i != NoHeader
    ensures var after := Put(Put(blocks, b, TAIL_SECTOR, WithHeader(h)), c, INIT_SECTOR, WithHeader(i).(spare := spare));
      HeaderAt(after, b, TAIL_SECTOR, h) && HeaderAt(after, c, INIT_SECTOR, i)
  {
  }

  /** Writes the TAIL sector of the last inode block and the INIT sector of the one it links. */
  method LinkOnFlash(fs: FlogFs, block: nat, next: nat, index: nat)
    requires Primable(fs) && Taken(fs, next)
    requires |fs.t.inodes| * EntriesPerBlock(fs.t.pages) == |fs.t.log| + 1
    requires |fs.t.inodes| >= 1 && block == Last(fs.t.inodes)
    requires index == 1 && fs.time < ERASED32
    modifies fs`cache, fs`t, fs.device, fs.prealloc, fs.prealloc.nodes
    ensures fs.Holds() && Early(fs.t)
    ensures Last(old(fs.t).inodes) < |old(fs.t).disk| && old(fs.t).disk[Last(old(fs.t).inodes)].InodeBlock?
    ensures Enabled(old(fs.t), MoreInodes(next))
    ensures next < |old(fs.t).disk| && fs.t == LinkInodeStep(old(fs.t), next)
    ensures ReadyOk(fs.version, fs.prealloc.lists.ready, fs.device.blocks, fs.t)
    ensures HeaderAt(fs.device.blocks, block, TAIL_SECTOR, InodeTail(next, fs.time))
    ensures HeaderAt(fs.device.blocks, next, INIT_SECTOR, InodeInit(fs.time))
    ensures fs.prealloc.lists.ready == old(fs.prealloc.lists.ready)
  {
    hide TablesOk, RepresentsAll, Preallocator.Valid, ReadyOk, Shaped, WithHeader, BlankSector, HeaderAt;
    ghost var t, blocks := fs.t, fs.device.blocks;
    LinkImage(fs.version, fs.prealloc.lists.ready, blocks, t, next, fs.time, index);
    WithHeaderIs(InodeTail(next, fs.time));
    WithHeaderIs(InodeInit(fs.time));
    fs.OpenSector(block, TAIL_SECTOR);
    WriteHeader(fs.device, TAIL_SECTOR, InodeTail(next, fs.time));
    PutAt(blocks, block, TAIL_SECTOR, WithHeader(InodeTail(next, fs.time)));
    fs.OpenSector(next, INIT_SECTOR);
    WriteHeaderAndSpare(fs.device, INIT_SECTOR, InodeInit(fs.time), Spare(KIND_INODE, index));
    TwoHeaders(blocks, block, next, InodeTail(next, fs.time), InodeInit(fs.time), Spare(KIND_INODE, index));
    fs.t := LinkInodeStep(t, next);
  }

  /** Writes a bare structure to the open blank sector. */
  method WriteHeader(device: FlashDevice, sector: nat, h: Header)
    requires device.Ready()
    requires Blank(device.blocks[device.openBlock][device.Target(sector)])
    modifies device`blocks
    ensures Shaped(device.pages, device.blocks)
    ensures device.blocks == Put(old(device.blocks), device.openBlock, old(device.Target(sector)), WithHeader(h))
  {
    WithHeaderIs(h);
    device.WriteSector(sector, 0, h, []);
  }

  method WriteHeaderAndSpare(device: FlashDevice, sector: nat, h: Header, spare: Spare)
    requires device.Ready()
    requires Blank(device.blocks[device.openBlock][device.Target(sector)])
    modifies device`blocks
    ensures Shaped(device.pages, device.blocks)
    ensures device.blocks == Put(old(device.blocks), device.openBlock, old(device.Target(sector)),
                                 WithHeader(h).(spare := spare))
  {
    hide WithHeader, Shaped;
    WithHeaderIs(h);
    ghost var before, b, s := device.blocks, device.openBlock, device.Target(sector);
    WriteHeader(device, sector, h);
    PutAt(before, b, s, WithHeader(h));
    PutTwice(before, b, s, WithHeader(h), WithHeader(h).(spare := spare));
    device.WriteSpare(sector, spare);
  }

  // ------------------------------------------------------------ making room

  /** To the user the two volumes are the same, and what is committed stays where it is. */
  ghost predicate SameFiles(t: Tables, u: Tables) {
    && u.pages == t.pages && |u.disk| == |t.disk| && u.log == t.log
    && u.chains.Keys == t.chains.Keys && u.bufs.Keys == t.bufs.Keys
    && Contents(u) == Contents(t)
    && Grown(t, u)
    && OthersCounted(t, u, {})
    && Keeps(t, u)
  }

  lemma SameFilesMeans(t: Tables, u: Tables)
    requires SameFiles(t, u)
    ensures FileMap(u) == FileMap(t)
  {
  }

  lemma SameFilesTrans(t: Tables, u: Tables, v: Tables)
    requires SameFiles(t, u) && SameFiles(u, v)
    ensures SameFiles(t, v)
  {
    hide KeepsBy;
    KeepsTrans(t, u, v, Quiet);
    GrownTrans(t, u, v);
    OthersCountedTrans(t, u, v, {}, {});
    ghost var none: set<nat> := {};
    assert none + none == none;
  }

  lemma FlushSame(t: Tables)
    requires TablesOk(t)
    requires t.dirty.Some? ==> Writable(t, t.dirty.value)
    ensures SameFiles(t, FlushDirtyStep(t)) && FlushDirtyStep(t).inodes == t.inodes
  {
    FlushMeans(t);
  }

  lemma LinkInodeSame(t: Tables, next: nat)
    requires TablesOk(t) && Enabled(t, MoreInodes(next))
    ensures SameFiles(t, LinkInodeStep(t, next))
  {
    hide KeepsBy;
    LinkKeeps(t, next);
    LinkInodeMeans(t, next);
    var u := LinkInodeStep(t, next);
    forall x | x in t.chains ensures CountKept(t, u, x) {
      CountsFrame(t, u, x);
    }
  }

  /** Linking an inode block moves no writer. */
  lemma LinkInodeMoves(t: Tables, next: nat)
    requires TablesOk(t)
    requires next < |t.disk| && t.disk[next] == Free
    requires Last(t.inodes) < |t.disk| && t.disk[Last(t.inodes)].InodeBlock?
    ensures OthersStand(t, LinkInodeStep(t, next), {})
    ensures LinkInodeStep(t, next).bufs == t.bufs && LinkInodeStep(t, next).dirty == t.dirty
  {
    forall x | x in t.bufs ensures StaysPut(t, LinkInodeStep(t, next), x) {
      WritableIfOpen(t, x);
    }
  }

  /** The first free record is the last one of the last inode block exactly if its sector says so. */
  lemma LastRecord(t: Tables, i: nat)
    requires TablesOk(t) && RecordAt(t, |t.log|, i)
    ensures RecordSector(t.pages, |t.log|, i) == SectorCount(t.pages) - 2 <==>
            (i + 1) * EntriesPerBlock(t.pages) == |t.log| + 1
    ensures !Early(t) ==> i + 1 == |t.inodes|
    ensures Early(t) ==> (i + 1) * EntriesPerBlock(t.pages) == |t.log| + 1
  {
    var size := EntriesPerBlock(t.pages);
    var last := |t.inodes| - 1;
    assert (i + 1) * size == i * size + size;
    if i < last { BlocksApart(i, last, size); }
    if i + 1 < last { BlocksApart(i + 1, last, size); }
  }

  /** The TAIL sector of the inode block with the first free record, if that is the last record of
      the block, is blank exactly if the chain has not been extended already. So a call that extends
      it and then fails must not be tried again: the second time the device would refuse. */
  lemma TailBlankUnlessEarly(version: nat, blocks: seq<Block>, t: Tables, i: nat)
    requires TablesOk(t) && RepresentsAll(version, blocks, t)
    requires RecordAt(t, |t.log|, i) && (i + 1) * EntriesPerBlock(t.pages) == |t.log| + 1
    ensures t.inodes[i] < |blocks| && TAIL_SECTOR < |blocks[t.inodes[i]]|
    ensures Blank(blocks[t.inodes[i]][TAIL_SECTOR]) <==> !Early(t)
  {
    var size, last := EntriesPerBlock(t.pages), |t.inodes| - 1;
    assert InodeOk(t, i);
    assert Represents(t.pages, version, blocks[t.inodes[i]], t.disk[t.inodes[i]]);
    if i < last { BlocksApart(i, last, size); }
    if i + 1 < last { BlocksApart(i + 1, last, size); }
    if i < last {
      assert InodeOk(t, i + 1);
    }
  }

  /** The free record is the last one of the last inode block. */
  ghost predicate OneRecordLeft(t: Tables)
    requires t.pages >= 2
  {
    |t.inodes| * EntriesPerBlock(t.pages) == |t.log| + 1
  }

  /** FlushAndAllocate in terms of what the user sees. */
  method Obtain(fs: FlogFs, ghost others: set<WriteFile>) returns (next: nat)
    requires fs.Valid()
    requires fs.AllOpen(others)
    modifies fs`cache, fs`drawn, fs`dirty, fs`t, fs.device, fs.prealloc, fs.prealloc.nodes
    modifies if fs.dirty.file == null then {} else {fs.dirty.file}
    ensures fs.Valid() && Primable(fs) && fs.dirty == NOT_DIRTY
    ensures SameFiles(old(fs.t), fs.t) && fs.t.inodes == old(fs.t).inodes
    ensures next == NO_BLOCK <==> old(fs.prealloc.lists.ready) == []
    ensures next != NO_BLOCK ==> Taken(fs, next) && next == old(fs.prealloc.lists.ready)[0] && TookOne(fs)
    ensures next != NO_BLOCK ==> StockLeft(old(Stock(fs)), 1, Stock(fs))
    ensures next == NO_BLOCK ==> TookNone(fs)
    ensures StillOpen(fs, others)
  {
    hide TablesOk, RepresentsAll, FlogFs.Base, ReadyOk, SameFiles, FlushDirtyStep, FlogFs.DirtyOk, Stands, OneTakenFrom, StockLeft;
    FlushMeans(fs.t);
    FlushSame(fs.t);
    next := FlushAndAllocate(fs, others);
    if next != NO_BLOCK { TookOneLeft(fs); }
  }

  /** Makes sure that the record the iterator is at may be claimed: if it is the last of its inode
      block, another inode block is linked first. */
  method PrepareNew(fs: FlogFs, iter: InodeIterator, ghost others: set<WriteFile>) returns (ok: bool)
    requires fs.Valid() && iter.At(fs.t, |fs.t.log|) && iter.inodeBlockIdx == 0
    requires Early(fs.t) ==> fs.prealloc.lists.ready == []
    requires fs.time + 1 < ERASED32
    requires fs.AllOpen(others)
    modifies fs`cache, fs`drawn, fs`dirty, fs`t, fs`time, fs.device, fs.prealloc, fs.prealloc.nodes, iter
    modifies if fs.dirty.file == null then {} else {fs.dirty.file}
    ensures fs.Valid() && iter.At(fs.t, |fs.t.log|)
    ensures SameFiles(old(fs.t), fs.t)
    ensures ok ==> ((iter.at + 1) * EntriesPerBlock(fs.pages) == |fs.t.log| + 1 ==> iter.at + 1 < |fs.t.inodes|)
    ensures !ok <==> (Early(old(fs.t)) || OneRecordLeft(old(fs.t))) && old(fs.prealloc.lists.ready) == []
    ensures Early(fs.t) <==> Early(old(fs.t)) || (OneRecordLeft(old(fs.t)) && old(fs.prealloc.lists.ready) != [])
    ensures |old(fs.prealloc.lists.ready)| > (if OneRecordLeft(old(fs.t)) then 1 else 0) ==> fs.prealloc.lists.ready != []
    ensures if !ok then TookNone(fs) && fs.dirty == NOT_DIRTY && fs.t.inodes == old(fs.t).inodes
            else if OneRecordLeft(old(fs.t)) then
              && TookOne(fs) && StockLeft(old(Stock(fs)), 1, Stock(fs)) && fs.dirty == NOT_DIRTY
              && fs.t.inodes == old(fs.t).inodes + [old(fs.prealloc.lists.ready)[0]]
              && HeaderAt(fs.device.blocks, iter.block, TAIL_SECTOR, InodeTail(old(fs.prealloc.lists.ready)[0], fs.time))
            else fs.t == old(fs.t) && fs.drawn == old(fs.drawn) && fs.prealloc.lists == old(fs.prealloc.lists) && fs.dirty == old(fs.dirty)
    ensures StillOpen(fs, others)
    ensures fs.time == old(fs.time) + (if OneRecordLeft(old(fs.t)) && old(fs.prealloc.lists.ready) != [] then 1 else 0)
  {
    hide TablesOk, RepresentsAll, FlogFs.Base, ReadyOk, SameFiles, Early, Stands, StockLeft, OneTakenFrom;
    LastRecord(fs.t, iter.at);
    SameRefl(fs.t);
    if iter.sector == SectorCount(fs.pages) - 2 {
      ghost var t := fs.t;
      SameLog(t);
      var next := Obtain(fs, others);
      SameEarly(t, fs.t);
      ghost var u := fs.t;
      if next == NO_BLOCK {
        return false;
      }
      LeftMeans(old(Stock(fs)), Stock(fs));
      LinkNext(fs, iter, next, others);
      SameFilesTrans(t, u, fs.t);
    }
    ok := true;
  }

  lemma LeftMeans(had: (seq<nat>, nat), has: (seq<nat>, nat))
    requires StockLeft(had, 1, has)
    ensures |had.0| > 1 ==> has.0 != []
  {
  }

  lemma SameEarly(t: Tables, u: Tables)
    requires t.pages >= 2 && SameFiles(t, u) && u.inodes == t.inodes
    ensures Early(u) <==> Early(t)
  {
  }

  lemma SameRefl(t: Tables)
    requires TablesOk(t)
    ensures SameFiles(t, t)
  {
    hide KeepsBy;
    KeepsRefl(t, Quiet);
    GrownRefl(t);
    forall x | x in t.chains ensures CountKept(t, t, x) {
      CountsFrame(t, t, x);
    }
  }

  /** Links `next` behind the inode block the iterator is in. */
  method LinkNext(fs: FlogFs, iter: InodeIterator, next: nat, ghost others: set<WriteFile>)
    requires fs.Valid() && fs.dirty == NOT_DIRTY && Primable(fs) && Taken(fs, next)
    requires iter.At(fs.t, |fs.t.log|) && iter.inodeBlockIdx == 0 && iter.at + 1 == |fs.t.inodes|
    requires (iter.at + 1) * EntriesPerBlock(fs.pages) == |fs.t.log| + 1
    requires fs.time + 1 < ERASED32
    requires fs.AllOpen(others)
    modifies fs`cache, fs`t, fs`time, fs.device, fs.prealloc, fs.prealloc.nodes, iter
    ensures fs.Valid() && iter.At(fs.t, |fs.t.log|)
    ensures SameFiles(old(fs.t), fs.t)
    ensures iter.at + 1 < |fs.t.inodes| && Early(fs.t)
    ensures StillOpen(fs, others)
    ensures fs.t.inodes == old(fs.t).inodes + [next]
    ensures HeaderAt(fs.device.blocks, iter.block, TAIL_SECTOR, InodeTail(next, fs.time))
    ensures HeaderAt(fs.device.blocks, next, INIT_SECTOR, InodeInit(fs.time))
    ensures fs.time == old(fs.time) + 1
    ensures fs.prealloc.lists.ready == old(fs.prealloc.lists.ready)
  {
    hide TablesOk, RepresentsAll, Preallocator.Valid, ReadyOk, SameFiles, Early;
    ghost var t := fs.t;
    fs.time := fs.time + 1;
    iter.inodeBlockIdx := iter.inodeBlockIdx + 1;
    LinkOnFlash(fs, iter.block, next, iter.inodeBlockIdx);
    LinkInodeSame(t, next);
    LinkInodeMoves(t, next);
    iter.nextBlock := next;
    forall o | o in others ensures Untouched(fs, o) {
      assert StaysPut(t, fs.t, o.id);
    }
  }

  // ------------------------------------------------------------- a new file

  /** The inode table and the flash after the record of a new file has been written. */
  lemma CreateImage(version: nat, ready: seq<nat>, blocks: seq<Block>, t: Tables, name: string, first: nat,
                    i: nat, stamp: nat)
    requires TablesOk(t) && RepresentsAll(version, blocks, t) && ReadyOk(version, ready, blocks, t)
    requires t.dirty == None
    requires RecordAt(t, |t.log|, i)
    requires (i + 1) * EntriesPerBlock(t.pages) == |t.log| + 1 ==> i + 1 < |t.inodes|
    requires ValidName(name) && name !in Directory(t.log) && |t.log| + 1 < ERASED32
    requires first < |t.disk| && t.disk[first] == Free && first !in ready
    requires |blocks[first]| > 0 && GoodStatistics(version, blocks[first][STATISTICS_SECTOR])
    ensures var k, s := t.inodes[i], RecordSector(t.pages, |t.log|, i);
      && k < |blocks| && s < |blocks[k]| && Blank(blocks[k][s]) && t.disk[k].InodeBlock?
    ensures TablesOk(CreateStep(t, name, first, t.inodes[i])) && !Early(CreateStep(t, name, first, t.inodes[i]))
    ensures var u := CreateStep(t, name, first, t.inodes[i]);
      var after := Put(blocks, t.inodes[i], RecordSector(t.pages, |t.log|, i),
                       WithHeader(Allocation(|t.log| + 1, first, stamp, name)));
      RepresentsAll(version, after, u) && ReadyOk(version, ready, after, u)
  {
    hide Directory, Early, Roomy;
    var k, s, id := t.inodes[i], RecordSector(t.pages, |t.log|, i), |t.log| + 1;
    var size := EntriesPerBlock(t.pages);
    RecordShows(version, blocks, t, |t.log|, i);
    assert InodeOk(t, i);
    assert Represents(t.pages, version, blocks[k], t.disk[k]);
    assert Represents(t.pages, version, blocks[first], t.disk[first]);
    assert |t.disk[k].entries| == |t.log| - i * size;
    CreateKeeps(t, name, first, i);
    var u := CreateStep(t, name, first, k);
    var sec := WithHeader(Allocation(id, first, stamp, name));
    WithHeaderIs(Allocation(id, first, stamp, name));
    RecordRepresents(t.pages, version, blocks[k], t.disk[k], Born(id, first, name), sec);
    FreeBecomesFile(t.pages, version, blocks[first], id, 0);
    var after := Put(blocks, k, s, sec);
    forall x | 0 <= x < |after| ensures Represents(t.pages, version, after[x], u.disk[x]) {
      assert Represents(t.pages, version, blocks[x], t.disk[x]);
    }
  }

  /** Making a file moves no other writer; its own stands at the INIT sector of the first block. */
  lemma CreateMoves(t: Tables, name: string, first: nat, at: nat)
    requires TablesOk(t)
    requires at < |t.disk| && t.disk[at].InodeBlock?
    requires first < |t.disk| && t.disk[first] == Free
    requires TablesOk(CreateStep(t, name, first, at))
    ensures OthersStand(t, CreateStep(t, name, first, at), {})
    ensures var u, id := CreateStep(t, name, first, at), |t.log| + 1;
      && id in u.bufs && id !in t.bufs && u.dirty == Some(id) && Writable(u, id) && Last(u.chains[id]) == first
      && u.inodes == t.inodes && u.log == t.log + [Born(id, first, name)] && u.pages == t.pages && |u.disk| == |t.disk|
      && WriterFor(u, id) == WriterView(id, first, INIT_SECTOR, INIT_HEADER_SIZE, SECTOR_SIZE - INIT_HEADER_SIZE, [])
  {
    var u, id := CreateStep(t, name, first, at), |t.log| + 1;
    NewIdIsFree(t);
    WritableIfOpen(u, id);
    forall x | x in t.bufs ensures StaysPut(t, u, x) {
      WritableIfOpen(t, x);
      WritableIfOpen(u, x);
    }
  }

  method CreateOnFlash(fs: FlogFs, iter: InodeIterator, name: string, first: nat)
    requires Primable(fs) && Taken(fs, first)
    requires iter.At(fs.t, |fs.t.log|)
    requires (iter.at + 1) * EntriesPerBlock(fs.t.pages) == |fs.t.log| + 1 ==> iter.at + 1 < |fs.t.inodes|
    requires ValidName(name) && name !in Directory(fs.t.log) && |fs.t.log| + 1 < ERASED32
    requires fs.maxFileId == |fs.t.log| + 1
    modifies fs`cache, fs`t, fs.device, fs.prealloc, fs.prealloc.nodes
    ensures fs.Holds() && !Early(fs.t)
    ensures iter.block < |old(fs.t).disk| && old(fs.t).disk[iter.block].InodeBlock? && first < |old(fs.t).disk|
    ensures Enabled(old(fs.t), NewRecord(name, first, iter.at))
    ensures fs.t == CreateStep(old(fs.t), name, first, iter.block)
    ensures ReadyOk(fs.version, fs.prealloc.lists.ready, fs.device.blocks, fs.t)
    ensures HeaderAt(fs.device.blocks, iter.block, iter.sector, Allocation(fs.maxFileId, first, fs.time, name))
    ensures fs.prealloc.lists.ready == old(fs.prealloc.lists.ready)
  {
    hide TablesOk, RepresentsAll, Preallocator.Valid, ReadyOk, Shaped, WithHeader, BlankSector, Directory, Early;
    ghost var t, blocks := fs.t, fs.device.blocks;
    CreateImage(fs.version, fs.prealloc.lists.ready, blocks, t, name, first, iter.at, fs.time);
    RecordShows(fs.version, blocks, t, |t.log|, iter.at);
    fs.OpenSector(iter.block, iter.sector);
    WriteHeader(fs.device, iter.sector, Allocation(fs.maxFileId, first, fs.time, name));
    WithHeaderIs(Allocation(fs.maxFileId, first, fs.time, name));
    PutAt(blocks, iter.block, iter.sector, WithHeader(Allocation(fs.maxFileId, first, fs.time, name)));
    fs.t := CreateStep(t, name, first, iter.block);
  }

  /** From `t` to `u` the empty file `name` has come into being, with an id above all earlier ones. */
  ghost predicate Created(t: Tables, u: Tables, name: string) {
    var id := |t.log| + 1;
    && |u.log| == id && u.log[..|t.log|] == t.log && u.log[|t.log|].name == name
    && u.pages == t.pages && |u.disk| == |t.disk|
    && id in u.chains && u.chains.Keys == t.chains.Keys + {id}
    && id !in t.bufs && u.bufs.Keys == t.bufs.Keys + {id}
    && FileMap(u) == FileMap(t)[name := []]
    && Grown(t, u)
    && OthersCounted(t, u, {})
    && CountsOk(u, id) && Writable(u, id) && InLastBlock(u, id) == 0
    && Starts(t, u, id, 0, Makes(name))
  }

  lemma NewIdIsFree(t: Tables)
    requires TablesOk(t)
    ensures |t.log| + 1 !in t.bufs
  {
    forall id | id in t.bufs ensures id <= |t.log| {
      WritableIfOpen(t, id);
      assert ChainOk(t, id);
    }
  }

  lemma CreateCreates(t: Tables, name: string, first: nat, i: nat)
    requires TablesOk(t) && Enabled(t, NewRecord(name, first, i))
    ensures Created(t, CreateStep(t, name, first, t.inodes[i]), name)
  {
    hide TablesOk, Directory, FileMap, Grown, Starts;
    NewIdIsFree(t);
    RecordStarts(t, name, first, i);
    CreateMeans(t, name, first, t.inodes[i]);
    CreateCounts(t, name, first, t.inodes[i]);
  }

  lemma CreateCounts(t: Tables, name: string, first: nat, at: nat)
    requires TablesOk(t)
    requires at < |t.disk| && t.disk[at].InodeBlock?
    requires first < |t.disk| && t.disk[first] == Free
    ensures OthersCounted(t, CreateStep(t, name, first, at), {})
    ensures var u, id := CreateStep(t, name, first, at), |t.log| + 1;
      id in u.chains && CountsOk(u, id) && Writable(u, id) && InLastBlock(u, id) == 0
  {
    var u, id := CreateStep(t, name, first, at), |t.log| + 1;
    forall x | x in t.chains ensures CountKept(t, u, x) {
      assert ChainOk(t, x);
      CountsFrame(t, u, x);
    }
  }

  lemma SameThenCreated(t: Tables, u: Tables, v: Tables, name: string)
    requires SameFiles(t, u) && Created(u, v, name)
    ensures Created(t, v, name)
  {
    hide Starts, KeepsBy;
    KeepsStarts(t, u, v, |t.log| + 1, 0, name);
    GrownTrans(t, u, v);
    OthersCountedTrans(t, u, v, {}, {});
    ghost var none: set<nat> := {};
    assert none + none == none;
  }

  /** Where the blocks for a new file come from: the oldest of the list, after the one for the inode chain if
      that must be extended. */
  ghost predicate Provided(had: (seq<nat>, nat), extend: bool, inodes: seq<nat>, now: seq<nat>, first: nat, has: (seq<nat>, nat)) {
    && had.0 != []
    && now == inodes + (if extend then [had.0[0]] else [])
    && (extend ==> StockLeft(had, 2, has) && (|had.0| > 1 ==> first == had.0[1]))
    && (!extend ==> StockLeft(had, 1, has) && first == had.0[0])
  }

  lemma ProvidedBy(s0: (seq<nat>, nat), extend: bool, s1: (seq<nat>, nat), s2: (seq<nat>, nat), inodes: seq<nat>, now: seq<nat>, first: nat)
    requires if extend then s0.0 != [] && StockLeft(s0, 1, s1) && now == inodes + [s0.0[0]] else s1 == s0 && now == inodes
    requires StockLeft(s1, 1, s2) && s1.0 != [] && first == s1.0[0]
    ensures Provided(s0, extend, inodes, now, first, s2)
  {
    if extend { OneTaken(s0, 1, s1, s2); }
    assert inodes + [] == inodes;
  }

  /** Makes the file in the record the iterator is at, if a block can be had for it. */
  method PlaceNew(fs: FlogFs, file: WriteFile, iter: InodeIterator, name: string, ghost others: set<WriteFile>) returns (ok: bool)
    requires fs.Valid() && iter.At(fs.t, |fs.t.log|)
    requires (iter.at + 1) * EntriesPerBlock(fs.t.pages) == |fs.t.log| + 1 ==> iter.at + 1 < |fs.t.inodes|
    requires ValidName(name) && name !in Directory(fs.t.log)
    requires |fs.t.log| + 1 < ERASED32 && fs.time + 1 < ERASED32
    requires |file.buffer| == SECTOR_SIZE && fs.dirty.file != file
    requires fs.AllOpen(others) && file !in others
    modifies fs`cache, fs`drawn, fs`dirty, fs`t, fs`time, fs`maxFileId, fs.device, fs.prealloc, fs.prealloc.nodes, file
    modifies if fs.dirty.file == null then {} else {fs.dirty.file}
    ensures fs.Valid()
    ensures ok <==> old(fs.prealloc.lists.ready) != []
    ensures ok ==> fs.Open(file) && Created(old(fs.t), fs.t, name) && file.id == |fs.t.log| && !Early(fs.t)
    ensures ok ==> file.fileSize == 0 && file.bytesInBlock == 0
    ensures !ok ==> SameFiles(old(fs.t), fs.t) && (Early(fs.t) <==> Early(old(fs.t)))
    ensures if ok then TookOne(fs) && StockLeft(old(Stock(fs)), 1, Stock(fs)) else TookNone(fs)
    ensures fs.t.inodes == old(fs.t).inodes
    ensures fs.dirty == if ok then DirtyBlock(old(fs.prealloc.lists.ready)[0], file) else NOT_DIRTY
    ensures ok ==> HeaderAt(fs.device.blocks, iter.block, iter.sector, Allocation(file.id, fs.dirty.block, fs.time, name))
    ensures fs.time == old(fs.time) + (if ok then 1 else 0)
    ensures StillOpen(fs, others)
  {
    hide TablesOk, RepresentsAll, FlogFs.Base, ReadyOk, SameFiles, Early, Created, Directory, Stands, FlogFs.DirtyOk,
      OneTakenFrom, StockLeft, HeaderAt;
    ghost var u := fs.t;
    SameLog(u);
    var first := Obtain(fs, others);
    SameEarly(u, fs.t);
    if first == NO_BLOCK {
      return false;
    }
    ghost var v := fs.t;
    ClaimRecord(fs, file, iter, name, first, others);
    SameThenCreated(u, v, fs.t, name);
    ok := true;
  }

  /** Makes the file `name`, which does not exist yet, and opens it for writing. */
  method OpenNew(fs: FlogFs, file: WriteFile, iter: InodeIterator, name: string, ghost others: set<WriteFile>)
    returns (ok: bool)
    requires fs.Valid() && iter.At(fs.t, |fs.t.log|) && iter.inodeBlockIdx == 0
    requires Early(fs.t) ==> fs.prealloc.lists.ready == []
    requires ValidName(name) && name !in Directory(fs.t.log)
    requires |fs.t.log| + 1 < ERASED32 && fs.time + 2 < ERASED32
    requires |file.buffer| == SECTOR_SIZE && fs.dirty.file != file
    requires fs.AllOpen(others) && file !in others
    modifies fs`cache, fs`drawn, fs`dirty, fs`t, fs`time, fs`maxFileId, fs.device, fs.prealloc, fs.prealloc.nodes, iter, file
    modifies if fs.dirty.file == null then {} else {fs.dirty.file}
    ensures fs.Valid()
    ensures ok ==> fs.Open(file) && Created(old(fs.t), fs.t, name) && file.id == |fs.t.log| && !Early(fs.t)
    ensures ok ==> file.fileSize == 0 && file.bytesInBlock == 0
    ensures !ok ==> SameFiles(old(fs.t), fs.t)
    ensures !ok ==> (Early(fs.t) <==> Early(old(fs.t)) || (OneRecordLeft(old(fs.t)) && old(fs.prealloc.lists.ready) != []))
    ensures old(fs.prealloc.lists.ready) == [] ==> !ok
    ensures |old(fs.prealloc.lists.ready)| > (if OneRecordLeft(old(fs.t)) then 1 else 0) ==> ok
    ensures !ok ==> fs.prealloc.lists.ready == []
    ensures if ok then fs.dirty.file == file else fs.dirty == NOT_DIRTY
    ensures ok ==> Provided(old(Stock(fs)), OneRecordLeft(old(fs.t)), old(fs.t).inodes, fs.t.inodes, fs.dirty.block, Stock(fs))
    ensures ok && !OneRecordLeft(old(fs.t)) ==> TookOne(fs)
    ensures !ok && !OneRecordLeft(old(fs.t)) ==> TookNone(fs)
    ensures fs.time == old(fs.time) + (if ok then 1 else 0) +
            (if OneRecordLeft(old(fs.t)) && old(fs.prealloc.lists.ready) != [] then 1 else 0)
    ensures StaysEmpty(fs) && StillOpen(fs, others)
  {
    hide TablesOk, RepresentsAll, FlogFs.Base, ReadyOk, SameFiles, Early, OneRecordLeft, Created, Directory, Stands, FlogFs.DirtyOk,
      OneTakenFrom, StockLeft, Provided, HeaderAt;
    ghost var t, s0 := fs.t, Stock(fs);
    SameLog(t);
    ok := PrepareNew(fs, iter, others);
    if !ok {
      return;
    }
    ghost var u, s1 := fs.t, Stock(fs);
    SameLog(u);
    ok := PlaceNew(fs, file, iter, name, others);
    if ok {
      SameThenCreated(t, u, fs.t, name);
      ProvidedBy(s0, OneRecordLeft(t), s1, Stock(fs), t.inodes, fs.t.inodes, fs.dirty.block);
    } else {
      SameFilesTrans(t, u, fs.t);
    }
  }

  lemma SameLog(t: Tables)
    ensures forall u {:trigger SameFiles(t, u)} | SameFiles(t, u) ::
      u.log == t.log && u.pages == t.pages
  {
  }

  /** Writes the record of a new file and readies its handle. */
  method ClaimRecord(fs: FlogFs, file: WriteFile, iter: InodeIterator, name: string, first: nat, ghost others: set<WriteFile>)
    requires fs.Valid() && fs.dirty == NOT_DIRTY && Primable(fs) && Taken(fs, first)
    requires iter.At(fs.t, |fs.t.log|)
    requires (iter.at + 1) * EntriesPerBlock(fs.t.pages) == |fs.t.log| + 1 ==> iter.at + 1 < |fs.t.inodes|
    requires ValidName(name) && name !in Directory(fs.t.log)
    requires |fs.t.log| + 1 < ERASED32 && fs.time + 1 < ERASED32
    requires |file.buffer| == SECTOR_SIZE
    requires fs.AllOpen(others) && file !in others
    modifies fs`cache, fs`dirty, fs`t, fs`time, fs`maxFileId, fs.device, fs.prealloc, fs.prealloc.nodes, file
    ensures fs.Valid() && fs.Open(file)
    ensures Created(old(fs.t), fs.t, name) && file.id == |fs.t.log| && !Early(fs.t)
    ensures file.fileSize == 0 && file.bytesInBlock == 0 && fs.dirty == DirtyBlock(first, file)
    ensures fs.t.inodes == old(fs.t).inodes
    ensures HeaderAt(fs.device.blocks, iter.block, iter.sector, Allocation(file.id, first, fs.time, name))
    ensures fs.time == old(fs.time) + 1
    ensures fs.prealloc.lists.ready == old(fs.prealloc.lists.ready)
    ensures StillOpen(fs, others)
  {
    hide TablesOk, RepresentsAll, Preallocator.Valid, ReadyOk, Early, Created, Directory, CreateStep;
    ghost var t := fs.t;
    fs.dirty := DirtyBlock(first, file);
    fs.maxFileId := fs.maxFileId + 1;
    fs.time := fs.time + 1;
    CreateOnFlash(fs, iter, name, first);
    file.Start(fs.maxFileId, first);
    CreateMoves(t, name, first, iter.block);
    CreateCreates(t, name, first, iter.at);
    forall o | o in others ensures Untouched(fs, o) {
      assert StaysPut(t, fs.t, o.id);
    }
  }
}
