// The inode table: iterating over its records, finding names, listing, and
// making room for a new record.
module Inodes {
  import opened Geometry
  import opened Flash
  import opened Tables
  import opened TablesProofs
  import opened Refinement
  import opened Image
  import opened Prealloc
  import opened FileSystem
  import opened Allocator
  import opened Writer

  // ------------------------------------------------ what the flash shows

  /** The next block as read from a TAIL sector; erased bytes read as no block. */
  function NextOf(h: Header): nat
    requires h.NoHeader? || h.FileTail? || h.InodeTail?
  {
    if h.NoHeader? then NO_BLOCK else h.next
  }

  /** The file id as read from an allocation sector. */
  function AllocatedId(h: Header): nat
    requires h.NoHeader? || h.Allocation?
  {
    if h.NoHeader? then ERASED32 else h.id
  }

  /** The timestamp as read from an invalidation sector. */
  function InvalidatedAt(h: Header): nat
    requires h.NoHeader? || h.Invalidation?
  {
    if h.NoHeader? then ERASED32 else h.stamp
  }

  /** A block in use shows in its TAIL sector what follows it in its chain. */
  lemma TailShows(version: nat, blocks: seq<Block>, t: Tables, b: nat)
    requires TablesOk(t) && RepresentsAll(version, blocks, t)
    requires b < |t.disk| && t.disk[b] != Free
    ensures |blocks[b]| == SectorCount(t.pages)
    ensures var h := blocks[b][TAIL_SECTOR].header;
      (h.NoHeader? || h.FileTail? || h.InodeTail?) && NextOf(h) == t.disk[b].next
  {
    assert Represents(t.pages, version, blocks[b], t.disk[b]) && OwnerOk(t, b);
    if t.disk[b].FileBlock? {
      var id, idx := t.disk[b].id, t.disk[b].idx;
      assert ChainOk(t, id) && LinkOk(t, id, t.chains[id], idx);
      assert FileSectorOk(t.pages, blocks[b], TAIL_SECTOR, t.disk[b]);
    }
  }

  /** The sector of record `n` in inode block number `i`. */
  function RecordSector(pages: nat, n: nat, i: nat): nat
    requires pages >= 2 && i * EntriesPerBlock(pages) <= n
  {
    FIRST_ENTRY_SECTOR + 2 * (n - i * EntriesPerBlock(pages))
  }

  /** The two sectors of a record show the record, or that there is none yet. */
  lemma RecordShows(version: nat, blocks: seq<Block>, t: Tables, n: nat, i: nat)
    requires TablesOk(t) && RepresentsAll(version, blocks, t)
    requires RecordAt(t, n, i)
    ensures t.inodes[i] < |blocks| && |blocks[t.inodes[i]]| == SectorCount(t.pages)
    ensures RecordSector(t.pages, n, i) + 1 < SectorCount(t.pages)
    ensures var b, s := blocks[t.inodes[i]], RecordSector(t.pages, n, i);
      if n < |t.log| then
        && b[s].header.Allocation? && b[s].header.id == n + 1
        && b[s].header.first == t.log[n].first && b[s].header.name == t.log[n].name
        && (b[s + 1].header.NoHeader? || b[s + 1].header.Invalidation?)
        && (InvalidatedAt(b[s + 1].header) != ERASED32 <==> t.log[n].dead)
        && (!t.log[n].dead ==> Blank(b[s + 1]))
      else Blank(b[s]) && Blank(b[s + 1])
  {
    var size := EntriesPerBlock(t.pages);
    var k := n - i * size;
    assert InodeOk(t, i);
    assert Represents(t.pages, version, blocks[t.inodes[i]], t.disk[t.inodes[i]]);
    assert RecordOk(t.pages, blocks[t.inodes[i]], k, t.disk[t.inodes[i]]);
    if n < |t.log| {
      assert EntryOk(t, n);
      assert LogSlice(t.log, i, size)[k] == t.log[n];
    }
  }

  /** The record of a removed file shows the last block that the file had. */
  lemma DeadShows(version: nat, blocks: seq<Block>, t: Tables, n: nat, i: nat)
    requires TablesOk(t) && RepresentsAll(version, blocks, t)
    requires RecordAt(t, n, i) && n < |t.log|
    ensures t.inodes[i] < |blocks| && RecordSector(t.pages, n, i) + 1 < |blocks[t.inodes[i]]|
    ensures var h := blocks[t.inodes[i]][RecordSector(t.pages, n, i) + 1].header;
      t.log[n].dead <==> h.Invalidation? && h.stamp < ERASED32 && h.last == t.log[n].last
  {
    var size := EntriesPerBlock(t.pages);
    var k := n - i * size;
    RecordShows(version, blocks, t, n, i);
    assert InodeOk(t, i);
    assert Represents(t.pages, version, blocks[t.inodes[i]], t.disk[t.inodes[i]]);
    assert RecordOk(t.pages, blocks[t.inodes[i]], k, t.disk[t.inodes[i]]);
    assert LogSlice(t.log, i, size)[k] == t.log[n];
  }

  /** The next record is in the same inode block, or at the start of the next if this was the block's last. */
  lemma NextRecord(t: Tables, n: nat, i: nat)
    requires t.pages >= 2
    requires RecordAt(t, n, i)
    ensures RecordSector(t.pages, n, i) + 2 < SectorCount(t.pages) ==> RecordAt(t, n + 1, i)
    ensures RecordSector(t.pages, n, i) + 2 >= SectorCount(t.pages) <==> (i + 1) * EntriesPerBlock(t.pages) == n + 1
    ensures RecordSector(t.pages, n, i) + 2 >= SectorCount(t.pages) && i + 1 < |t.inodes| ==>
      RecordAt(t, n + 1, i + 1) && RecordSector(t.pages, n + 1, i + 1) == FIRST_ENTRY_SECTOR
  {
    var size := EntriesPerBlock(t.pages);
    assert (i + 1) * size == i * size + size;
  }

  /** If all records of an inode block exist, it has a successor. */
  lemma NextExists(t: Tables, i: nat)
    requires TablesOk(t)
    requires i < |t.inodes| && (i + 1) * EntriesPerBlock(t.pages) <= |t.log|
    ensures i + 1 < |t.inodes|
  {
  }

  // ---------------------------------------------------------- the iterator

  class InodeIterator {
    var block: nat
    var nextBlock: nat
    var inodeIdx: nat
    var inodeBlockIdx: nat
    var sector: nat
    /** The number in the inode chain of the block the iterator is in. */
    ghost var at: nat

    constructor ()
    {
      block, nextBlock, inodeIdx, inodeBlockIdx, sector, at := 0, NO_BLOCK, 0, 0, FIRST_ENTRY_SECTOR, 0;
    }

    /** The iterator is at record `n`. */
    ghost predicate Place(t: Tables, n: nat)
      reads this
    {
      && t.pages >= 2
      && RecordAt(t, n, at)
      && block == t.inodes[at]
      && sector == RecordSector(t.pages, n, at)
    }

    /** Besides, what it remembers of the chain is up to date. */
    ghost predicate At(t: Tables, n: nat)
      reads this
    {
      Place(t, n) && nextBlock == NextIn(t.inodes, at)
    }

    /** It entered its block before the next one was linked, and has not seen that. */
    ghost predicate Stale(t: Tables, n: nat)
      reads this
    {
      Place(t, n) && nextBlock == NO_BLOCK && at + 1 < |t.inodes|
    }
  }

  /** Reading and opening change nothing that matters: what the methods below that only look keep. */
  twostate predicate OnlyLooked(fs: FlogFs)
    reads fs, fs.device, fs.prealloc, fs.prealloc.nodes
  {
    && fs.Holds()
    && fs.prealloc.lists.ready == old(fs.prealloc.lists.ready)
  }

  /** The block after `block` in its chain. */
  method UniversalGetNextBlock(fs: FlogFs, block: nat) returns (next: nat)
    requires fs.Holds()
    requires block != NO_BLOCK ==> block < |fs.t.disk| && fs.t.disk[block] != Free
    modifies fs`cache, fs.device`openBlock, fs.device`openPage, fs.prealloc, fs.prealloc.nodes
    ensures OnlyLooked(fs)
    ensures next == if block == NO_BLOCK then NO_BLOCK else fs.t.disk[block].next
  {
    hide TablesOk, RepresentsAll, Preallocator.Valid, Shaped;
    if block == NO_BLOCK {
      return block;
    }
    TailShows(fs.version, fs.device.blocks, fs.t, block);
    fs.OpenSector(block, TAIL_SECTOR);
    var h := fs.device.ReadHeader(TAIL_SECTOR);
    next := NextOf(h);
  }

  lemma InodeShows(t: Tables, i: nat)
    requires TablesOk(t) && i < |t.inodes|
    ensures t.inodes[i] < |t.disk| && t.disk[t.inodes[i]].InodeBlock?
    ensures t.disk[t.inodes[i]].next == NextIn(t.inodes, i) && t.disk[t.inodes[i]].idx == i
    ensures t.inodes[0] == 0
  {
    assert InodeOk(t, i);
  }

  lemma FirstRecord(version: nat, blocks: seq<Block>, t: Tables)
    requires TablesOk(t) && RepresentsAll(version, blocks, t)
    ensures RecordAt(t, 0, 0) && RecordSector(t.pages, 0, 0) == FIRST_ENTRY_SECTOR
    ensures |blocks| > 0 && |blocks[0]| == SectorCount(t.pages)
    ensures blocks[0][INIT_SECTOR].spare == Spare(KIND_INODE, 0)
  {
    assert InodeOk(t, 0);
    assert Represents(t.pages, version, blocks[0], t.disk[0]);
  }

  method IteratorInitialize(fs: FlogFs, iter: InodeIterator, inode0: nat)
    requires fs.Holds() && inode0 == 0
    modifies fs`cache, fs.device`openBlock, fs.device`openPage, fs.prealloc, fs.prealloc.nodes, iter
    ensures OnlyLooked(fs)
    ensures iter.At(fs.t, 0) && iter.inodeBlockIdx == 0 && iter.inodeIdx == 0
  {
    hide TablesOk, RepresentsAll, Preallocator.Valid, Shaped;
    FirstRecord(fs.version, fs.device.blocks, fs.t);
    InodeShows(fs.t, 0);
    iter.block := inode0;
    iter.at := 0;
    iter.nextBlock := UniversalGetNextBlock(fs, inode0);
    fs.OpenSector(inode0, INIT_SECTOR);
    var spare := fs.device.ReadSpare(INIT_SECTOR);
    iter.inodeBlockIdx := spare.value;
    iter.inodeIdx := 0;
    iter.sector := FIRST_ENTRY_SECTOR;
  }

  /** Advances past a record that exists. The result is false where flog_inode_iterator_next asserts
      that there is a next block: the last record of a block has been passed, and the iterator has
      not seen that another block was linked. */
  method IteratorNext(fs: FlogFs, iter: InodeIterator, ghost n: nat) returns (ok: bool)
    requires fs.Holds()
    requires iter.At(fs.t, n) || iter.Stale(fs.t, n)
    requires n < |fs.t.log|
    modifies fs`cache, fs.device`openBlock, fs.device`openPage, fs.prealloc, fs.prealloc.nodes, iter
    ensures OnlyLooked(fs)
    ensures fs.pages >= 2
    ensures ok <==> old(iter.At(fs.t, n)) || (old(iter.at) + 1) * EntriesPerBlock(fs.pages) != n + 1
    ensures ok && old(iter.At(fs.t, n)) ==> iter.At(fs.t, n + 1)
    ensures ok && old(iter.Stale(fs.t, n)) ==> iter.Stale(fs.t, n + 1) && iter.at == old(iter.at)
    ensures iter.inodeBlockIdx == old(iter.inodeBlockIdx) && iter.inodeIdx == old(iter.inodeIdx) + 1
  {
    hide TablesOk, RepresentsAll, Preallocator.Valid, Shaped;
    NextRecord(fs.t, n, iter.at);
    UpToDate(fs.t, iter, n);
    iter.sector := iter.sector + 2;
    iter.inodeIdx := iter.inodeIdx + 1;
    if iter.sector >= SectorCount(fs.pages) {
      if iter.nextBlock == NO_BLOCK {
        return false;
      }
      InodeShows(fs.t, iter.at + 1);
      iter.block := iter.nextBlock;
      iter.at := iter.at + 1;
      iter.nextBlock := UniversalGetNextBlock(fs, iter.block);
      iter.sector := FIRST_ENTRY_SECTOR;
    }
    ok := true;
  }

  /** An iterator that is up to date at the last record of a block, which exists, has seen the next block. */
  lemma UpToDate(t: Tables, iter: InodeIterator, n: nat)
    requires TablesOk(t) && n < |t.log|
    requires iter.Place(t, n)
    ensures !(iter.At(t, n) && iter.Stale(t, n))
    ensures (iter.at + 1) * EntriesPerBlock(t.pages) == n + 1 ==> iter.at + 1 < |t.inodes| && t.inodes[iter.at + 1] != NO_BLOCK
  {
    if iter.at + 1 < |t.inodes| {
      InodeShows(t, iter.at + 1);
    }
    if (iter.at + 1) * EntriesPerBlock(t.pages) == n + 1 {
      NextExists(t, iter.at);
      InodeShows(t, iter.at + 1);
    }
  }

  // ------------------------------------------------------- finding and listing

  /** The id of the record a name belongs to, if it belongs to a live one. */
  ghost predicate NotBefore(log: seq<Entry>, name: string, n: nat)
    requires n <= |log|
  {
    forall m {:trigger log[m]} | 0 <= m < n && !log[m].dead :: log[m].name != name
  }

  lemma FoundIsListed(t: Tables, name: string, n: nat)
    requires TablesOk(t) && n < |t.log| && !t.log[n].dead && t.log[n].name == name
    ensures name in Directory(t.log) && Directory(t.log)[name] == n + 1
    ensures n + 1 in t.chains && |t.chains[n + 1]| >= 1 && t.log[n].first == t.chains[n + 1][0] < |t.disk|
    ensures |t.disk| < NO_BLOCK
  {
    DirectoryHas(t.log, n);
    assert EntryOk(t, n);
    assert ChainOk(t, n + 1) && LinkOk(t, n + 1, t.chains[n + 1], 0);
  }

  lemma {:induction false} AbsentIfNotBefore(log: seq<Entry>, name: string)
    requires NotBefore(log, name, |log|)
    ensures name !in Directory(log)
  {
    if name in Directory(log) {
      DirectoryOnly(log, name);
    }
  }

  datatype FileFindResult = FileFindResult(id: nat, first: nat)

  /** What one record says about a name. */
  datatype Probe = End | Other | Hit(result: FileFindResult)

  /** Compares the record the iterator is at with a name. */
  method ProbeRecord(fs: FlogFs, name: string, iter: InodeIterator, ghost n: nat) returns (p: Probe)
    requires fs.Holds() && iter.At(fs.t, n) && n <= |fs.t.log|
    modifies fs`cache, fs.device`openBlock, fs.device`openPage, fs.prealloc, fs.prealloc.nodes
    ensures OnlyLooked(fs)
    ensures p.End? <==> n == |fs.t.log|
    ensures p.Hit? <==> n < |fs.t.log| && !fs.t.log[n].dead && fs.t.log[n].name == name
    ensures p.Hit? ==> p.result == FileFindResult(n + 1, fs.t.log[n].first)
  {
    hide TablesOk, RepresentsAll, Preallocator.Valid, Shaped;
    RecordShows(fs.version, fs.device.blocks, fs.t, n, iter.at);
    RecordIdBounded(fs.t);
    InodeShows(fs.t, iter.at);
    fs.OpenSector(iter.block, iter.sector);
    var h := fs.device.ReadHeader(iter.sector);
    if AllocatedId(h) == ERASED32 {
      return Probe.End;
    }
    if h.name != name {
      return Other;
    }
    fs.OpenSector(iter.block, iter.sector + 1);
    var inv := fs.device.ReadHeader(iter.sector + 1);
    p := if InvalidatedAt(inv) != ERASED32 then Other else Hit(FileFindResult(h.id, h.first));
  }

  /** Looks for the live record of `name`. A miss leaves the iterator at the first free record. */
  method FindFile(fs: FlogFs, name: string, iter: InodeIterator) returns (found: FileFindResult, ghost n: nat)
    requires fs.Holds() && fs.inode0 == 0
    modifies fs`cache, fs.device`openBlock, fs.device`openPage, fs.prealloc, fs.prealloc.nodes, iter
    ensures OnlyLooked(fs)
    ensures iter.At(fs.t, n) && iter.inodeBlockIdx == 0
    ensures found.first != NO_BLOCK <==> name in Directory(fs.t.log)
    ensures name !in Directory(fs.t.log) ==> n == |fs.t.log|
    ensures name in Directory(fs.t.log) ==>
      && Directory(fs.t.log)[name] == found.id == n + 1
      && found.id in fs.t.chains && |fs.t.chains[found.id]| >= 1
      && found.first == fs.t.chains[found.id][0]
  {
    hide FlogFs.Holds, InodeIterator.At, Directory;
    n := 0;
    IteratorInitialize(fs, iter, fs.inode0);
    while true
      invariant OnlyLooked(fs)
      invariant iter.At(fs.t, n) && iter.inodeBlockIdx == 0
      invariant n <= |fs.t.log|
      invariant NotBefore(fs.t.log, name, n)
      decreases |fs.t.log| - n
    {
      var p := ProbeRecord(fs, name, iter, n);
      match p {
        case End =>
          AbsentIfNotBefore(fs.t.log, name);
          return FileFindResult(0, NO_BLOCK), n;
        case Hit(result) =>
          FoundInVolume(fs, name, n);
          return result, n;
        case Other =>
          var ok := IteratorNext(fs, iter, n);
          assert ok;
          n := n + 1;
      }
    }
  }

  lemma FoundInVolume(fs: FlogFs, name: string, n: nat)
    requires fs.Holds() && n < |fs.t.log| && !fs.t.log[n].dead && fs.t.log[n].name == name
    ensures name in Directory(fs.t.log) && Directory(fs.t.log)[name] == n + 1
    ensures n + 1 in fs.t.chains && |fs.t.chains[n + 1]| >= 1
    ensures fs.t.log[n].first == fs.t.chains[n + 1][0] && fs.t.log[n].first != NO_BLOCK
  {
    FoundIsListed(fs.t, name, n);
  }

  lemma RecordIdBounded(t: Tables)
    requires TablesOk(t)
    ensures |t.log| < ERASED32
  {
  }

  /** The live names from record `n` on, in the order of creation. */
  function LiveNames(log: seq<Entry>, n: nat): seq<string>
    requires n <= |log|
    decreases |log| - n
  {
    if n == |log| then []
    else (if log[n].dead then [] else [log[n].name]) + LiveNames(log, n + 1)
  }

  /** All records up to number `end` exist, and those from `n` on are dead but for the last. */
  ghost predicate RunsInto(log: seq<Entry>, n: nat, end: nat) {
    end <= |log| && forall j | n <= j < end - 1 :: log[j].dead
  }

  /** Lists the names one at a time: the next live name at or after the iterator, if there is one.
      The result `ok` is false if IteratorNext gives up. */
  method LsIterate(fs: FlogFs, iter: InodeIterator, ghost n: nat) returns (ok: bool, more: bool, name: string, ghost m: nat)
    requires fs.Holds()
    requires iter.At(fs.t, n) || iter.Stale(fs.t, n)
    requires n <= |fs.t.log|
    modifies fs`cache, fs.device`openBlock, fs.device`openPage, fs.prealloc, fs.prealloc.nodes, iter
    ensures OnlyLooked(fs)
    ensures fs.pages >= 2
    ensures ok <==> old(iter.At(fs.t, n)) || !RunsInto(fs.t.log, n, (old(iter.at) + 1) * EntriesPerBlock(fs.pages))
    ensures n <= m <= |fs.t.log|
    ensures ok && old(iter.At(fs.t, n)) ==> iter.At(fs.t, m)
    ensures ok && old(iter.Stale(fs.t, n)) ==> iter.Stale(fs.t, m) && iter.at == old(iter.at)
    ensures ok && more ==>
      && n < m && LiveNames(fs.t.log, n) == [name] + LiveNames(fs.t.log, m)
      && !fs.t.log[m - 1].dead && fs.t.log[m - 1].name == name
    ensures ok && !more ==> m == |fs.t.log| && LiveNames(fs.t.log, n) == []
  {
    hide FlogFs.Holds, InodeIterator.At, InodeIterator.Stale;
    m := n;
    IteratorStands(fs, iter, n);
    ghost var end := (iter.at + 1) * EntriesPerBlock(fs.pages);
    while true
      invariant OnlyLooked(fs)
      invariant n <= m <= |fs.t.log|
      invariant iter.At(fs.t, m) || iter.Stale(fs.t, m)
      invariant old(iter.At(fs.t, n)) ==> iter.At(fs.t, m)
      invariant old(iter.Stale(fs.t, n)) ==> iter.Stale(fs.t, m) && iter.at == old(iter.at)
      invariant LiveNames(fs.t.log, n) == LiveNames(fs.t.log, m)
      invariant forall j | n <= j < m :: fs.t.log[j].dead
      decreases |fs.t.log| - m
    {
      IteratorStands(fs, iter, m);
      var r := ReadLsRecord(fs, iter, m);
      match r {
        case End =>
          return true, false, "", m;
        case Dead =>
          ok := IteratorNext(fs, iter, m);
          if !ok {
            return false, false, "", m;
          }
          m := m + 1;
        case Live(found) =>
          ok := IteratorNext(fs, iter, m);
          if !ok {
            return false, false, "", m;
          }
          m := m + 1;
          IteratorStands(fs, iter, m);
          return true, true, found, m;
      }
    }
  }

  lemma IteratorStands(fs: FlogFs, iter: InodeIterator, n: nat)
    requires fs.Holds()
    requires iter.At(fs.t, n) || iter.Stale(fs.t, n)
    ensures fs.pages >= 2 && iter.Place(fs.t, n)
    ensures n < (iter.at + 1) * EntriesPerBlock(fs.pages)
  {
    assert (iter.at + 1) * EntriesPerBlock(fs.pages) == iter.at * EntriesPerBlock(fs.pages) + EntriesPerBlock(fs.pages);
  }

  datatype LsRecord = End | Dead | Live(name: string)

  method ReadLsRecord(fs: FlogFs, iter: InodeIterator, ghost n: nat) returns (r: LsRecord)
    requires fs.Holds() && iter.Place(fs.t, n) && n <= |fs.t.log|
    modifies fs`cache, fs.device`openBlock, fs.device`openPage, fs.prealloc, fs.prealloc.nodes
    ensures OnlyLooked(fs)
    ensures r.End? <==> n == |fs.t.log|
    ensures n < |fs.t.log| ==> r == if fs.t.log[n].dead then Dead else Live(fs.t.log[n].name)
  {
    hide TablesOk, RepresentsAll, Preallocator.Valid, Shaped;
    RecordShows(fs.version, fs.device.blocks, fs.t, n, iter.at);
    RecordIdBounded(fs.t);
    InodeShows(fs.t, iter.at);
    fs.OpenSector(iter.block, iter.sector);
    var h := fs.device.ReadHeader(iter.sector);
    if AllocatedId(h) == ERASED32 {
      return LsRecord.End;
    }
    fs.OpenSector(iter.block, iter.sector + 1);
    var inv := fs.device.ReadHeader(iter.sector + 1);
    r := if InvalidatedAt(inv) == ERASED32 then Live(h.name) else Dead;
  }

  /** A complete listing, the way a caller uses the iterator. */
  method ListFiles(fs: FlogFs) returns (names: seq<string>)
    requires fs.Holds() && fs.inode0 == 0
    modifies fs`cache, fs.device`openBlock, fs.device`openPage, fs.prealloc, fs.prealloc.nodes
    ensures OnlyLooked(fs)
    ensures names == LiveNames(fs.t.log, 0)
  {
    hide FlogFs.Holds, InodeIterator.At, LiveNames;
    var iter := new InodeIterator();
    IteratorInitialize(fs, iter, fs.inode0);
    ghost var n := 0;
    var more, name;
    ghost var m;
    names := [];
    var ok;
    ok, more, name, m := LsIterate(fs, iter, n);
    while more
      invariant OnlyLooked(fs) && ok
      invariant n < m <= |fs.t.log| || !more
      invariant m <= |fs.t.log| && iter.At(fs.t, m)
      invariant LiveNames(fs.t.log, 0) == names + (if more then [name] + LiveNames(fs.t.log, m) else [])
      decreases |fs.t.log| - n, more
    {
      names := names + [name];
      n := m;
      ok, more, name, m := LsIterate(fs, iter, n);
    }
  }

  /** `name` is that of a live record from number `n` on. */
  ghost predicate ListedFrom(log: seq<Entry>, n: nat, name: string) {
    exists m :: n <= m < |log| && !log[m].dead && log[m].name == name
  }

  lemma {:induction false} LiveNamesAreListed(log: seq<Entry>, n: nat, name: string)
    requires n <= |log|
    ensures name in LiveNames(log, n) <==> ListedFrom(log, n, name)
    decreases |log| - n
  {
    if n < |log| {
      LiveNamesAreListed(log, n + 1, name);
      assert ListedFrom(log, n, name) <==> (!log[n].dead && log[n].name == name) || ListedFrom(log, n + 1, name);
    }
  }

  lemma {:induction false} LiveNamesDiffer(log: seq<Entry>, n: nat)
    requires n <= |log| && NamesUnique(log)
    ensures Distinct(LiveNames(log, n))
    decreases |log| - n
  {
    if n < |log| {
      LiveNamesDiffer(log, n + 1);
      LiveNamesAreListed(log, n + 1, log[n].name);
    }
  }

  /** The listing is the directory: every name of it once, and no other. */
  lemma LiveNamesAreDirectory(log: seq<Entry>, n: nat, name: string)
    requires n <= |log|
    requires NamesUnique(log)
    ensures name in LiveNames(log, n) <==> name in Directory(log) && Directory(log)[name] > n
    ensures Distinct(LiveNames(log, n))
  {
    hide LiveNames, Directory;
    LiveNamesAreListed(log, n, name);
    LiveNamesDiffer(log, n);
    if name in Directory(log) {
      DirectoryOnly(log, name);
    }
    if ListedFrom(log, n, name) {
      var m :| n <= m < |log| && !log[m].dead && log[m].name == name;
      DirectoryHas(log, m);
    }
  }
}
