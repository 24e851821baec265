// Reading files: the order in which a reader visits sectors, what it gets to
// see of what has been committed, and seeking.
module Reader {
  import opened Geometry
  import opened Flash
  import opened Tables
  import opened TablesProofs
  import opened Refinement
  import opened Image
  import opened Prealloc
  import opened FileSystem
  import opened Counts
  import opened Writer
  import opened Inodes
  import opened OpenClose

  // ------------------------------------------------- what a reader gets to see

  function SlotsFrom(slots: seq<seq<byte>>, n: nat): seq<seq<byte>> {
    slots[Min(n, |slots|)..]
  }

  /** A reader that enters a block whose INIT sector is empty goes on behind the next sector. */
  function SeenSlots(slots: seq<seq<byte>>): seq<seq<byte>> {
    if slots != [] && slots[0] == [] then SlotsFrom(slots, 2) else slots
  }

  /** The block holds bytes that a reader who enters it does not see. */
  predicate Hides(slots: seq<seq<byte>>) {
    |slots| >= 2 && slots[0] == [] && slots[1] != []
  }

  function SlotsOf(disk: seq<AbstractBlock>, b: nat): seq<seq<byte>> {
    if b < |disk| && disk[b].FileBlock? then disk[b].slots else []
  }

  /** What a reader sees of a chain, from the start of its first block. */
  function Seen(disk: seq<AbstractBlock>, chain: seq<nat>): seq<byte> {
    if chain == [] then [] else Flatten(SeenSlots(SlotsOf(disk, chain[0]))) + Seen(disk, chain[1..])
  }

  /** What is ahead of a reader that has `remaining` bytes left of slot `j` of block number `i`. */
  function Rest(disk: seq<AbstractBlock>, chain: seq<nat>, i: nat, j: nat, remaining: nat): seq<byte>
    requires i < |chain|
  {
    var slots := SlotsOf(disk, chain[i]);
    (if j < |slots| && remaining <= |slots[j]| then slots[j][|slots[j]| - remaining..] else []) +
    Flatten(SlotsFrom(slots, j + 1)) + Seen(disk, chain[i + 1..])
  }

  lemma {:induction false} FlattenConcat(a: seq<seq<byte>>, b: seq<seq<byte>>)
    ensures Flatten(a + b) == Flatten(a) + Flatten(b)
  {
    if b == [] {
      assert a + b == a;
    } else {
      var front, last := b[..|b| - 1], b[|b| - 1];
      FlattenConcat(a, front);
      FlattenAppend(a + front, last);
      assert a + b == (a + front) + [last];
      Associates(Flatten(a), Flatten(front), last);
      FlattenAppend(front, last);
      assert front + [last] == b;
    }
  }

  lemma FlattenOne(s: seq<byte>)
    ensures Flatten([s]) == s
  {
    assert [s][..0] == [];
  }

  /** The data of the slots from `j` on begin with slot `j`. */
  lemma FlattenDrop(slots: seq<seq<byte>>, j: nat)
    requires j < |slots|
    ensures Flatten(SlotsFrom(slots, j)) == slots[j] + Flatten(SlotsFrom(slots, j + 1))
  {
    hide Flatten;
    FlattenOne(slots[j]);
    FlattenConcat([slots[j]], slots[j + 1..]);
    assert slots[j..] == [slots[j]] + slots[j + 1..];
  }

  lemma FlattenSplit(slots: seq<seq<byte>>, j: nat)
    requires j <= |slots|
    ensures Flatten(slots) == Flatten(slots[..j]) + Flatten(slots[j..])
  {
    hide Flatten;
    FlattenConcat(slots[..j], slots[j..]);
    assert slots == slots[..j] + slots[j..];
  }

  lemma {:induction false} CommittedConcat(disk: seq<AbstractBlock>, a: seq<nat>, b: seq<nat>)
    ensures Committed(disk, a + b) == Committed(disk, a) + Committed(disk, b)
  {
    hide BlockData;
    if b == [] {
      assert a + b == a;
    } else {
      var front, last := b[..|b| - 1], b[|b| - 1];
      CommittedConcat(disk, a, front);
      CommittedAppend(disk, a + front, last);
      assert a + b == (a + front) + [last];
      Associates(Committed(disk, a), Committed(disk, front), BlockData(disk, last));
    }
  }

  lemma Associates(a: seq<byte>, b: seq<byte>, c: seq<byte>)
    ensures (a + b) + c == a + (b + c)
  {
  }

  lemma CommittedOne(disk: seq<AbstractBlock>, b: nat)
    ensures Committed(disk, [b]) == Flatten(SlotsOf(disk, b))
  {
    assert [b][..0] == [];
    assert Committed(disk, []) == [];
    assert Committed(disk, [b]) == [] + BlockData(disk, b);
    assert Flatten([]) == [];
  }

  lemma CommittedFirst(disk: seq<AbstractBlock>, chain: seq<nat>)
    requires chain != []
    ensures Committed(disk, chain) == Flatten(SlotsOf(disk, chain[0])) + Committed(disk, chain[1..])
  {
    hide Committed, Flatten;
    CommittedConcat(disk, [chain[0]], chain[1..]);
    CommittedOne(disk, chain[0]);
    assert [chain[0]] + chain[1..] == chain;
  }

  lemma SeenOfBlock(slots: seq<seq<byte>>)
    ensures Hides(slots) ==> |Flatten(SeenSlots(slots))| < |Flatten(slots)|
    ensures !Hides(slots) ==> Flatten(SeenSlots(slots)) == Flatten(slots)
  {
    if slots != [] && slots[0] == [] {
      assert SlotsFrom(slots, 0) == slots;
      FlattenDrop(slots, 0);
      if |slots| >= 2 {
        FlattenDrop(slots, 1);
      } else {
        assert SlotsFrom(slots, 2) == [] == SlotsFrom(slots, 1);
      }
    }
  }

  ghost predicate NothingHidden(disk: seq<AbstractBlock>, chain: seq<nat>) {
    forall i | 0 <= i < |chain| :: !Hides(SlotsOf(disk, chain[i]))
  }

  lemma {:induction false} SeenOrHidden(disk: seq<AbstractBlock>, chain: seq<nat>)
    ensures NothingHidden(disk, chain) ==> Seen(disk, chain) == Committed(disk, chain)
    ensures !NothingHidden(disk, chain) ==> |Seen(disk, chain)| < |Committed(disk, chain)|
  {
    if chain != [] {
      var rest := chain[1..];
      SeenOfBlock(SlotsOf(disk, chain[0]));
      SeenOrHidden(disk, rest);
      CommittedFirst(disk, chain);
      assert forall i | 0 <= i < |rest| :: rest[i] == chain[i + 1];
      if !NothingHidden(disk, chain) {
        var i :| 0 <= i < |chain| && Hides(SlotsOf(disk, chain[i]));
        assert i == 0 || rest[i - 1] == chain[i];
      }
    }
  }

  /** A reader sees all that has been committed exactly if no block hides anything. */
  lemma SeenIsCommitted(disk: seq<AbstractBlock>, chain: seq<nat>)
    ensures Seen(disk, chain) == Committed(disk, chain) <==> NothingHidden(disk, chain)
  {
    SeenOrHidden(disk, chain);
  }

  /** Data can be hidden: a file whose INIT sector is flushed empty, because another file has been
      created before anything was written, hides what the next sector holds. */
  lemma EarlyFlushHides(t: Tables, id: nat, data: seq<byte>)
    requires TablesOk(t) && t.dirty == Some(id) && Writable(t, id)
    requires |t.chains[id]| == 1 && t.bufs[id] == []
    requires 0 < |data| <= SECTOR_SIZE
    ensures Writable(FlushDirtyStep(t), id)
    ensures var u := CommitStep(FlushDirtyStep(t), id, data);
      ContentOf(u, id) == data && Seen(u.disk, u.chains[id]) == []
  {
    assert ChainOk(t, id) && LinkOk(t, id, t.chains[id], 0);
    var s := FlushDirtyStep(t);
    var u := CommitStep(s, id, data);
    var b := t.chains[id][0];
    assert t.bufs[id] + [] == [];
    assert t.disk[b].slots == [];
    assert s.disk[b].slots == [[]];
    assert s.bufs[id] + data == data;
    assert u.disk[b].slots == [[], data];
    SeenOfBlock(u.disk[b].slots);
    CommittedFirst(u.disk, u.chains[id]);
    FlattenConcat([[]], [data]);
    FlattenOne([]);
    FlattenOne(data);
    assert [[], data] == [[]] + [data];
    assert SlotsFrom(u.disk[b].slots, 2) == [];
  }

  // --------------------------------------------------------------- the reader

  datatype ReaderView = ReaderView(id: nat, block: nat, sector: nat, offset: nat, remaining: nat)

  /** A reader stands in slot `j` of block number `i` of its file, with `remaining` bytes to go. */
  ghost predicate Sees(t: Tables, v: ReaderView, i: nat, j: nat) {
    && t.pages >= 2
    && v.id in t.chains
    && i < |t.chains[v.id]| && v.block == t.chains[v.id][i]
    && v.block < |t.disk| && t.disk[v.block].FileBlock?
    && j < SlotCount(t.pages) && v.sector == SectorOf(t.pages, j)
    && var slots := t.disk[v.block].slots;
      && |slots| >= 1
      && (j < |slots| || (j == 1 && v.remaining == 0))
      && (v.remaining > 0 ==>
            v.remaining <= |slots[j]| && v.offset == HeaderSize(v.sector) + |slots[j]| - v.remaining)
  }

  class ReadFile {
    var readHead: word
    var firstBlock: nat
    var block: nat
    var sector: nat
    var offset: nat
    var remaining: nat
    var fileSize: word
    var id: nat
    /** The number of the block in the chain, and of the sector in the order of the block. */
    ghost var at: nat
    ghost var slot: nat

    constructor ()
    {
      readHead, firstBlock, block, sector, offset, remaining, fileSize, id := 0, 0, 0, 0, 0, 0, 0, 0;
      at, slot := 0, 0;
    }

    method Begin(id: nat, first: nat)
      modifies this
      ensures this.id == id && firstBlock == block == first && readHead == 0
    {
      this.id := id;
      readHead := 0;
      firstBlock := first;
      block := first;
    }

    ghost function View(): ReaderView
      reads this
    {
      ReaderView(id, block, sector, offset, remaining)
    }

    ghost predicate Stands(t: Tables)
      reads this
    {
      && Sees(t, View(), at, slot)
      && firstBlock == t.chains[id][0]
    }

    /** The reader is at the start of its file: it is fit for use exactly if the first sector of the
        file has been committed, else it takes an erased size for the size of that sector. */
    ghost predicate Starts(t: Tables)
      reads this
    {
      && id in t.chains && |t.chains[id]| >= 1
      && var first := t.chains[id][0];
        && first < |t.disk| && t.disk[first].FileBlock?
        && (t.disk[first].slots != [] ==> Stands(t) && Ahead(t) == Seen(t.disk, t.chains[id]))
        && (t.disk[first].slots == [] ==> !Stands(t) && sector == INIT_SECTOR && remaining == ERASED16)
    }

    /** What is still to be read. */
    ghost function Ahead(t: Tables): seq<byte>
      requires Stands(t)
      reads this
    {
      Rest(t.disk, t.chains[id], at, slot, remaining)
    }
  }

  // ------------------------------------------------------ readers stay in place

  lemma FlattenPrefix(a: seq<seq<byte>>, b: seq<seq<byte>>)
    requires a <= b
    ensures Flatten(a) <= Flatten(b)
  {
    hide Flatten;
    FlattenConcat(a, b[|a|..]);
    assert b == a + b[|a|..];
  }

  lemma DropPrefix(a: seq<seq<byte>>, b: seq<seq<byte>>, n: nat)
    requires a <= b
    ensures Flatten(SlotsFrom(a, n)) <= Flatten(SlotsFrom(b, n))
  {
    if n <= |a| {
      FlattenPrefix(SlotsFrom(a, n), SlotsFrom(b, n));
    } else {
      assert SlotsFrom(a, n) == [];
    }
  }

  /** Block number `i` of a chain whose data have only grown. */
  lemma BlockOf(t: Tables, u: Tables, id: nat, i: nat)
    requires TablesOk(t) && TablesOk(u) && Grown(t, u) && u.pages == t.pages
    requires id in t.chains && id in u.chains && i < |t.chains[id]|
    ensures |t.chains[id]| <= |u.chains[id]| && u.chains[id][i] == t.chains[id][i]
    ensures var b := t.chains[id][i];
      && b < |t.disk| && b < |u.disk| && t.disk[b].FileBlock? && u.disk[b].FileBlock?
      && t.disk[b].slots <= u.disk[b].slots
      && (i + 1 < |t.chains[id]| ==> t.disk[b].slots == u.disk[b].slots)
  {
    assert ChainGrown(t, u, id);
    assert t.chains[id][i] in t.chains[id];
    assert BlockGrown(t, u, t.chains[id][i]);
    assert ChainOk(t, id) && LinkOk(t, id, t.chains[id], i);
    assert ChainOk(u, id) && LinkOk(u, id, u.chains[id], i);
  }

  lemma {:induction false} SeenGrows(t: Tables, u: Tables, id: nat, i: nat)
    requires TablesOk(t) && TablesOk(u) && Grown(t, u) && u.pages == t.pages
    requires id in t.chains && id in u.chains && i <= |t.chains[id]| <= |u.chains[id]|
    ensures Seen(t.disk, t.chains[id][i..]) <= Seen(u.disk, u.chains[id][i..])
    decreases |t.chains[id]| - i
  {
    hide TablesOk, Grown, Flatten;
    var c, d := t.chains[id], u.chains[id];
    if i < |c| {
      BlockOf(t, u, id, i);
      SeenGrows(t, u, id, i + 1);
      var a, b := SlotsOf(t.disk, c[i]), SlotsOf(u.disk, d[i]);
      assert c[i..][1..] == c[i + 1..] && d[i..][1..] == d[i + 1..];
      if a != [] && a[0] == [] {
        DropPrefix(a, b, 2);
      } else if a != [] {
        FlattenPrefix(a, b);
      } else {
        assert Flatten(SeenSlots(a)) == [] by { FlattenNone(); }
      }
    }
  }

  lemma FlattenNone()
    ensures Flatten([]) == []
  {
  }

  /** Later commits, to this file or another one, leave a reader where it is, and only add to
      the end of what is ahead of it: nothing is lost and nothing comes twice. */
  lemma ReaderResumes(t: Tables, u: Tables, v: ReaderView, i: nat, j: nat)
    requires TablesOk(t) && TablesOk(u) && Grown(t, u) && u.pages == t.pages
    requires Sees(t, v, i, j) && v.id in u.chains
    ensures Sees(u, v, i, j)
    ensures u.chains[v.id][0] == t.chains[v.id][0]
    ensures Rest(t.disk, t.chains[v.id], i, j, v.remaining) <= Rest(u.disk, u.chains[v.id], i, j, v.remaining)
  {
    hide TablesOk, Grown, Flatten, Seen;
    BlockOf(t, u, v.id, i);
    BlockOf(t, u, v.id, 0);
    SeenGrows(t, u, v.id, i + 1);
    var c := t.chains[v.id];
    DropPrefix(t.disk[v.block].slots, u.disk[v.block].slots, j + 1);
    if i + 1 == |c| { SeenNone(t.disk, c[i + 1..]); }
    var a, b := t.disk[v.block].slots, u.disk[v.block].slots;
    PrefixesAdd(if j < |a| then a[j][|a[j]| - v.remaining..] else [],
                Flatten(SlotsFrom(a, j + 1)), Flatten(SlotsFrom(b, j + 1)), Seen(t.disk, c[i + 1..]), Seen(u.disk, u.chains[v.id][i + 1..]));
  }

  lemma SeenNone(disk: seq<AbstractBlock>, chain: seq<nat>)
    requires chain == []
    ensures Seen(disk, chain) == []
  {
  }

  lemma PrefixesAdd(x: seq<byte>, a: seq<byte>, b: seq<byte>, c: seq<byte>, d: seq<byte>)
    requires a <= b && c <= d
    requires a == b || c == []
    ensures x + a + c <= x + b + d
  {
  }

  // ------------------------------------------------------------------ opening

  /** The INIT sector of a file's block shows whose it is, once it has been written. */
  lemma FileInitShows(version: nat, blocks: seq<Block>, t: Tables, id: nat, i: nat)
    requires TablesOk(t) && RepresentsAll(version, blocks, t)
    requires id in t.chains && i < |t.chains[id]|
    ensures var b := t.chains[id][i];
      && b < |blocks| && |blocks[b]| == SectorCount(t.pages) && b < |t.disk| && t.disk[b].FileBlock?
      && (t.disk[b].slots != [] <==> blocks[b][INIT_SECTOR].header == FileInit(id))
      && (i + 1 < |t.chains[id]| ==> |t.disk[b].slots| == SlotCount(t.pages))
      && (i + 1 == |t.chains[id]| ==> |t.disk[b].slots| < SlotCount(t.pages))
  {
    var b := t.chains[id][i];
    assert ChainOk(t, id) && LinkOk(t, id, t.chains[id], i);
    assert Represents(t.pages, version, blocks[b], t.disk[b]);
    assert FileSectorOk(t.pages, blocks[b], INIT_SECTOR, t.disk[b]);
  }

  /** Adds up the sizes of the committed sectors of a block that is not complete. */
  method SumSectors(fs: FlogFs, block: nat, size0: word, ghost id: nat) returns (size: word)
    requires fs.Holds()
    requires id in fs.t.chains && |fs.t.chains[id]| >= 1 && block == Last(fs.t.chains[id])
    modifies fs`cache, fs.device`openBlock, fs.device`openPage, fs.prealloc, fs.prealloc.nodes
    ensures OnlyLooked(fs)
    ensures size == Add32(size0, |BlockData(fs.t.disk, block)|)
  {
    hide FlogFs.Holds, TablesOk;
    PagesOf(fs);
    LastIsOpenEnded(fs.t, id);
    var sector := INIT_SECTOR;
    size := size0;
    ghost var j := 0;
    ghost var slots := fs.t.disk[block].slots;
    assert slots[..0] == [] && Flatten([]) == [];
    while true
      invariant OnlyLooked(fs)
      invariant 0 <= j <= |slots| && sector == SectorOf(fs.pages, j)
      invariant size == Add32(size0, |Flatten(slots[..j])|)
      decreases |slots| - j
    {
      var spare := SpareOf(fs, block, sector, id, |fs.t.chains[id]| - 1, j);
      if InvalidSectorSpare(spare) {
        break;
      }
      FlattenMore(slots, j);
      AddTwice(size0, |Flatten(slots[..j])|, spare.value);
      size := Add32(size, spare.value);
      if sector == TAIL_SECTOR {
        j := j + 1;
        break;
      }
      sector := IncrementSector(fs.pages, sector);
      j := j + 1;
    }
    assert slots[..j] == slots;
  }

  /** The size of a file as a reader calculates it: completed blocks are skipped by the count in
      their TAIL sector, the last one is added up sector by sector. */
  method CalcFileSize(fs: FlogFs, first: nat, ghost id: nat) returns (ok: bool, size: word)
    requires fs.Holds()
    requires id in fs.t.chains && |fs.t.chains[id]| >= 1 && first == fs.t.chains[id][0]
    modifies fs`cache, fs.device`openBlock, fs.device`openPage, fs.prealloc, fs.prealloc.nodes
    ensures OnlyLooked(fs)
    ensures ok && size == SizeByTails(fs.t.disk, fs.t.chains[id]) % WORD32
  {
    hide TablesOk, RepresentsAll, Preallocator.Valid, Shaped;
    var block := first;
    size := 0;
    ghost var i := 0;
    ghost var c := fs.t.chains[id];
    while true
      invariant OnlyLooked(fs)
      invariant 0 <= i < |c| && block == c[i]
      invariant size == CountsBefore(fs.t.disk, c, i) % WORD32
      decreases |c| - i
    {
      FileTailShows(fs.version, fs.device.blocks, fs.t, id, i);
      fs.OpenSector(block, TAIL_SECTOR);
      var h := fs.device.ReadHeader(TAIL_SECTOR);
      if TailStamp(h) == ERASED32 {
        SumStep(CountsBefore(fs.t.disk, c, i), |BlockData(fs.t.disk, block)|);
        size := SumSectors(fs, block, size, id);
        return true, size;
      }
      SumStep(CountsBefore(fs.t.disk, c, i), h.count);
      size := Add32(size, h.count);
      if block == h.next {
        NextIsAnother(fs.t, id, i);
        return false, size;
      }
      block := h.next;
      i := i + 1;
    }
  }

  lemma NextIsAnother(t: Tables, id: nat, i: nat)
    requires TablesOk(t) && id in t.chains && i + 1 < |t.chains[id]|
    ensures t.chains[id][i] != t.chains[id][i + 1]
  {
    if t.chains[id][i] == t.chains[id][i + 1] { ChainsDisjoint(t, id, i, id, i + 1); }
  }

  /** Puts a reader at the start of a file: at the INIT sector, or if that says it holds nothing,
      in the sector after it, with nothing left to read there. */
  method StartReading(fs: FlogFs, file: ReadFile)
    requires fs.Holds()
    requires file.id in fs.t.chains && |fs.t.chains[file.id]| >= 1
    requires file.firstBlock == file.block == fs.t.chains[file.id][0]
    modifies fs`cache, fs.device`openBlock, fs.device`openPage, fs.prealloc, fs.prealloc.nodes
    modifies file`sector, file`offset, file`remaining, file`at, file`slot
    ensures OnlyLooked(fs)
    ensures file.Starts(fs.t)
  {
    hide FlogFs.Holds, ReadFile.Starts;
    PagesOf(fs);
    var spare := SpareOf(fs, file.block, INIT_SECTOR, file.id, 0, 0);
    if spare.value != 0 {
      file.sector := INIT_SECTOR;
      file.offset := INIT_HEADER_SIZE;
      file.at, file.slot := 0, 0;
    } else {
      spare := SpareOf(fs, file.block, 1, file.id, 0, 0);
      file.sector := IncrementSector(fs.pages, INIT_SECTOR);
      file.offset := 0;
      file.at, file.slot := 0, 1;
    }
    file.remaining := spare.value;
    NowStarts(fs.t, file);
  }

  lemma NowStarts(t: Tables, file: ReadFile)
    requires TablesOk(t) && file.id in t.chains && |t.chains[file.id]| >= 1
    requires file.firstBlock == file.block == t.chains[file.id][0] < |t.disk|
    requires t.disk[file.block].FileBlock?
    requires var slots := t.disk[file.block].slots;
      if slots == [] then file.sector == INIT_SECTOR && file.remaining == ERASED16
      else if slots[0] != [] then
        && file.View() == ReaderView(file.id, file.block, INIT_SECTOR, INIT_HEADER_SIZE, |slots[0]|)
        && file.at == 0 && file.slot == 0
      else
        && file.View() == ReaderView(file.id, file.block, 2, 0, 0)
        && file.at == 0 && file.slot == 1
    ensures file.Starts(t)
  {
    hide Rest, Seen, TablesOk;
    assert t.pages >= 2 by { TwoPages(t); }
    StartsAt(t.disk, t.chains[file.id]);
  }

  lemma StartsAt(disk: seq<AbstractBlock>, c: seq<nat>)
    requires c != []
    ensures var slots := SlotsOf(disk, c[0]);
      && (slots != [] && slots[0] != [] ==> Rest(disk, c, 0, 0, |slots[0]|) == Seen(disk, c))
      && (slots != [] && slots[0] == [] ==> Rest(disk, c, 0, 1, 0) == Seen(disk, c))
  {
    EntersAt(disk, c, 0);
    assert c[0..] == c;
  }

  /** What is ahead of a reader that enters block number `i` the way readers do. */
  lemma EntersAt(disk: seq<AbstractBlock>, c: seq<nat>, i: nat)
    requires i < |c|
    ensures var slots := SlotsOf(disk, c[i]);
      && (slots != [] && slots[0] != [] ==> Rest(disk, c, i, 0, |slots[0]|) == Seen(disk, c[i..]))
      && (slots != [] && slots[0] == [] ==> Rest(disk, c, i, 1, 0) == Seen(disk, c[i..]))
  {
    hide Flatten;
    var slots := SlotsOf(disk, c[i]);
    assert c[i..][1..] == c[i + 1..] && c[i..][0] == c[i];
    if slots != [] {
      FlattenDrop(slots, 0);
      assert SlotsFrom(slots, 0) == slots;
      assert slots[0][0..] == slots[0];
    }
    if |slots| > 1 {
      assert slots[1][|slots[1]|..] == [];
    }
  }

  method Prepare(fs: FlogFs, file: ReadFile, found: FileFindResult, ghost others: set<WriteFile>) returns (ok: bool)
    requires fs.Valid()
    requires fs.AllOpen(others)
    requires found.id in fs.t.chains && |fs.t.chains[found.id]| >= 1 && found.first == fs.t.chains[found.id][0]
    modifies fs`cache, fs.device`openBlock, fs.device`openPage, fs.prealloc, fs.prealloc.nodes, file
    ensures fs.Valid() && fs.AllOpen(others) && fs.prealloc.lists.ready == old(fs.prealloc.lists.ready)
    ensures ok && file.id == found.id && file.readHead == 0
    ensures file.Starts(fs.t)
    ensures file.fileSize == SizeByTails(fs.t.disk, fs.t.chains[file.id]) % WORD32
  {
    hide FlogFs.Base, TablesOk, RepresentsAll, SizeByTails, ReadFile.Starts, ReadyOk;
    file.Begin(found.id, found.first);
    ok, file.fileSize := CalcFileSize(fs, file.block, file.id);
    StartReading(fs, file);
  }

  /** Opens a file for reading. */
  method OpenRead(fs: FlogFs, file: ReadFile, name: string, ghost others: set<WriteFile>) returns (ok: bool)
    requires fs.Valid()
    requires fs.AllOpen(others)
    modifies fs`cache, fs.device`openBlock, fs.device`openPage, fs.prealloc, fs.prealloc.nodes, file
    ensures fs.Valid() && fs.AllOpen(others) && fs.prealloc.lists.ready == old(fs.prealloc.lists.ready)
    ensures ok <==> |name| < MAX_NAME && name in Directory(fs.t.log)
    ensures ok ==>
      && file.id == Directory(fs.t.log)[name] && file.readHead == 0
      && file.Starts(fs.t)
      && file.fileSize == SizeByTails(fs.t.disk, fs.t.chains[file.id]) % WORD32
  {
    hide FlogFs.Holds, Directory, SizeByTails, ReadFile.Starts, InodeIterator.At;
    if |name| >= MAX_NAME {
      return false;
    }
    var iter := new InodeIterator();
    var found, n := LookUp(fs, name, iter, others);
    if found.first == NO_BLOCK {
      return false;
    }
    ok := Prepare(fs, file, found, others);
  }

  // ------------------------------------------------------------------ reading

  /** With nothing left in its sector, a reader has the same ahead of it at the start of the next one. */
  lemma NextSlot(disk: seq<AbstractBlock>, c: seq<nat>, i: nat, j: nat)
    requires i < |c|
    ensures var slots := SlotsOf(disk, c[i]);
      && (j + 1 < |slots| ==> Rest(disk, c, i, j, 0) == Rest(disk, c, i, j + 1, |slots[j + 1]|))
      && (j + 1 >= |slots| ==> Rest(disk, c, i, j, 0) == Seen(disk, c[i + 1..]))
  {
    hide Seen, Flatten;
    var slots := SlotsOf(disk, c[i]);
    assert j < |slots| ==> slots[j][|slots[j]|..] == [];
    if j + 1 < |slots| {
      FlattenDrop(slots, j + 1);
      assert slots[j + 1][0..] == slots[j + 1];
    } else {
      assert SlotsFrom(slots, j + 1) == [];
      FlattenNone();
    }
  }

  lemma NothingSeen(disk: seq<AbstractBlock>, c: seq<nat>, i: nat)
    requires i <= |c| && (i < |c| ==> i + 1 == |c| && SlotsOf(disk, c[i]) == [])
    ensures Seen(disk, c[i..]) == []
  {
    FlattenNone();
    if i < |c| {
      assert c[i..][1..] == [];
    }
  }

  /** Some of what is ahead taken away. */
  lemma TakeAhead(disk: seq<AbstractBlock>, c: seq<nat>, i: nat, j: nat, remaining: nat, n: nat)
    requires i < |c|
    requires var slots := SlotsOf(disk, c[i]); j < |slots| && n <= remaining <= |slots[j]|
    ensures var s := SlotsOf(disk, c[i])[j];
      Rest(disk, c, i, j, remaining) ==
      s[|s| - remaining..|s| - remaining + n] + Rest(disk, c, i, j, remaining - n)
  {
    hide Seen, Flatten;
    var s := SlotsOf(disk, c[i])[j];
    assert s[|s| - remaining..] == s[|s| - remaining..|s| - remaining + n] + s[|s| - (remaining - n)..];
    TailsAssociate(s[|s| - remaining..|s| - remaining + n], s[|s| - (remaining - n)..],
                   Flatten(SlotsFrom(SlotsOf(disk, c[i]), j + 1)), Seen(disk, c[i + 1..]));
  }

  lemma TailsAssociate(a: seq<byte>, b: seq<byte>, c: seq<byte>, d: seq<byte>)
    ensures (a + b) + c + d == a + (b + c + d)
  {
  }

  /** The block that the TAIL sector of block number `i` links, and whether its INIT sector says
      that it is one of this file. */
  method FollowTail(fs: FlogFs, block: nat, id: nat, ghost i: nat) returns (next: nat, mine: bool)
    requires fs.Holds()
    requires id in fs.t.chains && i + 1 < |fs.t.chains[id]| && block == fs.t.chains[id][i]
    modifies fs`cache, fs.device`openBlock, fs.device`openPage, fs.prealloc, fs.prealloc.nodes
    ensures OnlyLooked(fs)
    ensures next == fs.t.chains[id][i + 1] && next < |fs.t.disk| && fs.t.disk[next].FileBlock?
    ensures mine <==> fs.t.disk[next].slots != []
    ensures !mine ==> i + 2 == |fs.t.chains[id]|
  {
    hide TablesOk, RepresentsAll, Preallocator.Valid, Shaped;
    FileTailShows(fs.version, fs.device.blocks, fs.t, id, i);
    FileInitShows(fs.version, fs.device.blocks, fs.t, id, i + 1);
    fs.OpenSector(block, TAIL_SECTOR);
    var tail := fs.device.ReadHeader(TAIL_SECTOR);
    next := tail.next;
    fs.OpenSector(next, INIT_SECTOR);
    var init := fs.device.ReadHeader(INIT_SECTOR);
    mine := init == FileInit(id);
  }

  /** The block behind number `i` of the file has a committed sector. */
  ghost predicate NextStarted(t: Tables, id: nat, i: nat) {
    id in t.chains && i + 1 < |t.chains[id]| && SlotsOf(t.disk, t.chains[id][i + 1]) != []
  }

  /** After the TAIL sector: the next block, if it has been started. */
  method NextBlock(fs: FlogFs, file: ReadFile) returns (more: bool)
    requires fs.Holds()
    requires file.Stands(fs.t) && file.remaining == 0 && file.sector == TAIL_SECTOR
    modifies fs`cache, fs.device`openBlock, fs.device`openPage, fs.prealloc, fs.prealloc.nodes
    modifies file`block, file`sector, file`offset, file`remaining, file`at, file`slot
    ensures OnlyLooked(fs)
    ensures file.Stands(fs.t) && file.Ahead(fs.t) == old(file.Ahead(fs.t))
    ensures more <==> NextStarted(fs.t, file.id, old(file.at))
    ensures more ==> file.at == old(file.at) + 1
    ensures !more ==> file.Ahead(fs.t) == [] && file.View() == old(file.View())
  {
    hide FlogFs.Holds, Rest, Seen, TablesOk, RepresentsAll;
    ghost var t, c, i := fs.t, fs.t.chains[file.id], file.at;
    LastSlot(fs, file);
    NextSlot(t.disk, c, i, file.slot);
    var next, mine := FollowTail(fs, file.block, file.id, i);
    if !mine {
      NothingSeen(t.disk, c, i + 1);
      return false;
    }
    EntersAt(t.disk, c, i + 1);
    file.block := next;
    var spare := SpareOf(fs, file.block, INIT_SECTOR, file.id, i + 1, 0);
    file.at := i + 1;
    file.sector := if spare.value == 0 then IncrementSector(fs.pages, INIT_SECTOR) else INIT_SECTOR;
    file.slot := if file.sector == INIT_SECTOR then 0 else 1;
    file.remaining := spare.value;
    file.offset := HeaderSize(file.sector);
    more := true;
  }

  lemma LastSlot(fs: FlogFs, file: ReadFile)
    requires fs.Holds() && file.Stands(fs.t)
    ensures fs.t.pages == fs.pages >= 2 && TablesOk(fs.t) && RepresentsAll(fs.version, fs.device.blocks, fs.t)
    ensures file.sector == TAIL_SECTOR ==>
      && file.slot == SlotCount(fs.pages) - 1 && file.slot + 1 == |fs.t.disk[file.block].slots|
      && file.at + 1 < |fs.t.chains[file.id]|
  {
    assert ChainOk(fs.t, file.id) && LinkOk(fs.t, file.id, fs.t.chains[file.id], file.at);
  }

  /** Moves a reader with nothing left in its sector to the next sector, if that has been committed. */
  method NextSector(fs: FlogFs, file: ReadFile) returns (more: bool)
    requires fs.Holds()
    requires file.Stands(fs.t) && file.remaining == 0
    modifies fs`cache, fs.device`openBlock, fs.device`openPage, fs.prealloc, fs.prealloc.nodes
    modifies file`block, file`sector, file`offset, file`remaining, file`at, file`slot
    ensures OnlyLooked(fs)
    ensures file.Stands(fs.t) && file.Ahead(fs.t) == old(file.Ahead(fs.t))
    ensures old(file.block) < |fs.t.disk| && fs.t.disk[old(file.block)].FileBlock?
    ensures more <==> if old(file.sector) == TAIL_SECTOR then NextStarted(fs.t, file.id, old(file.at))
                      else old(file.slot) + 1 < |fs.t.disk[old(file.block)].slots|
    ensures more ==> file.at > old(file.at) || (file.at == old(file.at) && file.slot > old(file.slot))
    ensures !more ==> file.Ahead(fs.t) == [] && file.View() == old(file.View())
  {
    hide FlogFs.Holds, Rest, Seen;
    LastSlot(fs, file);
    if file.sector == TAIL_SECTOR {
      more := NextBlock(fs, file);
    } else {
      more := NextInBlock(fs, file);
    }
  }

  method NextInBlock(fs: FlogFs, file: ReadFile) returns (more: bool)
    requires fs.Holds()
    requires file.Stands(fs.t) && file.remaining == 0 && file.sector != TAIL_SECTOR
    modifies fs`cache, fs.device`openBlock, fs.device`openPage, fs.prealloc, fs.prealloc.nodes
    modifies file`sector, file`offset, file`remaining, file`slot
    ensures OnlyLooked(fs)
    ensures file.Stands(fs.t) && file.Ahead(fs.t) == old(file.Ahead(fs.t))
    ensures file.block < |fs.t.disk| && fs.t.disk[file.block].FileBlock?
    ensures more <==> old(file.slot) + 1 < |fs.t.disk[file.block].slots|
    ensures more ==> file.slot == old(file.slot) + 1
    ensures !more ==> file.Ahead(fs.t) == [] && file.View() == old(file.View())
  {
    hide FlogFs.Holds, Rest, Seen, TablesOk, RepresentsAll;
    ghost var t, c, j := fs.t, fs.t.chains[file.id], file.slot;
    LastSlot(fs, file);
    NextSlot(t.disk, c, file.at, j);
    var sector := IncrementSector(fs.pages, file.sector);
    var spare := SpareOf(fs, file.block, sector, file.id, file.at, j + 1);
    if InvalidSectorSpare(spare) {
      IncompleteIsLast(t, file.id, file.at);
      NothingSeen(t.disk, c, file.at + 1);
      return false;
    }
    file.sector := sector;
    file.slot := j + 1;
    file.remaining := spare.value;
    file.offset := HeaderSize(sector);
    more := true;
  }

  lemma IncompleteIsLast(t: Tables, id: nat, i: nat)
    requires TablesOk(t) && id in t.chains && i < |t.chains[id]|
    ensures t.chains[id][i] < |t.disk| && t.disk[t.chains[id][i]].FileBlock?
    ensures |t.disk[t.chains[id][i]].slots| < SlotCount(t.pages) ==> i + 1 == |t.chains[id]|
  {
    assert ChainOk(t, id) && LinkOk(t, id, t.chains[id], i);
  }

  /** Reads `n` bytes of slot `j` of block number `i` of a file, from byte `k` of it on. */
  method BytesOf(fs: FlogFs, block: nat, sector: nat, offset: nat, n: nat, ghost id: nat, ghost i: nat, ghost j: nat, ghost k: nat)
    returns (data: seq<byte>)
    requires fs.Holds()
    requires id in fs.t.chains && i < |fs.t.chains[id]| && block == fs.t.chains[id][i]
    requires block < |fs.t.disk| && fs.t.disk[block].FileBlock?
    requires j < |fs.t.disk[block].slots| && j < SlotCount(fs.pages) && sector == SectorOf(fs.pages, j)
    requires offset == HeaderSize(sector) + k && k + n <= |fs.t.disk[block].slots[j]|
    modifies fs`cache, fs.device`openBlock, fs.device`openPage, fs.prealloc, fs.prealloc.nodes
    ensures OnlyLooked(fs)
    ensures data == fs.t.disk[block].slots[j][k..k + n]
  {
    hide TablesOk, RepresentsAll, Preallocator.Valid, Shaped;
    FileSpareShows(fs.version, fs.device.blocks, fs.t, id, i, j);
    SliceOfSlice(fs.device.blocks[block][sector].bytes, HeaderSize(sector), fs.t.disk[block].slots[j], k, n);
    fs.OpenSector(block, sector);
    data := fs.device.ReadBytes(sector, offset, n);
  }

  /** Reads `n` bytes of the sector the reader is in. */
  method ReadPiece(fs: FlogFs, file: ReadFile, n: nat) returns (data: seq<byte>)
    requires fs.Holds()
    requires file.Stands(fs.t) && 0 < n <= file.remaining
    modifies fs`cache, fs.device`openBlock, fs.device`openPage, fs.prealloc, fs.prealloc.nodes
    modifies file`offset, file`remaining, file`readHead
    ensures OnlyLooked(fs)
    ensures |data| == n
    ensures file.Stands(fs.t) && old(file.Ahead(fs.t)) == data + file.Ahead(fs.t)
    ensures file.remaining == old(file.remaining) - n
    ensures file.readHead == Add32(old(file.readHead), n)
  {
    hide FlogFs.Holds, TablesOk, RepresentsAll, Rest, Seen;
    LastSlot(fs, file);
    ghost var k := |fs.t.disk[file.block].slots[file.slot]| - file.remaining;
    TakeAhead(fs.t.disk, fs.t.chains[file.id], file.at, file.slot, file.remaining, n);
    data := BytesOf(fs, file.block, file.sector, file.offset, n, file.id, file.at, file.slot, k);
    file.offset := file.offset + n;
    file.remaining := file.remaining - n;
    file.readHead := Add32(file.readHead, n);
  }

  lemma SliceOfSlice(bytes: seq<byte>, h: nat, s: seq<byte>, k: nat, n: nat)
    requires h + |s| <= |bytes| && bytes[h..h + |s|] == s && k + n <= |s|
    ensures bytes[h + k..h + k + n] == s[k..k + n]
  {
    var part := bytes[h + k..h + k + n];
    forall x | 0 <= x < n ensures part[x] == s[k..k + n][x] {
      assert bytes[h..h + |s|][k + x] == s[k + x];
    }
  }

  /** Reads up to `nbytes` bytes: just the next ones that are ahead of the reader, as many as there are. */
  method Read(fs: FlogFs, file: ReadFile, nbytes: nat) returns (data: seq<byte>)
    requires fs.Holds()
    requires file.Stands(fs.t)
    modifies fs`cache, fs.device`openBlock, fs.device`openPage, fs.prealloc, fs.prealloc.nodes
    modifies file`block, file`sector, file`offset, file`remaining, file`readHead, file`at, file`slot
    ensures OnlyLooked(fs)
    ensures file.Stands(fs.t)
    ensures |data| == Min(nbytes, |old(file.Ahead(fs.t))|)
    ensures old(file.Ahead(fs.t)) == data + file.Ahead(fs.t)
    ensures file.readHead == Add32(old(file.readHead), |data|)
  {
    hide FlogFs.Holds, ReadFile.Stands, ReadFile.Ahead;
    ghost var ahead := file.Ahead(fs.t);
    InChain(fs, file);
    ghost var blocks, slots := |fs.t.chains[file.id]|, SlotCount(fs.pages);
    data := [];
    var left := nbytes;
    while left > 0
      invariant OnlyLooked(fs)
      invariant file.Stands(fs.t)
      invariant |data| + left == nbytes
      invariant ahead == data + file.Ahead(fs.t)
      invariant file.readHead == Add32(old(file.readHead), |data|)
      decreases left, blocks - file.at, slots - file.slot
    {
      InChain(fs, file);
      if file.remaining == 0 {
        var more := NextSector(fs, file);
        InChain(fs, file);
        if !more {
          break;
        }
      }
      var n := Min(left, file.remaining);
      if n > 0 {
        var piece := ReadPiece(fs, file, n);
        Associates(data, piece, file.Ahead(fs.t));
        AddTwice(old(file.readHead), |data|, n);
        data := data + piece;
        left := left - n;
      }
    }
  }

  lemma InChain(fs: FlogFs, file: ReadFile)
    requires fs.Holds() && file.Stands(fs.t)
    ensures fs.pages >= 2
    ensures file.id in fs.t.chains && file.at < |fs.t.chains[file.id]| && file.slot < SlotCount(fs.pages)
  {
  }

  /** Read-back: a reader at the start of a file whose writer has nothing buffered has just the
      content of the file ahead of it, if and only if no block hides anything. */
  lemma ReadsBack(t: Tables, file: ReadFile)
    requires file.Starts(t) && file.Stands(t)
    requires Buffered(t, file.id) == []
    ensures file.Ahead(t) == ContentOf(t, file.id) <==> NothingHidden(t.disk, t.chains[file.id])
  {
    hide Seen, Committed, Rest;
    SeenIsCommitted(t.disk, t.chains[file.id]);
    assert Committed(t.disk, t.chains[file.id]) + [] == Committed(t.disk, t.chains[file.id]);
  }
}
