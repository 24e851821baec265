// Finding free blocks: the statistics sector, priming the preallocator and
// allocating from it.
module Allocator {
  import opened Geometry
  import opened Flash
  import opened Tables
  import opened Image
  import opened Prealloc
  import opened FileSystem

  /** The next random number below `max`. */
  method FlashRandom(fs: FlogFs, max: nat) returns (r: nat)
    requires max > 0
    modifies fs`drawn
    ensures r == fs.draws(old(fs.drawn)) % max && fs.drawn == old(fs.drawn) + 1
  {
    r := fs.draws(fs.drawn) % max;
    fs.drawn := fs.drawn + 1;
  }

  method StatisticsRead(fs: FlogFs, block: nat) returns (h: Header)
    requires fs.Sound() && fs.Truthful(block, 0) && block < fs.blockCount
    modifies fs`cache, fs.device`openBlock, fs.device`openPage, fs.prealloc, fs.prealloc.nodes
    ensures fs.Base() && fs.device.Ready()
    ensures fs.device.openBlock == block && fs.device.openPage == 0
    ensures |fs.device.blocks[block]| > 0 && h == fs.device.blocks[block][STATISTICS_SECTOR].header
    ensures Reopened(old(fs.prealloc.lists), fs.prealloc.lists, block)
    ensures block !in old(fs.prealloc.lists.popped) ==> fs.prealloc.lists == old(fs.prealloc.lists)
  {
    fs.OpenSector(block, STATISTICS_SECTOR);
    h := fs.device.ReadHeader(STATISTICS_SECTOR);
  }

  /** Writes the statistics of an erased block. */
  method StatisticsWrite(fs: FlogFs, block: nat, keyValid: bool)
    requires fs.Base() && block < fs.blockCount
    requires fs.device.blocks[block] == BlankBlock(fs.pages)
    requires fs.version != 0
    modifies fs`cache, fs.device, fs.prealloc, fs.prealloc.nodes
    ensures fs.Base()
    ensures fs.device.blocks == old(fs.device.blocks)[block := WithStatistics(fs.pages, fs.version, keyValid)]
    ensures Reopened(old(fs.prealloc.lists), fs.prealloc.lists, block)
    ensures block !in old(fs.prealloc.lists.popped) ==> fs.prealloc.lists == old(fs.prealloc.lists)
  {
    hide Preallocator.Valid;
    ErasedRepresents(fs.pages, fs.version, keyValid);
    fs.OpenSector(block, STATISTICS_SECTOR);
    fs.device.WriteSector(STATISTICS_SECTOR, 0, Statistics(fs.version, keyValid), []);
  }

  /** Erases a block and writes its statistics. */
  method Renew(fs: FlogFs, block: nat, keyValid: bool)
    requires fs.Base() && block < fs.blockCount
    requires fs.version != 0
    modifies fs`cache, fs.device, fs.prealloc, fs.prealloc.nodes
    ensures fs.Base()
    ensures fs.device.blocks == old(fs.device.blocks)[block := WithStatistics(fs.pages, fs.version, keyValid)]
    ensures Reopened(old(fs.prealloc.lists), fs.prealloc.lists, block)
    ensures block !in old(fs.prealloc.lists.popped) ==> fs.prealloc.lists == old(fs.prealloc.lists)
  {
    hide Preallocator.Valid;
    fs.device.EraseBlock(block);
    StatisticsWrite(fs, block, keyValid);
  }

  // ---------------------------------------------------------- which blocks look free

  /** The last block of the dirty file: it is in a chain, but nothing in it has been committed. */
  ghost predicate IsDirtyBlock(t: Tables, b: nat) {
    && t.dirty.Some? && t.dirty.value in t.chains
    && |t.chains[t.dirty.value]| >= 1 && b == Last(t.chains[t.dirty.value])
  }

  /** What priming goes by: a block is adopted if its statistics are not of this volume and version,
      or else if it has no type. */
  predicate Adopts(version: nat, b: Block) {
    |b| > INIT_SECTOR &&
    (b[STATISTICS_SECTOR].header != Statistics(version, true) || b[INIT_SECTOR].spare.kind == KIND_UNALLOCATED)
  }

  /** The blocks that look free are the free ones and the one dirty block. */
  lemma AdoptsExactly(version: nat, blocks: seq<Block>, t: Tables, b: nat)
    requires TablesOk(t) && RepresentsAll(version, blocks, t)
    requires b < |t.disk|
    ensures |blocks[b]| == SectorCount(t.pages)
    ensures Adopts(version, blocks[b]) <==> t.disk[b] == Free || IsDirtyBlock(t, b)
    ensures t.disk[b] != Free ==> GoodStatistics(version, blocks[b][STATISTICS_SECTOR])
    ensures blocks[b][STATISTICS_SECTOR].header.NoHeader? || blocks[b][STATISTICS_SECTOR].header.Statistics?
    ensures IsDirtyBlock(t, b) ==> t.disk[b] != Free && b != 0
  {
    assert Represents(t.pages, version, blocks[b], t.disk[b]);
    assert OwnerOk(t, b);
    assert InodeOk(t, 0);
    if IsDirtyBlock(t, b) {
      var id := t.dirty.value;
      assert ChainOk(t, id) && LinkOk(t, id, t.chains[id], |t.chains[id]| - 1);
    }
    match t.disk[b]
    case Free =>
    case InodeBlock(_, _, _) =>
    case FileBlock(id, idx, _, _, _) =>
      assert ChainOk(t, id) && LinkOk(t, id, t.chains[id], idx);
      assert FileSectorOk(t.pages, blocks[b], INIT_SECTOR, t.disk[b]);
  }

  /** Blocks on the available list look free, and carry good statistics. */
  ghost predicate ReadyIn(version: nat, ready: seq<nat>, blocks: seq<Block>, t: Tables) {
    && |blocks| == |t.disk|
    && forall x | x in ready ::
      && x < |t.disk| && (t.disk[x] == Free || IsDirtyBlock(t, x))
      && |blocks[x]| > 0 && GoodStatistics(version, blocks[x][STATISTICS_SECTOR])
  }

  /** The flash holds the volume, and priming has made available what looks free. */
  ghost predicate Exposed(fs: FlogFs)
    reads fs, fs.device, fs.prealloc, fs.prealloc.nodes
  {
    fs.Holds() && ReadyIn(fs.version, fs.prealloc.lists.ready, fs.device.blocks, fs.t)
  }

  /** With no dirty file, what looks free is free. */
  lemma NothingExposed(fs: FlogFs)
    ensures Primable(fs) <==> Exposed(fs) && fs.t.dirty == None
  {
  }

  /** A free block renewed with a valid key changes the meaning of nothing. */
  lemma RenewKeeps(version: nat, ready: seq<nat>, blocks: seq<Block>, t: Tables, b: nat)
    requires t.pages >= 2
    requires RepresentsAll(version, blocks, t) && ReadyIn(version, ready, blocks, t)
    requires b < |t.disk| && t.disk[b] == Free
    ensures var after := blocks[b := WithStatistics(t.pages, version, true)];
      RepresentsAll(version, after, t) && ReadyIn(version, ready + [b], after, t)
  {
    ErasedRepresents(t.pages, version, true);
    var after := blocks[b := WithStatistics(t.pages, version, true)];
    forall x | 0 <= x < |after| ensures Represents(t.pages, version, after[x], t.disk[x]) {
      assert x == b || Represents(t.pages, version, blocks[x], t.disk[x]);
    }
  }

  /** What priming relies on and keeps. */
  ghost predicate Primable(fs: FlogFs)
    reads fs, fs.device, fs.prealloc, fs.prealloc.nodes
  {
    && fs.Holds()
    && fs.t.dirty == None
    && ReadyOk(fs.version, fs.prealloc.lists.ready, fs.device.blocks, fs.t)
  }

  /** The blocks that look free. Block 0 is never looked at. */
  ghost function LooksFree(version: nat, blocks: seq<Block>): set<nat> {
    set b | 0 < b < |blocks| && Adopts(version, blocks[b])
  }

  /** What looking for free blocks comes to: the list of available blocks, and how many random numbers have been
      used. The blocks `looks` look free; `room` nodes are free, and at most `turns` blocks are looked at. */
  function Gather(looks: set<nat>, count: nat, draws: nat -> nat, from: nat, turns: nat, ready: seq<nat>, popped: seq<nat>, room: nat):
    (r: (seq<nat>, nat))
    requires count > 0
    decreases turns
  {
    if turns == 0 || room == 0 then (ready, from)
    else
      var b := draws(from) % count;
      if b in looks && b !in ready && b !in popped then
        Gather(looks, count, draws, from + 1, turns - 1, ready + [b], popped, room - 1)
      else
        Gather(looks, count, draws, from + 1, turns - 1, ready, popped, room)
  }

  /** Block `b` is one of those drawn. */
  ghost predicate DrawnIn(draws: nat -> nat, count: nat, from: nat, upTo: nat, b: nat)
    requires count > 0
  {
    exists k | from <= k < upTo :: draws(k) % count == b
  }

  /** The search goes on until there is no node left or all turns are used. Of the blocks drawn
      exactly those become available that look free and are not on a list, each once. */
  lemma {:induction false} GatherExactly(looks: set<nat>, count: nat, draws: nat -> nat, from: nat, turns: nat,
                                         ready: seq<nat>, popped: seq<nat>, room: nat)
    requires count > 0
    ensures var (found, upTo) := Gather(looks, count, draws, from, turns, ready, popped, room);
      && from <= upTo <= from + turns
      && ready <= found && |found| <= |ready| + room
      && (upTo == from + turns || |found| == |ready| + room)
      && (forall b :: b in found <==> b in ready || (b in looks && b !in popped && DrawnIn(draws, count, from, upTo, b)))
      && (Distinct(ready) ==> Distinct(found))
    decreases turns
  {
    if turns > 0 && room > 0 {
      var b := draws(from) % count;
      if b in looks && b !in ready && b !in popped {
        GatherExactly(looks, count, draws, from + 1, turns - 1, ready + [b], popped, room - 1);
      } else {
        GatherExactly(looks, count, draws, from + 1, turns - 1, ready, popped, room);
      }
      var upTo := Gather(looks, count, draws, from, turns, ready, popped, room).1;
      forall x ensures DrawnIn(draws, count, from, upTo, x) <==> x == b || DrawnIn(draws, count, from + 1, upTo, x) {
        DrawnFirst(draws, count, from, upTo, x);
      }
    }
  }

  /** One turn. */
  lemma GatherTurn(looks: set<nat>, count: nat, draws: nat -> nat, from: nat, turns: nat, ready: seq<nat>, popped: seq<nat>, room: nat)
    requires count > 0 && turns > 0 && room > 0
    ensures var b := draws(from) % count;
      Gather(looks, count, draws, from, turns, ready, popped, room) ==
      if b in looks && b !in ready && b !in popped
      then Gather(looks, count, draws, from + 1, turns - 1, ready + [b], popped, room - 1)
      else Gather(looks, count, draws, from + 1, turns - 1, ready, popped, room)
  {
  }

  lemma GatherDone(looks: set<nat>, count: nat, draws: nat -> nat, from: nat, turns: nat, ready: seq<nat>, popped: seq<nat>, room: nat)
    requires count > 0 && (turns == 0 || room == 0)
    ensures Gather(looks, count, draws, from, turns, ready, popped, room) == (ready, from)
  {
  }

  /** What is found is not pending. */
  lemma GatherApart(looks: set<nat>, count: nat, draws: nat -> nat, from: nat, turns: nat, ready: seq<nat>, popped: seq<nat>, room: nat)
    requires count > 0
    ensures forall b :: b in Gather(looks, count, draws, from, turns, ready, popped, room).0 && b !in ready ==> b !in popped
  {
    GatherExactly(looks, count, draws, from, turns, ready, popped, room);
  }

  lemma DrawnFirst(draws: nat -> nat, count: nat, from: nat, upTo: nat, b: nat)
    requires count > 0 && from < upTo
    ensures DrawnIn(draws, count, from, upTo, b) <==> draws(from) % count == b || DrawnIn(draws, count, from + 1, upTo, b)
  {
    if k :| from <= k < upTo && draws(k) % count == b {
      assert k == from || DrawnIn(draws, count, from + 1, upTo, b);
    }
    if k :| from + 1 <= k < upTo && draws(k) % count == b {
      assert DrawnIn(draws, count, from, upTo, b);
    }
    assert draws(from) % count == b ==> DrawnIn(draws, count, from, upTo, b);
  }

  /** The blocks new on the list have been erased unless their statistics were good; no other has been written. */
  ghost predicate Prepared(pages: nat, version: nat, before: seq<Block>, after: seq<Block>, had: seq<nat>, has: seq<nat>) {
    && pages >= 1
    && |after| == |before|
    && forall b | 0 <= b < |after| ::
      after[b] == if b in has && b !in had && !HasGoodStatistics(version, before[b]) then WithStatistics(pages, version, true)
                  else before[b]
  }

  ghost predicate HasGoodStatistics(version: nat, b: Block) {
    |b| > 0 && GoodStatistics(version, b[STATISTICS_SECTOR])
  }

  /** Blocks in use and blocks that are pending keep their contents. */
  ghost predicate InUseKept(t: Tables, popped: seq<nat>, before: seq<Block>, after: seq<Block>) {
    && |after| == |before| == |t.disk|
    && forall b | 0 <= b < |before| && (t.disk[b] != Free || b in popped) :: after[b] == before[b]
  }

  /** All blocks in use carry good statistics. */
  ghost predicate UsedAreGood(t: Tables, version: nat, blocks: seq<Block>) {
    |blocks| == |t.disk| && forall b | 0 <= b < |blocks| && t.disk[b] != Free :: HasGoodStatistics(version, blocks[b])
  }

  lemma UsedHaveStatistics(t: Tables, version: nat, blocks: seq<Block>)
    requires TablesOk(t) && RepresentsAll(version, blocks, t)
    ensures UsedAreGood(t, version, blocks)
  {
    forall b | 0 <= b < |blocks| && t.disk[b] != Free ensures HasGoodStatistics(version, blocks[b]) {
      AdoptsExactly(version, blocks, t, b);
    }
  }

  /** So nothing in use or pending has been erased. */
  lemma OnlyFreePrepared(t: Tables, pages: nat, version: nat, blocks: seq<Block>, after: seq<Block>,
                         had: seq<nat>, has: seq<nat>, popped: seq<nat>)
    requires UsedAreGood(t, version, blocks)
    requires Prepared(pages, version, blocks, after, had, has)
    requires forall b | b in has && b !in had :: b !in popped
    ensures InUseKept(t, popped, blocks, after)
  {
  }

  lemma PreparedMore(pages: nat, version: nat, b0: seq<Block>, b1: seq<Block>, b2: seq<Block>, r0: seq<nat>, r1: seq<nat>, r2: seq<nat>)
    requires Prepared(pages, version, b0, b1, r0, r1) && Prepared(pages, version, b1, b2, r1, r2)
    requires r0 <= r1 <= r2
    ensures Prepared(pages, version, b0, b2, r0, r2)
  {
    forall b ensures b in r0 ==> b in r1 {
      if b in r0 {
        var i :| 0 <= i < |r0| && r0[i] == b;
        assert r1[i] == b;
      }
    }
    forall b ensures b in r1 ==> b in r2 {
      if b in r1 {
        var i :| 0 <= i < |r1| && r1[i] == b;
        assert r2[i] == b;
      }
    }
  }

  lemma PreparedNothing(pages: nat, version: nat, blocks: seq<Block>, ready: seq<nat>)
    requires pages >= 1
    ensures Prepared(pages, version, blocks, blocks, ready, ready)
  {
  }

  /** Puts a block that looks free on the available list, erased first unless its statistics are good. */
  method Adopt(fs: FlogFs, block: nat, good: bool)
    requires Exposed(fs)
    requires block < fs.blockCount && block < |fs.t.disk|
    requires fs.t.disk[block] == Free || (good && IsDirtyBlock(fs.t, block))
    requires block < |fs.device.blocks|
    requires good <==> HasGoodStatistics(fs.version, fs.device.blocks[block])
    requires block !in fs.prealloc.lists.ready && block !in fs.prealloc.lists.popped
    requires fs.prealloc.lists.free != []
    modifies fs`cache, fs.device, fs.prealloc, fs.prealloc.nodes
    ensures Exposed(fs)
    ensures fs.prealloc.lists == Pushed(old(fs.prealloc.lists), block)
    ensures Prepared(fs.pages, fs.version, old(fs.device.blocks), fs.device.blocks,
                     old(fs.prealloc.lists.ready), fs.prealloc.lists.ready)
  {
    hide TablesOk, Preallocator.Valid, ReadyIn, RepresentsAll, WithStatistics, IsDirtyBlock;
    if good {
      ReadyMore(fs.version, fs.prealloc.lists.ready, fs.device.blocks, fs.t, block);
    } else {
      RenewKeeps(fs.version, fs.prealloc.lists.ready, fs.device.blocks, fs.t, block);
      Renew(fs, block, true);
    }
    fs.prealloc.Push(block);
  }

  /** The draw makes the block available: it is not block 0, looks free and is not on a list yet. */
  ghost predicate Taking(version: nat, blocks: seq<Block>, lists: Lists, block: nat) {
    && block in LooksFree(version, blocks)
    && block !in lists.ready && block !in lists.popped
  }

  /** One attempt to make `block` available: it is, exactly if it looks free and is not on a list yet. */
  method PrimeTry(fs: FlogFs, block: nat)
    requires Exposed(fs)
    requires block < fs.blockCount
    requires fs.prealloc.lists.free != []
    modifies fs`cache, fs.device, fs.prealloc, fs.prealloc.nodes
    ensures Exposed(fs)
    ensures fs.prealloc.lists == if Taking(fs.version, old(fs.device.blocks), old(fs.prealloc.lists), block)
                                 then Pushed(old(fs.prealloc.lists), block) else old(fs.prealloc.lists)
    ensures Prepared(fs.pages, fs.version, old(fs.device.blocks), fs.device.blocks,
                     old(fs.prealloc.lists.ready), fs.prealloc.lists.ready)
  {
    hide TablesOk, Preallocator.Valid, ReadyIn, RepresentsAll, IsDirtyBlock, WithStatistics;
    if block == 0 {
      return;
    }
    var known := fs.prealloc.Contains(block);
    if known {
      return;
    }
    AdoptsExactly(fs.version, fs.device.blocks, fs.t, block);
    fs.device.OpenPage(block, 0);
    var statistics := StatisticsRead(fs, block);
    var spare := fs.device.ReadSpare(INIT_SECTOR);
    fs.CloseSector();
    if statistics != Statistics(fs.version, true) {
      Adopt(fs, block, false);
    } else if spare.kind == KIND_UNALLOCATED {
      Adopt(fs, block, true);
    }
  }

  lemma ReadyMore(version: nat, ready: seq<nat>, blocks: seq<Block>, t: Tables, b: nat)
    requires ReadyIn(version, ready, blocks, t)
    requires b < |t.disk| && (t.disk[b] == Free || IsDirtyBlock(t, b))
    requires |blocks[b]| > 0 && GoodStatistics(version, blocks[b][STATISTICS_SECTOR])
    ensures ReadyIn(version, ready + [b], blocks, t)
  {
  }

  /** A block that is not on the list looks as it did before the search. */
  lemma LooksSame(pages: nat, version: nat, before: seq<Block>, after: seq<Block>, had: seq<nat>, lists: Lists, block: nat)
    requires Prepared(pages, version, before, after, had, lists.ready)
    ensures Taking(version, after, lists, block) <==>
            block in LooksFree(version, before) && block !in lists.ready && block !in lists.popped
  {
    hide Adopts, WithStatistics;
  }

  /** The list of available blocks and the position in the stream of random numbers. */
  ghost function Stock(fs: FlogFs): (seq<nat>, nat)
    reads fs, fs.prealloc
  {
    (fs.prealloc.lists.ready, fs.drawn)
  }

  /** Looks at up to 63 random blocks for ones to make available, as long as there are free nodes. */
  method Prime(fs: FlogFs)
    requires Exposed(fs)
    modifies fs`cache, fs`drawn, fs.device, fs.prealloc, fs.prealloc.nodes
    ensures Exposed(fs)
    ensures fs.t.dirty == None ==> Primable(fs)
    ensures fs.blockCount > 0
    ensures Stock(fs) == Gather(LooksFree(fs.version, old(fs.device.blocks)), fs.blockCount, fs.draws, old(fs.drawn), 63,
                                old(fs.prealloc.lists.ready), old(fs.prealloc.lists.popped), |old(fs.prealloc.lists.free)|)
    ensures fs.prealloc.lists.popped == old(fs.prealloc.lists.popped)
    ensures Prepared(fs.pages, fs.version, old(fs.device.blocks), fs.device.blocks,
                     old(fs.prealloc.lists.ready), fs.prealloc.lists.ready)
    ensures InUseKept(fs.t, old(fs.prealloc.lists.popped), old(fs.device.blocks), fs.device.blocks)
  {
    hide TablesOk, Preallocator.Valid, ReadyOk, ReadyIn, RepresentsAll, InUseKept, Prepared, Taking, LooksFree,
      UsedAreGood, Gather;
    HoldsBlocks(fs);
    ghost var blocks, had := fs.device.blocks, fs.prealloc.lists.ready;
    ghost var looks := LooksFree(fs.version, blocks);
    PreparedNothing(fs.pages, fs.version, blocks, had);
    UsedHaveStatistics(fs.t, fs.version, blocks);
    var tries := 64;
    var full := fs.prealloc.IsFull();
    while !full && tries > 1
      invariant Exposed(fs)
      invariant 1 <= tries <= 64
      invariant full <==> fs.prealloc.lists.free == []
      invariant fs.prealloc.lists.popped == old(fs.prealloc.lists.popped)
      invariant had <= fs.prealloc.lists.ready
      invariant Prepared(fs.pages, fs.version, blocks, fs.device.blocks, had, fs.prealloc.lists.ready)
      invariant Gather(looks, fs.blockCount, fs.draws, old(fs.drawn), 63, had, old(fs.prealloc.lists.popped), |old(fs.prealloc.lists.free)|) ==
                Gather(looks, fs.blockCount, fs.draws, fs.drawn, tries - 1, fs.prealloc.lists.ready, fs.prealloc.lists.popped,
                       |fs.prealloc.lists.free|)
      decreases tries
    {
      tries := tries - 1;
      ghost var lists, now := fs.prealloc.lists, fs.device.blocks;
      var block := FlashRandom(fs, fs.blockCount);
      GatherTurn(looks, fs.blockCount, fs.draws, fs.drawn - 1, tries, lists.ready, lists.popped, |lists.free|);
      LooksSame(fs.pages, fs.version, blocks, now, had, lists, block);
      PrimeTry(fs, block);
      PreparedMore(fs.pages, fs.version, blocks, now, fs.device.blocks, had, lists.ready, fs.prealloc.lists.ready);
      full := fs.prealloc.IsFull();
    }
    NothingExposed(fs);
    GatherDone(looks, fs.blockCount, fs.draws, fs.drawn, tries - 1, fs.prealloc.lists.ready, fs.prealloc.lists.popped,
               |fs.prealloc.lists.free|);
    GatherApart(looks, fs.blockCount, fs.draws, old(fs.drawn), 63, had, old(fs.prealloc.lists.popped), |old(fs.prealloc.lists.free)|);
    OnlyFreePrepared(fs.t, fs.pages, fs.version, blocks, fs.device.blocks, had, fs.prealloc.lists.ready, fs.prealloc.lists.popped);
  }

  lemma HoldsBlocks(fs: FlogFs)
    requires fs.Holds()
    ensures fs.blockCount > 0 && fs.pages >= 2
  {
    DiskNotEmpty(fs.t);
  }

  lemma DiskNotEmpty(t: Tables)
    requires TablesOk(t)
    ensures |t.disk| > 0 && t.disk[0].InodeBlock?
  {
    assert InodeOk(t, 0);
  }

  /** A list of available blocks that was empty is empty. */
  twostate predicate StaysEmpty(fs: FlogFs)
    reads fs.prealloc
  {
    old(fs.prealloc.lists.ready) == [] ==> fs.prealloc.lists.ready == []
  }

  /** The block just taken is neither in use nor available to anybody else. */
  ghost predicate Taken(fs: FlogFs, block: nat)
    reads fs, fs.device, fs.prealloc, fs.prealloc.nodes
  {
    && block < |fs.t.disk| && block < |fs.device.blocks|
    && fs.t.disk[block] == Free
    && block !in fs.prealloc.lists.ready
    && |fs.device.blocks[block]| > 0
    && GoodStatistics(fs.version, fs.device.blocks[block][STATISTICS_SECTOR])
  }

  lemma PoppedNotReady(p: Preallocator, block: nat)
    requires p.Valid()
    requires block in p.lists.popped
    ensures block !in p.lists.ready
  {
  }

  lemma ReadyTail(version: nat, ready: seq<nat>, blocks: seq<Block>, t: Tables)
    requires ReadyOk(version, ready, blocks, t) && ready != []
    ensures ReadyOk(version, ready[1..], blocks, t)
    ensures ready[0] < |t.disk| && t.disk[ready[0]] == Free
    ensures |blocks[ready[0]]| > 0 && GoodStatistics(version, blocks[ready[0]][STATISTICS_SECTOR])
  {
    assert ready[0] in ready;
    assert forall x | x in ready[1..] :: x in ready;
  }

  ghost function FreeBlocks(disk: seq<AbstractBlock>): set<nat> {
    set b | 0 < b < |disk| && disk[b] == Free
  }

  /** With no dirty file, what looks free is free. */
  lemma LooksAreFree(t: Tables, version: nat, blocks: seq<Block>)
    requires TablesOk(t) && t.dirty == None && RepresentsAll(version, blocks, t)
    ensures LooksFree(version, blocks) == FreeBlocks(t.disk)
  {
    hide Adopts;
    forall b | 0 < b < |blocks| ensures Adopts(version, blocks[b]) <==> t.disk[b] == Free {
      AdoptsExactly(version, blocks, t, b);
    }
  }

  /** What becomes of the list `had` when a block is taken off it: the others stay, and if there are
      none, blocks are drawn until 63 have been looked at or no node is left. `popped` are the pending
      blocks then, and `size` is the number of nodes. */
  ghost predicate Restocked(disk: seq<AbstractBlock>, draws: nat -> nat, from: nat, size: nat, had: seq<nat>,
                            popped: seq<nat>, stock: (seq<nat>, nat)) {
    && had != [] && |disk| > 0 && |popped| <= size
    && stock == if |had| > 1 then (had[1..], from)
                else Gather(FreeBlocks(disk), |disk|, draws, from, 63, [], popped, size - |popped|)
  }

  /** Takes the oldest available block, and primes the list if that was the last one. The block
      on the list is always a real one, so flog_allocate_block never needs a second turn of its loop. */
  method AllocateBlock(fs: FlogFs) returns (block: nat)
    requires Primable(fs)
    modifies fs`cache, fs`drawn, fs.device, fs.prealloc, fs.prealloc.nodes
    ensures Primable(fs)
    ensures block == NO_BLOCK <==> old(fs.prealloc.lists.ready) == []
    ensures block == NO_BLOCK ==> fs.prealloc.lists == old(fs.prealloc.lists) && fs.drawn == old(fs.drawn)
    ensures block != NO_BLOCK ==> Taken(fs, block) && block == old(fs.prealloc.lists.ready)[0]
    ensures block != NO_BLOCK ==>
      && fs.prealloc.lists.popped == old(fs.prealloc.lists.popped) + [block]
      && Restocked(fs.t.disk, fs.draws, old(fs.drawn), fs.prealloc.nodes.Length, old(fs.prealloc.lists.ready),
                   fs.prealloc.lists.popped, Stock(fs))
    ensures Prepared(fs.pages, fs.version, old(fs.device.blocks), fs.device.blocks,
                     old(fs.prealloc.lists.ready), fs.prealloc.lists.ready)
    ensures InUseKept(fs.t, [], old(fs.device.blocks), fs.device.blocks)
  {
    hide TablesOk, Preallocator.Valid, ReadyOk, RepresentsAll, Prepared, FreeBlocks, LooksFree, Gather;
    HoldsBlocks(fs);
    PreparedNothing(fs.pages, fs.version, fs.device.blocks, fs.prealloc.lists.ready);
    var empty := fs.prealloc.IsEmpty();
    if empty {
      return NO_BLOCK;
    }
    ghost var blocks, had := fs.device.blocks, fs.prealloc.lists.ready;
    ReadyTail(fs.version, fs.prealloc.lists.ready, fs.device.blocks, fs.t);
    LooksAreFree(fs.t, fs.version, fs.device.blocks);
    block := fs.prealloc.Pop();
    NodesShared(fs.prealloc);
    NothingExposed(fs);
    empty := fs.prealloc.IsEmpty();
    if empty {
      Prime(fs);
    }
    PoppedNotReady(fs.prealloc, block);
    PreparedTail(fs.pages, fs.version, blocks, fs.device.blocks, had, fs.prealloc.lists.ready);
  }

  /** The block taken is not on the list any more. */
  lemma PreparedTail(pages: nat, version: nat, before: seq<Block>, after: seq<Block>, had: seq<nat>, has: seq<nat>)
    requires had != [] && pages >= 1
    requires had[0] !in has
    requires if |had| == 1 then Prepared(pages, version, before, after, [], has) else after == before && has == had[1..]
    ensures Prepared(pages, version, before, after, had, has)
  {
    hide WithStatistics;
    forall b | b in had && |had| == 1 ensures b == had[0] {
    }
    forall b | b in had[1..] ensures b in had {
    }
  }
}
