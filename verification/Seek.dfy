// Seeking: a position is turned into a block, a sector and an offset, skipping
// completed blocks by the count in their TAIL sector.
module Seek {
  import opened Geometry
  import opened Flash
  import opened Tables
  import opened TablesProofs
  import opened Refinement
  import opened Image
  import opened Prealloc
  import opened FileSystem
  import opened Counts
  import opened Writer
  import opened Inodes
  import opened OpenClose
  import opened Reader

  /** The number of committed bytes before slot `j` of block number `i`. */
  function Before(disk: seq<AbstractBlock>, c: seq<nat>, i: nat, j: nat): nat
    requires i < |c|
  {
    |Committed(disk, c[..i])| + |Flatten(SlotsOf(disk, c[i])[..Min(j, |SlotsOf(disk, c[i])|)])|
  }

  /** Block number `i` takes this many bytes, and the file has at least the bytes up to its end. */
  lemma BlockEnds(disk: seq<AbstractBlock>, c: seq<nat>, i: nat)
    requires i < |c|
    ensures Committed(disk, c[..i + 1]) == Committed(disk, c[..i]) + Flatten(SlotsOf(disk, c[i]))
    ensures |Committed(disk, c[..i + 1])| <= |Committed(disk, c)|
    ensures Before(disk, c, i, 0) == |Committed(disk, c[..i])|
    ensures Before(disk, c, i, |SlotsOf(disk, c[i])|) == |Committed(disk, c[..i + 1])|
  {
    hide Committed;
    FlattenNone();
    var slots := SlotsOf(disk, c[i]);
    assert slots[..|slots|] == slots && slots[..0] == [];
    CommittedOne(disk, c[i]);
    CommittedConcat(disk, c[..i], [c[i]]);
    assert c[..i + 1] == c[..i] + [c[i]];
    CommittedConcat(disk, c[..i + 1], c[i + 1..]);
    assert c == c[..i + 1] + c[i + 1..];
  }

  lemma SlotEnds(disk: seq<AbstractBlock>, c: seq<nat>, i: nat, j: nat)
    requires i < |c| && j < |SlotsOf(disk, c[i])|
    ensures Before(disk, c, i, j + 1) == Before(disk, c, i, j) + |SlotsOf(disk, c[i])[j]|
    ensures Before(disk, c, i, j + 1) <= |Committed(disk, c)|
  {
    hide Committed, Flatten;
    var slots := SlotsOf(disk, c[i]);
    FlattenMore(slots, j);
    FlattenSplit(slots, j + 1);
    BlockEnds(disk, c, i);
    assert slots[..|slots|] == slots;
  }

  datatype Found = Found(sector: nat, offset: nat, remaining: nat)

  /** A walk of a file that fits in 32 bits arrives at block number `i` with its position right. */
  ghost predicate StartsAtData(t: Tables, id: nat, i: nat, start: nat)
    requires id in t.chains && i <= |t.chains[id]|
  {
    start == |Committed(t.disk, t.chains[id][..i])| && |Committed(t.disk, t.chains[id])| < WORD32
  }

  /** A place in a sector that has been committed. */
  ghost predicate Placed(t: Tables, id: nat, block: nat, f: Found, i: nat, j: nat) {
    && t.pages >= 2
    && id in t.chains && i < |t.chains[id]| && block == t.chains[id][i]
    && block < |t.disk| && t.disk[block].FileBlock?
    && j < |t.disk[block].slots| && j < SlotCount(t.pages)
    && f.sector == SectorOf(t.pages, j)
    && f.offset + f.remaining == |t.disk[block].slots[j]|
  }

  /** Slot `j` of block number `i` is the first one that ends at `position` or behind it. */
  ghost predicate FirstReaching(disk: seq<AbstractBlock>, c: seq<nat>, position: nat, i: nat, j: nat) {
    && i < |c| && j < |SlotsOf(disk, c[i])|
    && position <= Before(disk, c, i, j + 1)
    && ((i == 0 && j == 0) || Before(disk, c, i, j) < position)
  }

  /** The place of `position` in what has been committed: in the first sector that reaches it. */
  ghost predicate Located(t: Tables, id: nat, position: nat, block: nat, f: Found, i: nat, j: nat) {
    && Placed(t, id, block, f, i, j)
    && FirstReaching(t.disk, t.chains[id], position, i, j)
    && Before(t.disk, t.chains[id], i, j) + f.offset == position
  }

  lemma SlotsInOrder(slots: seq<seq<byte>>, j: nat, l: nat)
    requires j <= l <= |slots|
    ensures |Flatten(slots[..j])| <= |Flatten(slots[..l])|
  {
    hide Flatten;
    FlattenSplit(slots[..l], j);
    assert slots[..l][..j] == slots[..j];
  }

  lemma PrefixesInOrder(disk: seq<AbstractBlock>, c: seq<nat>, i: nat, k: nat)
    requires i <= k <= |c|
    ensures |Committed(disk, c[..i])| <= |Committed(disk, c[..k])|
  {
    hide Committed;
    CommittedConcat(disk, c[..i], c[i..k]);
    assert c[..k] == c[..i] + c[i..k];
  }

  /** What is before a later slot includes an earlier one. */
  lemma SlotsBefore(disk: seq<AbstractBlock>, c: seq<nat>, i: nat, j: nat, k: nat, l: nat)
    requires i < |c| && k < |c| && j < |SlotsOf(disk, c[i])| && l < |SlotsOf(disk, c[k])|
    requires i < k || (i == k && j < l)
    ensures Before(disk, c, i, j + 1) <= Before(disk, c, k, l)
  {
    hide Committed, Flatten;
    BlockEnds(disk, c, i);
    if i == k {
      SlotsInOrder(SlotsOf(disk, c[i]), j + 1, l);
    } else {
      SlotsInOrder(SlotsOf(disk, c[i]), j + 1, |SlotsOf(disk, c[i])|);
      PrefixesInOrder(disk, c, i + 1, k);
    }
  }

  /** A position has one place. */
  lemma FirstIsUnique(disk: seq<AbstractBlock>, c: seq<nat>, position: nat, i: nat, j: nat, k: nat, l: nat)
    requires FirstReaching(disk, c, position, i, j) && FirstReaching(disk, c, position, k, l)
    ensures i == k && j == l
  {
    hide Before;
    if i < k || (i == k && j < l) {
      SlotsBefore(disk, c, i, j, k, l);
    } else if k < i || (k == i && l < j) {
      SlotsBefore(disk, c, k, l, i, j);
    }
  }

  /** The position is in an INIT or TAIL sector, and not at its end. It belongs to the first sector
      that reaches it, so that the end of a sector is not in the next one. */
  ghost predicate InHeaderedSector(t: Tables, id: nat, position: nat)
    requires t.pages >= 2 && id in t.chains
  {
    exists i :: 0 <= i < |t.chains[id]| && InHeadersOf(t, t.chains[id], i, position)
  }

  ghost predicate InHeadersOf(t: Tables, c: seq<nat>, i: nat, position: nat)
    requires t.pages >= 2 && i < |c|
  {
    var n := |SlotsOf(t.disk, c[i])|;
    || (n > 0 && Before(t.disk, c, i, 0) <= position < Before(t.disk, c, i, 1) &&
        (i == 0 || Before(t.disk, c, i, 0) < position))
    || (n == SlotCount(t.pages) && Before(t.disk, c, i, n - 1) < position < Before(t.disk, c, i, n))
  }

  /** Which positions have a place where the offset is right although it leaves out the header. */
  lemma FitExactly(t: Tables, id: nat, position: nat, block: nat, f: Found, i: nat, j: nat)
    requires Located(t, id, position, block, f, i, j)
    requires |t.disk[block].slots| <= SlotCount(t.pages)
    ensures f.remaining == 0 || HeaderSize(f.sector) == 0 <==> !InHeaderedSector(t, id, position)
  {
    hide Before;
    var c := t.chains[id];
    SlotEnds(t.disk, c, i, j);
    if f.remaining > 0 && HeaderSize(f.sector) != 0 {
      assert InHeadersOf(t, c, i, position);
    }
    forall k | 0 <= k < |c| && InHeadersOf(t, c, k, position)
      ensures f.remaining > 0 && HeaderSize(f.sector) != 0
    {
      var n := |SlotsOf(t.disk, c[k])|;
      if n > 0 && Before(t.disk, c, k, 0) <= position < Before(t.disk, c, k, 1) && (k == 0 || Before(t.disk, c, k, 0) < position) {
        FirstIsUnique(t.disk, c, position, i, j, k, 0);
      } else {
        FirstIsUnique(t.disk, c, position, i, j, k, n - 1);
      }
    }
  }

  /** Seeking to the start of a file that holds data in its first sector never leaves a fit reader. */
  lemma StartIsHeadered(t: Tables, id: nat)
    requires t.pages >= 2 && id in t.chains && |t.chains[id]| >= 1
    ensures var slots := SlotsOf(t.disk, t.chains[id][0]);
      slots != [] && slots[0] != [] ==> InHeaderedSector(t, id, 0)
  {
    var c := t.chains[id];
    var slots := SlotsOf(t.disk, c[0]);
    if slots != [] && slots[0] != [] {
      CommittedNone(t.disk, c);
      FlattenNone();
      SlotEnds(t.disk, c, 0, 0);
      assert InHeadersOf(t, c, 0, 0);
    }
  }

  // ------------------------------------------------------------------ the walk

  /** What the sectors of a block from slot `j` on make of a position: the slot that reaches it, if there is one,
      and the position at which that slot starts, or the block ends. */
  function Scan(slots: seq<seq<byte>>, j: nat, desired: word, position: word): (r: (Option<nat>, word))
    requires j <= |slots| && position <= desired
    ensures r.1 <= desired
    ensures r.0.Some? ==> j <= r.0.value < |slots| && desired <= Add32(r.1, |slots[r.0.value]|)
    decreases |slots| - j
  {
    if j == |slots| then (None, position)
    else
      var end := Add32(position, |slots[j]|);
      if desired > end then Scan(slots, j + 1, desired, end) else (Some(j), position)
  }

  /** Where a walk ends: in a slot of a block, with an offset in it. */
  datatype Place = Place(at: nat, slot: nat, offset: nat)

  /** The walk from block number `i` on, which is believed to start at `position`. A completed block that ends
      before the position desired, by its count, is skipped. A block that is not is scanned; if the position
      is not in it the walk goes on. */
  function Walk(disk: seq<AbstractBlock>, c: seq<nat>, i: nat, desired: word, position: word): (r: Option<Place>)
    requires i < |c| && position <= desired
    ensures r.Some? ==> i <= r.value.at < |c| && r.value.slot < |SlotsOf(disk, c[r.value.at])|
    decreases |c| - i
  {
    var last, end := i + 1 == |c|, Add32(position, CountOf(disk, c[i]));
    if !last && desired > end then Walk(disk, c, i + 1, desired, end)
    else
      var (slot, at) := Scan(SlotsOf(disk, c[i]), 0, desired, position);
      if slot.Some? then Some(Place(i, slot.value, desired - at))
      else if last then None
      else Walk(disk, c, i + 1, desired, at)
  }

  /** Looks for a position among the sectors of block number `i`, whose first byte is at `start`. */
  method SeekSectors(fs: FlogFs, block: nat, desired: word, start: word, ghost id: nat, ghost i: nat)
    returns (found: Option<Found>, position: word, ghost slot: nat)
    requires fs.Holds()
    requires id in fs.t.chains && i < |fs.t.chains[id]| && block == fs.t.chains[id][i]
    requires start <= desired
    modifies fs`cache, fs.device`openBlock, fs.device`openPage, fs.prealloc, fs.prealloc.nodes
    ensures OnlyLooked(fs)
    ensures block < |fs.t.disk| && fs.t.disk[block].FileBlock?
    ensures Scan(fs.t.disk[block].slots, 0, desired, start) == (if found.Some? then Some(slot) else None, position)
    ensures found.Some? ==>
      && Placed(fs.t, id, block, found.value, i, slot) && found.value.offset == desired - position
  {
    hide FlogFs.Holds, TablesOk;
    PagesOf(fs);
    SlotsBounded(fs.t, id, i);
    ghost var slots := fs.t.disk[block].slots;
    position := start;
    slot := 0;
    var sector := INIT_SECTOR;
    while true
      invariant OnlyLooked(fs)
      invariant slot <= |slots| && slot < SlotCount(fs.pages) && sector == SectorOf(fs.pages, slot)
      invariant desired >= position
      invariant Scan(slots, 0, desired, start) == Scan(slots, slot, desired, position)
      decreases |slots| - slot
    {
      var spare := SpareOf(fs, block, sector, id, i, slot);
      if InvalidSectorSpare(spare) {
        break;
      }
      var end := Add32(position, spare.value);
      if desired > end {
        position := end;
      } else {
        return Some(Found(sector, desired - position, spare.value - (desired - position))), position, slot;
      }
      if sector == TAIL_SECTOR {
        slot := slot + 1;
        break;
      }
      sector := IncrementSector(fs.pages, sector);
      slot := slot + 1;
    }
    found := None;
  }

  lemma SlotsBounded(t: Tables, id: nat, i: nat)
    requires TablesOk(t) && id in t.chains && i < |t.chains[id]|
    ensures t.chains[id][i] < |t.disk| && t.disk[t.chains[id][i]].FileBlock?
    ensures |t.disk[t.chains[id][i]].slots| <= SlotCount(t.pages)
  {
    assert ChainOk(t, id) && LinkOk(t, id, t.chains[id], i);
  }

  /** The count in the TAIL sector of a completed block, for a file that fits in 32 bits. */
  lemma CountExact(t: Tables, id: nat, i: nat)
    requires TablesOk(t) && id in t.chains && CountsOk(t, id) && i + 1 < |t.chains[id]|
    requires |Committed(t.disk, t.chains[id])| < WORD32
    ensures t.chains[id][i] < |t.disk| && t.disk[t.chains[id][i]].FileBlock?
    ensures |Committed(t.disk, t.chains[id][..i])| + t.disk[t.chains[id][i]].count ==
            |Committed(t.disk, t.chains[id][..i + 1])| < WORD32
    ensures t.disk[t.chains[id][i]].slots != []
  {
    hide Committed, Flatten, TablesOk;
    assert CountAt(t, id, i);
    Completed(t, id, i);
    BlockEnds(t.disk, t.chains[id], i);
  }

  lemma Completed(t: Tables, id: nat, i: nat)
    requires TablesOk(t) && id in t.chains && i + 1 < |t.chains[id]|
    ensures t.chains[id][i] < |t.disk| && t.disk[t.chains[id][i]].FileBlock?
    ensures |t.disk[t.chains[id][i]].slots| == SlotCount(t.pages) > 0
  {
    assert ChainOk(t, id) && LinkOk(t, id, t.chains[id], i);
  }

  /** A position is found exactly if it is within what has been committed, and anything has been. */
  ghost predicate Reachable(t: Tables, id: nat, position: nat)
    requires id in t.chains
  {
    && position <= |Committed(t.disk, t.chains[id])|
    && |t.chains[id]| >= 1
    && SlotsOf(t.disk, t.chains[id][0]) != []
  }

  /** The counts of a file that fits in 32 bits are right. */
  ghost predicate CountsExact(t: Tables, id: nat)
    requires id in t.chains
  {
    CountsOk(t, id) && |Committed(t.disk, t.chains[id])| < WORD32
  }

  /** Walks over the blocks of a file, skipping those that end before the position. A position that is not found
      has been looked for up to the last block. */
  method SeekBlocks(fs: FlogFs, first: nat, desired: word, ghost id: nat)
    returns (block: nat, found: Option<Found>, ghost at: nat, ghost slot: nat)
    requires fs.Holds()
    requires id in fs.t.chains && |fs.t.chains[id]| >= 1 && first == fs.t.chains[id][0]
    modifies fs`cache, fs.device`openBlock, fs.device`openPage, fs.prealloc, fs.prealloc.nodes
    ensures OnlyLooked(fs)
    ensures Walk(fs.t.disk, fs.t.chains[id], 0, desired, 0) ==
            if found.Some? then Some(Place(at, slot, found.value.offset)) else None
    ensures found.Some? ==> Placed(fs.t, id, block, found.value, at, slot)
    ensures found.None? ==> at + 1 == |fs.t.chains[id]|
    ensures at < |fs.t.chains[id]| && block == fs.t.chains[id][at]
  {
    hide FlogFs.Holds, TablesOk, Scan;
    PagesOf(fs);
    ghost var c := fs.t.chains[id];
    block := first;
    var position: word := 0;
    at := 0;
    while true
      invariant OnlyLooked(fs)
      invariant 0 <= at < |c| && block == c[at]
      invariant position <= desired
      invariant Walk(fs.t.disk, c, 0, desired, 0) == Walk(fs.t.disk, c, at, desired, position)
      decreases |c| - at
    {
      SlotsBounded(fs.t, id, at);
      var last, next, count := TailOf(fs, block, id, at);
      if !last && desired > Add32(position, count) {
        position := Add32(position, count);
      } else {
        found, position, slot := SeekSectors(fs, block, desired, position, id, at);
        if found.Some? {
          return;
        }
      }
      if last {
        found := None;
        return;
      }
      if block == next {
        NextIsAnother(fs.t, id, at);
        found := None;
        return;
      }
      block := next;
      at := at + 1;
    }
  }

  /** Scanning a block whose bytes start at `base` finds the first of its slots that reaches the position. */
  lemma {:induction false} ScanIs(slots: seq<seq<byte>>, j: nat, desired: word, position: word, base: nat)
    requires j <= |slots| && position <= desired
    requires position == base + |Flatten(slots[..j])| && base + |Flatten(slots)| < WORD32
    requires j == 0 || desired > position
    ensures var (slot, at) := Scan(slots, j, desired, position);
      && (slot.Some? ==>
            && at == base + |Flatten(slots[..slot.value])|
            && desired <= at + |slots[slot.value]|
            && (slot.value > 0 ==> desired > at))
      && (slot.None? ==> at == base + |Flatten(slots)| && (slots == [] || desired > at))
    decreases |slots| - j
  {
    hide Flatten;
    if j == |slots| {
      assert slots[..j] == slots;
    } else {
      FlattenMore(slots, j);
      SlotsInOrder(slots, j + 1, |slots|);
      assert slots[..|slots|] == slots;
      RemainderUnique(position + |slots[j]|, 0, position + |slots[j]|);
      if desired > Add32(position, |slots[j]|) {
        ScanIs(slots, j + 1, desired, Add32(position, |slots[j]|), base);
      }
    }
  }

  lemma ScanFromStart(slots: seq<seq<byte>>, desired: word, base: word)
    requires base <= desired && base + |Flatten(slots)| < WORD32
    ensures var (slot, at) := Scan(slots, 0, desired, base);
      && (slot.Some? ==>
            && at == base + |Flatten(slots[..slot.value])|
            && desired <= at + |slots[slot.value]|
            && (slot.value > 0 ==> desired > at))
      && (slot.None? ==> at == base + |Flatten(slots)| && (slots == [] || desired > at))
  {
    FlattenNone();
    assert slots[..0] == [];
    ScanIs(slots, 0, desired, base, base);
  }

  /** With right counts the walk finds the first slot that reaches the position, exactly if the position is
      within what has been committed. */
  lemma {:induction false} WalkExactly(t: Tables, id: nat, i: nat, desired: word, position: word)
    requires TablesOk(t) && id in t.chains && CountsExact(t, id)
    requires i < |t.chains[id]| && position <= desired && StartsAtData(t, id, i, position)
    requires i > 0 ==> desired > position && SlotsOf(t.disk, t.chains[id][0]) != []
    ensures var r := Walk(t.disk, t.chains[id], i, desired, position);
      && (r.Some? <==> Reachable(t, id, desired))
      && (r.Some? ==>
            && FirstReaching(t.disk, t.chains[id], desired, r.value.at, r.value.slot)
            && Before(t.disk, t.chains[id], r.value.at, r.value.slot) + r.value.offset == desired)
    decreases |t.chains[id]| - i
  {
    hide TablesOk, Committed, CountsOk, Scan, Flatten;
    var disk, c := t.disk, t.chains[id];
    SlotsBounded(t, id, i);
    BlockEnds(disk, c, i);
    var last, end, slots := i + 1 == |c|, Add32(position, CountOf(disk, c[i])), SlotsOf(disk, c[i]);
    if !last {
      CountExact(t, id, i);
      RemainderUnique(position + CountOf(disk, c[i]), 0, position + CountOf(disk, c[i]));
    }
    if !last && desired > end {
      WalkExactly(t, id, i + 1, desired, end);
    } else {
      ScanFromStart(slots, desired, position);
      var (slot, at) := Scan(slots, 0, desired, position);
      if slot.Some? {
        SlotEnds(disk, c, i, slot.value);
        InPlace(t, id, desired, i, slot.value);
      } else {
        assert last;
        assert c[..i + 1] == c;
      }
    }
  }

  /** The TAIL sector of no completed block counts less than the block holds. */
  ghost predicate CountsEnough(t: Tables, id: nat)
    requires id in t.chains
  {
    forall i {:trigger CountEnough(t, id, i)} | 0 <= i < |t.chains[id]| - 1 :: CountEnough(t, id, i)
  }

  ghost predicate CountEnough(t: Tables, id: nat, i: nat)
    requires id in t.chains && i < |t.chains[id]|
  {
    CountOf(t.disk, t.chains[id][i]) >= |Flatten(SlotsOf(t.disk, t.chains[id][i]))|
  }

  /** Nor do the sizes add up to more than a 32-bit counter holds. */
  ghost predicate NoneShort(t: Tables, id: nat)
    requires id in t.chains
  {
    CountsEnough(t, id) && SizeByTails(t.disk, t.chains[id]) < WORD32
  }

  /** Even with counts that are too high the walk finds every position within what has been committed, as long as
      the counts add up to less than 32 bits: a block that is not skipped and does not have it is passed by. */
  lemma WalkFindsAll(t: Tables, id: nat, desired: word)
    requires TablesOk(t) && id in t.chains && NoneShort(t, id)
    requires Reachable(t, id, desired)
    ensures Walk(t.disk, t.chains[id], 0, desired, 0).Some?
  {
    hide TablesOk, Committed;
    CommittedNone(t.disk, t.chains[id]);
    WalkFindsFrom(t, id, 0, desired, 0);
  }

  lemma {:induction false} WalkFindsFrom(t: Tables, id: nat, i: nat, desired: word, position: word)
    requires TablesOk(t) && id in t.chains && NoneShort(t, id)
    requires Reachable(t, id, desired)
    requires i < |t.chains[id]| && position <= desired && (i > 0 ==> position < desired)
    requires |Committed(t.disk, t.chains[id][..i])| <= position <= CountsBefore(t.disk, t.chains[id], i)
    ensures Walk(t.disk, t.chains[id], i, desired, position).Some?
    decreases |t.chains[id]| - i
  {
    hide TablesOk, Committed, Scan, Flatten, CountsBefore;
    var disk, c := t.disk, t.chains[id];
    SlotsBounded(t, id, i);
    BlockEnds(disk, c, i);
    var last, slots := i + 1 == |c|, SlotsOf(disk, c[i]);
    if last {
      assert c[..i + 1] == c;
      ScanFromStart(slots, desired, position);
    } else {
      assert CountEnough(t, id, i);
      Completed(t, id, i);
      CountsMore(disk, c, i);
      CountsInOrder(disk, c, i + 1, |c| - 1);
      var end := position + CountOf(disk, c[i]);
      RemainderUnique(end, 0, end);
      if desired > end {
        WalkFindsFrom(t, id, i + 1, desired, end);
      } else {
        ScanFromStart(slots, desired, position);
        var (slot, at) := Scan(slots, 0, desired, position);
        if slot.None? {
          WalkFindsFrom(t, id, i + 1, desired, at);
        }
      }
    }
  }

  lemma CountsMore(disk: seq<AbstractBlock>, c: seq<nat>, i: nat)
    requires i < |c|
    ensures CountsBefore(disk, c, i + 1) == CountsBefore(disk, c, i) + CountOf(disk, c[i])
  {
  }

  lemma {:induction false} CountsInOrder(disk: seq<AbstractBlock>, c: seq<nat>, i: nat, k: nat)
    requires i <= k <= |c|
    ensures CountsBefore(disk, c, i) <= CountsBefore(disk, c, k)
  {
    if i < k {
      CountsInOrder(disk, c, i, k - 1);
      CountsMore(disk, c, k - 1);
    }
  }

  lemma CommittedNone(disk: seq<AbstractBlock>, c: seq<nat>)
    ensures Committed(disk, c[..0]) == []
  {
  }

  lemma InPlace(t: Tables, id: nat, desired: nat, i: nat, j: nat)
    requires TablesOk(t) && id in t.chains && i < |t.chains[id]|
    requires var slots := SlotsOf(t.disk, t.chains[id][i]);
      j < |slots| && Before(t.disk, t.chains[id], i, j) <= desired <= Before(t.disk, t.chains[id], i, j) + |slots[j]|
    ensures desired <= |Committed(t.disk, t.chains[id])| && j < SlotCount(t.pages)
    ensures SlotsOf(t.disk, t.chains[id][0]) != []
  {
    SlotsBounded(t, id, i);
    SlotEnds(t.disk, t.chains[id], i, j);
    assert ChainOk(t, id) && LinkOk(t, id, t.chains[id], 0);
  }

  /** What the TAIL sector of block number `i` says. */
  method TailOf(fs: FlogFs, block: nat, ghost id: nat, ghost i: nat) returns (last: bool, next: nat, count: nat)
    requires fs.Holds()
    requires id in fs.t.chains && i < |fs.t.chains[id]| && block == fs.t.chains[id][i]
    modifies fs`cache, fs.device`openBlock, fs.device`openPage, fs.prealloc, fs.prealloc.nodes
    ensures OnlyLooked(fs)
    ensures last <==> i + 1 == |fs.t.chains[id]|
    ensures !last ==>
      && next == fs.t.chains[id][i + 1]
      && block < |fs.t.disk| && fs.t.disk[block].FileBlock? && count == fs.t.disk[block].count
  {
    hide TablesOk, RepresentsAll, Preallocator.Valid, Shaped;
    FileTailShows(fs.version, fs.device.blocks, fs.t, id, i);
    fs.OpenSector(block, TAIL_SECTOR);
    var h := fs.device.ReadHeader(TAIL_SECTOR);
    last := TailStamp(h) == ERASED32;
    next := if last then 0 else h.next;
    count := if last then 0 else h.count;
  }

  /** What is ahead of a reader in its place is the rest of what has been committed exactly if none of
      the later blocks hides anything. */
  lemma AheadIsCommitted(disk: seq<AbstractBlock>, c: seq<nat>, i: nat, j: nat, remaining: nat)
    requires i < |c|
    requires j < |SlotsOf(disk, c[i])| && remaining <= |SlotsOf(disk, c[i])[j]|
    ensures var p := Before(disk, c, i, j) + |SlotsOf(disk, c[i])[j]| - remaining;
      && p <= |Committed(disk, c)|
      && (Rest(disk, c, i, j, remaining) == Committed(disk, c)[p..] <==> NothingHidden(disk, c[i + 1..]))
  {
    hide Committed, Seen, Flatten, NothingHidden, Rest, Before;
    var slots, later := SlotsOf(disk, c[i]), c[i + 1..];
    var here := slots[j][|slots[j]| - remaining..] + Flatten(SlotsFrom(slots, j + 1));
    SeenIsCommitted(disk, later);
    RestSplits(disk, c, i, j, remaining);
    CommittedSplits(disk, c, i, j, remaining);
    SameBehind(here, Seen(disk, later), Committed(disk, later));
  }

  lemma RestSplits(disk: seq<AbstractBlock>, c: seq<nat>, i: nat, j: nat, remaining: nat)
    requires i < |c|
    requires j < |SlotsOf(disk, c[i])| && remaining <= |SlotsOf(disk, c[i])[j]|
    ensures var slots := SlotsOf(disk, c[i]);
      Rest(disk, c, i, j, remaining) ==
      slots[j][|slots[j]| - remaining..] + Flatten(SlotsFrom(slots, j + 1)) + Seen(disk, c[i + 1..])
  {
    hide Seen, Flatten;
  }

  /** What has been committed from within slot `j` of block number `i` on. */
  lemma CommittedSplits(disk: seq<AbstractBlock>, c: seq<nat>, i: nat, j: nat, remaining: nat)
    requires i < |c|
    requires j < |SlotsOf(disk, c[i])| && remaining <= |SlotsOf(disk, c[i])[j]|
    ensures var slots := SlotsOf(disk, c[i]);
      var p := Before(disk, c, i, j) + |slots[j]| - remaining;
      && p <= |Committed(disk, c)|
      && Committed(disk, c)[p..] ==
         slots[j][|slots[j]| - remaining..] + Flatten(SlotsFrom(slots, j + 1)) + Committed(disk, c[i + 1..])
  {
    hide Committed, Flatten;
    var slots, later := SlotsOf(disk, c[i]), c[i + 1..];
    BlockEnds(disk, c, i);
    CommittedConcat(disk, c[..i + 1], later);
    assert c == c[..i + 1] + later;
    FlattenSplit(slots, j);
    assert SlotsFrom(slots, j) == slots[j..];
    FlattenDrop(slots, j);
    SplitTail(Committed(disk, c[..i]), Flatten(slots[..j]), slots[j], Flatten(SlotsFrom(slots, j + 1)), Committed(disk, later),
              |slots[j]| - remaining);
  }

  lemma SameBehind(a: seq<byte>, b: seq<byte>, c: seq<byte>)
    ensures a + b == a + c <==> b == c
  {
    assert (a + b)[|a|..] == b && (a + c)[|a|..] == c;
  }

  lemma SplitTail(a: seq<byte>, b: seq<byte>, s: seq<byte>, d: seq<byte>, e: seq<byte>, k: nat)
    requires k <= |s|
    ensures (a + (b + (s + d)) + e)[|a| + |b| + k..] == s[k..] + d + e
  {
  }

  ghost function FoundBy(file: ReadFile): Found
    reads file
  {
    Found(file.sector, file.offset, file.remaining)
  }

  /** A reader moved to a position is fit for use exactly if that is not in an INIT or TAIL sector;
      and what it reads then is what was written from that position on, exactly if none of the
      blocks behind that position hides anything. */
  lemma SeekThenRead(t: Tables, file: ReadFile, position: nat)
    requires TablesOk(t)
    requires Located(t, file.id, position, file.block, FoundBy(file), file.at, file.slot)
    requires file.firstBlock == t.chains[file.id][0]
    ensures position <= |Committed(t.disk, t.chains[file.id])|
    ensures file.Stands(t) <==> !InHeaderedSector(t, file.id, position)
    ensures file.Stands(t) ==>
      (file.Ahead(t) == Committed(t.disk, t.chains[file.id])[position..] <==>
       NothingHidden(t.disk, t.chains[file.id][file.at + 1..]))
  {
    hide Committed, Rest, Before, InHeaderedSector, NothingHidden;
    var c := t.chains[file.id];
    SlotsBounded(t, file.id, file.at);
    FitExactly(t, file.id, position, file.block, FoundBy(file), file.at, file.slot);
    SlotEnds(t.disk, c, file.at, file.slot);
    AheadIsCommitted(t.disk, c, file.at, file.slot, file.remaining);
  }

  /** What the walk comes to, with right counts and with counts that are too high. */
  lemma SeekMeans(t: Tables, id: nat, position: word)
    requires TablesOk(t) && id in t.chains && |t.chains[id]| >= 1
    ensures var r := Walk(t.disk, t.chains[id], 0, position, 0);
      && (CountsExact(t, id) ==>
            && (r.Some? <==> Reachable(t, id, position))
            && (r.Some? ==>
                  && FirstReaching(t.disk, t.chains[id], position, r.value.at, r.value.slot)
                  && Before(t.disk, t.chains[id], r.value.at, r.value.slot) + r.value.offset == position))
      && (NoneShort(t, id) && Reachable(t, id, position) ==> r.Some?)
  {
    hide TablesOk, Committed, Walk, CountsOk, NoneShort, Reachable, FirstReaching, Before;
    CommittedNone(t.disk, t.chains[id]);
    if CountsExact(t, id) { WalkExactly(t, id, 0, position, 0); }
    if NoneShort(t, id) && Reachable(t, id, position) {
      WalkFindsAll(t, id, position);
    }
  }

  /** Moves a reader to a position. The offset it gets leaves out the header of the sector, so that
      it is wrong for positions in an INIT or TAIL sector. On failure the reader gets values that
      were never set. */
  method SeekTo(fs: FlogFs, file: ReadFile, position: word) returns (ok: bool)
    requires fs.mounted ==>
      && fs.Holds()
      && file.id in fs.t.chains && |fs.t.chains[file.id]| >= 1 && file.firstBlock == fs.t.chains[file.id][0]
    modifies fs`cache, fs.device`openBlock, fs.device`openPage, fs.prealloc, fs.prealloc.nodes
    modifies file`block, file`sector, file`offset, file`remaining, file`at, file`slot
    ensures fs.mounted == old(fs.mounted)
    ensures !fs.mounted ==> !ok && file.View() == old(file.View())
    ensures fs.mounted ==> OnlyLooked(fs)
    ensures fs.mounted ==>
      && Walk(fs.t.disk, fs.t.chains[file.id], 0, position, 0) == (if ok then Some(Place(file.at, file.slot, file.offset)) else None)
      && file.at < |fs.t.chains[file.id]| && file.block == fs.t.chains[file.id][file.at]
      && (!ok ==> file.at + 1 == |fs.t.chains[file.id]|)
      && (NoneShort(fs.t, file.id) && Reachable(fs.t, file.id, position) ==> ok)
    ensures ok ==> Placed(fs.t, file.id, file.block, FoundBy(file), file.at, file.slot)
    ensures fs.mounted && CountsExact(fs.t, file.id) ==>
      && (ok <==> Reachable(fs.t, file.id, position))
      && (ok ==>
            && Located(fs.t, file.id, position, file.block, FoundBy(file), file.at, file.slot)
            && position <= |Committed(fs.t.disk, fs.t.chains[file.id])|
            && (file.Stands(fs.t) <==> !InHeaderedSector(fs.t, file.id, position))
            && (file.Stands(fs.t) ==>
                  (file.Ahead(fs.t) == Committed(fs.t.disk, fs.t.chains[file.id])[position..] <==>
                   NothingHidden(fs.t.disk, fs.t.chains[file.id][file.at + 1..]))))
  {
    hide FlogFs.Holds, Before, Committed, CountsOk, NoneShort, InHeaderedSector, NothingHidden, ReadFile.Ahead, ReadFile.Stands,
      Walk, TablesOk, FirstReaching, Reachable;
    if !fs.mounted {
      return false;
    }
    PagesOf(fs);
    SeekMeans(fs.t, file.id, position);
    var block, found, at, slot := SeekBlocks(fs, file.firstBlock, position, file.id);
    file.block := block;
    file.at, file.slot := at, slot;
    match found {
      case Some(f) =>
        file.sector, file.offset, file.remaining := f.sector, f.offset, f.remaining;
        ok := true;
        if CountsExact(fs.t, file.id) { SeekThenRead(fs.t, file, position); }
      case None =>
        file.sector, file.offset, file.remaining := *, *, *;
        ok := false;
    }
  }
}
