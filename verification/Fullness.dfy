// How full blocks get: a writer that is not flushed early fills every sector
// of a block to the brim, and no block ever holds more than that.
module Fullness {
  import opened Geometry
  import opened Tables
  import opened TablesProofs
  import opened Refinement
  import opened Counts

  ghost predicate SlotsFull(pages: nat, slots: seq<seq<byte>>) {
    forall j | 0 <= j < |slots| :: |slots[j]| == Capacity(pages, j)
  }

  /** Every committed sector of block number `i` of the file is full. */
  ghost predicate FullAt(t: Tables, id: nat, i: nat)
    requires id in t.chains && i < |t.chains[id]|
  {
    && t.chains[id][i] < |t.disk| && t.disk[t.chains[id][i]].FileBlock?
    && SlotsFull(t.pages, t.disk[t.chains[id][i]].slots)
  }

  /** Every committed sector of the file is full. */
  ghost predicate AllFull(t: Tables, id: nat)
    requires id in t.chains
  {
    forall i {:trigger FullAt(t, id, i)} | 0 <= i < |t.chains[id]| :: FullAt(t, id, i)
  }

  /** The file, if it was full, is full. */
  ghost predicate FullKept(t: Tables, u: Tables, id: nat) {
    id in t.chains && id in u.chains && u.pages == t.pages && (AllFull(t, id) ==> AllFull(u, id))
  }

  lemma FullKeptTrans(t: Tables, u: Tables, v: Tables, id: nat)
    requires FullKept(t, u, id) && FullKept(u, v, id)
    ensures FullKept(t, v, id)
  {
  }

  // ------------------------------------------------------------ the size of a block

  lemma {:induction false} FlattenFits(pages: nat, slots: seq<seq<byte>>)
    requires SlotsFit(pages, slots)
    ensures |Flatten(slots)| <= CapacityUpTo(pages, |slots|)
    ensures |Flatten(slots)| == CapacityUpTo(pages, |slots|) <==> SlotsFull(pages, slots)
  {
    if slots != [] {
      var rest := slots[..|slots| - 1];
      FlattenFits(pages, rest);
      assert forall j | 0 <= j < |rest| :: rest[j] == slots[j];
      assert SlotsFull(pages, slots) <==> SlotsFull(pages, rest) && |slots[|slots| - 1]| == Capacity(pages, |slots| - 1);
    }
  }

  /** No block holds more than 512 bytes a sector but for its two headers, and it holds just that
      exactly if all its sectors are committed and full. */
  lemma BlockBound(t: Tables, b: nat)
    requires TablesOk(t) && b < |t.disk| && t.disk[b].FileBlock?
    ensures BlockBytes(t.disk[b]) <= BlockSize(t.pages) ==
            SECTOR_SIZE * (SECTORS_PER_PAGE * t.pages - 1) - INIT_HEADER_SIZE - TAIL_HEADER_SIZE
    ensures BlockBytes(t.disk[b]) == BlockSize(t.pages) <==>
            |t.disk[b].slots| == SlotCount(t.pages) && SlotsFull(t.pages, t.disk[b].slots)
  {
    var a := t.disk[b];
    assert OwnerOk(t, b);
    assert ChainOk(t, a.id) && LinkOk(t, a.id, t.chains[a.id], a.idx);
    FlattenFits(t.pages, a.slots);
    BlockCapacity(t.pages, SlotCount(t.pages));
    CapacityGrows(t.pages, |a.slots|, SlotCount(t.pages));
  }

  /** Each completed block of a file that is full holds 512 bytes a sector but for its two headers. */
  lemma CompletedFull(t: Tables, id: nat, i: nat)
    requires TablesOk(t) && id in t.chains && AllFull(t, id) && i + 1 < |t.chains[id]|
    ensures t.chains[id][i] < |t.disk|
    ensures BlockBytes(t.disk[t.chains[id][i]]) ==
            SECTOR_SIZE * (SECTORS_PER_PAGE * t.pages - 1) - INIT_HEADER_SIZE - TAIL_HEADER_SIZE
  {
    assert ChainOk(t, id) && LinkOk(t, id, t.chains[id], i);
    assert FullAt(t, id, i);
    BlockBound(t, t.chains[id][i]);
  }

  // --------------------------------------------------------------- step by step

  /** A step that changes no block of file `x`. */
  lemma FullFrame(t: Tables, u: Tables, x: nat)
    requires TablesOk(t) && x in t.chains
    requires x in u.chains && u.chains[x] == t.chains[x] && u.pages == t.pages
    requires |u.disk| == |t.disk|
    requires forall b | 0 <= b < |t.disk| && t.disk[b].FileBlock? && t.disk[b].id == x :: u.disk[b] == t.disk[b]
    ensures FullKept(t, u, x)
  {
    ChainBlocks(t, x);
    if AllFull(t, x) {
      forall i | 0 <= i < |u.chains[x]| ensures FullAt(u, x, i) {
        assert t.chains[x][i] in t.chains[x];
        assert FullAt(t, x, i);
      }
    }
  }

  lemma SlotsMore(pages: nat, slots: seq<seq<byte>>, s: seq<byte>)
    requires |s| == Capacity(pages, |slots|)
    ensures SlotsFull(pages, slots) ==> SlotsFull(pages, slots + [s])
  {
  }

  lemma CommitFull(t: Tables, id: nat, data: seq<byte>)
    requires TablesOk(t) && id in t.bufs && Writable(t, id)
    requires Fills(t, id, |data|)
    ensures FullKept(t, CommitStep(t, id, data), id)
  {
    var u, c := CommitStep(t, id, data), t.chains[id];
    SplitLast(t, id);
    SlotsMore(t.pages, LastBlock(t, id).slots, t.bufs[id] + data);
    ChainBlocks(t, id);
    if AllFull(t, id) {
      forall i | 0 <= i < |c| ensures FullAt(u, id, i) {
        assert FullAt(t, id, i);
        if i < |c| - 1 { assert c[i] in c[..|c| - 1] && c[i] in c; }
      }
    }
  }

  lemma TailFull(t: Tables, id: nat, data: seq<byte>, next: nat, count: nat)
    requires TablesOk(t) && id in t.bufs && Writable(t, id)
    requires Fills(t, id, |data|)
    requires next < |t.disk| && t.disk[next] == Free
    ensures FullKept(t, TailStep(t, id, data, next, count), id)
  {
    var u, c := TailStep(t, id, data, next, count), t.chains[id];
    TailBlocks(t, id, data, next, count);
    SlotsMore(t.pages, LastBlock(t, id).slots, t.bufs[id] + data);
    ChainBlocks(t, id);
    SplitLast(t, id);
    if AllFull(t, id) {
      forall i | 0 <= i < |u.chains[id]| ensures FullAt(u, id, i) {
        if i < |c| {
          assert c[i] in c && FullAt(t, id, i);
        }
      }
    }
  }

  /** Flushing the dirty file does nothing to another one. */
  lemma FlushFull(t: Tables, id: nat)
    requires TablesOk(t) && id in t.bufs && t.dirty != Some(id)
    requires t.dirty.Some? ==> Writable(t, t.dirty.value)
    ensures FullKept(t, FlushDirtyStep(t), id)
  {
    WritableIfOpen(t, id);
    if t.dirty.Some? { WritableIfOpen(t, t.dirty.value); }
    FullFrame(t, FlushDirtyStep(t), id);
  }
}
