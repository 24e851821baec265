// The byte count in the TAIL sector of a completed block, and the counter in
// the write handle that it comes from.
module Counts {
  import opened Geometry
  import opened Tables
  import opened TablesProofs
  import opened Refinement

  function BlockBytes(a: AbstractBlock): nat {
    if a.FileBlock? then |Flatten(a.slots)| else 0
  }

  /** The TAIL sector of the block says how many bytes the block holds. */
  ghost predicate CountRight(a: AbstractBlock) {
    a.FileBlock? && a.count == BlockBytes(a) % WORD32
  }

  /** Every completed block of the file has the right count. */
  ghost predicate CountsOk(t: Tables, id: nat)
    requires id in t.chains
  {
    forall i {:trigger CountAt(t, id, i)} | 0 <= i < |t.chains[id]| - 1 :: CountAt(t, id, i)
  }

  ghost predicate CountAt(t: Tables, id: nat, i: nat)
    requires id in t.chains && i < |t.chains[id]|
  {
    t.chains[id][i] < |t.disk| && CountRight(t.disk[t.chains[id][i]])
  }

  /** The bytes of the last block of `id`, committed and buffered. */
  ghost function InLastBlock(t: Tables, id: nat): nat
    requires Writable(t, id)
  {
    BlockBytes(LastBlock(t, id)) + |t.bufs[id]|
  }

  /** The handle's counter `n` is what it should be. */
  ghost predicate InStep(t: Tables, id: nat, n: word)
    requires Writable(t, id)
  {
    n == InLastBlock(t, id) % WORD32
  }

  /** Nothing changes for the counts of file `x`. */
  ghost predicate CountKept(t: Tables, u: Tables, x: nat)
    requires x in t.chains
  {
    && x in u.chains
    && (CountsOk(u, x) <==> CountsOk(t, x))
    && (x in t.bufs ==> Writable(t, x) && Writable(u, x) && InLastBlock(u, x) == InLastBlock(t, x))
  }

  ghost predicate OthersCounted(t: Tables, u: Tables, ids: set<nat>) {
    forall x {:trigger CountKept(t, u, x)} | x in t.chains && x !in ids :: CountKept(t, u, x)
  }

  lemma OthersCountedTrans(t: Tables, u: Tables, v: Tables, a: set<nat>, b: set<nat>)
    requires OthersCounted(t, u, a) && OthersCounted(u, v, b)
    requires t.bufs.Keys <= u.bufs.Keys
    ensures OthersCounted(t, v, a + b)
  {
    forall x | x in t.chains && x !in a + b ensures CountKept(t, v, x) {
      assert CountKept(t, u, x) && CountKept(u, v, x);
    }
  }

  /** A step that changes at most the last block of file `id` changes none of its counts. */
  lemma CompletedSame(t: Tables, u: Tables, id: nat)
    requires TablesOk(t) && id in t.chains
    requires id in u.chains && u.chains[id] == t.chains[id] && |u.disk| == |t.disk|
    requires |t.chains[id]| >= 1
    requires forall b | 0 <= b < |t.disk| && t.disk[b].FileBlock? && t.disk[b].id == id && b != Last(t.chains[id]) ::
      u.disk[b] == t.disk[b]
    ensures CountsOk(u, id) <==> CountsOk(t, id)
  {
    var c := t.chains[id];
    ChainBlocks(t, id);
    forall i | 0 <= i < |c| - 1 ensures CountAt(u, id, i) <==> CountAt(t, id, i) {
      assert c[i] in c;
      if c[i] == Last(c) { ChainsDisjoint(t, id, i, id, |c| - 1); }
    }
  }

  /** A step that changes no block of file `x` keeps its counts. */
  lemma CountsFrame(t: Tables, u: Tables, x: nat)
    requires TablesOk(t) && x in t.chains
    requires x in u.chains && u.chains[x] == t.chains[x]
    requires |u.disk| == |t.disk|
    requires forall b | 0 <= b < |t.disk| && t.disk[b].FileBlock? && t.disk[b].id == x :: u.disk[b] == t.disk[b]
    requires x in t.bufs ==> x in u.bufs && u.bufs[x] == t.bufs[x]
    ensures CountKept(t, u, x)
  {
    hide CountsOk;
    ChainStarts(t, x);
    CompletedSame(t, u, x);
    if x in t.bufs { WritableIfOpen(t, x); }
  }

  lemma ChainStarts(t: Tables, id: nat)
    requires TablesOk(t) && id in t.chains
    ensures |t.chains[id]| >= 1
    ensures Last(t.chains[id]) < |t.disk| && t.disk[Last(t.chains[id])].FileBlock? && t.disk[Last(t.chains[id])].id == id
  {
    assert ChainOk(t, id) && LinkOk(t, id, t.chains[id], |t.chains[id]| - 1);
  }

  lemma FlattenLength(slots: seq<seq<byte>>, s: seq<byte>)
    ensures |Flatten(slots + [s])| == |Flatten(slots)| + |s|
  {
    FlattenAppend(slots, s);
  }

  lemma BufferCounts(t: Tables, id: nat, data: seq<byte>)
    requires TablesOk(t) && Writable(t, id)
    ensures OthersCounted(t, BufferStep(t, id, data), {id})
    ensures CountsOk(BufferStep(t, id, data), id) <==> CountsOk(t, id)
    ensures InLastBlock(BufferStep(t, id, data), id) == InLastBlock(t, id) + |data|
  {
    var u := BufferStep(t, id, data);
    forall x | x in t.chains && x != id ensures CountKept(t, u, x) {
      CountsFrame(t, u, x);
    }
    CompletedSame(t, u, id);
  }

  lemma CommitCounts(t: Tables, id: nat, data: seq<byte>)
    requires TablesOk(t) && id in t.bufs && Writable(t, id)
    ensures OthersCounted(t, CommitStep(t, id, data), {id})
    ensures CountsOk(CommitStep(t, id, data), id) <==> CountsOk(t, id)
    ensures Writable(CommitStep(t, id, data), id)
    ensures InLastBlock(CommitStep(t, id, data), id) == InLastBlock(t, id) + |data|
  {
    var u := CommitStep(t, id, data);
    WritableIfOpen(t, id);
    FlattenLength(LastBlock(t, id).slots, t.bufs[id] + data);
    forall x | x in t.chains && x != id ensures CountKept(t, u, x) {
      CountsFrame(t, u, x);
    }
    CompletedSame(t, u, id);
  }

  /** What a TAIL commit does to the blocks of its own chain. */
  lemma TailBlocks(t: Tables, id: nat, data: seq<byte>, next: nat, count: nat)
    requires TablesOk(t) && id in t.bufs && Writable(t, id)
    requires next < |t.disk| && t.disk[next] == Free
    ensures var u, c := TailStep(t, id, data, next, count), t.chains[id];
      && |u.disk| == |t.disk| && id in u.chains && u.chains[id] == c + [next]
      && (forall i | 0 <= i < |c| - 1 :: c[i] < |t.disk| && u.disk[c[i]] == t.disk[c[i]])
      && Last(c) < |u.disk|
      && u.disk[Last(c)].FileBlock? && u.disk[Last(c)].count == count
      && BlockBytes(u.disk[Last(c)]) == InLastBlock(t, id) + |data|
      && Writable(u, id) && InLastBlock(u, id) == 0
  {
    var c := t.chains[id];
    FlattenLength(LastBlock(t, id).slots, t.bufs[id] + data);
    WritableIfOpen(t, id);
    SplitLast(t, id);
    ChainBlocks(t, id);
    forall i | 0 <= i < |c| - 1 ensures c[i] < |t.disk| && c[i] != next && c[i] != Last(c) {
      assert c[i] in c[..|c| - 1] && c[i] in c;
    }
  }

  lemma TailOthersCounted(t: Tables, id: nat, data: seq<byte>, next: nat, count: nat)
    requires TablesOk(t) && id in t.bufs && Writable(t, id)
    requires next < |t.disk| && t.disk[next] == Free
    ensures OthersCounted(t, TailStep(t, id, data, next, count), {id})
  {
    var u := TailStep(t, id, data, next, count);
    WritableIfOpen(t, id);
    forall x | x in t.chains && x != id ensures CountKept(t, u, x) {
      CountsFrame(t, u, x);
    }
  }

  /** Completing a block makes its count right exactly if the handle's counter was. */
  lemma TailCounts(t: Tables, id: nat, data: seq<byte>, next: nat, n: word)
    requires TablesOk(t) && id in t.bufs && Writable(t, id)
    requires next < |t.disk| && t.disk[next] == Free
    ensures CountsOk(TailStep(t, id, data, next, Add32(n, |data|)), id) <==> CountsOk(t, id) && InStep(t, id, n)
  {
    hide TablesOk, TailStep;
    var u := TailStep(t, id, data, next, Add32(n, |data|));
    TailBlocks(t, id, data, next, Add32(n, |data|));
    SameRemainder(n, InLastBlock(t, id), |data|);
    var c, d := t.chains[id], u.chains[id];
    assert forall i | 0 <= i < |c| :: d[i] == c[i];
    assert CountRight(u.disk[d[|c| - 1]]) <==> InStep(t, id, n);
    if CountsOk(t, id) && InStep(t, id, n) {
      forall i | 0 <= i < |c| ensures CountAt(u, id, i) {
        if i < |c| - 1 { assert CountAt(t, id, i); }
      }
    }
    if CountsOk(u, id) {
      forall i | 0 <= i < |c| - 1 ensures CountAt(t, id, i) {
        assert CountAt(u, id, i);
      }
      assert CountAt(u, id, |c| - 1);
    }
  }

  lemma SameRemainder(n: word, m: nat, k: nat)
    ensures Add32(n, k) == (m + k) % WORD32 <==> n == m % WORD32
  {
    SameRemainderAdded(n, m, k);
    RemainderUnique(n, 0, n);
  }
}
