// Every step of the tables keeps the invariant and means what the user of the
// volume expects of it.
module TablesProofs {
  import opened Geometry
  import opened Tables

  // ------------------------------------------------------------ small facts

  /** Different inode blocks store different parts of the log. */
  lemma BlocksApart(i: nat, j: nat, size: nat)
    requires i < j
    ensures i * size + size <= j * size
  {
    assert (i + 1) * size <= j * size;
  }

  lemma TwoPages(t: Tables)
    requires TablesOk(t)
    ensures t.pages >= 2
  {
  }

  lemma FlattenAppend(slots: seq<seq<byte>>, s: seq<byte>)
    ensures Flatten(slots + [s]) == Flatten(slots) + s
  {
    assert (slots + [s])[..|slots|] == slots;
  }

  lemma CommittedAppend(disk: seq<AbstractBlock>, chain: seq<nat>, b: nat)
    ensures Committed(disk, chain + [b]) == Committed(disk, chain) + BlockData(disk, b)
  {
    assert (chain + [b])[..|chain|] == chain;
  }

  /** Blocks outside a chain do not matter to what it holds. */
  lemma {:induction false} CommittedFrame(d: seq<AbstractBlock>, e: seq<AbstractBlock>, chain: seq<nat>)
    requires forall b | b in chain :: BlockData(d, b) == BlockData(e, b)
    ensures Committed(d, chain) == Committed(e, chain)
  {
    if chain != [] {
      var rest := chain[..|chain| - 1];
      assert chain[|chain| - 1] in chain;
      assert forall b | b in rest :: b in chain;
      CommittedFrame(d, e, rest);
    }
  }

  /** In a good volume two places of the chains never hold the same block. */
  lemma ChainsDisjoint(t: Tables, id: nat, i: nat, other: nat, j: nat)
    requires TablesOk(t)
    requires id in t.chains && i < |t.chains[id]|
    requires other in t.chains && j < |t.chains[other]|
    requires t.chains[id][i] == t.chains[other][j]
    ensures id == other && i == j
  {
    assert ChainOk(t, id) && ChainOk(t, other);
    assert LinkOk(t, id, t.chains[id], i);
    assert LinkOk(t, other, t.chains[other], j);
  }

  /** Every block has one owner: the inode chain and all file chains are acyclic and disjoint. */
  ghost predicate OwnedOnce(t: Tables) {
    && (forall i, j :: 0 <= i < j < |t.inodes| ==> t.inodes[i] != t.inodes[j])
    && (forall id, i, k :: id in t.chains && 0 <= i < |t.chains[id]| && 0 <= k < |t.inodes| ==>
          t.chains[id][i] != t.inodes[k])
    && (forall id, i, other, j :: (id in t.chains && other in t.chains &&
          0 <= i < |t.chains[id]| && 0 <= j < |t.chains[other]| && (id != other || i != j)) ==>
          t.chains[id][i] != t.chains[other][j])
  }

  lemma NoBlockOwnedTwice(t: Tables)
    requires TablesOk(t)
    ensures OwnedOnce(t)
  {
    forall i, j | 0 <= i < j < |t.inodes|
      ensures t.inodes[i] != t.inodes[j]
    {
      assert InodeOk(t, i) && InodeOk(t, j);
    }
    forall id, i, k | id in t.chains && 0 <= i < |t.chains[id]| && 0 <= k < |t.inodes|
      ensures t.chains[id][i] != t.inodes[k]
    {
      assert ChainOk(t, id) && LinkOk(t, id, t.chains[id], i) && InodeOk(t, k);
    }
    forall id, i, other, j | id in t.chains && other in t.chains &&
      0 <= i < |t.chains[id]| && 0 <= j < |t.chains[other]| && (id != other || i != j)
      ensures t.chains[id][i] != t.chains[other][j]
    {
      if t.chains[id][i] == t.chains[other][j] {
        ChainsDisjoint(t, id, i, other, j);
      }
    }
  }

  lemma WritableIfOpen(t: Tables, id: nat)
    requires TablesOk(t)
    requires id in t.bufs
    ensures Writable(t, id)
    ensures LastBlock(t, id).id == id && LastBlock(t, id).idx == |t.chains[id]| - 1
    ensures LastBlock(t, id).next == NO_BLOCK
    ensures |LastBlock(t, id).slots| < SlotCount(t.pages)
    ensures |LastBlock(t, id).slots| == 0 <==> t.dirty == Some(id)
    ensures |t.bufs[id]| < Capacity(t.pages, |LastBlock(t, id).slots|)
  {
    assert BufferOk(t, id);
    assert ChainOk(t, id);
    assert LinkOk(t, id, t.chains[id], |t.chains[id]| - 1);
  }

  // ------------------------------------------------------- the invariant kept

  lemma BufferKeeps(t: Tables, id: nat, data: seq<byte>)
    requires TablesOk(t)
    requires id in t.bufs
    requires Writable(t, id)
    requires |t.bufs[id]| + |data| < Capacity(t.pages, |LastBlock(t, id).slots|)
    ensures TablesOk(BufferStep(t, id, data))
  {
    var u := BufferStep(t, id, data);
    forall i | 0 <= i < |u.inodes| ensures InodeOk(u, i) { assert InodeOk(t, i); }
    forall n | 0 <= n < |u.log| ensures EntryOk(u, n) { assert EntryOk(t, n); }
    forall x | x in u.chains ensures ChainOk(u, x) {
      assert ChainOk(t, x);
      forall i | 0 <= i < |u.chains[x]| ensures LinkOk(u, x, u.chains[x], i) {
        assert LinkOk(t, x, t.chains[x], i);
      }
    }
    forall b | 0 <= b < |u.disk| ensures OwnerOk(u, b) { assert OwnerOk(t, b); }
    forall x | x in u.bufs ensures BufferOk(u, x) { assert BufferOk(t, x) || x == id; }
  }

  lemma CommitKeeps(t: Tables, id: nat, data: seq<byte>)
    requires TablesOk(t)
    requires id in t.bufs && Writable(t, id)
    requires |LastBlock(t, id).slots| + 1 < SlotCount(t.pages)
    requires |t.bufs[id]| + |data| <= Capacity(t.pages, |LastBlock(t, id).slots|)
    ensures TablesOk(CommitStep(t, id, data))
  {
    var u := CommitStep(t, id, data);
    WritableIfOpen(t, id);
    forall i | 0 <= i < |u.inodes| ensures InodeOk(u, i) { assert InodeOk(t, i); }
    forall n | 0 <= n < |u.log| ensures EntryOk(u, n) { assert EntryOk(t, n); }
    forall x | x in u.chains ensures ChainOk(u, x) {
      assert ChainOk(t, x);
      forall i | 0 <= i < |u.chains[x]| ensures LinkOk(u, x, u.chains[x], i) {
        assert LinkOk(t, x, t.chains[x], i);
      }
    }
    forall b | 0 <= b < |u.disk| ensures OwnerOk(u, b) { assert OwnerOk(t, b); }
    forall x | x in u.bufs ensures BufferOk(u, x) {
      assert BufferOk(t, x);
      assert ChainOk(t, x) && LinkOk(t, x, t.chains[x], |t.chains[x]| - 1);
    }
  }

  lemma TailKeeps(t: Tables, id: nat, data: seq<byte>, next: nat, count: nat)
    requires TablesOk(t)
    requires id in t.bufs && Writable(t, id)
    requires t.dirty == None
    requires |LastBlock(t, id).slots| + 1 == SlotCount(t.pages)
    requires |t.bufs[id]| + |data| <= Capacity(t.pages, |LastBlock(t, id).slots|)
    requires next < |t.disk| && t.disk[next] == Free
    ensures TablesOk(TailStep(t, id, data, next, count))
  {
    var u := TailStep(t, id, data, next, count);
    WritableIfOpen(t, id);
    forall i | 0 <= i < |u.inodes| ensures InodeOk(u, i) { assert InodeOk(t, i); }
    forall n | 0 <= n < |u.log| ensures EntryOk(u, n) { assert EntryOk(t, n); }
    forall x | x in u.chains ensures ChainOk(u, x) {
      assert ChainOk(t, x);
      forall i | 0 <= i < |u.chains[x]| ensures LinkOk(u, x, u.chains[x], i) {
        if i < |t.chains[x]| {
          assert LinkOk(t, x, t.chains[x], i);
        }
      }
    }
    forall b | 0 <= b < |u.disk| ensures OwnerOk(u, b) { assert OwnerOk(t, b); }
    forall x | x in u.bufs ensures BufferOk(u, x) {
      assert BufferOk(t, x);
      assert ChainOk(t, x) && LinkOk(t, x, t.chains[x], |t.chains[x]| - 1);
    }
  }

  lemma LinkInodeKeeps(t: Tables, next: nat)
    requires TablesOk(t)
    requires next < |t.disk| && t.disk[next] == Free
    requires Last(t.inodes) < |t.disk|
    requires t.disk[Last(t.inodes)].InodeBlock?
    requires |t.inodes| * EntriesPerBlock(t.pages) == |t.log| + 1
    ensures TablesOk(LinkInodeStep(t, next))
    ensures Early(LinkInodeStep(t, next))
  {
    var u := LinkInodeStep(t, next);
    forall i | 0 <= i < |u.inodes| ensures InodeOk(u, i) {
      if i < |t.inodes| {
        assert InodeOk(t, i) && InodeOk(t, |t.inodes| - 1);
      }
    }
    forall n | 0 <= n < |u.log| ensures EntryOk(u, n) { assert EntryOk(t, n); }
    forall x | x in u.chains ensures ChainOk(u, x) {
      assert ChainOk(t, x);
      forall i | 0 <= i < |u.chains[x]| ensures LinkOk(u, x, u.chains[x], i) {
        assert LinkOk(t, x, t.chains[x], i);
      }
    }
    forall b | 0 <= b < |u.disk| ensures OwnerOk(u, b) { assert OwnerOk(t, b); }
    forall x | x in u.bufs ensures BufferOk(u, x) { assert BufferOk(t, x); }
  }

  /** Inode block `i` is where record `n` belongs. */
  ghost predicate RecordAt(t: Tables, n: nat, i: nat)
    requires t.pages >= 2
  {
    var size := EntriesPerBlock(t.pages);
    i < |t.inodes| && i * size <= n < i * size + size
  }

  lemma CreateKeeps(t: Tables, name: string, first: nat, i: nat)
    requires TablesOk(t)
    requires RecordAt(t, |t.log|, i)
    requires t.inodes[i] < |t.disk| && t.disk[t.inodes[i]].InodeBlock?
    requires first < |t.disk| && t.disk[first] == Free
    requires t.dirty == None
    requires ValidName(name) && name !in Directory(t.log)
    requires |t.log| + 1 < ERASED32
    // the record left in the last inode block is not its last one, unless another inode block follows
    requires (i + 1) * EntriesPerBlock(t.pages) == |t.log| + 1 ==> i + 1 < |t.inodes|
    ensures TablesOk(CreateStep(t, name, first, t.inodes[i]))
    ensures !Early(CreateStep(t, name, first, t.inodes[i]))
  {
    hide Directory, LogSlice;
    var u := CreateStep(t, name, first, t.inodes[i]);
    var id := |t.log| + 1;
    assert forall x | x in t.chains :: ChainOk(t, x) && x <= |t.log|;
    CreateInodes(t, name, first, i);
    CreateLogOk(t, u, name, first);
    forall x | x in u.chains ensures ChainOk(u, x) {
      if x != id {
        assert ChainOk(t, x);
        forall k | 0 <= k < |u.chains[x]| ensures LinkOk(u, x, u.chains[x], k) {
          assert LinkOk(t, x, t.chains[x], k);
        }
      }
    }
    forall b | 0 <= b < |u.disk| ensures OwnerOk(u, b) { assert OwnerOk(t, b) && InodeOk(t, i); }
    forall x | x in u.bufs ensures BufferOk(u, x) {
      if x != id {
        assert BufferOk(t, x) && InodeOk(t, i);
      }
    }
    CreateRoom(t, u, i);
  }

  lemma CreateInodes(t: Tables, name: string, first: nat, i: nat)
    requires TablesOk(t)
    requires RecordAt(t, |t.log|, i)
    requires t.inodes[i] < |t.disk| && t.disk[t.inodes[i]].InodeBlock?
    requires first < |t.disk| && t.disk[first] == Free
    ensures var u := CreateStep(t, name, first, t.inodes[i]);
      forall k {:trigger InodeOk(u, k)} | 0 <= k < |u.inodes| :: InodeOk(u, k)
  {
    var size := EntriesPerBlock(t.pages);
    var u := CreateStep(t, name, first, t.inodes[i]);
    forall k | 0 <= k < |u.inodes| ensures InodeOk(u, k) {
      assert InodeOk(t, k) && InodeOk(t, i);
      if k < i { BlocksApart(k, i, size); }
      if i < k { BlocksApart(i, k, size); }
      if k == i {
        assert LogSlice(u.log, k, size) == LogSlice(t.log, k, size) + [u.log[|t.log|]];
      } else {
        assert LogSlice(u.log, k, size) == LogSlice(t.log, k, size);
      }
    }
  }

  lemma CreateRoom(t: Tables, u: Tables, i: nat)
    requires t.pages >= 2 && u.pages == t.pages && u.inodes == t.inodes && |u.log| == |t.log| + 1
    requires |t.inodes| >= 1 && (Roomy(t) || Early(t))
    requires RecordAt(t, |t.log|, i)
    requires (i + 1) * EntriesPerBlock(t.pages) == |t.log| + 1 ==> i + 1 < |t.inodes|
    ensures Roomy(u) && !Early(u)
  {
    var size := EntriesPerBlock(t.pages);
    var last := |t.inodes| - 1;
    assert (i + 1) * size == i * size + size;
    if i < last { BlocksApart(i, last, size); }
    assert i * size + size == |t.log| + 1 ==> i < last;
    if i == last {
      assert |t.log| + 1 < last * size + size;
    } else if i + 1 < last {
      BlocksApart(i + 1, last, size);
    }
  }

  lemma CreateLogOk(t: Tables, u: Tables, name: string, first: nat)
    requires LogOk(t)
    requires ValidName(name) && name !in Directory(t.log)
    requires |t.log| + 1 < ERASED32
    requires |t.log| + 1 !in t.chains
    requires u.log == t.log + [Born(|t.log| + 1, first, name)]
    requires u.chains == t.chains[|t.log| + 1 := [first]]
    ensures LogOk(u)
  {
    forall n | 0 <= n < |u.log| ensures EntryOk(u, n) {
      if n < |t.log| { assert EntryOk(t, n); }
    }
    forall m, n | 0 <= m < n < |u.log| && !u.log[m].dead && !u.log[n].dead
      ensures u.log[m].name != u.log[n].name
    {
      if n == |t.log| { DirectoryHas(t.log, m); }
    }
  }

  /** A live record is in the directory under its own id. */
  lemma {:induction false} DirectoryHas(log: seq<Entry>, n: nat)
    requires NamesUnique(log)
    requires n < |log| && !log[n].dead
    ensures log[n].name in Directory(log) && Directory(log)[log[n].name] == n + 1
  {
    var last := |log| - 1;
    if n < last {
      assert NamesUnique(log[..last]);
      DirectoryHas(log[..last], n);
    }
  }

  /** And the directory has nothing else. */
  lemma {:induction false} DirectoryOnly(log: seq<Entry>, name: string)
    requires name in Directory(log)
    ensures 1 <= Directory(log)[name] <= |log|
    ensures var e := log[Directory(log)[name] - 1]; !e.dead && e.name == name
  {
    var last := |log| - 1;
    if log[last].dead || log[last].name != name {
      DirectoryOnly(log[..last], name);
    }
  }

  lemma OpenKeeps(t: Tables, id: nat)
    requires TablesOk(t)
    requires id in t.chains && id !in t.bufs
    ensures TablesOk(OpenStep(t, id))
  {
    var u := OpenStep(t, id);
    forall i | 0 <= i < |u.inodes| ensures InodeOk(u, i) { assert InodeOk(t, i); }
    forall n | 0 <= n < |u.log| ensures EntryOk(u, n) { assert EntryOk(t, n); }
    forall x | x in u.chains ensures ChainOk(u, x) {
      assert ChainOk(t, x);
      forall i | 0 <= i < |u.chains[x]| ensures LinkOk(u, x, u.chains[x], i) {
        assert LinkOk(t, x, t.chains[x], i);
      }
    }
    forall b | 0 <= b < |u.disk| ensures OwnerOk(u, b) { assert OwnerOk(t, b); }
    forall x | x in u.bufs ensures BufferOk(u, x) {
      assert x == id || BufferOk(t, x);
      assert ChainOk(t, x) && LinkOk(t, x, t.chains[x], |t.chains[x]| - 1);
    }
  }

  lemma CloseKeeps(t: Tables, ids: set<nat>)
    requires TablesOk(t)
    requires t.dirty.None? || t.dirty.value !in ids
    ensures TablesOk(t.(bufs := t.bufs - ids))
  {
    var u := t.(bufs := t.bufs - ids);
    forall i | 0 <= i < |u.inodes| ensures InodeOk(u, i) { assert InodeOk(t, i); }
    forall n | 0 <= n < |u.log| ensures EntryOk(u, n) { assert EntryOk(t, n); }
    forall x | x in u.chains ensures ChainOk(u, x) {
      assert ChainOk(t, x);
      forall i | 0 <= i < |u.chains[x]| ensures LinkOk(u, x, u.chains[x], i) {
        assert LinkOk(t, x, t.chains[x], i);
      }
    }
    forall b | 0 <= b < |u.disk| ensures OwnerOk(u, b) { assert OwnerOk(t, b); }
    forall x | x in u.bufs ensures BufferOk(u, x) { assert BufferOk(t, x); }
  }

  lemma RemoveKeeps(t: Tables, n: nat, i: nat, k: nat)
    requires TablesOk(t)
    requires n < |t.log| && n + 1 in t.chains
    requires i < |t.inodes| && n == i * EntriesPerBlock(t.pages) + k && k < EntriesPerBlock(t.pages)
    requires t.inodes[i] < |t.disk| && t.disk[t.inodes[i]].InodeBlock? && k < |t.disk[t.inodes[i]].entries|
    ensures TablesOk(RemoveStep(t, n, t.inodes[i], k)) <==> n + 1 !in t.bufs
    ensures Early(RemoveStep(t, n, t.inodes[i], k)) <==> Early(t)
  {
    hide LogSlice;
    var u := RemoveStep(t, n, t.inodes[i], k);
    var id := n + 1;
    var chain := t.chains[id];
    assert ChainOk(t, id);
    forall b | b in chain ensures b < |t.disk| && t.disk[b].FileBlock? && t.disk[b].id == id {
      var j :| 0 <= j < |chain| && chain[j] == b;
      assert LinkOk(t, id, chain, j);
    }
    assert InodeOk(t, i);
    RemoveInodes(t, n, i, k);
    forall m | 0 <= m < |u.log| ensures EntryOk(u, m) { assert EntryOk(t, m); }
    forall x | x in u.chains ensures ChainOk(u, x) {
      assert ChainOk(t, x);
      forall m | 0 <= m < |u.chains[x]| ensures LinkOk(u, x, u.chains[x], m) {
        assert LinkOk(t, x, t.chains[x], m);
      }
    }
    forall b | 0 <= b < |u.disk| ensures OwnerOk(u, b) {
      assert OwnerOk(t, b);
      if b !in chain { assert u.disk[b] == t.disk[b] || b == t.inodes[i]; }
    }
    if id in t.bufs {
      assert !BufferOk(u, id);
    } else {
      forall x | x in u.bufs ensures BufferOk(u, x) {
        assert BufferOk(t, x) && ChainOk(t, x);
        assert LinkOk(t, x, t.chains[x], |t.chains[x]| - 1);
      }
    }
  }

  lemma RemoveInodes(t: Tables, n: nat, i: nat, k: nat)
    requires TablesOk(t)
    requires n < |t.log| && n + 1 in t.chains
    requires i < |t.inodes| && n == i * EntriesPerBlock(t.pages) + k && k < EntriesPerBlock(t.pages)
    requires t.inodes[i] < |t.disk| && t.disk[t.inodes[i]].InodeBlock? && k < |t.disk[t.inodes[i]].entries|
    requires forall b | b in t.chains[n + 1] :: b < |t.disk| && t.disk[b].FileBlock?
    ensures var u := RemoveStep(t, n, t.inodes[i], k);
      forall m {:trigger InodeOk(u, m)} | 0 <= m < |u.inodes| :: InodeOk(u, m)
  {
    var size := EntriesPerBlock(t.pages);
    var u := RemoveStep(t, n, t.inodes[i], k);
    assert InodeOk(t, i);
    forall m | 0 <= m < |u.inodes| ensures InodeOk(u, m) {
      assert InodeOk(t, m);
      if m < i { BlocksApart(m, i, size); }
      if i < m { BlocksApart(i, m, size); }
      if m == i {
        assert LogSlice(u.log, m, size) == LogSlice(t.log, m, size)[k := u.log[n]];
      } else {
        assert LogSlice(u.log, m, size) == LogSlice(t.log, m, size);
      }
    }
  }
}
