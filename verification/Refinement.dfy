// What the steps of the tables mean to the user of the volume, one step at a
// time and over whole runs.
module Refinement {
  import opened Geometry
  import opened Tables
  import opened TablesProofs

  function NameOf(t: Tables, id: nat): string
    requires 1 <= id <= |t.log|
  {
    t.log[id - 1].name
  }

  /** `id` is a live file. */
  ghost predicate Live(t: Tables, id: nat) {
    id in t.chains && 1 <= id <= |t.log|
  }

  lemma LiveIfChained(t: Tables, id: nat)
    requires TablesOk(t) && id in t.chains
    ensures Live(t, id)
    ensures !t.log[id - 1].dead
    ensures NameOf(t, id) in Directory(t.log) && Directory(t.log)[NameOf(t, id)] == id
    ensures NameOf(t, id) in FileMap(t) && FileMap(t)[NameOf(t, id)] == ContentOf(t, id)
  {
    assert ChainOk(t, id);
    assert EntryOk(t, id - 1);
    DirectoryHas(t.log, id - 1);
  }

  /** Every name of the directory is that of a live file. */
  lemma DirectoryLive(t: Tables)
    requires TablesOk(t)
    ensures forall name | name in Directory(t.log) ::
      var id := Directory(t.log)[name]; Live(t, id) && NameOf(t, id) == name
  {
    forall name | name in Directory(t.log)
      ensures var id := Directory(t.log)[name]; Live(t, id) && NameOf(t, id) == name
    {
      DirectoryOnly(t.log, name);
      assert EntryOk(t, Directory(t.log)[name] - 1);
    }
  }

  /** The names of the volume are those of the directory. */
  lemma NamesAreDirectory(t: Tables)
    requires TablesOk(t)
    ensures FileMap(t).Keys == Directory(t.log).Keys
  {
    DirectoryLive(t);
  }

  lemma ComposeUpdate(dir: map<string, nat>, c: map<nat, seq<byte>>, name: string, v: seq<byte>)
    requires name in dir
    requires forall x | x in dir && x != name :: dir[x] != dir[name]
    ensures Compose(dir, c[dir[name] := v]) == Compose(dir, c)[name := v]
  {
  }

  lemma ComposeAdd(dir: map<string, nat>, c: map<nat, seq<byte>>, name: string, id: nat, v: seq<byte>)
    requires name !in dir
    requires forall x | x in dir :: dir[x] != id
    ensures Compose(dir[name := id], c[id := v]) == Compose(dir, c)[name := v]
  {
  }

  lemma ComposeDrop(dir: map<string, nat>, c: map<nat, seq<byte>>, name: string)
    requires name in dir
    requires forall x | x in dir && x != name :: dir[x] != dir[name]
    ensures Compose(dir - {name}, c - {dir[name]}) == Compose(dir, c) - {name}
  {
  }

  /** If the records stay and only one file's content changes, so does the volume. */
  lemma OneFileChanges(t: Tables, u: Tables, id: nat, v: seq<byte>)
    requires TablesOk(t) && id in t.chains
    requires u.log == t.log && Contents(u) == Contents(t)[id := v]
    ensures Live(t, id) && FileMap(u) == FileMap(t)[NameOf(t, id) := v]
  {
    LiveIfChained(t, id);
    DirectoryLive(t);
    ComposeUpdate(Directory(t.log), Contents(t), NameOf(t, id), v);
  }

  /** The contents of `u` are those of `t` but for one file. */
  lemma ContentsUpdate(t: Tables, u: Tables, id: nat, v: seq<byte>)
    requires u.chains.Keys == t.chains.Keys + {id}
    requires ContentOf(u, id) == v
    requires forall x | x in t.chains && x != id :: ContentOf(u, x) == ContentOf(t, x)
    ensures Contents(u) == Contents(t)[id := v]
  {
  }

  // -------------------------------------------------------- committed data

  /** What is committed in `t` is committed, in the same places, in `u`, for every file `u` still has. */
  ghost predicate Grown(t: Tables, u: Tables) {
    forall id | id in t.chains && id in u.chains :: ChainGrown(t, u, id)
  }

  ghost predicate ChainGrown(t: Tables, u: Tables, id: nat)
    requires id in t.chains && id in u.chains
  {
    && t.chains[id] <= u.chains[id]
    && forall b | b in t.chains[id] :: BlockGrown(t, u, b)
  }

  ghost predicate BlockGrown(t: Tables, u: Tables, b: nat) {
    && b < |t.disk| && b < |u.disk|
    && t.disk[b].FileBlock? && u.disk[b].FileBlock?
    && u.disk[b].idx == t.disk[b].idx
    && t.disk[b].slots <= u.disk[b].slots
  }

  lemma GrownRefl(t: Tables)
    requires TablesOk(t)
    ensures Grown(t, t)
  {
    forall id | id in t.chains ensures ChainGrown(t, t, id) {
      ChainBlocks(t, id);
    }
  }

  lemma ChainBlocks(t: Tables, id: nat)
    requires TablesOk(t) && id in t.chains
    ensures forall b | b in t.chains[id] :: b < |t.disk| && t.disk[b].FileBlock? && t.disk[b].id == id
  {
    assert ChainOk(t, id);
    forall b | b in t.chains[id]
      ensures b < |t.disk| && t.disk[b].FileBlock? && t.disk[b].id == id
    {
      var i :| 0 <= i < |t.chains[id]| && t.chains[id][i] == b;
      assert LinkOk(t, id, t.chains[id], i);
    }
  }

  lemma GrownTrans(t: Tables, u: Tables, v: Tables)
    requires Grown(t, u) && Grown(u, v)
    requires t.chains.Keys * v.chains.Keys <= u.chains.Keys
    ensures Grown(t, v)
  {
    forall id | id in t.chains && id in v.chains
      ensures ChainGrown(t, v, id)
    {
      assert id in t.chains.Keys * v.chains.Keys;
      assert ChainGrown(t, u, id) && ChainGrown(u, v, id);
      forall b | b in t.chains[id]
        ensures BlockGrown(t, v, b)
      {
        assert BlockGrown(t, u, b) && b in u.chains[id] && BlockGrown(u, v, b);
      }
    }
  }

  // --------------------------------------------------------- each step means

  /** Steps that touch only the last block of `id` leave every other chain's data alone. */
  lemma OthersCommitted(t: Tables, u: Tables, id: nat)
    requires TablesOk(t) && id in t.chains
    requires |u.disk| == |t.disk|
    requires forall b | 0 <= b < |t.disk| && t.disk[b].FileBlock? && t.disk[b].id != id :: u.disk[b] == t.disk[b]
    ensures forall x | x in t.chains && x != id :: Committed(u.disk, t.chains[x]) == Committed(t.disk, t.chains[x])
  {
    forall x | x in t.chains && x != id
      ensures Committed(u.disk, t.chains[x]) == Committed(t.disk, t.chains[x])
    {
      ChainBlocks(t, x);
      CommittedFrame(t.disk, u.disk, t.chains[x]);
    }
  }

  /** From `t` to `u` the content of `id` gets `data` at its end, and nothing else changes
      for the user. */
  ghost predicate Appends(t: Tables, u: Tables, id: nat, data: seq<byte>) {
    && id in t.chains
    && u.log == t.log
    && u.chains.Keys == t.chains.Keys
    && Contents(u) == Contents(t)[id := ContentOf(t, id) + data]
  }

  lemma AppendsMeans(t: Tables, u: Tables, id: nat, data: seq<byte>)
    requires TablesOk(t)
    requires Appends(t, u, id, data)
    ensures Live(t, id)
    ensures FileMap(u) == FileMap(t)[NameOf(t, id) := ContentOf(t, id) + data]
  {
    OneFileChanges(t, u, id, ContentOf(t, id) + data);
  }

  lemma AppendsTrans(t: Tables, u: Tables, v: Tables, id: nat, a: seq<byte>, b: seq<byte>)
    requires Appends(t, u, id, a) && Appends(u, v, id, b)
    ensures Appends(t, v, id, a + b)
  {
    assert Contents(t)[id] == ContentOf(t, id);
    assert Contents(u)[id] == ContentOf(u, id);
    AppendTwice(Contents(t), id, a, b);
  }

  lemma AppendTwice(c: map<nat, seq<byte>>, id: nat, a: seq<byte>, b: seq<byte>)
    requires id in c
    ensures c[id := c[id] + a][id := c[id] + a + b] == c[id := c[id] + (a + b)]
  {
    assert c[id] + a + b == c[id] + (a + b);
  }

  lemma BufferMeans(t: Tables, id: nat, data: seq<byte>)
    requires TablesOk(t) && Writable(t, id)
    ensures Appends(t, BufferStep(t, id, data), id, data)
    ensures Grown(t, BufferStep(t, id, data))
  {
    var u := BufferStep(t, id, data);
    FilesKept(t, u);
    assert ContentOf(u, id) == ContentOf(t, id) + data;
    ContentsUpdate(t, u, id, ContentOf(t, id) + data);
  }

  /** What the chain of `id` holds, seen as everything before its last block and that block. */
  lemma SplitLast(t: Tables, id: nat)
    requires TablesOk(t) && Writable(t, id)
    ensures Last(t.chains[id]) !in t.chains[id][..|t.chains[id]| - 1]
    ensures Committed(t.disk, t.chains[id]) ==
            Committed(t.disk, t.chains[id][..|t.chains[id]| - 1]) + Flatten(LastBlock(t, id).slots)
  {
    var c := t.chains[id];
    forall i | 0 <= i < |c| - 1 ensures c[i] != Last(c) {
      if c[i] == Last(c) { ChainsDisjoint(t, id, i, id, |c| - 1); }
    }
  }

  /** The disk after one more sector of the last block of `id` has been committed. */
  ghost predicate LastExtended(t: Tables, disk: seq<AbstractBlock>, id: nat, payload: seq<byte>)
    requires Writable(t, id)
  {
    && |disk| == |t.disk|
    && (forall b | 0 <= b < |disk| && t.disk[b].FileBlock? && b != Last(t.chains[id]) :: disk[b] == t.disk[b])
    && var a := disk[Last(t.chains[id])];
    && a.FileBlock? && a.idx == LastBlock(t, id).idx && a.slots == LastBlock(t, id).slots + [payload]
  }

  lemma LastExtendedMeans(t: Tables, disk: seq<AbstractBlock>, id: nat, payload: seq<byte>)
    requires TablesOk(t) && id in t.bufs && Writable(t, id)
    requires LastExtended(t, disk, id, payload)
    ensures Committed(disk, t.chains[id]) == Committed(t.disk, t.chains[id]) + payload
  {
    hide TablesOk, Flatten;
    var c := t.chains[id];
    SplitLast(t, id);
    ChainBlocks(t, id);
    CommittedFrame(t.disk, disk, c[..|c| - 1]);
    CommittedSplit(disk, c);
    var slots := LastBlock(t, id).slots;
    FlattenAppend(slots, payload);
    assert (Committed(t.disk, c[..|c| - 1]) + Flatten(slots)) + payload ==
           Committed(t.disk, c[..|c| - 1]) + (Flatten(slots) + payload);
  }

  lemma CommittedSplit(disk: seq<AbstractBlock>, chain: seq<nat>)
    requires |chain| >= 1
    ensures Committed(disk, chain) == Committed(disk, chain[..|chain| - 1]) + BlockData(disk, Last(chain))
  {
  }

  lemma LastExtendedOthers(t: Tables, disk: seq<AbstractBlock>, id: nat, payload: seq<byte>)
    requires TablesOk(t) && id in t.bufs && Writable(t, id)
    requires LastExtended(t, disk, id, payload)
    ensures forall x | x in t.chains && x != id :: Committed(disk, t.chains[x]) == Committed(t.disk, t.chains[x])
  {
    WritableIfOpen(t, id);
    OthersCommitted(t, t.(disk := disk), id);
  }

  lemma LastExtendedGrows(t: Tables, u: Tables, id: nat, payload: seq<byte>)
    requires TablesOk(t) && Writable(t, id)
    requires LastExtended(t, u.disk, id, payload)
    requires forall x | x in t.chains && x in u.chains :: t.chains[x] <= u.chains[x]
    ensures Grown(t, u)
  {
    forall x | x in t.chains && x in u.chains ensures ChainGrown(t, u, x) {
      ChainBlocks(t, x);
    }
  }

  lemma CommitMeans(t: Tables, id: nat, data: seq<byte>)
    requires TablesOk(t) && id in t.bufs && Writable(t, id)
    ensures Appends(t, CommitStep(t, id, data), id, data)
    ensures Grown(t, CommitStep(t, id, data))
    ensures Committed(CommitStep(t, id, data).disk, t.chains[id]) == ContentOf(t, id) + data
  {
    var u := CommitStep(t, id, data);
    assert LastExtended(t, u.disk, id, t.bufs[id] + data);
    LastExtendedMeans(t, u.disk, id, t.bufs[id] + data);
    LastExtendedOthers(t, u.disk, id, t.bufs[id] + data);
    LastExtendedGrows(t, u, id, t.bufs[id] + data);
    assert ContentOf(u, id) == ContentOf(t, id) + data;
    ContentsUpdate(t, u, id, ContentOf(t, id) + data);
  }

  lemma TailContent(t: Tables, id: nat, data: seq<byte>, next: nat, count: nat)
    requires TablesOk(t) && id in t.bufs && Writable(t, id)
    requires next < |t.disk| && t.disk[next] == Free
    ensures Committed(TailStep(t, id, data, next, count).disk, t.chains[id] + [next]) == ContentOf(t, id) + data
    ensures Grown(t, TailStep(t, id, data, next, count))
  {
    var u := TailStep(t, id, data, next, count);
    assert LastExtended(t, u.disk, id, t.bufs[id] + data);
    LastExtendedMeans(t, u.disk, id, t.bufs[id] + data);
    LastExtendedGrows(t, u, id, t.bufs[id] + data);
    CommittedAppend(u.disk, t.chains[id], next);
    assert Committed(t.disk, t.chains[id]) + (t.bufs[id] + data) == ContentOf(t, id) + data;
  }

  lemma TailMeans(t: Tables, id: nat, data: seq<byte>, next: nat, count: nat)
    requires TablesOk(t) && id in t.bufs && Writable(t, id)
    requires next < |t.disk| && t.disk[next] == Free
    ensures Appends(t, TailStep(t, id, data, next, count), id, data)
  {
    var u := TailStep(t, id, data, next, count);
    TailContent(t, id, data, next, count);
    LastExtendedOthers(t, u.disk, id, t.bufs[id] + data);
    assert ContentOf(u, id) == ContentOf(t, id) + data;
    ContentsUpdate(t, u, id, ContentOf(t, id) + data);
  }

  /** Steps that change no file block of any chain, and no buffer. */
  lemma FilesKept(t: Tables, u: Tables)
    requires TablesOk(t)
    requires |u.disk| == |t.disk|
    requires u.log == t.log && u.chains == t.chains
    requires forall b | 0 <= b < |t.disk| && t.disk[b].FileBlock? :: u.disk[b] == t.disk[b]
    ensures forall id | id in t.chains :: Committed(u.disk, u.chains[id]) == Committed(t.disk, t.chains[id])
    ensures Grown(t, u)
  {
    forall id | id in t.chains
      ensures Committed(u.disk, u.chains[id]) == Committed(t.disk, t.chains[id])
      ensures ChainGrown(t, u, id)
    {
      ChainBlocks(t, id);
      CommittedFrame(t.disk, u.disk, t.chains[id]);
    }
  }

  lemma LinkInodeMeans(t: Tables, next: nat)
    requires TablesOk(t)
    requires next < |t.disk| && t.disk[next] == Free
    requires Last(t.inodes) < |t.disk| && t.disk[Last(t.inodes)].InodeBlock?
    ensures var u := LinkInodeStep(t, next);
      Contents(u) == Contents(t) && FileMap(u) == FileMap(t) && Grown(t, u)
  {
    var u := LinkInodeStep(t, next);
    FilesKept(t, u);
    assert Contents(u) == Contents(t);
  }

  lemma CreateContents(t: Tables, name: string, first: nat, at: nat)
    requires TablesOk(t)
    requires at < |t.disk| && t.disk[at].InodeBlock?
    requires first < |t.disk| && t.disk[first] == Free
    ensures var u := CreateStep(t, name, first, at);
      Contents(u) == Contents(t)[|t.log| + 1 := []] && Grown(t, u)
  {
    var u := CreateStep(t, name, first, at);
    var id := |t.log| + 1;
    assert forall x | x in t.chains :: ChainOk(t, x) && x <= |t.log|;
    assert Committed(u.disk, [first][..0]) == [];
    assert ContentOf(u, id) == [];
    var v := u.(chains := t.chains, log := t.log, bufs := t.bufs);
    FilesKept(t, v);
    forall x | x in t.chains
      ensures ContentOf(u, x) == ContentOf(t, x)
      ensures ChainGrown(t, u, x)
    {
      assert ChainGrown(t, v, x);
      assert forall b | b in t.chains[x] :: BlockGrown(t, v, b);
    }
    ContentsUpdate(t, u, id, []);
  }

  lemma CreateMeans(t: Tables, name: string, first: nat, at: nat)
    requires TablesOk(t)
    requires at < |t.disk| && t.disk[at].InodeBlock?
    requires first < |t.disk| && t.disk[first] == Free
    requires name !in Directory(t.log)
    ensures var u := CreateStep(t, name, first, at);
      && Contents(u) == Contents(t)[|t.log| + 1 := []]
      && FileMap(u) == FileMap(t)[name := []]
      && Grown(t, u)
  {
    hide Contents, Grown, TablesOk, Compose;
    var u := CreateStep(t, name, first, at);
    var id := |t.log| + 1;
    CreateContents(t, name, first, at);
    assert u.log[..|t.log|] == t.log;
    assert Directory(u.log) == Directory(t.log)[name := id];
    DirectoryLive(t);
    ComposeAdd(Directory(t.log), Contents(t), name, id, []);
  }

  lemma OpenMeans(t: Tables, id: nat)
    requires TablesOk(t) && id in t.chains && id !in t.bufs
    ensures var u := OpenStep(t, id);
      Contents(u) == Contents(t) && FileMap(u) == FileMap(t) && Grown(t, u)
  {
    FilesKept(t, OpenStep(t, id));
    assert Contents(OpenStep(t, id)) == Contents(t);
  }

  /** Dropping writers leaves exactly what they had committed. */
  lemma CloseMeans(t: Tables, ids: set<nat>)
    requires TablesOk(t)
    ensures Grown(t, t.(bufs := t.bufs - ids))
    ensures forall x | x in t.chains && x !in ids :: ContentOf(t.(bufs := t.bufs - ids), x) == ContentOf(t, x)
    ensures forall x | x in t.chains && x in ids ::
      ContentOf(t.(bufs := t.bufs - ids), x) == Committed(t.disk, t.chains[x])
  {
    FilesKept(t, t.(bufs := t.bufs - ids));
  }

  /** The user loses nothing exactly if the dropped writers had nothing buffered. */
  lemma CloseLosesNothing(t: Tables, ids: set<nat>)
    requires TablesOk(t)
    ensures FileMap(t.(bufs := t.bufs - ids)) == FileMap(t) <==>
            forall x | x in ids && x in t.bufs :: t.bufs[x] == []
  {
    var u := t.(bufs := t.bufs - ids);
    CloseMeans(t, ids);
    if x :| x in ids && x in t.bufs && t.bufs[x] != [] {
      assert BufferOk(t, x);
      LiveIfChained(t, x);
      assert FileMap(t)[NameOf(t, x)] == ContentOf(t, x) != ContentOf(u, x);
      assert Contents(u)[x] == ContentOf(u, x);
    } else {
      assert Contents(u) == Contents(t);
    }
  }

  /** Marking a record dead takes its name, and no other, out of the directory. */
  lemma {:induction false} DirectoryWithout(log: seq<Entry>, n: nat, end: nat)
    requires NamesUnique(log)
    requires n < |log| && !log[n].dead
    ensures Directory(log[n := Died(log[n], end)]) == Directory(log) - {log[n].name}
  {
    var after := log[n := Died(log[n], end)];
    var last := |log| - 1;
    if n < last {
      assert NamesUnique(log[..last]);
      DirectoryWithout(log[..last], n, end);
      assert after[..last] == log[..last][n := Died(log[n], end)];
    } else {
      assert after[..last] == log[..last];
      if log[n].name in Directory(log[..last]) {
        DirectoryOnly(log[..last], log[n].name);
      }
    }
  }

  /** The files other than the removed one keep their data. */
  lemma OthersSurviveRemove(t: Tables, n: nat, at: nat, k: nat)
    requires TablesOk(t)
    requires n < |t.log| && n + 1 in t.chains
    requires at < |t.disk| && t.disk[at].InodeBlock? && k < |t.disk[at].entries|
    ensures Contents(RemoveStep(t, n, at, k)) == Contents(t) - {n + 1}
    ensures Grown(t, RemoveStep(t, n, at, k))
  {
    var u := RemoveStep(t, n, at, k);
    ChainBlocks(t, n + 1);
    forall x | x in u.chains
      ensures ContentOf(u, x) == ContentOf(t, x)
      ensures ChainGrown(t, u, x)
    {
      ChainBlocks(t, x);
      CommittedFrame(t.disk, u.disk, t.chains[x]);
    }
  }

  lemma RemoveMeans(t: Tables, n: nat, at: nat, k: nat)
    requires TablesOk(t)
    requires n < |t.log| && n + 1 in t.chains
    requires at < |t.disk| && t.disk[at].InodeBlock? && k < |t.disk[at].entries|
    ensures FileMap(RemoveStep(t, n, at, k)) == FileMap(t) - {t.log[n].name}
  {
    OthersSurviveRemove(t, n, at, k);
    LiveIfChained(t, n + 1);
    DirectoryWithout(t.log, n, EndOf(t.chains[n + 1]));
    DirectoryLive(t);
    ComposeDrop(Directory(t.log), Contents(t), t.log[n].name);
  }
}
