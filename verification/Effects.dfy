// What any write to one file means for the whole volume.
module Effects {
  import opened Geometry
  import opened Tables
  import opened TablesProofs
  import opened Refinement
  import opened Counts
  import opened Machine

  /** The counts of the file and the handle's counter, now `m`, are right exactly if they were, with counter `n`. */
  ghost predicate Counted(t: Tables, u: Tables, id: nat, n: word, m: word) {
    && id in t.chains && id in u.chains
    && Writable(t, id) && Writable(u, id)
    && (CountsOk(u, id) && InStep(u, id, m) <==> CountsOk(t, id) && InStep(t, id, n))
  }

  /** The counts of the completed blocks of the file are right exactly if they were. */
  ghost predicate SameCounts(t: Tables, u: Tables, id: nat) {
    id in t.chains && id in u.chains && (CountsOk(u, id) <==> CountsOk(t, id))
  }

  /** The directory, the open writers and the size of the volume are as before. */
  ghost predicate SameFrame(t: Tables, u: Tables) {
    && u.pages == t.pages && |u.disk| == |t.disk|
    && u.log == t.log && u.inodes == t.inodes
    && u.bufs.Keys == t.bufs.Keys && u.chains.Keys == t.chains.Keys
  }

  /** `data` has been appended to file `id`; to all other files nothing has happened. */
  ghost predicate Wrote(t: Tables, u: Tables, id: nat, data: seq<byte>, n: word, m: word) {
    && SameFrame(t, u)
    && Appends(t, u, id, data)
    && Grown(t, u)
    && OthersCounted(t, u, {id})
    && Counted(t, u, id, n, m)
  }

  lemma WroteTrans(t: Tables, u: Tables, v: Tables, id: nat, a: seq<byte>, b: seq<byte>, n: word, m: word, k: word)
    requires Wrote(t, u, id, a, n, m) && Wrote(u, v, id, b, m, k)
    ensures Wrote(t, v, id, a + b, n, k)
  {
    hide Grown, OthersCounted, Appends, CountsOk, InStep, Writable;
    AppendsTrans(t, u, v, id, a, b);
    GrownTrans(t, u, v);
    OthersCountedTrans(t, u, v, {id}, {id});
    assert {id} + {id} == {id};
  }

  lemma CommitWrote(t: Tables, id: nat, data: seq<byte>, n: word)
    requires TablesOk(t) && id in t.bufs && Writable(t, id)
    ensures Wrote(t, CommitStep(t, id, data), id, data, n, Add32(n, |data|))
    ensures CountsOk(CommitStep(t, id, data), id) <==> CountsOk(t, id)
  {
    hide TablesOk, Appends, CommitStep, OthersCounted, CountsOk, Grown;
    CommitFrames(t, id, data);
    CommitMeans(t, id, data);
    CommitCounts(t, id, data);
    SameRemainder(n, InLastBlock(t, id), |data|);
  }

  lemma CommitFrames(t: Tables, id: nat, data: seq<byte>)
    requires Writable(t, id)
    ensures SameFrame(t, CommitStep(t, id, data))
  {
  }

  lemma BufferWrote(t: Tables, id: nat, data: seq<byte>, n: word)
    requires TablesOk(t) && id in t.bufs && Writable(t, id)
    ensures Wrote(t, BufferStep(t, id, data), id, data, n, Add32(n, |data|))
  {
    hide TablesOk, Appends, OthersCounted, CountsOk, Grown;
    BufferMeans(t, id, data);
    BufferCounts(t, id, data);
    SameRemainder(n, InLastBlock(t, id), |data|);
  }

  lemma TailWrote(t: Tables, id: nat, data: seq<byte>, next: nat, n: word)
    requires TablesOk(t) && id in t.bufs && Writable(t, id)
    requires next < |t.disk| && t.disk[next] == Free
    ensures Wrote(t, TailStep(t, id, data, next, Add32(n, |data|)), id, data, n, 0)
  {
    hide TablesOk, Appends, OthersCounted, CountsOk, Grown;
    TailMeans(t, id, data, next, Add32(n, |data|));
    TailContent(t, id, data, next, Add32(n, |data|));
    TailCounts(t, id, data, next, n);
    TailBlocks(t, id, data, next, Add32(n, |data|));
    TailOthersCounted(t, id, data, next, Add32(n, |data|));
  }

  lemma ContentsSame(t: Tables, u: Tables, other: nat)
    requires Appends(t, u, other, [])
    ensures Contents(u) == Contents(t)
  {
    hide ContentOf;
    assert Contents(t)[other] == ContentOf(t, other);
    AppendNothing(Contents(t), other);
  }

  /** Flushing the dirty file appends nothing to any file. */
  lemma FlushMeans(t: Tables)
    requires TablesOk(t)
    ensures t.dirty.Some? ==> Writable(t, t.dirty.value)
    ensures TablesOk(FlushDirtyStep(t)) && FlushDirtyStep(t).dirty == None
    ensures SameFrame(t, FlushDirtyStep(t)) && Grown(t, FlushDirtyStep(t))
    ensures Contents(FlushDirtyStep(t)) == Contents(t)
    ensures OthersCounted(t, FlushDirtyStep(t), {})
    ensures Keeps(t, FlushDirtyStep(t))
  {
    hide KeepsBy;
    if t.dirty.Some? {
      var id := t.dirty.value;
      WritableIfOpen(t, id);
      FlushKeeps(t, id, Quiet);
      CommitKeeps(t, id, []);
      CommitMeans(t, id, []);
      CommitCounts(t, id, []);
      ContentsSame(t, CommitStep(t, id, []), id);
      assert CountKept(t, CommitStep(t, id, []), id);
    } else {
      GrownRefl(t);
      KeepsRefl(t, Quiet);
      forall x | x in t.chains ensures CountKept(t, t, x) {
        CountsFrame(t, t, x);
      }
    }
  }

  /** Flushing the dirty file is a step that any other writer may take. */
  lemma FlushTakes(t: Tables, id: nat, n: word)
    requires TablesOk(t) && id in t.bufs && t.dirty != Some(id)
    requires t.dirty.Some? ==> Writable(t, t.dirty.value)
    ensures Takes(t, FlushDirtyStep(t), id, n, n)
  {
    hide KeepsBy, Takes;
    if t.dirty.Some? {
      WritableIfOpen(t, t.dirty.value);
      FlushKeeps(t, t.dirty.value, Writes(id));
    } else {
      KeepsRefl(t, Writes(id));
    }
    KeepsTakes(t, FlushDirtyStep(t), id, n);
  }

  lemma FlushWrote(t: Tables, id: nat, n: word)
    requires TablesOk(t) && id in t.bufs
    requires t.dirty.Some? ==> Writable(t, t.dirty.value)
    ensures Wrote(t, FlushDirtyStep(t), id, [], n, n)
  {
    hide TablesOk, FlushDirtyStep, Grown, KeepsBy, CountsOk;
    FlushMeans(t);
    OpenIsLive(t, id);
    var u := FlushDirtyStep(t);
    assert CountKept(t, u, id);
    assert Contents(t)[id] == ContentOf(t, id);
    AppendNothing(Contents(t), id);
  }

  lemma AppendNothing(c: map<nat, seq<byte>>, id: nat)
    requires id in c
    ensures c[id := c[id] + []] == c
  {
    assert c[id] + [] == c[id];
  }

  lemma OpenIsLive(t: Tables, id: nat)
    requires TablesOk(t) && id in t.bufs
    ensures id in t.chains
  {
    WritableIfOpen(t, id);
  }

  /** In the words of the user: the volume changes at one name only. */
  lemma WroteMeans(t: Tables, u: Tables, id: nat, data: seq<byte>, n: word, m: word)
    requires TablesOk(t)
    requires Wrote(t, u, id, data, n, m)
    ensures Live(t, id)
    ensures FileMap(u) == FileMap(t)[NameOf(t, id) := ContentOf(t, id) + data]
  {
    AppendsMeans(t, u, id, data);
  }
}
