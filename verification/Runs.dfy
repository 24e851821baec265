// Whole runs: what holds in every state the volume can reach, and what any
// sequence of steps means to the user.
module Runs {
  import opened Geometry
  import opened Tables
  import opened TablesProofs
  import opened Refinement
  import opened Machine
  import opened Counts
  import opened Effects
  import opened NewFile
  import opened Reader
  import opened Mount
  import OpenClose

  // ------------------------------------------------------------------- safety

  lemma StepKeeps(t: Tables, s: Step, n: word)
    requires TablesOk(t) && Enabled(t, s)
    ensures TablesOk(ApplyTo(t, s, n))
  {
    hide TablesOk;
    match s
    case ToBuffer(id, data) => BufferKeeps(t, id, data);
    case ToSector(id, data) => CommitKeeps(t, id, data);
    case ToTail(id, data, next) => TailKeeps(t, id, data, next, Add32(n, |data|));
    case MoreInodes(next) => LinkInodeKeeps(t, next);
    case NewRecord(name, first, at) => CreateKeeps(t, name, first, at);
    case Opened(id, _) => OpenKeeps(t, id);
    case Closed(id) => CloseKeeps(t, {id});
    case Deleted(n, at) => RemoveKeeps(t, n, at, n - at * EntriesPerBlock(t.pages));
    case Remounted =>
      CloseKeeps(t, t.bufs.Keys);
      assert t.bufs - t.bufs.Keys == map[];
  }

  /** The tables are in order, and there is one counter for each writer. */
  ghost predicate InOrder(v: Volume) {
    TablesOk(v.t) && HasCounters(v.t, v.counters)
  }

  lemma StepInOrder(v: Volume, s: Step)
    requires InOrder(v) && Enabled(v.t, s)
    ensures InOrder(Apply(v, s))
  {
    hide TablesOk;
    StepKeeps(v.t, s, Used(s, v.counters));
  }

  lemma {:induction false} RunKeeps(v: Volume, run: seq<Step>)
    requires InOrder(v) && Legal(v, run)
    ensures InOrder(Run(v, run))
    decreases |run|
  {
    hide InOrder, Enabled, Apply;
    if run != [] {
      StepInOrder(v, run[0]);
      RunKeeps(Apply(v, run[0]), run[1..]);
    }
  }

  /** An empty volume that nobody has open. */
  ghost function Fresh(pages: nat, count: nat): Volume
    requires count >= 1
  {
    Volume(Formatted(pages, count), map[])
  }

  /** Every volume that has grown out of a formatted one is in order: in particular no block is
      ever owned twice. */
  lemma AlwaysInOrder(pages: nat, count: nat, v: Volume)
    requires pages >= 2 && 1 <= count < NO_BLOCK
    requires Reaches(Fresh(pages, count), v)
    ensures InOrder(v) && OwnedOnce(v.t)
  {
    hide TablesOk, Legal, Run, OwnedOnce;
    FormattedOk(pages, count);
    var run :| RunsTo(Fresh(pages, count), run, v);
    RunKeeps(Fresh(pages, count), run);
    NoBlockOwnedTwice(v.t);
  }

  // ---------------------------------------------------------------- refinement

  /** What a step is to the user of the volume, who sees a map from names to contents. */
  datatype Op =
    | Nothing
    | New(name: string)
    | Append(name: string, data: seq<byte>)
    | Delete(name: string)
    | Cut(kept: map<string, nat>)

  function Perform(m: map<string, seq<byte>>, op: Op): map<string, seq<byte>> {
    match op
    case Nothing => m
    case New(name) => m[name := []]
    case Append(name, data) => if name in m then m[name := m[name] + data] else m
    case Delete(name) => m - {name}
    case Cut(kept) =>
      map name | name in m :: if name in kept && kept[name] <= |m[name]| then m[name][..kept[name]] else m[name]
  }

  function PerformAll(m: map<string, seq<byte>>, ops: seq<Op>): map<string, seq<byte>>
    decreases |ops|
  {
    if ops == [] then m else PerformAll(Perform(m, ops[0]), ops[1..])
  }

  /** How much of the files of `ids` has been committed, by name. */
  ghost function Kept(t: Tables, ids: set<nat>): map<string, nat> {
    map name | name in Directory(t.log) && Directory(t.log)[name] in ids && Directory(t.log)[name] in t.chains ::
      |Committed(t.disk, t.chains[Directory(t.log)[name]])|
  }

  /** Closing a writer cuts its file to what has been committed, and remounting does so to all of them. */
  ghost function OpOf(t: Tables, s: Step): Op {
    match s
    case ToBuffer(id, data) => if Live(t, id) then Append(NameOf(t, id), data) else Nothing
    case ToSector(id, data) => if Live(t, id) then Append(NameOf(t, id), data) else Nothing
    case ToTail(id, data, _) => if Live(t, id) then Append(NameOf(t, id), data) else Nothing
    case MoreInodes(_) => Nothing
    case NewRecord(name, _, _) => New(name)
    case Opened(_, _) => Nothing
    case Closed(id) => Cut(Kept(t, {id}))
    case Deleted(n, _) => if n < |t.log| then Delete(t.log[n].name) else Nothing
    case Remounted => Cut(Kept(t, t.bufs.Keys))
  }

  ghost function OpsOf(v: Volume, run: seq<Step>): (ops: seq<Op>)
    requires Legal(v, run)
    ensures |ops| == |run|
    decreases |run|
  {
    if run == [] then [] else [OpOf(v.t, run[0])] + OpsOf(Apply(v, run[0]), run[1..])
  }

  lemma AppendMeans(t: Tables, u: Tables, id: nat, data: seq<byte>)
    requires TablesOk(t) && Appends(t, u, id, data)
    ensures Live(t, id) && FileMap(u) == Perform(FileMap(t), Append(NameOf(t, id), data))
  {
    hide FileMap;
    AppendsMeans(t, u, id, data);
    LiveIfChained(t, id);
  }

  lemma ComposeCut(dir: map<string, nat>, c: map<nat, seq<byte>>, d: map<nat, seq<byte>>, kept: map<string, nat>)
    requires d.Keys == c.Keys
    requires forall name | name in dir && dir[name] in c ::
      d[dir[name]] == if name in kept && kept[name] <= |c[dir[name]]| then c[dir[name]][..kept[name]] else c[dir[name]]
    ensures Compose(dir, d) == Perform(Compose(dir, c), Cut(kept))
  {
  }

  /** What is lost when writers are dropped: just what they had buffered. */
  lemma CutMeans(t: Tables, ids: set<nat>)
    requires TablesOk(t)
    ensures FileMap(t.(bufs := t.bufs - ids)) == Perform(FileMap(t), Cut(Kept(t, ids)))
  {
    hide TablesOk, Committed, Directory, Perform, Compose;
    var u := t.(bufs := t.bufs - ids);
    var dir, kept := Directory(t.log), Kept(t, ids);
    CloseMeans(t, ids);
    forall name | name in dir && dir[name] in Contents(t)
      ensures var c := Contents(t)[dir[name]];
        Contents(u)[dir[name]] == if name in kept && kept[name] <= |c| then c[..kept[name]] else c
    {
      var id := dir[name];
      CutOne(t, id, ids);
      assert Contents(t)[id] == ContentOf(t, id) && Contents(u)[id] == ContentOf(u, id);
    }
    ComposeCut(dir, Contents(t), Contents(u), kept);
  }

  lemma CutOne(t: Tables, id: nat, ids: set<nat>)
    requires TablesOk(t) && id in t.chains
    ensures var n, c := |Committed(t.disk, t.chains[id])|, ContentOf(t, id);
      n <= |c| && ContentOf(t.(bufs := t.bufs - ids), id) == if id in ids then c[..n] else c
  {
    CloseMeans(t, ids);
    var a, b := Committed(t.disk, t.chains[id]), Buffered(t, id);
    assert (a + b)[..|a|] == a;
  }

  lemma StepMeans(t: Tables, s: Step, n: word)
    requires TablesOk(t) && Enabled(t, s)
    ensures FileMap(ApplyTo(t, s, n)) == Perform(FileMap(t), OpOf(t, s))
  {
    hide TablesOk, FileMap, Appends, Committed, Directory, Grown;
    var u := ApplyTo(t, s, n);
    match s
    case ToBuffer(id, data) => BufferMeans(t, id, data); AppendMeans(t, u, id, data);
    case ToSector(id, data) => CommitMeans(t, id, data); AppendMeans(t, u, id, data);
    case ToTail(id, data, next) => TailMeans(t, id, data, next, Add32(n, |data|)); AppendMeans(t, u, id, data);
    case MoreInodes(next) => LinkInodeMeans(t, next);
    case NewRecord(name, first, at) => CreateMeans(t, name, first, t.inodes[at]);
    case Opened(id, _) => OpenMeans(t, id);
    case Closed(id) => CutMeans(t, {id});
    case Deleted(n, at) => RemoveMeans(t, n, t.inodes[at], n - at * EntriesPerBlock(t.pages));
    case Remounted =>
      CutMeans(t, t.bufs.Keys);
      assert t.bufs - t.bufs.Keys == map[];
  }

  /** The volume refines a map from names to contents, over every run. */
  lemma {:induction false} RunMeans(v: Volume, run: seq<Step>)
    requires InOrder(v) && Legal(v, run)
    ensures FileMap(Run(v, run).t) == PerformAll(FileMap(v.t), OpsOf(v, run))
    decreases |run|
  {
    hide TablesOk, Enabled, ApplyTo, FileMap, OpOf, Perform;
    if run != [] {
      StepInOrder(v, run[0]);
      StepMeans(v.t, run[0], Used(run[0], v.counters));
      RunMeans(Apply(v, run[0]), run[1..]);
      var ops := OpsOf(v, run);
      assert ops[0] == OpOf(v.t, run[0]) && ops[1..] == OpsOf(Apply(v, run[0]), run[1..]);
    }
  }

  // -------------------------------------------------------------------- isolation

  /** The names of the files that a step does something to, as far as users can tell. */
  ghost function TouchedBy(t: Tables, s: Step): set<string> {
    match s
    case ToBuffer(id, data) => if Live(t, id) && data != [] then {NameOf(t, id)} else {}
    case ToSector(id, data) => if Live(t, id) && data != [] then {NameOf(t, id)} else {}
    case ToTail(id, data, _) => if Live(t, id) && data != [] then {NameOf(t, id)} else {}
    case NewRecord(name, _, _) => {name}
    case Deleted(n, _) => if n < |t.log| then {t.log[n].name} else {}
    case Closed(id) => if Live(t, id) then {NameOf(t, id)} else {}
    case Remounted => set name | name in Directory(t.log) && Directory(t.log)[name] in t.bufs
    case MoreInodes(_) => {}
    case Opened(_, _) => {}
  }

  /** The names of the files that a run touches. */
  ghost function Touched(v: Volume, run: seq<Step>): set<string>
    requires Legal(v, run)
    decreases |run|
  {
    if run == [] then {} else TouchedBy(v.t, run[0]) + Touched(Apply(v, run[0]), run[1..])
  }

  lemma KeptNames(t: Tables, ids: set<nat>)
    requires TablesOk(t)
    ensures forall name | name in Kept(t, ids) ::
      && name in Directory(t.log) && Directory(t.log)[name] in ids
      && Live(t, Directory(t.log)[name]) && NameOf(t, Directory(t.log)[name]) == name
  {
    DirectoryLive(t);
  }

  /** To other names a step does nothing, even if it commits a sector of another file. */
  lemma StepLeaves(t: Tables, s: Step, n: word, name: string)
    requires TablesOk(t) && Enabled(t, s)
    requires name !in TouchedBy(t, s)
    ensures name in FileMap(ApplyTo(t, s, n)) <==> name in FileMap(t)
    ensures name in FileMap(t) ==> FileMap(ApplyTo(t, s, n))[name] == FileMap(t)[name]
  {
    hide TablesOk, FileMap, Directory, Committed, ApplyTo, Enabled, Kept;
    StepMeans(t, s, n);
    match s
    case ToBuffer(id, data) => NothingAppended(FileMap(t), name, data);
    case ToSector(id, data) => NothingAppended(FileMap(t), name, data);
    case ToTail(id, data, _) => NothingAppended(FileMap(t), name, data);
    case Closed(id) => KeptNames(t, {id});
    case Remounted => KeptNames(t, t.bufs.Keys);
    case NewRecord(_, _, _) =>
    case Deleted(_, _) =>
    case MoreInodes(_) =>
    case Opened(_, _) =>
  }

  lemma NothingAppended(m: map<string, seq<byte>>, name: string, data: seq<byte>)
    ensures data == [] && name in m ==> m[name] + data == m[name]
  {
  }

  /** Over every run, a file that it does not touch keeps its content, or its absence, whatever is
      done to other files in between. */
  lemma {:induction false} UntouchedKept(v: Volume, run: seq<Step>, name: string)
    requires InOrder(v) && Legal(v, run)
    requires name !in Touched(v, run)
    ensures name in FileMap(Run(v, run).t) <==> name in FileMap(v.t)
    ensures name in FileMap(v.t) ==> FileMap(Run(v, run).t)[name] == FileMap(v.t)[name]
    decreases |run|
  {
    hide TablesOk, Enabled, ApplyTo, FileMap, TouchedBy;
    if run != [] {
      StepInOrder(v, run[0]);
      StepLeaves(v.t, run[0], Used(run[0], v.counters), name);
      UntouchedKept(Apply(v, run[0]), run[1..], name);
    }
  }

  // ------------------------------------------------------- ids and committed data

  /** Records are only added, and only change by being marked dead; a dead file stays dead, and its
      record stays as it is. */
  ghost predicate LogKept(t: Tables, u: Tables) {
    && |t.log| <= |u.log|
    && forall n {:trigger EntryKept(t, u, n)} | 0 <= n < |t.log| :: EntryKept(t, u, n)
  }

  ghost predicate EntryKept(t: Tables, u: Tables, n: nat) {
    && n < |t.log| && n < |u.log|
    && (u.log[n] == t.log[n] || (!t.log[n].dead && u.log[n] == Died(t.log[n], u.log[n].last)))
    && (n + 1 in u.chains ==> n + 1 in t.chains)
  }

  lemma StepKeepsLog(t: Tables, s: Step, n: word)
    requires TablesOk(t) && Enabled(t, s)
    ensures LogKept(t, ApplyTo(t, s, n))
    ensures forall id | id in ApplyTo(t, s, n).chains :: 1 <= id <= |ApplyTo(t, s, n).log|
    ensures forall id | id in ApplyTo(t, s, n).chains && id !in t.chains :: id == |t.log| + 1 == |ApplyTo(t, s, n).log|
    ensures |ApplyTo(t, s, n).log| > |t.log| ==> s.NewRecord? && |ApplyTo(t, s, n).log| == |t.log| + 1
  {
    hide TablesOk, Directory, Committed;
    var u := ApplyTo(t, s, n);
    StepKeeps(t, s, n);
    forall id | id in u.chains ensures 1 <= id <= |u.log| { LiveIfChained(u, id); }
    if s.Deleted? { LiveIfChained(t, s.n + 1); }
    forall n | 0 <= n < |t.log| ensures EntryKept(t, u, n) {
    }
  }

  /** The id of a new file is above all ids ever given, those of removed files included: what was
      chained before and is gone does not come back. */
  lemma {:induction false} RunKeepsLog(v: Volume, run: seq<Step>)
    requires InOrder(v) && Legal(v, run)
    ensures LogKept(v.t, Run(v, run).t)
    ensures forall id | id in Run(v, run).t.chains && id !in v.t.chains :: id > |v.t.log|
    decreases |run|
  {
    hide TablesOk, Enabled, ApplyTo;
    if run != [] {
      var t, u, w := v.t, Apply(v, run[0]).t, Run(v, run).t;
      StepInOrder(v, run[0]);
      StepKeepsLog(t, run[0], Used(run[0], v.counters));
      RunKeepsLog(Apply(v, run[0]), run[1..]);
      forall n | 0 <= n < |t.log| ensures EntryKept(t, w, n) {
        assert EntryKept(t, u, n) && EntryKept(u, w, n);
      }
      forall id | id in w.chains && id !in t.chains ensures id > |t.log| {
        if id in u.chains { assert id == |t.log| + 1; }
      }
    } else {
      forall n | 0 <= n < |v.t.log| ensures EntryKept(v.t, v.t, n) {
      }
    }
  }

  lemma StepGrows(t: Tables, s: Step, n: word)
    requires TablesOk(t) && Enabled(t, s)
    ensures Grown(t, ApplyTo(t, s, n)) && ApplyTo(t, s, n).pages == t.pages
  {
    hide TablesOk, FileMap, Appends, Committed, Directory, Grown;
    match s
    case ToBuffer(id, data) => BufferMeans(t, id, data);
    case ToSector(id, data) => CommitMeans(t, id, data);
    case ToTail(id, data, next) => TailContent(t, id, data, next, Add32(n, |data|));
    case MoreInodes(next) => LinkInodeMeans(t, next);
    case NewRecord(name, first, at) => CreateMeans(t, name, first, t.inodes[at]);
    case Opened(id, _) => OpenMeans(t, id);
    case Closed(id) => CloseMeans(t, {id});
    case Deleted(n, at) => OthersSurviveRemove(t, n, t.inodes[at], n - at * EntriesPerBlock(t.pages));
    case Remounted =>
      CloseMeans(t, t.bufs.Keys);
      assert t.bufs - t.bufs.Keys == map[];
  }

  /** Over every run, what has been committed stays where it is until its file is removed. */
  lemma {:induction false} RunGrows(v: Volume, run: seq<Step>)
    requires InOrder(v) && Legal(v, run)
    ensures Grown(v.t, Run(v, run).t) && Run(v, run).t.pages == v.t.pages
    decreases |run|
  {
    hide TablesOk, Enabled, ApplyTo, Grown;
    if run == [] {
      GrownRefl(v.t);
    } else {
      var t, u, w := v.t, Apply(v, run[0]).t, Run(v, run).t;
      StepInOrder(v, run[0]);
      StepGrows(t, run[0], Used(run[0], v.counters));
      StepKeepsLog(t, run[0], Used(run[0], v.counters));
      RunGrows(Apply(v, run[0]), run[1..]);
      RunKeepsLog(Apply(v, run[0]), run[1..]);
      forall id | id in t.chains && id !in u.chains ensures id !in w.chains {
        LiveIfChained(t, id);
      }
      GrownTrans(t, u, w);
    }
  }

  lemma {:induction false} PrefixGrows(t: Tables, u: Tables, id: nat, i: nat)
    requires TablesOk(t) && TablesOk(u) && Grown(t, u) && u.pages == t.pages
    requires id in t.chains && id in u.chains && i < |t.chains[id]| <= |u.chains[id]|
    ensures Committed(t.disk, t.chains[id][..i]) == Committed(u.disk, u.chains[id][..i])
  {
    hide TablesOk, Grown, Flatten, Committed;
    var c, d := t.chains[id], u.chains[id];
    if i == 0 {
      assert c[..0] == d[..0] == [];
      NoneCommitted(t.disk);
      NoneCommitted(u.disk);
    } else {
      BlockOf(t, u, id, i - 1);
      PrefixGrows(t, u, id, i - 1);
      assert c[..i] == c[..i - 1] + [c[i - 1]] && d[..i] == d[..i - 1] + [d[i - 1]];
      CommittedAppend(t.disk, c[..i - 1], c[i - 1]);
      CommittedAppend(u.disk, d[..i - 1], d[i - 1]);
    }
  }

  lemma NoneCommitted(disk: seq<AbstractBlock>)
    ensures Committed(disk, []) == []
  {
  }

  /** A file is append-only: what has been committed is a prefix of what will be. */
  lemma CommittedGrows(t: Tables, u: Tables, id: nat)
    requires TablesOk(t) && TablesOk(u) && Grown(t, u) && u.pages == t.pages
    requires id in t.chains && id in u.chains
    ensures Committed(t.disk, t.chains[id]) <= Committed(u.disk, u.chains[id])
  {
    hide TablesOk, Grown, Flatten, Committed;
    var c, d := t.chains[id], u.chains[id];
    ChainNotEmpty(t, id);
    var last := |c| - 1;
    BlockOf(t, u, id, last);
    PrefixGrows(t, u, id, last);
    CommittedSplit(t.disk, c);
    assert d[..last + 1] == d[..last] + [d[last]];
    CommittedAppend(u.disk, d[..last], d[last]);
    FlattenPrefix(t.disk[c[last]].slots, u.disk[d[last]].slots);
    CommittedConcat(u.disk, d[..last + 1], d[last + 1..]);
    assert d == d[..last + 1] + d[last + 1..];
  }

  lemma ChainNotEmpty(t: Tables, id: nat)
    requires TablesOk(t) && id in t.chains
    ensures |t.chains[id]| >= 1
  {
    assert ChainOk(t, id);
  }

  /** Between any two states of a run, a file that is there in both only has data added at its end,
      and readers of it stay in place. */
  lemma ReadersSurvive(v: Volume, w: Volume, r: ReaderView, i: nat, j: nat)
    requires InOrder(v) && Reaches(v, w) && r.id in w.t.chains
    requires Sees(v.t, r, i, j)
    ensures Committed(v.t.disk, v.t.chains[r.id]) <= Committed(w.t.disk, w.t.chains[r.id])
    ensures Sees(w.t, r, i, j)
    ensures Rest(v.t.disk, v.t.chains[r.id], i, j, r.remaining) <= Rest(w.t.disk, w.t.chains[r.id], i, j, r.remaining)
  {
    hide TablesOk, Grown, Committed, Rest, Legal, Run;
    var run :| RunsTo(v, run, w);
    RunKeeps(v, run);
    RunGrows(v, run);
    CommittedGrows(v.t, w.t, r.id);
    ReaderResumes(v.t, w.t, r, i, j);
  }
}
