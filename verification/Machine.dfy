// The volume as a state machine: which steps it may take, and what it can reach.
// Every operation of the file system is shown to be a sequence of these steps.
module Machine {
  import opened Geometry
  import opened Tables
  import opened TablesProofs

  /** The volume and, for each open writer, the byte counter in its handle. */
  datatype Volume = Volume(t: Tables, counters: map<nat, word>)

  datatype Step =
    | ToBuffer(id: nat, data: seq<byte>)
    | ToSector(id: nat, data: seq<byte>)
    | ToTail(id: nat, data: seq<byte>, next: nat)
    | MoreInodes(next: nat)
    | NewRecord(name: string, first: nat, at: nat)
    | Opened(id: nat, counter: word)
    | Closed(id: nat)
    | Deleted(n: nat, at: nat)
    | Remounted

  /** What must hold for a step to be taken. */
  ghost predicate Enabled(t: Tables, s: Step) {
    && t.pages >= 2
    && match s {
         case ToBuffer(id, data) =>
           Writable(t, id) && |t.bufs[id]| + |data| < Capacity(t.pages, |LastBlock(t, id).slots|)
         case ToSector(id, data) =>
           && Writable(t, id)
           && |LastBlock(t, id).slots| + 1 < SlotCount(t.pages)
           && |t.bufs[id]| + |data| <= Capacity(t.pages, |LastBlock(t, id).slots|)
           && (Fills(t, id, |data|) || (data == [] && MayFlush(t, id)))
         case ToTail(id, data, next) =>
           && Writable(t, id)
           && t.dirty == None
           && |LastBlock(t, id).slots| + 1 == SlotCount(t.pages)
           && Fills(t, id, |data|)
           && next < |t.disk| && t.disk[next] == Free
         case MoreInodes(next) =>
           && next < |t.disk| && t.disk[next] == Free
           && |t.inodes| >= 1 && Last(t.inodes) < |t.disk| && t.disk[Last(t.inodes)].InodeBlock?
           && |t.inodes| * EntriesPerBlock(t.pages) == |t.log| + 1
         case NewRecord(name, first, at) =>
           && RecordAt(t, |t.log|, at)
           && t.inodes[at] < |t.disk| && t.disk[t.inodes[at]].InodeBlock?
           && first < |t.disk| && t.disk[first] == Free
           && t.dirty == None
           && ValidName(name) && name !in Directory(t.log)
           && |t.log| + 1 < ERASED32
           && ((at + 1) * EntriesPerBlock(t.pages) == |t.log| + 1 ==> at + 1 < |t.inodes|)
         case Opened(id, _) =>
           id in t.chains && id !in t.bufs
         case Closed(id) =>
           id in t.bufs && t.dirty != Some(id)
         case Deleted(n, at) =>
           && n < |t.log| && n + 1 in t.chains && n + 1 !in t.bufs
           && RecordAt(t, n, at)
           && t.inodes[at] < |t.disk| && t.disk[t.inodes[at]].InodeBlock?
           && n - at * EntriesPerBlock(t.pages) < |t.disk[t.inodes[at]].entries|
         case Remounted =>
           t.dirty == None
       }
  }

  /** The counter of an open writer. */
  function Counter(c: map<nat, word>, id: nat): word {
    if id in c then c[id] else 0
  }

  /** The step on the tables; a TAIL sector gets the handle's count. */
  ghost function ApplyTo(t: Tables, s: Step, counter: word): Tables
    requires Enabled(t, s)
  {
    match s
    case ToBuffer(id, data) => BufferStep(t, id, data)
    case ToSector(id, data) => CommitStep(t, id, data)
    case ToTail(id, data, next) => TailStep(t, id, data, next, Add32(counter, |data|))
    case MoreInodes(next) => LinkInodeStep(t, next)
    case NewRecord(name, first, at) => CreateStep(t, name, first, t.inodes[at])
    case Opened(id, _) => OpenStep(t, id)
    case Closed(id) => CloseStep(t, id)
    case Deleted(n, at) => RemoveStep(t, n, t.inodes[at], n - at * EntriesPerBlock(t.pages))
    case Remounted => RemountStep(t)
  }

  /** The step on the counters: a handle counts what it takes from its start in a block on; an
      existing file is opened with whatever the handle holds. */
  ghost function Count(t: Tables, s: Step, c: map<nat, word>): map<nat, word> {
    match s
    case ToBuffer(id, data) => c[id := Add32(Counter(c, id), |data|)]
    case ToSector(id, data) => c[id := Add32(Counter(c, id), |data|)]
    case ToTail(id, _, _) => c[id := 0]
    case NewRecord(_, _, _) => c[|t.log| + 1 := 0]
    case Opened(id, counter) => c[id := counter]
    case Closed(id) => c - {id}
    case Remounted => map[]
    case MoreInodes(_) => c
    case Deleted(_, _) => c
  }

  /** The counter that a step uses. */
  function Used(s: Step, c: map<nat, word>): word {
    if s.ToTail? then Counter(c, s.id) else 0
  }

  ghost function Apply(v: Volume, s: Step): Volume
    requires Enabled(v.t, s)
  {
    Volume(ApplyTo(v.t, s, Used(s, v.counters)), Count(v.t, s, v.counters))
  }

  /** Each step of the run is enabled when it is taken. */
  ghost predicate Legal(v: Volume, run: seq<Step>)
    decreases |run|
  {
    run == [] || (Enabled(v.t, run[0]) && Legal(Apply(v, run[0]), run[1..]))
  }

  ghost function Run(v: Volume, run: seq<Step>): Volume
    requires Legal(v, run)
    decreases |run|
  {
    if run == [] then v else Run(Apply(v, run[0]), run[1..])
  }

  ghost predicate RunsTo(v: Volume, run: seq<Step>, w: Volume) {
    Legal(v, run) && Run(v, run) == w
  }

  ghost predicate Reaches(v: Volume, w: Volume) {
    exists run :: RunsTo(v, run, w)
  }

  lemma ReachesItself(v: Volume)
    ensures Reaches(v, v)
  {
    assert RunsTo(v, [], v);
  }

  lemma ReachesNext(v: Volume, s: Step)
    requires Enabled(v.t, s)
    ensures Reaches(v, Apply(v, s))
  {
    hide Enabled, Apply;
    var u := Apply(v, s);
    assert [s][1..] == [] && RunsTo(u, [], u);
    assert RunsTo(v, [s], u);
  }

  lemma {:induction false} RunsOn(v: Volume, run: seq<Step>, more: seq<Step>)
    requires Legal(v, run) && Legal(Run(v, run), more)
    ensures Legal(v, run + more) && Run(v, run + more) == Run(Run(v, run), more)
    decreases |run|
  {
    hide Enabled, Apply;
    if run == [] {
      assert run + more == more;
    } else {
      RunsOn(Apply(v, run[0]), run[1..], more);
      assert (run + more)[1..] == run[1..] + more;
    }
  }

  lemma ReachesTrans(v: Volume, w: Volume, x: Volume)
    requires Reaches(v, w) && Reaches(w, x)
    ensures Reaches(v, x)
  {
    hide Legal, Run;
    var a :| RunsTo(v, a, w);
    var b :| RunsTo(w, b, x);
    RunsOn(v, a, b);
    assert RunsTo(v, a + b, x);
  }

  // ------------------------------------------------------ what operations do

  /** Which steps an operation may take: nothing that users notice; those of one writer, and flushes
      of other files; those that make a file; and so on. */
  datatype Kind =
    | Quiet
    | Writes(id: nat)
    | Makes(name: string)
    | Opens(id: nat, counter: word)
    | Closes(id: nat)
    | Removes(n: nat)
    | Remounts

  predicate Fits(s: Step, k: Kind) {
    match k
    case Quiet => s.MoreInodes? || (s.ToSector? && s.data == [])
    case Writes(id) =>
      (s.ToBuffer? && s.id == id) || (s.ToTail? && s.id == id) || (s.ToSector? && (s.id == id <==> s.data != []))
    case Makes(name) => s.MoreInodes? || (s.ToSector? && s.data == []) || (s.NewRecord? && s.name == name)
    case Opens(id, counter) => s == Opened(id, counter)
    case Closes(id) => s == ToSector(id, []) || s == Closed(id)
    case Removes(n) => s.Deleted? && s.n == n
    case Remounts => s == Remounted
  }

  ghost predicate OfKind(run: seq<Step>, k: Kind) {
    forall i | 0 <= i < |run| :: Fits(run[i], k)
  }

  /** A run of this kind goes from `v` to `w`. */
  ghost predicate ReachesBy(v: Volume, w: Volume, k: Kind) {
    exists run :: RunsTo(v, run, w) && OfKind(run, k)
  }

  lemma ByItself(v: Volume, k: Kind)
    ensures ReachesBy(v, v, k)
  {
    assert RunsTo(v, [], v) && OfKind([], k);
  }

  lemma ByNext(v: Volume, s: Step, k: Kind)
    requires Enabled(v.t, s) && Fits(s, k)
    ensures ReachesBy(v, Apply(v, s), k)
  {
    hide Enabled, Apply, Fits;
    var u := Apply(v, s);
    assert [s][1..] == [] && RunsTo(u, [], u);
    assert RunsTo(v, [s], u) && OfKind([s], k);
  }

  lemma ByTrans(v: Volume, w: Volume, x: Volume, k: Kind)
    requires ReachesBy(v, w, k) && ReachesBy(w, x, k)
    ensures ReachesBy(v, x, k)
  {
    hide Legal, Run, Fits;
    var a :| RunsTo(v, a, w) && OfKind(a, k);
    var b :| RunsTo(w, b, x) && OfKind(b, k);
    RunsOn(v, a, b);
    assert RunsTo(v, a + b, x) && OfKind(a + b, k);
  }

  lemma QuietMakes(v: Volume, w: Volume, name: string)
    requires ReachesBy(v, w, Quiet)
    ensures ReachesBy(v, w, Makes(name))
  {
    hide Legal, Run;
    var a :| RunsTo(v, a, w) && OfKind(a, Quiet);
    assert OfKind(a, Makes(name));
  }

  /** One counter for each open writer. */
  ghost predicate HasCounters(t: Tables, c: map<nat, word>) {
    c.Keys == t.bufs.Keys
  }

  /** The machine goes from `t` to `u` by steps of this kind, and no counter changes. */
  ghost predicate KeepsBy(t: Tables, u: Tables, k: Kind) {
    && u.bufs.Keys == t.bufs.Keys
    && forall c {:trigger HasCounters(t, c)} | HasCounters(t, c) :: ReachesBy(Volume(t, c), Volume(u, c), k)
  }

  ghost predicate Keeps(t: Tables, u: Tables) {
    KeepsBy(t, u, Quiet)
  }

  /** The machine goes from `t` to `u`, and the counter of writer `id` from `n` to `m`. */
  ghost predicate Takes(t: Tables, u: Tables, id: nat, n: word, m: word) {
    && u.bufs.Keys == t.bufs.Keys && id in t.bufs
    && forall c {:trigger HasCounters(t, c)} | HasCounters(t, c) && c[id] == n ::
         ReachesBy(Volume(t, c), Volume(u, c[id := m]), Writes(id))
  }

  /** The machine goes from `t` to `u`, and writer `id` comes to be open with counter `m`. */
  ghost predicate Starts(t: Tables, u: Tables, id: nat, m: word, k: Kind) {
    && u.bufs.Keys == t.bufs.Keys + {id}
    && forall c {:trigger HasCounters(t, c)} | HasCounters(t, c) :: ReachesBy(Volume(t, c), Volume(u, c[id := m]), k)
  }

  /** The machine goes from `t` to `u`, and the writers of `ids` are dropped. */
  ghost predicate Drops(t: Tables, u: Tables, ids: set<nat>, k: Kind) {
    && u.bufs.Keys == t.bufs.Keys - ids
    && forall c {:trigger HasCounters(t, c)} | HasCounters(t, c) :: ReachesBy(Volume(t, c), Volume(u, c - ids), k)
  }

  lemma KeepsRefl(t: Tables, k: Kind)
    ensures KeepsBy(t, t, k)
  {
    hide ReachesBy;
    forall c | HasCounters(t, c) ensures ReachesBy(Volume(t, c), Volume(t, c), k) { ByItself(Volume(t, c), k); }
  }

  lemma KeepsTrans(t: Tables, u: Tables, v: Tables, k: Kind)
    requires KeepsBy(t, u, k) && KeepsBy(u, v, k)
    ensures KeepsBy(t, v, k)
  {
    hide ReachesBy;
    forall c | HasCounters(t, c) ensures ReachesBy(Volume(t, c), Volume(v, c), k) {
      assert HasCounters(u, c);
      ByTrans(Volume(t, c), Volume(u, c), Volume(v, c), k);
    }
  }

  lemma KeepsTakes(t: Tables, u: Tables, id: nat, n: word)
    requires KeepsBy(t, u, Writes(id)) && id in t.bufs
    ensures Takes(t, u, id, n, n)
  {
    hide ReachesBy;
    forall c | HasCounters(t, c) && c[id] == n ensures ReachesBy(Volume(t, c), Volume(u, c[id := n]), Writes(id)) {
      assert c[id := n] == c;
    }
  }

  lemma KeepsStarts(t: Tables, u: Tables, v: Tables, id: nat, m: word, name: string)
    requires Keeps(t, u) && Starts(u, v, id, m, Makes(name))
    ensures Starts(t, v, id, m, Makes(name))
  {
    hide ReachesBy;
    forall c | HasCounters(t, c) ensures ReachesBy(Volume(t, c), Volume(v, c[id := m]), Makes(name)) {
      assert HasCounters(u, c);
      QuietMakes(Volume(t, c), Volume(u, c), name);
      ByTrans(Volume(t, c), Volume(u, c), Volume(v, c[id := m]), Makes(name));
    }
  }

  lemma TakesTrans(t: Tables, u: Tables, v: Tables, id: nat, n: word, m: word, k: word)
    requires Takes(t, u, id, n, m) && Takes(u, v, id, m, k)
    ensures Takes(t, v, id, n, k)
  {
    hide ReachesBy;
    forall c | HasCounters(t, c) && c[id] == n ensures ReachesBy(Volume(t, c), Volume(v, c[id := k]), Writes(id)) {
      var d := c[id := m];
      assert HasCounters(u, d) && d[id := k] == c[id := k];
      ByTrans(Volume(t, c), Volume(u, d), Volume(v, c[id := k]), Writes(id));
    }
  }

  lemma KeepsDrops(t: Tables, u: Tables, v: Tables, ids: set<nat>, k: Kind)
    requires KeepsBy(t, u, k) && Drops(u, v, ids, k)
    ensures Drops(t, v, ids, k)
  {
    hide ReachesBy;
    forall c | HasCounters(t, c) ensures ReachesBy(Volume(t, c), Volume(v, c - ids), k) {
      assert HasCounters(u, c);
      ByTrans(Volume(t, c), Volume(u, c), Volume(v, c - ids), k);
    }
  }

  /** A step of a writer changes its own counter only. */
  lemma StepTakes(t: Tables, s: Step, n: word)
    requires Enabled(t, s) && (s.ToBuffer? || s.ToSector? || s.ToTail?) && Fits(s, Writes(s.id))
    ensures Takes(t, ApplyTo(t, s, if s.ToTail? then n else 0), s.id, n, if s.ToTail? then 0 else Add32(n, |s.data|))
  {
    hide ReachesBy;
    forall c | HasCounters(t, c) && c[s.id] == n
      ensures ReachesBy(Volume(t, c), Volume(ApplyTo(t, s, if s.ToTail? then n else 0),
                                             c[s.id := if s.ToTail? then 0 else Add32(n, |s.data|)]), Writes(s.id))
    {
      ByNext(Volume(t, c), s, Writes(s.id));
    }
  }

  /** Flushing a sector counts nothing. */
  lemma FlushKeeps(t: Tables, id: nat, k: Kind)
    requires Enabled(t, ToSector(id, [])) && Fits(ToSector(id, []), k)
    ensures KeepsBy(t, CommitStep(t, id, []), k)
  {
    hide ReachesBy;
    var u := CommitStep(t, id, []);
    forall c | HasCounters(t, c) ensures ReachesBy(Volume(t, c), Volume(u, c), k) {
      ByNext(Volume(t, c), ToSector(id, []), k);
      AddNothing(c[id]);
      assert c[id := c[id]] == c;
    }
  }

  lemma AddNothing(n: word)
    ensures Add32(n, 0) == n
  {
    RemainderUnique(n, 0, n);
  }

  lemma LinkKeeps(t: Tables, next: nat)
    requires Enabled(t, MoreInodes(next))
    ensures Keeps(t, LinkInodeStep(t, next))
  {
    hide ReachesBy;
    forall c | HasCounters(t, c) ensures ReachesBy(Volume(t, c), Volume(LinkInodeStep(t, next), c), Quiet) {
      ByNext(Volume(t, c), MoreInodes(next), Quiet);
    }
  }

  lemma RecordStarts(t: Tables, name: string, first: nat, i: nat)
    requires Enabled(t, NewRecord(name, first, i))
    ensures Starts(t, CreateStep(t, name, first, t.inodes[i]), |t.log| + 1, 0, Makes(name))
  {
    hide ReachesBy;
    var u, id := CreateStep(t, name, first, t.inodes[i]), |t.log| + 1;
    forall c | HasCounters(t, c) ensures ReachesBy(Volume(t, c), Volume(u, c[id := 0]), Makes(name)) {
      ByNext(Volume(t, c), NewRecord(name, first, i), Makes(name));
    }
  }

  lemma OpenStarts(t: Tables, id: nat, m: word)
    requires Enabled(t, Opened(id, m))
    ensures Starts(t, OpenStep(t, id), id, m, Opens(id, m))
  {
    hide ReachesBy;
    forall c | HasCounters(t, c) ensures ReachesBy(Volume(t, c), Volume(OpenStep(t, id), c[id := m]), Opens(id, m)) {
      ByNext(Volume(t, c), Opened(id, m), Opens(id, m));
    }
  }

  lemma CloseDrops(t: Tables, id: nat)
    requires Enabled(t, Closed(id))
    ensures Drops(t, CloseStep(t, id), {id}, Closes(id))
  {
    hide ReachesBy;
    forall c | HasCounters(t, c) ensures ReachesBy(Volume(t, c), Volume(CloseStep(t, id), c - {id}), Closes(id)) {
      ByNext(Volume(t, c), Closed(id), Closes(id));
    }
  }

  lemma RemoveKeepsCounters(t: Tables, n: nat, at: nat)
    requires Enabled(t, Deleted(n, at))
    ensures KeepsBy(t, ApplyTo(t, Deleted(n, at), 0), Removes(n))
  {
    hide ReachesBy;
    var u := ApplyTo(t, Deleted(n, at), 0);
    forall c | HasCounters(t, c) ensures ReachesBy(Volume(t, c), Volume(u, c), Removes(n)) {
      ByNext(Volume(t, c), Deleted(n, at), Removes(n));
    }
  }

  lemma RemountDrops(t: Tables)
    requires t.pages >= 2 && t.dirty == None
    ensures Drops(t, RemountStep(t), t.bufs.Keys, Remounts)
  {
    hide ReachesBy;
    forall c | HasCounters(t, c) ensures ReachesBy(Volume(t, c), Volume(RemountStep(t), c - t.bufs.Keys), Remounts) {
      ByNext(Volume(t, c), Remounted, Remounts);
      assert c - t.bufs.Keys == map[];
    }
  }
}
