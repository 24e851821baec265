// Sequences of calls. Each call is a run of steps of one kind; here is what
// follows, from the kinds alone, for whatever is done in between calls.
module Sessions {
  import opened Geometry
  import opened Tables
  import opened TablesProofs
  import opened Refinement
  import opened Machine
  import opened Counts
  import opened Fullness
  import Inodes
  import opened Runs
  import opened CountRuns

  /** The volumes between calls, and the kinds of the calls. */
  ghost predicate Session(vs: seq<Volume>, ks: seq<Kind>) {
    |vs| == |ks| + 1 && forall i {:trigger ks[i]} | 0 <= i < |ks| :: ReachesBy(vs[i], vs[i + 1], ks[i])
  }

  /** One call more. */
  lemma SessionNext(vs: seq<Volume>, ks: seq<Kind>, w: Volume, k: Kind)
    requires Session(vs, ks) && ReachesBy(vs[|ks|], w, k)
    ensures Session(vs + [w], ks + [k])
  {
    hide ReachesBy;
    var us, js := vs + [w], ks + [k];
    forall i | 0 <= i < |js| ensures ReachesBy(us[i], us[i + 1], js[i]) {
      if i < |ks| { assert ReachesBy(vs[i], vs[i + 1], ks[i]); }
    }
  }

  /** A session without its last call. */
  lemma SessionBefore(vs: seq<Volume>, ks: seq<Kind>)
    requires Session(vs, ks) && ks != []
    ensures Session(vs[..|ks|], ks[..|ks| - 1])
    ensures ReachesBy(vs[|ks| - 1], vs[|ks|], ks[|ks| - 1])
  {
    hide ReachesBy;
    var us, js := vs[..|ks|], ks[..|ks| - 1];
    assert ReachesBy(vs[|ks| - 1], vs[|ks|], ks[|ks| - 1]);
    forall i | 0 <= i < |js| ensures ReachesBy(us[i], us[i + 1], js[i]) {
      assert ReachesBy(vs[i], vs[i + 1], ks[i]);
    }
  }

  /** Each step of the run is one that some call of these kinds may take. */
  ghost predicate Covered(run: seq<Step>, ks: seq<Kind>) {
    forall j {:trigger run[j]} | 0 <= j < |run| :: FitsOne(run[j], ks)
  }

  ghost predicate FitsOne(s: Step, ks: seq<Kind>) {
    exists i :: 0 <= i < |ks| && Fits(s, ks[i])
  }

  /** A session is one run, and the kinds of its calls say which steps there may be in it. */
  lemma {:induction false} SessionRun(vs: seq<Volume>, ks: seq<Kind>) returns (run: seq<Step>)
    requires Session(vs, ks)
    ensures RunsTo(vs[0], run, vs[|ks|]) && Covered(run, ks)
    decreases |ks|
  {
    hide Legal, Run, Fits;
    if ks == [] {
      run := [];
      EmptyRun(vs[0]);
    } else {
      var js, k := ks[..|ks| - 1], ks[|ks| - 1];
      SessionBefore(vs, ks);
      var before := SessionRun(vs[..|ks|], js);
      var last :| RunsTo(vs[|ks| - 1], last, vs[|ks|]) && OfKind(last, k);
      RunsOn(vs[0], before, last);
      run := before + last;
      forall j | 0 <= j < |run| ensures FitsOne(run[j], ks) {
        if j < |before| {
          assert FitsOne(before[j], js);
          var i :| 0 <= i < |js| && Fits(before[j], js[i]);
          assert Fits(run[j], ks[i]);
        } else {
          assert Fits(last[j - |before|], ks[|ks| - 1]);
        }
      }
    }
  }

  lemma EmptyRun(v: Volume)
    ensures RunsTo(v, [], v)
  {
  }

  /** So whatever holds over all runs holds from the start of a session to its end. */
  lemma SessionReaches(vs: seq<Volume>, ks: seq<Kind>)
    requires Session(vs, ks)
    ensures Reaches(vs[0], vs[|ks|])
  {
    var run := SessionRun(vs, ks);
  }

  lemma CallInOrder(v: Volume, w: Volume, k: Kind)
    requires InOrder(v) && ReachesBy(v, w, k)
    ensures InOrder(w)
  {
    hide InOrder, Legal, Run, Fits;
    var run :| RunsTo(v, run, w) && OfKind(run, k);
    RunKeeps(v, run);
  }

  lemma {:induction false} SessionInOrder(vs: seq<Volume>, ks: seq<Kind>)
    requires Session(vs, ks) && InOrder(vs[0])
    ensures forall i | 0 <= i < |vs| :: InOrder(vs[i])
    decreases |ks|
  {
    hide InOrder, ReachesBy;
    if ks != [] {
      SessionBefore(vs, ks);
      SessionInOrder(vs[..|ks|], ks[..|ks| - 1]);
      assert InOrder(vs[..|ks|][|ks| - 1]);
      CallInOrder(vs[|ks| - 1], vs[|ks|], ks[|ks| - 1]);
      forall i | 0 <= i < |vs| ensures InOrder(vs[i]) {
        if i < |ks| { assert vs[..|ks|][i] == vs[i]; }
      }
    }
  }

  // ---------------------------------------------------------------- byte counts

  /** The counts of the file, and the counter of its writer, if it has one, are right. */
  ghost predicate Fine(v: Volume, id: nat) {
    CountsFine(v.t, id) && CounterFine(v, id)
  }

  /** A handle opened in this call for this file holds the right counter. */
  ghost predicate OpenedRight(t: Tables, k: Kind, id: nat) {
    k.Opens? && k.id == id && id !in t.bufs ==> k.counter == RightCounter(t, id)
  }

  lemma StepFine(v: Volume, s: Step, id: nat)
    requires InOrder(v) && Enabled(v.t, s)
    requires s.Opened? && s.id == id ==> s.counter == RightCounter(v.t, id)
    requires Fine(v, id)
    ensures Fine(Apply(v, s), id)
  {
    hide Enabled, Apply, InOrder, CountsFine, CounterFine, RightCounter;
    StepInOrder(v, s);
    if id !in Apply(v, s).t.chains {
      UnmadeFine(Apply(v, s), id);
    } else if id in v.t.chains {
      StepCounts(v, s, id);
    } else {
      StepMakes(v, s, id);
    }
  }

  lemma StepOpens(t: Tables, s: Step, n: word, k: Kind, id: nat)
    requires Enabled(t, s) && Fits(s, k) && OpenedRight(t, k, id)
    ensures s.Opened? && s.id == id ==> s.counter == RightCounter(t, id)
    ensures OpenedRight(ApplyTo(t, s, n), k, id)
  {
  }

  lemma {:induction false} CallFine(v: Volume, run: seq<Step>, k: Kind, id: nat)
    requires InOrder(v) && Legal(v, run) && OfKind(run, k)
    requires OpenedRight(v.t, k, id) && Fine(v, id)
    ensures Fine(Run(v, run), id)
    decreases |run|
  {
    hide Enabled, ApplyTo, InOrder, Fine, OpenedRight, Fits;
    if run != [] {
      var s, w := run[0], Apply(v, run[0]);
      assert Fits(s, k);
      StepInOrder(v, s);
      StepOpens(v.t, s, Used(s, v.counters), k, id);
      StepFine(v, s, id);
      assert forall i | 0 <= i < |run[1..]| :: run[1..][i] == run[i + 1];
      CallFine(w, run[1..], k, id);
    }
  }

  /** The counts of a file stay right over any sequence of calls in which each handle that opens the
      file holds the number of bytes in its last block; for a file never reopened, nothing is asked. */
  lemma {:induction false} SessionCounts(vs: seq<Volume>, ks: seq<Kind>, id: nat)
    requires Session(vs, ks) && InOrder(vs[0])
    requires Fine(vs[0], id)
    requires forall i | 0 <= i < |ks| :: OpenedRight(vs[i].t, ks[i], id)
    ensures Fine(vs[|ks|], id)
    decreases |ks|
  {
    hide InOrder, ReachesBy, Fine, OpenedRight;
    if ks != [] {
      var us, js := vs[..|ks|], ks[..|ks| - 1];
      SessionBefore(vs, ks);
      SessionInOrder(us, js);
      forall i | 0 <= i < |js| ensures OpenedRight(us[i].t, js[i], id) {
        assert OpenedRight(vs[i].t, ks[i], id);
      }
      SessionCounts(us, js, id);
      CallKeepsFine(us[|js|], vs[|ks|], ks[|ks| - 1], id);
    }
  }

  lemma CallKeepsFine(v: Volume, w: Volume, k: Kind, id: nat)
    requires InOrder(v) && ReachesBy(v, w, k)
    requires OpenedRight(v.t, k, id) && Fine(v, id)
    ensures Fine(w, id)
  {
    hide InOrder, Legal, Run, Fits, Fine, OpenedRight;
    var run :| RunsTo(v, run, w) && OfKind(run, k);
    CallFine(v, run, k, id);
  }

  /** So the counts of a file that is made in a session, and not opened again in it, are right. */
  lemma SessionSameHandle(vs: seq<Volume>, ks: seq<Kind>, id: nat)
    requires Session(vs, ks) && InOrder(vs[0]) && id !in vs[0].t.chains
    requires forall i | 0 <= i < |ks| :: !(ks[i].Opens? && ks[i].id == id)
    requires id in vs[|ks|].t.chains
    ensures CountsOk(vs[|ks|].t, id)
  {
    hide InOrder, ReachesBy, Legal, Run, CountsOk;
    var run := SessionRun(vs, ks);
    forall j | 0 <= j < |run| ensures !(run[j].Opened? && run[j].id == id) {
      assert FitsOne(run[j], ks);
    }
    SameHandleCounts(vs[0], run, id);
  }

  /** The file gets a handle, or loses the one it has. */
  predicate Rehandled(s: Step, id: nat) {
    ((s.Opened? || s.Closed?) && s.id == id) || s.Remounted?
  }

  /** As long as the file keeps its handle, wrong counts or a wrong counter are not put right. */
  lemma {:induction false} RunFine(v: Volume, run: seq<Step>, id: nat)
    requires InOrder(v) && Legal(v, run)
    requires id in v.t.chains && id in Run(v, run).t.chains
    requires forall j {:trigger run[j]} | 0 <= j < |run| :: !Rehandled(run[j], id)
    ensures Fine(Run(v, run), id) <==> Fine(v, id)
    decreases |run|
  {
    hide TablesOk, Enabled, ApplyTo, CountsFine, CounterFine, RightCounter, Rehandled;
    if run != [] {
      var s, w := run[0], Apply(v, run[0]);
      StepInOrder(v, s);
      RunKeepsLog(w, run[1..]);
      LiveIfChained(v.t, id);
      StillChained(v, s, id, Run(v, run).t);
      StepFineIff(v, s, id);
      assert forall j | 0 <= j < |run[1..]| :: run[1..][j] == run[j + 1];
      RunFine(w, run[1..], id);
    }
  }

  lemma StepFineIff(v: Volume, s: Step, id: nat)
    requires InOrder(v) && Enabled(v.t, s) && !Rehandled(s, id)
    requires id in v.t.chains && id in Apply(v, s).t.chains
    ensures Fine(Apply(v, s), id) <==> Fine(v, id)
  {
    hide InOrder, Enabled, Apply, CountsFine, CounterFine, RightCounter;
    StepCounts(v, s, id);
  }

  /** A handle opened with a wrong counter leaves wrong counts behind: over any calls but those that
      open or close the file, counts and counter together are right exactly if they were. */
  lemma SessionFine(vs: seq<Volume>, ks: seq<Kind>, id: nat)
    requires Session(vs, ks) && InOrder(vs[0])
    requires id in vs[0].t.chains && id in vs[|ks|].t.chains
    requires forall i | 0 <= i < |ks| :: !((ks[i].Opens? || ks[i].Closes?) && ks[i].id == id) && !ks[i].Remounts?
    ensures Fine(vs[|ks|], id) <==> Fine(vs[0], id)
  {
    hide InOrder, ReachesBy, Legal, Run, Fine;
    var run := SessionRun(vs, ks);
    forall j | 0 <= j < |run| ensures !Rehandled(run[j], id) {
      assert FitsOne(run[j], ks);
    }
    RunFine(vs[0], run, id);
  }

  // ---------------------------------------------------------------- other files

  /** The names of the files that a call of this kind may do something to. */
  ghost function TouchedByCall(t: Tables, k: Kind): set<string> {
    match k
    case Quiet => {}
    case Opens(_, _) => {}
    case Writes(id) => if Live(t, id) then {NameOf(t, id)} else {}
    case Closes(id) => if Live(t, id) then {NameOf(t, id)} else {}
    case Makes(name) => {name}
    case Removes(n) => if n < |t.log| then {t.log[n].name} else {}
    case Remounts => set name | name in Directory(t.log) && Directory(t.log)[name] in t.bufs
  }

  lemma StepTouches(t: Tables, s: Step, n: word, k: Kind)
    requires TablesOk(t) && Enabled(t, s) && Fits(s, k)
    ensures TouchedBy(t, s) <= TouchedByCall(t, k)
    ensures TouchedByCall(ApplyTo(t, s, n), k) <= TouchedByCall(t, k)
  {
    hide TablesOk, Directory, Committed;
  }

  lemma {:induction false} CallTouches(v: Volume, run: seq<Step>, k: Kind)
    requires InOrder(v) && Legal(v, run) && OfKind(run, k)
    ensures Touched(v, run) <= TouchedByCall(v.t, k)
    decreases |run|
  {
    hide Enabled, ApplyTo, TablesOk, TouchedBy, TouchedByCall, Fits;
    if run != [] {
      assert Fits(run[0], k);
      StepInOrder(v, run[0]);
      StepTouches(v.t, run[0], Used(run[0], v.counters), k);
      assert forall i | 0 <= i < |run[1..]| :: run[1..][i] == run[i + 1];
      CallTouches(Apply(v, run[0]), run[1..], k);
    }
  }

  lemma CallLeaves(v: Volume, w: Volume, k: Kind, name: string)
    requires InOrder(v) && ReachesBy(v, w, k)
    requires name !in TouchedByCall(v.t, k)
    ensures name in FileMap(w.t) <==> name in FileMap(v.t)
    ensures name in FileMap(v.t) ==> FileMap(w.t)[name] == FileMap(v.t)[name]
  {
    hide InOrder, Legal, Run, Fits, FileMap, TouchedByCall;
    var run :| RunsTo(v, run, w) && OfKind(run, k);
    CallTouches(v, run, k);
    UntouchedKept(v, run, name);
  }

  /** Over any sequence of calls, a file that none of them is about keeps its content, or its absence. */
  lemma {:induction false} SessionLeaves(vs: seq<Volume>, ks: seq<Kind>, name: string)
    requires Session(vs, ks) && InOrder(vs[0])
    requires forall i | 0 <= i < |ks| :: name !in TouchedByCall(vs[i].t, ks[i])
    ensures name in FileMap(vs[|ks|].t) <==> name in FileMap(vs[0].t)
    ensures name in FileMap(vs[0].t) ==> FileMap(vs[|ks|].t)[name] == FileMap(vs[0].t)[name]
    decreases |ks|
  {
    hide InOrder, ReachesBy, FileMap, TouchedByCall;
    if ks != [] {
      var us, js := vs[..|ks|], ks[..|ks| - 1];
      SessionBefore(vs, ks);
      SessionInOrder(us, js);
      forall i | 0 <= i < |js| ensures name !in TouchedByCall(us[i].t, js[i]) {
        assert name !in TouchedByCall(vs[i].t, ks[i]);
      }
      SessionLeaves(us, js, name);
      CallLeaves(us[|js|], vs[|ks|], ks[|ks| - 1], name);
    }
  }

  // ---------------------------------------------------------------- full blocks

  predicate FlushesEarly(s: Step, id: nat) {
    s == ToSector(id, [])
  }

  /** Only a flush commits a sector that is not full. */
  lemma {:induction false} NoFlushFull(v: Volume, run: seq<Step>, id: nat)
    requires Legal(v, run)
    requires forall j {:trigger run[j]} | 0 <= j < |run| :: !FlushesEarly(run[j], id)
    ensures FullRun(v, run, id)
    decreases |run|
  {
    if run != [] {
      assert !FlushesEarly(run[0], id);
      assert forall j | 0 <= j < |run[1..]| :: run[1..][j] == run[j + 1];
      NoFlushFull(Apply(v, run[0]), run[1..], id);
    }
  }

  /** Calls that flush no sector of the file: its writes are among them, closing it is not, nor is
      anything that flushes whatever file is dirty. */
  predicate FlushesNothing(k: Kind, id: nat) {
    k == Writes(id) || k.Opens? || k.Removes? || k.Remounts? || (k.Closes? && k.id != id)
  }

  /** Over such calls the blocks of a file are completed full. */
  lemma SessionFull(vs: seq<Volume>, ks: seq<Kind>, id: nat)
    requires Session(vs, ks) && InOrder(vs[0])
    requires forall i | 0 <= i < |ks| :: FlushesNothing(ks[i], id)
    requires id in vs[0].t.chains ==> AllFull(vs[0].t, id)
    requires id in vs[|ks|].t.chains
    ensures AllFull(vs[|ks|].t, id)
    ensures var t := vs[|ks|].t;
      forall i | 0 <= i < |t.chains[id]| - 1 ::
        && t.chains[id][i] < |t.disk|
        && BlockBytes(t.disk[t.chains[id][i]]) ==
           SECTOR_SIZE * (SECTORS_PER_PAGE * t.pages - 1) - INIT_HEADER_SIZE - TAIL_HEADER_SIZE
  {
    hide InOrder, ReachesBy, Legal, Run, AllFull, BlockBytes;
    var run := SessionRun(vs, ks);
    forall j | 0 <= j < |run| ensures !FlushesEarly(run[j], id) {
      assert FitsOne(run[j], ks);
    }
    NoFlushFull(vs[0], run, id);
    RunFull(vs[0], run, id);
  }

  // ---------------------------------------------------------------- listings

  lemma StepInodes(t: Tables, s: Step, n: word)
    requires Enabled(t, s)
    ensures t.inodes <= ApplyTo(t, s, n).inodes && ApplyTo(t, s, n).pages == t.pages
  {
  }

  lemma {:induction false} RunInodes(v: Volume, run: seq<Step>)
    requires Legal(v, run)
    ensures v.t.inodes <= Run(v, run).t.inodes && Run(v, run).t.pages == v.t.pages
    decreases |run|
  {
    hide Enabled, ApplyTo;
    if run != [] {
      StepInodes(v.t, run[0], Used(run[0], v.counters));
      RunInodes(Apply(v, run[0]), run[1..]);
    }
  }

  /** Whatever is done between two calls of a listing, its iterator keeps its place. What it remembers
      of the chain gets out of date exactly if it is in the last inode block and another is linked. */
  lemma IteratorAges(v: Volume, w: Volume, iter: Inodes.InodeIterator, n: nat)
    requires InOrder(v) && Reaches(v, w)
    requires iter.At(v.t, n) || iter.Stale(v.t, n)
    ensures iter.At(w.t, n) || iter.Stale(w.t, n)
    ensures iter.At(w.t, n) <==> iter.At(v.t, n) && (iter.at + 1 < |v.t.inodes| || w.t.inodes == v.t.inodes)
  {
    hide TablesOk, Legal, Run;
    var run :| RunsTo(v, run, w);
    RunKeeps(v, run);
    RunInodes(v, run);
    var i := iter.at;
    Inodes.InodeShows(w.t, 0);
    if i + 1 < |v.t.inodes| {
      Inodes.InodeShows(v.t, i + 1);
      assert w.t.inodes[i + 1] == v.t.inodes[i + 1];
      NextIsReal(v.t, i + 1);
    } else if i + 1 < |w.t.inodes| {
      NextIsReal(w.t, i + 1);
    } else {
      assert w.t.inodes == v.t.inodes;
    }
  }

  lemma NextIsReal(t: Tables, i: nat)
    requires TablesOk(t) && i < |t.inodes|
    ensures t.inodes[i] != NO_BLOCK
  {
    Inodes.InodeShows(t, i);
  }
}
