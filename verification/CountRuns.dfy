// The counts in TAIL sectors, and how full blocks get, over whole runs.
module CountRuns {
  import opened Geometry
  import opened Tables
  import opened TablesProofs
  import opened Refinement
  import opened Machine
  import opened Counts
  import opened Effects
  import opened NewFile
  import opened Fullness
  import opened Mount
  import opened Runs

  // ------------------------------------------------------------ one step at a time

  /** Whatever counts the completed blocks of the file have are right. */
  ghost predicate CountsFine(t: Tables, id: nat) {
    id in t.chains ==> CountsOk(t, id)
  }

  /** The counter of the writer of the file, if it has one, is right. */
  ghost predicate CounterFine(v: Volume, id: nat) {
    id in v.t.bufs && Writable(v.t, id) ==> InStep(v.t, id, Counter(v.counters, id))
  }

  /** The file with the writer of which this step does something. */
  predicate ByWriterOf(s: Step, id: nat) {
    (s.ToBuffer? || s.ToSector? || s.ToTail?) && s.id == id
  }

  /** Steps of other files, and steps of none, leave blocks and buffer of file `id` alone. */
  lemma StepApart(t: Tables, s: Step, n: word, id: nat)
    requires TablesOk(t) && Enabled(t, s) && !ByWriterOf(s, id)
    requires id in t.chains && id in ApplyTo(t, s, n).chains
    ensures var u := ApplyTo(t, s, n);
      && u.chains[id] == t.chains[id] && |u.disk| == |t.disk| && u.pages == t.pages
      && (forall b | 0 <= b < |t.disk| && t.disk[b].FileBlock? && t.disk[b].id == id :: u.disk[b] == t.disk[b])
      && (id in t.bufs && id in u.bufs ==> u.bufs[id] == t.bufs[id])
  {
    hide TablesOk, Directory, Committed;
    LiveIfChained(t, id);
    if s.ToBuffer? || s.ToSector? || s.ToTail? {
      WriterApart(t, s, n, id);
    } else if s.Deleted? {
      ChainBlocks(t, s.n + 1);
    }
  }

  lemma WriterApart(t: Tables, s: Step, n: word, id: nat)
    requires TablesOk(t) && Enabled(t, s) && (s.ToBuffer? || s.ToSector? || s.ToTail?) && s.id != id
    requires id in t.chains
    ensures var u := ApplyTo(t, s, n);
      && id in u.chains && u.chains[id] == t.chains[id] && |u.disk| == |t.disk| && u.pages == t.pages
      && (forall b | 0 <= b < |t.disk| && t.disk[b].FileBlock? && t.disk[b].id == id :: u.disk[b] == t.disk[b])
      && (id in t.bufs && id in u.bufs ==> u.bufs[id] == t.bufs[id])
  {
    hide TablesOk, Directory, Committed, Capacity;
    WritableIfOpen(t, s.id);
  }

  lemma StepApartCounts(t: Tables, s: Step, n: word, id: nat)
    requires TablesOk(t) && Enabled(t, s) && !ByWriterOf(s, id)
    requires id in t.chains && id in ApplyTo(t, s, n).chains
    ensures var u := ApplyTo(t, s, n);
      && (CountsOk(u, id) <==> CountsOk(t, id))
      && (id in t.bufs && id in u.bufs ==> Writable(t, id) && Writable(u, id) && InLastBlock(u, id) == InLastBlock(t, id))
      && FullKept(t, u, id)
  {
    hide ApplyTo, Enabled, CountsOk, FullKept;
    var u := ApplyTo(t, s, n);
    StepApart(t, s, n, id);
    ChainStarts(t, id);
    CompletedSame(t, u, id);
    FullFrame(t, u, id);
    if id in t.bufs { WritableIfOpen(t, id); }
  }

  // ------------------------------------------------------------ counts, over a run

  /** What the counter of a writer that opens the file should be: the bytes in its last block. */
  ghost function RightCounter(t: Tables, id: nat): word {
    if id in t.chains && |t.chains[id]| >= 1 && Last(t.chains[id]) < |t.disk|
    then BlockBytes(t.disk[Last(t.chains[id])]) % WORD32 else 0
  }

  /** The writer that has the file open now, or has just opened it, completes a block of it. */
  predicate TailsNext(run: seq<Step>, id: nat)
    decreases |run|
  {
    run != [] && match run[0]
      case ToTail(x, _, _) => x == id || TailsNext(run[1..], id)
      case Opened(x, _) => x != id && TailsNext(run[1..], id)
      case Closed(x) => x != id && TailsNext(run[1..], id)
      case Remounted => false
      case _ => TailsNext(run[1..], id)
  }

  /** Each time the file is opened, the handle holds the right counter, or does not complete a block. */
  ghost predicate Harmless(v: Volume, run: seq<Step>, id: nat)
    requires Legal(v, run)
    decreases |run|
  {
    run == [] ||
    (&& (run[0].Opened? && run[0].id == id ==> run[0].counter == RightCounter(v.t, id) || !TailsNext(run[1..], id))
     && Harmless(Apply(v, run[0]), run[1..], id))
  }

  /** The counts of the file will be right at the end of the run. */
  ghost predicate CountsWillDo(v: Volume, run: seq<Step>, id: nat)
    requires Legal(v, run)
  {
    CountsFine(v.t, id) && (CounterFine(v, id) || !TailsNext(run, id)) && Harmless(v, run, id)
  }

  /** What a step from `v` to `w` does to the counts and the counter of a file: completing a block makes
      the counts right if they and the counter were; opening the file gives it the handle's counter. */
  ghost predicate StepCounted(v: Volume, s: Step, w: Volume, id: nat) {
    if s.ToTail? && s.id == id then
      (CountsFine(w.t, id) <==> CountsFine(v.t, id) && CounterFine(v, id)) && CounterFine(w, id)
    else
      && (CountsFine(w.t, id) <==> CountsFine(v.t, id))
      && if s.Opened? && s.id == id then
           CounterFine(v, id) && (CounterFine(w, id) <==> s.counter == RightCounter(v.t, id))
         else if (s.Closed? && s.id == id) || s.Remounted? then
           CounterFine(w, id)
         else
           CounterFine(w, id) <==> CounterFine(v, id)
  }

  /** What a step does to counts and counter of a file that it does not end. */
  lemma StepCounts(v: Volume, s: Step, id: nat)
    requires InOrder(v) && Enabled(v.t, s)
    requires id in v.t.chains && id in Apply(v, s).t.chains
    ensures StepCounted(v, s, Apply(v, s), id)
  {
    hide TablesOk, CountsOk, Directory, Committed;
    var t, n := v.t, Used(s, v.counters);
    if ByWriterOf(s, id) {
      WriterCounts(v, s);
    } else {
      StepApartCounts(t, s, n, id);
      ChainStarts(t, id);
      OpenedCounter(v, s, id);
    }
  }

  /** The steps of the file's own writer. */
  lemma WriterCounts(v: Volume, s: Step)
    requires InOrder(v) && Enabled(v.t, s)
    requires s.ToBuffer? || s.ToSector? || s.ToTail?
    ensures s.id in v.t.chains
    ensures var w := Apply(v, s);
      if s.ToTail? then (CountsFine(w.t, s.id) <==> CountsFine(v.t, s.id) && CounterFine(v, s.id)) && CounterFine(w, s.id)
      else (CountsFine(w.t, s.id) <==> CountsFine(v.t, s.id)) && (CounterFine(w, s.id) <==> CounterFine(v, s.id))
  {
    hide CountsOk, Directory, Committed, TablesOk;
    var t, id, c := v.t, s.id, Counter(v.counters, s.id);
    WritableIfOpen(t, id);
    SameRemainder(c, InLastBlock(t, id), |s.data|);
    match s
    case ToBuffer(_, data) =>
      BufferCounts(t, id, data);
      CompletedSame(t, BufferStep(t, id, data), id);
    case ToSector(_, data) =>
      CommitCounts(t, id, data);
      CompletedSame(t, CommitStep(t, id, data), id);
    case ToTail(_, data, next) =>
      TailCounts(t, id, data, next, c);
      TailBlocks(t, id, data, next, Add32(c, |data|));
  }

  /** Opening, closing and remounting. */
  lemma OpenedCounter(v: Volume, s: Step, id: nat)
    requires InOrder(v) && Enabled(v.t, s) && !ByWriterOf(s, id)
    requires id in v.t.chains && id in Apply(v, s).t.chains
    ensures var w := Apply(v, s);
      && (id in v.t.bufs && id in w.t.bufs ==> Counter(w.counters, id) == Counter(v.counters, id))
      && (s.Opened? && s.id == id ==>
            && id !in v.t.bufs && id in w.t.bufs && Writable(w.t, id)
            && (InStep(w.t, id, Counter(w.counters, id)) <==> s.counter == RightCounter(v.t, id)))
      && ((s.Closed? && s.id == id) || s.Remounted? ==> id !in w.t.bufs)
      && (!(s.Opened? && s.id == id) && !(s.Closed? && s.id == id) && !s.Remounted? ==> (id in w.t.bufs <==> id in v.t.bufs))
  {
    hide TablesOk, Committed, Directory;
    ChainStarts(v.t, id);
    LiveIfChained(v.t, id);
  }

  /** The record of a new file. */
  lemma StepMakes(v: Volume, s: Step, id: nat)
    requires InOrder(v) && Enabled(v.t, s)
    requires id !in v.t.chains && id in Apply(v, s).t.chains
    ensures CountsFine(Apply(v, s).t, id) && CounterFine(Apply(v, s), id)
    ensures s.NewRecord?
    ensures AllFull(Apply(v, s).t, id)
  {
    hide TablesOk, Directory, Committed;
    StepKeepsLog(v.t, s, Used(s, v.counters));
    assert s.NewRecord?;
    CreateCounts(v.t, s.name, s.first, v.t.inodes[s.at]);
    var u := Apply(v, s).t;
    assert FullAt(u, id, 0);
  }

  /** The counts of a file are right at the end of a run if and only if they were at its start, the
      counter of its writer was if that goes on to complete a block, and each time it is opened the
      handle's counter is right if that handle goes on to complete a block. */
  lemma {:induction false} RunCounts(v: Volume, run: seq<Step>, id: nat)
    requires InOrder(v) && Legal(v, run)
    requires id in Run(v, run).t.chains
    ensures CountsOk(Run(v, run).t, id) <==> CountsWillDo(v, run, id)
    decreases |run|
  {
    hide TablesOk, Enabled, Apply, CountsOk, CountsFine, CounterFine, Harmless, TailsNext, CountsWillDo, Legal, Run;
    RunUnfolds(v, run);
    if run == [] {
      FineIsOk(v.t, id);
      NothingToDo(v, id);
    } else {
      var s, w := run[0], Apply(v, run[0]);
      StepInOrder(v, s);
      RunKeepsLog(w, run[1..]);
      RunCounts(w, run[1..], id);
      if id in v.t.chains {
        LiveIfChained(v.t, id);
        StillChained(v, s, id, Run(v, run).t);
        StepCounts(v, s, id);
        WillDoStep(v, run, id);
      } else {
        UnmadeFine(v, id);
        if id in w.t.chains {
          StepMakes(v, s, id);
        } else {
          UnmadeFine(w, id);
        }
        NotEnabled(v.t, s, id);
        WillDoUnmade(v, run, id);
      }
    }
  }

  lemma RunUnfolds(v: Volume, run: seq<Step>)
    requires Legal(v, run)
    ensures run == [] ==> Run(v, run) == v
    ensures run != [] ==>
      && Enabled(v.t, run[0]) && Legal(Apply(v, run[0]), run[1..])
      && Run(v, run) == Run(Apply(v, run[0]), run[1..])
  {
    hide Enabled, Apply;
  }

  lemma NothingToDo(v: Volume, id: nat)
    ensures CountsWillDo(v, [], id) <==> CountsFine(v.t, id)
  {
    hide CountsFine, CounterFine;
  }

  /** The effect of the first step on whether the counts will be right, given what it does to them. */
  lemma WillDoStep(v: Volume, run: seq<Step>, id: nat)
    requires Legal(v, run) && run != []
    requires StepCounted(v, run[0], Apply(v, run[0]), id)
    ensures CountsWillDo(v, run, id) <==> CountsWillDo(Apply(v, run[0]), run[1..], id)
  {
    hide Enabled, Apply, CountsFine, CounterFine, RightCounter;
  }

  lemma WillDoUnmade(v: Volume, run: seq<Step>, id: nat)
    requires Legal(v, run) && run != []
    requires !(run[0].ToTail? && run[0].id == id) && !(run[0].Opened? && run[0].id == id)
    requires CountsFine(v.t, id) && CounterFine(v, id)
    requires CountsFine(Apply(v, run[0]).t, id) && CounterFine(Apply(v, run[0]), id)
    ensures CountsWillDo(v, run, id) <==> CountsWillDo(Apply(v, run[0]), run[1..], id)
  {
    hide Enabled, Apply, CountsFine, CounterFine, RightCounter;
  }

  lemma FineIsOk(t: Tables, id: nat)
    requires id in t.chains
    ensures CountsFine(t, id) <==> CountsOk(t, id)
  {
  }

  lemma StillChained(v: Volume, s: Step, id: nat, end: Tables)
    requires InOrder(v) && Enabled(v.t, s) && id in v.t.chains && id in end.chains
    requires forall x | x in end.chains && x !in Apply(v, s).t.chains :: x > |Apply(v, s).t.log|
    ensures id in Apply(v, s).t.chains
  {
    hide TablesOk;
    LiveIfChained(v.t, id);
    StepKeepsLog(v.t, s, Used(s, v.counters));
  }

  lemma UnmadeFine(v: Volume, id: nat)
    requires InOrder(v) && id !in v.t.chains
    ensures CountsFine(v.t, id) && CounterFine(v, id)
  {
    if id in v.t.bufs { OpenIsLive(v.t, id); }
  }

  lemma NotEnabled(t: Tables, s: Step, id: nat)
    requires Enabled(t, s) && id !in t.chains
    ensures !(s.ToTail? && s.id == id) && !(s.Opened? && s.id == id)
  {
  }

  predicate NeverOpened(run: seq<Step>, id: nat) {
    forall k | 0 <= k < |run| :: !(run[k].Opened? && run[k].id == id)
  }

  lemma {:induction false} NeverOpenedHarmless(v: Volume, run: seq<Step>, id: nat)
    requires Legal(v, run) && NeverOpened(run, id)
    ensures Harmless(v, run, id)
    decreases |run|
  {
    hide Enabled, Apply;
    if run != [] {
      var rest := run[1..];
      assert forall k | 0 <= k < |rest| :: rest[k] == run[k + 1];
      NeverOpenedHarmless(Apply(v, run[0]), rest, id);
    }
  }

  /** Tail summaries are right for blocks started and finished by the same handle: if a file that is
      not there yet is made in a run and never opened again, all its counts are right at the end. */
  lemma SameHandleCounts(v: Volume, run: seq<Step>, id: nat)
    requires InOrder(v) && Legal(v, run) && id !in v.t.chains
    requires NeverOpened(run, id)
    requires id in Run(v, run).t.chains
    ensures CountsOk(Run(v, run).t, id)
  {
    hide TablesOk, Legal, Run, CountsOk, CountsFine, CounterFine;
    UnmadeFine(v, id);
    NeverOpenedHarmless(v, run, id);
    RunCounts(v, run, id);
  }

  // --------------------------------------------------------- full blocks, over a run

  /** A sector of file `id` is committed full, if the step commits one. */
  ghost predicate CommitsFull(t: Tables, s: Step, id: nat) {
    (s.ToSector? || s.ToTail?) && s.id == id && Writable(t, id) ==> Fills(t, id, |s.data|)
  }

  ghost predicate FullRun(v: Volume, run: seq<Step>, id: nat)
    requires Legal(v, run)
    decreases |run|
  {
    run == [] || (CommitsFull(v.t, run[0], id) && FullRun(Apply(v, run[0]), run[1..], id))
  }

  lemma StepFull(v: Volume, s: Step, id: nat)
    requires InOrder(v) && Enabled(v.t, s) && CommitsFull(v.t, s, id)
    requires id in v.t.chains && id in Apply(v, s).t.chains
    ensures FullKept(v.t, Apply(v, s).t, id)
  {
    hide TablesOk, FullKept, Directory, Committed;
    var t, n := v.t, Used(s, v.counters);
    if ByWriterOf(s, id) {
      WritableIfOpen(t, id);
      match s
      case ToBuffer(_, data) => FullFrame(t, BufferStep(t, id, data), id);
      case ToSector(_, data) => CommitFull(t, id, data);
      case ToTail(_, data, next) => TailFull(t, id, data, next, Add32(n, |data|));
    } else {
      StepApartCounts(t, s, n, id);
    }
  }

  /** If a file is written without early flushes, so that every sector is committed full, then each
      block of it that is completed holds 512 bytes a sector but for its two headers. */
  lemma {:induction false} RunFull(v: Volume, run: seq<Step>, id: nat)
    requires InOrder(v) && Legal(v, run) && FullRun(v, run, id)
    requires id in v.t.chains ==> AllFull(v.t, id)
    requires id in Run(v, run).t.chains
    ensures AllFull(Run(v, run).t, id)
    ensures var t := Run(v, run).t;
      forall i | 0 <= i < |t.chains[id]| - 1 ::
        && t.chains[id][i] < |t.disk|
        && BlockBytes(t.disk[t.chains[id][i]]) ==
           SECTOR_SIZE * (SECTORS_PER_PAGE * t.pages - 1) - INIT_HEADER_SIZE - TAIL_HEADER_SIZE
    decreases |run|
  {
    hide TablesOk, Enabled, Apply, AllFull, CommitsFull;
    if run != [] {
      var s, w := run[0], Apply(v, run[0]);
      StepInOrder(v, s);
      RunKeepsLog(w, run[1..]);
      if id in w.t.chains {
        if id in v.t.chains { StepFull(v, s, id); } else { StepMakes(v, s, id); }
      }
      RunFull(w, run[1..], id);
    } else {
      forall i | 0 <= i < |v.t.chains[id]| - 1
        ensures v.t.chains[id][i] < |v.t.disk|
        ensures BlockBytes(v.t.disk[v.t.chains[id][i]]) ==
                SECTOR_SIZE * (SECTORS_PER_PAGE * v.t.pages - 1) - INIT_HEADER_SIZE - TAIL_HEADER_SIZE
      {
        CompletedFull(v.t, id, i);
      }
    }
  }
}
