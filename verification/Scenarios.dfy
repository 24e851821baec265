// Runs from a formatted volume into each of the states in which an operation
// does not do what its users expect.
module Scenarios {
  import opened Geometry
  import opened Tables
  import opened TablesProofs
  import opened Refinement
  import opened Machine
  import opened Counts
  import opened FileSystem
  import opened Effects
  import opened Inodes
  import opened NewFile
  import opened OpenClose
  import opened Reader
  import opened Seek
  import opened Mount
  import opened Runs

  /** The writer of file 1, the only file, has `n` sectors committed in its only block. */
  ghost predicate OneFile(v: Volume, pages: nat, count: nat, n: nat) {
    && InOrder(v)
    && v.t.pages == pages && |v.t.disk| == count
    && v.t.log == [Born(1, 1, "a")] && v.t.inodes == [0]
    && v.t.chains == map[1 := [1]] && v.t.bufs.Keys == {1}
    && 1 < |v.t.disk| && v.t.disk[1].FileBlock? && |v.t.disk[1].slots| == n
    && Writable(v.t, 1) && LastBlock(v.t, 1) == v.t.disk[1]
    && v.t.dirty == (if n == 0 then Some(1) else None)
    && (forall b | 2 <= b < count :: v.t.disk[b] == Free)
  }

  /** File 1 made on an empty volume. */
  lemma Made(pages: nat, count: nat) returns (v: Volume)
    requires pages >= 2 && 2 <= count < NO_BLOCK
    ensures Reaches(Fresh(pages, count), v)
    ensures OneFile(v, pages, count, 0) && v.t.bufs[1] == [] && v.t.disk[1].slots == [] && Counter(v.counters, 1) == 0
  {
    hide Reaches;
    var start, s := Fresh(pages, count), NewRecord("a", 1, 0);
    FormattedOk(pages, count);
    assert Enabled(start.t, s);
    StepInOrder(start, s);
    ReachesNext(start, s);
    v := Apply(start, s);
    WritableIfOpen(v.t, 1);
  }

  /** Bytes put in the buffer of file 1. */
  lemma Buffering(start: Volume, v: Volume, pages: nat, count: nat, n: nat, data: seq<byte>) returns (w: Volume)
    requires OneFile(v, pages, count, n) && v.t.bufs[1] == [] && Reaches(start, v)
    requires n < SlotCount(pages) && |data| < Capacity(pages, n)
    ensures Reaches(start, w)
    ensures OneFile(w, pages, count, n) && w.t.bufs[1] == data && w.t.disk == v.t.disk
  {
    hide Reaches, TablesOk, Committed, Directory;
    var s := ToBuffer(1, data);
    TwoPages(v.t);
    assert Enabled(v.t, s);
    StepInOrder(v, s);
    ReachesNext(v, s);
    w := Apply(v, s);
    ReachesTrans(start, v, w);
    assert [] + data == data;
  }

  /** One more sector of file 1 committed: filled by `data`, or INIT flushed as it is. */
  lemma Committing(start: Volume, v: Volume, pages: nat, count: nat, n: nat, data: seq<byte>) returns (w: Volume)
    requires OneFile(v, pages, count, n) && n + 1 < SlotCount(pages) && Reaches(start, v)
    requires (v.t.bufs[1] == [] && |data| == Capacity(pages, n)) || (n == 0 && data == [])
    ensures Reaches(start, w)
    ensures OneFile(w, pages, count, n + 1) && w.t.bufs[1] == []
    ensures w.t.disk[1].slots == v.t.disk[1].slots + [v.t.bufs[1] + data]
    ensures w.t.disk[0] == v.t.disk[0]
    ensures InLastBlock(w.t, 1) == InLastBlock(v.t, 1) + |data|
    ensures InStep(w.t, 1, Counter(w.counters, 1)) <==> InStep(v.t, 1, Counter(v.counters, 1))
  {
    hide Reaches, InOrder, Apply, Enabled, InLastBlock, InStep;
    var s := ToSector(1, data);
    MayCommit(v, pages, count, n, data);
    StepInOrder(v, s);
    ReachesNext(v, s);
    w := Apply(v, s);
    ReachesTrans(start, v, w);
    OneCommitted(v, pages, count, n, data);
    CommitInStep(v, data);
  }

  lemma MayCommit(v: Volume, pages: nat, count: nat, n: nat, data: seq<byte>)
    requires OneFile(v, pages, count, n) && n + 1 < SlotCount(pages)
    requires (v.t.bufs[1] == [] && |data| == Capacity(pages, n)) || (n == 0 && data == [])
    ensures Enabled(v.t, ToSector(1, data))
  {
    hide TablesOk, Directory;
    TwoPages(v.t);
    WritableIfOpen(v.t, 1);
  }

  lemma OneCommitted(v: Volume, pages: nat, count: nat, n: nat, data: seq<byte>)
    requires OneFile(v, pages, count, n) && Enabled(v.t, ToSector(1, data))
    requires InOrder(Apply(v, ToSector(1, data)))
    ensures var w := Apply(v, ToSector(1, data));
      && OneFile(w, pages, count, n + 1) && w.t.bufs[1] == []
      && w.t.disk[1].slots == v.t.disk[1].slots + [v.t.bufs[1] + data] && w.t.disk[0] == v.t.disk[0]
  {
    hide TablesOk, Directory, Capacity;
  }

  lemma CommitInStep(v: Volume, data: seq<byte>)
    requires InOrder(v) && Writable(v.t, 1) && 1 in v.t.bufs && Enabled(v.t, ToSector(1, data))
    ensures var w := Apply(v, ToSector(1, data));
      && Writable(w.t, 1)
      && InLastBlock(w.t, 1) == InLastBlock(v.t, 1) + |data|
      && (InStep(w.t, 1, Counter(w.counters, 1)) <==> InStep(v.t, 1, Counter(v.counters, 1)))
  {
    hide TablesOk, CommitStep, InLastBlock;
    CommitCounts(v.t, 1, data);
    SameRemainder(Counter(v.counters, 1), InLastBlock(v.t, 1), |data|);
  }

  function Zeros(n: nat): (s: seq<byte>)
    ensures |s| == n
  {
    seq(n, _ => 0)
  }

  /** Sectors written full, until file 1 stands at the TAIL sector. */
  lemma {:induction false} FilledToTail(start: Volume, v: Volume, pages: nat, count: nat, n: nat) returns (w: Volume)
    requires OneFile(v, pages, count, n) && n < SlotCount(pages) && v.t.bufs[1] == [] && Reaches(start, v)
    ensures Reaches(start, w)
    ensures OneFile(w, pages, count, SlotCount(pages) - 1) && w.t.bufs[1] == []
    ensures InStep(w.t, 1, Counter(w.counters, 1)) <==> InStep(v.t, 1, Counter(v.counters, 1))
    decreases SlotCount(pages) - n
  {
    hide OneFile, Reaches, InStep;
    CanWrite(v, pages, count, n);
    if n + 1 == SlotCount(pages) {
      w := v;
    } else {
      var u := Committing(start, v, pages, count, n, Zeros(Capacity(pages, n)));
      CanWrite(u, pages, count, n + 1);
      w := FilledToTail(start, u, pages, count, n + 1);
      CanWrite(w, pages, count, SlotCount(pages) - 1);
    }
  }

  lemma CanWrite(v: Volume, pages: nat, count: nat, n: nat)
    requires OneFile(v, pages, count, n)
    ensures Writable(v.t, 1) && 1 in v.t.bufs
    ensures 1 < |v.t.disk| && v.t.disk[1].FileBlock? && LastBlock(v.t, 1) == v.t.disk[1] && pages >= 2
  {
  }

  /** A writer in a TAIL sector with one byte buffered, which closing loses. */
  ghost predicate TailByte(v: Volume, x: byte) {
    && InOrder(v) && Writable(v.t, 1) && v.t.bufs[1] == [x] && v.t.dirty == None
    && var w := WriterFor(v.t, 1);
      && w.sector == TAIL_SECTOR && w.offset == 17 && LosesOnClose(w.sector, w.offset)
      && FileMap(CloseStep(v.t, 1)) != FileMap(v.t)
  }

  lemma TailByteIsLost(pages: nat, count: nat, x: byte)
    requires pages >= 2 && 2 <= count < NO_BLOCK
    ensures exists v :: Reaches(Fresh(pages, count), v) && TailByte(v, x)
  {
    hide Reaches, TablesOk, FileMap, Committed, Directory;
    var start := Fresh(pages, count);
    var u := Made(pages, count);
    u := FilledToTail(start, u, pages, count, 0);
    var v := Buffering(start, u, pages, count, SlotCount(pages) - 1, [x]);
    CloseLosesNothing(v.t, {1});
    assert TailByte(v, x);
  }

  /** A file reopened with a handle whose counter is 0 over a block that is not empty: the count of
      that block is wrong once it is completed. */
  lemma ReopenedCountIsWrong(pages: nat, count: nat)
    requires pages >= 2 && 3 <= count < NO_BLOCK
    ensures exists v :: Reaches(Fresh(pages, count), v) && WrongCount(v)
  {
    hide Reaches, OneFile, WrongCount, InLastBlock, InStep, Fresh;
    var start := Fresh(pages, count);
    var u := Made(pages, count);
    CanWrite(u, pages, count, 0);
    NothingYet(u);
    u := Committing(start, u, pages, count, 0, Zeros(Capacity(pages, 0)));
    CanWrite(u, pages, count, 1);
    u := Reopening(start, u, pages, count);
    CanWrite(u, pages, count, 1);
    u := FilledToTail(start, u, pages, count, 1);
    CanWrite(u, pages, count, SlotCount(pages) - 1);
    var v := Completing(start, u, pages, count);
  }

  ghost predicate WrongCount(v: Volume) {
    1 in v.t.chains && !CountsOk(v.t, 1)
  }

  lemma NothingYet(v: Volume)
    requires 1 < |v.t.disk| && v.t.disk[1].FileBlock?
    requires Writable(v.t, 1) && LastBlock(v.t, 1) == v.t.disk[1] && v.t.disk[1].slots == [] && v.t.bufs[1] == []
    ensures InLastBlock(v.t, 1) == 0
  {
  }

  /** The TAIL sector written by a writer whose counter is wrong. */
  lemma Completing(start: Volume, v: Volume, pages: nat, count: nat) returns (w: Volume)
    requires pages >= 2 && 3 <= count && Reaches(start, v)
    requires OneFile(v, pages, count, SlotCount(pages) - 1) && v.t.bufs[1] == []
    requires !InStep(v.t, 1, Counter(v.counters, 1))
    ensures Reaches(start, w) && WrongCount(w)
  {
    hide Reaches, TablesOk, Committed, Directory, CountsOk;
    var data := Zeros(Capacity(pages, SlotCount(pages) - 1));
    var s := ToTail(1, data, 2);
    TwoPages(v.t);
    assert Enabled(v.t, s);
    ReachesNext(v, s);
    w := Apply(v, s);
    ReachesTrans(start, v, w);
    TailCounts(v.t, 1, data, 2, Counter(v.counters, 1));
  }

  /** File 1, with its first sector full, closed and opened again with a counter of 0. */
  lemma Reopening(start: Volume, v: Volume, pages: nat, count: nat) returns (w: Volume)
    requires OneFile(v, pages, count, 1) && v.t.bufs[1] == [] && Reaches(start, v)
    requires 0 < InLastBlock(v.t, 1) <= SECTOR_SIZE
    ensures Reaches(start, w)
    ensures OneFile(w, pages, count, 1) && w.t.bufs[1] == []
    ensures !InStep(w.t, 1, Counter(w.counters, 1))
  {
    hide Reaches, TablesOk, Committed, Directory;
    var s, r := Closed(1), Opened(1, 0);
    TwoPages(v.t);
    StepInOrder(v, s);
    ReachesNext(v, s);
    var u := Apply(v, s);
    assert u.t.bufs.Keys == {};
    StepInOrder(u, r);
    ReachesNext(u, r);
    w := Apply(u, r);
    ReachesTrans(start, v, u);
    ReachesTrans(start, u, w);
    WritableIfOpen(w.t, 1);
  }

  /** A file just made and not flushed, opened for reading: there is nothing in it, but the reader
      believes to have 0xFFFF bytes to go. */
  ghost predicate NotReadable(v: Volume, file: ReadFile)
    reads file
  {
    && "a" in FileMap(v.t) && FileMap(v.t)["a"] == []
    && (file.id == 1 && file.Starts(v.t) ==> !file.Stands(v.t) && file.remaining == ERASED16)
  }

  lemma NewFileIsNotReadable(pages: nat, count: nat, file: ReadFile)
    requires pages >= 2 && 2 <= count < NO_BLOCK
    ensures exists v :: Reaches(Fresh(pages, count), v) && NotReadable(v, file)
  {
    hide Reaches;
    var v := Made(pages, count);
    LiveIfChained(v.t, 1);
    CommittedOne(v.t.disk, 1);
    FlattenNone();
    assert NotReadable(v, file);
  }

  /** With two pages in a block: one record left, and the inode chain extended for the next one before
      that is made. If no block can be had for the file then, the volume stays like this. */
  ghost predicate Extends(v: Volume, w: Volume) {
    && InOrder(v) && OneRecordLeft(v.t) && !Early(v.t)
    && v.t.dirty == None && "b" !in Directory(v.t.log)
    && w.t.pages >= 2 && Early(w.t) && FileMap(w.t) == FileMap(v.t)
  }

  lemma ExtendedEarly(count: nat)
    requires 3 <= count < NO_BLOCK
    ensures exists v, w :: Reaches(Fresh(2, count), v) && Reaches(v, w) && Extends(v, w)
  {
    hide Reaches, OneFile, Extends, Enabled, Apply;
    var start := Fresh(2, count);
    var u := Made(2, count);
    CanWrite(u, 2, count, 0);
    var v := Committing(start, u, 2, count, 0, []);
    OneName(v, count);
    ReachesNext(v, MoreInodes(2));
    OneExtends(v, count);
  }

  /** With file 1 flushed, another inode block can be linked. */
  lemma OneName(v: Volume, count: nat)
    requires OneFile(v, 2, count, 1) && count >= 3
    ensures Directory(v.t.log) == map["a" := 1]
    ensures Enabled(v.t, MoreInodes(2)) && v.t.disk[0].InodeBlock?
  {
    hide TablesOk, Committed;
    assert v.t.log[..0] == [];
    InodeShows(v.t, 0);
  }

  lemma OneExtends(v: Volume, count: nat)
    requires OneFile(v, 2, count, 1) && count >= 3 && Enabled(v.t, MoreInodes(2))
    ensures Extends(v, Apply(v, MoreInodes(2)))
  {
    hide TablesOk, Committed, FileMap, Directory;
    OneName(v, count);
    LinkInodeMeans(v.t, 2);
  }

  /** A listing that has returned the only name there is. Then a file is made in the last record of the
      inode block, for which another block is linked; and the next call to the listing gives up. */
  ghost predicate GivesUp(v: Volume, w: Volume, iter: InodeIterator)
    reads iter
  {
    && w.t.pages >= 2
    && LiveNames(v.t.log, 0) == ["a"] && LiveNames(w.t.log, 0) == ["a", "b"]
    && (iter.At(v.t, 1) ==> iter.Stale(w.t, 1) && RunsInto(w.t.log, 1, (iter.at + 1) * EntriesPerBlock(w.t.pages)))
  }

  lemma ListingGivesUp(count: nat, iter: InodeIterator)
    requires 4 <= count < NO_BLOCK
    ensures exists v, w :: Reaches(Fresh(2, count), v) && Reaches(v, w) && GivesUp(v, w, iter)
  {
    hide Reaches, InOrder;
    var v := Made(2, count);
    var w := SecondFile(v, count);
    assert LiveNames(w.t.log, 2) == [] && LiveNames(w.t.log, 1) == ["b"] && LiveNames(v.t.log, 1) == [];
    assert GivesUp(v, w, iter);
  }

  /** A second file made on a volume with room for just that. */
  lemma SecondFile(v: Volume, count: nat) returns (w: Volume)
    requires OneFile(v, 2, count, 0) && 4 <= count < NO_BLOCK
    ensures Reaches(v, w)
    ensures w.t.log == [Born(1, 1, "a"), Born(2, 3, "b")] && w.t.inodes == [0, 2] && w.t.pages == 2
  {
    hide Reaches, InOrder;
    ReachesItself(v);
    var u := Committing(v, v, 2, count, 0, []);
    OneName(u, count);
    ReachesNext(u, MoreInodes(2));
    var x := Apply(u, MoreInodes(2));
    ReachesTrans(v, u, x);
    var s := NewRecord("b", 3, 0);
    assert Enabled(x.t, s);
    ReachesNext(x, s);
    w := Apply(x, s);
    ReachesTrans(v, x, w);
  }

  /** Seeking to the start of a file with a byte in its first sector succeeds and leaves a reader that
      is not fit for use. */
  ghost predicate StartNotFit(v: Volume) {
    && 1 in v.t.chains && v.t.pages >= 2
    && CountsExact(v.t, 1) && Reachable(v.t, 1, 0) && InHeaderedSector(v.t, 1, 0)
  }

  lemma SeekToStartIsNotFit(pages: nat, count: nat, x: byte)
    requires pages >= 2 && 2 <= count < NO_BLOCK
    ensures exists v :: Reaches(Fresh(pages, count), v) && StartNotFit(v)
  {
    hide Reaches, TablesOk;
    var start := Fresh(pages, count);
    var u := Made(pages, count);
    u := Buffering(start, u, pages, count, 0, [x]);
    var v := Committing(start, u, pages, count, 0, []);
    assert [x] + [] == [x];
    assert v.t.disk[1].slots == [[x]];
    CommittedOne(v.t.disk, 1);
    FlattenOne([x]);
    StartIsHeadered(v.t, 1);
    assert StartNotFit(v);
  }

  /** Four bytes written to a new file, which is then closed: the file stays dirty, and after
      initializing and mounting again the four bytes are gone. */
  ghost predicate FourBytes(v: Volume, data: seq<byte>) {
    && InOrder(v) && Writable(v.t, 1) && v.t.bufs[1] == data && v.t.dirty == Some(1)
    && var w := WriterFor(v.t, 1);
      && ForgottenOnClose(w.sector, w.offset)
      && FileMap(Forgotten(v.t)) != FileMap(v.t)
  }

  lemma FourBytesAreForgotten(pages: nat, count: nat, data: seq<byte>)
    requires pages >= 2 && 2 <= count < NO_BLOCK && |data| == 4
    ensures exists v :: Reaches(Fresh(pages, count), v) && FourBytes(v, data)
  {
    hide Reaches, TablesOk, FileMap, Committed, Directory;
    var start := Fresh(pages, count);
    var u := Made(pages, count);
    var s := ToBuffer(1, data);
    TwoPages(u.t);
    assert Enabled(u.t, s);
    StepInOrder(u, s);
    ReachesNext(u, s);
    var v := Apply(u, s);
    ReachesTrans(start, u, v);
    assert [] + data == data;
    RemountMeans(v.t);
    assert FourBytes(v, data);
  }

  /** Once the block of a forgotten dirty file is available, the next file that completes a block may
      link it, and then it has two owners. */
  lemma LinkedTwice(t: Tables, id: nat, data: seq<byte>, count: nat)
    requires TablesOk(t) && id in t.bufs && Writable(t, id)
    requires t.dirty.Some? && t.dirty.value != id && t.dirty.value in t.chains
    ensures |t.chains[t.dirty.value]| >= 1 && Last(t.chains[t.dirty.value]) < |t.disk|
    ensures !OwnedOnce(TailStep(t, id, data, Last(t.chains[t.dirty.value]), count))
  {
    var x := t.dirty.value;
    LastIsOpenEnded(t, x);
    var c := t.chains[x];
    var u := TailStep(t, id, data, Last(c), count);
    var d := u.chains[id];
    assert u.chains[x] == c && d[|d| - 1] == c[|c| - 1];
  }
}
