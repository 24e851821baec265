// The volume as the file system means it: every block is free, belongs to one
// place of one file's chain, or belongs to one place of the inode chain.
// Ghost state only; the module Image ties it to the flash contents.
module Tables {
  import opened Geometry

  /** One record of the inode table; `dead` once the file has been removed, and `last` is then the
      last block that it had. */
  datatype Entry = Entry(id: nat, first: nat, name: string, dead: bool, last: nat)

  /** The record of a file just made. */
  function Born(id: nat, first: nat, name: string): Entry {
    Entry(id, first, name, false, NO_BLOCK)
  }

  /** The record after the removal of its file, whose last block was `last`. */
  function Died(e: Entry, last: nat): Entry {
    e.(dead := true, last := last)
  }

  /** The meaning of one flash block. `slots` are the payloads of the committed
      sectors in write order; `next` and `count` are what the TAIL sector says
      once it has been written. */
  datatype AbstractBlock =
    | Free
    | FileBlock(id: nat, idx: nat, slots: seq<seq<byte>>, next: nat, count: nat)
    | InodeBlock(idx: nat, entries: seq<Entry>, next: nat)

  /** `inodes` is the inode chain, `log` all records ever made, `chains` the block
      chain of each live file, `bufs` the bytes buffered by each open writer, and
      `dirty` the one file whose last block has no committed sector. */
  datatype Tables = Tables(
    pages: nat,
    disk: seq<AbstractBlock>,
    inodes: seq<nat>,
    log: seq<Entry>,
    chains: map<nat, seq<nat>>,
    bufs: map<nat, seq<byte>>,
    dirty: Option<nat>)

  // ---------------------------------------------------------------- invariant

  /** The records that fit in one inode block. */
  function EntriesPerBlock(pages: nat): nat
    requires pages >= 2
  {
    2 * pages - 2
  }

  function Min(a: nat, b: nat): nat {
    if a < b then a else b
  }

  /** The part of the log that inode block number `i` stores. */
  function LogSlice(log: seq<Entry>, i: nat, size: nat): seq<Entry> {
    log[Min(i * size, |log|)..Min(i * size + size, |log|)]
  }

  function NextIn(chain: seq<nat>, i: nat): nat {
    if i + 1 < |chain| then chain[i + 1] else NO_BLOCK
  }

  ghost predicate SlotsFit(pages: nat, slots: seq<seq<byte>>) {
    forall j | 0 <= j < |slots| :: |slots[j]| <= Capacity(pages, j)
  }

  ghost predicate LinkOk(t: Tables, id: nat, chain: seq<nat>, i: nat)
    requires t.pages >= 2
    requires i < |chain|
  {
    && chain[i] < |t.disk|
    && var a := t.disk[chain[i]];
    && a.FileBlock? && a.id == id && a.idx == i
    && SlotsFit(t.pages, a.slots)
    && a.next == NextIn(chain, i)
    && (i + 1 < |chain| ==> |a.slots| == SlotCount(t.pages))
    && (i + 1 == |chain| ==> |a.slots| < SlotCount(t.pages))
    && (i + 1 == |chain| ==> (|a.slots| == 0 <==> t.dirty == Some(id)))
  }

  ghost predicate ChainOk(t: Tables, id: nat)
    requires t.pages >= 2
    requires id in t.chains
  {
    var chain := t.chains[id];
    && |chain| >= 1
    && 1 <= id <= |t.log|
    && forall i {:trigger LinkOk(t, id, chain, i)} | 0 <= i < |chain| :: LinkOk(t, id, chain, i)
  }

  ghost predicate InodeOk(t: Tables, i: nat)
    requires t.pages >= 2
    requires i < |t.inodes|
  {
    && t.inodes[i] < |t.disk|
    && t.disk[t.inodes[i]] == InodeBlock(i, LogSlice(t.log, i, EntriesPerBlock(t.pages)), NextIn(t.inodes, i))
  }

  /** The inode chain has been extended although its last block but one has a free record. */
  ghost predicate Early(t: Tables)
    requires t.pages >= 2
  {
    |t.inodes| >= 2 && (|t.inodes| - 1) * EntriesPerBlock(t.pages) == |t.log| + 1
  }

  /** There is a free record, and only the last inode block has more than one. */
  ghost predicate Roomy(t: Tables)
    requires t.pages >= 2
    requires |t.inodes| >= 1
  {
    var size := EntriesPerBlock(t.pages);
    (|t.inodes| - 1) * size <= |t.log| < (|t.inodes| - 1) * size + size
  }

  ghost predicate InodesOk(t: Tables)
    requires t.pages >= 2
  {
    && |t.inodes| >= 1
    && t.inodes[0] == 0
    && (Roomy(t) || Early(t))
    && forall i {:trigger InodeOk(t, i)} | 0 <= i < |t.inodes| :: InodeOk(t, i)
  }

  /** A C string: the terminating NUL is not part of it. */
  ghost predicate CString(name: string) {
    '\0' !in name
  }

  ghost predicate ValidName(name: string) {
    |name| < MAX_NAME && CString(name)
  }

  ghost predicate EntryOk(t: Tables, n: nat)
    requires n < |t.log|
  {
    && t.log[n].id == n + 1
    && ValidName(t.log[n].name)
    && (!t.log[n].dead <==> n + 1 in t.chains)
    && (!t.log[n].dead ==> |t.chains[n + 1]| >= 1 && t.chains[n + 1][0] == t.log[n].first)
  }

  /** No two live records have the same name. */
  ghost predicate NamesUnique(log: seq<Entry>) {
    forall m, n | 0 <= m < n < |log| && !log[m].dead && !log[n].dead :: log[m].name != log[n].name
  }

  ghost predicate LogOk(t: Tables) {
    && |t.log| < ERASED32
    && NamesUnique(t.log)
    && forall n {:trigger EntryOk(t, n)} | 0 <= n < |t.log| :: EntryOk(t, n)
  }

  /** Block `b` is where the chain it names says it is. */
  ghost predicate OwnerOk(t: Tables, b: nat)
    requires b < |t.disk|
  {
    match t.disk[b]
    case Free => true
    case FileBlock(id, idx, _, _, _) => id in t.chains && idx < |t.chains[id]| && t.chains[id][idx] == b
    case InodeBlock(idx, _, _) => idx < |t.inodes| && t.inodes[idx] == b
  }

  ghost predicate BufferOk(t: Tables, id: nat)
    requires id in t.bufs
  {
    && id in t.chains
    && |t.chains[id]| >= 1
    && var b := Last(t.chains[id]);
    && b < |t.disk|
    && t.disk[b].FileBlock?
    && |t.bufs[id]| < Capacity(t.pages, |t.disk[b].slots|)
  }

  /** The invariant of the tables. */
  ghost predicate TablesOk(t: Tables) {
    && t.pages >= 2
    && |t.disk| < NO_BLOCK
    && InodesOk(t)
    && LogOk(t)
    && (forall id {:trigger ChainOk(t, id)} | id in t.chains :: ChainOk(t, id))
    && (forall b {:trigger OwnerOk(t, b)} | 0 <= b < |t.disk| :: OwnerOk(t, b))
    && (forall id {:trigger BufferOk(t, id)} | id in t.bufs :: BufferOk(t, id))
    && (t.dirty.Some? ==> t.dirty.value in t.bufs)
  }

  // ----------------------------------------------------------------- meaning

  function Last(s: seq<nat>): nat
    requires |s| >= 1
  {
    s[|s| - 1]
  }

  /** The last block of a chain, if it has one. */
  function EndOf(chain: seq<nat>): nat {
    if chain == [] then NO_BLOCK else Last(chain)
  }

  function Flatten(slots: seq<seq<byte>>): seq<byte> {
    if slots == [] then [] else Flatten(slots[..|slots| - 1]) + slots[|slots| - 1]
  }

  function BlockData(disk: seq<AbstractBlock>, b: nat): seq<byte> {
    if b < |disk| && disk[b].FileBlock? then Flatten(disk[b].slots) else []
  }

  /** The bytes of a chain that have reached the flash. */
  function Committed(disk: seq<AbstractBlock>, chain: seq<nat>): seq<byte> {
    if chain == [] then [] else Committed(disk, chain[..|chain| - 1]) + BlockData(disk, chain[|chain| - 1])
  }

  function Buffered(t: Tables, id: nat): seq<byte> {
    if id in t.bufs then t.bufs[id] else []
  }

  function ContentOf(t: Tables, id: nat): seq<byte>
    requires id in t.chains
  {
    Committed(t.disk, t.chains[id]) + Buffered(t, id)
  }

  /** The logical content of every live file, by file id. */
  function Contents(t: Tables): map<nat, seq<byte>> {
    map id | id in t.chains :: ContentOf(t, id)
  }

  /** The directory: the id of each live name. */
  function Directory(log: seq<Entry>): map<string, nat> {
    if log == [] then map[]
    else
      var e := log[|log| - 1];
      var before := Directory(log[..|log| - 1]);
      if e.dead then before else before[e.name := |log|]
  }

  /** Contents looked up by name. */
  function Compose(dir: map<string, nat>, contents: map<nat, seq<byte>>): map<string, seq<byte>> {
    map name | name in dir && dir[name] in contents :: contents[dir[name]]
  }

  /** The volume as its users see it. */
  function FileMap(t: Tables): map<string, seq<byte>> {
    Compose(Directory(t.log), Contents(t))
  }

  // ------------------------------------------------------------------- steps

  /** `id` is open for writing and its chain has a last block. */
  ghost predicate Writable(t: Tables, id: nat) {
    && id in t.bufs
    && id in t.chains
    && |t.chains[id]| >= 1
    && Last(t.chains[id]) < |t.disk|
    && t.disk[Last(t.chains[id])].FileBlock?
  }

  ghost function LastBlock(t: Tables, id: nat): AbstractBlock
    requires Writable(t, id)
    ensures LastBlock(t, id).FileBlock?
  {
    t.disk[Last(t.chains[id])]
  }

  /** `n` more bytes fill the sector the writer of `id` stands at. */
  ghost predicate Fills(t: Tables, id: nat, n: nat)
    requires Writable(t, id)
  {
    |t.bufs[id]| + n == Capacity(t.pages, |LastBlock(t, id).slots|)
  }

  /** The sector may be committed although it is not full: in INIT, when the dirty file is flushed or
      its writer closed; elsewhere when a writer is closed, which flushes no buffer of 0 or 16 bytes. */
  ghost predicate MayFlush(t: Tables, id: nat)
    requires Writable(t, id)
  {
    LastBlock(t, id).slots == [] || (t.bufs[id] != [] && |t.bufs[id]| != 16)
  }

  /** Bytes put in the writer's buffer. */
  ghost function BufferStep(t: Tables, id: nat, data: seq<byte>): Tables
    requires Writable(t, id)
  {
    t.(bufs := t.bufs[id := t.bufs[id] + data])
  }

  /** The buffer and `data` committed to a sector other than TAIL. */
  ghost function CommitStep(t: Tables, id: nat, data: seq<byte>): Tables
    requires Writable(t, id)
  {
    var a := LastBlock(t, id);
    t.(disk := t.disk[Last(t.chains[id]) := a.(slots := a.slots + [t.bufs[id] + data])],
       bufs := t.bufs[id := []],
       dirty := if t.dirty == Some(id) then None else t.dirty)
  }

  /** The buffer and `data` committed to the TAIL sector, which links block `next`. */
  ghost function TailStep(t: Tables, id: nat, data: seq<byte>, next: nat, count: nat): Tables
    requires Writable(t, id)
    requires next < |t.disk|
  {
    var a := LastBlock(t, id);
    var chain := t.chains[id];
    t.(disk := t.disk[Last(chain) := a.(slots := a.slots + [t.bufs[id] + data], next := next, count := count)]
                     [next := FileBlock(id, |chain|, [], NO_BLOCK, 0)],
       chains := t.chains[id := chain + [next]],
       bufs := t.bufs[id := []],
       dirty := Some(id))
  }

  /** Whatever file is dirty gets its INIT sector committed. */
  ghost function FlushDirtyStep(t: Tables): Tables
    requires t.dirty.Some? ==> Writable(t, t.dirty.value)
  {
    if t.dirty.Some? then CommitStep(t, t.dirty.value, []) else t
  }

  /** Block `next` appended to the inode chain. */
  ghost function LinkInodeStep(t: Tables, next: nat): Tables
    requires next < |t.disk|
    requires |t.inodes| >= 1
    requires Last(t.inodes) < |t.disk|
    requires t.disk[Last(t.inodes)].InodeBlock?
  {
    var a := t.disk[Last(t.inodes)];
    t.(disk := t.disk[Last(t.inodes) := InodeBlock(a.idx, a.entries, next)][next := InodeBlock(|t.inodes|, [], NO_BLOCK)],
       inodes := t.inodes + [next])
  }

  /** A record for a new, empty file whose first block is `first`, made in inode block `at`. */
  ghost function CreateStep(t: Tables, name: string, first: nat, at: nat): Tables
    requires at < |t.disk| && t.disk[at].InodeBlock?
    requires first < |t.disk|
  {
    var a := t.disk[at];
    var id := |t.log| + 1;
    var e := Born(id, first, name);
    t.(disk := t.disk[at := InodeBlock(a.idx, a.entries + [e], a.next)][first := FileBlock(id, 0, [], NO_BLOCK, 0)],
       log := t.log + [e],
       chains := t.chains[id := [first]],
       bufs := t.bufs[id := []],
       dirty := Some(id))
  }

  /** An existing file opened for writing. */
  ghost function OpenStep(t: Tables, id: nat): Tables {
    t.(bufs := t.bufs[id := []])
  }

  /** A writer dropped; what it has buffered is lost. */
  ghost function CloseStep(t: Tables, id: nat): Tables {
    t.(bufs := t.bufs - {id})
  }

  /** Every writer dropped at once. */
  ghost function RemountStep(t: Tables): Tables {
    t.(bufs := map[])
  }

  /** The disk with the first `count` blocks of `chain` erased. */
  ghost function Erased(disk: seq<AbstractBlock>, chain: seq<nat>, count: nat): seq<AbstractBlock>
    requires count <= |chain|
  {
    seq(|disk|, b requires 0 <= b < |disk| => if b in chain[..count] then Free else disk[b])
  }

  /** Record `n`, which is record `k` of inode block `at`, marked dead; its chain is nobody's any more. */
  ghost function MarkDeadStep(t: Tables, n: nat, at: nat, k: nat): Tables
    requires n < |t.log| && n + 1 in t.chains
    requires at < |t.disk| && t.disk[at].InodeBlock?
    requires k < |t.disk[at].entries|
  {
    var a := t.disk[at];
    var e := Died(t.log[n], EndOf(t.chains[n + 1]));
    t.(disk := t.disk[at := InodeBlock(a.idx, a.entries[k := e], a.next)],
       log := t.log[n := e],
       chains := t.chains - {n + 1})
  }

  /** MarkDeadStep followed by the erasure of the whole chain. */
  ghost function RemoveStep(t: Tables, n: nat, at: nat, k: nat): Tables
    requires n < |t.log| && n + 1 in t.chains
    requires at < |t.disk| && t.disk[at].InodeBlock?
    requires k < |t.disk[at].entries|
  {
    var u := MarkDeadStep(t, n, at, k);
    var chain := t.chains[n + 1];
    u.(disk := Erased(u.disk, chain, |chain|))
  }
}
