// The block preallocator: a fixed array of list nodes kept on three linked
// lists. A pointer into the array is the index of the node it points to.
module Prealloc {
  import opened Geometry

  datatype Node = Node(block: nat, next: Option<nat>)

  const SPARE_NODE := Node(NO_BLOCK, None)

  ghost predicate Distinct<T>(s: seq<T>) {
    forall i, j | 0 <= i < j < |s| :: s[i] != s[j]
  }

  ghost predicate Apart<T>(s: seq<T>, u: seq<T>) {
    forall x | x in s :: x !in u
  }

  /** A sequence without its element `k`. */
  function Without<T>(s: seq<T>, k: nat): seq<T>
    requires k < |s|
  {
    s[..k] + s[k + 1..]
  }

  function HeadOf(s: seq<nat>): Option<nat> {
    if |s| == 0 then None else Some(s[0])
  }

  function Follower(s: seq<nat>, i: nat): Option<nat> {
    if i + 1 < |s| then Some(s[i + 1]) else None
  }

  /** Starting at its first element, the links of `a` lead through `s` and end. */
  ghost predicate Linked(a: seq<Node>, s: seq<nat>) {
    && (forall i | 0 <= i < |s| :: s[i] < |a|)
    && forall i | 0 <= i < |s| :: a[s[i]].next == Follower(s, i)
  }

  /** The nodes of `s` carry the block numbers `blocks`. */
  ghost predicate Carry(a: seq<Node>, s: seq<nat>, blocks: seq<nat>) {
    && |s| == |blocks|
    && (forall i | 0 <= i < |s| :: s[i] < |a|)
    && forall i | 0 <= i < |s| :: a[s[i]].block == blocks[i]
  }

  /** The three lists are acyclic and share out the nodes `0 .. size`. */
  ghost predicate Partition(size: nat, free: seq<nat>, available: seq<nat>, pending: seq<nat>) {
    && Distinct(free) && Distinct(available) && Distinct(pending)
    && Apart(free, available) && Apart(free, pending) && Apart(available, pending)
    && (forall x | 0 <= x < size :: x in free || x in available || x in pending)
    && (forall i | 0 <= i < |free| :: free[i] < size)
    && (forall i | 0 <= i < |available| :: available[i] < size)
    && (forall i | 0 <= i < |pending| :: pending[i] < size)
    && |free| + |available| + |pending| == size
  }

  /** The block numbers on the two lists are all different. */
  ghost predicate Numbers(ready: seq<nat>, popped: seq<nat>) {
    && Distinct(ready) && Distinct(popped) && Apart(ready, popped)
    && NO_BLOCK !in ready && NO_BLOCK !in popped
  }

  /** The nodes on each list, and the block numbers on the available list (`ready`)
      and on the pending list (`popped`). */
  datatype Lists = Lists(free: seq<nat>, available: seq<nat>, pending: seq<nat>, ready: seq<nat>, popped: seq<nat>)

  ghost predicate ListsOk(a: seq<Node>, l: Lists) {
    && Partition(|a|, l.free, l.available, l.pending)
    && Linked(a, l.free) && Linked(a, l.available) && Linked(a, l.pending)
    && (forall i | 0 <= i < |l.free| :: a[l.free[i]].block == NO_BLOCK)
    && Carry(a, l.available, l.ready) && Carry(a, l.pending, l.popped)
    && Numbers(l.ready, l.popped)
  }

  /** All nodes are on the three lists. */
  lemma NodesShared(p: Preallocator)
    requires p.Valid()
    ensures |p.lists.free| + |p.lists.ready| + |p.lists.popped| == p.nodes.Length
  {
  }

  lemma NumbersOk(a: seq<Node>, l: Lists)
    requires ListsOk(a, l)
    ensures Numbers(l.ready, l.popped) && |l.popped| == |l.pending|
  {
  }

  function Pushed(l: Lists, block: nat): Lists
    requires |l.free| > 0
  {
    l.(free := l.free[1..], available := l.available + [l.free[0]], ready := l.ready + [block])
  }

  function Popped(l: Lists): Lists
    requires |l.available| > 0 && |l.ready| > 0
  {
    Lists(l.free, l.available[1..], l.pending + [l.available[0]], l.ready[1..], l.popped + [l.ready[0]])
  }

  function Dropped(l: Lists, k: nat): Lists
    requires k < |l.pending| && k < |l.popped|
  {
    l.(free := [l.pending[k]] + l.free, pending := Without(l.pending, k), popped := Without(l.popped, k))
  }

  // ------------------------------------------------------ relinking, as lemmas

  lemma LinkedFrame(a: seq<Node>, b: seq<Node>, s: seq<nat>, blocks: seq<nat>)
    requires Linked(a, s) && Carry(a, s, blocks)
    requires |b| == |a|
    requires forall x | x in s :: b[x] == a[x]
    ensures Linked(b, s) && Carry(b, s, blocks)
  {
    forall i | 0 <= i < |s| ensures b[s[i]] == a[s[i]] { assert s[i] in s; }
  }

  lemma LinkedRest(a: seq<Node>, s: seq<nat>)
    requires Linked(a, s) && |s| > 0
    ensures Linked(a, s[1..])
    ensures a[s[0]].next == HeadOf(s[1..])
  {
    var r := s[1..];
    forall i | 0 <= i < |r| ensures a[r[i]].next == Follower(r, i) {
      assert r[i] == s[i + 1];
    }
  }

  /** The array after `entry` has been linked behind the last node of `s`. */
  function Appended(a: seq<Node>, s: seq<nat>, entry: nat): seq<Node>
    requires entry < |a|
    requires |s| > 0 ==> s[|s| - 1] < |a|
  {
    var b := a[entry := a[entry].(next := None)];
    if |s| == 0 then b else b[s[|s| - 1] := b[s[|s| - 1]].(next := Some(entry))]
  }

  lemma AppendedLinked(a: seq<Node>, s: seq<nat>, blocks: seq<nat>, entry: nat)
    requires Linked(a, s) && Carry(a, s, blocks) && Distinct(s)
    requires entry < |a| && entry !in s
    ensures Linked(Appended(a, s, entry), s + [entry])
    ensures Carry(Appended(a, s, entry), s + [entry], blocks + [a[entry].block])
  {
    var b := Appended(a, s, entry);
    var r := s + [entry];
    forall i | 0 <= i < |r|
      ensures b[r[i]].next == Follower(r, i)
      ensures b[r[i]].block == (blocks + [a[entry].block])[i]
    {
      if i < |s| { assert s[i] in s; }
    }
  }

  lemma PushPartition(size: nat, free: seq<nat>, available: seq<nat>, pending: seq<nat>)
    requires Partition(size, free, available, pending)
    requires |free| > 0
    ensures free[0] < size && free[0] !in free[1..] && free[0] !in available && free[0] !in pending
    ensures Partition(size, free[1..], available + [free[0]], pending)
  {
    assert free == [free[0]] + free[1..];
  }

  lemma PopPartition(size: nat, free: seq<nat>, available: seq<nat>, pending: seq<nat>)
    requires Partition(size, free, available, pending)
    requires |available| > 0
    ensures available[0] < size && available[0] !in available[1..] && available[0] !in free && available[0] !in pending
    ensures Partition(size, free, available[1..], pending + [available[0]])
  {
    assert available == [available[0]] + available[1..];
  }

  lemma ReleasePartition(size: nat, free: seq<nat>, available: seq<nat>, pending: seq<nat>, k: nat)
    requires Partition(size, free, available, pending)
    requires k < |pending|
    ensures pending[k] < size && pending[k] !in Without(pending, k) && pending[k] !in free && pending[k] !in available
    ensures Partition(size, [pending[k]] + free, available, Without(pending, k))
  {
    assert pending == pending[..k] + [pending[k]] + pending[k + 1..];
  }

  lemma PushNumbers(ready: seq<nat>, popped: seq<nat>, block: nat)
    requires Numbers(ready, popped)
    requires block != NO_BLOCK && block !in ready && block !in popped
    ensures Numbers(ready + [block], popped)
  {
  }

  lemma PopNumbers(ready: seq<nat>, popped: seq<nat>)
    requires Numbers(ready, popped) && ready != []
    ensures Numbers(ready[1..], popped + [ready[0]])
  {
    assert ready[0] in ready;
    assert forall x | x in ready[1..] :: x in ready;
  }

  lemma ReleaseNumbers(ready: seq<nat>, popped: seq<nat>, k: nat)
    requires Numbers(ready, popped) && k < |popped|
    ensures Numbers(ready, Without(popped, k))
    ensures forall x :: x in Without(popped, k) <==> x in popped && x != popped[k]
  {
    forall x ensures x in Without(popped, k) <==> x in popped && x != popped[k] {
      if x in popped && x != popped[k] {
        var i :| 0 <= i < |popped| && popped[i] == x;
        assert Without(popped, k)[if i < k then i else i - 1] == x;
      }
    }
  }

  /** The first free node, given a block, goes to the end of the available list. */
  lemma PushLists(a: seq<Node>, l: Lists, block: nat)
    requires ListsOk(a, l)
    requires |l.free| > 0
    requires block != NO_BLOCK && block !in l.ready && block !in l.popped
    ensures l.free[0] < |a| && l.free[0] !in l.available
    ensures a[l.free[0]].next == HeadOf(l.free[1..])
    ensures Linked(a[l.free[0] := Node(block, None)], l.available)
    ensures ListsOk(Appended(a[l.free[0] := Node(block, None)], l.available, l.free[0]), Pushed(l, block))
  {
    PushPartition(|a|, l.free, l.available, l.pending);
    PushNumbers(l.ready, l.popped, block);
    var b := a[l.free[0] := Node(block, None)];
    var c := Appended(b, l.available, l.free[0]);
    LinkedFrame(a, b, l.available, l.ready);
    AppendedLinked(b, l.available, l.ready, l.free[0]);
    LinkedRest(a, l.free);
    AppendTouches(b, l.available, l.free[0]);
    LinkedFrame(a, c, l.free[1..], seq(|l.free| - 1, _ => NO_BLOCK));
    LinkedFrame(a, c, l.pending, l.popped);
  }

  /** Linking an entry behind a list changes that list's nodes and the entry only. */
  lemma AppendTouches(a: seq<Node>, s: seq<nat>, entry: nat)
    requires entry < |a|
    requires forall i | 0 <= i < |s| :: s[i] < |a|
    ensures forall x | 0 <= x < |a| && x !in s && x != entry :: Appended(a, s, entry)[x] == a[x]
  {
  }

  /** The first available node goes to the end of the pending list. */
  lemma PopLists(a: seq<Node>, l: Lists)
    requires ListsOk(a, l)
    requires |l.ready| > 0
    ensures |l.available| > 0 && l.available[0] < |a| && l.available[0] !in l.pending
    ensures a[l.available[0]] == Node(l.ready[0], HeadOf(l.available[1..]))
    ensures ListsOk(Appended(a, l.pending, l.available[0]), Popped(l))
  {
    PopPartition(|a|, l.free, l.available, l.pending);
    PopNumbers(l.ready, l.popped);
    var c := Appended(a, l.pending, l.available[0]);
    AppendedLinked(a, l.pending, l.popped, l.available[0]);
    LinkedRest(a, l.available);
    AppendTouches(a, l.pending, l.available[0]);
    LinkedFrame(a, c, l.available[1..], l.ready[1..]);
    LinkedFrame(a, c, l.free, seq(|l.free|, _ => NO_BLOCK));
  }

  /** The array after pending node `k` has been unlinked and put before the free list. */
  function Released(a: seq<Node>, free: seq<nat>, pending: seq<nat>, k: nat): seq<Node>
    requires k < |pending| && pending[k] < |a|
    requires k > 0 ==> pending[k - 1] < |a|
  {
    var b := if k == 0 then a else a[pending[k - 1] := a[pending[k - 1]].(next := Follower(pending, k))];
    b[pending[k] := Node(NO_BLOCK, HeadOf(free))]
  }

  lemma PendingAt(a: seq<Node>, l: Lists, i: nat)
    requires ListsOk(a, l)
    ensures |l.pending| == |l.popped|
    ensures i < |l.pending| ==> l.pending[i] < |a| && a[l.pending[i]] == Node(l.popped[i], Follower(l.pending, i))
  {
  }

  lemma DropLists(a: seq<Node>, l: Lists, k: nat)
    requires ListsOk(a, l)
    requires k < |l.pending|
    ensures ListsOk(Released(a, l.free, l.pending, k), Dropped(l, k))
  {
    var c := Released(a, l.free, l.pending, k);
    assert forall x | 0 <= x < |a| && x !in l.pending :: c[x] == a[x];
    LinkedFrame(a, c, l.available, l.ready);
    LinkedFrame(a, c, l.free, seq(|l.free|, _ => NO_BLOCK));
    PrependLinked(c, l.free, l.pending[k]);
    UnlinkLinked(a, l.free, l.pending, l.popped, k);
    ReleasePartition(|a|, l.free, l.available, l.pending, k);
    ReleaseNumbers(l.ready, l.popped, k);
  }

  lemma PrependLinked(c: seq<Node>, s: seq<nat>, entry: nat)
    requires Linked(c, s)
    requires entry < |c| && c[entry].next == HeadOf(s)
    ensures Linked(c, [entry] + s)
  {
    var f := [entry] + s;
    forall i | 0 <= i < |f| ensures f[i] < |c| && c[f[i]].next == Follower(f, i) {
      if i > 0 { assert f[i] == s[i - 1]; }
    }
  }

  lemma UnlinkLinked(a: seq<Node>, free: seq<nat>, pending: seq<nat>, popped: seq<nat>, k: nat)
    requires Linked(a, pending) && Carry(a, pending, popped) && Distinct(pending)
    requires k < |pending|
    ensures Linked(Released(a, free, pending, k), Without(pending, k))
    ensures Carry(Released(a, free, pending, k), Without(pending, k), Without(popped, k))
  {
    var c := Released(a, free, pending, k);
    var p := Without(pending, k);
    forall i | 0 <= i < |p|
      ensures p[i] < |c| && c[p[i]].next == Follower(p, i) && c[p[i]].block == Without(popped, k)[i]
    {
      assert p[i] == if i < k then pending[i] else pending[i + 1];
    }
  }

  /** `n - 1, n - 2, .. 0` */
  function CountDown(n: nat): (s: seq<nat>)
    ensures |s| == n
    ensures forall k | 0 <= k < n :: s[k] == n - 1 - k
  {
    if n == 0 then [] else [n - 1] + CountDown(n - 1)
  }

  lemma CountDownHas(n: nat, x: nat)
    requires x < n
    ensures x in CountDown(n)
  {
    assert CountDown(n)[n - 1 - x] == x;
  }

  lemma InitialPartition(size: nat)
    ensures Partition(size, CountDown(size), [], [])
  {
    forall x | 0 <= x < size ensures x in CountDown(size) { CountDownHas(size, x); }
  }

  lemma InitialLinks(a: seq<Node>)
    requires forall k | 0 <= k < |a| :: a[k] == Node(NO_BLOCK, if k == 0 then None else Some(k - 1))
    ensures Linked(a, CountDown(|a|))
    ensures forall i | 0 <= i < |a| :: a[CountDown(|a|)[i]].block == NO_BLOCK
  {
  }

  lemma InitialLists(a: seq<Node>)
    requires forall k | 0 <= k < |a| :: a[k] == Node(NO_BLOCK, if k == 0 then None else Some(k - 1))
    ensures ListsOk(a, Lists(CountDown(|a|), [], [], [], []))
  {
    InitialPartition(|a|);
    InitialLinks(a);
  }

  // --------------------------------------------------------------- the class

  class Preallocator {
    /** The list nodes. */
    const nodes: array<Node>
    /** The length of the available list. */
    var n: nat
    var free: Option<nat>
    var available: Option<nat>
    var pending: Option<nat>

    ghost var lists: Lists

    ghost predicate Valid()
      reads this, nodes
    {
      && ListsOk(nodes[..], lists)
      && free == HeadOf(lists.free) && available == HeadOf(lists.available) && pending == HeadOf(lists.pending)
      && n == |lists.available|
    }

    constructor (size: nat)
      ensures fresh(nodes) && nodes.Length == size
    {
      nodes := new Node[size](_ => SPARE_NODE);
      n := 0;
      free, available, pending := None, None, None;
      lists := Lists([], [], [], [], []);
    }

    /** All nodes on the free list. */
    method Initialize()
      modifies this, nodes
      ensures Valid()
      ensures lists.ready == [] && lists.popped == [] && |lists.free| == nodes.Length
    {
      n := 0;
      free, available, pending := None, None, None;
      for i := 0 to nodes.Length
        invariant n == 0 && available == None && pending == None
        invariant free == HeadOf(CountDown(i))
        invariant forall k | 0 <= k < i :: nodes[k] == Node(NO_BLOCK, if k == 0 then None else Some(k - 1))
      {
        nodes[i] := Node(NO_BLOCK, free);
        free := Some(i);
      }
      InitialLists(nodes[..]);
      lists := Lists(CountDown(nodes.Length), [], [], [], []);
    }

    method IsEmpty() returns (r: bool)
      requires Valid()
      ensures r <==> lists.ready == []
    {
      r := n == 0;
    }

    method IsFull() returns (r: bool)
      requires Valid()
      ensures r <==> lists.free == []
      ensures r <==> |lists.ready| + |lists.popped| == nodes.Length
    {
      r := free == None;
    }

    /** Is `block` on the list that starts at `list`? */
    method HasBlock(list: Option<nat>, block: nat, ghost s: seq<nat>, ghost blocks: seq<nat>) returns (r: bool)
      requires Linked(nodes[..], s) && Carry(nodes[..], s, blocks) && list == HeadOf(s)
      ensures r <==> block in blocks
    {
      var iter := list;
      ghost var i := 0;
      while iter != None
        invariant 0 <= i <= |s|
        invariant iter == if i < |s| then Some(s[i]) else None
        invariant block !in blocks[..i]
        decreases |s| - i
      {
        assert nodes[..][s[i]] == nodes[s[i]];
        if nodes[iter.value].block == block {
          return true;
        }
        iter := nodes[iter.value].next;
        i := i + 1;
      }
      r := false;
    }

    method Contains(block: nat) returns (r: bool)
      requires Valid()
      requires block != NO_BLOCK
      ensures r <==> block in lists.ready || block in lists.popped
    {
      ghost var none := seq(|lists.free|, _ => NO_BLOCK);
      var inFree := HasBlock(free, block, lists.free, none);
      var inPending := HasBlock(pending, block, lists.pending, lists.popped);
      var inAvailable := HasBlock(available, block, lists.available, lists.ready);
      r := inFree || inPending || inAvailable;
    }

    /** Links `entry` behind the last node of `list`. */
    method Append(list: Option<nat>, entry: nat, ghost s: seq<nat>) returns (head: Option<nat>)
      requires Linked(nodes[..], s) && list == HeadOf(s) && Distinct(s)
      requires entry < nodes.Length && entry !in s
      modifies nodes
      ensures nodes[..] == Appended(old(nodes[..]), s, entry)
      ensures head == HeadOf(s + [entry])
    {
      ghost var before := nodes[..];
      nodes[entry] := nodes[entry].(next := None);
      if list == None {
        return Some(entry);
      }
      var iter := list.value;
      ghost var i := 0;
      while nodes[iter].next != None
        invariant 0 <= i < |s| && iter == s[i]
        invariant nodes[..] == before[entry := before[entry].(next := None)]
        decreases |s| - i
      {
        assert s[i] in s && nodes[..][iter] == before[s[i]];
        iter := nodes[iter].next.value;
        i := i + 1;
      }
      assert s[i] in s && nodes[..][iter] == before[s[i]];
      nodes[iter] := nodes[iter].(next := Some(entry));
      head := list;
    }

    /** Puts a block at the end of the available list. */
    method Push(block: nat)
      requires Valid()
      requires block != NO_BLOCK && block !in lists.ready && block !in lists.popped
      requires lists.free != []
      modifies this, nodes
      ensures Valid()
      ensures lists == Pushed(old(lists), block)
    {
      PushLists(nodes[..], lists, block);
      ghost var before := nodes[..];
      var entry := free.value;
      free := nodes[entry].next;
      nodes[entry] := Node(block, None);
      n := n + 1;
      assert nodes[..] == before[entry := Node(block, None)];
      available := Append(available, entry, lists.available);
      lists := Pushed(lists, block);
    }

    /** Moves the oldest available block to the end of the pending list. */
    method Pop() returns (block: nat)
      requires Valid()
      requires lists.ready != []
      modifies this, nodes
      ensures Valid()
      ensures |old(lists).available| > 0 && lists == Popped(old(lists))
      ensures block == old(lists).ready[0]
    {
      PopLists(nodes[..], lists);
      var entry := available.value;
      available := nodes[entry].next;
      n := n - 1;
      block := nodes[entry].block;
      pending := Append(pending, entry, lists.pending);
      lists := Popped(lists);
    }

    /** Unlinks pending node `k`, which follows `last`, and puts it before the free list. */
    method Unlink(x: nat, last: Option<nat>, ghost k: nat)
      requires Valid()
      requires k < |lists.pending| && x == lists.pending[k]
      requires last == if k == 0 then None else Some(lists.pending[k - 1])
      modifies this, nodes
      ensures Valid()
      ensures k < |old(lists).popped| && lists == Dropped(old(lists), k)
    {
      hide ListsOk;
      ghost var before := nodes[..];
      DropLists(before, lists, k);
      PendingAt(before, lists, k);
      if last == None {
        pending := nodes[x].next;
      } else {
        PendingAt(before, lists, k - 1);
        nodes[last.value] := nodes[last.value].(next := nodes[x].next);
      }
      nodes[x] := Node(NO_BLOCK, free);
      free := Some(x);
      assert nodes[..] == Released(before, lists.free, lists.pending, k);
      lists := Dropped(lists, k);
    }

    /** Moves the pending node of `block`, if there is one, to the free list. */
    method RemovePending(block: nat)
      requires Valid()
      modifies this, nodes
      ensures Valid()
      ensures block !in old(lists).popped ==> lists == old(lists)
      ensures block in old(lists).popped ==>
        exists k | 0 <= k < |old(lists).popped| && k < |old(lists).pending| ::
          old(lists).popped[k] == block && lists == Dropped(old(lists), k)
      ensures forall x :: x in lists.popped <==> x in old(lists).popped && x != block
    {
      hide ListsOk;
      PendingAt(nodes[..], lists, 0);
      var last: Option<nat> := None;
      var iter := pending;
      ghost var i := 0;
      while iter != None
        invariant Valid() && lists == old(lists)
        invariant 0 <= i <= |lists.pending| == |lists.popped|
        invariant iter == if i < |lists.pending| then Some(lists.pending[i]) else None
        invariant last == if i == 0 then None else Some(lists.pending[i - 1])
        invariant block !in lists.popped[..i]
        decreases |lists.pending| - i
      {
        var x := iter.value;
        PendingAt(nodes[..], lists, i);
        if nodes[x].block == block {
          NumbersOk(nodes[..], lists);
          ReleaseNumbers(lists.ready, lists.popped, i);
          Unlink(x, last, i);
          return;
        }
        last := iter;
        iter := nodes[x].next;
        i := i + 1;
      }
    }
  }
}
