/** The heap-based merging iterator (src/iterator/mod.rs:53-173). */
module MergingIterators {
  import opened Keys
  import opened Lists
  import opened Entries
  import opened Meaning

  type Pair = (Key, Bytes)

  // ----- What merging means -----

  ghost predicate AscendingKeys(es: seq<Entry>) {
    forall i, j | 0 <= i < j < |es| :: Le(es[i].key, es[j].key)
  }

  /** The first occurrence of the key in the first list that holds it. */
  function FirstOf(inputs: seq<seq<Entry>>, k: Key): Option<Entry> {
    if inputs == [] then None
    else if Find(inputs[0], k).Some? then Find(inputs[0], k)
    else FirstOf(inputs[1..], k)
  }

  /** Strictly ascending keys, exactly the keys of the inputs, each with the value of the first list that holds it. */
  ghost predicate IsMerge(inputs: seq<seq<Entry>>, out: seq<Pair>) {
    && (forall i, j | 0 <= i < j < |out| :: Lt(out[i].0, out[j].0))
    && (forall p | p in out :: FirstOf(inputs, p.0).Some? && FirstOf(inputs, p.0).value.value == p.1)
    && (forall k | FirstOf(inputs, k).Some? :: (k, FirstOf(inputs, k).value.value) in out)
  }

  lemma MergeAscends(inputs: seq<seq<Entry>>, out: seq<Pair>)
    requires IsMerge(inputs, out)
    ensures forall i, j | 0 <= i < j < |out| :: Lt(out[i].0, out[j].0)
  {
  }

  lemma {:induction false} FirstOfHolds(inputs: seq<seq<Entry>>, k: Key)
    ensures FirstOf(inputs, k).Some? <==> exists i :: 0 <= i < |inputs| && Find(inputs[i], k).Some?
    ensures FirstOf(inputs, k).Some? ==> exists i ::
                && 0 <= i < |inputs| && Find(inputs[i], k) == FirstOf(inputs, k)
                && forall j | 0 <= j < i :: Find(inputs[j], k).None?
  {
    if inputs != [] {
      FirstOfHolds(inputs[1..], k);
      if Find(inputs[0], k).None? && FirstOf(inputs[1..], k).Some? {
        var i :| 0 <= i < |inputs[1..]| && Find(inputs[1..][i], k) == FirstOf(inputs[1..], k)
                 && forall j | 0 <= j < i :: Find(inputs[1..][j], k).None?;
        assert inputs[i + 1] == inputs[1..][i];
        forall j | 0 <= j < i + 1 ensures Find(inputs[j], k).None? {
          if j > 0 {
            assert inputs[j] == inputs[1..][j - 1];
          }
        }
      }
      if i :| 0 <= i < |inputs| && Find(inputs[i], k).Some? {
        if i > 0 {
          assert inputs[1..][i - 1] == inputs[i];
        }
      }
    }
  }

  lemma {:induction false} FirstOfIs(inputs: seq<seq<Entry>>, k: Key, i: nat)
    requires i < |inputs| && Find(inputs[i], k).Some?
    requires forall j | 0 <= j < i :: Find(inputs[j], k).None?
    ensures FirstOf(inputs, k) == Find(inputs[i], k)
  {
    if i > 0 {
      FirstOfIs(inputs[1..], k, i - 1);
    }
  }

  lemma {:induction false} FirstOfSame(xs: seq<seq<Entry>>, ys: seq<seq<Entry>>, k: Key)
    requires |xs| == |ys| && forall i | 0 <= i < |xs| :: Find(xs[i], k) == Find(ys[i], k)
    ensures FirstOf(xs, k) == FirstOf(ys, k)
  {
    if xs != [] {
      FirstOfSame(xs[1..], ys[1..], k);
    }
  }

  /** There is only one merge, whatever order equal heap entries are visited in. */
  lemma MergeUnique(inputs: seq<seq<Entry>>, xs: seq<Pair>, ys: seq<Pair>)
    requires IsMerge(inputs, xs) && IsMerge(inputs, ys)
    ensures xs == ys
  {
    forall p ensures p in xs <==> p in ys {
    }
    LinearOrder();
    MembersDetermine(PairBefore, xs, ys);
  }

  predicate PairBefore(p: Pair, q: Pair) {
    Lt(p.0, q.0)
  }

  ghost function Pool(inputs: seq<seq<Entry>>): set<Entry> {
    set i, j | 0 <= i < |inputs| && 0 <= j < |inputs[i]| :: inputs[i][j]
  }

  /** Fed newest source first, the merge shows each key with its newest version, deleted or not. */
  lemma MergeShowsNewest(inputs: seq<seq<Entry>>, out: seq<Pair>, e: Entry)
    requires IsMerge(inputs, out) && Top(Pool(inputs), e)
    requires forall i, x, y | 0 <= i < |inputs| && x in inputs[i] && y in inputs[i] && x.key == y.key :: x == y
    requires forall i, j, x, y | 0 <= i < j < |inputs| && x in inputs[i] && y in inputs[j] && x.key == y.key ::
               x.seqNo > y.seqNo
    ensures (e.key, e.value) in out
  {
    var i, j :| 0 <= i < |inputs| && 0 <= j < |inputs[i]| && inputs[i][j] == e;
    assert Find(inputs[i], e.key) == Some(e);
    forall h | 0 <= h < i ensures Find(inputs[h], e.key).None? {
      assert forall x | x in inputs[h] :: x in Pool(inputs);
    }
    FirstOfIs(inputs, e.key, i);
  }

  // ----- Consuming the inputs -----

  ghost predicate Positions(inputs: seq<seq<Entry>>, at: seq<nat>) {
    |at| == |inputs| && forall i | 0 <= i < |inputs| :: at[i] <= |inputs[i]|
  }

  ghost predicate Within(from: seq<nat>, at: seq<nat>) {
    |from| == |at| && forall i | 0 <= i < |at| :: from[i] <= at[i]
  }

  /** What has been consumed of each input. */
  ghost function Window(inputs: seq<seq<Entry>>, from: seq<nat>, at: seq<nat>): (w: seq<seq<Entry>>)
    requires Positions(inputs, at) && Within(from, at)
    ensures |w| == |inputs|
  {
    seq(|inputs|, i requires 0 <= i < |inputs| => inputs[i][from[i]..at[i]])
  }

  /** The number of entries still to be consumed. */
  ghost function Left(inputs: seq<seq<Entry>>, at: seq<nat>): nat
    requires Positions(inputs, at)
  {
    if inputs == [] then 0 else |inputs[0]| - at[0] + Left(inputs[1..], at[1..])
  }

  lemma {:induction false} LeftDrops(inputs: seq<seq<Entry>>, at: seq<nat>, i: nat)
    requires Positions(inputs, at) && i < |inputs| && at[i] < |inputs[i]|
    ensures Positions(inputs, at[i := at[i] + 1])
    ensures Left(inputs, at[i := at[i] + 1]) == Left(inputs, at) - 1
  {
    var next := at[i := at[i] + 1];
    if i == 0 {
      assert next[1..] == at[1..];
    } else {
      LeftDrops(inputs[1..], at[1..], i - 1);
      assert next[1..] == at[1..][i - 1 := at[1..][i - 1] + 1];
    }
  }

  /** Everything unconsumed lies after everything emitted. */
  ghost predicate OutputFirst(inputs: seq<seq<Entry>>, at: seq<nat>, out: seq<Pair>)
    requires Positions(inputs, at)
  {
    forall p, i, j | p in out && 0 <= i < |inputs| && at[i] <= j < |inputs[i]| :: Lt(p.0, inputs[i][j].key)
  }

  /** Every unconsumed key is at least `k`. */
  ghost predicate AtLeast(inputs: seq<seq<Entry>>, at: seq<nat>, k: Key)
    requires Positions(inputs, at)
  {
    forall i, j | 0 <= i < |inputs| && at[i] <= j < |inputs[i]| :: Le(k, inputs[i][j].key)
  }

  ghost predicate StrictlyAbove(inputs: seq<seq<Entry>>, at: seq<nat>, k: Key)
    requires Positions(inputs, at)
  {
    forall i, j | 0 <= i < |inputs| && at[i] <= j < |inputs[i]| :: Lt(k, inputs[i][j].key)
  }

  /** From `at` to `now` only entries under `k` were consumed, none of them in an input before `top`. */
  ghost predicate Consumed(inputs: seq<seq<Entry>>, at: seq<nat>, now: seq<nat>, k: Key, top: nat) {
    && Positions(inputs, now) && Within(at, now)
    && (forall i, j | 0 <= i < |inputs| && at[i] <= j < now[i] :: inputs[i][j].key == k)
    && (forall i | 0 <= i < |inputs| && i < top :: now[i] == at[i])
  }

  lemma {:induction false} FindExtends(xs: seq<Entry>, ys: seq<Entry>, k: Key)
    ensures Find(xs + ys, k) == if Find(xs, k).Some? then Find(xs, k) else Find(ys, k)
  {
    if xs == [] {
      assert xs + ys == ys;
    } else {
      FindExtends(xs[1..], ys, k);
      assert (xs + ys)[1..] == xs[1..] + ys;
    }
  }

  /** One input's window after a step. */
  lemma WindowFind(es: seq<Entry>, from: nat, at: nat, now: nat, k: Key, x: Key)
    requires from <= at <= now <= |es| && forall j | at <= j < now :: es[j].key == k
    ensures x != k ==> Find(es[from..now], x) == Find(es[from..at], x)
    ensures Find(es[from..at], k).None? && at == now ==> Find(es[from..now], k).None?
    ensures Find(es[from..at], k).None? && at < now ==> Find(es[from..now], k) == Some(es[at])
  {
    assert es[from..now] == es[from..at] + es[at..now];
    FindExtends(es[from..at], es[at..now], x);
    FindExtends(es[from..at], es[at..now], k);
  }

  /** Emitting the winner and consuming its key everywhere extends the merge by one pair. */
  lemma MergeExtends(inputs: seq<seq<Entry>>, from: seq<nat>, at: seq<nat>, now: seq<nat>, out: seq<Pair>, top: nat)
    requires Positions(inputs, at) && Within(from, at) && top < |inputs| && at[top] < |inputs[top]|
    requires Consumed(inputs, at, now, inputs[top][at[top]].key, top) && at[top] < now[top]
    requires Within(from, now)
    requires IsMerge(Window(inputs, from, at), out) && OutputFirst(inputs, at, out)
    requires StrictlyAbove(inputs, now, inputs[top][at[top]].key)
    ensures IsMerge(Window(inputs, from, now), out + [(inputs[top][at[top]].key, inputs[top][at[top]].value)])
    ensures OutputFirst(inputs, now, out + [(inputs[top][at[top]].key, inputs[top][at[top]].value)])
  {
    hide Find, FirstOf;
    LinearOrder();
    var first := inputs[top][at[top]];
    var k := first.key;
    var old', new' := Window(inputs, from, at), Window(inputs, from, now);
    var out' := out + [(k, first.value)];
    NotYetSeen(old', out, k);
    FirstOfHolds(old', k);
    forall i, x: Key | 0 <= i < |inputs|
      ensures x != k ==> Find(new'[i], x) == Find(old'[i], x)
      ensures i < top ==> Find(new'[i], k).None?
      ensures i == top ==> Find(new'[i], k) == Some(first)
    {
      assert Find(old'[i], k).None?;
      WindowFind(inputs[i], from[i], at[i], now[i], k, x);
    }
    FirstOfIs(new', k, top);
    forall x | x != k ensures FirstOf(new', x) == FirstOf(old', x) {
      FirstOfSame(new', old', x);
    }
    forall p | p in out' ensures p in out || p == (k, first.value) {
    }
    forall x | FirstOf(new', x).Some? ensures (x, FirstOf(new', x).value.value) in out' {
      if x == k {
        assert out'[|out|] == (k, first.value);
      } else {
        assert (x, FirstOf(old', x).value.value) in out;
      }
    }
  }

  lemma NotYetSeen(old': seq<seq<Entry>>, out: seq<Pair>, k: Key)
    requires IsMerge(old', out) && forall p | p in out :: Lt(p.0, k)
    ensures FirstOf(old', k).None?
  {
    LtIrreflexive(k);
    assert forall v :: (k, v) !in out;
  }

  // ----- The iterator -----

  class SSTableIterator {
    const entries: seq<Entry>
    var index: nat

    constructor (entries: seq<Entry>)
      ensures this.entries == entries && index == 0
    {
      this.entries, index := entries, 0;
    }

    predicate HasEntry()
      reads this
    {
      index < |entries|
    }

    /** Past the end it stays put. */
    method Next()
      modifies this
      ensures index == if old(HasEntry()) then old(index) + 1 else old(index)
    {
      if HasEntry() {
        index := index + 1;
      }
    }

    function CurrentKey(): Key
      requires HasEntry()
      reads this
    {
      entries[index].key
    }

    function CurrentValue(): Bytes
      requires HasEntry()
      reads this
    {
      entries[index].value
    }
  }

  datatype HeapNode = HeapNode(iter: SSTableIterator, index: nat)

  ghost function Iterators(heap: seq<HeapNode>): set<SSTableIterator> {
    set n | n in heap :: n.iter
  }

  /** The heap order: least key first, and among equal keys the least index. */
  predicate Outranks(k: Key, i: nat, l: Key, j: nat) {
    Lt(k, l) || (k == l && i < j)
  }

  lemma OutranksOrder(k: Key, i: nat, l: Key, j: nat)
    requires i != j
    ensures Outranks(k, i, l, j) || Outranks(l, j, k, i)
  {
    LtTotal(k, l);
  }

  lemma OutranksTransitive(k: Key, h: nat, l: Key, i: nat, m: Key, j: nat)
    requires Outranks(k, h, l, i) && Outranks(l, i, m, j)
    ensures Outranks(k, h, m, j)
  {
    if Lt(k, l) && Lt(l, m) {
      LtTransitive(k, l, m);
    }
  }

  ghost predicate Unfinished(inputs: seq<seq<Entry>>, at: seq<nat>, i: nat) {
    i < |at| && i < |inputs| && at[i] < |inputs[i]|
  }

  /** Input `top` outranks every other unfinished input. */
  ghost predicate Winner(inputs: seq<seq<Entry>>, at: seq<nat>, top: nat) {
    && Unfinished(inputs, at, top)
    && forall i: nat | Unfinished(inputs, at, i) && i != top ::
         Outranks(inputs[top][at[top]].key, top, inputs[i][at[i]].key, i)
  }

  ghost predicate AllAscend(inputs: seq<seq<Entry>>) {
    forall i | 0 <= i < |inputs| :: AscendingKeys(inputs[i])
  }

  /** The winner shows the least unconsumed key, and no earlier input shows it. */
  lemma WinnerIsLeast(inputs: seq<seq<Entry>>, at: seq<nat>, top: nat)
    requires Positions(inputs, at) && AllAscend(inputs) && Winner(inputs, at, top)
    ensures AtLeast(inputs, at, inputs[top][at[top]].key)
    ensures forall i | 0 <= i < top && at[i] < |inputs[i]| :: inputs[i][at[i]].key != inputs[top][at[top]].key
  {
    LinearOrder();
    var k := inputs[top][at[top]].key;
    forall i, j | 0 <= i < |inputs| && at[i] <= j < |inputs[i]| ensures Le(k, inputs[i][j].key) {
      assert Unfinished(inputs, at, i);
      assert i == top || Outranks(k, top, inputs[i][at[i]].key, i);
      assert AscendingKeys(inputs[i]);
      assert j == at[i] || Le(inputs[i][at[i]].key, inputs[i][j].key);
    }
    forall i: nat | i < top && at[i] < |inputs[i]| ensures inputs[i][at[i]].key != k {
      assert Unfinished(inputs, at, i);
    }
  }

  /** The state of one advance between two heap steps. */
  ghost predicate Popping(inputs: seq<seq<Entry>>, at: seq<nat>, now: seq<nat>, top: nat) {
    && Positions(inputs, at) && Unfinished(inputs, at, top)
    && Consumed(inputs, at, now, inputs[top][at[top]].key, top) && at[top] < now[top]
    && AtLeast(inputs, now, inputs[top][at[top]].key)
    && forall i | 0 <= i < top && at[i] < |inputs[i]| :: inputs[i][at[i]].key != inputs[top][at[top]].key
  }

  lemma FirstPop(inputs: seq<seq<Entry>>, at: seq<nat>, top: nat)
    requires Positions(inputs, at) && AllAscend(inputs) && Winner(inputs, at, top)
    ensures Popping(inputs, at, at[top := at[top] + 1], top)
  {
    WinnerIsLeast(inputs, at, top);
  }

  lemma NextPop(inputs: seq<seq<Entry>>, at: seq<nat>, now: seq<nat>, top: nat, i: nat)
    requires Popping(inputs, at, now, top) && Unfinished(inputs, now, i)
    requires inputs[i][now[i]].key == inputs[top][at[top]].key
    ensures Popping(inputs, at, now[i := now[i] + 1], top)
  {
  }

  /** Nothing is left, or the winner shows another key. */
  ghost predicate PastKey(inputs: seq<seq<Entry>>, now: seq<nat>, k: Key) {
    forall i: nat | Unfinished(inputs, now, i) :: exists w: nat :: Winner(inputs, now, w) && inputs[w][now[w]].key != k
  }

  /** Once the heap shows another key, or nothing, the emitted key is used up. */
  lemma PopsEnd(inputs: seq<seq<Entry>>, at: seq<nat>, now: seq<nat>, top: nat)
    requires Popping(inputs, at, now, top) && AllAscend(inputs) && PastKey(inputs, now, inputs[top][at[top]].key)
    ensures StrictlyAbove(inputs, now, inputs[top][at[top]].key)
  {
    var k := inputs[top][at[top]].key;
    LinearOrder();
    forall i, j | 0 <= i < |inputs| && now[i] <= j < |inputs[i]| ensures Lt(k, inputs[i][j].key) {
      assert Unfinished(inputs, now, i);
      var w: nat :| Winner(inputs, now, w) && inputs[w][now[w]].key != k;
      WinnerIsLeast(inputs, now, w);
      assert Le(k, inputs[w][now[w]].key);
    }
  }

  lemma EmitStep(inputs: seq<seq<Entry>>, from: seq<nat>, at: seq<nat>, now: seq<nat>, out: seq<Pair>, top: nat)
    requires Popping(inputs, at, now, top) && AllAscend(inputs) && PastKey(inputs, now, inputs[top][at[top]].key)
    requires Within(from, at) && IsMerge(Window(inputs, from, at), out) && OutputFirst(inputs, at, out)
    ensures Positions(inputs, now) && Within(from, now)
    ensures IsMerge(Window(inputs, from, now), out + [(inputs[top][at[top]].key, inputs[top][at[top]].value)])
    ensures OutputFirst(inputs, now, out + [(inputs[top][at[top]].key, inputs[top][at[top]].value)])
  {
    hide IsMerge, AllAscend, Winner, OutputFirst, Window;
    PopsEnd(inputs, at, now, top);
    MergeExtends(inputs, from, at, now, out, top);
  }

  /** The node stands at its input's position, which is not past the end. */
  ghost predicate InStep(inputs: seq<seq<Entry>>, at: seq<nat>, n: HeapNode)
    reads n.iter
  {
    && Unfinished(inputs, at, n.index)
    && n.iter.entries == inputs[n.index] && n.iter.index == at[n.index]
  }

  ghost predicate OneNodeEach(heap: seq<HeapNode>) {
    forall i, j | 0 <= i < j < |heap| :: heap[i].index != heap[j].index && heap[i].iter != heap[j].iter
  }

  ghost predicate Covers(inputs: seq<seq<Entry>>, at: seq<nat>, heap: seq<HeapNode>) {
    forall i: nat | Unfinished(inputs, at, i) :: exists n :: n in heap && n.index == i
  }

  /** Taking one node out leaves the others, all of other inputs. */
  lemma RemoveNode(heap: seq<HeapNode>, t: nat) returns (rest: seq<HeapNode>)
    requires t < |heap| && OneNodeEach(heap)
    ensures rest == heap[..t] + heap[t + 1..] && OneNodeEach(rest) && OneNodeEach(rest + [heap[t]])
    ensures forall n :: n in rest <==> n in heap && n != heap[t]
    ensures forall n | n in rest :: n.index != heap[t].index && n.iter != heap[t].iter
  {
    rest := heap[..t] + heap[t + 1..];
    forall n | n in heap && n != heap[t] ensures n in rest {
      var i :| 0 <= i < |heap| && heap[i] == n;
      assert rest[if i < t then i else i - 1] == n;
    }
    forall i | 0 <= i < |rest| ensures rest[i] == heap[if i < t then i else i + 1] {
    }
  }

  lemma CoversStep(inputs: seq<seq<Entry>>, at: seq<nat>, heap: seq<HeapNode>, now: seq<nat>, rest: seq<HeapNode>,
                   node: HeapNode)
    requires Covers(inputs, at, heap) && Unfinished(inputs, at, node.index)
             && now == at[node.index := at[node.index] + 1]
    requires forall n | n in heap && n != node :: n in rest
    ensures Unfinished(inputs, now, node.index) ==> Covers(inputs, now, rest + [node])
    ensures !Unfinished(inputs, now, node.index) ==> Covers(inputs, now, rest)
  {
    forall i: nat | Unfinished(inputs, now, i) ensures i != node.index ==> exists n :: n in rest && n.index == i {
      if i != node.index {
        assert Unfinished(inputs, at, i);
        var n :| n in heap && n.index == i;
        assert n in rest;
      }
    }
    if Unfinished(inputs, now, node.index) {
      assert (rest + [node])[|rest|] == node;
      forall i: nat | Unfinished(inputs, now, i) ensures exists n :: n in rest + [node] && n.index == i {
        if i == node.index {
          assert node in rest + [node];
        } else {
          var n :| n in rest && n.index == i;
          assert n in rest + [node];
        }
      }
    }
  }

  ghost function Sources(iters: seq<SSTableIterator>): seq<seq<Entry>> {
    seq(|iters|, i requires 0 <= i < |iters| => iters[i].entries)
  }

  /** Where each iterator stands when it is handed over. */
  ghost function Starts(iters: seq<SSTableIterator>): (at: seq<nat>)
    reads iters
    ensures |at| == |iters| && forall i | 0 <= i < |iters| :: at[i] == iters[i].index
  {
    if iters == [] then [] else [iters[0].index] + Starts(iters[1..])
  }

  lemma {:induction false} EmptyMerge(inputs: seq<seq<Entry>>)
    requires forall es | es in inputs :: es == []
    ensures IsMerge(inputs, [])
    decreases |inputs|
  {
    forall k ensures FirstOf(inputs, k).None? {
      FirstOfHolds(inputs, k);
      assert forall i | 0 <= i < |inputs| :: inputs[i] in inputs;
    }
  }

  lemma NothingAhead(inputs: seq<seq<Entry>>, at: seq<nat>)
    requires Positions(inputs, at)
    ensures OutputFirst(inputs, at, [])
  {
  }

  /** A heap node for every iterator that has an entry. */
  method PushAll(iters: seq<SSTableIterator>) returns (heap: seq<HeapNode>)
    requires forall i, j | 0 <= i < j < |iters| :: iters[i] != iters[j]
    ensures forall n | n in heap :: n.iter in iters && InStep(Sources(iters), Starts(iters), n)
    ensures OneNodeEach(heap) && Covers(Sources(iters), Starts(iters), heap)
  {
    heap := [];
    for i := 0 to |iters|
      invariant forall n | n in heap :: n.index < i && n.iter == iters[n.index] && n.iter.HasEntry()
      invariant OneNodeEach(heap)
      invariant forall j: nat | j < i && iters[j].HasEntry() :: HeapNode(iters[j], j) in heap
    {
      if iters[i].HasEntry() {
        heap := heap + [HeapNode(iters[i], i)];
      }
    }
    forall i: nat | Unfinished(Sources(iters), Starts(iters), i) ensures exists n :: n in heap && n.index == i {
      assert HeapNode(iters[i], i) in heap;
    }
  }

  class MergingIterator {
    var heap: seq<HeapNode>
    var current: Option<Pair>
    ghost const inputs: seq<seq<Entry>>
    ghost const from: seq<nat>
    ghost var at: seq<nat>
    ghost var out: seq<Pair>

    /** The heap holds each unfinished input once, at its position. */
    ghost predicate Tracks()
      reads this`heap, this`at, Iterators(heap)
    {
      && (forall n | n in heap :: n.iter in Iterators(heap) && InStep(inputs, at, n))
      && OneNodeEach(heap)
      && Covers(inputs, at, heap)
    }

    /** What was emitted is the merge of what was consumed, and everything left lies after it. */
    ghost predicate Emitted()
      reads this`at, this`out
    {
      && Positions(inputs, at) && Within(from, at)
      && AllAscend(inputs)
      && IsMerge(Window(inputs, from, at), out) && OutputFirst(inputs, at, out)
    }

    ghost predicate Valid()
      reads this, Iterators(heap)
    {
      && Tracks() && Emitted()
      && (current.Some? ==> out != [] && out[|out| - 1] == current.value)
      && (current.None? ==> heap == [])
    }

    /** The node `BinaryHeap` yields first. */
    method Peek() returns (t: nat)
      requires Tracks() && heap != []
      ensures t < |heap| && InStep(inputs, at, heap[t]) && Winner(inputs, at, heap[t].index)
    {
      hide Tracks, InStep, BestOf, Winner;
      t := 0;
      FirstNode();
      for i := 1 to |heap|
        invariant Tracks() && t < i && BestOf(heap[..i], heap[t])
      {
        TwoNodes(t, i);
        assert heap[..i + 1] == heap[..i] + [heap[i]];
        BestOfStep(heap[..i], heap[t], heap[i]);
        var a, b := heap[t], heap[i];
        if Outranks(b.iter.CurrentKey(), b.index, a.iter.CurrentKey(), a.index) {
          t := i;
        }
      }
      assert heap[..|heap|] == heap;
      FirstNode();
      BestWins(heap[t]);
    }

    lemma FirstNode()
      requires Tracks() && heap != []
      ensures BestOf(heap[..1], heap[0]) && forall i | 0 <= i < |heap| :: heap[i] in heap && InStep(inputs, at, heap[i])
    {
      assert heap[..1] == [heap[0]];
      assert forall i | 0 <= i < |heap| :: heap[i] in heap;
    }

    lemma TwoNodes(t: nat, i: nat)
      requires Tracks() && t < i < |heap|
      ensures heap[t] in heap[..i] && heap[t].index != heap[i].index
      ensures Unfinished(inputs, at, heap[t].index) && Unfinished(inputs, at, heap[i].index)
      ensures heap[t].iter.HasEntry() && heap[t].iter.CurrentKey() == KeyAt(heap[t].index)
      ensures heap[i].iter.HasEntry() && heap[i].iter.CurrentKey() == KeyAt(heap[i].index)
    {
      assert heap[t] in heap && heap[i] in heap;
      assert heap[..i][t] == heap[t];
    }

    ghost predicate BestOf(nodes: seq<HeapNode>, best: HeapNode)
      reads this
    {
      && Unfinished(inputs, at, best.index)
      && forall n | n in nodes && n != best ::
           Unfinished(inputs, at, n.index) ==> Outranks(KeyAt(best.index), best.index, KeyAt(n.index), n.index)
    }

    ghost function KeyAt(i: nat): Key
      requires Unfinished(inputs, at, i)
      reads this
    {
      inputs[i][at[i]].key
    }

    lemma BestOfStep(nodes: seq<HeapNode>, best: HeapNode, next: HeapNode)
      requires BestOf(nodes, best) && best in nodes && Unfinished(inputs, at, next.index) && next.index != best.index
      ensures if Outranks(KeyAt(next.index), next.index, KeyAt(best.index), best.index)
              then BestOf(nodes + [next], next)
              else BestOf(nodes + [next], best)
    {
      OutranksOrder(KeyAt(next.index), next.index, KeyAt(best.index), best.index);
      if Outranks(KeyAt(next.index), next.index, KeyAt(best.index), best.index) {
        forall n | n in nodes && Unfinished(inputs, at, n.index)
          ensures Outranks(KeyAt(next.index), next.index, KeyAt(n.index), n.index)
        {
          if n != best {
            OutranksTransitive(KeyAt(next.index), next.index, KeyAt(best.index), best.index, KeyAt(n.index), n.index);
          }
        }
      }
    }

    lemma BestWins(best: HeapNode)
      requires Tracks() && best in heap && BestOf(heap, best)
      ensures Winner(inputs, at, best.index)
    {
      forall i: nat | Unfinished(inputs, at, i) && i != best.index
        ensures Outranks(KeyAt(best.index), best.index, KeyAt(i), i)
      {
        var n :| n in heap && n.index == i;
      }
    }

    /** Pops a node, advances it, and pushes it back if it still has an entry. */
    method StepNode(t: nat)
      requires Tracks() && t < |heap| && InStep(inputs, at, heap[t]) && Positions(inputs, at)
      modifies this`heap, this`at, heap[t].iter
      ensures Tracks() && Iterators(heap) <= old(Iterators(heap)) && Positions(inputs, at)
      ensures at == old(at[heap[t].index := at[heap[t].index] + 1])
      ensures Left(inputs, at) == old(Left(inputs, at)) - 1
    {
      hide OneNodeEach, Covers;
      LeftDrops(inputs, at, heap[t].index);
      var node := heap[t];
      ghost var rest := RemoveNode(heap, t);
      ghost var now := at[node.index := at[node.index] + 1];
      CoversStep(inputs, at, heap, now, rest, node);
      assert node in heap;
      heap := heap[..t] + heap[t + 1..];
      node.iter.Next();
      at := now;
      if node.iter.HasEntry() {
        heap := heap + [node];
      }
    }

    /** Emits the least key left, with the value of the first input that shows it, and consumes it everywhere. */
    method Advance()
      requires Tracks() && Emitted()
      modifies this, Iterators(heap)
      ensures Valid() && Iterators(heap) <= old(Iterators(heap))
      ensures old(heap) == [] ==> current == None && out == old(out) && at == old(at)
      ensures old(heap) != [] ==> current.Some? && out == old(out) + [current.value]
      ensures old(heap) != [] ==> Left(inputs, at) < old(Left(inputs, at))
    {
      hide Tracks, IsMerge, AllAscend, Popping, Winner, OutputFirst;
      if heap == [] {
        current := None;
        return;
      }
      var t := Peek();
      ghost var was, top := at, heap[t].index;
      var key, value := heap[t].iter.CurrentKey(), heap[t].iter.CurrentValue();
      current := Some((key, value));
      FirstPop(inputs, at, top);
      StepNode(t);
      while heap != []
        invariant Tracks() && Iterators(heap) <= old(Iterators(heap)) && Positions(inputs, at)
        invariant Popping(inputs, was, at, top) && out == old(out) && current == Some((key, value))
        invariant Left(inputs, at) < Left(inputs, was)
        decreases Left(inputs, at)
      {
        var p := Peek();
        if heap[p].iter.CurrentKey() != key {
          assert PastKey(inputs, at, key);
          break;
        }
        NextPop(inputs, was, at, top, heap[p].index);
        StepNode(p);
      }
      if heap == [] {
        NothingLeft();
      }
      EmitStep(inputs, from, was, at, out, top);
      out := out + [(key, value)];
    }

    /** Puts every iterator that has an entry on the heap and shows the first pair. */
    constructor (iters: seq<SSTableIterator>)
      requires forall i, j | 0 <= i < j < |iters| :: iters[i] != iters[j]
      requires forall it | it in iters :: it.index <= |it.entries| && AscendingKeys(it.entries)
      modifies iters
      ensures Valid() && Iterators(heap) <= SetOf(iters)
      ensures inputs == Sources(iters) && from == old(Starts(iters))
      ensures out == if current.Some? then [current.value] else []
    {
      hide OneNodeEach, Covers, IsMerge, OutputFirst;
      var nodes := PushAll(iters);
      heap, current := nodes, None;
      inputs, from, at, out := Sources(iters), Starts(iters), Starts(iters), [];
      new;
      EmptyMerge(Window(inputs, from, from));
      NothingAhead(inputs, at);
      Advance();
    }

    lemma NothingLeft()
      requires Tracks() && heap == []
      ensures forall i: nat :: !Unfinished(inputs, at, i)
    {
    }
  }

  /** Everything the iterators had left when they were handed over. */
  ghost function Offered(m: MergingIterator): seq<seq<Entry>>
    requires Positions(m.inputs, m.from)
  {
    seq(|m.inputs|, i requires 0 <= i < |m.inputs| => m.inputs[i][m.from[i]..])
  }

  /** Draining a fresh merging iterator yields the merge of its inputs. */
  method Drain(m: MergingIterator) returns (results: seq<Pair>)
    requires m.Valid()
    requires m.out == if m.current.Some? then [m.current.value] else []
    modifies m, Iterators(m.heap)
    ensures !m.current.Some? && IsMerge(Offered(m), results)
    ensures forall i, j | 0 <= i < j < |results| :: Lt(results[i].0, results[j].0)
  {
    hide IsMerge, OutputFirst, Window, AllAscend;
    results := [];
    while m.current.Some?
      invariant m.Valid() && Iterators(m.heap) <= old(Iterators(m.heap))
      invariant m.out == results + (if m.current.Some? then [m.current.value] else [])
      decreases m.current.Some?, Left(m.inputs, m.at)
    {
      results := results + [m.current.value];
      m.Advance();
    }
    AllConsumed(m);
    assert m.out == results;
    MergeAscends(Offered(m), results);
  }

  lemma AllConsumed(m: MergingIterator)
    requires m.Valid() && m.current.None?
    ensures Window(m.inputs, m.from, m.at) == Offered(m)
  {
    m.NothingLeft();
    forall i | 0 <= i < |m.inputs| ensures Window(m.inputs, m.from, m.at)[i] == Offered(m)[i] {
      assert !Unfinished(m.inputs, m.at, i);
    }
  }
}
