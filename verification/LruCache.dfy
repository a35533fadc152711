/** The block cache (src/cache): a doubly linked list threaded through a slab, against a plain list ordered by
    recency. */
module LruCaches {
  import opened Keys
  import opened Lists

  /** A block is named by its file number and its index in the file. */
  datatype BlockKey = BlockKey(file: nat, block: nat)

  type Item = (BlockKey, Bytes)

  // ----- The specification: an association list, most recently used first -----

  function IndexOf(items: seq<Item>, key: BlockKey): (i: nat)
    ensures i <= |items|
    ensures i < |items| ==> items[i].0 == key
    ensures forall j | 0 <= j < i :: items[j].0 != key
  {
    if items == [] || items[0].0 == key then 0 else 1 + IndexOf(items[1..], key)
  }

  predicate Has(items: seq<Item>, key: BlockKey) {
    IndexOf(items, key) < |items|
  }

  function Unlink<T>(order: seq<T>, p: nat): (r: seq<T>)
    requires p < |order|
    ensures |r| == |order| - 1
  {
    order[..p] + order[p + 1..]
  }

  function Without(items: seq<Item>, key: BlockKey): seq<Item> {
    var i := IndexOf(items, key);
    if i < |items| then Unlink(items, i) else items
  }

  function Found(items: seq<Item>, key: BlockKey): Option<Bytes> {
    var i := IndexOf(items, key);
    if i < |items| then Some(items[i].1) else None
  }

  /** A hit moves its item to the front. */
  function Touched(items: seq<Item>, key: BlockKey): seq<Item> {
    var i := IndexOf(items, key);
    if i < |items| then [items[i]] + Without(items, key) else items
  }

  /** An insertion goes to the front and, when it adds an item beyond the capacity, drops the last one. */
  function Inserted(items: seq<Item>, key: BlockKey, value: Bytes, capacity: nat): seq<Item> {
    if capacity == 0 then items
    else if Has(items, key) then [(key, value)] + Without(items, key)
    else if |items| >= capacity && items != [] then [(key, value)] + items[..|items| - 1]
    else [(key, value)] + items
  }

  /** After an insertion the block is found first and with its new bytes; of the others only the last one of a full
      cache is lost, and only to a new block. */
  lemma InsertedFinds(items: seq<Item>, key: BlockKey, value: Bytes, capacity: nat, other: BlockKey)
    requires DistinctKeys(items) && capacity > 0 && other != key
    ensures var after := Inserted(items, key, value, capacity);
            && after != [] && after[0] == (key, value) && Found(after, key) == Some(value)
            && Found(after, other) == (if !Has(items, key) && |items| >= capacity && items != []
                                          && items[|items| - 1].0 == other then None else Found(items, other))
            && |after| == |items| + if Has(items, key) || (|items| >= capacity && items != []) then 0 else 1
  {
    var after := Inserted(items, key, value, capacity);
    if Has(items, key) {
      WithoutFinds(items, key, other);
      assert after[1..] == Without(items, key);
    } else if |items| >= capacity && items != [] {
      var init := items[..|items| - 1];
      assert after[1..] == init;
      InitFinds(items, other);
    } else {
      assert after[1..] == items;
    }
  }

  lemma InitFinds(items: seq<Item>, other: BlockKey)
    requires DistinctKeys(items) && items != []
    ensures Found(items[..|items| - 1], other)
         == if items[|items| - 1].0 == other then None else Found(items, other)
  {
    var init, i := items[..|items| - 1], IndexOf(items, other);
    if i < |items| - 1 {
      IndexIs(init, other, i);
    } else {
      assert forall j | 0 <= j < |init| :: init[j] == items[j];
    }
  }

  lemma FrontFinds(front: Item, rest: seq<Item>, key: BlockKey)
    ensures Found([front] + rest, key) == if front.0 == key then Some(front.1) else Found(rest, key)
  {
    assert ([front] + rest)[1..] == rest;
  }

  lemma RestFinds(items: seq<Item>, key: BlockKey, other: BlockKey)
    requires DistinctKeys(items) && other != key
    ensures Found(Without(items, key), key) == None && Found(Without(items, key), other) == Found(items, other)
  {
    var i, j, rest := IndexOf(items, key), IndexOf(items, other), Without(items, key);
    if i < |items| {
      assert forall k | 0 <= k < |rest| :: rest[k] == items[if k < i then k else k + 1];
      assert DistinctKeys(rest);
      if j < |items| {
        IndexIs(rest, other, if j < i then j else j - 1);
      }
    }
  }

  /** Taking a key out, or touching one, changes nothing for the others. */
  lemma WithoutFinds(items: seq<Item>, key: BlockKey, other: BlockKey)
    requires DistinctKeys(items) && other != key
    ensures Found(Without(items, key), key) == None && Found(Without(items, key), other) == Found(items, other)
    ensures Found(Touched(items, key), key) == Found(items, key)
    ensures Found(Touched(items, key), other) == Found(items, other)
    ensures Has(items, key) ==> Touched(items, key) != [] && Touched(items, key)[0].0 == key
  {
    RestFinds(items, key, other);
    var i := IndexOf(items, key);
    if i < |items| {
      hide Without;
      FrontFinds(items[i], Without(items, key), other);
      FrontFinds(items[i], Without(items, key), key);
    }
  }

  ghost predicate DistinctKeys(items: seq<Item>) {
    forall i, j | 0 <= i < j < |items| :: items[i].0 != items[j].0
  }

  lemma IndexIs(items: seq<Item>, key: BlockKey, p: nat)
    requires DistinctKeys(items) && p < |items| && items[p].0 == key
    ensures IndexOf(items, key) == p
  {
  }

  // ----- Reading blocks through the cache -----

  /** Where blocks come from on a miss. */
  type BlockSource = BlockKey -> Bytes

  /** One block read: a lookup, and an insertion of the fetched block on a miss. */
  function Access(items: seq<Item>, key: BlockKey, source: BlockSource, capacity: nat): seq<Item> {
    if Has(items, key) then Touched(items, key) else Inserted(items, key, source(key), capacity)
  }

  function AccessAll(keys: seq<BlockKey>, source: BlockSource, capacity: nat): seq<Item> {
    if keys == [] then []
    else Access(AccessAll(keys[..|keys| - 1], source, capacity), keys[|keys| - 1], source, capacity)
  }

  function Position(keys: seq<BlockKey>, key: BlockKey): (i: nat)
    requires key in keys
    ensures i < |keys| && keys[i] == key
  {
    if keys[0] == key then 0 else 1 + Position(keys[1..], key)
  }

  function Drop(keys: seq<BlockKey>, key: BlockKey): seq<BlockKey> {
    if key in keys then Unlink(keys, Position(keys, key)) else keys
  }

  lemma DropFacts(keys: seq<BlockKey>, key: BlockKey)
    requires NoRepeats(keys)
    ensures NoRepeats([key] + Drop(keys, key))
    ensures forall k :: k in Drop(keys, key) <==> k in keys && k != key
  {
    if key in keys {
      var p := Position(keys, key);
      forall k | k in keys && k != key ensures k in Drop(keys, key) {
        var i :| 0 <= i < |keys| && keys[i] == k;
        assert Drop(keys, key)[if i < p then i else i - 1] == k;
      }
    }
  }

  /** Distinct keys, most recently read first. */
  function Recency(keys: seq<BlockKey>): seq<BlockKey> {
    if keys == [] then [] else [keys[|keys| - 1]] + Drop(Recency(keys[..|keys| - 1]), keys[|keys| - 1])
  }

  lemma {:induction false} RecencyFacts(keys: seq<BlockKey>)
    ensures NoRepeats(Recency(keys))
    ensures forall k :: k in Recency(keys) <==> k in keys
  {
    if keys != [] {
      var init, last := keys[..|keys| - 1], keys[|keys| - 1];
      assert keys == init + [last];
      RecencyFacts(init);
      DropFacts(Recency(init), last);
    }
  }

  function ItemFor(key: BlockKey, source: BlockSource): Item {
    (key, source(key))
  }

  function ItemsFor(keys: seq<BlockKey>, source: BlockSource): (r: seq<Item>)
    ensures |r| == |keys| && forall i | 0 <= i < |keys| :: r[i] == ItemFor(keys[i], source)
  {
    seq(|keys|, i requires 0 <= i < |keys| => ItemFor(keys[i], source))
  }

  function Take(keys: seq<BlockKey>, n: nat): seq<BlockKey> {
    if n < |keys| then keys[..n] else keys
  }

  lemma TakeTouched(recent: seq<BlockKey>, p: nat, capacity: nat)
    requires p < |recent| && p < capacity
    ensures Take([recent[p]] + Unlink(recent, p), capacity) == [recent[p]] + Unlink(Take(recent, capacity), p)
  {
  }

  lemma ItemsTouched(keys: seq<BlockKey>, p: nat, source: BlockSource)
    requires p < |keys|
    ensures ItemsFor([keys[p]] + Unlink(keys, p), source)
            == [ItemFor(keys[p], source)] + Unlink(ItemsFor(keys, source), p)
  {
  }

  lemma TakeInserted(recent: seq<BlockKey>, key: BlockKey, capacity: nat)
    requires capacity > 0 && key !in Take(recent, capacity)
    ensures Take([key] + Drop(recent, key), capacity) == [key] + Take(recent, capacity - 1)
  {
    forall p | 0 <= p < |recent| && p < capacity ensures recent[p] in Take(recent, capacity) {
      assert Take(recent, capacity)[p] == recent[p];
    }
  }

  lemma HasKey(keys: seq<BlockKey>, source: BlockSource, key: BlockKey)
    ensures Has(ItemsFor(keys, source), key) <==> key in keys
    ensures Has(ItemsFor(keys, source), key) ==> keys[IndexOf(ItemsFor(keys, source), key)] == key
  {
    var items := ItemsFor(keys, source);
    if key in keys {
      var i :| 0 <= i < |keys| && keys[i] == key;
      assert items[i].0 == key;
    }
  }

  lemma AccessMostRecent(recent: seq<BlockKey>, key: BlockKey, source: BlockSource, capacity: nat)
    requires NoRepeats(recent)
    ensures Access(ItemsFor(Take(recent, capacity), source), key, source, capacity)
            == ItemsFor(Take([key] + Drop(recent, key), capacity), source)
  {
    var kept := Take(recent, capacity);
    var items := ItemsFor(kept, source);
    HasKey(kept, source, key);
    if Has(items, key) {
      var p := IndexOf(items, key);
      assert recent[p] == key && Position(recent, key) == p;
      TakeTouched(recent, p, capacity);
      ItemsTouched(kept, p, source);
    } else if capacity > 0 {
      TakeInserted(recent, key, capacity);
      assert Inserted(items, key, source(key), capacity) == ItemsFor([key] + Take(recent, capacity - 1), source);
    }
  }

  /** Inclusion: at every capacity the cache holds the most recently read blocks, in that order, with their contents. */
  lemma {:induction false} CacheIsMostRecent(keys: seq<BlockKey>, source: BlockSource, capacity: nat)
    ensures AccessAll(keys, source, capacity) == ItemsFor(Take(Recency(keys), capacity), source)
  {
    if keys != [] {
      var init, last := keys[..|keys| - 1], keys[|keys| - 1];
      CacheIsMostRecent(init, source, capacity);
      RecencyFacts(init);
      AccessMostRecent(Recency(init), last, source, capacity);
    }
  }

  lemma SetOfJoin(xs: seq<BlockKey>, ys: seq<BlockKey>)
    ensures SetOf(xs + ys) == SetOf(xs) + SetOf(ys)
    ensures |xs| == 1 ==> SetOf(xs) == {xs[0]}
  {
  }

  /** Moving `last` to the front of a recency list, seen from a key at position `j`. */
  lemma MovedPast(before: seq<BlockKey>, last: BlockKey, j: nat) returns (i: nat)
    requires NoRepeats(before) && j < |before| && before[j] != last
    ensures var after := [last] + Drop(before, last);
            i < |after| && after[i] == before[j] && SetOf(after[..i]) == SetOf(before[..j]) + {last}
  {
    hide SetOf, NoRepeats;
    var after := [last] + Drop(before, last);
    if last in before && Position(before, last) < j {
      i := j;
      MovedWithin(before, Position(before, last), j);
    } else {
      i := j + 1;
      assert after[..i] == [last] + before[..j];
      SetOfJoin([last], before[..j]);
    }
  }

  lemma MovedWithin(before: seq<BlockKey>, q: nat, j: nat)
    requires q < j < |before|
    ensures SetOf(([before[q]] + Unlink(before, q))[..j]) == SetOf(before[..j]) + {before[q]}
  {
    hide SetOf;
    var last, init, mid := before[q], before[..q], before[q + 1..j];
    assert ([last] + Unlink(before, q))[..j] == [last] + init + mid;
    assert before[..j] == init + [last] + mid;
    SetOfJoin([last] + init, mid);
    SetOfJoin([last], init);
    SetOfJoin(init + [last], mid);
    SetOfJoin(init, [last]);
  }

  /** Between the front and a key stand exactly the distinct keys read since that key was. */
  lemma {:induction false} RecencyPosition(keys: seq<BlockKey>, p: nat) returns (i: nat)
    requires p < |keys| && keys[p] !in keys[p + 1..]
    ensures i < |Recency(keys)| && Recency(keys)[i] == keys[p]
    ensures SetOf(Recency(keys)[..i]) == SetOf(keys[p + 1..])
  {
    var init, last := keys[..|keys| - 1], keys[|keys| - 1];
    if p == |keys| - 1 {
      i := 0;
    } else {
      assert keys[p + 1..] == init[p + 1..] + [last];
      var j := RecencyPosition(init, p);
      RecencyFacts(init);
      i := MovedPast(Recency(init), last, j);
      assert SetOf(init[p + 1..] + [last]) == SetOf(init[p + 1..]) + {last};
    }
  }

  lemma DistinctAt(keys: seq<BlockKey>, i: nat, n: nat)
    requires NoRepeats(keys) && i < |keys|
    ensures keys[i] in Take(keys, n) <==> i < n
  {
    if i < n {
      assert Take(keys, n)[i] == keys[i];
    }
  }

  /** The hit rule: after any reads, a block last read at position `p` is in the cache exactly when fewer distinct
      blocks than the capacity were read after it. */
  lemma HitIff(keys: seq<BlockKey>, source: BlockSource, capacity: nat, p: nat)
    requires p < |keys| && keys[p] !in keys[p + 1..]
    ensures Has(AccessAll(keys, source, capacity), keys[p]) <==> |SetOf(keys[p + 1..])| < capacity
  {
    CacheIsMostRecent(keys, source, capacity);
    var i := RecencyPosition(keys, p);
    var recent := Recency(keys);
    RecencyFacts(keys);
    CountMembers(recent[..i]);
    DistinctAt(recent, i, capacity);
    HasKey(Take(recent, capacity), source, keys[p]);
  }

  /** Blocks come back as they were read from the file. */
  lemma HitsAreTrue(keys: seq<BlockKey>, source: BlockSource, capacity: nat, key: BlockKey)
    ensures var r := Found(AccessAll(keys, source, capacity), key); r.Some? ==> r.value == source(key)
  {
    CacheIsMostRecent(keys, source, capacity);
  }

  datatype Node = Node(key: BlockKey, value: Bytes, prev: Option<nat>, next: Option<nat>)

  // ----- The slab -----

  function PrevOf(order: seq<nat>, i: nat): Option<nat>
    requires i < |order|
  {
    if i == 0 then None else Some(order[i - 1])
  }

  function NextOf(order: seq<nat>, i: nat): Option<nat>
    requires i < |order|
  {
    if i == |order| - 1 then None else Some(order[i + 1])
  }

  ghost predicate LinkAt(nodes: seq<Option<Node>>, order: seq<nat>, i: nat)
    requires i < |order|
  {
    && order[i] < |nodes| && nodes[order[i]].Some?
    && nodes[order[i]].value.prev == PrevOf(order, i)
    && nodes[order[i]].value.next == NextOf(order, i)
  }

  /** `order` lists the live slots from most to least recently used: `next` runs along it and `prev` back. */
  ghost predicate Linked(nodes: seq<Option<Node>>, order: seq<nat>) {
    forall i | 0 <= i < |order| :: LinkAt(nodes, order, i)
  }

  /** Writes a link of a live slot. */
  function WithPrev(nodes: seq<Option<Node>>, at: nat, link: Option<nat>): (r: seq<Option<Node>>)
    requires at < |nodes|
    ensures |r| == |nodes|
  {
    if nodes[at].Some? then nodes[at := Some(nodes[at].value.(prev := link))] else nodes
  }

  function WithNext(nodes: seq<Option<Node>>, at: nat, link: Option<nat>): (r: seq<Option<Node>>)
    requires at < |nodes|
    ensures |r| == |nodes|
  {
    if nodes[at].Some? then nodes[at := Some(nodes[at].value.(next := link))] else nodes
  }

  /** The same slots are live and hold the same keys and values. */
  ghost predicate SameItems(nodes: seq<Option<Node>>, nodes': seq<Option<Node>>) {
    && |nodes| == |nodes'|
    && forall s | 0 <= s < |nodes| ::
         && nodes[s].Some? == nodes'[s].Some?
         && (nodes[s].Some? ==> nodes[s].value.key == nodes'[s].value.key
                                && nodes[s].value.value == nodes'[s].value.value)
  }

  ghost predicate Ends(head: Option<nat>, tail: Option<nat>, order: seq<nat>) {
    && head == (if order == [] then None else Some(order[0]))
    && tail == (if order == [] then None else Some(order[|order| - 1]))
  }

  ghost predicate AllLive(nodes: seq<Option<Node>>, order: seq<nat>) {
    forall i | 0 <= i < |order| :: order[i] < |nodes| && nodes[order[i]].Some?
  }

  ghost function ItemsOf(nodes: seq<Option<Node>>, order: seq<nat>): (items: seq<Item>)
    requires AllLive(nodes, order)
    ensures |items| == |order|
    ensures forall i | 0 <= i < |order| :: items[i] == (nodes[order[i]].value.key, nodes[order[i]].value.value)
  {
    seq(|order|, i requires 0 <= i < |order| && AllLive(nodes, order) =>
      (nodes[order[i]].value.key, nodes[order[i]].value.value))
  }

  /** The map names exactly the live slots and the free list exactly the empty ones. */
  ghost predicate Slots(nodes: seq<Option<Node>>, free: seq<nat>, slots: map<BlockKey, nat>, order: seq<nat>) {
    && (forall s | 0 <= s < |nodes| :: nodes[s].Some? <==> s in order)
    && (forall s | 0 <= s < |nodes| :: nodes[s].None? <==> s in free)
    && (forall s | s in free :: s < |nodes|)
    && NoRepeats(free)
    && (forall k | k in slots :: slots[k] < |nodes| && nodes[slots[k]].Some? && nodes[slots[k]].value.key == k)
    && (forall s | 0 <= s < |nodes| && nodes[s].Some? ::
          nodes[s].value.key in slots && slots[nodes[s].value.key] == s)
  }

  lemma SlotsMoved(nodes: seq<Option<Node>>, nodes': seq<Option<Node>>, free: seq<nat>, slots: map<BlockKey, nat>,
                   order: seq<nat>, order': seq<nat>)
    requires Slots(nodes, free, slots, order) && SameItems(nodes, nodes')
    requires forall s :: s in order' <==> s in order
    ensures Slots(nodes', free, slots, order')
  {
  }

  class LruInner {
    var nodes: seq<Option<Node>>
    var freeIndices: seq<nat>
    var slots: map<BlockKey, nat>
    var head: Option<nat>
    var tail: Option<nat>
    const capacity: nat
    /** The live slots, most recently used first. */
    ghost var order: seq<nat>

    ghost predicate ListOK()
      reads this
    {
      Linked(nodes, order) && NoRepeats(order) && Ends(head, tail, order)
    }

    ghost predicate SlotsOK()
      reads this
    {
      Slots(nodes, freeIndices, slots, order)
    }

    ghost predicate SizesOK()
      reads this
    {
      && |slots| == |order| <= capacity
      && |nodes| == |order| + |freeIndices| <= capacity
    }

    ghost predicate Valid()
      reads this
    {
      ListOK() && SlotsOK() && SizesOK()
    }

    /** What the cache holds, most recently used first. */
    ghost function Items(): (items: seq<Item>)
      requires Linked(nodes, order)
      reads this
    {
      ListBounds(nodes, order);
      ItemsOf(nodes, order)
    }

    constructor (capacity: nat)
      ensures Valid() && this.capacity == capacity && Items() == []
    {
      this.capacity := capacity;
      nodes, freeIndices, slots, head, tail, order := [], [], map[], None, None, [];
    }

    /** Takes the slot at position `p` of the list out of it. */
    method Detach(idx: nat, ghost p: nat)
      requires ListOK() && p < |order| && order[p] == idx
      modifies this`nodes, this`head, this`tail, this`order
      ensures ListOK() && order == Unlink(old(order), p)
      ensures SameItems(old(nodes), nodes)
    {
      assert LinkAt(nodes, order, p);
      ListBounds(nodes, order);
      hide Linked, NoRepeats, LinkAt, WithPrev, WithNext, SameItems;
      var prev, next := nodes[idx].value.prev, nodes[idx].value.next;
      if prev.Some? {
        nodes := WithNext(nodes, prev.value, next);
      } else {
        head := next;
      }
      if next.Some? {
        nodes := WithPrev(nodes, next.value, prev);
      } else {
        tail := prev;
      }
      nodes := WithNext(WithPrev(nodes, idx, None), idx, None);
      assert nodes == Relinked(old(nodes), order, p);
      Unlinked(old(nodes), order, p);
      order := Unlink(order, p);
    }

    /** Puts a live slot that is not on the list at its head. */
    method AttachHead(idx: nat)
      requires ListOK() && idx < |nodes| && nodes[idx].Some? && idx !in order
      modifies this`nodes, this`head, this`tail, this`order
      ensures ListOK() && order == [idx] + old(order)
      ensures SameItems(old(nodes), nodes)
    {
      ListBounds(nodes, order);
      nodes := WithNext(WithPrev(nodes, idx, None), idx, head);
      if head.Some? {
        nodes := WithPrev(nodes, head.value, Some(idx));
      } else {
        tail := Some(idx);
      }
      head := Some(idx);
      Prepended(old(nodes), order, idx);
      order := [idx] + order;
    }

    /** A live key's slot is at the list position its index in `Items` says. */
    lemma SlotPosition(key: BlockKey)
      requires Valid()
      ensures DistinctKeys(Items())
      ensures key in slots <==> Has(Items(), key)
      ensures key in slots ==> order[IndexOf(Items(), key)] == slots[key]
    {
      ListBounds(nodes, order);
      var items := Items();
      forall i, j | 0 <= i < j < |items| ensures items[i].0 != items[j].0 {
        assert slots[items[i].0] == order[i] && slots[items[j].0] == order[j];
      }
      if key in slots {
        assert slots[key] in order;
        var p :| 0 <= p < |order| && order[p] == slots[key];
        assert items[p].0 == key;
        IndexIs(items, key, p);
      }
      if Has(items, key) {
        var p := IndexOf(items, key);
        assert nodes[order[p]].value.key == key;
      }
    }

    /** Makes the slot at position `p` the most recently used. */
    method MoveToHead(idx: nat, ghost p: nat)
      requires ListOK() && p < |order| && order[p] == idx
      modifies this`nodes, this`head, this`tail, this`order
      ensures ListOK() && order == [idx] + Unlink(old(order), p) && SameItems(old(nodes), nodes)
      ensures Items() == [old(Items())[p]] + Unlink(old(Items()), p)
    {
      hide Linked, Ends;
      ListBounds(nodes, order);
      UnlinkMembers(order, p);
      Detach(idx, p);
      ListBounds(nodes, order);
      UnlinkedItems(old(nodes), nodes, old(order), p);
      ghost var mid := nodes;
      AttachHead(idx);
      ListBounds(nodes, order);
      AttachedItems(mid, nodes, Unlink(old(order), p), idx);
    }

    /** The same for the whole cache: only the list changes. */
    method Promote(idx: nat, ghost p: nat)
      requires Valid() && p < |order| && order[p] == idx
      modifies this`nodes, this`head, this`tail, this`order
      ensures Valid() && idx < |nodes| && nodes[idx].Some? && SameItems(old(nodes), nodes)
      ensures Items() == [old(Items())[p]] + Unlink(old(Items()), p)
    {
      hide Linked, Ends, Slots, NoRepeats, ItemsOf, Unlink;
      MoveToHead(idx, p);
      MovedMembers(old(order), p);
      MovedSize(old(order), p, idx);
      SlotsMoved(old(nodes), nodes, freeIndices, slots, old(order), order);
      ListBounds(nodes, order);
      assert order[0] == idx;
    }

    /** A hit returns the block and makes it the most recently used. */
    method Get(key: BlockKey) returns (r: Option<Bytes>)
      requires Valid()
      modifies this`nodes, this`head, this`tail, this`order
      ensures Valid()
      ensures r == Found(old(Items()), key) && Items() == Touched(old(Items()), key)
    {
      hide Linked, NoRepeats, Slots, Unlink;
      SlotPosition(key);
      ListBounds(nodes, order);
      if key !in slots {
        return None;
      }
      ghost var p := IndexOf(Items(), key);
      var idx := slots[key];
      if head != Some(idx) {
        Promote(idx, p);
      } else {
        HeadPosition(order, p);
        FrontStays(Items());
      }
      ListBounds(nodes, order);
      r := Some(nodes[idx].value.value);
    }

    /** Empties the slot at position `p`: off the list, out of the slab and the map, onto the free list. */
    method Vacate(idx: nat, ghost p: nat)
      requires Valid() && p < |order| && order[p] == idx
      modifies this
      ensures Valid()
      ensures Items() == Unlink(old(Items()), p) && freeIndices == old(freeIndices) + [idx]
      ensures |order| == |old(order)| - 1
    {
      hide Linked, Ends, Slots, NoRepeats;
      ListBounds(nodes, order);
      var key := nodes[idx].value.key;
      UnlinkMembers(order, p);
      Detach(idx, p);
      UnlinkedItems(old(nodes), nodes, old(order), p);
      ghost var mid := nodes;
      nodes := nodes[idx := None];
      slots := slots - {key};
      freeIndices := freeIndices + [idx];
      Emptied(mid, order, idx);
      SlotsVacated(old(nodes), mid, old(freeIndices), old(slots), old(order), p);
    }

    /** Stores a block under a key the cache does not hold, in a free slot if there is one. */
    method Occupy(key: BlockKey, value: Bytes)
      requires Valid() && key !in slots && |order| < capacity
      modifies this
      ensures Valid()
      ensures Items() == [(key, value)] + old(Items())
    {
      hide Linked, Ends, Slots, NoRepeats;
      ListBounds(nodes, order);
      var newNode := Node(key, value, None, None);
      var slot;
      if freeIndices != [] {
        slot := freeIndices[|freeIndices| - 1];
        FreeSlot(nodes, freeIndices, slots, order);
        freeIndices := freeIndices[..|freeIndices| - 1];
        nodes := nodes[slot := Some(newNode)];
      } else {
        slot := |nodes|;
        NewSlot(nodes, freeIndices, slots, order);
        nodes := nodes + [Some(newNode)];
      }
      Filled(old(nodes), nodes, order, slot);
      ghost var mid := nodes;
      AttachHead(slot);
      AttachedItems(mid, nodes, old(order), slot);
      SlotsOccupied(old(nodes), mid, old(freeIndices), freeIndices, old(slots), old(order), slot, key);
      slots := slots[key := slot];
      SlotsMoved(mid, nodes, freeIndices, slots, order, order);
    }

    /** Replaces the value in the slot at position `p`. */
    method Overwrite(idx: nat, ghost p: nat, value: Bytes)
      requires Valid() && p < |order| && order[p] == idx
      modifies this`nodes
      ensures Valid()
      ensures Items() == old(Items())[p := (old(Items())[p].0, value)]
    {
      hide Linked, Ends, Slots, NoRepeats;
      ListBounds(nodes, order);
      nodes := nodes[idx := Some(nodes[idx].value.(value := value))];
      Revalued(old(nodes), nodes, order, p, value);
      SlotsRevalued(old(nodes), nodes, freeIndices, slots, order, idx);
    }

    /** Replaces the value of a cached block and makes it the most recently used. */
    method Refresh(key: BlockKey, value: Bytes)
      requires Valid() && key in slots && capacity > 0
      modifies this
      ensures Valid()
      ensures Has(old(Items()), key) && Items() == Inserted(old(Items()), key, value, capacity)
    {
      hide Linked, Ends, Slots, NoRepeats, IndexOf, DistinctKeys, Inserted, ItemsOf, Unlink;
      SlotPosition(key);
      ghost var p := IndexOf(Items(), key);
      InsertedFront(Items(), key, value, capacity);
      var idx := slots[key];
      Overwrite(idx, p, value);
      Promote(idx, p);
      UpdatedFront(old(Items()), p, (key, value));
    }

    /** Stores a block as the most recently used; beyond the capacity the least recently used one goes. */
    method Insert(key: BlockKey, value: Bytes)
      requires Valid()
      modifies this
      ensures Valid()
      ensures Items() == Inserted(old(Items()), key, value, capacity)
    {
      hide Linked, Ends, Slots, NoRepeats;
      if capacity == 0 {
        return;
      }
      SlotPosition(key);
      ListBounds(nodes, order);
      if key in slots {
        Refresh(key, value);
        return;
      }
      if |slots| >= capacity {
        TailIsLast(head, tail, order);
        var lru := tail.value;
        DropLast(Items());
        Vacate(lru, |order| - 1);
      }
      AbsentStays(key);
      Occupy(key, value);
    }

    /** A key without an item has no slot. */
    lemma AbsentStays(key: BlockKey)
      requires Valid()
      ensures !Has(Items(), key) ==> key !in slots
    {
      SlotPosition(key);
    }

    method Remove(key: BlockKey) returns (r: Option<Bytes>)
      requires Valid()
      modifies this
      ensures Valid()
      ensures r == Found(old(Items()), key) && Items() == Without(old(Items()), key)
    {
      hide Linked, Ends, Slots, NoRepeats;
      SlotPosition(key);
      ListBounds(nodes, order);
      if key !in slots {
        return None;
      }
      var idx := slots[key];
      r := Some(nodes[idx].value.value);
      Vacate(idx, IndexOf(Items(), key));
    }

    method Clear()
      requires Valid()
      modifies this
      ensures Valid() && Items() == []
    {
      nodes, freeIndices, slots, head, tail, order := [], [], map[], None, None, [];
    }
  }

  // ----- Slots coming and going -----

  lemma Emptied(nodes: seq<Option<Node>>, order: seq<nat>, idx: nat)
    requires Linked(nodes, order) && idx !in order && idx < |nodes|
    ensures var r := nodes[idx := None];
            && Linked(r, order) && AllLive(nodes, order) && AllLive(r, order)
            && ItemsOf(r, order) == ItemsOf(nodes, order)
  {
    ListBounds(nodes, order);
    var r := nodes[idx := None];
    forall i | 0 <= i < |order| ensures LinkAt(r, order, i) && r[order[i]] == nodes[order[i]] {
      assert LinkAt(nodes, order, i) && order[i] in order;
    }
    assert ItemsOf(r, order) == ItemsOf(nodes, order);
  }

  lemma SlotsVacated(nodes: seq<Option<Node>>, mid: seq<Option<Node>>, free: seq<nat>, slots: map<BlockKey, nat>,
                     order: seq<nat>, p: nat)
    requires Slots(nodes, free, slots, order) && NoRepeats(order) && SameItems(nodes, mid)
    requires p < |order| && order[p] < |nodes| && nodes[order[p]].Some?
    ensures var idx := order[p];
            && Slots(mid[idx := None], free + [idx], slots - {nodes[idx].value.key}, Unlink(order, p))
            && |slots - {nodes[idx].value.key}| == |slots| - 1
  {
    var idx := order[p];
    var key := nodes[idx].value.key;
    UnlinkMembers(order, p);
    assert idx !in free;
    assert (slots - {key}).Keys == slots.Keys - {key};
    assert key in slots.Keys;
  }

  lemma FreeSlot(nodes: seq<Option<Node>>, free: seq<nat>, slots: map<BlockKey, nat>, order: seq<nat>)
    requires Slots(nodes, free, slots, order) && free != []
    ensures free[|free| - 1] < |nodes| && free[|free| - 1] !in order
  {
    assert free[|free| - 1] in free;
  }

  lemma NewSlot(nodes: seq<Option<Node>>, free: seq<nat>, slots: map<BlockKey, nat>, order: seq<nat>)
    requires Slots(nodes, free, slots, order) && AllLive(nodes, order)
    ensures |nodes| !in order
  {
  }

  /** Filling a slot that is not on the list leaves the list alone. */
  lemma Filled(nodes: seq<Option<Node>>, now: seq<Option<Node>>, order: seq<nat>, slot: nat)
    requires Linked(nodes, order) && slot !in order && |nodes| <= |now|
    requires forall s | 0 <= s < |nodes| && s != slot :: now[s] == nodes[s]
    ensures AllLive(nodes, order) && AllLive(now, order) && Linked(now, order)
            && ItemsOf(now, order) == ItemsOf(nodes, order)
  {
    ListBounds(nodes, order);
    forall i | 0 <= i < |order| ensures LinkAt(now, order, i) && now[order[i]] == nodes[order[i]] {
      assert LinkAt(nodes, order, i) && order[i] in order;
    }
    assert ItemsOf(now, order) == ItemsOf(nodes, order);
  }

  lemma SlotsOccupied(nodes: seq<Option<Node>>, now: seq<Option<Node>>, free: seq<nat>, free': seq<nat>,
                      slots: map<BlockKey, nat>, order: seq<nat>, slot: nat, key: BlockKey)
    requires Slots(nodes, free, slots, order) && key !in slots && slot !in order
    requires slot < |now| && now[slot].Some? && now[slot].value.key == key
    requires if free != [] then slot == free[|free| - 1] && free' == free[..|free| - 1] && |now| == |nodes|
             else slot == |nodes| && free' == [] && |now| == |nodes| + 1
    requires forall s | 0 <= s < |nodes| && s != slot :: now[s] == nodes[s]
    ensures Slots(now, free', slots[key := slot], [slot] + order)
  {
    if free != [] {
      assert free == free' + [slot];
      assert forall s :: s in free <==> s in free' || s == slot;
      assert slot !in free';
    }
    assert forall s :: s in [slot] + order <==> s == slot || s in order;
  }

  lemma OtherSlot(order: seq<nat>, p: nat, i: nat)
    requires NoRepeats(order) && p < |order| && i < |order|
    ensures i != p ==> order[i] != order[p]
  {
  }

  lemma RevaluedLink(nodes: seq<Option<Node>>, now: seq<Option<Node>>, order: seq<nat>, p: nat, i: nat, value: Bytes)
    requires Linked(nodes, order) && p < |order| && i < |order| && order[p] < |nodes| && nodes[order[p]].Some?
    requires now == nodes[order[p] := Some(nodes[order[p]].value.(value := value))]
    ensures LinkAt(now, order, i)
  {
    assert LinkAt(nodes, order, i);
  }

  lemma LinksMakeList(nodes: seq<Option<Node>>, order: seq<nat>)
    requires forall i | 0 <= i < |order| :: LinkAt(nodes, order, i)
    ensures Linked(nodes, order)
  {
  }

  lemma Revalued(nodes: seq<Option<Node>>, now: seq<Option<Node>>, order: seq<nat>, p: nat, value: Bytes)
    requires Linked(nodes, order) && NoRepeats(order) && p < |order| && order[p] < |nodes| && nodes[order[p]].Some?
    requires now == nodes[order[p] := Some(nodes[order[p]].value.(value := value))]
    ensures AllLive(nodes, order) && AllLive(now, order) && Linked(now, order)
    ensures ItemsOf(now, order) == ItemsOf(nodes, order)[p := (nodes[order[p]].value.key, value)]
  {
    hide NoRepeats, Linked, ItemsOf, PrevOf, NextOf, LinkAt;
    ListBounds(nodes, order);
    forall i | 0 <= i < |order| ensures LinkAt(now, order, i) && (i != p ==> now[order[i]] == nodes[order[i]]) {
      OtherSlot(order, p, i);
      RevaluedLink(nodes, now, order, p, i, value);
    }
    LinksMakeList(now, order);
    ListBounds(now, order);
    assert ItemsOf(now, order) == ItemsOf(nodes, order)[p := (nodes[order[p]].value.key, value)];
  }

  lemma SlotsRevalued(nodes: seq<Option<Node>>, now: seq<Option<Node>>, free: seq<nat>, slots: map<BlockKey, nat>,
                      order: seq<nat>, idx: nat)
    requires Slots(nodes, free, slots, order) && idx < |nodes| && nodes[idx].Some? && |now| == |nodes|
    requires now[idx].Some? && now[idx].value.key == nodes[idx].value.key
    requires forall s | 0 <= s < |nodes| && s != idx :: now[s] == nodes[s]
    ensures Slots(now, free, slots, order)
  {
  }

  lemma MovedSize(order: seq<nat>, p: nat, idx: nat)
    requires p < |order|
    ensures |[idx] + Unlink(order, p)| == |order|
  {
  }

  lemma InsertedFront(items: seq<Item>, key: BlockKey, value: Bytes, capacity: nat)
    requires Has(items, key) && capacity > 0
    ensures Inserted(items, key, value, capacity) == [(key, value)] + Unlink(items, IndexOf(items, key))
  {
  }

  lemma UpdatedFront(items: seq<Item>, p: nat, item: Item)
    requires p < |items|
    ensures Unlink(items[p := item], p) == Unlink(items, p)
  {
  }

  lemma TailIsLast(head: Option<nat>, tail: Option<nat>, order: seq<nat>)
    requires Ends(head, tail, order) && order != []
    ensures tail == Some(order[|order| - 1])
  {
  }

  lemma DropLast(items: seq<Item>)
    requires items != []
    ensures Unlink(items, |items| - 1) == items[..|items| - 1]
  {
  }

  lemma HeadPosition(order: seq<nat>, p: nat)
    requires NoRepeats(order) && p < |order| && order[p] == order[0]
    ensures p == 0
  {
  }

  lemma FrontStays(items: seq<Item>)
    requires items != []
    ensures [items[0]] + Unlink(items, 0) == items
  {
  }

  lemma ListBounds(nodes: seq<Option<Node>>, order: seq<nat>)
    requires Linked(nodes, order)
    ensures AllLive(nodes, order)
  {
    forall i | 0 <= i < |order| ensures order[i] < |nodes| && nodes[order[i]].Some? {
      assert LinkAt(nodes, order, i);
    }
  }

  /** The slab after the slot at position `p` is taken out of the list. */
  function Relinked(nodes: seq<Option<Node>>, order: seq<nat>, p: nat): seq<Option<Node>>
    requires p < |order| && forall i | 0 <= i < |order| :: order[i] < |nodes|
  {
    var left := if p == 0 then nodes else WithNext(nodes, order[p - 1], NextOf(order, p));
    var right := if p == |order| - 1 then left else WithPrev(left, order[p + 1], PrevOf(order, p));
    WithNext(WithPrev(right, order[p], None), order[p], None)
  }

  lemma RelinkedAt(nodes: seq<Option<Node>>, order: seq<nat>, p: nat, j: nat)
    requires Linked(nodes, order) && NoRepeats(order) && p < |order| && j < |order| && j != p
    requires forall i | 0 <= i < |order| :: order[i] < |nodes|
    ensures var r := Relinked(nodes, order, p);
            && |r| == |nodes| && r[order[j]].Some?
            && r[order[j]].value.prev == (if j == p + 1 then PrevOf(order, p) else PrevOf(order, j))
            && r[order[j]].value.next == (if j + 1 == p then NextOf(order, p) else NextOf(order, j))
  {
    assert LinkAt(nodes, order, j);
    assert order[j] != order[p];
    assert p > 0 && j != p - 1 ==> order[j] != order[p - 1];
    assert p < |order| - 1 && j != p + 1 ==> order[j] != order[p + 1];
    assert 0 < p < |order| - 1 ==> order[p - 1] != order[p + 1];
  }

  lemma RelinkedItems(nodes: seq<Option<Node>>, order: seq<nat>, p: nat)
    requires p < |order| && forall i | 0 <= i < |order| :: order[i] < |nodes|
    ensures SameItems(nodes, Relinked(nodes, order, p))
  {
  }

  /** Relinking the neighbours of a slot leaves the list without it. */
  lemma Unlinked(nodes: seq<Option<Node>>, order: seq<nat>, p: nat)
    requires Linked(nodes, order) && NoRepeats(order) && p < |order|
    requires forall i | 0 <= i < |order| :: order[i] < |nodes|
    ensures Linked(Relinked(nodes, order, p), Unlink(order, p)) && NoRepeats(Unlink(order, p))
    ensures SameItems(nodes, Relinked(nodes, order, p))
  {
    RelinkedItems(nodes, order, p);
    var after := Unlink(order, p);
    forall i | 0 <= i < |after| ensures LinkAt(Relinked(nodes, order, p), after, i) {
      var j := if i < p then i else i + 1;
      assert after[i] == order[j];
      RelinkedAt(nodes, order, p, j);
    }
  }

  function Headed(nodes: seq<Option<Node>>, order: seq<nat>, idx: nat): seq<Option<Node>>
    requires idx < |nodes| && forall i | 0 <= i < |order| :: order[i] < |nodes|
  {
    var own := WithNext(WithPrev(nodes, idx, None), idx, if order == [] then None else Some(order[0]));
    if order == [] then own else WithPrev(own, order[0], Some(idx))
  }

  lemma Prepended(nodes: seq<Option<Node>>, order: seq<nat>, idx: nat)
    requires Linked(nodes, order) && NoRepeats(order) && idx < |nodes| && nodes[idx].Some? && idx !in order
    requires forall i | 0 <= i < |order| :: order[i] < |nodes|
    ensures Linked(Headed(nodes, order, idx), [idx] + order) && NoRepeats([idx] + order)
  {
    var after := [idx] + order;
    forall i | 0 <= i < |after| ensures LinkAt(Headed(nodes, order, idx), after, i) {
      if i > 0 {
        assert after[i] == order[i - 1] && LinkAt(nodes, order, i - 1);
        assert order[i - 1] in order;
        assert i - 1 > 0 ==> order[i - 1] != order[0];
      } else if order != [] {
        assert order[0] in order;
      }
    }
  }

  lemma UnlinkMembers(order: seq<nat>, p: nat)
    requires NoRepeats(order) && p < |order|
    ensures forall s :: s in Unlink(order, p) <==> s in order && s != order[p]
  {
    forall s | s in order && s != order[p] ensures s in Unlink(order, p) {
      var i :| 0 <= i < |order| && order[i] == s;
      assert Unlink(order, p)[if i < p then i else i - 1] == s;
    }
  }

  lemma MovedMembers(order: seq<nat>, p: nat)
    requires NoRepeats(order) && p < |order|
    ensures forall s :: s in [order[p]] + Unlink(order, p) <==> s in order
  {
    UnlinkMembers(order, p);
  }

  lemma UnlinkedItems(was: seq<Option<Node>>, now: seq<Option<Node>>, order: seq<nat>, p: nat)
    requires AllLive(was, order) && SameItems(was, now) && p < |order|
    ensures AllLive(now, Unlink(order, p)) && ItemsOf(now, Unlink(order, p)) == Unlink(ItemsOf(was, order), p)
  {
  }

  lemma AttachedItems(was: seq<Option<Node>>, now: seq<Option<Node>>, order: seq<nat>, idx: nat)
    requires AllLive(was, order) && SameItems(was, now) && idx < |was| && was[idx].Some?
    ensures AllLive(now, [idx] + order)
    ensures ItemsOf(now, [idx] + order) == [(was[idx].value.key, was[idx].value.value)] + ItemsOf(was, order)
  {
  }
}
