/** The checker cache of the v2 language server (languageserver/server2/cache.go).

    `Recency` is the specification: the cached slots as a list, most recently used first.
    `LruCaches` is the class the server mutates: a map into a list of shared elements. */
module Recency {
  import opened Prelude

  datatype Slot<+V> = Slot(key: Key, entry: V)

  function Keys<V>(l: seq<Slot<V>>): (r: seq<Key>)
    ensures |r| == |l|
    ensures forall i | 0 <= i < |l| :: r[i] == l[i].key
  {
    seq(|l|, i requires 0 <= i < |l| => l[i].key)
  }

  ghost predicate WellFormed<V>(l: seq<Slot<V>>, capacity: Capacity) {
    |l| <= capacity && NoDuplicates(Keys(l))
  }

  function Lookup<V>(l: seq<Slot<V>>, k: Key): Option<V> {
    if l == [] then None
    else if l[0].key == k then Some(l[0].entry)
    else Lookup(l[1..], k)
  }

  /** The slots whose key is not in `dead`, in their old order. */
  function Keep<V>(l: seq<Slot<V>>, dead: set<Key>): seq<Slot<V>> {
    if l == [] then []
    else if l[0].key in dead then Keep(l[1..], dead)
    else [l[0]] + Keep(l[1..], dead)
  }

  predicate HasPrefix(k: Key, prefix: string) {
    prefix <= k
  }

  /** As `Keep`, with the dead keys given by a prefix. */
  function KeepUnprefixed<V>(l: seq<Slot<V>>, prefix: string): seq<Slot<V>> {
    if l == [] then []
    else if HasPrefix(l[0].key, prefix) then KeepUnprefixed(l[1..], prefix)
    else [l[0]] + KeepUnprefixed(l[1..], prefix)
  }

  /** A hit moves the slot to the front; a miss changes nothing. */
  function Get<V>(l: seq<Slot<V>>, k: Key): seq<Slot<V>> {
    match Lookup(l, k)
    case None => l
    case Some(v) => [Slot(k, v)] + Keep(l, {k})
  }

  /** An update moves the slot to the front; an insertion at capacity drops the last slot. */
  function Put<V>(l: seq<Slot<V>>, capacity: Capacity, k: Key, v: V): seq<Slot<V>>
  {
    if Lookup(l, k).Some? then [Slot(k, v)] + Keep(l, {k})
    else if |l| >= capacity then [Slot(k, v)] + l[..|l| - 1]
    else [Slot(k, v)] + l
  }

  function Delete<V>(l: seq<Slot<V>>, k: Key): seq<Slot<V>> {
    Keep(l, {k})
  }

  lemma {:induction false} LookupMember<V>(l: seq<Slot<V>>, k: Key)
    ensures Lookup(l, k).Some? <==> k in Keys(l)
    ensures Lookup(l, k).Some? ==> Slot(k, Lookup(l, k).value) in l
  {
    if l != [] {
      LookupMember(l[1..], k);
      assert l == [l[0]] + l[1..];
      assert Keys(l) == [l[0].key] + Keys(l[1..]);
    }
  }

  /** With distinct keys, a lookup finds any member slot by its key. */
  lemma {:induction false} LookupFinds<V>(l: seq<Slot<V>>, s: Slot<V>)
    requires NoDuplicates(Keys(l)) && s in l
    ensures Lookup(l, s.key) == Some(s.entry)
  {
    assert Keys(l)[1..] == Keys(l[1..]);
    if l[0] != s {
      assert s in l[1..];
      var j :| 0 <= j < |l[1..]| && l[1..][j] == s;
      assert Keys(l)[j + 1] == s.key;
      LookupFinds(l[1..], s);
    }
  }

  lemma {:induction false} KeepMembers<V>(l: seq<Slot<V>>, dead: set<Key>)
    ensures |Keep(l, dead)| <= |l|
    ensures forall s | s in Keep(l, dead) :: s in l && s.key !in dead
    ensures forall s | s in l && s.key !in dead :: s in Keep(l, dead)
  {
    if l != [] {
      KeepMembers(l[1..], dead);
    }
  }

  lemma {:induction false} KeepDistinct<V>(l: seq<Slot<V>>, dead: set<Key>)
    requires NoDuplicates(Keys(l))
    ensures NoDuplicates(Keys(Keep(l, dead)))
  {
    if l != [] {
      KeepDistinct(l[1..], dead);
      KeepMembers(l[1..], dead);
      var r := Keep(l[1..], dead);
      if l[0].key !in dead {
        assert forall j | 0 <= j < |r| :: r[j] in l[1..];
        NewFrontWellFormed(r, l[0]);
      }
    }
  }

  lemma {:induction false} KeepNothingDead<V>(l: seq<Slot<V>>, dead: set<Key>)
    requires forall k | k in dead :: k !in Keys(l)
    ensures Keep(l, dead) == l
  {
    if l != [] {
      assert Keys(l) == [l[0].key] + Keys(l[1..]);
      KeepNothingDead(l[1..], dead);
      assert l[0].key in Keys(l);
    }
  }

  lemma {:induction false} KeepTwice<V>(l: seq<Slot<V>>, a: set<Key>, b: set<Key>)
    ensures Keep(Keep(l, a), b) == Keep(l, a + b)
  {
    if l != [] {
      KeepTwice(l[1..], a, b);
      if l[0].key !in a {
        assert Keep(l, a)[1..] == Keep(l[1..], a);
      }
    }
  }

  /** `a` is `b` with some elements left out. */
  ghost predicate IsSubsequence<T>(a: seq<T>, b: seq<T>) {
    || a == []
    || (b != [] && if a[0] == b[0] then IsSubsequence(a[1..], b[1..]) else IsSubsequence(a, b[1..]))
  }

  lemma {:induction false} KeepInOrder<V>(l: seq<Slot<V>>, dead: set<Key>)
    ensures IsSubsequence(Keep(l, dead), l)
  {
    if l != [] {
      KeepInOrder(l[1..], dead);
      KeepMembers(l[1..], dead);
      if l[0].key !in dead {
        assert Keep(l, dead)[1..] == Keep(l[1..], dead);
      } else if Keep(l, dead) != [] {
        assert Keep(l, dead)[0] in Keep(l[1..], dead);
      }
    }
  }

  lemma {:induction false} KeepShrinks<V>(l: seq<Slot<V>>, k: Key)
    requires k in Keys(l)
    ensures |Keep(l, {k})| < |l|
  {
    KeepMembers(l[1..], {k});
    if l[0].key != k {
      assert Keys(l) == [l[0].key] + Keys(l[1..]);
      KeepShrinks(l[1..], k);
    }
  }

  lemma {:induction false} KeepByPrefix<V>(l: seq<Slot<V>>, dead: set<Key>, prefix: string)
    requires forall s | s in l :: s.key in dead <==> HasPrefix(s.key, prefix)
    ensures Keep(l, dead) == KeepUnprefixed(l, prefix)
  {
    if l != [] {
      KeepByPrefix(l[1..], dead, prefix);
      assert l[0] in l;
    }
  }

  /** A deletion by prefix hides exactly the keys that start with it, and keeps the order of the rest. */
  lemma {:induction false} LookupUnprefixed<V>(l: seq<Slot<V>>, prefix: string, k: Key)
    ensures Lookup(KeepUnprefixed(l, prefix), k)
         == if exists rest :: k == prefix + rest then None else Lookup(l, k)
    ensures IsSubsequence(KeepUnprefixed(l, prefix), l)
  {
    var dead := set s | s in l && HasPrefix(s.key, prefix) :: s.key;
    KeepByPrefix(l, dead, prefix);
    LookupKeep(l, dead, k);
    KeepInOrder(l, dead);
    LookupMember(l, k);
    assert HasPrefix(k, prefix) ==> k == prefix + k[|prefix|..];
  }

  lemma {:induction false} LookupKeep<V>(l: seq<Slot<V>>, dead: set<Key>, k: Key)
    ensures Lookup(Keep(l, dead), k) == if k in dead then None else Lookup(l, k)
  {
    if l != [] {
      LookupKeep(l[1..], dead, k);
      if l[0].key !in dead {
        assert Keep(l, dead)[1..] == Keep(l[1..], dead);
      }
    }
  }

  lemma NewFrontWellFormed<V>(l: seq<Slot<V>>, s: Slot<V>)
    requires NoDuplicates(Keys(l)) && s.key !in Keys(l)
    ensures NoDuplicates(Keys([s] + l))
  {
    assert Keys([s] + l) == [s.key] + Keys(l);
  }

  lemma GetMembers<V>(l: seq<Slot<V>>, k: Key)
    ensures forall s | s in Get(l, k) :: s in l
  {
    LookupMember(l, k);
    KeepMembers(l, {k});
  }

  lemma PutMembers<V>(l: seq<Slot<V>>, capacity: Capacity, k: Key, v: V)
    ensures forall s | s in Put(l, capacity, k, v) :: s in l || s == Slot(k, v)
    ensures Put(l, capacity, k, v)[0] == Slot(k, v)
  {
    KeepMembers(l, {k});
  }

  lemma GetWellFormed<V>(l: seq<Slot<V>>, capacity: Capacity, k: Key)
    requires WellFormed(l, capacity)
    ensures WellFormed(Get(l, k), capacity)
  {
    LookupMember(l, k);
    if Lookup(l, k).Some? {
      KeepDistinct(l, {k});
      KeepShrinks(l, k);
      KeepMembers(l, {k});
      NewFrontWellFormed(Keep(l, {k}), Slot(k, Lookup(l, k).value));
    }
  }

  lemma PutWellFormed<V>(l: seq<Slot<V>>, capacity: Capacity, k: Key, v: V)
    requires WellFormed(l, capacity)
    ensures WellFormed(Put(l, capacity, k, v), capacity)
  {
    LookupMember(l, k);
    if Lookup(l, k).Some? {
      KeepDistinct(l, {k});
      KeepShrinks(l, k);
      KeepMembers(l, {k});
      NewFrontWellFormed(Keep(l, {k}), Slot(k, v));
    } else if |l| >= capacity {
      assert Keys(l[..|l| - 1]) == Keys(l)[..|l| - 1];
      NewFrontWellFormed(l[..|l| - 1], Slot(k, v));
    } else {
      NewFrontWellFormed(l, Slot(k, v));
    }
  }
}

module LruCaches {
  import opened Prelude
  import opened Recency

  /** The value of a list element: shared by the map and the list, updated in place by `Put`. */
  class LruItem<V> {
    const key: Key
    var entry: V

    constructor (key: Key, entry: V)
      ensures this.key == key && this.entry == entry
    {
      this.key, this.entry := key, entry;
    }
  }

  /** `container/list`'s removal of one element. */
  function Remove<V>(order: seq<LruItem<V>>, item: LruItem<V>): seq<LruItem<V>> {
    if order == [] then []
    else if order[0] == item then order[1..]
    else [order[0]] + Remove(order[1..], item)
  }

  ghost predicate Within<V>(a: seq<LruItem<V>>, b: seq<LruItem<V>>) {
    forall x | x in a :: x in b
  }

  ghost predicate SameMembers<V>(a: seq<LruItem<V>>, b: seq<LruItem<V>>) {
    Within(a, b) && Within(b, a)
  }

  ghost predicate LacksKey<V>(order: seq<LruItem<V>>, k: Key) {
    forall x | x in order :: x.key != k
  }

  ghost predicate DistinctItems<V>(order: seq<LruItem<V>>) {
    order != [] ==> LacksKey(order[1..], order[0].key) && DistinctItems(order[1..])
  }

  function Slots<V>(order: seq<LruItem<V>>): (r: seq<Slot<V>>)
    reads order
    ensures |r| == |order|
    ensures forall i | 0 <= i < |order| :: r[i] == Slot(order[i].key, order[i].entry)
  {
    if order == [] then [] else [Slot(order[0].key, order[0].entry)] + Slots(order[1..])
  }

  lemma {:induction false} RemoveMembers<V>(order: seq<LruItem<V>>, item: LruItem<V>)
    requires DistinctItems(order) && item in order
    ensures Within(Remove(order, item), order)
    ensures LacksKey(Remove(order, item), item.key)
    ensures forall x | x in order && x != item :: x in Remove(order, item)
    ensures |Remove(order, item)| == |order| - 1
  {
    if order[0] != item {
      RemoveMembers(order[1..], item);
    }
  }

  lemma {:induction false} RemoveDistinct<V>(order: seq<LruItem<V>>, item: LruItem<V>)
    requires DistinctItems(order) && item in order
    ensures DistinctItems(Remove(order, item))
  {
    if order[0] != item {
      RemoveMembers(order[1..], item);
      RemoveDistinct(order[1..], item);
      assert Remove(order, item)[1..] == Remove(order[1..], item);
    }
  }

  /** Removing an element of a list with distinct keys is keeping the slots of the other keys. */
  lemma {:induction false} RemoveIsKeep<V>(order: seq<LruItem<V>>, item: LruItem<V>)
    requires DistinctItems(order) && item in order
    ensures Slots(Remove(order, item)) == Keep(Slots(order), {item.key})
  {
    var rest := order[1..];
    assert Slots(order) == [Slots(order)[0]] + Slots(rest);
    if order[0] == item {
      KeepNothingDead(Slots(rest), {item.key});
    } else {
      RemoveIsKeep(rest, item);
      assert Remove(order, item)[1..] == Remove(rest, item);
    }
  }

  lemma {:induction false} DropLastDistinct<V>(order: seq<LruItem<V>>)
    requires DistinctItems(order) && order != []
    ensures DistinctItems(order[..|order| - 1])
    ensures LacksKey(order[..|order| - 1], order[|order| - 1].key)
  {
    if |order| > 1 {
      DropLastDistinct(order[1..]);
      assert order[..|order| - 1][1..] == order[1..][..|order| - 2];
    }
  }

  lemma {:induction false} SlotsDistinct<V>(order: seq<LruItem<V>>)
    requires DistinctItems(order)
    ensures NoDuplicates(Keys(Slots(order)))
  {
    if order != [] {
      SlotsDistinct(order[1..]);
      assert Slots(order) == [Slots(order)[0]] + Slots(order[1..]);
      forall i | 0 <= i < |order[1..]|
        ensures Keys(Slots(order[1..]))[i] != order[0].key
      {
        assert order[1..][i] in order[1..];
      }
      NewFrontWellFormed(Slots(order[1..]), Slots(order)[0]);
    }
  }

  /** `items` finds exactly the elements of `order`, each by its key.  Stated by recursion, so
      that proofs about the class unfold it only through the lemmas below. */
  ghost predicate Indexes<V>(items: map<Key, LruItem<V>>, order: seq<LruItem<V>>) {
    if order == [] then items == map[]
    else
      && order[0].key in items
      && items[order[0].key] == order[0]
      && Indexes(items - {order[0].key}, order[1..])
  }

  /** The same by quantification. */
  ghost predicate Indexed<V>(items: map<Key, LruItem<V>>, order: seq<LruItem<V>>) {
    && DistinctItems(order)
    && (forall x | x in order :: x.key in items && items[x.key] == x)
    && (forall k | k in items :: items[k].key == k && items[k] in order)
  }

  lemma {:induction false} IndexesIsIndexed<V>(items: map<Key, LruItem<V>>, order: seq<LruItem<V>>)
    ensures Indexes(items, order) <==> Indexed(items, order)
  {
    if order == [] {
      if Indexed(items, order) {
        assert items.Keys == {};
      }
    } else {
      var rest := items - {order[0].key};
      IndexesIsIndexed(rest, order[1..]);
      if Indexes(items, order) {
        assert LacksKey(order[1..], order[0].key);
        assert forall k | k in items :: k == order[0].key || items[k] == rest[k];
      }
      if Indexed(items, order) {
        assert forall k | k in rest :: items[k] in order && items[k] != order[0];
        assert Indexed(rest, order[1..]);
      }
    }
  }

  lemma IndexesMoved<V>(items: map<Key, LruItem<V>>, order: seq<LruItem<V>>, item: LruItem<V>)
    requires Indexes(items, order) && item in order
    ensures Indexes(items, [item] + Remove(order, item))
    ensures SameMembers([item] + Remove(order, item), order)
    ensures |Remove(order, item)| == |order| - 1
    ensures Slots([item] + Remove(order, item)) == [Slot(item.key, item.entry)] + Keep(Slots(order), {item.key})
  {
    IndexesIsIndexed(items, order);
    RemoveMembers(order, item);
    RemoveDistinct(order, item);
    RemoveIsKeep(order, item);
    IndexesIsIndexed(items, [item] + Remove(order, item));
  }

  lemma IndexedRemoved<V>(items: map<Key, LruItem<V>>, order: seq<LruItem<V>>, key: Key, rest: seq<LruItem<V>>)
    requires Indexed(items, order) && key in items
    requires DistinctItems(rest) && Within(rest, order) && LacksKey(rest, key)
    requires forall x | x in order && x != items[key] :: x in rest
    ensures Indexed(items - {key}, rest)
  {
  }

  lemma IndexesRemoved<V>(items: map<Key, LruItem<V>>, order: seq<LruItem<V>>, key: Key)
    requires Indexes(items, order) && key in items
    ensures Indexes(items - {key}, Remove(order, items[key]))
    ensures |Remove(order, items[key])| == |order| - 1
    ensures Within(Remove(order, items[key]), order)
    ensures Slots(Remove(order, items[key])) == Keep(Slots(order), {key})
  {
    IndexesIsIndexed(items, order);
    RemoveMembers(order, items[key]);
    RemoveDistinct(order, items[key]);
    RemoveIsKeep(order, items[key]);
    IndexedRemoved(items, order, key, Remove(order, items[key]));
    IndexesIsIndexed(items - {key}, Remove(order, items[key]));
  }

  lemma IndexesPushed<V>(items: map<Key, LruItem<V>>, order: seq<LruItem<V>>, item: LruItem<V>)
    requires Indexes(items, order) && item.key !in items
    ensures Indexes(items[item.key := item], [item] + order)
    ensures Slots([item] + order) == [Slot(item.key, item.entry)] + Slots(order)
  {
    assert [item] + order != [] && ([item] + order)[1..] == order;
    assert items[item.key := item] - {item.key} == items;
  }

  lemma IndexesPopped<V>(items: map<Key, LruItem<V>>, order: seq<LruItem<V>>)
    requires Indexes(items, order) && order != []
    ensures Indexes(items - {order[|order| - 1].key}, order[..|order| - 1])
    ensures Within(order[..|order| - 1], order)
  {
    var last, rest := order[|order| - 1], order[..|order| - 1];
    IndexesIsIndexed(items, order);
    DropLastDistinct(order);
    assert order == rest + [last];
    IndexedRemoved(items, order, last.key, rest);
    IndexesIsIndexed(items - {last.key}, rest);
  }

  class LRUCheckerCache<V> {
    const capacity: Capacity
    var items: map<Key, LruItem<V>>
    var order: seq<LruItem<V>>  // front = most recently used

    ghost predicate Valid()
      reads this
    {
      && |order| <= capacity
      && Indexes(items, order)
    }

    /** What the cache holds, most recently used first. */
    ghost function Contents(): seq<Slot<V>>
      reads this, order
    {
      Slots(order)
    }

    ghost function Elements(): set<LruItem<V>>
      reads this
    {
      set x | x in order
    }

    /** Capacities below one are raised to one. */
    constructor (requested: int)
      ensures Valid() && order == []
      ensures capacity == if requested < 1 then 1 else requested
    {
      capacity := if requested < 1 then 1 else requested;
      items, order := map[], [];
    }

    lemma InMapIffInContents(k: Key)
      requires Valid()
      ensures k in items <==> Lookup(Contents(), k).Some?
      ensures k in items ==> Lookup(Contents(), k) == Some(items[k].entry)
      ensures k in items ==> items[k] in order && items[k].key == k
      ensures NoDuplicates(Keys(Contents()))
    {
      IndexesIsIndexed(items, order);
      LookupMember(Contents(), k);
      SlotsDistinct(order);
      if k in items {
        var i :| 0 <= i < |order| && order[i] == items[k];
        assert Contents()[i] == Slot(k, items[k].entry);
        LookupFinds(Contents(), Contents()[i]);
      }
    }

    lemma ContentsInMap()
      requires Valid()
      ensures forall s | s in Contents() :: s.key in items
    {
      forall s | s in Contents()
        ensures s.key in items
      {
        InMapIffInContents(s.key);
        LookupFinds(Contents(), s);
      }
    }

    method Get(key: Key) returns (found: Option<V>)
      requires Valid()
      modifies this`order
      ensures Valid()
      ensures found == Lookup(old(Contents()), key)
      ensures Contents() == Recency.Get(old(Contents()), key)
      ensures Elements() == old(Elements())
    {
      InMapIffInContents(key);
      if key !in items {
        return None;
      }
      var elem := items[key];
      MoveToFront(elem);
      return Some(elem.entry);
    }

    /** `order.MoveToFront(elem)`. */
    method MoveToFront(elem: LruItem<V>)
      requires Valid() && elem in order
      modifies this`order
      ensures Valid()
      ensures order == [elem] + Remove(old(order), elem)
      ensures Contents() == [Slot(elem.key, elem.entry)] + Keep(old(Contents()), {elem.key})
      ensures Elements() == old(Elements())
    {
      IndexesMoved(items, order, elem);
      order := [elem] + Remove(order, elem);
      assert order[1..] == Remove(old(order), elem);
    }

    method Put(key: Key, entry: V)
      requires Valid()
      modifies this`order, this`items, Elements()
      ensures Valid()
      ensures Contents() == Recency.Put(old(Contents()), capacity, key, entry)
      ensures fresh(Elements() - old(Elements()))
    {
      InMapIffInContents(key);
      if key in items {
        var elem := items[key];
        MoveToFront(elem);
        SetEntry(elem, entry);
        return;
      }
      if |order| >= capacity {
        EvictLast();
      }
      PushFront(key, entry);
    }

    /** `elem.Value.entry = entry`, for the element now in front. */
    method SetEntry(elem: LruItem<V>, entry: V)
      requires Valid() && order != [] && order[0] == elem
      modifies elem
      ensures Valid()
      ensures Contents() == [Slot(elem.key, entry)] + old(Contents())[1..]
    {
      IndexesIsIndexed(items, order);
      elem.entry := entry;
    }

    method EvictLast()
      requires Valid() && order != []
      modifies this`order, this`items
      ensures Valid()
      ensures |order| == |old(order)| - 1 && Elements() <= old(Elements())
      ensures items.Keys <= old(items).Keys
      ensures Contents() == old(Contents())[..|old(Contents())| - 1]
    {
      var back := order[|order| - 1];
      IndexesPopped(items, order);
      order := order[..|order| - 1];
      items := items - {back.key};
    }

    method PushFront(key: Key, entry: V)
      requires Valid() && key !in items && |order| < capacity
      modifies this`order, this`items
      ensures Valid()
      ensures fresh(Elements() - old(Elements()))
      ensures Contents() == [Slot(key, entry)] + old(Contents())
    {
      var elem := new LruItem(key, entry);
      IndexesPushed(items, order, elem);
      order := [elem] + order;
      items := items[key := elem];
    }

    method Delete(key: Key)
      requires Valid()
      modifies this`order, this`items
      ensures Valid()
      ensures Contents() == Recency.Delete(old(Contents()), key)
      ensures Elements() <= old(Elements())
    {
      InMapIffInContents(key);
      LookupMember(Contents(), key);
      if key !in items {
        KeepNothingDead(Contents(), {key});
        return;
      }
      RemoveElement(key);
    }

    /** The two removals `Delete` and `DeleteByPrefix` make for a key that is present. */
    method RemoveElement(key: Key)
      requires Valid() && key in items
      modifies this`order, this`items
      ensures Valid()
      ensures items == old(items) - {key}
      ensures Contents() == Keep(old(Contents()), {key})
      ensures Elements() <= old(Elements())
    {
      var elem := items[key];
      IndexesRemoved(items, order, key);
      order := Remove(order, elem);
      items := items - {key};
    }

    /** Go's `range` visits the keys of the map in some order while entries are deleted. */
    method DeleteByPrefix(prefix: string)
      requires Valid()
      modifies this`order, this`items
      ensures Valid()
      ensures Contents() == KeepUnprefixed(old(Contents()), prefix)
      ensures Elements() <= old(Elements())
    {
      var todo := items.Keys;
      ghost var start, keys := Contents(), items.Keys;
      ContentsInMap();
      ghost var dead: set<Key> := {};
      KeepNothingDead(start, dead);
      while todo != {}
        invariant Valid() && todo <= items.Keys
        invariant items.Keys == keys - dead
        invariant forall k | k in dead :: HasPrefix(k, prefix)
        invariant forall k | k in keys - todo && HasPrefix(k, prefix) :: k in dead
        invariant Contents() == Keep(start, dead)
        invariant Elements() <= old(Elements())
        decreases todo
      {
        var key :| key in todo;
        todo := todo - {key};
        if HasPrefix(key, prefix) {
          RemoveElement(key);
          KeepTwice(start, dead, {key});
          dead := dead + {key};
        }
      }
      KeepByPrefix(start, dead, prefix);
    }
  }
}
