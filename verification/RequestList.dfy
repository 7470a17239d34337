/** The bounded request list (RequestList.hpp): a fixed array of slots used as a bag. Every
    operation holds the list's lock for its whole body, so operations of several threads take
    effect one after the other. */
module RequestList {
  const MAX_ALLOCATION_REQUESTS: nat := 100

  datatype Item<T> = Item(data: T, isUsed: bool)

  // ----- The bag of used slots -----

  function Content<T>(i: Item<T>): multiset<T> {
    if i.isUsed then multiset{i.data} else multiset{}
  }

  function Bag<T(!new)>(items: seq<Item<T>>): (b: multiset<T>)
    ensures |b| <= |items|
  {
    if items == [] then multiset{} else Bag(items[..|items| - 1]) + Content(items[|items| - 1])
  }

  /** The number of used slots that hold `x`. */
  function Uses<T(==)>(items: seq<Item<T>>, x: T): nat {
    if items == [] then 0 else Uses(items[..|items| - 1], x) + if items[|items| - 1] == Item(x, true) then 1 else 0
  }

  lemma {:induction false} BagUses<T(!new)>(items: seq<Item<T>>, x: T)
    ensures Bag(items)[x] == Uses(items, x)
  {
    if items != [] {
      BagUses(items[..|items| - 1], x);
    }
  }

  lemma {:induction false} UsesUpdate<T(!new)>(items: seq<Item<T>>, i: nat, y: Item<T>, x: T)
    requires i < |items|
    ensures Uses(items[i := y], x) + (if items[i] == Item(x, true) then 1 else 0)
         == Uses(items, x) + if y == Item(x, true) then 1 else 0
  {
    var last := |items| - 1;
    if i == last {
      assert items[i := y][..last] == items[..last];
    } else {
      UsesUpdate(items[..last], i, y, x);
      assert items[i := y][..last] == items[..last][i := y];
    }
  }

  lemma UsesAppend<T(!new)>(items: seq<Item<T>>, y: Item<T>, x: T)
    ensures Uses(items + [y], x) == Uses(items, x) + if y == Item(x, true) then 1 else 0
  {
    assert (items + [y])[..|items|] == items;
  }

  lemma {:induction false} UsesIff<T(!new)>(items: seq<Item<T>>, x: T)
    ensures Uses(items, x) > 0 <==> Item(x, true) in items
  {
    if items != [] {
      UsesIff(items[..|items| - 1], x);
      assert items == items[..|items| - 1] + [items[|items| - 1]];
    }
  }

  /** Changing one slot changes the bag by that slot's content. */
  lemma BagUpdate<T(!new)>(items: seq<Item<T>>, i: nat, y: Item<T>)
    requires i < |items|
    ensures Bag(items[i := y]) + Content(items[i]) == Bag(items) + Content(y)
  {
    forall x: T
      ensures (Bag(items[i := y]) + Content(items[i]))[x] == (Bag(items) + Content(y))[x]
    {
      BagUses(items, x);
      BagUses(items[i := y], x);
      UsesUpdate(items, i, y, x);
    }
  }

  /** The number of used slots. */
  function UsedCount<T(!new)>(items: seq<Item<T>>): (n: nat)
    ensures n <= |items|
  {
    if items == [] then 0 else UsedCount(items[..|items| - 1]) + if items[|items| - 1].isUsed then 1 else 0
  }

  lemma {:induction false} CountUpdate<T(!new)>(items: seq<Item<T>>, i: nat, y: Item<T>)
    requires i < |items|
    ensures UsedCount(items[i := y]) + (if items[i].isUsed then 1 else 0)
         == UsedCount(items) + if y.isUsed then 1 else 0
  {
    var last := |items| - 1;
    if i == last {
      assert items[i := y][..last] == items[..last];
    } else {
      CountUpdate(items[..last], i, y);
      assert items[i := y][..last] == items[..last][i := y];
    }
  }

  /** No slot is used exactly when the count is zero, and all are exactly when it is the length. */
  lemma {:induction false} CountEnds<T(!new)>(items: seq<Item<T>>)
    ensures UsedCount(items) == 0 <==> FirstWith(items, true) == |items|
    ensures UsedCount(items) == |items| <==> FirstWith(items, false) == |items|
  {
    if items != [] {
      var front := items[..|items| - 1];
      CountEnds(front);
      assert forall i | 0 <= i < |front| :: front[i] == items[i];
    }
  }

  lemma {:induction false} BagCount<T(!new)>(items: seq<Item<T>>)
    ensures |Bag(items)| == UsedCount(items)
  {
    if items != [] {
      BagCount(items[..|items| - 1]);
      assert |Content(items[|items| - 1])| == if items[|items| - 1].isUsed then 1 else 0;
    }
  }

  lemma InBag<T(!new)>(items: seq<Item<T>>, x: T)
    ensures x in Bag(items) <==> Item(x, true) in items
  {
    BagUses(items, x);
    UsesIff(items, x);
  }

  // ----- The operations on the slots as values -----

  function FirstWith<T(!new)>(items: seq<Item<T>>, used: bool): (i: nat)
    ensures i <= |items|
    ensures i < |items| ==> items[i].isUsed == used
    ensures forall j | 0 <= j < i :: items[j].isUsed != used
  {
    if items == [] || items[0].isUsed == used then 0 else 1 + FirstWith(items[1..], used)
  }

  /** Insert: the first free slot takes the request; a full list refuses it. */
  function Inserted<T(!new)>(items: seq<Item<T>>, x: T): (o: (seq<Item<T>>, bool))
    ensures |o.0| == |items|
  {
    var i := FirstWith(items, false);
    if i < |items| then (items[i := Item(x, true)], true) else (items, false)
  }

  /** Pop: the first used slot gives its request; an empty list gives the default request. */
  function Popped<T(!new)>(items: seq<Item<T>>, zero: T): (o: (seq<Item<T>>, T))
    ensures |o.0| == |items|
  {
    var i := FirstWith(items, true);
    if i < |items| then (items[i := items[i].(isUsed := false)], items[i].data) else (items, zero)
  }

  /** Insert puts exactly one request into the bag, unless all slots are used. */
  lemma InsertedBag<T(!new)>(items: seq<Item<T>>, x: T)
    ensures var (after, ok) := Inserted(items, x);
      && (ok <==> |Bag(items)| < |items|)
      && Bag(after) == Bag(items) + if ok then multiset{x} else multiset{}
  {
    BagCount(items);
    CountEnds(items);
    var i := FirstWith(items, false);
    if i < |items| {
      BagUpdate(items, i, Item(x, true));
    }
  }

  /** Pop takes exactly one request out of the bag, unless it is empty. */
  lemma PoppedBag<T(!new)>(items: seq<Item<T>>, zero: T)
    ensures var (after, x) := Popped(items, zero);
      if Bag(items) == multiset{} then after == items && x == zero
      else x in Bag(items) && Bag(after) == Bag(items) - multiset{x}
  {
    BagCount(items);
    CountEnds(items);
    var i := FirstWith(items, true);
    if i < |items| {
      var freed := items[i].(isUsed := false);
      assert items[i] == Item(items[i].data, true);
      BagUpdate(items, i, freed);
      InBag(items, items[i].data);
      assert Bag(items[i := freed]) + multiset{items[i].data} == Bag(items);
    }
  }

  predicate HasRequest<T(!new)>(items: seq<Item<T>>) {
    FirstWith(items, true) < |items|
  }

  lemma InsertedUses<T(!new)>(items: seq<Item<T>>, y: T, x: T)
    ensures var (after, ok) := Inserted(items, y);
      Uses(after, x) == Uses(items, x) + if ok && x == y then 1 else 0
  {
    var i := FirstWith(items, false);
    if i < |items| {
      UsesUpdate(items, i, Item(y, true), x);
    }
  }

  lemma PoppedUses<T(!new)>(items: seq<Item<T>>, zero: T, x: T)
    requires HasRequest(items)
    ensures var (after, y) := Popped(items, zero);
      Uses(after, x) + (if x == y then 1 else 0) == Uses(items, x)
  {
    var i := FirstWith(items, true);
    assert items[i] == Item(items[i].data, true);
    UsesUpdate(items, i, items[i].(isUsed := false), x);
  }

  lemma InsertedCount<T(!new)>(items: seq<Item<T>>, y: T)
    ensures var (after, ok) := Inserted(items, y);
      && (ok <==> UsedCount(items) < |items|)
      && UsedCount(after) == UsedCount(items) + if ok then 1 else 0
  {
    CountEnds(items);
    var i := FirstWith(items, false);
    if i < |items| {
      CountUpdate(items, i, Item(y, true));
    }
  }

  lemma PoppedCount<T(!new)>(items: seq<Item<T>>, zero: T)
    ensures HasRequest(items) <==> UsedCount(items) > 0
    ensures UsedCount(Popped(items, zero).0) == UsedCount(items) - if HasRequest(items) then 1 else 0
  {
    CountEnds(items);
    var i := FirstWith(items, true);
    if i < |items| {
      CountUpdate(items, i, items[i].(isUsed := false));
    }
  }

  // ----- The class -----

  class RequestList<T(==,!new)> {
    const zero: T
    const requests: array<Item<T>>
    var itemsCount: nat

    ghost predicate Valid()
      reads this, requests
    {
      requests.Length == MAX_ALLOCATION_REQUESTS && itemsCount == UsedCount(requests[..])
    }

    /** `zero` is the value-initialised request. */
    constructor (zero: T)
      ensures Valid() && this.zero == zero && fresh(requests)
      ensures requests[..] == seq(MAX_ALLOCATION_REQUESTS, _ => Item(zero, false))
    {
      this.zero := zero;
      requests := new Item<T>[MAX_ALLOCATION_REQUESTS](_ => Item(zero, false));
      itemsCount := 0;
      new;
      CountEnds(requests[..]);
    }

    /** The loop of Insert and Pop: the first slot that is used, or that is not. */
    method FirstSlot(used: bool) returns (slot: nat)
      requires requests.Length == MAX_ALLOCATION_REQUESTS
      ensures slot == FirstWith(requests[..], used)
    {
      for i := 0 to MAX_ALLOCATION_REQUESTS
        invariant forall j | 0 <= j < i :: requests[j].isUsed != used
      {
        if requests[i].isUsed == used {
          return i;
        }
      }
      return MAX_ALLOCATION_REQUESTS;
    }

    /** Below the capacity the search always finds a free slot. */
    method Insert(item: T) returns (inserted: bool)
      requires Valid()
      modifies `itemsCount, requests
      ensures Valid() && (requests[..], inserted) == Inserted(old(requests[..]), item)
      ensures inserted <==> old(itemsCount) < MAX_ALLOCATION_REQUESTS
    {
      ghost var before := requests[..];
      InsertedCount(before, item);
      if itemsCount == MAX_ALLOCATION_REQUESTS {
        return false;
      }
      var i := FirstSlot(false);
      assert i < MAX_ALLOCATION_REQUESTS;
      requests[i] := Item(item, true);
      assert requests[..] == before[i := Item(item, true)];
      itemsCount := itemsCount + 1;
      return true;
    }

    /** With a nonzero count the search always finds a request. */
    method Pop() returns (item: T)
      requires Valid()
      modifies `itemsCount, requests
      ensures Valid() && (requests[..], item) == Popped(old(requests[..]), zero)
    {
      ghost var before := requests[..];
      PoppedCount(before, zero);
      if itemsCount == 0 {
        return zero;
      }
      var i := FirstSlot(true);
      assert i < MAX_ALLOCATION_REQUESTS;
      requests[i] := requests[i].(isUsed := false);
      assert requests[..] == before[i := before[i].(isUsed := false)];
      itemsCount := itemsCount - 1;
      return requests[i].data;
    }

    method GetListSize() returns (size: nat)
      requires Valid()
      ensures size == UsedCount(requests[..]) && (size == 0 <==> !HasRequest(requests[..]))
    {
      CountEnds(requests[..]);
      return itemsCount;
    }
  }

  // ----- Producers and a lone consumer -----

  function InsertAll<T(!new)>(items: seq<Item<T>>, xs: seq<T>): (after: seq<Item<T>>)
    ensures |after| == |items|
    decreases |xs|
  {
    if xs == [] then items else InsertAll(Inserted(items, xs[0]).0, xs[1..])
  }

  /** Producers take nothing out of the bag. */
  lemma {:induction false} InsertAllGrows<T(!new)>(items: seq<Item<T>>, xs: seq<T>)
    ensures Bag(items) <= Bag(InsertAll(items, xs))
    decreases |xs|
  {
    if xs != [] {
      InsertedBag(items, xs[0]);
      InsertAllGrows(Inserted(items, xs[0]).0, xs[1..]);
    }
  }

  /** A consumer that saw a nonzero size and is the only one to pop gets a real request, whatever
      the producers do in between. */
  lemma LoneConsumerPops<T(!new)>(items: seq<Item<T>>, produced: seq<T>, zero: T)
    requires Bag(items) != multiset{}
    ensures var between := InsertAll(items, produced);
      var (after, x) := Popped(between, zero);
      x in Bag(between) && Bag(after) == Bag(between) - multiset{x}
  {
    InsertAllGrows(items, produced);
    PoppedBag(InsertAll(items, produced), zero);
    var y :| y in Bag(items);
    assert y in Bag(InsertAll(items, produced));
  }

  /** With a second consumer it may get the default request. */
  lemma TwoConsumersPopDefault<T(!new)>(x: T, zero: T)
    ensures var items := [Item(x, true)];
      Bag(items) != multiset{} && Popped(Popped(items, zero).0, zero).1 == zero
  {
    InBag([Item(x, true)], x);
  }
}
