/** The LIST_ENTRY circular doubly linked list that threads the hooked-page records
    (Ept.cpp) and the pool slots (PoolManager.cpp).

    In the source the links sit inside the record and CONTAINING_RECORD recovers it; here an
    entry carries its record. The list head carries none. */
module IntrusiveList {
  import opened Wrappers

  class ListEntry<T> {
    var flink: ListEntry?<T>
    var blink: ListEntry?<T>
    var record: Option<T>

    /** A freshly allocated record, linked to nothing. */
    constructor (record: Option<T>)
      ensures this.record == record && flink == blink == null
    {
      this.record := record;
      flink, blink := null, null;
    }
  }

  /** A list head together with the entries it threads, in Flink order. */
  class ListHead<T> {
    const head: ListEntry<T>
    ghost var entries: seq<ListEntry<T>>
    ghost var records: seq<T>

    /** The head, the entries and the head again: the list is circular. */
    ghost function Ring(): seq<ListEntry<T>>
      reads this
    {
      [head] + entries + [head]
    }

    static ghost predicate Linked(ring: seq<ListEntry<T>>)
      reads ring
    {
      forall i, j | 0 <= i && j == i + 1 && j < |ring| :: ring[i].flink == ring[j] && ring[j].blink == ring[i]
    }

    ghost predicate Valid()
      reads this, head, entries
    {
      && (forall i, j | 0 <= i < j < |entries| :: entries[i] != entries[j])
      && head !in entries
      && Linked(Ring())
      && |records| == |entries| && forall i | 0 <= i < |entries| :: entries[i].record == Some(records[i])
    }

    /** InitializeListHead. */
    constructor ()
      ensures Valid() && entries == [] && records == [] && fresh(head)
    {
      head := new ListEntry<T>(None);
      entries, records := [], [];
      new;
      head.flink := head;
      head.blink := head;
    }

    method InsertHead(e: ListEntry<T>)
      requires Valid() && e !in entries && e != head && e.record.Some?
      modifies this, head, e, head.flink
      ensures Valid() && entries == [e] + old(entries)
      ensures e.record == old(e.record) && records == [e.record.value] + old(records)
      ensures forall x | x in old(entries) :: x.record == old(x.record)
    {
      ghost var ring := Ring();
      var first := head.flink;
      assert ring[0].flink == ring[1] && ring[1] == first;
      e.flink := first;
      e.blink := head;
      first.blink := e;
      head.flink := e;
      entries, records := [e] + entries, [e.record.value] + records;
      assert Ring() == [head, e] + ring[1..];
    }

    /** Fills the record of a new entry in and links it at the head. */
    method FillAndInsertHead(e: ListEntry<T>, value: T)
      requires Valid() && e !in entries && e != head
      modifies this, head, e, head.flink
      ensures Valid() && entries == [e] + old(entries)
      ensures e.record == Some(value) && records == [value] + old(records)
    {
      e.record := Some(value);
      InsertHead(e);
    }

    method InsertTail(e: ListEntry<T>)
      requires Valid() && e !in entries && e != head && e.record.Some?
      modifies this, head, e, head.blink
      ensures Valid() && entries == old(entries) + [e]
      ensures e.record == old(e.record) && records == old(records) + [e.record.value]
      ensures forall x | x in old(entries) :: x.record == old(x.record)
    {
      ghost var ring := Ring();
      ghost var n := |entries|;
      var last := head.blink;
      assert ring[n + 1].blink == ring[n] && ring[n] == last;
      e.flink := head;
      e.blink := last;
      last.flink := e;
      head.blink := e;
      entries, records := entries + [e], records + [e.record.value];
      ghost var after := Ring();
      assert after == ring[..n + 1] + [e, head];
      forall i, j | 0 <= i && j == i + 1 && j < |after|
        ensures after[i].flink == after[j] && after[j].blink == after[i]
      {
        if i < n {
          assert after[i] == ring[i] && after[j] == ring[j] && ring[i].flink == ring[j];
        }
      }
    }

    /** Changes the record of the k-th entry in place. */
    method SetRecord(e: ListEntry<T>, ghost k: nat, value: T)
      requires Valid() && k < |entries| && entries[k] == e
      modifies `records, e`record
      ensures Valid() && entries == old(entries) && records == old(records)[k := value]
    {
      e.record := Some(value);
      records := records[k := value];
    }

    /** RemoveEntryList followed by InitializeListHead of the removed entry. */
    method Remove(e: ListEntry<T>, ghost k: nat)
      requires Valid() && k < |entries| && entries[k] == e
      modifies this, e, e.flink, e.blink
      ensures Valid() && entries == old(entries[..k] + entries[k + 1..])
      ensures records == old(records[..k] + records[k + 1..])
      ensures forall x | x in old(entries) :: x.record == old(x.record)
      ensures e.flink == e && e.blink == e
    {
      ghost var ring := Ring();
      DistinctWithout(entries, k);
      var prior, next := e.blink, e.flink;
      assert ring[k + 1] == e && ring[k].flink == e && ring[k + 2].blink == e;
      prior.flink := next;
      next.blink := prior;
      e.flink := e;
      e.blink := e;
      entries, records := entries[..k] + entries[k + 1..], records[..k] + records[k + 1..];
      assert Ring() == ring[..k + 1] + ring[k + 2..];
      forall i, j | 0 <= i && j == i + 1 && j < |ring| && i != k && i != k + 1
        ensures ring[i].flink == ring[j] && ring[j].blink == ring[i]
      {
        assert ring[i] != prior && ring[i] != e && ring[j] != next && ring[j] != e;
      }
      Spliced(ring, k);
    }

    /** Taking out an entry whose neighbours now lead past it leaves a ring linked. */
    static lemma DistinctWithout(xs: seq<ListEntry<T>>, k: nat)
      requires k < |xs| && forall i, j | 0 <= i < j < |xs| :: xs[i] != xs[j]
      ensures var ys := xs[..k] + xs[k + 1..];
        xs[k] !in ys && forall i, j | 0 <= i < j < |ys| :: ys[i] != ys[j]
    {
    }

    static lemma Spliced(ring: seq<ListEntry<T>>, k: nat)
      requires k + 2 < |ring| && ring[k].flink == ring[k + 2] && ring[k + 2].blink == ring[k]
      requires forall i, j | 0 <= i && j == i + 1 && j < |ring| && i != k && i != k + 1 ::
        ring[i].flink == ring[j] && ring[j].blink == ring[i]
      ensures Linked(ring[..k + 1] + ring[k + 2..])
    {
      var after := ring[..k + 1] + ring[k + 2..];
      forall i, j | 0 <= i && j == i + 1 && j < |after|
        ensures after[i].flink == after[j] && after[j].blink == after[i]
      {
        if i < k {
          assert after[i] == ring[i] && after[j] == ring[j];
        } else if i > k {
          assert after[i] == ring[i + 1] && after[j] == ring[j + 1];
        }
      }
    }
  }
}
