/** The PoolManager class (PoolManager.cpp): two intrusive lists of slots, two request lists and
    the memory of the blocks, changed in place. Each method is one lock-protected section, or a
    worker's sequence of such sections, and is verified against the functions of PoolProtocol. */
module PoolManager {
  import opened Wrappers
  import opened IntrusiveList
  import opened RequestList
  import opened PoolProtocol

  /** ALLOCATION_LIST: the slots of one kind. */
  class AllocationList {
    const list: ListHead<Slot>
    ghost var Repr: set<object>

    ghost predicate Valid()
      reads this, Repr
    {
      && this in Repr && list in Repr && list.head in Repr
      && (forall e | e in list.entries :: e in Repr)
      && list.Valid()
    }

    constructor ()
      ensures Valid() && fresh(Repr) && list.records == []
    {
      list := new ListHead<Slot>();
      new;
      Repr := {this, list, list.head};
    }

    /** The loop of FindFreeSlot. */
    method ClaimUnused() returns (address: Option<nat>)
      requires Valid()
      modifies Repr
      ensures Valid() && Repr == old(Repr)
      ensures var slots := old(list.records);
        var i := FirstWith(slots, false);
        if i < |slots| then
          list.records == slots[i := slots[i].(isUsed := true)] && address == Some(slots[i].data.address)
        else list.records == slots && address.None?
    {
      ghost var ring, slots := list.Ring(), list.records;
      ghost var i := 0;
      assert ring[0].flink == ring[1];
      var entry := list.head.flink;
      while entry != list.head
        invariant 0 <= i <= |slots| && entry == ring[i + 1]
        invariant forall j | 0 <= j < i :: slots[j].isUsed
        invariant Valid() && Repr == old(Repr) && list.records == slots && list.Ring() == ring
        decreases |slots| - i
      {
        assert entry == list.entries[i] && entry.record == Some(slots[i]);
        var allocation := entry.record.value;
        if !allocation.isUsed {
          assert FirstWith(slots, false) == i;
          list.SetRecord(entry, i, allocation.(isUsed := true));
          return Some(allocation.data.address);
        }
        assert ring[i + 1].flink == ring[i + 2];
        entry := entry.flink;
        i := i + 1;
      }
      return None;
    }

    /** The loop of FreeInternal: whether the address was found. */
    method ReleaseAt(address: nat) returns (found: bool)
      requires Valid()
      modifies Repr
      ensures Valid() && Repr == old(Repr)
      ensures var slots := old(list.records);
        var i := FirstAt(slots, address);
        && (found <==> i < |slots|)
        && list.records == if found then slots[i := slots[i].(isUsed := false)] else slots
    {
      ghost var ring, slots := list.Ring(), list.records;
      ghost var i := 0;
      assert ring[0].flink == ring[1];
      var entry := list.head.flink;
      while entry != list.head
        invariant 0 <= i <= |slots| && entry == ring[i + 1]
        invariant forall j | 0 <= j < i :: slots[j].data.address != address
        invariant Valid() && Repr == old(Repr) && list.records == slots && list.Ring() == ring
        decreases |slots| - i
      {
        assert entry == list.entries[i] && entry.record == Some(slots[i]);
        var allocation := entry.record.value;
        if allocation.data.address == address {
          assert FirstAt(slots, address) == i;
          list.SetRecord(entry, i, allocation.(isUsed := false));
          return true;
        }
        assert ring[i + 1].flink == ring[i + 2];
        entry := entry.flink;
        i := i + 1;
      }
      return false;
    }

    /** A new unused slot at the tail. */
    method Append(b: Block)
      requires Valid()
      modifies Repr
      ensures Valid() && fresh(Repr - old(Repr))
      ensures list.records == old(list.records) + [Item(b, false)]
    {
      var allocation := new ListEntry<Slot>(Some(Item(b, false)));
      ghost var ring := list.Ring();
      assert ring[|ring| - 1].blink == ring[|ring| - 2];
      list.InsertTail(allocation);
      Repr := Repr + {allocation};
    }
  }

  class PoolManager {
    const pagingAllocations: AllocationList
    const eptHookAllocations: AllocationList
    const allocationRequests: RequestList<AllocationType>
    const freeRequests: RequestList<Block>
    // The contents of the blocks.
    var memory: map<nat, seq<nat>>

    ghost predicate Valid()
      reads this, pagingAllocations, pagingAllocations.Repr, eptHookAllocations, eptHookAllocations.Repr
      reads allocationRequests, allocationRequests.requests, freeRequests, freeRequests.requests
    {
      && pagingAllocations.Valid() && eptHookAllocations.Valid()
      && pagingAllocations.Repr !! eptHookAllocations.Repr
      && {this, allocationRequests, allocationRequests.requests, freeRequests, freeRequests.requests}
         !! pagingAllocations.Repr + eptHookAllocations.Repr
      && allocationRequests.requests as object != freeRequests.requests
      && allocationRequests.Valid() && freeRequests.Valid()
      && allocationRequests.zero == SplitPage && freeRequests.zero == NO_BLOCK
    }

    ghost function Model(): Pool
      reads this, pagingAllocations, pagingAllocations.list, eptHookAllocations, eptHookAllocations.list
      reads allocationRequests.requests, freeRequests.requests
    {
      Pool(pagingAllocations.list.records, eptHookAllocations.list.records,
           allocationRequests.requests[..], freeRequests.requests[..], memory)
    }

    /** Both lists empty, no requests. */
    constructor ()
      ensures Valid() && Model() == EmptyPool()
      ensures fresh(pagingAllocations.Repr) && fresh(eptHookAllocations.Repr)
    {
      pagingAllocations := new AllocationList();
      eptHookAllocations := new AllocationList();
      allocationRequests := new RequestList<AllocationType>(SplitPage);
      freeRequests := new RequestList<Block>(NO_BLOCK);
      memory := map[];
    }

    /** The constructor's loop; `addresses` are what the operating system returns. */
    method AllocateInitial(addresses: nat -> Option<nat>, rounds: nat)
      requires Valid() && Model() == EmptyPool()
      modifies `memory, pagingAllocations.Repr, eptHookAllocations.Repr
      ensures Valid() && Model() == InitialPool(addresses, rounds)
    {
      for i := 0 to rounds
        invariant Valid() && Model() == InitialPool(addresses, i)
        invariant fresh(pagingAllocations.Repr - old(pagingAllocations.Repr))
        invariant fresh(eptHookAllocations.Repr - old(eptHookAllocations.Repr))
      {
        AllocatePair(addresses(2 * i), addresses(2 * i + 1));
      }
    }

    method AllocatePair(first: Option<nat>, second: Option<nat>)
      requires Valid()
      modifies `memory, pagingAllocations.Repr, eptHookAllocations.Repr
      ensures Valid() && fresh(pagingAllocations.Repr - old(pagingAllocations.Repr))
      ensures fresh(eptHookAllocations.Repr - old(eptHookAllocations.Repr))
      ensures Model() == GrownTwice(old(Model()), first, second)
    {
      var _ := AllocateInternal(SplitPage, true, first);
      var _ := AllocateInternal(EptHookPage, true, second);
    }

    method FindFreeSlot(kind: AllocationType) returns (address: Option<nat>)
      requires Valid()
      modifies pagingAllocations.Repr, eptHookAllocations.Repr
      ensures Valid() && (Model(), address) == Found(old(Model()), kind)
    {
      if kind == SplitPage {
        address := pagingAllocations.ClaimUnused();
      } else {
        address := eptHookAllocations.ClaimUnused();
      }
    }

    /** Two allocations of the operating system: the slot's own record and the zeroed block. */
    method AllocateInternal(kind: AllocationType, recordAllocated: bool, address: Option<nat>) returns (ok: bool)
      requires Valid()
      modifies `memory, pagingAllocations.Repr, eptHookAllocations.Repr
      ensures Valid() && fresh(pagingAllocations.Repr - old(pagingAllocations.Repr))
      ensures fresh(eptHookAllocations.Repr - old(eptHookAllocations.Repr))
      ensures Model() == Grown(old(Model()), kind, if recordAllocated then address else None)
      ensures ok <==> recordAllocated && address.Some?
    {
      if !recordAllocated || address.None? {
        return false;
      }
      if kind == SplitPage {
        pagingAllocations.Append(Block(address.value, kind));
      } else {
        eptHookAllocations.Append(Block(address.value, kind));
      }
      memory := memory[address.value := Zeros(SizeOf(kind))];
      return true;
    }

    method FreeInternal(b: Block)
      requires Valid()
      modifies `memory, pagingAllocations.Repr, eptHookAllocations.Repr
      ensures Valid() && Model() == Released(old(Model()), b)
      ensures pagingAllocations.Repr == old(pagingAllocations.Repr)
      ensures eptHookAllocations.Repr == old(eptHookAllocations.Repr)
    {
      var found;
      if b.kind == SplitPage {
        found := pagingAllocations.ReleaseAt(b.address);
      } else {
        found := eptHookAllocations.ReleaseAt(b.address);
      }
      if found {
        memory := memory[b.address := Zeros(SizeOf(b.kind))];
      }
    }

    /** One round of the allocation thread. */
    method ProcessAllocationOnce(recordAllocated: bool, address: Option<nat>)
      requires Valid()
      modifies `memory, pagingAllocations.Repr, eptHookAllocations.Repr, allocationRequests, allocationRequests.requests
      ensures Valid()
      ensures !HasRequest(old(Model()).allocationRequests) ==> Model() == old(Model())
      ensures HasRequest(old(Model()).allocationRequests) ==>
        var (requests, kind) := Popped(old(Model()).allocationRequests, SplitPage);
        Model() == Grown(old(Model()).(allocationRequests := requests), kind, if recordAllocated then address else None)
    {
      var size := allocationRequests.GetListSize();
      if size == 0 {
        return;
      }
      var kind := allocationRequests.Pop();
      var _ := AllocateInternal(kind, recordAllocated, address);
    }

    /** One round of the free thread; the popped block's address is never null. */
    method ProcessFreeOnce()
      requires Valid()
      modifies `memory, pagingAllocations.Repr, eptHookAllocations.Repr, freeRequests, freeRequests.requests
      ensures Valid()
      ensures pagingAllocations.Repr == old(pagingAllocations.Repr)
      ensures eptHookAllocations.Repr == old(eptHookAllocations.Repr)
      ensures !HasRequest(old(Model()).freeRequests) ==> Model() == old(Model())
      ensures HasRequest(old(Model()).freeRequests) ==> Model() == FreedOne(old(Model()))
    {
      var size := freeRequests.GetListSize();
      if size == 0 {
        return;
      }
      var b := freeRequests.Pop();
      if b.address != 0 {
        FreeInternal(b);
      }
    }

    /** The free thread's last loop, after it was told to stop. */
    method DrainFrees()
      requires Valid()
      modifies `memory, pagingAllocations.Repr, eptHookAllocations.Repr, freeRequests, freeRequests.requests
      ensures Valid() && Model() == Drained(old(Model()))
      ensures !HasRequest(Model().freeRequests)
    {
      ghost var target := Drained(Model());
      var size := freeRequests.GetListSize();
      while size > 0
        invariant Valid() && Drained(Model()) == target
        invariant size == UsedCount(Model().freeRequests) && (size == 0 <==> !HasRequest(Model().freeRequests))
        invariant pagingAllocations.Repr == old(pagingAllocations.Repr)
        invariant eptHookAllocations.Repr == old(eptHookAllocations.Repr)
        decreases size
      {
        DrainedStep(Model());
        ProcessFreeOnce();
        size := freeRequests.GetListSize();
      }
      DrainedStep(Model());
    }
  }
}
