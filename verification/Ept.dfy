/** The Ept class (Ept.cpp): one processor's paging structures and hooked pages, changed in
    place. Every method is verified against the functions of PageTables and HookProtocol.

    What the pool and the operating system answer comes in as parameters: the blocks the two
    pool allocations return, and the physical address of the target page. What is given back to
    the pool comes out as results. */
module Ept {
  import opened Wrappers
  import opened Mtrr
  import opened PageTables
  import opened HookProtocol
  import opened IntrusiveList
  import opened Vmcs
  import EventInjection
  import ExitProtocol

  /** A SPLIT block: its physical page and its 512 entries. */
  datatype SplitBuffer = SplitBuffer(page: nat, pml1: array<Pte>)

  /** A HOOK block: its address and the record it holds. */
  datatype RecordBuffer = RecordBuffer(address: nat, entry: ListEntry<Hook>)

  datatype ConstructOutcome = Ready | NoMemory | NullDereference

  /** How making a new Ept ends: with the object, with one of the two exceptions the constructor
      raises, or with the null page table dereferenced. */
  datatype CreateOutcome = Created | InsufficientResources | NotSupported | Crashed

  /** What the EPT capability register reports. */
  datatype Capabilities = Capabilities(pageWalkLength4: bool, memoryTypeWriteBack: bool, pde2MbPages: bool)

  predicate CheckFeatures(c: Capabilities, registers: Registers) {
    c.pageWalkLength4 && c.memoryTypeWriteBack && c.pde2MbPages && registers.enabled
  }

  /** The VmState fields of one processor that the exit path reads and writes. */
  class VmState {
    var isOnVmxRoot: bool
    var isLaunched: bool
    var hookedPage: ListEntry?<Hook>
    var vmxoff: VmxoffState

    constructor ()
      ensures !isOnVmxRoot && !isLaunched && hookedPage == null && !vmxoff.executed
    {
      isOnVmxRoot, isLaunched, hookedPage, vmxoff := false, false, null, VmxoffState(false, 0, 0);
    }
  }

  function RecordAddress(r: Option<RecordBuffer>): Option<nat> {
    if r.None? then None else Some(r.value.address)
  }

  ghost function RecordObjects(r: Option<RecordBuffer>): set<object> {
    if r.None? then {} else {r.value.entry}
  }

  ghost function SplitObjects(b: Option<SplitBuffer>): set<object> {
    if b.None? then {} else {b.value.pml1}
  }

  function BufferPage(b: Option<SplitBuffer>): Option<nat> {
    if b.None? then None else Some(b.value.page)
  }

  class Ept {
    const mtrr: MtrrMap
    const hookedPages: ListHead<Hook>
    const base: nat
    const pml4: array<Pointer>
    const pml3: array<Pointer>
    const pml2: array<Pde>
    // What GetVirtualAddress answers for the physical page of a split table.
    var splits: map<nat, array<Pte>>

    // The objects the hook operations change besides the fields above.
    ghost var Repr: set<object>
    // What the memory ranges say; they never change after construction.
    ghost var memoryMap: MemoryMap
    // The left inverse of `splits`: no two pages share a table.
    ghost var pageOf: map<array<Pte>, nat>
    // The state as a value; Valid() ties it to the tables and the list.
    ghost var model: EptState

    ghost predicate Structure()
      reads this, mtrr, mtrr.memoryRanges, Repr
    {
      && mtrr.Valid() && mtrr.Map() == memoryMap && this !in Repr && mtrr !in Repr && mtrr.memoryRanges !in Repr
      && {pml4, pml3, pml2, hookedPages, hookedPages.head} <= Repr
      && pml4.Length == 512 && pml3.Length == 512 && pml4 != pml3 && pml2.Length == LARGE_PAGES
      && (forall f | f in splits ::
            splits[f] in Repr && splits[f].Length == 512 && splits[f] in pageOf && pageOf[splits[f]] == f)
      && (forall e | e in hookedPages.entries :: e in Repr)
      && hookedPages.Valid()
    }

    ghost function Paging(): (t: Tables)
      requires Structure()
      reads this, mtrr, mtrr.memoryRanges, Repr
      ensures WellSized(t) && t.pml1.Keys == splits.Keys
    {
      Tables(base, pml4[..], pml3[..], pml2[..], map f | f in splits :: splits[f][..])
    }

    ghost predicate Valid()
      reads this, mtrr, mtrr.memoryRanges, Repr
      ensures Valid() ==> WellFormed(model) && Structure() && |model.hooks| == |hookedPages.entries|
    {
      && Structure()
      && model == EptState(Paging(), hookedPages.records)
      && WellFormed(model)
    }

    // ----- Construction -----

    /** The memory-type map is built from the registers, the list is empty; the page table is not
        set up yet. */
    constructor (base: nat, registers: Registers)
      requires ReadableRegisters(registers)
      ensures Structure() && this.base == base && splits == map[] && hookedPages.entries == []
      ensures fresh(mtrr) && fresh(mtrr.memoryRanges) && fresh(Repr)
      ensures memoryMap == BuiltMap(registers)
    {
      this.base := base;
      pml4 := new Pointer[512](_ => NOT_PRESENT);
      pml3 := new Pointer[512](_ => NOT_PRESENT);
      pml2 := new Pde[LARGE_PAGES](_ => Table(NOT_PRESENT));
      hookedPages := new ListHead<Hook>();
      mtrr := new MtrrMap(registers);
      memoryMap := BuiltMap(registers);
      splits, pageOf := map[], map[];
      new;
      Repr := {pml4, pml3, pml2, hookedPages, hookedPages.head};
      assert mtrr !in Repr && mtrr.memoryRanges !in Repr && mtrr.Map() == memoryMap;
      assert hookedPages.Valid() && hookedPages.entries == [];
      assert pml4 != pml3 && Structure();
    }

    /** The zeroed PML4 with its one present entry, and the 512 PML3 entries. */
    method SetupUpper()
      requires Structure()
      modifies pml4, pml3
      ensures Structure() && pml4[..] == IdentityTables(memoryMap, base).pml4
      ensures pml3[..] == IdentityTables(memoryMap, base).pml3
    {
      for i := 0 to 512
        invariant forall j | 0 <= j < i :: pml4[j] == NOT_PRESENT
      {
        pml4[i] := NOT_PRESENT;
      }
      pml4[0] := Pointer(true, true, true, base + 1);
      assert pml4[..] == IdentityTables(memoryMap, base).pml4;
      for i := 0 to 512
        invariant pml4[..] == IdentityTables(memoryMap, base).pml4
        invariant forall j | 0 <= j < i :: pml3[j] == FullAccess(0)
      {
        pml3[i] := Pointer(true, true, true, 0);
      }
      for i := 0 to 512
        invariant pml4[..] == IdentityTables(memoryMap, base).pml4
        invariant forall j | 0 <= j < i :: pml3[j] == FullAccess(base + 2 + j)
        invariant forall j | i <= j < 512 :: pml3[j] == FullAccess(0)
      {
        pml3[i] := pml3[i].(frame := base + 2 + i);
      }
    }

    /** The entry of large page `pageFrameNumber`, written through a pointer into the new table.
        Splitting would go through eptPageTable, which is still null. */
    method SetupPml2Entry(pageFrameNumber: nat, splitAllocated: bool) returns (outcome: ConstructOutcome)
      requires Structure() && pageFrameNumber < LARGE_PAGES
      requires pml2[pageFrameNumber] == Large(Pte(true, true, true, 0, false, 0, false))
      modifies pml2
      ensures Structure()
      ensures forall j | 0 <= j < LARGE_PAGES && j != pageFrameNumber :: pml2[j] == old(pml2[j])
      ensures outcome.Ready? <==> pageFrameNumber == 0 || ValidForLargePage(memoryMap, pageFrameNumber)
      ensures outcome.Ready? ==> pml2[pageFrameNumber] == Large(LargeEntry(memoryMap, pageFrameNumber))
      ensures outcome.NullDereference? ==> splitAllocated
      ensures outcome.NoMemory? ==> !splitAllocated
    {
      pml2[pageFrameNumber] := Large(pml2[pageFrameNumber].page.(frame := pageFrameNumber));
      var valid := mtrr.IsValidForLargePage(pageFrameNumber);
      if valid {
        var memoryType := mtrr.GetMemoryType(pageFrameNumber, true);
        pml2[pageFrameNumber] := Large(pml2[pageFrameNumber].page.(memoryType := memoryType % 8));
        return Ready;
      }
      if pageFrameNumber == 0 {
        pml2[pageFrameNumber] := Large(pml2[pageFrameNumber].page.(memoryType := MEMORY_TYPE_UNCACHEABLE));
        return Ready;
      }
      return if splitAllocated then NullDereference else NoMemory;
    }

    /** The PML2 template in every slot, then each slot set up in order. */
    method SetupPml2(splitAllocated: bool) returns (outcome: ConstructOutcome)
      requires Structure()
      modifies pml2
      ensures Structure()
      ensures outcome.Ready? <==> forall k | 0 < k < LARGE_PAGES :: ValidForLargePage(memoryMap, k)
      ensures outcome.NullDereference? ==> splitAllocated
      ensures outcome.NoMemory? ==> !splitAllocated
      ensures outcome.Ready? ==> pml2[..] == IdentityTables(memoryMap, base).pml2
    {
      var template := Large(Pte(true, true, true, 0, false, 0, false));
      for i := 0 to LARGE_PAGES
        invariant forall j | 0 <= j < i :: pml2[j] == template
      {
        pml2[i] := template;
      }
      for group := 0 to 512
        invariant Structure()
        invariant forall j | 0 <= j < group * 512 :: pml2[j] == Large(LargeEntry(memoryMap, j))
        invariant forall j | group * 512 <= j < LARGE_PAGES :: pml2[j] == template
        invariant forall k | 0 < k < group * 512 :: ValidForLargePage(memoryMap, k)
      {
        for i := 0 to 512
          invariant Structure()
          invariant forall j | 0 <= j < group * 512 + i :: pml2[j] == Large(LargeEntry(memoryMap, j))
          invariant forall j | group * 512 + i <= j < LARGE_PAGES :: pml2[j] == template
          invariant forall k | 0 < k < group * 512 + i :: ValidForLargePage(memoryMap, k)
        {
          outcome := SetupPml2Entry(group * 512 + i, splitAllocated);
          if !outcome.Ready? {
            return;
          }
        }
      }
      outcome := Ready;
    }

    /** Builds the identity map. It is ready exactly when the table can be allocated and no large
        page but page 0 straddles a memory range; at the first page that does, the construction
        runs out of pool blocks or dereferences the page table that is not set yet. */
    method AllocateAndCreateIdentityPageTable(
        tableAllocated: bool, splitAllocated: bool)
      returns (outcome: ConstructOutcome)
      requires Structure() && splits == map[] && hookedPages.entries == []
      modifies `model, pml4, pml3, pml2
      ensures Structure()
      ensures outcome.Ready? <==>
        tableAllocated && forall k | 0 < k < LARGE_PAGES :: ValidForLargePage(memoryMap, k)
      ensures outcome.NullDereference? ==> tableAllocated && splitAllocated
      ensures outcome.NoMemory? ==> !tableAllocated || !splitAllocated
      ensures outcome.Ready? ==> Valid() && model == EptState(IdentityTables(memoryMap, base), [])
    {
      if !tableAllocated {
        return NoMemory;
      }
      SetupUpper();
      outcome := SetupPml2(splitAllocated);
      model := EptState(IdentityTables(memoryMap, base), []);
      assert Paging().pml1 == map[];
    }

    // ----- Entries -----

    method GetPml2Entry(physicalAddress: nat) returns (position: Option<nat>)
      requires Valid()
      ensures position == if Pml4Index(physicalAddress) > 0 then None else Some(Pml2Position(physicalAddress))
    {
      if Pml4Index(physicalAddress) > 0 {
        return None;
      }
      return Some(Pml3Index(physicalAddress) * 512 + Pml2Index(physicalAddress));
    }

    method GetPml1Entry(physicalAddress: nat) returns (r: Option<EntryRef>)
      requires Valid()
      ensures r == Pml1Ref(model.tables, physicalAddress)
    {
      if Pml4Index(physicalAddress) > 0 {
        return None;
      }
      var entry := pml2[Pml3Index(physicalAddress) * 512 + Pml2Index(physicalAddress)];
      match entry {
        case Large(_) => return None;
        case Table(p) =>
          if p.frame !in splits {
            return None;
          }
          return Some(EntryRef(p.frame, Pml1Index(physicalAddress)));
      }
    }

    /** SetPML1AndInvalidateTLB: the write is visible at once. */
    method SetPml1(r: EntryRef, value: Pte)
      requires Valid() && r.table in splits && r.index < 512
      modifies splits[r.table], `model
      ensures Valid() && model == old(model).(tables := WriteEntry(old(model.tables), r, value))
    {
      splits[r.table][r.index] := value;
      model := model.(tables := WriteEntry(model.tables, r, value));
      assert Paging().pml1[r.table] == model.tables.pml1[r.table];
      assert Paging().pml1 == model.tables.pml1;
    }

    /** A buffer that is no table yet. */
    ghost predicate Linkable(buffer: SplitBuffer)
      reads this
    {
      && buffer.pml1.Length == 512 && buffer.page !in splits
      && buffer.pml1 !in Repr && buffer.pml1 as object != mtrr.memoryRanges
    }

    /** A record block that is not linked in. */
    ghost predicate Insertable(record: RecordBuffer)
      reads this
    {
      record.entry !in Repr
    }

    /** A filled buffer becomes a table, which no PML2 slot leads to yet. */
    method AddTable(buffer: SplitBuffer)
      requires Valid() && Linkable(buffer)
      modifies `splits, `pageOf, `Repr, `model
      ensures Valid() && splits == old(splits)[buffer.page := buffer.pml1] && Repr == old(Repr) + {buffer.pml1}
      ensures model == old(model).(tables :=
        old(model.tables).(pml1 := old(model.tables).pml1[buffer.page := buffer.pml1[..]]))
    {
      splits := splits[buffer.page := buffer.pml1];
      pageOf := pageOf[buffer.pml1 := buffer.page];
      Repr := Repr + {buffer.pml1};
      assert Structure();
      model := model.(tables := model.tables.(pml1 := model.tables.pml1[buffer.page := buffer.pml1[..]]));
      assert Paging().pml1 == model.tables.pml1;
    }

    /** Points a PML2 slot at a filled split table. */
    method LinkSplit(position: nat, buffer: SplitBuffer)
      requires Valid() && position < LARGE_PAGES && Linkable(buffer)
      modifies `splits, `pageOf, `Repr, `model, pml2
      ensures Valid() && splits == old(splits)[buffer.page := buffer.pml1] && Repr == old(Repr) + {buffer.pml1}
      ensures model == old(model).(tables := old(model.tables).(
          pml2 := old(model.tables).pml2[position := Table(FullAccess(buffer.page))],
          pml1 := old(model.tables).pml1[buffer.page := buffer.pml1[..]]))
    {
      AddTable(buffer);
      pml2[position] := Table(Pointer(true, true, true, buffer.page));
      model := model.(tables := model.tables.(
        pml2 := model.tables.pml2[position := Table(FullAccess(buffer.page))]));
      assert Paging().pml1 == model.tables.pml1;
    }

    method SplitLargePage(buffer: Option<SplitBuffer>, physicalAddress: nat) returns (ok: bool, bufferFreed: bool)
      requires Valid() && (buffer.Some? ==> Linkable(buffer.value))
      modifies `splits, `pageOf, `Repr, `model, pml2, SplitObjects(buffer)
      ensures Valid()
      ensures Repr == old(Repr) || Repr == old(Repr) + SplitObjects(buffer)
      ensures buffer.None? ==> !ok && !bufferFreed && model == old(model)
      ensures buffer.Some? ==>
        var o := Split(old(model.tables), memoryMap, buffer.value.page, physicalAddress);
        && o.ok == ok && o.bufferFreed == bufferFreed
        && model == old(model).(tables := o.tables)
    {
      if buffer.None? {
        return false, false;
      }
      var position := GetPml2Entry(physicalAddress);
      if position.None? {
        return false, false;
      }
      if pml2[position.value].Table? {
        return true, true;
      }
      FillSplit(buffer.value.pml1, pml2[position.value].page);
      LinkSplit(position.value, buffer.value);
      return true, false;
    }

    /** The template is stored into every entry, then each gets its own frame and memory type. */
    method FillSplit(pml1: array<Pte>, page: Pte)
      requires mtrr.Valid() && pml1.Length == 512 && pml1 as object != mtrr.memoryRanges
      modifies pml1
      ensures pml1[..] == SplitEntries(mtrr.Map(), page)
    {
      ghost var target := SplitEntries(mtrr.Map(), page);
      var template := Pte(true, true, true, page.memoryType, page.ignorePat, 0, page.suppressVe);
      for i := 0 to 512
        invariant forall j | 0 <= j < i :: pml1[j] == template
      {
        pml1[i] := template;
      }
      for i := 0 to 512
        invariant forall j | 0 <= j < i :: pml1[j] == target[j]
        invariant forall j | i <= j < 512 :: pml1[j] == template
      {
        var frame := page.frame * SIZE_2_MB / PAGE_SIZE + i;
        pml1[i] := pml1[i].(frame := frame);
        var memoryType := mtrr.GetMemoryType(frame, false);
        pml1[i] := pml1[i].(memoryType := memoryType % 8);
      }
    }

    // ----- The hooked-page list -----

    lemma EntriesInRepr(entries: seq<ListEntry<Hook>>, k: nat)
      requires k < |entries| && forall e | e in entries :: e in Repr
      ensures forall e | e in entries[..k] + entries[k + 1..] :: e in Repr
    {
    }

    lemma RingInRepr()
      requires Valid()
      ensures forall x | x in hookedPages.Ring() :: x in Repr
    {
    }

    /** The head links to itself exactly when the list is empty. */
    lemma FlinkOfHead()
      requires Valid()
      ensures hookedPages.head.flink == if model.hooks == [] then hookedPages.head else hookedPages.entries[0]
      ensures hookedPages.head !in hookedPages.entries && hookedPages.head.flink in Repr
    {
      assert hookedPages.Ring()[0].flink == hookedPages.Ring()[1];
    }

    method GetHookedPage(guestVirtualAddress: nat) returns (found: ListEntry?<Hook>)
      requires Valid()
      ensures var i := IndexOfVirtual(model.hooks, PageAlign(guestVirtualAddress));
        if i == |model.hooks| then found == null else found == hookedPages.entries[i]
    {
      var aligned := PageAlign(guestVirtualAddress);
      ghost var ring, hooks := hookedPages.Ring(), model.hooks;
      var entry := hookedPages.head;
      ghost var i := 0;
      assert ring[0].flink == ring[1];
      while hookedPages.head != entry.flink
        invariant 0 <= i <= |hooks| && entry == ring[i] && entry.flink == ring[i + 1]
        invariant forall j | 0 <= j < i :: hooks[j].virtualAddress != aligned
        decreases |hooks| - i
      {
        entry := entry.flink;
        assert entry == hookedPages.entries[i] && entry.record == Some(hooks[i]);
        assert ring[i + 1].flink == ring[i + 2];
        if entry.record.value.virtualAddress == aligned {
          assert IndexOfVirtual(hooks, aligned) == i;
          return entry;
        }
        i := i + 1;
      }
      return null;
    }

    /** The hook record of a request, linked in at the head. */
    method InsertRecord(record: RecordBuffer, h: Hook)
      requires Valid() && h.entry.table in splits && h.entry.index < 512
      requires Insertable(record)
      modifies `model, `Repr, record.entry, Repr
      ensures Valid() && model == old(model).(hooks := [h] + old(model).hooks) && Repr == old(Repr) + {record.entry}
    {
      FlinkOfHead();
      Repr := Repr + {record.entry};
      model := model.(hooks := [h] + model.hooks);
      hookedPages.FillAndInsertHead(record.entry, h);
      assert Paging().pml1 == model.tables.pml1;
    }

    /** The part of RootModePageHook after the split: finds the entry, fills the record in, links
        it and writes the restricted entry. */
    method HookEntry(r: HookRequest, record: Option<RecordBuffer>) returns (ok: bool)
      requires Valid() && r.record == RecordAddress(record)
      requires record.Some? ==> Insertable(record.value)
      modifies `model, `Repr, Repr, RecordObjects(record)
      ensures Valid() && Repr <= old(Repr) + RecordObjects(record)
      ensures (model, ok) == HookedEntry(old(model), r)
    {
      var pml1Entry := GetPml1Entry(r.physical);
      if pml1Entry.None? || record.None? {
        return false;
      }
      var ref := pml1Entry.value;
      ghost var before := model.tables;
      var original := splits[ref.table][ref.index];
      assert original == ReadEntry(before, ref);
      var changed := RestrictAccess(original, r.permissions);
      InsertRecord(record.value, Hook(record.value.address, PageAlign(r.targetFunc), r.physical,
                                      PageAlign(r.physical), ref, original, changed));
      SetPml1(ref, changed);
      return true;
    }

    /** The checks RootModePageHook makes before it allocates. */
    method PassesChecks(r: HookRequest) returns (outcome: Option<bool>)
      requires Valid()
      ensures outcome.Some? ==>
        HookProtocol.RootModePageHook(memoryMap, model, r) == HookOutcome(model, outcome.value, [])
      ensures outcome.None? ==> Allocates(model, r)
    {
      if r.onVmxRoot && !r.launched {
        return Some(false);
      }
      if And(r.permissions, EPT_PAGE_WRITE) != 0 && !(And(r.permissions, EPT_PAGE_READ) != 0) {
        return Some(false);
      }
      var existing := GetHookedPage(PageAlign(r.targetFunc));
      if existing != null {
        return Some(true);
      }
      if r.physical == 0 {
        return Some(false);
      }
      return None;
    }

    /** The part of RootModePageHook after the first allocation. */
    method HookAllocated(r: HookRequest, splitBuffer: SplitBuffer, record: Option<RecordBuffer>)
      returns (ok: bool, freed: seq<nat>)
      requires Valid() && r.record == RecordAddress(record) && Linkable(splitBuffer)
      requires record.Some? ==> Insertable(record.value)
      modifies `splits, `pageOf, `Repr, `model, Repr, splitBuffer.pml1, RecordObjects(record)
      ensures Valid() && Repr <= old(Repr) + {splitBuffer.pml1} + RecordObjects(record)
      ensures var o := HookWithBuffer(memoryMap, old(model), r, splitBuffer.page);
        ok == o.ok && freed == o.freed && model == o.state
    {
      ghost var before := model;
      var split, bufferFreed := SplitLargePage(Some(splitBuffer), r.physical);
      if !split {
        return false, [splitBuffer.page];
      }
      freed := if bufferFreed then [splitBuffer.page] else [];
      assert model == before.(tables := Split(before.tables, memoryMap, splitBuffer.page, r.physical).tables);
      ok := HookEntry(r, record);
      if !ok {
        freed := freed + [splitBuffer.page];
      }
    }

    method RootModePageHook(r: HookRequest, splitBuffer: Option<SplitBuffer>, record: Option<RecordBuffer>)
      returns (ok: bool, freed: seq<nat>)
      requires Valid() && r.record == RecordAddress(record) && r.splitBuffer == BufferPage(splitBuffer)
      requires splitBuffer.Some? ==> Linkable(splitBuffer.value)
      requires record.Some? ==> Insertable(record.value)
      modifies `splits, `pageOf, `Repr, `model, Repr, SplitObjects(splitBuffer), RecordObjects(record)
      ensures Valid() && Repr <= old(Repr) + SplitObjects(splitBuffer) + RecordObjects(record)
      ensures var o := HookProtocol.RootModePageHook(memoryMap, old(model), r);
        ok == o.ok && freed == o.freed && model == o.state
    {
      var checked := PassesChecks(r);
      if checked.Some? {
        return checked.value, [];
      }
      if splitBuffer.None? {
        return false, [];
      }
      ok, freed := HookAllocated(r, splitBuffer.value, record);
    }

    // ----- Unhooking -----

    method UnlinkRecord(e: ListEntry<Hook>, ghost k: nat)
      requires Valid() && k < |hookedPages.entries| && hookedPages.entries[k] == e
      modifies `model, Repr
      ensures Valid() && e.record == old(e.record)
      ensures hookedPages.entries == old(hookedPages.entries[..k] + hookedPages.entries[k + 1..])
      ensures model == old(model).(hooks := old(model).hooks[..k] + old(model).hooks[k + 1..])
    {
      RingInRepr();
      ghost var ring := hookedPages.Ring();
      assert ring[k + 1] == e && ring[k + 1].flink == ring[k + 2] && ring[k + 1].blink == ring[k];
      hookedPages.Remove(e, k);
      EntriesInRepr(old(hookedPages.entries), k);
      model := model.(hooks := model.hooks[..k] + model.hooks[k + 1..]);
      assert Structure();
      assert forall f | f in splits :: splits[f][..] == old(splits[f][..]);
      assert Paging().pml1 == model.tables.pml1;
    }

    /** Writes the original entry of the k-th record back and unlinks the record. */
    method RemoveRecord(e: ListEntry<Hook>, ghost k: nat) returns (freed: nat)
      requires Valid() && k < |hookedPages.entries| && hookedPages.entries[k] == e
      modifies `model, Repr
      ensures Valid()
      ensures hookedPages.entries == old(hookedPages.entries[..k] + hookedPages.entries[k + 1..])
      ensures e.record == old(e.record) && Some(freed) == old(Some(model.hooks[k].record))
      ensures var s := old(model);
        model == EptState(WriteEntry(s.tables, s.hooks[k].entry, s.hooks[k].original), s.hooks[..k] + s.hooks[k + 1..])
    {
      var h := e.record.value;
      assert h == model.hooks[k];
      SetPml1(h.entry, h.original);
      UnlinkRecord(e, k);
      freed := h.record;
    }

    /** In root mode: the found record is unhooked and handed back to the pool. */
    method PageUnhookVmcall(guest: VmState, guestVirtualAddress: nat) returns (ok: bool, freed: Option<nat>)
      requires Valid() && guest !in Repr
      modifies `model, Repr
      ensures Valid()
      ensures !guest.isOnVmxRoot ==> !ok && freed.None? && model == old(model)
      ensures guest.isOnVmxRoot ==>
        (model, freed) == PageUnhook(old(model), guestVirtualAddress) && (ok <==> freed.Some?)
    {
      if !guest.isOnVmxRoot {
        return false, None;
      }
      var hookedEntry := GetHookedPage(guestVirtualAddress);
      if hookedEntry == null {
        return false, None;
      }
      ghost var i := IndexOfVirtual(model.hooks, PageAlign(guestVirtualAddress));
      var record := RemoveRecord(hookedEntry, i);
      return true, Some(record);
    }

    /** One round of the unhook-all loop: the first record goes, its successor comes next. */
    method RemoveFirst(entry: ListEntry?<Hook>) returns (nextEntry: ListEntry?<Hook>, freed: nat)
      requires Valid() && entry == hookedPages.head.flink && entry != hookedPages.head
      modifies `model, Repr
      ensures Valid() && nextEntry == hookedPages.head.flink
      ensures old(model).hooks != []
      ensures |model.hooks| == |old(model.hooks)| - 1
      ensures UnhookAllPages(model) == UnhookAllPages(old(model))
      ensures [freed] + RecordsOf(model.hooks) == RecordsOf(old(model.hooks))
    {
      FlinkOfHead();
      UnhookFirst(model);
      ghost var ring := hookedPages.Ring();
      assert ring[1].flink == ring[2] && ring[1] == entry;
      nextEntry := entry.flink;
      freed := RemoveRecord(entry, 0);
      FlinkOfHead();
    }

    /** Removes the first record until the list is empty; the blocks come back in list order. */
    method RemoveAll() returns (freed: seq<nat>)
      requires Valid()
      modifies `model, Repr
      ensures Valid()
      ensures model == UnhookAllPages(old(model)) && freed == RecordsOf(old(model).hooks)
    {
      freed := [];
      var entry := hookedPages.head.flink;
      while entry != hookedPages.head
        invariant Valid() && entry == hookedPages.head.flink
        invariant UnhookAllPages(model) == UnhookAllPages(old(model))
        invariant freed + RecordsOf(model.hooks) == RecordsOf(old(model).hooks)
        decreases |model.hooks|
      {
        var record;
        entry, record := RemoveFirst(entry);
        freed := freed + [record];
      }
      FlinkOfHead();
    }

    method UnhookAllPagesVmcall(guest: VmState) returns (ok: bool, freed: seq<nat>)
      requires Valid() && guest !in Repr
      modifies `model, Repr
      ensures Valid()
      ensures ok <==> guest.isOnVmxRoot
      ensures !ok ==> freed == [] && model == old(model)
      ensures ok ==> model == UnhookAllPages(old(model)) && freed == RecordsOf(old(model).hooks)
    {
      if !guest.isOnVmxRoot {
        return false, [];
      }
      freed := RemoveAll();
      return true, freed;
    }

    // ----- Violations and the monitor trap -----

    /** Opens the entry when the access comes from the kernel image, and pends a page fault
        otherwise; an access the entry permits is not handled. */
    method HandleHookedPage(
        h: Hook, q: Qualification, guestLinearAddress: U64, guestRip: U64, kernel: KernelImage, vmcs: Vmcs)
      returns (handled: bool, restoreHookAfterInstruction: bool)
      requires Valid() && h.entry.table in splits && h.entry.index < 512
      requires vmcs.inVmxOperation && vmcs !in Repr
      modifies `model, splits[h.entry.table], vmcs
      ensures Valid() && vmcs.inVmxOperation && vmcs.faulted == old(vmcs.faulted)
      ensures handled <==> DeniedByEntry(q)
      ensures restoreHookAfterInstruction <==> handled && IsAccessFromKernelImage(kernel, guestRip)
      ensures model == if restoreHookAfterInstruction
        then old(model).(tables := WriteEntry(old(model.tables), h.entry, h.original)) else old(model)
      ensures vmcs.fields == if handled && !restoreHookAfterInstruction
        then EventInjection.PageFaulted(old(vmcs.fields), PageFaultErrorCode(q)) else old(vmcs.fields)
      ensures vmcs.cr2 == if handled && !restoreHookAfterInstruction then guestLinearAddress else old(vmcs.cr2)
    {
      var operationAllowed := false;
      handled, restoreHookAfterInstruction := false, false;
      var fromKernelImage := IsAccessFromKernelImage(kernel, guestRip);
      ghost var before := model;
      var live := splits[h.entry.table][h.entry.index];
      if !q.eptExecutable && q.executeAccess {
        if fromKernelImage {
          SetPml1(h.entry, live.(execute := true));
          operationAllowed := true;
        }
        handled := true;
      } else if !q.eptWriteable && q.writeAccess {
        if fromKernelImage {
          SetPml1(h.entry, live.(write := true));
          operationAllowed := true;
        }
        handled := true;
      } else if !q.eptReadable && q.readAccess {
        if fromKernelImage {
          SetPml1(h.entry, live.(read := true));
          operationAllowed := true;
        }
        handled := true;
      }
      if operationAllowed {
        SetPml1(h.entry, h.original);
        OverwriteEntry(before.tables, h.entry, live.(execute := true), h.original);
        OverwriteEntry(before.tables, h.entry, live.(write := true), h.original);
        OverwriteEntry(before.tables, h.entry, live.(read := true), h.original);
        restoreHookAfterInstruction := true;
      } else if handled {
        EventInjection.InjectPageFault(vmcs, guestLinearAddress, PageFaultErrorCode(q));
      }
    }

    /** The list walk of HandlePageHookExit. */
    method FindByPhysical(aligned: nat) returns (found: ListEntry?<Hook>)
      requires Valid()
      ensures var i := IndexOfPhysical(model.hooks, aligned);
        if i == |model.hooks| then found == null
        else found == hookedPages.entries[i] && found.record == Some(model.hooks[i])
    {
      ghost var ring, hooks := hookedPages.Ring(), model.hooks;
      var currentEntry := hookedPages.head;
      ghost var i := 0;
      assert ring[0].flink == ring[1];
      while currentEntry.flink != hookedPages.head
        invariant 0 <= i <= |hooks| && currentEntry == ring[i] && currentEntry.flink == ring[i + 1]
        invariant forall j | 0 <= j < i :: hooks[j].physicalBaseAddress != aligned
        decreases |hooks| - i
      {
        currentEntry := currentEntry.flink;
        assert currentEntry == hookedPages.entries[i] && currentEntry.record == Some(hooks[i]);
        assert ring[i + 1].flink == ring[i + 2];
        if currentEntry.record.value.physicalBaseAddress == aligned {
          assert IndexOfPhysical(hooks, aligned) == i;
          return currentEntry;
        }
        i := i + 1;
      }
      return null;
    }

    /** Handles an access to the page of a record; a grant is remembered and the monitor trap armed. */
    method HandleFoundPage(
        guest: VmState, hookedEntry: ListEntry<Hook>, h: Hook, q: Qualification, guestLinearAddress: U64,
        guestRip: U64, kernel: KernelImage, vmcs: Vmcs)
      returns (handled: bool)
      requires Valid() && vmcs.inVmxOperation && vmcs !in Repr && guest !in Repr
      requires h.entry.table in splits && h.entry.index < 512
      modifies `model, splits[h.entry.table], vmcs, guest`hookedPage
      ensures Valid() && vmcs.inVmxOperation && vmcs.faulted == old(vmcs.faulted)
      ensures handled <==> DeniedByEntry(q)
      ensures handled && IsAccessFromKernelImage(kernel, guestRip) ==>
        && model == old(model).(tables := WriteEntry(old(model.tables), h.entry, h.original))
        && guest.hookedPage == hookedEntry
        && vmcs.fields == old(vmcs.fields).(monitorTrapFlag := true) && vmcs.cr2 == old(vmcs.cr2)
      ensures !(handled && IsAccessFromKernelImage(kernel, guestRip)) ==>
        && model == old(model) && guest.hookedPage == old(guest.hookedPage)
        && vmcs.fields == (if handled then EventInjection.PageFaulted(old(vmcs.fields), PageFaultErrorCode(q))
                           else old(vmcs.fields))
        && vmcs.cr2 == if handled then guestLinearAddress else old(vmcs.cr2)
    {
      var restore;
      handled, restore := HandleHookedPage(h, q, guestLinearAddress, guestRip, kernel, vmcs);
      if restore {
        RestoreHookAfterInstruction(guest, hookedEntry, vmcs);
      }
    }

    /** Finds the record of the physical page and handles the access. */
    method HandlePageHookExit(
        guest: VmState, q: Qualification, guestPhysical: nat, guestLinearAddress: U64, guestRip: U64,
        kernel: KernelImage, vmcs: Vmcs)
      returns (handled: bool)
      requires Valid() && vmcs.inVmxOperation && vmcs !in Repr && guest !in Repr
      modifies `model, Repr, vmcs, guest`hookedPage
      ensures Valid() && vmcs.inVmxOperation && vmcs.faulted == old(vmcs.faulted)
      ensures var o :=
          HookProtocol.HandleEptViolation(old(model), q, guestPhysical, guestLinearAddress, guestRip, kernel);
        && handled == o.handled
        && model == old(model).(tables := o.tables)
        && (if o.grant.Some? then
              guest.hookedPage != null && guest.hookedPage in hookedPages.entries && guest.hookedPage.record == o.grant
            else guest.hookedPage == old(guest.hookedPage))
        && vmcs.fields == ExitProtocol.FieldsAfter(old(vmcs.fields), o)
        && vmcs.cr2 == if o.fault.Some? then o.fault.value.address else old(vmcs.cr2)
    {
      var aligned := PageAlign(guestPhysical);
      if aligned == 0 {
        return false;
      }
      var hookedEntry := FindByPhysical(aligned);
      if hookedEntry == null {
        return false;
      }
      ghost var i := IndexOfPhysical(model.hooks, aligned);
      assert model.hooks[i] == hookedEntry.record.value && model.hooks[i] in model.hooks;
      handled := HandleFoundPage(
        guest, hookedEntry, hookedEntry.record.value, q, guestLinearAddress, guestRip, kernel, vmcs);
    }

    method HandleEptViolation(
        guest: VmState, exitQualification: U64, guestPhysical: nat, kernel: KernelImage, vmcs: Vmcs)
      requires Valid() && vmcs.inVmxOperation && vmcs !in Repr && guest !in Repr
      modifies `model, Repr, vmcs, guest`hookedPage
      ensures Valid() && vmcs.inVmxOperation && vmcs.faulted == old(vmcs.faulted)
      ensures var o := HookProtocol.HandleEptViolation(
            old(model), DecodeQualification(exitQualification), guestPhysical,
            old(vmcs.fields).guestLinearAddress, old(vmcs.fields).guestRip, kernel);
        && model == old(model).(tables := o.tables)
        && (if o.grant.Some? then
              guest.hookedPage != null && guest.hookedPage in hookedPages.entries && guest.hookedPage.record == o.grant
            else guest.hookedPage == old(guest.hookedPage))
        && vmcs.fields == ExitProtocol.FieldsAfter(old(vmcs.fields), o)
        && vmcs.cr2 == if o.fault.Some? then o.fault.value.address else old(vmcs.cr2)
    {
      var linear := vmcs.Vmread();
      var rip := vmcs.Vmread();
      var _ := HandlePageHookExit(guest, DecodeQualification(exitQualification), guestPhysical,
                                  linear.guestLinearAddress, rip.guestRip, kernel, vmcs);
    }

    method RestoreHookAfterInstruction(guest: VmState, hookedEntry: ListEntry<Hook>, vmcs: Vmcs)
      requires Valid() && vmcs.inVmxOperation && vmcs !in Repr && guest !in Repr
      modifies vmcs`fields, vmcs`faulted, guest`hookedPage
      ensures Valid() && vmcs.faulted == old(vmcs.faulted) && guest.hookedPage == hookedEntry
      ensures vmcs.fields == old(vmcs.fields).(monitorTrapFlag := true)
    {
      guest.hookedPage := hookedEntry;
      vmcs.SetMonitorTrapFlag(true);
    }

    method HandleMonitorTrapFlag(hookedEntry: ListEntry<Hook>)
      requires Valid() && hookedEntry in hookedPages.entries
      modifies `model, Repr
      ensures Valid()
      ensures old(hookedEntry.record).Some? && old(hookedEntry.record).value in old(model.hooks)
      ensures var h := old(hookedEntry.record).value;
        model == old(model).(tables := WriteEntry(old(model.tables), h.entry, h.changed))
    {
      ghost var k :| 0 <= k < |hookedPages.entries| && hookedPages.entries[k] == hookedEntry;
      assert model.hooks[k] == hookedEntry.record.value;
      SetPml1(hookedEntry.record.value.entry, hookedEntry.record.value.changed);
    }
  }

  lemma OverwriteEntry(t: Tables, r: EntryRef, first: Pte, second: Pte)
    requires WellSized(t) && r.table in t.pml1 && r.index < 512
    ensures WriteEntry(WriteEntry(t, r, first), r, second) == WriteEntry(t, r, second)
  {
    assert t.pml1[r.table][r.index := first][r.index := second] == t.pml1[r.table][r.index := second];
  }

  /** A new Ept: the list head is allocated, the features are checked, then the memory map and the
      identity map are built. */
  method NewEpt(base: nat, registers: Registers, capabilities: Capabilities,
                listAllocated: bool, tableAllocated: bool, splitAllocated: bool)
    returns (ept: Ept?, outcome: CreateOutcome)
    requires ReadableRegisters(registers)
    ensures var c := capabilities;
      var supported := c.pageWalkLength4 && c.memoryTypeWriteBack && c.pde2MbPages && registers.enabled;
      var map2Mb := forall k | 0 < k < LARGE_PAGES :: ValidForLargePage(BuiltMap(registers), k);
      && (outcome.NotSupported? <==> listAllocated && !supported)
      && (outcome.Created? <==> listAllocated && supported && tableAllocated && map2Mb)
      && (outcome.Crashed? <==> listAllocated && supported && tableAllocated && !map2Mb && splitAllocated)
    ensures ept != null <==> outcome.Created?
    ensures ept != null ==>
      && fresh(ept) && fresh(ept.Repr) && ept.Valid() && ept.base == base
      && ept.memoryMap == BuiltMap(registers) && ept.model == EptState(IdentityTables(BuiltMap(registers), base), [])
  {
    if !listAllocated {
      return null, InsufficientResources;
    }
    if !CheckFeatures(capabilities, registers) {
      return null, NotSupported;
    }
    var made := new Ept(base, registers);
    var tables := made.AllocateAndCreateIdentityPageTable(tableAllocated, splitAllocated);
    match tables
    case Ready => return made, Created;
    case NoMemory => return null, InsufficientResources;
    case NullDereference => return null, Crashed;
  }
}
