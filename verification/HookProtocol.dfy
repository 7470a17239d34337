/** What each root-mode operation on the hooked pages of one processor does, as functions of
    its state (Ept.cpp: RootModePageHook, PageUnhookVmcall, UnhookAllPagesVmcall,
    HandleEptViolation, HandleMonitorTrapFlag). The Ept class is verified against these. */
module HookProtocol {
  import opened Wrappers
  import opened Mtrr
  import opened PageTables

  const EPT_PAGE_READ: nat := 1
  const EPT_PAGE_WRITE: nat := 2
  const EPT_PAGE_EXECUTE: nat := 4

  /** EPT_HOOKED_PAGE_DETAIL. `record` is the address of the record itself. */
  datatype Hook = Hook(
    record: nat, virtualAddress: nat, physicalAddress: nat, physicalBaseAddress: nat,
    entry: EntryRef, original: Pte, changed: Pte)

  datatype EptState = EptState(tables: Tables, hooks: seq<Hook>)

  ghost predicate WellFormed(s: EptState) {
    && WellSized(s.tables)
    && forall h | h in s.hooks :: h.entry.table in s.tables.pml1 && h.entry.index < 512
  }

  /** What RootModePageHook is called with, what the translation of the target page is, and
      what its two pool allocations return. */
  datatype HookRequest = HookRequest(
    onVmxRoot: bool, launched: bool, targetFunc: nat, permissions: nat, physical: nat,
    splitBuffer: Option<nat>, record: Option<nat>)

  datatype HookOutcome = HookOutcome(state: EptState, ok: bool, freed: seq<nat>)

  datatype Qualification = Qualification(
    readAccess: bool, writeAccess: bool, executeAccess: bool,
    eptReadable: bool, eptWriteable: bool, eptExecutable: bool, userModeLinearAddress: bool)

  datatype KernelImage = KernelImage(base: U64, size: U64)

  datatype PageFault = PageFault(address: U64, errorCode: nat)

  datatype ViolationOutcome = ViolationOutcome(
    tables: Tables, grant: Option<Hook>, fault: Option<PageFault>, handled: bool)

  function PageAlign(address: nat): (a: nat)
    ensures a <= address < a + PAGE_SIZE && a % PAGE_SIZE == 0
  {
    address - address % PAGE_SIZE
  }

  // ----- Permission bits -----

  /** `value & bit` for a single bit. */
  function And(value: nat, bit: nat): nat
    requires bit > 0
  {
    value / bit % 2 * bit
  }

  /** Storing a value into a one-bit field keeps its lowest bit. */
  function OneBit(value: nat): bool {
    value % 2 == 1
  }

  function RestrictAccess(e: Pte, permissions: nat): Pte {
    e.(read := OneBit(And(permissions, EPT_PAGE_READ)),
       write := OneBit(And(permissions, EPT_PAGE_WRITE)),
       execute := OneBit(And(permissions, EPT_PAGE_EXECUTE)))
  }

  /** The write and execute permissions are lost in the one-bit fields. */
  lemma RestrictAccessKeepsReadOnly(e: Pte, permissions: nat)
    ensures var r := RestrictAccess(e, permissions);
      && (r.read <==> And(permissions, EPT_PAGE_READ) != 0)
      && !r.write && !r.execute
  {
    assert And(permissions, EPT_PAGE_WRITE) == 2 * (permissions / 2 % 2);
    assert And(permissions, EPT_PAGE_EXECUTE) == 2 * (2 * (permissions / 4 % 2));
  }

  function Bit(flags: U64, weight: nat): bool
    requires weight > 0
  {
    flags / weight % 2 == 1
  }

  /** VMX_EXIT_QUALIFICATION_EPT_VIOLATION. */
  function DecodeQualification(q: U64): Qualification {
    Qualification(Bit(q, 1), Bit(q, 2), Bit(q, 4), Bit(q, 8), Bit(q, 16), Bit(q, 32), Bit(q, 512))
  }

  // ----- Searching the list -----

  function IndexOfVirtual(hooks: seq<Hook>, address: nat): (i: nat)
    ensures i <= |hooks|
    ensures i < |hooks| ==> hooks[i].virtualAddress == address
    ensures forall j | 0 <= j < i :: hooks[j].virtualAddress != address
  {
    if hooks == [] || hooks[0].virtualAddress == address then 0 else 1 + IndexOfVirtual(hooks[1..], address)
  }

  function IndexOfPhysical(hooks: seq<Hook>, address: nat): (i: nat)
    ensures i <= |hooks|
    ensures i < |hooks| ==> hooks[i].physicalBaseAddress == address
    ensures forall j | 0 <= j < i :: hooks[j].physicalBaseAddress != address
  {
    if hooks == [] || hooks[0].physicalBaseAddress == address then 0 else 1 + IndexOfPhysical(hooks[1..], address)
  }

  // ----- Operations -----

  /** The record filled in for a request whose entry is at `ref`. */
  function NewHook(t: Tables, r: HookRequest, ref: EntryRef): Hook
    requires WellSized(t) && ref.table in t.pml1 && ref.index < 512 && r.record.Some?
  {
    var original := ReadEntry(t, ref);
    Hook(r.record.value, PageAlign(r.targetFunc), r.physical, PageAlign(r.physical), ref,
         original, RestrictAccess(original, r.permissions))
  }

  /** InsertHeadList of a record and the write of its changed entry. */
  function InsertHook(s: EptState, h: Hook): (u: EptState)
    requires WellFormed(s) && h.entry.table in s.tables.pml1 && h.entry.index < 512
    ensures WellFormed(u)
  {
    EptState(WriteEntry(s.tables, h.entry, h.changed), [h] + s.hooks)
  }

  /** The request passes every check made before the first allocation. */
  predicate Allocates(s: EptState, r: HookRequest) {
    && !(r.onVmxRoot && !r.launched)
    && !(And(r.permissions, EPT_PAGE_WRITE) != 0 && And(r.permissions, EPT_PAGE_READ) == 0)
    && IndexOfVirtual(s.hooks, PageAlign(r.targetFunc)) == |s.hooks|
    && r.physical != 0
  }

  /** The request gets past its checks, its first allocation and its split: the address is below
      512 GB. Whether it succeeds then depends on the record alone. */
  predicate ReachesRecord(s: EptState, r: HookRequest) {
    Allocates(s, r) && r.splitBuffer.Some? && Pml4Index(r.physical) == 0
  }

  function RootModePageHook(m: MemoryMap, s: EptState, r: HookRequest): (o: HookOutcome)
    requires WellFormed(s)
    ensures WellFormed(o.state)
  {
    if r.onVmxRoot && !r.launched then HookOutcome(s, false, [])
    else if And(r.permissions, EPT_PAGE_WRITE) != 0 && And(r.permissions, EPT_PAGE_READ) == 0 then
      HookOutcome(s, false, [])
    else if IndexOfVirtual(s.hooks, PageAlign(r.targetFunc)) < |s.hooks| then HookOutcome(s, true, [])
    else if r.physical == 0 || r.splitBuffer.None? then HookOutcome(s, false, [])
    else HookWithBuffer(m, s, r, r.splitBuffer.value)
  }

  /** The part of RootModePageHook after the first allocation. */
  function HookWithBuffer(m: MemoryMap, s: EptState, r: HookRequest, buffer: nat): (o: HookOutcome)
    requires WellFormed(s)
    ensures WellFormed(o.state)
  {
    var split := Split(s.tables, m, buffer, r.physical);
    if !split.ok then HookOutcome(s, false, [buffer])
    else
      var freed := if split.bufferFreed then [buffer] else [];
      var (state, ok) := HookedEntry(s.(tables := split.tables), r);
      HookOutcome(state, ok, if ok then freed else freed + [buffer])
  }

  /** The part after the split: both the entry and the record have to be there. */
  function HookedEntry(s: EptState, r: HookRequest): (o: (EptState, bool))
    requires WellFormed(s)
    ensures WellFormed(o.0)
  {
    var pml1 := Pml1Ref(s.tables, r.physical);
    if pml1.None? || r.record.None? then (s, false)
    else (InsertHook(s, NewHook(s.tables, r, pml1.value)), true)
  }

  /** PageUnhookVmcall in root mode: the new state, and the record to be freed. */
  function PageUnhook(s: EptState, address: nat): (o: (EptState, Option<nat>))
    requires WellFormed(s)
    ensures WellFormed(o.0)
  {
    var i := IndexOfVirtual(s.hooks, PageAlign(address));
    if i == |s.hooks| then (s, None)
    else
      var h := s.hooks[i];
      (EptState(WriteEntry(s.tables, h.entry, h.original), s.hooks[..i] + s.hooks[i + 1..]), Some(h.record))
  }

  /** Writes the original entries back, first record first. */
  function RestoreAll(t: Tables, hooks: seq<Hook>): (u: Tables)
    requires WellFormed(EptState(t, hooks))
    ensures WellSized(u) && u.pml1.Keys == t.pml1.Keys
    decreases |hooks|
  {
    if hooks == [] then t
    else RestoreAll(WriteEntry(t, hooks[0].entry, hooks[0].original), hooks[1..])
  }

  /** The addresses of the records, in list order. */
  function RecordsOf(hooks: seq<Hook>): (rs: seq<nat>)
    ensures |rs| == |hooks|
  {
    seq(|hooks|, i requires 0 <= i < |hooks| => hooks[i].record)
  }

  function UnhookAllPages(s: EptState): (o: EptState)
    requires WellFormed(s)
    ensures WellFormed(o)
  {
    EptState(RestoreAll(s.tables, s.hooks), [])
  }

  /** Unhooking the first record and then the rest is unhooking all. */
  lemma UnhookFirst(s: EptState)
    requires WellFormed(s) && s.hooks != []
    ensures var h := s.hooks[0];
      && UnhookAllPages(EptState(WriteEntry(s.tables, h.entry, h.original), s.hooks[..0] + s.hooks[1..]))
         == UnhookAllPages(s)
      && [h.record] + RecordsOf(s.hooks[..0] + s.hooks[1..]) == RecordsOf(s.hooks)
  {
    assert s.hooks[..0] + s.hooks[1..] == s.hooks[1..];
    assert [s.hooks[0].record] + RecordsOf(s.hooks[1..]) == RecordsOf(s.hooks);
  }

  predicate IsAccessFromKernelImage(kernel: KernelImage, rip: U64) {
    var end := (kernel.base + kernel.size) % 0x1_0000_0000_0000_0000;
    && kernel.base != 0 && kernel.size != 0
    && kernel.size <= 0x1000_0000 && end >= kernel.base
    && kernel.base <= rip < end
  }

  /** The bits are set one by one into an error code that starts as 1. */
  function PageFaultErrorCode(q: Qualification): nat {
    1 + (if q.writeAccess then 2 else 0) + (if q.userModeLinearAddress then 4 else 0)
      + (if q.executeAccess then 16 else 0)
  }

  /** The access is one that the page's current entry denies. */
  predicate DeniedByEntry(q: Qualification) {
    || (!q.eptExecutable && q.executeAccess)
    || (!q.eptWriteable && q.writeAccess)
    || (!q.eptReadable && q.readAccess)
  }

  /** HandleHookedPage for the record found. */
  function Outcome(
      s: EptState, h: Hook, q: Qualification, guestLinear: U64, rip: U64, kernel: KernelImage): (o: ViolationOutcome)
    requires WellFormed(s) && h in s.hooks
    ensures WellSized(o.tables) && o.tables.pml1.Keys == s.tables.pml1.Keys
  {
    if !DeniedByEntry(q) then ViolationOutcome(s.tables, None, None, false)
    else if IsAccessFromKernelImage(kernel, rip) then
      ViolationOutcome(WriteEntry(s.tables, h.entry, h.original), Some(h), None, true)
    else ViolationOutcome(s.tables, None, Some(PageFault(guestLinear, PageFaultErrorCode(q))), true)
  }

  function HandleEptViolation(
      s: EptState, q: Qualification, guestPhysical: nat, guestLinear: U64, rip: U64, kernel: KernelImage):
    (o: ViolationOutcome)
    requires WellFormed(s)
    ensures WellSized(o.tables) && o.tables.pml1.Keys == s.tables.pml1.Keys
    ensures o.grant.Some? ==> o.grant.value in s.hooks
  {
    var aligned := PageAlign(guestPhysical);
    var i := IndexOfPhysical(s.hooks, aligned);
    if aligned == 0 || i == |s.hooks| then ViolationOutcome(s.tables, None, None, false)
    else Outcome(s, s.hooks[i], q, guestLinear, rip, kernel)
  }

  /** The access opens a page: it is denied, comes from the kernel image, and goes to a hooked page. */
  ghost predicate Opens(
      s: EptState, q: Qualification, guestPhysical: nat, rip: U64, kernel: KernelImage)
  {
    && DeniedByEntry(q) && IsAccessFromKernelImage(kernel, rip) && PageAlign(guestPhysical) != 0
    && exists h | h in s.hooks :: h.physicalBaseAddress == PageAlign(guestPhysical)
  }

  // ----- One processor as a state machine -----

  /** `pending` is GuestState.HookedPage, `monitorTrap` the monitor trap flag control, `fault`
      the page fault pended by the last exit. Two history variables remember permissions for each
      virtual page: `requested` those of the request that created its record, `given` those of the
      last request that was accepted, whether or not it found the page hooked already. */
  datatype Processor = Processor(
    ept: EptState, pending: Option<Hook>, monitorTrap: bool, fault: Option<PageFault>,
    requested: map<nat, nat>, given: map<nat, nat>)

  datatype Action =
    | HookPage(request: HookRequest)
    | UnhookPage(address: nat)
    | UnhookAll
    | Violation(qualification: Qualification, guestPhysical: nat, guestLinear: U64, rip: U64)
    | MonitorTrap

  function Step(m: MemoryMap, kernel: KernelImage, p: Processor, a: Action): (q: Processor)
    requires WellFormed(p.ept)
    requires p.pending.Some? ==> p.pending.value in p.ept.hooks
    ensures WellFormed(q.ept)
  {
    match a
    case HookPage(r) =>
      var o := RootModePageHook(m, p.ept, r);
      var page := PageAlign(r.targetFunc);
      p.(ept := o.state, fault := None,
         requested := if o.state.hooks == p.ept.hooks then p.requested else p.requested[page := r.permissions],
         given := if o.ok then p.given[page := r.permissions] else p.given)
    case UnhookPage(address) => p.(ept := PageUnhook(p.ept, address).0, fault := None)
    case UnhookAll => p.(ept := UnhookAllPages(p.ept), fault := None)
    case Violation(q, guestPhysical, guestLinear, rip) =>
      var o := HandleEptViolation(p.ept, q, guestPhysical, guestLinear, rip, kernel);
      var tables := p.ept.(tables := o.tables);
      if o.grant.Some? then p.(ept := tables, pending := o.grant, monitorTrap := true, fault := None)
      else p.(ept := tables, fault := o.fault)
    case MonitorTrap =>
      if p.pending.None? then p.(monitorTrap := false, fault := None)
      else
        var h := p.pending.value;
        p.(ept := p.ept.(tables := WriteEntry(p.ept.tables, h.entry, h.changed)),
           pending := None, monitorTrap := false, fault := None)
  }
}
