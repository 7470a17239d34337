/** What an exit comes to in the guest's registers and the VMCS fields alone, with the numbers of
    the hardware and of the driver's calls written out. */
module RawExits {
  import opened Wrappers
  import opened Arithmetic
  import opened Mtrr
  import opened PageTables
  import opened HookProtocol
  import opened HookRuns
  import opened HookTheorems
  import opened Vmcs
  import opened EventInjection
  import opened ExitProtocol
  import opened ExitTheorems

  ghost predicate IsReason(s: Machine, reason: nat) {
    s.fields.exitReason % 0x10000 == reason
  }

  /** A VMCALL with the driver's three magic registers and the given call number. */
  ghost predicate IsDriverCall(s: Machine, r: CallRegisters, number: nat) {
    && IsReason(s, 18) && r.rcx == number
    && r.r10 == 0x4856544d50 && r.r11 == 0x564d43414c4c && r.r12 == 0x4e4f485950455256
  }

  /** RIP is past the instruction, in 64-bit arithmetic. */
  ghost predicate IsPast(s: Machine, t: Machine) {
    t.fields.guestRip == (s.fields.guestRip + s.fields.exitInstructionLength) % 0x1_0000_0000_0000_0000
  }

  // ----- Driver calls -----

  /** Every driver call but VMXOFF leaves the VMCS as a completed instruction leaves it. */
  lemma DriverCallAdvances(m: MemoryMap, s: Machine, pending: Option<Hook>, r: CallRegisters, env: Environment)
    requires WellFormed(s.ept) && TrapSafe(s, pending) && !s.vmxoff.executed
    requires IsDriverCall(s, r, r.rcx) && r.rcx != 2
    ensures var d := HandleExit(m, s, pending, r, env);
      && IsPast(s, d.machine) && d.pending == Keep && d.machine.cr2 == s.cr2
      && d.machine.fields.monitorTrapFlag == s.fields.monitorTrapFlag
      && d.machine.launched == s.launched && d.machine.inVmxOperation == s.inVmxOperation
  {
    CallDispatched(m, s, pending, r, env);
    VmcallKeepsFields(m, s.(fields := Cleared(s.fields), rax := STATUS_SUCCESS), r.rcx, r.rdx, r.r8, env);
  }

  /** The request a hook call is, in its registers. */
  lemma HookCallIs(m: MemoryMap, s: Machine, pending: Option<Hook>, r: CallRegisters, env: Environment)
    requires WellFormed(s.ept) && TrapSafe(s, pending) && !s.vmxoff.executed && IsDriverCall(s, r, 3)
    ensures var d := HandleExit(m, s, pending, r, env);
      var request := HookRequest(true, s.launched, r.rdx, r.r8 % 256, env.physical, env.splitBuffer, env.record);
      var o := RootModePageHook(m, s.ept, request);
      if r.rdx == 0 then
        d.machine.ept == s.ept && d.freed == [] && d.machine.rax == 0xFFFF_FFFF_C000_000D
      else
        && d.machine.ept == o.state && d.freed == o.freed
        && d.machine.rax == if o.ok then 0 else 0xFFFF_FFFF_C000_0001
  {
  }

  lemma LowByte(x: nat)
    ensures x % 256 % 2 == x % 2 && x % 256 / 2 % 2 == x / 2 % 2
  {
    var q, b := x / 256, x % 256;
    DivMod(x, 2, 128 * q + b / 2, b % 2);
    DivMod(x / 2, 2, 64 * q + b / 2 / 2, b / 2 % 2);
  }

  /** Call 3 hooks the page of RDX with the permissions in R8. RAX says whether the request was
      accepted, and the record added, if any, is for RDX aligned down and for the physical page, with
      an entry that may be read if bit 0 of R8 is set, and neither written nor executed. A request
      for write without read access changes nothing. */
  lemma HookCall(m: MemoryMap, s: Machine, p: Processor, r: CallRegisters, env: Environment)
    requires Inv(m, p) && p.ept == s.ept && TrapSafe(s, p.pending) && !s.vmxoff.executed && IsDriverCall(s, r, 3)
    ensures var t, page := HandleExit(m, s, p.pending, r, env).machine, r.rdx - r.rdx % 0x1000;
      var hooked := exists h | h in s.ept.hooks :: h.virtualAddress == page;
      var accepted := && r.rdx != 0 && s.launched && !(r.r8 / 2 % 2 == 1 && r.r8 % 2 == 0)
                      && (hooked || (&& env.physical != 0 && env.physical / 0x80_0000_0000 % 512 == 0
                                     && env.splitBuffer.Some? && env.record.Some?));
      && t.rax == (if accepted then 0 else if r.rdx == 0 then 0xFFFF_FFFF_C000_000D else 0xFFFF_FFFF_C000_0001)
      && (!accepted || hooked ==> t.ept.hooks == s.ept.hooks)
      && (r.rdx == 0 || (r.r8 / 2 % 2 == 1 && r.r8 % 2 == 0) ==> t.ept == s.ept)
      && (accepted && !hooked ==>
            && |t.ept.hooks| == |s.ept.hooks| + 1 && t.ept.hooks[1..] == s.ept.hooks
            && var h := t.ept.hooks[0];
            && h.virtualAddress == page && h.physicalBaseAddress == env.physical - env.physical % 0x1000
            && h.changed == h.original.(read := r.r8 % 2 == 1, write := false, execute := false)
            && h.entry.table in t.ept.tables.pml1 && h.entry.index < 512
            && t.ept.tables.pml1[h.entry.table][h.entry.index] == h.changed)
  {
    HookCallIs(m, s, p.pending, r, env);
    LowByte(r.r8);
    var request := HookRequest(true, s.launched, r.rdx, r.r8 % 256, env.physical, env.splitBuffer, env.record);
    HookAcceptedIff(m, p, request);
    HookAddsRecord(m, p, request);
    if r.rdx != 0 && r.r8 / 2 % 2 == 1 && r.r8 % 2 == 0 {
      WriteWithoutRead(r.r8 % 256);
    }
  }

  /** The rights to read, write and execute that the hardware finds for an address. */
  ghost function RightsAt(t: Tables, address: nat): Option<(bool, bool, bool)> {
    if !WellSized(t) || Walk(t, address).None? then None
    else
      var w := Walk(t, address).value;
      Some((w.read, w.write, w.execute))
  }

  /** The rights the page then has at any of its addresses are those in R8, except that it is never
      writable or executable. */
  lemma HookCallRights(
      m: MemoryMap, s: Machine, p: Processor, r: CallRegisters, env: Environment, address: nat, offset: nat)
    requires Inv(m, p) && p.ept == s.ept && TrapSafe(s, p.pending) && !s.vmxoff.executed
    requires IsDriverCall(s, r, 3) && r.rdx != 0
    requires address == env.physical - env.physical % 0x1000 + offset && offset < PAGE_SIZE
    requires var request := HookRequest(true, s.launched, r.rdx, r.r8 % 256, env.physical, env.splitBuffer, env.record);
      Enabled(env.kernel, p, HookPage(request))
    ensures var t := HandleExit(m, s, p.pending, r, env).machine;
      t.ept.hooks != s.ept.hooks ==> RightsAt(t.ept.tables, address) == Some((r.r8 % 2 == 1, false, false))
  {
    var request := HookRequest(true, s.launched, r.rdx, r.r8 % 256, env.physical, env.splitBuffer, env.record);
    HookCallIs(m, s, p.pending, r, env);
    LowByte(r.r8);
    HookStepRights(m, env.kernel, p, request, address, offset);
  }

  lemma HookStepRights(
      m: MemoryMap, kernel: KernelImage, p: Processor, request: HookRequest, address: nat, offset: nat)
    requires Inv(m, p) && Enabled(kernel, p, HookPage(request))
    requires address == request.physical - request.physical % 0x1000 + offset && offset < PAGE_SIZE
    ensures var after := RootModePageHook(m, p.ept, request).state;
      after.hooks != p.ept.hooks ==>
        RightsAt(after.tables, address) == Some((request.permissions % 2 == 1, false, false))
  {
    var q := Step(m, kernel, p, HookPage(request));
    StepKeepsInv(m, kernel, p, HookPage(request));
    HookAddsRecord(m, p, request);
    if q.ept.hooks != p.ept.hooks {
      NewHookRights(m, p, q, request, address, offset);
    }
  }

  lemma NewHookRights(
      m: MemoryMap, p: Processor, q: Processor, request: HookRequest, address: nat, offset: nat)
    requires address == request.physical - request.physical % 0x1000 + offset && offset < PAGE_SIZE
    requires Inv(m, p) && Inv(m, q) && AddsRecord(p.ept.hooks, request, q.ept)
    requires q.pending == p.pending
    requires q.requested == p.requested[PageAlign(request.targetFunc) := request.permissions]
    ensures RightsAt(q.ept.tables, address) == Some((request.permissions % 2 == 1, false, false))
  {
    RightsUnderInv(m, q, 0, offset);
    ReadBitAlone(request.permissions);
    WriteWithoutRead(request.permissions);
  }

  /** Call 6 unhooks the page of RDX: exactly its record goes, and its original entry is back. RAX says
      whether there was one. */
  lemma UnhookCall(m: MemoryMap, s: Machine, p: Processor, r: CallRegisters, env: Environment)
    requires Inv(m, p) && p.ept == s.ept && TrapSafe(s, p.pending) && !s.vmxoff.executed && IsDriverCall(s, r, 6)
    ensures var t, page := HandleExit(m, s, p.pending, r, env).machine, r.rdx - r.rdx % 0x1000;
      var hooked := exists h | h in s.ept.hooks :: h.virtualAddress == page;
      && t.rax == (if r.rdx == 0 then 0xFFFF_FFFF_C000_000D else if hooked then 0 else 0xFFFF_FFFF_C000_0001)
      && (r.rdx == 0 || !hooked ==> t.ept == s.ept)
      && (r.rdx != 0 ==>
            && (forall h :: h in t.ept.hooks <==> h in s.ept.hooks && h.virtualAddress != page)
            && forall h | h in s.ept.hooks && h.virtualAddress == page ::
                 && h.entry.table in t.ept.tables.pml1 && h.entry.index < 512
                 && t.ept.tables.pml1[h.entry.table][h.entry.index] == h.original)
  {
    if r.rdx != 0 {
      UnhookRemovesOne(m, p, r.rdx);
      UnhookRestores(m, p, r.rdx);
    }
  }

  lemma UnhookRestores(m: MemoryMap, p: Processor, address: nat)
    requires Inv(m, p)
    ensures var s := PageUnhook(p.ept, address).0;
      forall h | h in p.ept.hooks && h.virtualAddress == PageAlign(address) ::
        && h.entry.table in s.tables.pml1 && h.entry.index < 512
        && s.tables.pml1[h.entry.table][h.entry.index] == h.original
  {
    forall h | h in p.ept.hooks && h.virtualAddress == PageAlign(address)
      ensures var s := PageUnhook(p.ept, address).0;
        && h.entry.table in s.tables.pml1 && h.entry.index < 512
        && s.tables.pml1[h.entry.table][h.entry.index] == h.original
    {
      var j :| 0 <= j < |p.ept.hooks| && p.ept.hooks[j] == h;
      FoundByVirtual(p.ept.hooks, j);
    }
  }

  /** Call 7 unhooks every page: the list is empty and every original entry is back. */
  lemma UnhookAllCall(m: MemoryMap, s: Machine, p: Processor, r: CallRegisters, env: Environment)
    requires Inv(m, p) && p.pending.None? && p.ept == s.ept && TrapSafe(s, p.pending)
    requires !s.vmxoff.executed && IsDriverCall(s, r, 7)
    ensures var t := HandleExit(m, s, p.pending, r, env).machine;
      && t.rax == 0 && t.ept.hooks == [] && t.ept.tables.pml1.Keys == s.ept.tables.pml1.Keys
      && forall h | h in s.ept.hooks ::
           && h.entry.table in t.ept.tables.pml1 && h.entry.index < 512
           && t.ept.tables.pml1[h.entry.table][h.entry.index] == h.original
  {
    UnhookAllRestoresEntries(m, p);
  }

  lemma UnhookAllRestoresEntries(m: MemoryMap, p: Processor)
    requires Inv(m, p) && p.pending.None?
    ensures var t := RestoreAll(p.ept.tables, p.ept.hooks);
      forall h | h in p.ept.hooks ::
        && h.entry.table in t.pml1 && h.entry.index < 512
        && t.pml1[h.entry.table][h.entry.index] == h.original
  {
    var t := RestoreAll(p.ept.tables, p.ept.hooks);
    RestoreAllKeepsInv(m, p.ept.tables, p.ept.hooks, p.requested);
    RestoreAllKeepsUpper(p.ept.tables, p.ept.hooks);
    forall h | h in p.ept.hooks
      ensures h.entry.table in t.pml1 && h.entry.index < 512 && t.pml1[h.entry.table][h.entry.index] == h.original
    {
      assert Describes(m, h, p.requested) && Placed(p.ept.tables, h);
      UnhookedSlot(m, t, h);
    }
  }

  lemma UnhookedSlot(m: MemoryMap, t: Tables, h: Hook)
    requires WellSized(t) && TablesOk(m, t, [], None) && Placed(t, h)
    requires h.entry.index == PageOf(h) % 512 && h.original == SmallEntry(m, PageOf(h))
    ensures h.entry.table in t.pml1 && h.entry.index < 512 && t.pml1[h.entry.table][h.entry.index] == h.original
  {
    assert SlotOk(m, t, [], None, PageOf(h) / 512);
    assert PageOf(h) / 512 * 512 + PageOf(h) % 512 == PageOf(h);
  }

  /** The other calls: 1, 4 and 5 succeed, 2 leaves VMX operation, unknown ones are refused. None of
      them touches tables or list. */
  lemma OtherCall(m: MemoryMap, s: Machine, pending: Option<Hook>, r: CallRegisters, env: Environment)
    requires WellFormed(s.ept) && TrapSafe(s, pending) && !s.vmxoff.executed
    requires IsDriverCall(s, r, r.rcx) && r.rcx != 3 && r.rcx != 6 && r.rcx != 7
    ensures var d := HandleExit(m, s, pending, r, env);
      var t := d.machine;
      && t.ept == s.ept && d.freed == []
      && t.rax == (if r.rcx == 1 || r.rcx == 2 || r.rcx == 4 || r.rcx == 5 then 0 else 0xFFFF_FFFF_C000_000D)
      && (t.vmxoff.executed <==> r.rcx == 2)
      && (r.rcx == 2 ==>
            && !t.launched && !t.inVmxOperation && t.vmxoff.rsp == s.fields.guestRsp
            && t.vmxoff.rip == (s.fields.guestRip + s.fields.exitInstructionLength) % 0x1_0000_0000_0000_0000)
  {
  }

  /** A VMCALL without the magic registers is forwarded, and RAX is its result. */
  lemma ForwardedCall(m: MemoryMap, s: Machine, pending: Option<Hook>, r: CallRegisters, env: Environment)
    requires WellFormed(s.ept) && TrapSafe(s, pending) && !s.vmxoff.executed && IsReason(s, 18)
    requires r.r10 != 0x4856544d50 || r.r11 != 0x564d43414c4c || r.r12 != 0x4e4f485950455256
    ensures var d := HandleExit(m, s, pending, r, env);
      && IsPast(s, d.machine) && d.machine.rax == env.hypercallRax && d.machine.ept == s.ept
      && d.freed == [] && d.pending == Keep
  {
  }

  // ----- Violations and traps -----

  /** Tables, list, grant, trap, RAX and CR2 are as they were. */
  ghost predicate KeepsHooks(s: Machine, d: Dispatched) {
    && d.machine.ept == s.ept && d.pending == Keep && d.freed == []
    && d.machine.fields.monitorTrapFlag == s.fields.monitorTrapFlag
    && d.machine.rax == s.rax && d.machine.cr2 == s.cr2 && !d.machine.vmxoff.executed
  }

  /** The exit qualification of an EPT violation: bits 0 to 2 are the access (read, write, execute), 3
      to 5 what the entry allows. */
  ghost predicate IsDenied(q: U64) {
    || (q % 2 == 1 && q / 8 % 2 == 0) || (q / 2 % 2 == 1 && q / 16 % 2 == 0) || (q / 4 % 2 == 1 && q / 32 % 2 == 0)
  }

  /** The access goes to the physical page of a record. */
  ghost predicate IsHooked(s: Machine, address: nat) {
    && address - address % 0x1000 != 0
    && exists h | h in s.ept.hooks :: h.physicalBaseAddress == address - address % 0x1000
  }

  /** An image of at most 256 MB below the end of the address space, and an instruction in it. */
  ghost predicate InKernelImage(k: KernelImage, rip: U64) {
    && k.base != 0 && 0 < k.size <= 0x1000_0000 && k.base + k.size < 0x1_0000_0000_0000_0000
    && k.base <= rip < k.base + k.size
  }

  /** A denied access to a hooked page by an instruction of the kernel image opens that page, and arms
      the trap. */
  lemma GrantedExit(m: MemoryMap, s: Machine, pending: Option<Hook>, r: CallRegisters, env: Environment)
    requires WellFormed(s.ept) && TrapSafe(s, pending) && !s.vmxoff.executed && IsReason(s, 48)
    requires IsDenied(s.fields.exitQualification) && IsHooked(s, s.fields.guestPhysicalAddress)
    requires InKernelImage(env.kernel, s.fields.guestRip)
    ensures var d, address := HandleExit(m, s, pending, r, env), s.fields.guestPhysicalAddress;
      var t := d.machine;
      && t.fields.guestRip == s.fields.guestRip && t.ept.hooks == s.ept.hooks && t.cr2 == s.cr2 && d.freed == []
      && t.fields.monitorTrapFlag && d.pending.Granted? && d.pending.hook in s.ept.hooks
      && var h := d.pending.hook;
      && h.physicalBaseAddress == address - address % 0x1000
      && h.entry.table in t.ept.tables.pml1 && h.entry.index < 512
      && t.ept.tables.pml1[h.entry.table][h.entry.index] == h.original
  {
    KernelImageIff(env.kernel, s.fields.guestRip);
    var d := DispatchCleared(m, s, pending, r, env);
    ClosedKeeps(d.machine, d.action);
  }

  /** From anywhere else it changes nothing, and the guest gets a page fault at the linear address whose
      error code has bit 0 set, 1 for a write, 2 for a user-mode address (bit 9 of the qualification)
      and 4 for an instruction fetch. */
  lemma BlockedExit(m: MemoryMap, s: Machine, pending: Option<Hook>, r: CallRegisters, env: Environment)
    requires WellFormed(s.ept) && TrapSafe(s, pending) && !s.vmxoff.executed && IsReason(s, 48)
    requires IsDenied(s.fields.exitQualification) && IsHooked(s, s.fields.guestPhysicalAddress)
    requires !InKernelImage(env.kernel, s.fields.guestRip)
    ensures var d, q := HandleExit(m, s, pending, r, env), s.fields.exitQualification;
      var t := d.machine;
      && t.fields.guestRip == s.fields.guestRip && t.ept == s.ept && d.pending == Keep && d.freed == []
      && t.fields.monitorTrapFlag == s.fields.monitorTrapFlag && t.cr2 == s.fields.guestLinearAddress
      && t.fields.entryInfo == EventInfo(14, 3, true, 0, true)
      && t.fields.entryErrorCode == 1 + 2 * (q / 2 % 2) + 4 * (q / 512 % 2) + 16 * (q / 4 % 2)
  {
    KernelImageIff(env.kernel, s.fields.guestRip);
    var d := DispatchCleared(m, s, pending, r, env);
    ClosedKeeps(d.machine, d.action);
  }

  /** A violation that is no denied access to a hooked page changes nothing. */
  lemma OtherViolationExit(m: MemoryMap, s: Machine, pending: Option<Hook>, r: CallRegisters, env: Environment)
    requires WellFormed(s.ept) && TrapSafe(s, pending) && !s.vmxoff.executed && IsReason(s, 48)
    requires !IsDenied(s.fields.exitQualification) || !IsHooked(s, s.fields.guestPhysicalAddress)
    ensures var d := HandleExit(m, s, pending, r, env);
      KeepsHooks(s, d) && d.machine.fields.guestRip == s.fields.guestRip
  {
    var i := IndexOfPhysical(s.ept.hooks, PageAlign(s.fields.guestPhysicalAddress));
    if i < |s.ept.hooks| {
      assert s.ept.hooks[i] in s.ept.hooks;
    }
    var d := DispatchCleared(m, s, pending, r, env);
    ClosedKeeps(d.machine, d.action);
  }

  /** The monitor trap closes the page the pending record is for, and is disarmed. */
  lemma TrapExit(m: MemoryMap, s: Machine, pending: Option<Hook>, r: CallRegisters, env: Environment)
    requires WellFormed(s.ept) && TrapSafe(s, pending) && !s.vmxoff.executed && IsReason(s, 37)
    ensures var d := HandleExit(m, s, pending, r, env);
      var t := d.machine;
      && !t.fields.monitorTrapFlag && t.fields.guestRip == s.fields.guestRip && t.ept.hooks == s.ept.hooks
      && (pending.None? ==> t.ept == s.ept && d.pending == Keep)
      && (pending.Some? ==>
            && d.pending == Dropped
            && var h := pending.value;
            && h.entry.table in t.ept.tables.pml1 && h.entry.index < 512
            && t.ept.tables.pml1[h.entry.table][h.entry.index] == h.changed)
  {
  }

  // ----- The other exits -----

  /** An exit that concerns the VMCS alone. */
  lemma OnVmcsExit(m: MemoryMap, s: Machine, pending: Option<Hook>, r: CallRegisters, env: Environment)
    requires WellFormed(s.ept) && TrapSafe(s, pending) && !s.vmxoff.executed
    requires !IsReason(s, 18) && !IsReason(s, 37) && !IsReason(s, 48)
    ensures var (f, action) := OnVmcs(Cleared(s.fields), s.fields.exitReason % 0x10000, env);
      var d := HandleExit(m, s, pending, r, env);
      && d.machine == Closed(s.(fields := f), action) && KeepsHooks(s, d)
      && d.machine.fields == Reinjected(if action == AdvanceRip then f.(guestRip := NextRip(f)) else f)
  {
    var (f, action) := OnVmcs(Cleared(s.fields), s.fields.exitReason % 0x10000, env);
    OnVmcsKeeps(s, Cleared(s.fields), env);
    ClosedKeeps(s.(fields := f), action);
  }

  /** A VMX instruction of the guest fails with the carry flag set and all other flags kept. */
  lemma GuestVmxExit(m: MemoryMap, s: Machine, pending: Option<Hook>, r: CallRegisters, env: Environment)
    requires WellFormed(s.ept) && TrapSafe(s, pending) && !s.vmxoff.executed
    requires 19 <= s.fields.exitReason % 0x10000 <= 27
    ensures var d := HandleExit(m, s, pending, r, env);
      && KeepsHooks(s, d) && IsPast(s, d.machine)
      && d.machine.fields.guestRflags % 2 == 1 && d.machine.fields.guestRflags / 2 == s.fields.guestRflags / 2
  {
    OnVmcsExit(m, s, pending, r, env);
  }

  /** A completed emulation of a CR access, MSR access or XSETBV advances the guest; only CR accesses
      leave their own CR3 and RSP. */
  lemma EmulatedExit(m: MemoryMap, s: Machine, pending: Option<Hook>, r: CallRegisters, env: Environment)
    requires WellFormed(s.ept) && TrapSafe(s, pending) && !s.vmxoff.executed && env.emulated
    requires IsReason(s, 28) || IsReason(s, 31) || IsReason(s, 32) || IsReason(s, 55)
    ensures var d := HandleExit(m, s, pending, r, env);
      var f := d.machine.fields;
      && KeepsHooks(s, d) && IsPast(s, d.machine)
      && f.guestCr3 == (if IsReason(s, 28) then env.guestCr3 else s.fields.guestCr3)
      && f.guestRsp == (if IsReason(s, 28) then env.guestRsp else s.fields.guestRsp)
  {
    OnVmcsExit(m, s, pending, r, env);
  }

  /** A refused one gets a general-protection fault with error code 0. */
  lemma RefusedExit(m: MemoryMap, s: Machine, pending: Option<Hook>, r: CallRegisters, env: Environment)
    requires WellFormed(s.ept) && TrapSafe(s, pending) && !s.vmxoff.executed && !env.emulated
    requires IsReason(s, 28) || IsReason(s, 31) || IsReason(s, 32) || IsReason(s, 55)
    ensures var d := HandleExit(m, s, pending, r, env);
      var f := d.machine.fields;
      && KeepsHooks(s, d) && f.guestRip == s.fields.guestRip
      && f.entryInfo == EventInfo(13, 3, true, 0, true) && f.entryErrorCode == 0 && f.entryInstructionLength == 0
  {
    OnVmcsExit(m, s, pending, r, env);
  }

  /** HLT, INVD, UMONITOR, UMWAIT and a completed CPUID are skipped; every other exit, the ones above
      and exceptions apart, resumes the guest where it was. */
  lemma PlainExit(m: MemoryMap, s: Machine, pending: Option<Hook>, r: CallRegisters, env: Environment)
    requires WellFormed(s.ept) && TrapSafe(s, pending) && !s.vmxoff.executed
    requires var reason := s.fields.exitReason % 0x10000;
      && reason != 0 && !(18 <= reason <= 28) && reason != 31 && reason != 32 && reason != 37
      && reason != 48 && reason != 55
    ensures var d, reason := HandleExit(m, s, pending, r, env), s.fields.exitReason % 0x10000;
      && KeepsHooks(s, d)
      && (if reason == 12 || reason == 13 || reason == 67 || reason == 68 || (reason == 10 && env.emulated)
          then IsPast(s, d.machine) else d.machine.fields.guestRip == s.fields.guestRip)
  {
    OnVmcsExit(m, s, pending, r, env);
  }

  /** Types 4, 5 and 6 are the software events, which carry their instruction's length. */
  ghost predicate Redelivers(f: Fields, info: EventInfo, errorCode: nat, length: nat) {
    && f.entryInfo == EventInfo(info.vector, info.kind, info.hasErrorCode, 0, true)
    && f.entryErrorCode == (if info.hasErrorCode then errorCode else 0)
    && f.entryInstructionLength == (if info.kind == 4 || info.kind == 5 || info.kind == 6 then length else 0)
  }

  /** An exception or NMI is delivered to the guest as it was reported. */
  lemma ExceptionExit(m: MemoryMap, s: Machine, pending: Option<Hook>, r: CallRegisters, env: Environment)
    requires WellFormed(s.ept) && TrapSafe(s, pending) && !s.vmxoff.executed && IsReason(s, 0)
    ensures var d, f := HandleExit(m, s, pending, r, env), s.fields;
      && KeepsHooks(s, d) && d.machine.fields.guestRip == f.guestRip
      && (f.exitInfo.valid ==> Redelivers(d.machine.fields, f.exitInfo, f.exitErrorCode, f.exitInstructionLength))
  {
    OnVmcsExit(m, s, pending, r, env);
  }

  /** An event whose delivery the exit interrupted is delivered again, if the exit leaves no event of
      its own; without either nothing is pending. */
  lemma InterruptedEvent(m: MemoryMap, s: Machine, pending: Option<Hook>, r: CallRegisters, env: Environment)
    requires WellFormed(s.ept) && TrapSafe(s, pending) && !s.vmxoff.executed
    requires IsReason(s, 10) || IsReason(s, 12) || IsReason(s, 37) || (IsReason(s, 18) && !IsDriverCall(s, r, 2))
    ensures var t, f := HandleExit(m, s, pending, r, env).machine, s.fields;
      if f.idtVectoringInfo.valid
      then Redelivers(t.fields, f.idtVectoringInfo, f.idtVectoringErrorCode, f.exitInstructionLength)
      else !t.fields.entryInfo.valid && t.fields.entryErrorCode == 0 && t.fields.entryInstructionLength == 0
  {
    if IsReason(s, 18) {
      CallDispatched(m, s, pending, r, env);
    }
  }
}
