/** What one VM exit does (VmexitHandler.cpp, VmcallHandler.cpp, VmxVmxoff in Vmx.cpp), as
    functions of the processor's state. The VmexitHandler methods are verified against these. */
module ExitProtocol {
  import opened Wrappers
  import opened Mtrr
  import opened PageTables
  import opened HookProtocol
  import opened Vmcs
  import opened EventInjection

  const EXIT_REASON_EXCEPTION_NMI: nat := 0
  const EXIT_REASON_TRIPLE_FAULT: nat := 2
  const EXIT_REASON_CPUID: nat := 10
  const EXIT_REASON_HLT: nat := 12
  const EXIT_REASON_INVD: nat := 13
  const EXIT_REASON_VMCALL: nat := 18
  const EXIT_REASON_VMCLEAR: nat := 19
  const EXIT_REASON_VMXON: nat := 27
  const EXIT_REASON_CR_ACCESS: nat := 28
  const EXIT_REASON_MSR_READ: nat := 31
  const EXIT_REASON_MSR_WRITE: nat := 32
  const EXIT_REASON_MONITOR_TRAP_FLAG: nat := 37
  const EXIT_REASON_EPT_VIOLATION: nat := 48
  const EXIT_REASON_EPT_MISCONFIG: nat := 49
  const EXIT_REASON_XSETBV: nat := 55
  const EXIT_REASON_UMONITOR: nat := 67
  const EXIT_REASON_UMWAIT: nat := 68

  const VMCALL_TEST: nat := 1
  const VMCALL_VMXOFF: nat := 2
  const VMCALL_EXEC_HOOK_PAGE: nat := 3
  const VMCALL_INVEPT_ALL_CONTEXT: nat := 4
  const VMCALL_INVEPT_SINGLE_CONTEXT: nat := 5
  const VMCALL_UNHOOK_SINGLE_PAGE: nat := 6
  const VMCALL_UNHOOK_ALL_PAGES: nat := 7

  const HYPERVISOR_MAGIC: U64 := 0x4856544d50
  const VMCALL_MAGIC: U64 := 0x564d43414c4c
  const NO_HYPERV_MAGIC: U64 := 0x4e4f485950455256

  // NTSTATUS values, sign-extended into RAX.
  const STATUS_SUCCESS: U64 := 0
  const STATUS_UNSUCCESSFUL: U64 := 0xFFFF_FFFF_C000_0001
  const STATUS_INVALID_PARAMETER: U64 := 0xFFFF_FFFF_C000_000D

  datatype ExitAction = ResumeCurrentRip | AdvanceRip | InjectEvent | ShutdownVmx

  /** The registers of the GUEST_REGS frame that the handler reads itself. */
  datatype CallRegisters = CallRegisters(rcx: U64, rdx: U64, r8: U64, r10: U64, r11: U64, r12: U64)

  /** What comes from outside during an exit: whether the CR, MSR, CPUID or XSETBV emulation
      accepts the operation and what CR emulation leaves in GUEST_CR3 and GUEST_RSP, the result of
      a forwarded hypercall, whether VMCLEAR fails, and what the lookups and pool allocations of a
      hook return. */
  datatype Environment = Environment(
    kernel: KernelImage, emulated: bool, guestCr3: U64, guestRsp: U64, hypercallRax: U64,
    vmclearFails: bool, physical: nat, splitBuffer: Option<nat>, record: Option<nat>)

  /** One processor as an exit sees it; GuestState.HookedPage is kept beside it. */
  datatype Machine = Machine(
    fields: Fields, cr2: U64, inVmxOperation: bool, faulted: bool,
    launched: bool, vmxoff: VmxoffState, ept: EptState, rax: U64)

  /** What an exit does to GuestState.HookedPage. */
  datatype PendingChange = Keep | Granted(hook: Hook) | Dropped

  datatype Dispatched = Dispatched(machine: Machine, pending: PendingChange, action: ExitAction, freed: seq<nat>)

  /** A 64-bit register wraps around. */
  function Wrap(x: nat): U64 {
    x % 0x1_0000_0000_0000_0000
  }

  function NextRip(f: Fields): U64 {
    Wrap(f.guestRip + f.exitInstructionLength)
  }

  predicate IsSelfVmcall(r: CallRegisters) {
    r.r10 == HYPERVISOR_MAGIC && r.r11 == VMCALL_MAGIC && r.r12 == NO_HYPERV_MAGIC
  }

  /** `rflags | 1`: a VMX instruction of the guest fails with the carry flag set. */
  function WithCarry(rflags: U64): U64 {
    rflags - rflags % 2 + 1
  }

  // ----- VMCALL -----

  function StatusOf(ok: bool): U64 {
    if ok then STATUS_SUCCESS else STATUS_UNSUCCESSFUL
  }

  /** VmxVmxoff. When VMCLEAR fails ClearVmcsState has already left VMX operation, and the
      second VMXOFF faults. */
  function SwitchedOff(s: Machine, vmclearFails: bool): Machine {
    s.(vmxoff := VmxoffState(true, NextRip(s.fields), s.fields.guestRsp), launched := false,
       inVmxOperation := false, faulted := s.faulted || !s.inVmxOperation || vmclearFails)
  }

  function RequestOf(launched: bool, address: U64, permissions: U64, env: Environment): HookRequest {
    HookRequest(true, launched, address, permissions % 256, env.physical, env.splitBuffer, env.record)
  }

  /** VmcallHandler, and what it gives back to the pool. */
  function Vmcall(
      m: MemoryMap, s: Machine, number: U64, param1: U64, param2: U64, env: Environment): (o: (Machine, seq<nat>))
    requires WellFormed(s.ept)
    ensures WellFormed(o.0.ept)
  {
    if number == VMCALL_VMXOFF then (SwitchedOff(s, env.vmclearFails).(rax := STATUS_SUCCESS), [])
    else if number == VMCALL_EXEC_HOOK_PAGE && param1 != 0 then
      var o := RootModePageHook(m, s.ept, RequestOf(s.launched, param1, param2, env));
      (s.(ept := o.state, rax := StatusOf(o.ok)), o.freed)
    else if number == VMCALL_UNHOOK_SINGLE_PAGE && param1 != 0 then
      var o := PageUnhook(s.ept, param1);
      (s.(ept := o.0, rax := StatusOf(o.1.Some?)),
       if o.1.Some? then [o.1.value] else [])
    else if number == VMCALL_UNHOOK_ALL_PAGES then
      (s.(ept := UnhookAllPages(s.ept), rax := STATUS_SUCCESS), RecordsOf(s.ept.hooks))
    else if number in {VMCALL_TEST, VMCALL_INVEPT_ALL_CONTEXT, VMCALL_INVEPT_SINGLE_CONTEXT} then
      (s.(rax := STATUS_SUCCESS), [])
    else (s.(rax := STATUS_INVALID_PARAMETER), [])
  }

  // ----- The dispatch -----

  /** What a violation leaves in the VMCS: the monitor trap armed, or the page fault pended. */
  function FieldsAfter(f: Fields, o: ViolationOutcome): Fields {
    if o.grant.Some? then f.(monitorTrapFlag := true)
    else if o.fault.Some? then PageFaulted(f, o.fault.value.errorCode)
    else f
  }

  function Violated(s: Machine, env: Environment): Dispatched
    requires WellFormed(s.ept)
  {
    var f := s.fields;
    var o := HandleEptViolation(s.ept, DecodeQualification(f.exitQualification), f.guestPhysicalAddress,
                                f.guestLinearAddress, f.guestRip, env.kernel);
    Dispatched(
      s.(ept := s.ept.(tables := o.tables), fields := FieldsAfter(f, o),
         cr2 := if o.fault.Some? then o.fault.value.address else s.cr2),
      if o.grant.Some? then Granted(o.grant.value) else Keep,
      ResumeCurrentRip, [])
  }

  function Trapped(s: Machine, pending: Option<Hook>): Dispatched
    requires WellFormed(s.ept) && (pending.Some? ==> pending.value in s.ept.hooks)
  {
    var t := s.(fields := s.fields.(monitorTrapFlag := false));
    if pending.None? then Dispatched(t, Keep, ResumeCurrentRip, [])
    else
      var tables := WriteEntry(s.ept.tables, pending.value.entry, pending.value.changed);
      Dispatched(t.(ept := s.ept.(tables := tables)), Dropped, ResumeCurrentRip, [])
  }

  function Called(m: MemoryMap, s: Machine, r: CallRegisters, env: Environment): Dispatched
    requires WellFormed(s.ept)
  {
    if IsSelfVmcall(r) then
      var o := Vmcall(m, s.(rax := STATUS_SUCCESS), r.rcx, r.rdx, r.r8, env);
      Dispatched(o.0, Keep, AdvanceRip, o.1)
    else Dispatched(s.(rax := env.hypercallRax), Keep, AdvanceRip, [])
  }

  /** The exit reasons whose handling is an emulation that can refuse; then a general-protection
      fault is injected. */
  predicate EmulatedOrFaulted(reason: nat) {
    reason in {EXIT_REASON_CR_ACCESS, EXIT_REASON_MSR_READ, EXIT_REASON_MSR_WRITE, EXIT_REASON_XSETBV}
  }

  /** The exits that touch nothing but the VMCS: the fields they leave and the action chosen. */
  function OnVmcs(f: Fields, reason: nat, env: Environment): (Fields, ExitAction) {
    if reason == EXIT_REASON_EXCEPTION_NMI then
      (InjectedFromExit(f), if f.exitInfo.valid then InjectEvent else ResumeCurrentRip)
    else if EmulatedOrFaulted(reason) then
      if !env.emulated then (GeneralProtection(f), InjectEvent)
      else if reason == EXIT_REASON_CR_ACCESS then (f.(guestCr3 := env.guestCr3, guestRsp := env.guestRsp), AdvanceRip)
      else (f, AdvanceRip)
    else if reason == EXIT_REASON_CPUID then (f, if env.emulated then AdvanceRip else ResumeCurrentRip)
    else if EXIT_REASON_VMCLEAR <= reason <= EXIT_REASON_VMXON then
      (f.(guestRflags := WithCarry(f.guestRflags)), AdvanceRip)
    else if reason in {EXIT_REASON_HLT, EXIT_REASON_INVD, EXIT_REASON_UMONITOR, EXIT_REASON_UMWAIT} then (f, AdvanceRip)
    else (f, ResumeCurrentRip)
  }

  /** A monitor trap exit finds the remembered record still on the list. */
  predicate TrapSafe(s: Machine, pending: Option<Hook>) {
    s.fields.exitReason % 0x10000 == EXIT_REASON_MONITOR_TRAP_FLAG && pending.Some? ==> pending.value in s.ept.hooks
  }

  /** The switch over the exit reason. */
  function Dispatch(m: MemoryMap, s: Machine, pending: Option<Hook>, r: CallRegisters, env: Environment): Dispatched
    requires WellFormed(s.ept) && TrapSafe(s, pending)
  {
    var reason := s.fields.exitReason % 0x10000;
    if reason == EXIT_REASON_MONITOR_TRAP_FLAG then Trapped(s, pending)
    else if reason == EXIT_REASON_EPT_VIOLATION then Violated(s, env)
    else if reason == EXIT_REASON_VMCALL then Called(m, s, r, env)
    else
      var (f, action) := OnVmcs(s.fields, reason, env);
      Dispatched(s.(fields := f), Keep, action, [])
  }

  /** The event pended by the previous exit is dropped first. */
  function DispatchCleared(
      m: MemoryMap, s: Machine, pending: Option<Hook>, r: CallRegisters, env: Environment): Dispatched
    requires WellFormed(s.ept) && TrapSafe(s, pending)
  {
    Dispatch(m, s.(fields := Cleared(s.fields)), pending, r, env)
  }

  /** Only VMXOFF takes the processor out of VMX operation. */
  lemma DispatchStaysInVmx(m: MemoryMap, s: Machine, pending: Option<Hook>, r: CallRegisters, env: Environment)
    requires WellFormed(s.ept) && TrapSafe(s, pending) && s.inVmxOperation
    ensures var t := DispatchCleared(m, s, pending, r, env).machine; t.inVmxOperation || t.vmxoff.executed
  {
  }

  /** What follows the switch: shutting down wins, an advance moves RIP, and an interrupted event
      is pended again. */
  function Closed(s: Machine, action: ExitAction): Machine {
    if s.vmxoff.executed || action == ShutdownVmx then s
    else if action == AdvanceRip then s.(fields := Reinjected(s.fields.(guestRip := NextRip(s.fields))))
    else s.(fields := Reinjected(s.fields))
  }

  /** VmexitHandler. */
  function HandleExit(
      m: MemoryMap, s: Machine, pending: Option<Hook>, r: CallRegisters, env: Environment): (o: Dispatched)
    requires WellFormed(s.ept) && TrapSafe(s, pending)
  {
    var d := DispatchCleared(m, s, pending, r, env);
    d.(machine := Closed(d.machine, d.action), action := if d.machine.vmxoff.executed then ShutdownVmx else d.action)
  }
}
