/** The VM-exit handler (VmexitHandler.cpp, VmcallHandler.cpp) and the helpers it calls, working
    on the VMCS, the processor's VmState and its Ept in place. */
module VmexitHandler {
  import opened Wrappers
  import opened PageTables
  import opened HookProtocol
  import opened IntrusiveList
  import opened Vmcs
  import opened ExitProtocol
  import opened Ept
  import EventInjection

  /** The guest's general-purpose registers (GUEST_REGS) as far as the handler touches them. */
  class GuestRegisters {
    var rax: U64
    var rcx: U64
    var rdx: U64
    var r8: U64
    var r10: U64
    var r11: U64
    var r12: U64

    constructor (r: CallRegisters)
      ensures Call() == r
    {
      rax, rcx, rdx, r8, r10, r11, r12 := 0, r.rcx, r.rdx, r.r8, r.r10, r.r11, r.r12;
    }

    ghost function Call(): CallRegisters
      reads this
    {
      CallRegisters(rcx, rdx, r8, r10, r11, r12)
    }
  }

  ghost function MachineOf(guest: VmState, vmcs: Vmcs, ept: Ept, registers: GuestRegisters): Machine
    reads guest, vmcs, ept, registers
  {
    Machine(vmcs.fields, vmcs.cr2, vmcs.inVmxOperation, vmcs.faulted,
            guest.isLaunched, guest.vmxoff, ept.model, registers.rax)
  }

  /** VmxHelper::ResumeToNextInstruction. */
  method ResumeToNextInstruction(vmcs: Vmcs)
    requires vmcs.inVmxOperation
    modifies vmcs`fields, vmcs`faulted
    ensures vmcs.fields == old(vmcs.fields).(guestRip := NextRip(old(vmcs.fields))) && vmcs.faulted == old(vmcs.faulted)
  {
    var current := vmcs.Vmread();
    var length := vmcs.Vmread();
    vmcs.Vmwrite(vmcs.fields.(guestRip := Wrap(current.guestRip + length.exitInstructionLength)));
  }

  /** VmxHelper::RestoreRegisters: the FS, GS, GDTR and IDTR fields are read for the host. */
  method RestoreRegisters(vmcs: Vmcs)
    requires vmcs.inVmxOperation
    modifies vmcs`faulted
    ensures vmcs.faulted == old(vmcs.faulted)
  {
    for i := 0 to 6
      invariant vmcs.faulted == old(vmcs.faulted)
    {
      var _ := vmcs.Vmread();
    }
  }

  /** VmxHelper::ClearVmcsState. */
  method ClearVmcsState(vmcs: Vmcs, vmclearFails: bool) returns (cleared: bool)
    requires vmcs.inVmxOperation
    modifies vmcs`inVmxOperation, vmcs`faulted
    ensures cleared == vmcs.inVmxOperation == !vmclearFails && vmcs.faulted == old(vmcs.faulted)
  {
    if vmclearFails {
      vmcs.Vmxoff();
      return false;
    }
    return true;
  }

  /** VmxVmxoff: every VMCS field the return to the guest needs is read before VMXOFF. */
  method VmxVmxoff(guest: VmState, vmcs: Vmcs, vmclearFails: bool)
    requires vmcs.inVmxOperation
    modifies guest`vmxoff, guest`isLaunched, vmcs`inVmxOperation, vmcs`faulted
    ensures guest.vmxoff == VmxoffState(true, NextRip(vmcs.fields), vmcs.fields.guestRsp) && !guest.isLaunched
    ensures !vmcs.inVmxOperation && vmcs.faulted == (old(vmcs.faulted) || vmclearFails)
  {
    var _ := vmcs.Vmread();
    var ripField := vmcs.Vmread();
    var rspField := vmcs.Vmread();
    var lengthField := vmcs.Vmread();
    guest.vmxoff := VmxoffState(true, Wrap(ripField.guestRip + lengthField.exitInstructionLength), rspField.guestRsp);
    RestoreRegisters(vmcs);
    var _ := ClearVmcsState(vmcs, vmclearFails);
    vmcs.Vmxoff();
    guest.isLaunched := false;
  }

  /** The objects of one processor do not overlap. */
  ghost predicate Apart(guest: VmState, vmcs: Vmcs, ept: Ept, registers: GuestRegisters)
    reads ept
  {
    guest !in ept.Repr && vmcs !in ept.Repr && registers !in ept.Repr
  }

  /** The case of VMCALL_EXEC_HOOK_PAGE. */
  method HookPageCall(
      guest: VmState, ept: Ept, target: U64, permissions: U64, env: Environment,
      splitBuffer: Option<SplitBuffer>, record: Option<RecordBuffer>)
    returns (status: U64, freed: seq<nat>)
    requires ept.Valid() && guest !in ept.Repr
    requires env.splitBuffer == BufferPage(splitBuffer) && env.record == RecordAddress(record)
    requires splitBuffer.Some? ==> ept.Linkable(splitBuffer.value)
    requires record.Some? ==> ept.Insertable(record.value)
    modifies ept`splits, ept`pageOf, ept`Repr, ept`model, ept.Repr, SplitObjects(splitBuffer), RecordObjects(record)
    ensures ept.Valid() && ept.Repr <= old(ept.Repr) + SplitObjects(splitBuffer) + RecordObjects(record)
    ensures target == 0 ==> status == STATUS_INVALID_PARAMETER && freed == [] && ept.model == old(ept.model)
    ensures target != 0 ==>
      var o := RootModePageHook(ept.memoryMap, old(ept.model), RequestOf(guest.isLaunched, target, permissions, env));
      status == StatusOf(o.ok) && freed == o.freed && ept.model == o.state
  {
    if target == 0 {
      return STATUS_INVALID_PARAMETER, [];
    }
    var ok;
    ok, freed := ept.RootModePageHook(RequestOf(guest.isLaunched, target, permissions, env), splitBuffer, record);
    status := StatusOf(ok);
  }

  /** The cases of VMCALL_UNHOOK_SINGLE_PAGE and VMCALL_UNHOOK_ALL_PAGES. */
  method UnhookCall(guest: VmState, ept: Ept, number: U64, target: U64) returns (status: U64, freed: seq<nat>)
    requires ept.Valid() && guest !in ept.Repr && guest.isOnVmxRoot
    requires number == VMCALL_UNHOOK_SINGLE_PAGE || number == VMCALL_UNHOOK_ALL_PAGES
    modifies ept`model, ept.Repr
    ensures ept.Valid()
    ensures var s := old(ept.model);
      if number == VMCALL_UNHOOK_ALL_PAGES then
        status == STATUS_SUCCESS && freed == RecordsOf(s.hooks) && ept.model == UnhookAllPages(s)
      else if target == 0 then status == STATUS_INVALID_PARAMETER && freed == [] && ept.model == s
      else
        var o := PageUnhook(s, target);
        status == StatusOf(o.1.Some?) && freed == (if o.1.Some? then [o.1.value] else []) && ept.model == o.0
  {
    if number == VMCALL_UNHOOK_ALL_PAGES {
      var ok;
      ok, freed := ept.UnhookAllPagesVmcall(guest);
      return StatusOf(ok), freed;
    }
    if target == 0 {
      return STATUS_INVALID_PARAMETER, [];
    }
    var ok, one := ept.PageUnhookVmcall(guest, target);
    return StatusOf(ok), if one.Some? then [one.value] else [];
  }

  /** VmcallHandler. */
  method VmcallHandler(
      guest: VmState, vmcs: Vmcs, ept: Ept, registers: GuestRegisters, env: Environment,
      splitBuffer: Option<SplitBuffer>, record: Option<RecordBuffer>)
    returns (status: U64, freed: seq<nat>)
    requires ept.Valid() && Apart(guest, vmcs, ept, registers) && vmcs.inVmxOperation && guest.isOnVmxRoot
    requires env.splitBuffer == BufferPage(splitBuffer) && env.record == RecordAddress(record)
    requires splitBuffer.Some? ==> ept.Linkable(splitBuffer.value)
    requires record.Some? ==> ept.Insertable(record.value)
    modifies guest`vmxoff, guest`isLaunched, vmcs`inVmxOperation, vmcs`faulted
    modifies ept`splits, ept`pageOf, ept`Repr, ept`model, ept.Repr
    modifies SplitObjects(splitBuffer)
    modifies RecordObjects(record)
    ensures ept.Valid() && Apart(guest, vmcs, ept, registers)
    ensures var o := Vmcall(ept.memoryMap, old(MachineOf(guest, vmcs, ept, registers)),
                            old(registers.rcx), old(registers.rdx), old(registers.r8), env);
      MachineOf(guest, vmcs, ept, registers).(rax := status) == o.0 && freed == o.1
    ensures registers.rax == old(registers.rax)
  {
    var number, param1, param2 := registers.rcx, registers.rdx, registers.r8;
    freed := [];
    status := STATUS_SUCCESS;
    if number == VMCALL_TEST || number == VMCALL_INVEPT_SINGLE_CONTEXT || number == VMCALL_INVEPT_ALL_CONTEXT {
      return;
    } else if number == VMCALL_VMXOFF {
      VmxVmxoff(guest, vmcs, env.vmclearFails);
    } else if number == VMCALL_EXEC_HOOK_PAGE {
      status, freed := HookPageCall(guest, ept, param1, param2, env, splitBuffer, record);
    } else if number == VMCALL_UNHOOK_SINGLE_PAGE || number == VMCALL_UNHOOK_ALL_PAGES {
      status, freed := UnhookCall(guest, ept, number, param1);
    } else {
      status := STATUS_INVALID_PARAMETER;
    }
  }

  // ----- GuestState.HookedPage -----

  ghost function PendingOf(guest: VmState): Option<Hook>
    reads guest, guest.hookedPage
  {
    if guest.hookedPage == null then None else guest.hookedPage.record
  }

  /** A monitor trap exit finds the remembered record still on the list. */
  ghost predicate TrapReady(guest: VmState, vmcs: Vmcs, ept: Ept)
    reads guest, guest.hookedPage, vmcs, ept, ept.hookedPages
  {
    vmcs.fields.exitReason % 0x10000 == EXIT_REASON_MONITOR_TRAP_FLAG && guest.hookedPage != null ==>
      && guest.hookedPage in ept.hookedPages.entries
      && guest.hookedPage.record.Some? && guest.hookedPage.record.value in ept.model.hooks
  }

  ghost predicate PendingFollows(guest: VmState, ept: Ept, change: PendingChange, before: ListEntry?<Hook>)
    reads guest, guest.hookedPage, ept, ept.hookedPages
  {
    match change
    case Keep => guest.hookedPage == before
    case Granted(h) =>
      guest.hookedPage != null && guest.hookedPage in ept.hookedPages.entries && guest.hookedPage.record == Some(h)
    case Dropped => guest.hookedPage == null
  }

  // ----- The cases of the switch that do more than choose an action -----

  method HandleException(vmcs: Vmcs) returns (action: ExitAction)
    requires vmcs.inVmxOperation
    modifies vmcs`fields, vmcs`faulted
    ensures vmcs.fields == EventInjection.InjectedFromExit(old(vmcs.fields)) && vmcs.faulted == old(vmcs.faulted)
    ensures action == if old(vmcs.fields).exitInfo.valid then InjectEvent else ResumeCurrentRip
  {
    var f := vmcs.Vmread();
    var injected := EventInjection.InjectEventFromVmExitInterruption(vmcs, f.exitInfo);
    if injected {
      return InjectEvent;
    }
    LogUnhandledVmExit(vmcs);
    return ResumeCurrentRip;
  }

  /** Four more reads of guest state; the log line itself is not modelled. */
  method LogUnhandledVmExit(vmcs: Vmcs)
    requires vmcs.inVmxOperation
    modifies vmcs`faulted
    ensures vmcs.faulted == old(vmcs.faulted)
  {
    for i := 0 to 4
      invariant vmcs.faulted == old(vmcs.faulted)
    {
      var _ := vmcs.Vmread();
    }
  }

  method HandleVmxInstruction(vmcs: Vmcs)
    requires vmcs.inVmxOperation
    modifies vmcs`fields, vmcs`faulted
    ensures vmcs.fields == old(vmcs.fields).(guestRflags := WithCarry(old(vmcs.fields).guestRflags))
    ensures vmcs.faulted == old(vmcs.faulted)
  {
    var f := vmcs.Vmread();
    vmcs.Vmwrite(vmcs.fields.(guestRflags := WithCarry(f.guestRflags)));
  }

  /** The exits that hand over to an emulator and inject a fault when it refuses. */
  method HandleEmulated(vmcs: Vmcs, reason: nat, env: Environment) returns (action: ExitAction)
    requires vmcs.inVmxOperation
    modifies vmcs`fields, vmcs`faulted
    ensures vmcs.faulted == old(vmcs.faulted)
    ensures action == if env.emulated then AdvanceRip else InjectEvent
    ensures vmcs.fields ==
      if !env.emulated then EventInjection.GeneralProtection(old(vmcs.fields))
      else if reason == EXIT_REASON_CR_ACCESS then old(vmcs.fields).(guestCr3 := env.guestCr3, guestRsp := env.guestRsp)
      else old(vmcs.fields)
  {
    if !env.emulated {
      EventInjection.InjectGeneralProtection(vmcs);
      return InjectEvent;
    }
    if reason == EXIT_REASON_CR_ACCESS {
      vmcs.Vmwrite(vmcs.fields.(guestCr3 := env.guestCr3, guestRsp := env.guestRsp));
    }
    return AdvanceRip;
  }

  /** The cases of the switch that involve the VMCS only. */
  method HandleOnVmcs(vmcs: Vmcs, exitReason: nat, env: Environment) returns (action: ExitAction)
    requires vmcs.inVmxOperation
    modifies vmcs`fields, vmcs`faulted
    ensures (vmcs.fields, action) == OnVmcs(old(vmcs.fields), exitReason, env) && vmcs.faulted == old(vmcs.faulted)
  {
    action := ResumeCurrentRip;
    if exitReason == EXIT_REASON_EXCEPTION_NMI {
      action := HandleException(vmcs);
    } else if exitReason == EXIT_REASON_HLT {
      action := AdvanceRip;
    } else if EXIT_REASON_VMCLEAR <= exitReason <= EXIT_REASON_VMXON {
      HandleVmxInstruction(vmcs);
      action := AdvanceRip;
    } else if EmulatedOrFaulted(exitReason) {
      action := HandleEmulated(vmcs, exitReason, env);
    } else if exitReason == EXIT_REASON_CPUID {
      if env.emulated {
        action := AdvanceRip;
      }
    } else if exitReason == EXIT_REASON_EPT_MISCONFIG {
      var _ := vmcs.Vmread();
    } else if exitReason == EXIT_REASON_INVD || exitReason == EXIT_REASON_UMONITOR || exitReason == EXIT_REASON_UMWAIT {
      action := AdvanceRip;
    } else if exitReason != EXIT_REASON_TRIPLE_FAULT {
      LogUnhandledVmExit(vmcs);
    }
  }

  method HandleTrap(guest: VmState, vmcs: Vmcs, ept: Ept)
    requires ept.Valid() && guest !in ept.Repr && vmcs !in ept.Repr && vmcs.inVmxOperation
    requires guest.hookedPage != null ==> guest.hookedPage in ept.hookedPages.entries
    modifies guest`hookedPage, vmcs`fields, vmcs`faulted, ept`model, ept.Repr
    ensures ept.Valid() && guest.hookedPage == null && vmcs.faulted == old(vmcs.faulted)
    ensures vmcs.fields == old(vmcs.fields).(monitorTrapFlag := false)
    ensures old(guest.hookedPage) == null ==> ept.model == old(ept.model)
    ensures old(guest.hookedPage) != null ==>
      var r := old(PendingOf(guest));
      && r.Some? && r.value in old(ept.model.hooks)
      && ept.model == old(ept.model).(tables := WriteEntry(old(ept.model.tables), r.value.entry, r.value.changed))
  {
    if guest.hookedPage != null {
      ept.HandleMonitorTrapFlag(guest.hookedPage);
      guest.hookedPage := null;
    }
    vmcs.SetMonitorTrapFlag(false);
  }

  method HandleViolation(guest: VmState, vmcs: Vmcs, ept: Ept, registers: GuestRegisters, env: Environment)
    requires ept.Valid() && Apart(guest, vmcs, ept, registers) && vmcs.inVmxOperation
    modifies guest`hookedPage, vmcs, ept`model, ept.Repr
    ensures ept.Valid()
    ensures var d := Violated(old(MachineOf(guest, vmcs, ept, registers)), env);
      && MachineOf(guest, vmcs, ept, registers) == d.machine
      && PendingFollows(guest, ept, d.pending, old(guest.hookedPage))
  {
    var f := vmcs.Vmread();
    ept.HandleEptViolation(guest, f.exitQualification, f.guestPhysicalAddress, env.kernel, vmcs);
  }

  /** A VMCALL of the hypervisor's own driver, or one forwarded to Hyper-V. */
  method HandleCall(
      guest: VmState, vmcs: Vmcs, ept: Ept, registers: GuestRegisters, env: Environment,
      splitBuffer: Option<SplitBuffer>, record: Option<RecordBuffer>)
    returns (freed: seq<nat>)
    requires ept.Valid() && Apart(guest, vmcs, ept, registers) && vmcs.inVmxOperation && guest.isOnVmxRoot
    requires env.splitBuffer == BufferPage(splitBuffer) && env.record == RecordAddress(record)
    requires splitBuffer.Some? ==> ept.Linkable(splitBuffer.value)
    requires record.Some? ==> ept.Insertable(record.value)
    modifies guest`vmxoff, guest`isLaunched, vmcs`inVmxOperation, vmcs`faulted, registers`rax
    modifies ept`splits, ept`pageOf, ept`Repr, ept`model, ept.Repr
    modifies SplitObjects(splitBuffer)
    modifies RecordObjects(record)
    ensures ept.Valid() && Apart(guest, vmcs, ept, registers)
    ensures var d := Called(ept.memoryMap, old(MachineOf(guest, vmcs, ept, registers)), old(registers.Call()), env);
      MachineOf(guest, vmcs, ept, registers) == d.machine && freed == d.freed
  {
    freed := [];
    registers.rax := STATUS_SUCCESS;
    if registers.r10 == HYPERVISOR_MAGIC && registers.r11 == VMCALL_MAGIC && registers.r12 == NO_HYPERV_MAGIC {
      var status;
      status, freed := VmcallHandler(guest, vmcs, ept, registers, env, splitBuffer, record);
      registers.rax := status;
    } else {
      registers.rax := env.hypercallRax;
    }
  }

  // ----- The handler -----

  /** The two cases of the switch that the hooked pages cause. */
  method HandleHookExit(
      guest: VmState, vmcs: Vmcs, ept: Ept, registers: GuestRegisters, exitReason: nat, env: Environment)
    requires ept.Valid() && Apart(guest, vmcs, ept, registers) && vmcs.inVmxOperation
    requires exitReason == vmcs.fields.exitReason % 0x10000 && TrapReady(guest, vmcs, ept)
    requires exitReason == EXIT_REASON_MONITOR_TRAP_FLAG || exitReason == EXIT_REASON_EPT_VIOLATION
    modifies guest`hookedPage, vmcs, ept`model, ept.Repr
    ensures ept.Valid() && Apart(guest, vmcs, ept, registers)
    ensures var s := old(MachineOf(guest, vmcs, ept, registers));
      var d := if exitReason == EXIT_REASON_EPT_VIOLATION then Violated(s, env) else Trapped(s, old(PendingOf(guest)));
      && MachineOf(guest, vmcs, ept, registers) == d.machine
      && PendingFollows(guest, ept, d.pending, old(guest.hookedPage))
  {
    if exitReason == EXIT_REASON_MONITOR_TRAP_FLAG {
      HandleTrap(guest, vmcs, ept);
    } else {
      HandleViolation(guest, vmcs, ept, registers, env);
    }
  }

  /** The switch over the exit reason. */
  method DispatchExit(
      guest: VmState, vmcs: Vmcs, ept: Ept, registers: GuestRegisters, exitReason: nat, env: Environment,
      splitBuffer: Option<SplitBuffer>, record: Option<RecordBuffer>)
    returns (action: ExitAction, freed: seq<nat>)
    requires ept.Valid() && Apart(guest, vmcs, ept, registers) && vmcs.inVmxOperation && guest.isOnVmxRoot
    requires exitReason == vmcs.fields.exitReason % 0x10000 && TrapReady(guest, vmcs, ept)
    requires env.splitBuffer == BufferPage(splitBuffer) && env.record == RecordAddress(record)
    requires splitBuffer.Some? ==> ept.Linkable(splitBuffer.value)
    requires record.Some? ==> ept.Insertable(record.value)
    modifies guest`hookedPage, guest`vmxoff, guest`isLaunched, vmcs, registers`rax
    modifies ept`splits, ept`pageOf, ept`Repr, ept`model, ept.Repr, SplitObjects(splitBuffer), RecordObjects(record)
    ensures ept.Valid() && Apart(guest, vmcs, ept, registers)
    ensures var d := Dispatch(ept.memoryMap, old(MachineOf(guest, vmcs, ept, registers)), old(PendingOf(guest)),
                              old(registers.Call()), env);
      && MachineOf(guest, vmcs, ept, registers) == d.machine && action == d.action && freed == d.freed
      && PendingFollows(guest, ept, d.pending, old(guest.hookedPage))
  {
    action, freed := ResumeCurrentRip, [];
    if exitReason == EXIT_REASON_MONITOR_TRAP_FLAG || exitReason == EXIT_REASON_EPT_VIOLATION {
      HandleHookExit(guest, vmcs, ept, registers, exitReason, env);
    } else if exitReason == EXIT_REASON_VMCALL {
      freed := HandleCall(guest, vmcs, ept, registers, env, splitBuffer, record);
      action := AdvanceRip;
    } else {
      action := HandleOnVmcs(vmcs, exitReason, env);
    }
  }

  method EnterRoot(guest: VmState, vmcs: Vmcs) returns (exitReason: nat)
    requires vmcs.inVmxOperation
    modifies guest`isOnVmxRoot, vmcs`fields, vmcs`faulted
    ensures guest.isOnVmxRoot && vmcs.faulted == old(vmcs.faulted)
    ensures vmcs.fields == EventInjection.Cleared(old(vmcs.fields)) && exitReason == vmcs.fields.exitReason % 0x10000
  {
    guest.isOnVmxRoot := true;
    var reasonField := vmcs.Vmread();
    var _ := vmcs.Vmread();
    exitReason := reasonField.exitReason % 0x10000;
    EventInjection.ClearPendingInjection(vmcs);
  }

  /** Enters root mode, drops the previous event and dispatches. */
  method OpenAndDispatch(
      guest: VmState, vmcs: Vmcs, ept: Ept, registers: GuestRegisters, env: Environment,
      splitBuffer: Option<SplitBuffer>, record: Option<RecordBuffer>)
    returns (action: ExitAction, freed: seq<nat>)
    requires ept.Valid() && Apart(guest, vmcs, ept, registers) && vmcs.inVmxOperation && TrapReady(guest, vmcs, ept)
    requires env.splitBuffer == BufferPage(splitBuffer) && env.record == RecordAddress(record)
    requires splitBuffer.Some? ==> ept.Linkable(splitBuffer.value)
    requires record.Some? ==> ept.Insertable(record.value)
    modifies guest, vmcs, registers`rax
    modifies ept`splits, ept`pageOf, ept`Repr, ept`model, ept.Repr, SplitObjects(splitBuffer), RecordObjects(record)
    ensures ept.Valid() && Apart(guest, vmcs, ept, registers)
    ensures var d := DispatchCleared(ept.memoryMap, old(MachineOf(guest, vmcs, ept, registers)), old(PendingOf(guest)),
                                old(registers.Call()), env);
      && MachineOf(guest, vmcs, ept, registers) == d.machine && action == d.action && freed == d.freed
      && PendingFollows(guest, ept, d.pending, old(guest.hookedPage))
  {
    var exitReason := EnterRoot(guest, vmcs);
    action, freed := DispatchExit(guest, vmcs, ept, registers, exitReason, env, splitBuffer, record);
  }

  /** VmexitHandler: true when VMXOFF was executed. */
  method VmexitHandler(
      guest: VmState, vmcs: Vmcs, ept: Ept, registers: GuestRegisters, env: Environment,
      splitBuffer: Option<SplitBuffer>, record: Option<RecordBuffer>)
    returns (vmxoffExecuted: bool, freed: seq<nat>)
    requires ept.Valid() && Apart(guest, vmcs, ept, registers) && vmcs.inVmxOperation && TrapReady(guest, vmcs, ept)
    requires env.splitBuffer == BufferPage(splitBuffer) && env.record == RecordAddress(record)
    requires splitBuffer.Some? ==> ept.Linkable(splitBuffer.value)
    requires record.Some? ==> ept.Insertable(record.value)
    modifies guest, vmcs, registers`rax
    modifies ept`splits, ept`pageOf, ept`Repr, ept`model, ept.Repr, SplitObjects(splitBuffer), RecordObjects(record)
    ensures ept.Valid() && !guest.isOnVmxRoot
    ensures var d := HandleExit(ept.memoryMap, old(MachineOf(guest, vmcs, ept, registers)), old(PendingOf(guest)),
                                old(registers.Call()), env);
      && MachineOf(guest, vmcs, ept, registers) == d.machine && freed == d.freed
      && vmxoffExecuted == d.machine.vmxoff.executed
      && PendingFollows(guest, ept, d.pending, old(guest.hookedPage))
  {
    DispatchStaysInVmx(ept.memoryMap, MachineOf(guest, vmcs, ept, registers), PendingOf(guest), registers.Call(), env);
    var action;
    action, freed := OpenAndDispatch(guest, vmcs, ept, registers, env, splitBuffer, record);
    CloseExit(guest, vmcs, ept, registers, action);
    vmxoffExecuted := guest.vmxoff.executed;
  }

  /** What follows the switch. */
  method CloseExit(guest: VmState, vmcs: Vmcs, ghost ept: Ept, ghost registers: GuestRegisters, chosen: ExitAction)
    requires !guest.vmxoff.executed ==> vmcs.inVmxOperation
    modifies vmcs`fields, vmcs`faulted, guest`isOnVmxRoot
    ensures MachineOf(guest, vmcs, ept, registers) == Closed(old(MachineOf(guest, vmcs, ept, registers)), chosen)
    ensures !guest.isOnVmxRoot
  {
    var action := chosen;
    if guest.vmxoff.executed {
      action := ShutdownVmx;
    }
    if action == AdvanceRip {
      ResumeToNextInstruction(vmcs);
    }
    if action != ShutdownVmx {
      var _ := EventInjection.ReinjectEventFromIdtVectoring(vmcs);
    }
    guest.isOnVmxRoot := false;
  }
}
