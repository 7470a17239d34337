/** What holds of every VM exit, and of every run of exits on one processor. */
module ExitTheorems {
  import opened Wrappers
  import opened Mtrr
  import opened HookProtocol
  import opened Vmcs
  import opened EventInjection
  import opened ExitProtocol

  function Reason(s: Machine): nat {
    s.fields.exitReason % 0x10000
  }

  /** The exit is the driver's request to leave VMX operation. */
  predicate SwitchesOff(s: Machine, r: CallRegisters) {
    Reason(s) == EXIT_REASON_VMCALL && IsSelfVmcall(r) && r.rcx == VMCALL_VMXOFF
  }

  /** The exiting instruction has been carried out in the guest's place. */
  predicate Completes(s: Machine, env: Environment) {
    || Reason(s) in {EXIT_REASON_HLT, EXIT_REASON_INVD, EXIT_REASON_VMCALL, EXIT_REASON_UMONITOR, EXIT_REASON_UMWAIT}
    || EXIT_REASON_VMCLEAR <= Reason(s) <= EXIT_REASON_VMXON
    || ((EmulatedOrFaulted(Reason(s)) || Reason(s) == EXIT_REASON_CPUID) && env.emulated)
  }

  function ViolationOf(s: Machine, env: Environment): ViolationOutcome
    requires WellFormed(s.ept)
  {
    var f := s.fields;
    HandleEptViolation(s.ept, DecodeQualification(f.exitQualification), f.guestPhysicalAddress,
                       f.guestLinearAddress, f.guestRip, env.kernel)
  }

  /** The three VM-entry fields that describe a pending event. */
  datatype PendingEvent = PendingEvent(info: EventInfo, errorCode: nat, length: nat)

  const NOTHING: PendingEvent := PendingEvent(NO_EVENT, 0, 0)

  function PendingIn(f: Fields): PendingEvent {
    PendingEvent(f.entryInfo, f.entryErrorCode, f.entryInstructionLength)
  }

  function HardwareException(vector: nat, errorCode: nat): PendingEvent {
    PendingEvent(EventInfo(vector, INTERRUPT_TYPE_HARDWARE_EXCEPTION, true, 0, true), errorCode, 0)
  }

  /** An event the processor reported, as it has to be delivered again: its error code if it has
      one, the exit's instruction length if it is a software event. */
  function Redelivered(info: EventInfo, errorCode: nat, length: nat): PendingEvent {
    PendingEvent(
      Masked(info), if info.hasErrorCode then errorCode else 0, if IsSoftwareEvent(info.kind) then length else 0)
  }

  /** The event the exit itself calls for: the exception it is about, a general-protection fault
      for a refused emulation, or the page fault of a blocked access to a hooked page. */
  function OwnEvent(s: Machine, env: Environment): PendingEvent
    requires WellFormed(s.ept)
  {
    var f := s.fields;
    if Reason(s) == EXIT_REASON_EXCEPTION_NMI && f.exitInfo.valid then
      Redelivered(f.exitInfo, f.exitErrorCode, f.exitInstructionLength)
    else if EmulatedOrFaulted(Reason(s)) && !env.emulated then
      HardwareException(EXCEPTION_VECTOR_GENERAL_PROTECTION_FAULT, 0)
    else if Reason(s) == EXIT_REASON_EPT_VIOLATION && ViolationOf(s, env).fault.Some? then
      HardwareException(EXCEPTION_VECTOR_PAGE_FAULT, ViolationOf(s, env).fault.value.errorCode)
    else NOTHING
  }

  /** The event due at the next entry: the exit's own, else the one whose delivery it interrupted. */
  function EventDue(s: Machine, env: Environment): PendingEvent
    requires WellFormed(s.ept)
  {
    var f := s.fields;
    if OwnEvent(s, env).info.valid then OwnEvent(s, env)
    else if f.idtVectoringInfo.valid then
      Redelivered(f.idtVectoringInfo, f.idtVectoringErrorCode, f.exitInstructionLength)
    else NOTHING
  }

  // ----- The parts of the dispatch -----

  lemma VmcallKeepsFields(m: MemoryMap, s: Machine, number: U64, param1: U64, param2: U64, env: Environment)
    requires WellFormed(s.ept)
    ensures var t := Vmcall(m, s, number, param1, param2, env).0;
      && t.fields == s.fields && t.cr2 == s.cr2
      && t == (if number == VMCALL_VMXOFF then SwitchedOff(s, env.vmclearFails) else s).(ept := t.ept, rax := t.rax)
  {
  }

  /** An exit handled on the VMCS alone keeps RIP and the monitor trap, and its action says
      whether an event was injected or the instruction completed. */
  lemma OnVmcsKeeps(s: Machine, f: Fields, env: Environment)
    requires f == Cleared(s.fields)
    requires Reason(s) !in {EXIT_REASON_MONITOR_TRAP_FLAG, EXIT_REASON_EPT_VIOLATION, EXIT_REASON_VMCALL}
    ensures var (g, action) := OnVmcs(f, Reason(s), env);
      && g.guestRip == f.guestRip && g.exitInstructionLength == f.exitInstructionLength
      && g.monitorTrapFlag == f.monitorTrapFlag && action != ShutdownVmx
      && (action == AdvanceRip <==> Completes(s, env))
  {
  }

  // ----- Events -----

  /** After the dispatch: the exit's own event is pending, legally, or nothing, and what the
      processor reported about the exit is untouched. */
  ghost predicate OwnEventPending(s: Machine, env: Environment, f: Fields)
    requires WellFormed(s.ept)
  {
    && PendingIn(f) == OwnEvent(s, env) && LegalVmEntry(f) && (f.entryInfo.valid || f == Cleared(f))
    && f.idtVectoringInfo == s.fields.idtVectoringInfo && f.idtVectoringErrorCode == s.fields.idtVectoringErrorCode
    && f.exitInfo == s.fields.exitInfo && f.exitErrorCode == s.fields.exitErrorCode
    && f.exitInstructionLength == s.fields.exitInstructionLength
  }

  lemma OnVmcsEvent(s: Machine, env: Environment)
    requires WellFormed(s.ept) && WellFormedExit(s.fields)
    requires Reason(s) !in {EXIT_REASON_MONITOR_TRAP_FLAG, EXIT_REASON_EPT_VIOLATION, EXIT_REASON_VMCALL}
    ensures OwnEventPending(s, env, OnVmcs(Cleared(s.fields), Reason(s), env).0)
  {
    InjectedIsLegal(Cleared(s.fields), 0);
  }

  lemma ViolationEvent(s: Machine, env: Environment)
    requires WellFormed(s.ept) && WellFormedExit(s.fields) && Reason(s) == EXIT_REASON_EPT_VIOLATION
    ensures OwnEventPending(s, env, FieldsAfter(Cleared(s.fields), ViolationOf(s, env)))
  {
    var o := ViolationOf(s, env);
    if o.fault.Some? {
      InjectedIsLegal(Cleared(s.fields), o.fault.value.errorCode);
    }
  }

  lemma EventOfCall(m: MemoryMap, s: Machine, pending: Option<Hook>, r: CallRegisters, env: Environment)
    requires WellFormed(s.ept) && TrapSafe(s, pending) && WellFormedExit(s.fields)
    requires Reason(s) == EXIT_REASON_VMCALL
    ensures OwnEventPending(s, env, DispatchCleared(m, s, pending, r, env).machine.fields)
  {
    VmcallKeepsFields(m, s.(fields := Cleared(s.fields), rax := STATUS_SUCCESS), r.rcx, r.rdx, r.r8, env);
  }

  lemma EventOnVmcs(m: MemoryMap, s: Machine, pending: Option<Hook>, r: CallRegisters, env: Environment)
    requires WellFormed(s.ept) && TrapSafe(s, pending) && WellFormedExit(s.fields)
    requires Reason(s) !in {EXIT_REASON_MONITOR_TRAP_FLAG, EXIT_REASON_EPT_VIOLATION, EXIT_REASON_VMCALL}
    ensures OwnEventPending(s, env, DispatchCleared(m, s, pending, r, env).machine.fields)
  {
    OnVmcsEvent(s, env);
  }

  lemma EventOfHook(m: MemoryMap, s: Machine, pending: Option<Hook>, r: CallRegisters, env: Environment)
    requires WellFormed(s.ept) && TrapSafe(s, pending) && WellFormedExit(s.fields)
    requires Reason(s) in {EXIT_REASON_MONITOR_TRAP_FLAG, EXIT_REASON_EPT_VIOLATION}
    ensures OwnEventPending(s, env, DispatchCleared(m, s, pending, r, env).machine.fields)
  {
    if Reason(s) == EXIT_REASON_EPT_VIOLATION {
      ViolationEvent(s, env);
    }
  }

  lemma HandlerEvent(m: MemoryMap, s: Machine, pending: Option<Hook>, r: CallRegisters, env: Environment)
    requires WellFormed(s.ept) && TrapSafe(s, pending) && WellFormedExit(s.fields)
    ensures OwnEventPending(s, env, DispatchCleared(m, s, pending, r, env).machine.fields)
  {
    if Reason(s) == EXIT_REASON_VMCALL {
      EventOfCall(m, s, pending, r, env);
    } else if Reason(s) in {EXIT_REASON_MONITOR_TRAP_FLAG, EXIT_REASON_EPT_VIOLATION} {
      EventOfHook(m, s, pending, r, env);
    } else {
      EventOnVmcs(m, s, pending, r, env);
    }
  }

  /** VM-entry event legality: after an exit that stays in VMX operation exactly the event that is
      due is pending, the exit's own before the interrupted one, with its own error code and
      length, and it passes the checks of section 26.2.1.3. */
  lemma EventAtEntry(m: MemoryMap, s: Machine, pending: Option<Hook>, r: CallRegisters, env: Environment)
    requires WellFormed(s.ept) && TrapSafe(s, pending) && WellFormedExit(s.fields)
    requires !s.vmxoff.executed && !SwitchesOff(s, r)
    ensures var f := HandleExit(m, s, pending, r, env).machine.fields;
      PendingIn(f) == EventDue(s, env) && LegalVmEntry(f)
  {
    HandlerEvent(m, s, pending, r, env);
    OffOnlyByVmcall(m, s, pending, r, env);
    var d := DispatchCleared(m, s, pending, r, env);
    var f := d.machine.fields;
    ReinjectedIsDue(s, env, if d.action == AdvanceRip then f.(guestRip := NextRip(f)) else f);
  }

  lemma ReinjectedIsDue(s: Machine, env: Environment, f: Fields)
    requires WellFormed(s.ept) && OwnEventPending(s, env, f) && WellFormedExit(s.fields)
    ensures PendingIn(Reinjected(f)) == EventDue(s, env) && LegalVmEntry(Reinjected(f))
  {
    ReinjectedIsLegal(f);
  }

  // ----- RIP and VMXOFF -----

  lemma OffOnlyByVmcall(m: MemoryMap, s: Machine, pending: Option<Hook>, r: CallRegisters, env: Environment)
    requires WellFormed(s.ept) && TrapSafe(s, pending) && !s.vmxoff.executed
    ensures DispatchCleared(m, s, pending, r, env).machine.vmxoff.executed <==> SwitchesOff(s, r)
  {
  }

  /** RIP after the exit, or the saved one after VMXOFF. */
  ghost predicate RipMoved(s: Machine, r: CallRegisters, env: Environment, t: Machine)
    requires WellFormed(s.ept)
  {
    && (t.vmxoff.executed <==> SwitchesOff(s, r))
    && (SwitchesOff(s, r) ==>
          t.vmxoff == VmxoffState(true, NextRip(s.fields), s.fields.guestRsp) && t.fields.guestRip == s.fields.guestRip)
    && (!SwitchesOff(s, r) ==> t.fields.guestRip == if Completes(s, env) then NextRip(s.fields) else s.fields.guestRip)
    && (OwnEvent(s, env).info.valid ==> t.fields.guestRip == s.fields.guestRip && !t.vmxoff.executed)
  }

  lemma CallDispatched(m: MemoryMap, s: Machine, pending: Option<Hook>, r: CallRegisters, env: Environment)
    requires WellFormed(s.ept) && TrapSafe(s, pending) && Reason(s) == EXIT_REASON_VMCALL
    ensures var d := DispatchCleared(m, s, pending, r, env);
      && d.action == AdvanceRip && d.machine.fields == Cleared(s.fields)
      && d.machine.vmxoff ==
         if SwitchesOff(s, r) then VmxoffState(true, NextRip(s.fields), s.fields.guestRsp) else s.vmxoff
  {
    VmcallKeepsFields(m, s.(fields := Cleared(s.fields), rax := STATUS_SUCCESS), r.rcx, r.rdx, r.r8, env);
  }

  lemma RipOfCall(m: MemoryMap, s: Machine, pending: Option<Hook>, r: CallRegisters, env: Environment)
    requires WellFormed(s.ept) && TrapSafe(s, pending) && !s.vmxoff.executed
    requires Reason(s) == EXIT_REASON_VMCALL
    ensures RipMoved(s, r, env, HandleExit(m, s, pending, r, env).machine)
  {
    CallDispatched(m, s, pending, r, env);
  }

  lemma RipOnVmcs(m: MemoryMap, s: Machine, pending: Option<Hook>, r: CallRegisters, env: Environment)
    requires WellFormed(s.ept) && TrapSafe(s, pending) && !s.vmxoff.executed
    requires Reason(s) !in {EXIT_REASON_MONITOR_TRAP_FLAG, EXIT_REASON_EPT_VIOLATION, EXIT_REASON_VMCALL}
    ensures RipMoved(s, r, env, HandleExit(m, s, pending, r, env).machine)
  {
    OnVmcsKeeps(s, Cleared(s.fields), env);
  }

  lemma RipOfHook(m: MemoryMap, s: Machine, pending: Option<Hook>, r: CallRegisters, env: Environment)
    requires WellFormed(s.ept) && TrapSafe(s, pending) && !s.vmxoff.executed
    requires Reason(s) in {EXIT_REASON_MONITOR_TRAP_FLAG, EXIT_REASON_EPT_VIOLATION}
    ensures RipMoved(s, r, env, HandleExit(m, s, pending, r, env).machine)
  {
  }

  /** Exit discipline: RIP moves past the exiting instruction exactly once, and only when that
      instruction was completed; leaving VMX operation puts the moved RIP into the saved state. */
  lemma RipDiscipline(m: MemoryMap, s: Machine, pending: Option<Hook>, r: CallRegisters, env: Environment)
    requires WellFormed(s.ept) && TrapSafe(s, pending) && !s.vmxoff.executed
    ensures var t := HandleExit(m, s, pending, r, env).machine;
      && (t.vmxoff.executed <==> SwitchesOff(s, r))
      && (SwitchesOff(s, r) ==>
            && t.vmxoff == VmxoffState(true, NextRip(s.fields), s.fields.guestRsp)
            && t.fields.guestRip == s.fields.guestRip)
      && (!SwitchesOff(s, r) ==>
            t.fields.guestRip == if Completes(s, env) then NextRip(s.fields) else s.fields.guestRip)
      && (OwnEvent(s, env).info.valid ==> t.fields.guestRip == s.fields.guestRip && !t.vmxoff.executed)
  {
    if Reason(s) == EXIT_REASON_VMCALL {
      RipOfCall(m, s, pending, r, env);
    } else if Reason(s) in {EXIT_REASON_MONITOR_TRAP_FLAG, EXIT_REASON_EPT_VIOLATION} {
      RipOfHook(m, s, pending, r, env);
    } else {
      RipOnVmcs(m, s, pending, r, env);
    }
  }

  /** No VMX instruction runs after VMXOFF, except the second VMXOFF after a failed VMCLEAR. */
  lemma NoVmxAfterVmxoff(m: MemoryMap, s: Machine, pending: Option<Hook>, r: CallRegisters, env: Environment)
    requires WellFormed(s.ept) && TrapSafe(s, pending) && s.inVmxOperation && !s.vmxoff.executed
    ensures var t := HandleExit(m, s, pending, r, env).machine;
      && (t.faulted <==> s.faulted || (SwitchesOff(s, r) && env.vmclearFails))
      && (t.inVmxOperation <==> !SwitchesOff(s, r))
  {
  }

  // ----- Exits are steps of the hook protocol -----

  function ActionOf(s: Machine, r: CallRegisters, env: Environment): Option<Action> {
    var f := s.fields;
    if Reason(s) == EXIT_REASON_MONITOR_TRAP_FLAG then Some(MonitorTrap)
    else if Reason(s) == EXIT_REASON_EPT_VIOLATION then
      var q := DecodeQualification(f.exitQualification);
      Some(Violation(q, f.guestPhysicalAddress, f.guestLinearAddress, f.guestRip))
    else if Reason(s) != EXIT_REASON_VMCALL || !IsSelfVmcall(r) then None
    else if r.rcx == VMCALL_EXEC_HOOK_PAGE && r.rdx != 0 then Some(HookPage(RequestOf(s.launched, r.rdx, r.r8, env)))
    else if r.rcx == VMCALL_UNHOOK_SINGLE_PAGE && r.rdx != 0 then Some(UnhookPage(r.rdx))
    else if r.rcx == VMCALL_UNHOOK_ALL_PAGES then Some(UnhookAll)
    else None
  }

  function PendingAfter(pending: Option<Hook>, change: PendingChange): Option<Hook> {
    match change
    case Keep => pending
    case Granted(h) => Some(h)
    case Dropped => None
  }

  function ProcessorOf(s: Machine, pending: Option<Hook>, requested: map<nat, nat>, given: map<nat, nat>): Processor {
    Processor(s.ept, pending, s.fields.monitorTrapFlag, None, requested, given)
  }

  function Stepped(m: MemoryMap, kernel: KernelImage, p: Processor, a: Option<Action>): Processor
    requires WellFormed(p.ept) && (p.pending.Some? ==> p.pending.value in p.ept.hooks)
  {
    if a.None? then p else Step(m, kernel, p, a.value)
  }

  /** The page fault is what the guest gets at the next entry. */
  predicate Delivers(s: Machine, fault: PageFault) {
    && s.cr2 == fault.address
    && s.fields.entryInfo == EventInfo(EXCEPTION_VECTOR_PAGE_FAULT, INTERRUPT_TYPE_HARDWARE_EXCEPTION, true, 0, true)
    && s.fields.entryErrorCode == fault.errorCode
  }

  /** Closing an exit touches RIP and the pending event only. */
  lemma ClosedKeeps(s: Machine, action: ExitAction)
    ensures var t := Closed(s, action);
      && t == s.(fields := t.fields) && t.fields.monitorTrapFlag == s.fields.monitorTrapFlag
      && (s.fields.entryInfo.valid ==>
            t.fields.entryInfo == s.fields.entryInfo && t.fields.entryErrorCode == s.fields.entryErrorCode)
  {
  }

  /** A VMCALL of the driver is a step of the protocol, or none. */
  ghost predicate CallMirrors(m: MemoryMap, s: Machine, p: Processor, r: CallRegisters, env: Environment)
    requires WellFormed(s.ept) && (p.pending.Some? ==> p.pending.value in s.ept.hooks) && p.ept == s.ept
  {
    var q := Stepped(m, env.kernel, p, ActionOf(s, r, env));
    && q.ept == Vmcall(m, s, r.rcx, r.rdx, r.r8, env).0.ept
    && q.pending == p.pending && q.monitorTrap == p.monitorTrap && (p.fault.None? ==> q.fault.None?)
  }

  lemma HookCallIsStep(m: MemoryMap, s: Machine, p: Processor, r: CallRegisters, env: Environment)
    requires WellFormed(s.ept) && (p.pending.Some? ==> p.pending.value in s.ept.hooks) && p.ept == s.ept
    requires Reason(s) == EXIT_REASON_VMCALL && IsSelfVmcall(r) && r.rcx == VMCALL_EXEC_HOOK_PAGE
    ensures CallMirrors(m, s, p, r, env)
  {
  }

  lemma UnhookCallIsStep(m: MemoryMap, s: Machine, p: Processor, r: CallRegisters, env: Environment)
    requires WellFormed(s.ept) && (p.pending.Some? ==> p.pending.value in s.ept.hooks) && p.ept == s.ept
    requires Reason(s) == EXIT_REASON_VMCALL && IsSelfVmcall(r) && r.rcx == VMCALL_UNHOOK_SINGLE_PAGE
    ensures CallMirrors(m, s, p, r, env)
  {
    if r.rdx == 0 {
      assert ActionOf(s, r, env) == None;
    } else {
      assert ActionOf(s, r, env) == Some(UnhookPage(r.rdx));
    }
  }

  lemma UnhookAllCallIsStep(m: MemoryMap, s: Machine, p: Processor, r: CallRegisters, env: Environment)
    requires WellFormed(s.ept) && (p.pending.Some? ==> p.pending.value in s.ept.hooks) && p.ept == s.ept
    requires Reason(s) == EXIT_REASON_VMCALL && IsSelfVmcall(r) && r.rcx == VMCALL_UNHOOK_ALL_PAGES
    ensures CallMirrors(m, s, p, r, env)
  {
    assert ActionOf(s, r, env) == Some(UnhookAll);
  }

  lemma OtherCallIsNoStep(m: MemoryMap, s: Machine, p: Processor, r: CallRegisters, env: Environment)
    requires WellFormed(s.ept) && (p.pending.Some? ==> p.pending.value in s.ept.hooks) && p.ept == s.ept
    requires Reason(s) == EXIT_REASON_VMCALL && IsSelfVmcall(r)
    requires r.rcx !in {VMCALL_EXEC_HOOK_PAGE, VMCALL_UNHOOK_SINGLE_PAGE, VMCALL_UNHOOK_ALL_PAGES}
    ensures CallMirrors(m, s, p, r, env)
  {
  }

  lemma VmcallIsStep(m: MemoryMap, s: Machine, p: Processor, r: CallRegisters, env: Environment)
    requires WellFormed(s.ept) && (p.pending.Some? ==> p.pending.value in s.ept.hooks) && p.ept == s.ept
    requires Reason(s) == EXIT_REASON_VMCALL && IsSelfVmcall(r)
    ensures CallMirrors(m, s, p, r, env)
  {
    if r.rcx == VMCALL_EXEC_HOOK_PAGE {
      HookCallIsStep(m, s, p, r, env);
    } else if r.rcx == VMCALL_UNHOOK_SINGLE_PAGE {
      UnhookCallIsStep(m, s, p, r, env);
    } else if r.rcx == VMCALL_UNHOOK_ALL_PAGES {
      UnhookAllCallIsStep(m, s, p, r, env);
    } else {
      OtherCallIsNoStep(m, s, p, r, env);
    }
  }

  /** The exit leaves what the step q leaves, and delivers its fault. */
  ghost predicate Mirrors(d: Dispatched, pending: Option<Hook>, q: Processor) {
    && ProcessorOf(d.machine, PendingAfter(pending, d.pending), q.requested, q.given) == q.(fault := None)
    && (q.fault.Some? ==> Delivers(d.machine, q.fault.value))
  }

  lemma CallIsStep(
      m: MemoryMap, s: Machine, pending: Option<Hook>, r: CallRegisters, env: Environment,
      requested: map<nat, nat>, given: map<nat, nat>)
    requires WellFormed(s.ept) && (pending.Some? ==> pending.value in s.ept.hooks)
    requires !s.vmxoff.executed
    requires Reason(s) == EXIT_REASON_VMCALL
    ensures Mirrors(HandleExit(m, s, pending, r, env), pending,
                    Stepped(m, env.kernel, ProcessorOf(s, pending, requested, given), ActionOf(s, r, env)))
  {
    CallLeaves(m, s, ProcessorOf(s, pending, requested, given), r, env);
    var d := DispatchCleared(m, s, pending, r, env);
    ClosedKeeps(d.machine, d.action);
  }

  lemma CallLeaves(m: MemoryMap, s: Machine, p: Processor, r: CallRegisters, env: Environment)
    requires WellFormed(s.ept) && (p.pending.Some? ==> p.pending.value in s.ept.hooks) && p.ept == s.ept
    requires Reason(s) == EXIT_REASON_VMCALL && p.fault.None?
    ensures var d := DispatchCleared(m, s, p.pending, r, env);
      var q := Stepped(m, env.kernel, p, ActionOf(s, r, env));
      && q.ept == d.machine.ept && d.pending == Keep && d.machine.fields == Cleared(s.fields)
      && q.pending == p.pending && q.monitorTrap == p.monitorTrap && q.fault.None?
  {
    var c := s.(fields := Cleared(s.fields));
    VmcallKeepsFields(m, c.(rax := STATUS_SUCCESS), r.rcx, r.rdx, r.r8, env);
    if IsSelfVmcall(r) {
      VmcallIsStep(m, c.(rax := STATUS_SUCCESS), p, r, env);
    }
  }

  lemma OnVmcsIsNoStep(
      m: MemoryMap, s: Machine, pending: Option<Hook>, r: CallRegisters, env: Environment,
      requested: map<nat, nat>, given: map<nat, nat>)
    requires WellFormed(s.ept) && (pending.Some? ==> pending.value in s.ept.hooks)
    requires !s.vmxoff.executed
    requires Reason(s) !in {EXIT_REASON_MONITOR_TRAP_FLAG, EXIT_REASON_EPT_VIOLATION, EXIT_REASON_VMCALL}
    ensures Mirrors(HandleExit(m, s, pending, r, env), pending,
                    Stepped(m, env.kernel, ProcessorOf(s, pending, requested, given), ActionOf(s, r, env)))
  {
    OnVmcsKeeps(s, Cleared(s.fields), env);
    var d := DispatchCleared(m, s, pending, r, env);
    ClosedKeeps(d.machine, d.action);
  }

  lemma HookExitIsStep(
      m: MemoryMap, s: Machine, pending: Option<Hook>, r: CallRegisters, env: Environment,
      requested: map<nat, nat>, given: map<nat, nat>)
    requires WellFormed(s.ept) && (pending.Some? ==> pending.value in s.ept.hooks)
    requires !s.vmxoff.executed
    requires Reason(s) in {EXIT_REASON_MONITOR_TRAP_FLAG, EXIT_REASON_EPT_VIOLATION}
    ensures Mirrors(HandleExit(m, s, pending, r, env), pending,
                    Stepped(m, env.kernel, ProcessorOf(s, pending, requested, given), ActionOf(s, r, env)))
  {
    var d := DispatchCleared(m, s, pending, r, env);
    ClosedKeeps(d.machine, d.action);
  }

  /** Whatever the exit, the tables, the list, the grant and the monitor trap change as the hook
      protocol says, and not at all on the exits that are none of its business. A fault of the
      protocol is the event that ends up pending. */
  lemma ExitIsStep(
      m: MemoryMap, s: Machine, pending: Option<Hook>, r: CallRegisters, env: Environment,
      requested: map<nat, nat>, given: map<nat, nat>)
    requires WellFormed(s.ept) && (pending.Some? ==> pending.value in s.ept.hooks)
    requires !s.vmxoff.executed
    ensures var d := HandleExit(m, s, pending, r, env);
      var q := Stepped(m, env.kernel, ProcessorOf(s, pending, requested, given), ActionOf(s, r, env));
      && ProcessorOf(d.machine, PendingAfter(pending, d.pending), q.requested, q.given) == q.(fault := None)
      && (q.fault.Some? ==> Delivers(d.machine, q.fault.value))
  {
    if Reason(s) == EXIT_REASON_VMCALL {
      CallIsStep(m, s, pending, r, env, requested, given);
    } else if Reason(s) in {EXIT_REASON_MONITOR_TRAP_FLAG, EXIT_REASON_EPT_VIOLATION} {
      HookExitIsStep(m, s, pending, r, env, requested, given);
    } else {
      OnVmcsIsNoStep(m, s, pending, r, env, requested, given);
    }
  }
}
