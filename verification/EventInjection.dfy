/** Pending an event for the next VM entry (EventInjection.cpp), and the VM-entry checks of
    section 26.2.1.3 of Intel SDM Vol 3C that the result has to pass. */
module EventInjection {
  import opened Wrappers
  import opened Vmcs

  const INTERRUPT_TYPE_NMI: nat := 2
  const INTERRUPT_TYPE_HARDWARE_EXCEPTION: nat := 3
  const INTERRUPT_TYPE_SOFTWARE_INTERRUPT: nat := 4
  const INTERRUPT_TYPE_PRIVILEGED_SOFTWARE_INTERRUPT: nat := 5
  const INTERRUPT_TYPE_SOFTWARE_EXCEPTION: nat := 6

  const EXCEPTION_VECTOR_NMI: nat := 2
  const EXCEPTION_VECTOR_BREAKPOINT: nat := 3
  const EXCEPTION_VECTOR_UNDEFINED_OPCODE: nat := 6
  const EXCEPTION_VECTOR_GENERAL_PROTECTION_FAULT: nat := 13
  const EXCEPTION_VECTOR_PAGE_FAULT: nat := 14

  predicate IsSoftwareEvent(kind: nat) {
    || kind == INTERRUPT_TYPE_SOFTWARE_INTERRUPT
    || kind == INTERRUPT_TYPE_PRIVILEGED_SOFTWARE_INTERRUPT
    || kind == INTERRUPT_TYPE_SOFTWARE_EXCEPTION
  }

  /** `info & VM_ENTRY_EVENT_MASK`: the mask keeps all but bits 30:12. */
  function Masked(info: EventInfo): EventInfo {
    info.(upper := 0)
  }

  // ----- What each function leaves in the VMCS -----

  function WithEvent(f: Fields, info: EventInfo, errorCode: nat, length: nat): Fields {
    f.(entryInfo := info, entryErrorCode := errorCode, entryInstructionLength := length)
  }

  function Cleared(f: Fields): Fields {
    WithEvent(f, NO_EVENT, 0, 0)
  }

  /** An event taken over from hardware exit or IDT-vectoring information; without an error code
      or an instruction length of its own it leaves those fields as given. */
  function TakenOver(f: Fields, info: EventInfo, errorCode: nat, noCode: nat, noLength: nat): Fields {
    WithEvent(
      f, Masked(info),
      if info.hasErrorCode then errorCode else noCode,
      if IsSoftwareEvent(info.kind) then f.exitInstructionLength else noLength)
  }

  function Reinjected(f: Fields): Fields {
    if f.entryInfo.valid || !f.idtVectoringInfo.valid then f
    else TakenOver(f, f.idtVectoringInfo, f.idtVectoringErrorCode, f.entryErrorCode, f.entryInstructionLength)
  }

  function InjectedFromExit(f: Fields): Fields {
    if !f.exitInfo.valid then f else TakenOver(f, f.exitInfo, f.exitErrorCode, 0, 0)
  }

  function Injected(f: Fields, kind: nat, vector: nat, deliverErrorCode: bool, errorCode: nat): Fields {
    WithEvent(
      f, EventInfo(vector, kind, deliverErrorCode, 0, true),
      if deliverErrorCode then errorCode else 0,
      if IsSoftwareEvent(kind) then f.entryInstructionLength else 0)
  }

  function GeneralProtection(f: Fields): Fields {
    Injected(f, INTERRUPT_TYPE_HARDWARE_EXCEPTION, EXCEPTION_VECTOR_GENERAL_PROTECTION_FAULT, true, 0)
  }

  function PageFaulted(f: Fields, errorCode: nat): Fields {
    Injected(f, INTERRUPT_TYPE_HARDWARE_EXCEPTION, EXCEPTION_VECTOR_PAGE_FAULT, true, errorCode)
  }

  // ----- The functions themselves -----

  method ClearPendingInjection(vmcs: Vmcs)
    requires vmcs.inVmxOperation
    modifies vmcs`fields, vmcs`faulted
    ensures vmcs.fields == Cleared(old(vmcs.fields)) && vmcs.faulted == old(vmcs.faulted)
  {
    vmcs.Vmwrite(vmcs.fields.(entryInfo := NO_EVENT));
    vmcs.Vmwrite(vmcs.fields.(entryErrorCode := 0));
    vmcs.Vmwrite(vmcs.fields.(entryInstructionLength := 0));
  }

  method SetupInstructionLength(vmcs: Vmcs)
    requires vmcs.inVmxOperation
    modifies vmcs`fields, vmcs`faulted
    ensures vmcs.fields == old(vmcs.fields).(entryInstructionLength := old(vmcs.fields).exitInstructionLength)
    ensures vmcs.faulted == old(vmcs.faulted)
  {
    var f := vmcs.Vmread();
    vmcs.Vmwrite(vmcs.fields.(entryInstructionLength := f.exitInstructionLength));
  }

  method ReinjectEventFromIdtVectoring(vmcs: Vmcs) returns (reinjected: bool)
    requires vmcs.inVmxOperation
    modifies vmcs`fields, vmcs`faulted
    ensures vmcs.fields == Reinjected(old(vmcs.fields)) && vmcs.faulted == old(vmcs.faulted)
    ensures reinjected <==> !old(vmcs.fields).entryInfo.valid && old(vmcs.fields).idtVectoringInfo.valid
  {
    var entry := vmcs.Vmread();
    var vectoring := vmcs.Vmread();
    if entry.entryInfo.valid || !vectoring.idtVectoringInfo.valid {
      return false;
    }
    vmcs.Vmwrite(vmcs.fields.(entryInfo := Masked(vectoring.idtVectoringInfo)));
    if vectoring.idtVectoringInfo.hasErrorCode {
      var code := vmcs.Vmread();
      vmcs.Vmwrite(vmcs.fields.(entryErrorCode := code.idtVectoringErrorCode));
    }
    if IsSoftwareEvent(vectoring.idtVectoringInfo.kind) {
      SetupInstructionLength(vmcs);
    }
    return true;
  }

  method InjectEventFromVmExitInterruption(vmcs: Vmcs, interruptExit: EventInfo) returns (injected: bool)
    requires vmcs.inVmxOperation && interruptExit == vmcs.fields.exitInfo
    modifies vmcs`fields, vmcs`faulted
    ensures vmcs.fields == InjectedFromExit(old(vmcs.fields)) && vmcs.faulted == old(vmcs.faulted)
    ensures injected <==> interruptExit.valid
  {
    if !interruptExit.valid {
      return false;
    }
    vmcs.Vmwrite(vmcs.fields.(entryInfo := Masked(interruptExit)));
    if interruptExit.hasErrorCode {
      var f := vmcs.Vmread();
      vmcs.Vmwrite(vmcs.fields.(entryErrorCode := f.exitErrorCode));
    } else {
      vmcs.Vmwrite(vmcs.fields.(entryErrorCode := 0));
    }
    if IsSoftwareEvent(interruptExit.kind) {
      SetupInstructionLength(vmcs);
    } else {
      vmcs.Vmwrite(vmcs.fields.(entryInstructionLength := 0));
    }
    return true;
  }

  method InjectInterruption(vmcs: Vmcs, kind: nat, vector: nat, deliverErrorCode: bool, errorCode: nat)
    requires vmcs.inVmxOperation
    modifies vmcs`fields, vmcs`faulted
    ensures vmcs.fields == Injected(old(vmcs.fields), kind, vector, deliverErrorCode, errorCode)
    ensures vmcs.faulted == old(vmcs.faulted)
  {
    vmcs.Vmwrite(vmcs.fields.(entryInfo := EventInfo(vector, kind, deliverErrorCode, 0, true)));
    if deliverErrorCode {
      vmcs.Vmwrite(vmcs.fields.(entryErrorCode := errorCode));
    } else {
      vmcs.Vmwrite(vmcs.fields.(entryErrorCode := 0));
    }
    if !IsSoftwareEvent(kind) {
      vmcs.Vmwrite(vmcs.fields.(entryInstructionLength := 0));
    }
  }

  method InjectBreakpoint(vmcs: Vmcs)
    requires vmcs.inVmxOperation
    modifies vmcs`fields, vmcs`faulted
    ensures vmcs.faulted == old(vmcs.faulted)
    ensures vmcs.fields == WithEvent(
        old(vmcs.fields), EventInfo(3, 6, false, 0, true), 0, old(vmcs.fields).exitInstructionLength)
  {
    InjectInterruption(vmcs, INTERRUPT_TYPE_SOFTWARE_EXCEPTION, EXCEPTION_VECTOR_BREAKPOINT, false, 0);
    SetupInstructionLength(vmcs);
  }

  method InjectGeneralProtection(vmcs: Vmcs)
    requires vmcs.inVmxOperation
    modifies vmcs`fields, vmcs`faulted
    ensures vmcs.fields == GeneralProtection(old(vmcs.fields)) && vmcs.faulted == old(vmcs.faulted)
  {
    InjectInterruption(vmcs, INTERRUPT_TYPE_HARDWARE_EXCEPTION, EXCEPTION_VECTOR_GENERAL_PROTECTION_FAULT, true, 0);
  }

  method InjectUndefinedOpcode(vmcs: Vmcs)
    requires vmcs.inVmxOperation
    modifies vmcs`fields, vmcs`faulted
    ensures vmcs.faulted == old(vmcs.faulted)
    ensures vmcs.fields == WithEvent(
        old(vmcs.fields), EventInfo(6, 3, false, 0, true), 0, 0)
  {
    InjectInterruption(vmcs, INTERRUPT_TYPE_HARDWARE_EXCEPTION, EXCEPTION_VECTOR_UNDEFINED_OPCODE, false, 0);
  }

  method InjectPageFault(vmcs: Vmcs, faultAddress: U64, errorCode: nat)
    requires vmcs.inVmxOperation
    modifies vmcs`fields, vmcs`faulted, vmcs`cr2
    ensures vmcs.fields == PageFaulted(old(vmcs.fields), errorCode) && vmcs.faulted == old(vmcs.faulted)
    ensures vmcs.cr2 == faultAddress
  {
    vmcs.cr2 := faultAddress;
    InjectInterruption(vmcs, INTERRUPT_TYPE_HARDWARE_EXCEPTION, EXCEPTION_VECTOR_PAGE_FAULT, true, errorCode);
  }

  // ----- VM-entry checks -----

  predicate VectorWithErrorCode(vector: nat) {
    vector == 8 || 10 <= vector <= 14 || vector == 17
  }

  /** An event description the processor produces on an exit, or accepts on an entry: no reserved
      type, the vector fits the type, and an error code comes with exactly the hardware
      exceptions that push one (in protected mode), with its upper bits clear. A software event
      has an instruction length of 1 to 15. */
  predicate WellFormedEvent(info: EventInfo, errorCode: nat, length: nat) {
    && info.kind != 1 && info.kind != 7
    && (info.kind == INTERRUPT_TYPE_NMI ==> info.vector == EXCEPTION_VECTOR_NMI)
    && (info.kind == INTERRUPT_TYPE_HARDWARE_EXCEPTION ==> info.vector <= 31)
    && (info.hasErrorCode <==> info.kind == INTERRUPT_TYPE_HARDWARE_EXCEPTION && VectorWithErrorCode(info.vector))
    && (info.hasErrorCode ==> errorCode < 0x8000)
    && (IsSoftwareEvent(info.kind) ==> 1 <= length <= 15)
  }

  predicate WellFormedExit(f: Fields) {
    && (f.idtVectoringInfo.valid ==>
          WellFormedEvent(f.idtVectoringInfo, f.idtVectoringErrorCode, f.exitInstructionLength))
    && (f.exitInfo.valid ==> WellFormedEvent(f.exitInfo, f.exitErrorCode, f.exitInstructionLength))
  }

  /** The VM-entry interruption fields pass the checks of section 26.2.1.3. */
  predicate LegalVmEntry(f: Fields) {
    && f.entryInfo.upper == 0
    && (f.entryInfo.valid ==> WellFormedEvent(f.entryInfo, f.entryErrorCode, f.entryInstructionLength))
    && (!f.entryInfo.hasErrorCode ==> f.entryErrorCode == 0)
    && (!(f.entryInfo.valid && IsSoftwareEvent(f.entryInfo.kind)) ==> f.entryInstructionLength == 0)
  }

  /** The event pending after an exit: the one the handler injected if there is one, else the one
      whose delivery the exit interrupted. Either way the entry checks pass. */
  lemma ReinjectedIsLegal(f: Fields)
    requires WellFormedExit(f)
    requires f == Cleared(f) || (f.entryInfo.valid && LegalVmEntry(f))
    ensures LegalVmEntry(Reinjected(f))
    ensures f.entryInfo.valid ==> Reinjected(f) == f
    ensures !f.entryInfo.valid && f.idtVectoringInfo.valid ==>
      Reinjected(f).entryInfo == Masked(f.idtVectoringInfo) && Reinjected(f).entryInfo.valid
    ensures !f.entryInfo.valid && !f.idtVectoringInfo.valid ==> !Reinjected(f).entryInfo.valid
  {
  }

  lemma InjectedIsLegal(f: Fields, errorCode: nat)
    requires WellFormedExit(f) && f == Cleared(f)
    ensures LegalVmEntry(InjectedFromExit(f))
    ensures LegalVmEntry(GeneralProtection(f))
    ensures errorCode < 32 ==> LegalVmEntry(PageFaulted(f, errorCode))
  {
  }
}
