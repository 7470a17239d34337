/** The VMCS fields the exit path touches, behind VMREAD and VMWRITE. */
module Vmcs {
  import opened Wrappers

  /** The 32-bit interruption-information format (EventInjection.h:53-74): bits 7:0, 10:8, 11,
      30:12 and 31. */
  datatype EventInfo = EventInfo(vector: nat, kind: nat, hasErrorCode: bool, upper: nat, valid: bool)

  const NO_EVENT: EventInfo := EventInfo(0, 0, false, 0, false)

  datatype Fields = Fields(
    // VM-entry control fields
    entryInfo: EventInfo, entryErrorCode: nat, entryInstructionLength: nat,
    monitorTrapFlag: bool,
    // guest-state fields
    guestRip: U64, guestRsp: U64, guestRflags: U64, guestCr3: U64,
    // VM-exit information fields
    exitReason: U64, exitQualification: U64, exitInfo: EventInfo, exitErrorCode: nat,
    idtVectoringInfo: EventInfo, idtVectoringErrorCode: nat, exitInstructionLength: nat,
    guestLinearAddress: U64, guestPhysicalAddress: nat)

  /** What VMXOFF saves for the return to the guest (VmState.h:11-16). */
  datatype VmxoffState = VmxoffState(executed: bool, rip: U64, rsp: U64)

  /** The current VMCS of one processor. Outside VMX operation every VMX instruction faults. */
  class Vmcs {
    var fields: Fields
    var inVmxOperation: bool
    var faulted: bool
    var cr2: U64

    constructor (fields: Fields)
      ensures this.fields == fields && inVmxOperation && !faulted
    {
      this.fields := fields;
      inVmxOperation, faulted, cr2 := true, false, 0;
    }

    /** One VMREAD; the caller selects the field. */
    method Vmread() returns (f: Fields)
      modifies this`faulted
      ensures faulted == (old(faulted) || !inVmxOperation)
      ensures f == fields
    {
      faulted := faulted || !inVmxOperation;
      f := fields;
    }

    /** One VMWRITE; the caller passes the fields with the written one replaced. */
    method Vmwrite(f: Fields)
      modifies this`faulted, this`fields
      ensures faulted == (old(faulted) || !inVmxOperation)
      ensures fields == if inVmxOperation then f else old(fields)
    {
      faulted := faulted || !inVmxOperation;
      if inVmxOperation {
        fields := f;
      }
    }

    /** VmxHelper::SetMonitorTrapFlag. */
    method SetMonitorTrapFlag(on: bool)
      modifies this`faulted, this`fields
      ensures faulted == (old(faulted) || !inVmxOperation)
      ensures fields == if inVmxOperation then old(fields).(monitorTrapFlag := on) else old(fields)
    {
      var f := Vmread();
      Vmwrite(f.(monitorTrapFlag := on));
    }

    method Vmxoff()
      modifies this`faulted, this`inVmxOperation
      ensures faulted == (old(faulted) || !old(inVmxOperation))
      ensures !inVmxOperation
    {
      faulted := faulted || !inVmxOperation;
      inVmxOperation := false;
    }
  }
}
