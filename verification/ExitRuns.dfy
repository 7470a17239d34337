/** Runs of VM exits on one processor, from its launch until it leaves VMX operation. */
module ExitRuns {
  import opened Wrappers
  import opened Mtrr
  import opened PageTables
  import opened HookProtocol
  import opened HookRuns
  import opened Vmcs
  import opened EventInjection
  import opened ExitProtocol
  import opened ExitTheorems

  /** An exit as the hardware delivers it: any field values, except that the monitor trap flag
      control is still as the previous exit left it. */
  datatype Exit = Exit(fields: Fields, registers: CallRegisters, env: Environment)

  datatype Core = Core(
    machine: Machine, pending: Option<Hook>, requested: map<nat, nat>, given: map<nat, nat>)

  function Arrived(c: Core, e: Exit): Machine {
    c.machine.(fields := e.fields.(monitorTrapFlag := c.machine.fields.monitorTrapFlag))
  }

  function CoreProcessor(c: Core): Processor {
    ProcessorOf(c.machine, c.pending, c.requested, c.given)
  }

  function ActionAt(c: Core, e: Exit): Option<Action> {
    ActionOf(Arrived(c, e), e.registers, e.env)
  }

  ghost predicate Live(c: Core) {
    Stepable(CoreProcessor(c))
  }

  function NextCore(m: MemoryMap, c: Core, e: Exit): Core
    requires Live(c)
  {
    var d := HandleExit(m, Arrived(c, e), c.pending, e.registers, e.env);
    var q := Stepped(m, e.env.kernel, CoreProcessor(c), ActionAt(c, e));
    Core(d.machine, PendingAfter(c.pending, d.pending), q.requested, q.given)
  }

  /** The processor is still in VMX operation, and a hook operation or violation is one the hook
      protocol allows; any other exit may come at any time. */
  ghost predicate Allowed(kernel: KernelImage, c: Core, e: Exit) {
    && Live(c) && !c.machine.vmxoff.executed
    && e.env.kernel == kernel && WellFormedExit(e.fields)
    && (ActionAt(c, e).Some? ==> Enabled(kernel, CoreProcessor(c), ActionAt(c, e).value))
  }

  ghost predicate AllowedRun(m: MemoryMap, kernel: KernelImage, c: Core, exits: seq<Exit>)
    decreases |exits|
  {
    exits != [] ==> Allowed(kernel, c, exits[0]) && AllowedRun(m, kernel, NextCore(m, c, exits[0]), exits[1..])
  }

  ghost function RunExits(m: MemoryMap, kernel: KernelImage, c: Core, exits: seq<Exit>): Core
    requires AllowedRun(m, kernel, c, exits)
    decreases |exits|
  {
    if exits == [] then c else RunExits(m, kernel, NextCore(m, c, exits[0]), exits[1..])
  }

  /** The hook-protocol steps among the exits of a run. */
  ghost function ActionsOf(m: MemoryMap, kernel: KernelImage, c: Core, exits: seq<Exit>): seq<Action>
    requires AllowedRun(m, kernel, c, exits)
    decreases |exits|
  {
    if exits == [] then []
    else
      (if ActionAt(c, exits[0]).Some? then [ActionAt(c, exits[0]).value] else [])
        + ActionsOf(m, kernel, NextCore(m, c, exits[0]), exits[1..])
  }

  // ----- Refinement -----

  /** The fault of the last exit is the guest's affair: it influences no later step. */
  lemma StepIgnoresFault(m: MemoryMap, kernel: KernelImage, p: Processor, a: Action)
    requires Stepable(p)
    ensures Step(m, kernel, p.(fault := None), a) == Step(m, kernel, p, a)
  {
  }

  lemma {:induction false} RunIgnoresFault(m: MemoryMap, kernel: KernelImage, p: Processor, actions: seq<Action>)
    requires EnabledRun(m, kernel, p.(fault := None), actions)
    ensures EnabledRun(m, kernel, p, actions)
    ensures Run(m, kernel, p, actions).(fault := None) == Run(m, kernel, p.(fault := None), actions).(fault := None)
  {
    if actions != [] {
      StepIgnoresFault(m, kernel, p, actions[0]);
    }
  }

  lemma NextIsStepped(m: MemoryMap, c: Core, e: Exit)
    requires Live(c) && !c.machine.vmxoff.executed
    ensures CoreProcessor(NextCore(m, c, e))
         == Stepped(m, e.env.kernel, CoreProcessor(c), ActionAt(c, e)).(fault := None)
  {
    ExitIsStep(m, Arrived(c, e), c.pending, e.registers, e.env, c.requested, c.given);
  }

  /** Every run of exits is, on the tables and the hooked pages, a run of the hook protocol. */
  lemma {:induction false} ExitRunRefines(m: MemoryMap, kernel: KernelImage, c: Core, exits: seq<Exit>)
    requires AllowedRun(m, kernel, c, exits)
    ensures var actions := ActionsOf(m, kernel, c, exits);
      && EnabledRun(m, kernel, CoreProcessor(c), actions)
      && Run(m, kernel, CoreProcessor(c), actions).(fault := None) == CoreProcessor(RunExits(m, kernel, c, exits))
    decreases |exits|
  {
    if exits != [] {
      var e, p := exits[0], CoreProcessor(c);
      var next := NextCore(m, c, e);
      var rest := ActionsOf(m, kernel, next, exits[1..]);
      NextIsStepped(m, c, e);
      ExitRunRefines(m, kernel, next, exits[1..]);
      if ActionAt(c, e).Some? {
        var actions := ActionsOf(m, kernel, c, exits);
        assert actions[0] == ActionAt(c, e).value && actions[1..] == rest;
        RunIgnoresFault(m, kernel, Step(m, kernel, p, actions[0]), rest);
      } else {
        assert ActionsOf(m, kernel, c, exits) == rest;
      }
    }
  }

  // ----- Whole runs -----

  /** A processor at its launch: pages may be hooked already, and no exit has opened one. */
  function Launched(p: Processor, fields: Fields): Core {
    Core(Machine(fields.(monitorTrapFlag := false), 0, true, false, true, VmxoffState(false, 0, 0), p.ept, 0),
         None, p.requested, p.given)
  }

  /** The exit is the driver's request to leave VMX operation, and its VMCLEAR fails. */
  predicate LeavesBadly(e: Exit) {
    && e.fields.exitReason % 0x10000 == EXIT_REASON_VMCALL
    && IsSelfVmcall(e.registers) && e.registers.rcx == VMCALL_VMXOFF && e.env.vmclearFails
  }

  predicate SomeLeavesBadly(exits: seq<Exit>) {
    exists e | e in exits :: LeavesBadly(e)
  }

  /** Over every run a VMX instruction is executed outside VMX operation exactly if some exit leaves
      VMX operation with a failing VMCLEAR. The processor is in VMX operation until it has left it,
      and as long as it is there the event pending after the last exit passes the entry checks. */
  lemma {:induction false} ExitRunDiscipline(m: MemoryMap, kernel: KernelImage, c: Core, exits: seq<Exit>)
    requires AllowedRun(m, kernel, c, exits)
    requires c.machine.inVmxOperation == !c.machine.vmxoff.executed
    ensures var t := RunExits(m, kernel, c, exits).machine;
      && (t.faulted <==> c.machine.faulted || SomeLeavesBadly(exits))
      && t.inVmxOperation == !t.vmxoff.executed
      && (exits != [] && t.inVmxOperation ==> LegalVmEntry(t.fields))
    decreases |exits|
  {
    if exits != [] {
      var e, rest := exits[0], exits[1..];
      var s := Arrived(c, e);
      NoVmxAfterVmxoff(m, s, c.pending, e.registers, e.env);
      RipDiscipline(m, s, c.pending, e.registers, e.env);
      if !SwitchesOff(s, e.registers) {
        EventAtEntry(m, s, c.pending, e.registers, e.env);
      }
      ExitRunDiscipline(m, kernel, NextCore(m, c, e), rest);
      assert SomeLeavesBadly(exits) <==> LeavesBadly(e) || SomeLeavesBadly(rest);
    }
  }

  /** Whatever exits a processor takes from a state the invariant allows, in any order, its tables
      map every address below 512 GB to itself, and the monitor trap is armed exactly while a grant
      is pending. */
  lemma ExitRunIdentity(m: MemoryMap, kernel: KernelImage, c: Core, exits: seq<Exit>, address: nat)
    requires forall k | 0 < k < LARGE_PAGES :: ValidForLargePage(m, k)
    requires Inv(m, CoreProcessor(c)) && AllowedRun(m, kernel, c, exits) && address < MAPPED_BYTES
    ensures Inv(m, CoreProcessor(RunExits(m, kernel, c, exits)))
    ensures var d := RunExits(m, kernel, c, exits);
      var w := Walk(d.machine.ept.tables, address);
      && w.Some? && w.value.frame == address / PAGE_SIZE
      && (address >= SIZE_2_MB ==> w.value.memoryType == MemoryTypeAt(m, PageAlign(address)) % 8)
      && (d.machine.fields.monitorTrapFlag <==> d.pending.Some?)
  {
    ExitRunRefines(m, kernel, c, exits);
    RunKeepsInv(m, kernel, CoreProcessor(c), ActionsOf(m, kernel, c, exits));
    IdentityUnderInv(m, CoreProcessor(RunExits(m, kernel, c, exits)), address);
  }

  /** So it is for a processor launched after any run of hook operations. */
  lemma LaunchedInv(m: MemoryMap, kernel: KernelImage, base: nat, actions: seq<Action>, p: Processor, fields: Fields)
    requires Reachable(m, kernel, base, actions, p) && p.pending.None?
    ensures Inv(m, CoreProcessor(Launched(p, fields)))
  {
    ConstructedInv(m, base);
    RunKeepsInv(m, kernel, Constructed(m, base), actions);
  }
}
