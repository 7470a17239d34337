/** The whole system at work: the exits of every processor and the steps of the pool's threads, in
    any order. */
module HostExits {
  import opened Wrappers
  import opened Mtrr
  import opened PageTables
  import opened TableMemory
  import opened HookProtocol
  import opened HookRuns
  import opened Vmcs
  import opened ExitProtocol
  import opened ExitRuns
  import opened PoolProtocol
  import opened Ownership

  /** A processor between two exits, and the blocks it has claimed but not yet put to use. */
  datatype ExitCpu = ExitCpu(core: Core, held: multiset<Block>)

  datatype ExitHost = ExitHost(world: World, cpus: seq<ExitCpu>)

  datatype ExitStep =
    | Pooled(step: PoolStep)
    | ClaimBlock(cpu: nat, kind: AllocationType)
    | TakeExit(cpu: nat, exit: Exit)

  /** The hook protocol's view of it. */
  function HostOf(h: ExitHost): (t: Host)
    ensures |t.cpus| == |h.cpus|
  {
    Host(h.world, seq(|h.cpus|, i requires 0 <= i < |h.cpus| => Cpu(CoreProcessor(h.cpus[i].core), h.cpus[i].held)))
  }

  function SeenCore(c: Core, memory: map<nat, seq<nat>>): Core
    requires WellSized(c.machine.ept.tables)
  {
    c.(machine := c.machine.(ept := c.machine.ept.(tables := SeenTables(c.machine.ept.tables, memory))))
  }

  ghost predicate ExitDefined(h: ExitHost, s: ExitStep) {
    match s
    case Pooled(_) => true
    case ClaimBlock(i, _) => i < |h.cpus|
    case TakeExit(i, e) =>
      && i < |h.cpus| && WellSized(h.cpus[i].core.machine.ept.tables)
      && ExitRuns.Live(SeenCore(h.cpus[i].core, h.world.pool.memory))
  }

  /** The step of the hook protocol that an exit is, if any. */
  function StepOf(h: ExitHost, s: ExitStep): Option<HostStep> {
    match s
    case Pooled(step) => Some(Background(step))
    case ClaimBlock(i, kind) => Some(ClaimFor(i, kind))
    case TakeExit(i, e) =>
      if i >= |h.cpus| || ActionAt(h.cpus[i].core, e).None? then None
      else Some(Operate(i, ActionAt(h.cpus[i].core, e).value))
  }

  /** A processor takes exits as long as it is in VMX operation; those that are steps of the hook
      protocol are steps the whole system allows. */
  ghost predicate ExitEnabled(kernel: KernelImage, h: ExitHost, s: ExitStep) {
    && ExitDefined(h, s)
    && (StepOf(h, s).Some? ==> HostEnabled(kernel, HostOf(h), StepOf(h, s).value))
    && (s.TakeExit? ==> !h.cpus[s.cpu].core.machine.vmxoff.executed && s.exit.env.kernel == kernel)
  }

  function ExitNext(m: MemoryMap, h: ExitHost, s: ExitStep): ExitHost
    requires ExitDefined(h, s)
  {
    match s
    case Pooled(step) => h.(world := NextWorld(h.world, step))
    case ClaimBlock(i, kind) =>
      var address := Found(h.world.pool, kind).1;
      if address.None? then h
      else
        var held := h.cpus[i].held + multiset{Block(address.value, kind)};
        ExitHost(NextWorld(h.world, Claim(kind)), h.cpus[i := h.cpus[i].(held := held)])
    case TakeExit(i, e) =>
      var c := SeenCore(h.cpus[i].core, h.world.pool.memory);
      var next, a := NextCore(m, c, e), ActionAt(c, e);
      if a.None? then h.(cpus := h.cpus[i := h.cpus[i].(core := next)])
      else
        var w := StoredWorld(h.world, c.machine.ept, next.machine.ept);
        var held := TakeAll(h.cpus[i].held, Consumed(CoreProcessor(c), a.value));
        ExitHost(FreeAll(w, Freed(m, CoreProcessor(c), a.value)), h.cpus[i := ExitCpu(next, held)])
  }

  // ----- Refinement -----

  function AddressesOf(blocks: seq<Block>): seq<nat> {
    seq(|blocks|, i requires 0 <= i < |blocks| => blocks[i].address)
  }

  /** What the exit handler gives back to the pool are the blocks the protocol's step frees. */
  lemma ExitFrees(m: MemoryMap, c: Core, e: Exit)
    requires ExitRuns.Live(c)
    ensures var d := HandleExit(m, Arrived(c, e), c.pending, e.registers, e.env);
      d.freed == if ActionAt(c, e).None? then [] else AddressesOf(Freed(m, CoreProcessor(c), ActionAt(c, e).value))
  {
    if ActionAt(c, e).Some? {
      ActionFrees(m, c, e, ActionAt(c, e).value);
    }
  }

  lemma ActionFrees(m: MemoryMap, c: Core, e: Exit, a: Action)
    requires ExitRuns.Live(c) && ActionAt(c, e) == Some(a)
    ensures HandleExit(m, Arrived(c, e), c.pending, e.registers, e.env).freed
         == AddressesOf(Freed(m, CoreProcessor(c), a))
  {
    match a
    case HookPage(r) => assert AddressesOf(Blocks(RootModePageHook(m, c.machine.ept, r).freed, SplitPage))
                            == RootModePageHook(m, c.machine.ept, r).freed;
    case UnhookPage(_) =>
    case UnhookAll => assert AddressesOf(RecordBlocks(c.machine.ept.hooks)) == RecordsOf(c.machine.ept.hooks);
    case Violation(_, _, _, _) =>
    case MonitorTrap =>
  }

  lemma SeenCoreProcessor(c: Core, memory: map<nat, seq<nat>>, e: Exit)
    requires WellSized(c.machine.ept.tables)
    ensures CoreProcessor(SeenCore(c, memory)) == Seen(CoreProcessor(c), memory)
    ensures ActionAt(SeenCore(c, memory), e) == ActionAt(c, e)
  {
  }

  /** Every step is a step of the processors and the pool, or an exit that is none of its business. */
  lemma ExitStepRefines(m: MemoryMap, kernel: KernelImage, h: ExitHost, s: ExitStep)
    requires HostOk(m, HostOf(h)) && ExitEnabled(kernel, h, s)
    ensures HostOf(ExitNext(m, h, s)) ==
      if StepOf(h, s).None? then HostOf(h) else HostNext(m, kernel, HostOf(h), StepOf(h, s).value)
  {
    match s
    case Pooled(_) =>
    case ClaimBlock(i, kind) =>
    case TakeExit(i, e) =>
      if StepOf(h, s).Some? {
        HookExitRefines(m, kernel, h, i, e);
      } else {
        OtherExitRefines(m, kernel, h, i, e);
      }
  }

  lemma HookExitRefines(m: MemoryMap, kernel: KernelImage, h: ExitHost, i: nat, e: Exit)
    requires HostOk(m, HostOf(h)) && ExitEnabled(kernel, h, TakeExit(i, e)) && StepOf(h, TakeExit(i, e)).Some?
    ensures HostOf(ExitNext(m, h, TakeExit(i, e))) == HostNext(m, kernel, HostOf(h), StepOf(h, TakeExit(i, e)).value)
  {
    SeenCoreProcessor(h.cpus[i].core, h.world.pool.memory, e);
    NextIsStepped(m, SeenCore(h.cpus[i].core, h.world.pool.memory), e);
    OneCpuChanges(h, ExitNext(m, h, TakeExit(i, e)), i);
  }

  lemma OtherExitRefines(m: MemoryMap, kernel: KernelImage, h: ExitHost, i: nat, e: Exit)
    requires HostOk(m, HostOf(h)) && ExitEnabled(kernel, h, TakeExit(i, e)) && StepOf(h, TakeExit(i, e)).None?
    ensures HostOf(ExitNext(m, h, TakeExit(i, e))) == HostOf(h)
  {
    var t, memory := HostOf(h), h.world.pool.memory;
    assert t.cpus[i] in t.cpus;
    BackedIsSeen(t.cpus[i].processor.ept.tables, memory);
    SeenCoreProcessor(h.cpus[i].core, memory, e);
    NextIsStepped(m, SeenCore(h.cpus[i].core, memory), e);
    OneCpuChanges(h, ExitNext(m, h, TakeExit(i, e)), i);
    assert t.cpus[i := t.cpus[i]] == t.cpus;
  }

  lemma OneCpuChanges(h: ExitHost, next: ExitHost, i: nat)
    requires i < |h.cpus| && |next.cpus| == |h.cpus| && next.cpus == h.cpus[i := next.cpus[i]]
    ensures HostOf(next).cpus == HostOf(h).cpus[i := Cpu(CoreProcessor(next.cpus[i].core), next.cpus[i].held)]
  {
  }

  // ----- Whole runs -----

  ghost predicate ExitHostRunEnabled(m: MemoryMap, kernel: KernelImage, h: ExitHost, steps: seq<ExitStep>)
    decreases |steps|
  {
    steps != [] ==>
      && ExitEnabled(kernel, h, steps[0])
      && ExitHostRunEnabled(m, kernel, ExitNext(m, h, steps[0]), steps[1..])
  }

  ghost function ExitHostRun(m: MemoryMap, kernel: KernelImage, h: ExitHost, steps: seq<ExitStep>): ExitHost
    requires ExitHostRunEnabled(m, kernel, h, steps)
    decreases |steps|
  {
    if steps == [] then h else ExitHostRun(m, kernel, ExitNext(m, h, steps[0]), steps[1..])
  }

  lemma {:induction false} ExitHostRunKeeps(m: MemoryMap, kernel: KernelImage, h: ExitHost, steps: seq<ExitStep>)
    requires HostOk(m, HostOf(h)) && ExitHostRunEnabled(m, kernel, h, steps)
    ensures HostOk(m, HostOf(ExitHostRun(m, kernel, h, steps)))
    decreases |steps|
  {
    if steps != [] {
      ExitStepRefines(m, kernel, h, steps[0]);
      if StepOf(h, steps[0]).Some? {
        HostStepKeeps(m, kernel, HostOf(h), StepOf(h, steps[0]).value);
      }
      ExitHostRunKeeps(m, kernel, ExitNext(m, h, steps[0]), steps[1..]);
    }
  }

  /** The launch of every processor, after whatever the system did before it: pages may be hooked. */
  function LaunchedHost(h: Host, fields: nat -> Fields): ExitHost {
    ExitHost(h.world, seq(|h.cpus|, i requires 0 <= i < |h.cpus| =>
      ExitCpu(Launched(h.cpus[i].processor, fields(i)), h.cpus[i].held)))
  }

  lemma LaunchedHostOk(m: MemoryMap, h: Host, fields: nat -> Fields)
    requires HostOk(m, h) && forall c | c in h.cpus :: c.processor.pending.None?
    ensures HostOf(LaunchedHost(h, fields)) == h
  {
    var t := HostOf(LaunchedHost(h, fields));
    forall i | 0 <= i < |h.cpus|
      ensures t.cpus[i] == h.cpus[i]
    {
      var p := h.cpus[i].processor;
      assert h.cpus[i] in h.cpus && Inv(m, p) && !p.monitorTrap;
      assert CoreProcessor(Launched(p, fields(i))) == p;
    }
    assert t.cpus == h.cpus;
  }

  /** Whatever exits the processors take and however the pool's threads run in between, the hardware
      finds the identity in every processor's tables, memory types included, and its monitor trap
      is armed exactly while a grant is pending. */
  lemma ExitHostIdentity(
      m: MemoryMap, kernel: KernelImage, h: ExitHost, steps: seq<ExitStep>, i: nat, address: nat)
    requires forall k | 0 < k < LARGE_PAGES :: ValidForLargePage(m, k)
    requires HostOk(m, HostOf(h)) && ExitHostRunEnabled(m, kernel, h, steps)
    requires i < |ExitHostRun(m, kernel, h, steps).cpus| && address < MAPPED_BYTES
    ensures var t := ExitHostRun(m, kernel, h, steps);
      var c := t.cpus[i].core;
      && WellSized(c.machine.ept.tables)
      && var w := Walk(SeenTables(c.machine.ept.tables, t.world.pool.memory), address);
      && w.Some? && w.value.frame == address / PAGE_SIZE
      && (address >= SIZE_2_MB ==> w.value.memoryType == MemoryTypeAt(m, PageAlign(address)) % 8)
      && (c.machine.fields.monitorTrapFlag <==> c.pending.Some?)
  {
    ExitHostRunKeeps(m, kernel, h, steps);
    HardwareIdentity(m, HostOf(ExitHostRun(m, kernel, h, steps)), i, address);
  }
}
