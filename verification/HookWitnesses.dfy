/** Runs from a new Ept object to the states in which the promises of HookTheorems fail. The
    memory map and the place of the tables are arbitrary throughout. */
module HookWitnesses {
  import opened Wrappers
  import opened Mtrr
  import opened PageTables
  import opened HookProtocol
  import opened HookRuns
  import opened HookTheorems

  // ----- Reaching a hooked page -----

  /** A request from a driver before launch, with both its allocations served. */
  function Request(virtualAddress: nat, page: nat, permissions: nat, buffer: nat): HookRequest {
    HookRequest(false, false, virtualAddress, permissions, page * PAGE_SIZE, Some(buffer), Some(buffer))
  }

  /** One more step of a reachable state. */
  lemma ReachOn(m: MemoryMap, kernel: KernelImage, base: nat, actions: seq<Action>, p: Processor, a: Action)
    requires Reachable(m, kernel, base, actions, p) && Stepable(p) && Enabled(kernel, p, a)
    ensures Inv(m, p) && Inv(m, Step(m, kernel, p, a))
    ensures Reachable(m, kernel, base, actions + [a], Step(m, kernel, p, a))
  {
    ConstructedInv(m, base);
    RunKeepsInv(m, kernel, Constructed(m, base), actions);
    RunAppend(m, kernel, Constructed(m, base), actions, a);
    StepKeepsInv(m, kernel, p, a);
  }

  /** The state q is p with one more page hooked, and p's tables and the buffer are all it uses. */
  ghost predicate HookedOn(p: Processor, r: HookRequest, q: Processor) {
    && |q.ept.hooks| == |p.ept.hooks| + 1 && q.ept.hooks[1..] == p.ept.hooks
    && q.ept.hooks[0].physicalBaseAddress == PageAlign(r.physical)
    && q.ept.hooks[0].virtualAddress == PageAlign(r.targetFunc)
    && q.pending == p.pending && q.fault.None?
    && q.requested == p.requested[PageAlign(r.targetFunc) := r.permissions]
    && q.given == p.given[PageAlign(r.targetFunc) := r.permissions]
    && (forall f | f in q.ept.tables.pml1 :: f in p.ept.tables.pml1 || Some(f) == r.splitBuffer)
  }

  lemma HookOn(m: MemoryMap, kernel: KernelImage, base: nat, actions: seq<Action>, p: Processor, r: HookRequest)
    requires Reachable(m, kernel, base, actions, p) && Stepable(p) && Enabled(kernel, p, HookPage(r))
    requires ReachesRecord(p.ept, r) && r.record.Some?
    ensures var q := Step(m, kernel, p, HookPage(r));
      Reachable(m, kernel, base, actions + [HookPage(r)], q) && Inv(m, q) && HookedOn(p, r, q)
  {
    ReachOn(m, kernel, base, actions, p, HookPage(r));
    HookInserts(m, p, r);
    SplitAdds(m, p.ept, r);
  }

  lemma SplitAdds(m: MemoryMap, s: EptState, r: HookRequest)
    requires WellFormed(s)
    ensures forall f | f in RootModePageHook(m, s, r).state.tables.pml1 ::
      f in s.tables.pml1 || Some(f) == r.splitBuffer
  {
  }

  /** The first hook of a new Ept object. */
  lemma FirstHook(
      m: MemoryMap, kernel: KernelImage, base: nat, virtualAddress: nat, page: nat, permissions: nat, buffer: nat)
    requires 0 < page < SMALL_PAGES && permissions in {1, 3, 4}
    ensures var r := Request(virtualAddress, page, permissions, buffer);
      var q := Step(m, kernel, Constructed(m, base), HookPage(r));
      Reachable(m, kernel, base, [HookPage(r)], q) && Inv(m, q) && HookedOn(Constructed(m, base), r, q)
  {
    IndicesOfPage(page, 0);
    var r := Request(virtualAddress, page, permissions, buffer);
    assert [] + [HookPage(r)] == [HookPage(r)];
    HookOn(m, kernel, base, [], Constructed(m, base), r);
  }

  // ----- A grant is pending -----

  const KERNEL: KernelImage := KernelImage(0x1000, 0x1000)
  const FIRST: Action := HookPage(Request(0x10000, 0x200, 1, 1000))
  const SECOND: Action := HookPage(Request(0x20000, 0x201, 1, 2000))

  /** An instruction of the kernel image writes to a page that may only be read. */
  function WriteTo(page: nat): Action {
    Violation(Qualification(false, true, false, true, false, false, false), page * PAGE_SIZE, 0, 0x1000)
  }

  function TwoHooked(m: MemoryMap, base: nat): Processor {
    Step(m, KERNEL, Step(m, KERNEL, Constructed(m, base), FIRST), SECOND)
  }

  lemma TwoHookedReachable(m: MemoryMap, base: nat)
    ensures var p := TwoHooked(m, base);
      && Reachable(m, KERNEL, base, [FIRST, SECOND], p) && Inv(m, p) && p.pending.None?
      && |p.ept.hooks| == 2
      && p.ept.hooks[0].physicalBaseAddress == 0x20_1000 && p.ept.hooks[1].physicalBaseAddress == 0x20_0000
      && p.ept.hooks[1].virtualAddress == 0x10000
  {
    FirstHook(m, KERNEL, base, 0x10000, 0x200, 1, 1000);
    IndicesOfPage(0x201, 0);
    var p := Step(m, KERNEL, Constructed(m, base), FIRST);
    assert [FIRST] + [SECOND] == [FIRST, SECOND];
    assert p.ept.hooks == [p.ept.hooks[0]];
    HookOn(m, KERNEL, base, [FIRST], p, SECOND.request);
    var hooks := TwoHooked(m, base).ept.hooks;
    assert hooks[1] == hooks[1..][0];
  }

  lemma WriteGrants(m: MemoryMap, p: Processor, page: nat, i: nat)
    requires Stepable(p) && i < |p.ept.hooks| && 0 < page < SMALL_PAGES
    requires IndexOfPhysical(p.ept.hooks, page * PAGE_SIZE) == i
    ensures var q := Step(m, KERNEL, p, WriteTo(page));
      q.pending == Some(p.ept.hooks[i]) && q.ept.hooks == p.ept.hooks
  {
  }

  function Granted(m: MemoryMap, base: nat): Processor {
    Step(m, KERNEL, TwoHooked(m, base), WriteTo(0x200))
  }

  /** A run of two hooks and one violation reaches a state with a grant pending. */
  lemma GrantReachable(m: MemoryMap, base: nat)
    ensures var p := Granted(m, base);
      && Reachable(m, KERNEL, base, [FIRST, SECOND, WriteTo(0x200)], p) && Inv(m, p) && p.pending.Some?
      && p.pending.value.physicalBaseAddress == 0x20_0000 && p.pending.value.virtualAddress == 0x10000
      && (exists h | h in p.ept.hooks :: h.physicalBaseAddress == 0x20_1000)
  {
    TwoHookedReachable(m, base);
    var two := TwoHooked(m, base);
    assert [FIRST, SECOND] + [WriteTo(0x200)] == [FIRST, SECOND, WriteTo(0x200)];
    ReachOn(m, KERNEL, base, [FIRST, SECOND], two, WriteTo(0x200));
    WriteGrants(m, two, 0x200, 1);
    assert two.ept.hooks[0] in two.ept.hooks;
  }

  ghost predicate SurvivesUntilTrap(m: MemoryMap, p: Processor, a: Action)
    requires Stepable(p) && a.Violation?
  {
    Inv(m, Step(m, KERNEL, Step(m, KERNEL, p, a), MonitorTrap))
  }

  lemma WriteOpens(p: Processor, page: nat)
    requires page > 0 && exists h | h in p.ept.hooks :: h.physicalBaseAddress == page * PAGE_SIZE
    ensures var a := WriteTo(page);
      && Opens(p.ept, a.qualification, a.guestPhysical, a.rip, KERNEL)
      && PageAlign(a.guestPhysical) == page * PAGE_SIZE
  {
  }

  /** A write to the other page before the trap breaks the invariant. */
  lemma SecondGrantFails(m: MemoryMap, base: nat)
    ensures Inv(m, Granted(m, base)) && !SurvivesUntilTrap(m, Granted(m, base), WriteTo(0x201))
  {
    GrantReachable(m, base);
    var p := Granted(m, base);
    WriteOpens(p, 0x201);
    SecondGrantIff(m, KERNEL, p, WriteTo(0x201));
  }

  /** Unhooking the granted page leaves the trap without its record. */
  lemma UnhookUnderGrantFails(m: MemoryMap, base: nat)
    ensures Inv(m, Granted(m, base)) && !Stepable(Step(m, KERNEL, Granted(m, base), UnhookPage(0x10000)))
  {
    GrantReachable(m, base);
    UnhookUnderGrantIff(m, KERNEL, Granted(m, base), 0x10000);
  }

  // ----- The protection given -----

  /** The rights of the first page on the list are the read right of the request that created it. */
  lemma FirstPageRights(
      m: MemoryMap, kernel: KernelImage, base: nat, actions: seq<Action>, p: Processor, permissions: nat)
    requires Reachable(m, kernel, base, actions, p) && |p.ept.hooks| > 0 && p.pending.None?
    requires p.ept.hooks[0].physicalBaseAddress == 0x20_0000
    requires var page := p.ept.hooks[0].virtualAddress; page in p.requested && p.requested[page] == permissions
    ensures WellSized(p.ept.tables) && HasRights(p.ept.tables, 0x20_0000, And(permissions, EPT_PAGE_READ))
  {
    NoWidening(m, kernel, base, actions, p, 0, 0);
  }

  /** A page protected with read and write access may be read only. */
  lemma WriteNotGiven(m: MemoryMap, kernel: KernelImage, base: nat)
    ensures var a := HookPage(Request(0x10000, 0x200, 3, 1000));
      var p := Step(m, kernel, Constructed(m, base), a);
      && Reachable(m, kernel, base, [a], p) && p.given == map[0x10000 := 3]
      && WellSized(p.ept.tables) && HasRights(p.ept.tables, 0x20_0000, 1)
  {
    FirstHook(m, kernel, base, 0x10000, 0x200, 3, 1000);
    var a := HookPage(Request(0x10000, 0x200, 3, 1000));
    HookedOnce(m, kernel, base, a.request, Step(m, kernel, Constructed(m, base), a));
  }

  lemma HookedOnce(m: MemoryMap, kernel: KernelImage, base: nat, r: HookRequest, p: Processor)
    requires Reachable(m, kernel, base, [HookPage(r)], p) && HookedOn(Constructed(m, base), r, p)
    requires r == Request(0x10000, 0x200, r.permissions, 1000)
    ensures p.given == map[0x10000 := r.permissions]
    ensures WellSized(p.ept.tables) && HasRights(p.ept.tables, 0x20_0000, And(r.permissions, EPT_PAGE_READ))
  {
    FirstPageRights(m, kernel, base, [HookPage(r)], p, r.permissions);
  }

  /** A request with read access for the page that is hooked already, without it. */
  lemma HookAgain(m: MemoryMap, kernel: KernelImage, base: nat, a: Action, p: Processor, r: HookRequest)
    requires Reachable(m, kernel, base, [a], p) && Stepable(p) && |p.ept.hooks| > 0 && p.pending.None?
    requires r == Request(0x10000, 0x200, 1, 2000) && p.requested == map[0x10000 := 4] == p.given
    requires p.ept.hooks[0].virtualAddress == 0x10000 && p.ept.hooks[0].physicalBaseAddress == 0x20_0000
    ensures var q := Step(m, kernel, p, HookPage(r));
      && Reachable(m, kernel, base, [a, HookPage(r)], q) && q.given == map[0x10000 := 1]
      && WellSized(q.ept.tables) && HasRights(q.ept.tables, 0x20_0000, 0)
  {
    assert p.ept.hooks[0] in p.ept.hooks;
    RehookChangesNothing(m, p.ept, r);
    assert [a] + [HookPage(r)] == [a, HookPage(r)];
    ReachOn(m, kernel, base, [a], p, HookPage(r));
    FirstPageRights(m, kernel, base, [a, HookPage(r)], Step(m, kernel, p, HookPage(r)), 4);
  }

  /** A page protected with execute access only, and then with read access only, has no rights. */
  lemma LaterReadNotGiven(m: MemoryMap, kernel: KernelImage, base: nat)
    ensures var a, b := HookPage(Request(0x10000, 0x200, 4, 1000)), HookPage(Request(0x10000, 0x200, 1, 2000));
      var p := Step(m, kernel, Step(m, kernel, Constructed(m, base), a), b);
      && Reachable(m, kernel, base, [a, b], p) && p.given == map[0x10000 := 1]
      && WellSized(p.ept.tables) && HasRights(p.ept.tables, 0x20_0000, 0)
  {
    FirstHook(m, kernel, base, 0x10000, 0x200, 4, 1000);
    var a, b := HookPage(Request(0x10000, 0x200, 4, 1000)), HookPage(Request(0x10000, 0x200, 1, 2000));
    HookAgain(m, kernel, base, a, Step(m, kernel, Constructed(m, base), a), b.request);
  }

  // ----- A missing record and a second virtual page -----

  /** When the very first hook request cannot allocate its record, a table in use is freed. */
  lemma FailedRecordFails(m: MemoryMap, base: nat)
    ensures !SafeFrees(RootModePageHook(m, Constructed(m, base).ept, Request(0x10000, 0x200, 1, 1000).(record := None)))
  {
    ConstructedInv(m, base);
    IndicesOfPage(0x200, 0);
    HookFreesSafelyIff(m, Constructed(m, base), Request(0x10000, 0x200, 1, 1000).(record := None));
  }

  /** Hooking a page under two addresses and unhooking it under the first and then the second leaves
      it restricted with no hook left. */
  lemma AliasFails(m: MemoryMap, kernel: KernelImage, base: nat)
    ensures var p := Step(m, kernel, Constructed(m, base), FIRST);
      var both := RootModePageHook(m, p.ept, Request(0x30000, 0x200, 1, 3000)).state;
      var none := BothUnhooked(both, 0x10000, 0x30000);
      && Reachable(m, kernel, base, [FIRST], p) && Inv(m, p) && |p.ept.hooks| == 1
      && none.hooks == [] && !Inv(m, p.(ept := none))
  {
    FirstHook(m, kernel, base, 0x10000, 0x200, 1, 1000);
    IndicesOfPage(0x200, 0);
    AliasOrderIff(m, Step(m, kernel, Constructed(m, base), FIRST), 0, Request(0x30000, 0x200, 1, 3000), false);
  }
}
