/** The promises of the hook protocol, and where the code does not keep them. */
module HookTheorems {
  import opened Wrappers
  import opened Mtrr
  import opened PageTables
  import opened HookProtocol
  import opened HookRuns

  // ----- Hook and unhook round trip -----

  ghost predicate Restricts(hooks: seq<Hook>, page: nat, e: Pte) {
    exists h | h in hooks :: PageOf(h) == page && h.changed == e
  }

  /** The same pages are hooked with the same entries, in whatever order and records. */
  ghost predicate SameProtection(a: seq<Hook>, b: seq<Hook>) {
    forall page, e :: Restricts(a, page, e) <==> Restricts(b, page, e)
  }

  lemma ProtectionDeterminesEntry(m: MemoryMap, a: seq<Hook>, b: seq<Hook>, page: nat)
    requires DistinctHooks(a) && DistinctHooks(b) && SameProtection(a, b)
    ensures EntryUnder(m, a, None, page) == EntryUnder(m, b, None, page)
  {
    if h :| h in a && PageOf(h) == page {
      assert Restricts(a, page, h.changed) && Restricts(b, page, h.changed);
      var i :| 0 <= i < |a| && a[i] == h;
      var g :| g in b && PageOf(g) == page && g.changed == h.changed;
      var j :| 0 <= j < |b| && b[j] == g;
      EntryUnderHooked(m, a, None, i);
      EntryUnderHooked(m, b, None, j);
    } else {
      forall g | g in b
        ensures PageOf(g) != page
      {
        assert Restricts(b, PageOf(g), g.changed) && Restricts(a, PageOf(g), g.changed);
      }
      EntryUnderUnhooked(m, a, None, page);
      EntryUnderUnhooked(m, b, None, page);
    }
  }

  /** The effective map forgets how it came about. Two states reached from the same construction
      with no grant pending and the same pages protected map every address above 2 MB page 0
      alike (frame, rights and memory type), however many hooks came and went in between and
      although split pages stay split. In page 0 only the memory type can differ, and only if
      one of the two states has split it. */
  lemma HookUnhookRoundTrip(
      m: MemoryMap, kernel: KernelImage, base: nat,
      before: seq<Action>, p: Processor, after: seq<Action>, q: Processor, address: nat)
    requires forall k | 0 < k < LARGE_PAGES :: ValidForLargePage(m, k)
    requires Reachable(m, kernel, base, before, p) && Reachable(m, kernel, base, after, q)
    requires p.pending.None? && q.pending.None? && SameProtection(p.ept.hooks, q.ept.hooks)
    requires address < MAPPED_BYTES
    ensures WellSized(p.ept.tables) && WellSized(q.ept.tables)
    ensures Walk(p.ept.tables, address).Some? && Walk(q.ept.tables, address).Some?
    ensures var v, w := Walk(p.ept.tables, address).value, Walk(q.ept.tables, address).value;
      && v.(memoryType := 0) == w.(memoryType := 0)
      && (address >= SIZE_2_MB || p.ept.tables.pml2[0].Large? == q.ept.tables.pml2[0].Large? ==> v == w)
  {
    ConstructedInv(m, base);
    RunKeepsInv(m, kernel, Constructed(m, base), before);
    RunKeepsInv(m, kernel, Constructed(m, base), after);
    SameMapUnderInv(m, p, q, address);
  }

  lemma SameMapUnderInv(m: MemoryMap, p: Processor, q: Processor, address: nat)
    requires Inv(m, p) && Inv(m, q) && address < MAPPED_BYTES
    requires forall k | 0 < k < LARGE_PAGES :: ValidForLargePage(m, k)
    requires p.pending.None? && q.pending.None? && SameProtection(p.ept.hooks, q.ept.hooks)
    ensures Walk(p.ept.tables, address).Some? && Walk(q.ept.tables, address).Some?
    ensures var v, w := Walk(p.ept.tables, address).value, Walk(q.ept.tables, address).value;
      && v.(memoryType := 0) == w.(memoryType := 0)
      && (address >= SIZE_2_MB || p.ept.tables.pml2[0].Large? == q.ept.tables.pml2[0].Large? ==> v == w)
  {
    var page, offset := address / PAGE_SIZE, address % PAGE_SIZE;
    assert page / 512 > 0 <==> address >= SIZE_2_MB;
    assert address == page * PAGE_SIZE + offset;
    WalkUnderProtection(m, p, page, offset);
    WalkUnderProtection(m, q, page, offset);
    ProtectionDeterminesEntry(m, p.ept.hooks, q.ept.hooks, page);
  }

  /** Outside a grant the records alone determine a translation, split or not, except for the memory
      type in the first large page. */
  lemma WalkUnderProtection(m: MemoryMap, p: Processor, page: nat, offset: nat)
    requires Inv(m, p) && p.pending.None? && page < SMALL_PAGES && offset < PAGE_SIZE
    requires page / 512 > 0 ==> ValidForLargePage(m, page / 512)
    ensures var w := Walk(p.ept.tables, page * PAGE_SIZE + offset);
      && w.Some?
      && var e := EffectiveTranslation(m, p.ept.hooks, None, page);
      w.value == if page / 512 > 0 || p.ept.tables.pml2[0].Table? then e
                 else e.(memoryType := LargeEntry(m, 0).memoryType)
  {
    WalkUnderInv(m, p, page, offset);
    LargeSlotUnhooked(m, p, page);
    if page / 512 > 0 {
      TypeOfPage(m, page);
    }
  }

  /** A page of an unsplit large page is not hooked. */
  lemma LargeSlotUnhooked(m: MemoryMap, p: Processor, page: nat)
    requires Inv(m, p) && page < SMALL_PAGES
    ensures p.ept.tables.pml2[page / 512].Large? ==>
      EntryUnder(m, p.ept.hooks, p.pending, page) == SmallEntry(m, page)
  {
    if p.ept.tables.pml2[page / 512].Large? {
      forall h | h in p.ept.hooks
        ensures PageOf(h) != page
      {
        assert Placed(p.ept.tables, h);
      }
      EntryUnderUnhooked(m, p.ept.hooks, p.pending, page);
    }
  }

  /** Unhooking everything gives back the map the construction made. */
  lemma UnhookAllRestores(
      m: MemoryMap, kernel: KernelImage, base: nat, actions: seq<Action>, p: Processor, address: nat)
    requires forall k | 0 < k < LARGE_PAGES :: ValidForLargePage(m, k)
    requires Reachable(m, kernel, base, actions, p) && p.pending.None?
    requires SIZE_2_MB <= address < MAPPED_BYTES
    ensures Stepable(p)
    ensures var q := Step(m, kernel, p, UnhookAll);
      q.ept.hooks == [] && Walk(q.ept.tables, address) == Walk(IdentityTables(m, base), address)
  {
    ConstructedInv(m, base);
    RunKeepsInv(m, kernel, Constructed(m, base), actions);
    var q := Step(m, kernel, p, UnhookAll);
    RunAppend(m, kernel, Constructed(m, base), actions, UnhookAll);
    HookUnhookRoundTrip(m, kernel, base, [], Constructed(m, base), actions + [UnhookAll], q, address);
  }

  lemma {:induction false} RunAppend(m: MemoryMap, kernel: KernelImage, p: Processor, actions: seq<Action>, a: Action)
    requires EnabledRun(m, kernel, p, actions)
    requires Stepable(Run(m, kernel, p, actions)) && Enabled(kernel, Run(m, kernel, p, actions), a)
    ensures EnabledRun(m, kernel, p, actions + [a])
    ensures Run(m, kernel, p, actions + [a]) == Step(m, kernel, Run(m, kernel, p, actions), a)
    decreases |actions|
  {
    if actions == [] {
      assert [a][1..] == [];
    } else {
      RunAppend(m, kernel, Step(m, kernel, p, actions[0]), actions[1..], a);
      assert (actions + [a])[1..] == actions[1..] + [a];
    }
  }

  // ----- The grant protocol -----

  lemma LiveEntry(m: MemoryMap, p: Processor, j: nat)
    requires Inv(m, p) && j < |p.ept.hooks|
    ensures var h := p.ept.hooks[j];
      && ReadEntry(p.ept.tables, h.entry) == (if p.pending == Some(h) then h.original else h.changed)
      && h.original != h.changed
  {
    var t, h := p.ept.tables, p.ept.hooks[j];
    assert Describes(m, h, p.requested) && Placed(t, h);
    RestrictAccessKeepsReadOnly(h.original, p.requested[h.virtualAddress]);
    var k := PageOf(h) / 512;
    assert SlotOk(m, t, p.ept.hooks, p.pending, k);
    assert k * 512 + h.entry.index == PageOf(h);
    EntryUnderHooked(m, p.ept.hooks, p.pending, j);
  }

  /** In every reachable state the monitor trap is armed exactly while a grant is pending; then
      the granted page, and it alone, has its original entry, and the trap closes it again. */
  lemma GrantProtocol(m: MemoryMap, kernel: KernelImage, base: nat, actions: seq<Action>, p: Processor)
    requires Reachable(m, kernel, base, actions, p)
    ensures Inv(m, p)
    ensures p.monitorTrap <==> p.pending.Some?
    ensures p.pending.Some? ==> p.pending.value in p.ept.hooks
    ensures forall h | h in p.ept.hooks ::
      ReadEntry(p.ept.tables, h.entry) == h.original <==> p.pending == Some(h)
    ensures forall h | h in p.ept.hooks && p.pending != Some(h) :: ReadEntry(p.ept.tables, h.entry) == h.changed
    ensures var q := Step(m, kernel, p, MonitorTrap);
      && !q.monitorTrap && q.pending.None? && q.ept.hooks == p.ept.hooks
      && forall h | h in q.ept.hooks :: ReadEntry(q.ept.tables, h.entry) == h.changed
  {
    ConstructedInv(m, base);
    RunKeepsInv(m, kernel, Constructed(m, base), actions);
    StepKeepsInv(m, kernel, p, MonitorTrap);
    var q := Step(m, kernel, p, MonitorTrap);
    forall h | h in p.ept.hooks
      ensures ReadEntry(p.ept.tables, h.entry) == h.original <==> p.pending == Some(h)
      ensures p.pending != Some(h) ==> ReadEntry(p.ept.tables, h.entry) == h.changed
      ensures ReadEntry(q.ept.tables, h.entry) == h.changed
    {
      var j :| 0 <= j < |p.ept.hooks| && p.ept.hooks[j] == h;
      LiveEntry(m, p, j);
      LiveEntry(m, q, j);
    }
  }

  lemma OtherEntryKept(t: Tables, r: EntryRef, e: Pte, other: EntryRef)
    requires WellSized(t) && r.table in t.pml1 && r.index < 512
    requires other.table in t.pml1 && other.index < 512
    ensures ReadEntry(WriteEntry(t, r, e), other) == if other == r then e else ReadEntry(t, other)
  {
  }

  /** The first page stays open when the trap closes the second. */
  lemma SecondGrantLosesFirst(m: MemoryMap, p: Processor, i: nat, j: nat, trapped: Processor)
    requires Inv(m, p) && i < |p.ept.hooks| && j < |p.ept.hooks| && i != j
    requires p.pending == Some(p.ept.hooks[i])
    requires var h := p.ept.hooks[j];
      trapped.ept == p.ept.(tables := WriteEntry(WriteEntry(p.ept.tables, h.entry, h.original), h.entry, h.changed))
    requires trapped.pending.None?
    ensures !Inv(m, trapped)
  {
    var first, second := p.ept.hooks[i], p.ept.hooks[j];
    LiveEntry(m, p, i);
    DistinctEntries(m, p, i, j);
    OtherEntryKept(p.ept.tables, second.entry, second.original, first.entry);
    OtherEntryKept(WriteEntry(p.ept.tables, second.entry, second.original), second.entry, second.changed, first.entry);
    if Inv(m, trapped) {
      LiveEntry(m, trapped, i);
    }
  }

  lemma SameGrantKept(m: MemoryMap, p: Processor, i: nat, trapped: Processor)
    requires Inv(m, p) && i < |p.ept.hooks| && p.pending == Some(p.ept.hooks[i])
    requires var h := p.ept.hooks[i];
      trapped.ept == p.ept.(tables := WriteEntry(WriteEntry(p.ept.tables, h.entry, h.original), h.entry, h.changed))
    requires trapped.pending.None? && !trapped.monitorTrap && trapped.requested == p.requested
    ensures Inv(m, trapped)
  {
    var h := p.ept.hooks[i];
    GrantKeepsInv(m, p.ept.tables, p.ept.hooks, p.requested, i, p.pending, p.pending);
    GrantKeepsInv(m, WriteEntry(p.ept.tables, h.entry, h.original), p.ept.hooks, p.requested, i, p.pending, None);
  }

  lemma GrantThenTrap(m: MemoryMap, kernel: KernelImage, p: Processor, a: Action)
    requires Stepable(p) && a.Violation?
    requires HandleEptViolation(p.ept, a.qualification, a.guestPhysical, a.guestLinear, a.rip, kernel).grant.Some?
    ensures var j := IndexOfPhysical(p.ept.hooks, PageAlign(a.guestPhysical));
      && j < |p.ept.hooks|
      && var h := p.ept.hooks[j];
      && var q := Step(m, kernel, p, a);
      && q.pending == Some(h)
      && var trapped := Step(m, kernel, q, MonitorTrap);
      && trapped.ept == p.ept.(tables := WriteEntry(WriteEntry(p.ept.tables, h.entry, h.original), h.entry, h.changed))
      && trapped.pending.None? && !trapped.monitorTrap && trapped.requested == p.requested
  {
  }

  /** Only one grant is remembered. When a second access opens a page before the trap, the first
      page stays open for good, so the protocol survives it exactly when it goes to the page that is
      open already. */
  lemma SecondGrantIff(m: MemoryMap, kernel: KernelImage, p: Processor, a: Action)
    requires Inv(m, p) && p.pending.Some? && a.Violation?
    requires Opens(p.ept, a.qualification, a.guestPhysical, a.rip, kernel)
    ensures var trapped := Step(m, kernel, Step(m, kernel, p, a), MonitorTrap);
      Inv(m, trapped) <==> PageAlign(a.guestPhysical) == p.pending.value.physicalBaseAddress
  {
    OpensIsGrant(p, a, kernel);
    GrantThenTrap(m, kernel, p, a);
    var j := IndexOfPhysical(p.ept.hooks, PageAlign(a.guestPhysical));
    TrappedIff(m, p, j, Step(m, kernel, Step(m, kernel, p, a), MonitorTrap));
  }

  /** Record j was opened on top of the pending grant and closed again. */
  lemma TrappedIff(m: MemoryMap, p: Processor, j: nat, trapped: Processor)
    requires Inv(m, p) && p.pending.Some? && j < |p.ept.hooks|
    requires var h := p.ept.hooks[j];
      trapped.ept == p.ept.(tables := WriteEntry(WriteEntry(p.ept.tables, h.entry, h.original), h.entry, h.changed))
    requires trapped.pending.None? && !trapped.monitorTrap && trapped.requested == p.requested
    ensures Inv(m, trapped) <==> p.ept.hooks[j].physicalBaseAddress == p.pending.value.physicalBaseAddress
  {
    var i :| 0 <= i < |p.ept.hooks| && p.ept.hooks[i] == p.pending.value;
    if i == j {
      SameGrantKept(m, p, i, trapped);
    } else {
      SecondGrantLosesFirst(m, p, i, j, trapped);
      assert PageOf(p.ept.hooks[i]) != PageOf(p.ept.hooks[j]) by {
        assert DistinctHooks(p.ept.hooks);
      }
    }
  }

  lemma DistinctEntries(m: MemoryMap, p: Processor, i: nat, j: nat)
    requires Inv(m, p) && i < |p.ept.hooks| && j < |p.ept.hooks| && i != j
    ensures p.ept.hooks[i].entry != p.ept.hooks[j].entry
    ensures p.ept.hooks[i] != p.ept.hooks[j]
  {
    var g, h := p.ept.hooks[i], p.ept.hooks[j];
    assert Describes(m, g, p.requested) && Describes(m, h, p.requested);
    assert Placed(p.ept.tables, g) && Placed(p.ept.tables, h);
    assert PageOf(g) != PageOf(h) by {
      assert DistinctHooks(p.ept.hooks);
    }
    if g.entry == h.entry {
      TableOfOneSlot(m, p.ept.tables, p.ept.hooks, p.pending, p.requested, PageOf(g) / 512, PageOf(h) / 512);
    }
  }

  /** Unhooking during a grant is harmless exactly when it is not the granted page that goes: then
      the invariant holds before and after the trap. Else the record the trap will use is no longer
      on the list. */
  lemma UnhookUnderGrantIff(m: MemoryMap, kernel: KernelImage, p: Processor, address: nat)
    requires Inv(m, p) && p.pending.Some?
    ensures var q := Step(m, kernel, p, UnhookPage(address));
      && (Stepable(q) <==> PageAlign(address) != p.pending.value.virtualAddress)
      && (Stepable(q) ==> Inv(m, q) && Inv(m, Step(m, kernel, q, MonitorTrap)))
  {
    UnhookRemovesOne(m, p, address);
    if PageAlign(address) != p.pending.value.virtualAddress {
      UnhookKeepsInv(m, kernel, p, address);
      MonitorTrapKeepsInv(m, kernel, Step(m, kernel, p, UnhookPage(address)));
    }
  }

  /** The exact precondition of every step. A hook request that gets its record must not be for a
      physical page that is hooked already; while a grant is pending its page must not be unhooked
      and no other page opened. Whatever respects that keeps the invariant, and nothing else does. A
      request that does not get its record keeps it, too, but only until the block it frees is
      reused, and so no run contains one. */
  lemma StepKeepsInvIff(m: MemoryMap, kernel: KernelImage, p: Processor, a: Action)
    requires Inv(m, p)
    requires a.HookPage? ==>
      a.request.physical < 0x1_0000_0000_0000 && a.request.physical % PAGE_SIZE == 0 && FreshBuffer(p, a.request)
    ensures Inv(m, Step(m, kernel, p, a)) <==>
      && RespectsGrant(kernel, p, a)
      && (a.HookPage? && ReachesRecord(p.ept, a.request) && a.request.record.Some? ==>
            forall h | h in p.ept.hooks :: h.physicalBaseAddress != a.request.physical)
  {
    if Enabled(kernel, p, a) {
      StepKeepsInv(m, kernel, p, a);
    } else {
      match a
      case HookPage(r) =>
        if !GetsRecord(p, a) {
          HookKeepsInv(m, kernel, p, r);
        } else {
          var h :| h in p.ept.hooks && h.physicalBaseAddress == r.physical;
          AliasBreaksInv(m, kernel, p, h, r);
        }
      case UnhookPage(address) => UnhookUnderGrantIff(m, kernel, p, address);
      case UnhookAll =>
      case Violation(_, _, _, _) => SecondGrantBreaksInv(m, kernel, p, a);
      case MonitorTrap =>
    }
  }

  lemma SecondGrantBreaksInv(m: MemoryMap, kernel: KernelImage, p: Processor, a: Action)
    requires Inv(m, p) && a.Violation? && !RespectsGrant(kernel, p, a)
    ensures !Inv(m, Step(m, kernel, p, a))
  {
    OpensIsGrant(p, a, kernel);
    var i :| 0 <= i < |p.ept.hooks| && p.ept.hooks[i] == p.pending.value;
    var j := IndexOfPhysical(p.ept.hooks, PageAlign(a.guestPhysical));
    var q := Step(m, kernel, p, a);
    LiveEntry(m, p, i);
    DistinctEntries(m, p, i, j);
    OtherEntryKept(p.ept.tables, p.ept.hooks[j].entry, p.ept.hooks[j].original, p.ept.hooks[i].entry);
    if Inv(m, q) {
      LiveEntry(m, q, i);
    }
  }

  // ----- No widening -----

  /** The rights an address has are those in the permissions. */
  ghost predicate HasRights(t: Tables, address: nat, permissions: nat)
    requires WellSized(t)
  {
    var w := Walk(t, address);
    && w.Some?
    && (w.value.read <==> And(permissions, EPT_PAGE_READ) != 0)
    && (w.value.write <==> And(permissions, EPT_PAGE_WRITE) != 0)
    && (w.value.execute <==> And(permissions, EPT_PAGE_EXECUTE) != 0)
  }

  lemma RightsUnderInv(m: MemoryMap, p: Processor, j: nat, offset: nat)
    requires Inv(m, p) && j < |p.ept.hooks| && p.pending != Some(p.ept.hooks[j]) && offset < PAGE_SIZE
    ensures p.ept.hooks[j].virtualAddress in p.requested
    ensures var h := p.ept.hooks[j];
      HasRights(p.ept.tables, h.physicalBaseAddress + offset, And(p.requested[h.virtualAddress], EPT_PAGE_READ))
  {
    var h := p.ept.hooks[j];
    assert Describes(m, h, p.requested) && Placed(p.ept.tables, h);
    WalkUnderInv(m, p, PageOf(h), offset);
    EntryUnderHooked(m, p.ept.hooks, p.pending, j);
    assert EffectiveTranslation(m, p.ept.hooks, p.pending, PageOf(h)).read == h.changed.read;
    RestrictedRights(h.original, p.requested[h.virtualAddress]);
  }

  lemma RestrictedRights(e: Pte, permissions: nat)
    ensures var r, read := RestrictAccess(e, permissions), And(permissions, EPT_PAGE_READ);
      && (r.read <==> And(read, EPT_PAGE_READ) != 0)
      && (r.write <==> And(read, EPT_PAGE_WRITE) != 0)
      && (r.execute <==> And(read, EPT_PAGE_EXECUTE) != 0)
  {
    RestrictAccessKeepsReadOnly(e, permissions);
    ReadBitAlone(permissions);
  }

  /** Outside a grant a hooked page has the read right that the request which created its record
      asked for, and no other. */
  lemma NoWidening(
      m: MemoryMap, kernel: KernelImage, base: nat, actions: seq<Action>, p: Processor, j: nat, offset: nat)
    requires Reachable(m, kernel, base, actions, p)
    requires j < |p.ept.hooks| && p.pending != Some(p.ept.hooks[j]) && offset < PAGE_SIZE
    ensures WellSized(p.ept.tables) && p.ept.hooks[j].virtualAddress in p.requested
    ensures var h := p.ept.hooks[j];
      HasRights(p.ept.tables, h.physicalBaseAddress + offset, And(p.requested[h.virtualAddress], EPT_PAGE_READ))
  {
    ConstructedInv(m, base);
    RunKeepsInv(m, kernel, Constructed(m, base), actions);
    RightsUnderInv(m, p, j, offset);
  }

  /** Every hooked page was given permissions. */
  ghost predicate Remembers(p: Processor) {
    forall h | h in p.ept.hooks :: h.virtualAddress in p.given
  }

  lemma StepRemembers(m: MemoryMap, kernel: KernelImage, p: Processor, a: Action)
    requires Stepable(p) && Remembers(p)
    ensures Remembers(Step(m, kernel, p, a))
  {
    match a
    case HookPage(r) =>
      var o := RootModePageHook(m, p.ept, r);
      assert o.state.hooks != p.ept.hooks ==>
        && o.ok && o.state.hooks == [o.state.hooks[0]] + p.ept.hooks
        && o.state.hooks[0].virtualAddress == PageAlign(r.targetFunc);
    case UnhookPage(address) => UnhookLeaves(p.ept, address);
    case UnhookAll =>
    case Violation(_, _, _, _) =>
    case MonitorTrap =>
  }

  lemma UnhookLeaves(s: EptState, address: nat)
    requires WellFormed(s)
    ensures forall h | h in PageUnhook(s, address).0.hooks :: h in s.hooks
  {
  }

  lemma {:induction false} RunRemembers(m: MemoryMap, kernel: KernelImage, p: Processor, actions: seq<Action>)
    requires Remembers(p) && EnabledRun(m, kernel, p, actions)
    ensures Remembers(Run(m, kernel, p, actions))
    decreases |actions|
  {
    if actions != [] {
      StepRemembers(m, kernel, p, actions[0]);
      RunRemembers(m, kernel, Step(m, kernel, p, actions[0]), actions[1..]);
    }
  }

  /** README.md:64 promises that the protection given is the protection the address has. It is
      exactly when the last accepted request gave neither write nor execute, and the same read
      permission as the request that created the record: the write and execute permissions are lost
      in one-bit fields, and a request for a page that is hooked already is accepted and forgotten. */
  lemma GivenProtectionIff(
      m: MemoryMap, kernel: KernelImage, base: nat, actions: seq<Action>, p: Processor, j: nat, offset: nat)
    requires Reachable(m, kernel, base, actions, p)
    requires j < |p.ept.hooks| && p.pending != Some(p.ept.hooks[j]) && offset < PAGE_SIZE
    ensures WellSized(p.ept.tables)
    ensures p.ept.hooks[j].virtualAddress in p.requested && p.ept.hooks[j].virtualAddress in p.given
    ensures var h := p.ept.hooks[j];
      var given, created := p.given[h.virtualAddress], p.requested[h.virtualAddress];
      HasRights(p.ept.tables, h.physicalBaseAddress + offset, given) <==>
        && And(given, EPT_PAGE_WRITE) == 0 && And(given, EPT_PAGE_EXECUTE) == 0
        && (And(given, EPT_PAGE_READ) == 0 <==> And(created, EPT_PAGE_READ) == 0)
  {
    NoWidening(m, kernel, base, actions, p, j, offset);
    RunRemembers(m, kernel, Constructed(m, base), actions);
    assert p.ept.hooks[j] in p.ept.hooks;
    ReadBitAlone(p.requested[p.ept.hooks[j].virtualAddress]);
  }

  /** The read permission is the lowest bit. */
  lemma ReadBitAlone(permissions: nat)
    ensures var read := And(permissions, EPT_PAGE_READ);
      && (And(read, EPT_PAGE_READ) == 0 <==> read == 0)
      && And(read, EPT_PAGE_WRITE) == 0 && And(read, EPT_PAGE_EXECUTE) == 0
  {
  }

  /** A grant is only ever opened by a denied access from inside the kernel image. */
  lemma GrantOnlyFromKernel(m: MemoryMap, kernel: KernelImage, p: Processor, a: Action)
    requires Stepable(p) && Step(m, kernel, p, a).pending.Some? && Step(m, kernel, p, a).pending != p.pending
    ensures a.Violation? && IsAccessFromKernelImage(kernel, a.rip) && DeniedByEntry(a.qualification)
    ensures Step(m, kernel, p, a).pending.value.physicalBaseAddress == PageAlign(a.guestPhysical)
  {
  }

  /** The instruction lies in the kernel image as the driver knows it: an image of at most 256 MB
      that does not reach the end of the address space. */
  lemma KernelImageIff(kernel: KernelImage, rip: U64)
    ensures IsAccessFromKernelImage(kernel, rip) <==>
      && kernel.base != 0 && 0 < kernel.size <= 0x1000_0000
      && kernel.base + kernel.size < 0x1_0000_0000_0000_0000
      && kernel.base <= rip < kernel.base + kernel.size
  {
  }

  /** What an access to a hooked page comes to that the page denies. From an instruction of the kernel
      image it opens the page it goes to: the original entry is back, the record remembered, the trap
      armed. From anywhere else it changes nothing and gets a page fault. */
  lemma DeniedAccessIff(m: MemoryMap, kernel: KernelImage, p: Processor, a: Action)
    requires Stepable(p) && a.Violation?
    requires var q := a.qualification;
      || (q.executeAccess && !q.eptExecutable) || (q.writeAccess && !q.eptWriteable)
      || (q.readAccess && !q.eptReadable)
    requires PageAlign(a.guestPhysical) != 0
    requires exists h | h in p.ept.hooks :: h.physicalBaseAddress == PageAlign(a.guestPhysical)
    ensures var t := Step(m, kernel, p, a);
      if && kernel.base != 0 && 0 < kernel.size <= 0x1000_0000
         && kernel.base + kernel.size < 0x1_0000_0000_0000_0000
         && kernel.base <= a.rip < kernel.base + kernel.size
      then
        && t.monitorTrap && t.fault.None? && t.ept.hooks == p.ept.hooks
        && exists h | h in p.ept.hooks ::
             && h.physicalBaseAddress == PageAlign(a.guestPhysical) && t.pending == Some(h)
             && h.entry.table in t.ept.tables.pml1 && ReadEntry(t.ept.tables, h.entry) == h.original
      else t == p.(fault := t.fault) && t.fault.Some? && t.fault.value.address == a.guestLinear
  {
    KernelImageIff(kernel, a.rip);
    var i := IndexOfPhysical(p.ept.hooks, PageAlign(a.guestPhysical));
    var h := p.ept.hooks[i];
    assert h in p.ept.hooks;
    if IsAccessFromKernelImage(kernel, a.rip) {
      assert Step(m, kernel, p, a).pending == Some(h);
    } else {
      BlockedViolation(m, kernel, p, a);
    }
  }

  /** Any other violation of a hooked page leaves the tables and the records alone and pends a
      page fault at the accessed address whose error code mirrors the access. */
  lemma BlockedViolation(m: MemoryMap, kernel: KernelImage, p: Processor, a: Action)
    requires Stepable(p) && a.Violation? && !IsAccessFromKernelImage(kernel, a.rip)
    ensures var q := Step(m, kernel, p, a);
      && q == p.(fault := q.fault)
      && (q.fault.Some? <==>
            && PageAlign(a.guestPhysical) != 0 && DeniedByEntry(a.qualification)
            && exists h | h in p.ept.hooks :: h.physicalBaseAddress == PageAlign(a.guestPhysical))
      && (q.fault.Some? ==>
            var code := q.fault.value.errorCode;
            && q.fault.value.address == a.guestLinear
            && code % 2 == 1
            && (code / 2 % 2 == 1 <==> a.qualification.writeAccess)
            && (code / 4 % 2 == 1 <==> a.qualification.userModeLinearAddress)
            && code / 8 % 2 == 0
            && (code / 16 % 2 == 1 <==> a.qualification.executeAccess)
            && code < 32)
  {
    var q := Step(m, kernel, p, a);
    var i := IndexOfPhysical(p.ept.hooks, PageAlign(a.guestPhysical));
    if i < |p.ept.hooks| {
      assert p.ept.hooks[i] in p.ept.hooks;
    }
    assert q.ept == p.ept;
  }

  // ----- What a hook request comes to -----

  /** A request is accepted exactly when it does not come from VMX root mode before the launch, does
      not ask for write without read access, and finds its page hooked already or its physical
      page, below 512 GB, and both blocks. */
  lemma HookAcceptedIff(m: MemoryMap, p: Processor, r: HookRequest)
    requires Inv(m, p)
    ensures RootModePageHook(m, p.ept, r).ok <==>
      && (r.onVmxRoot ==> r.launched) && !(r.permissions / 2 % 2 == 1 && r.permissions % 2 == 0)
      && (|| (exists h | h in p.ept.hooks :: h.virtualAddress == r.targetFunc - r.targetFunc % 0x1000)
          || (&& r.physical != 0 && r.physical / 0x80_0000_0000 % 512 == 0
              && r.splitBuffer.Some? && r.record.Some?))
  {
    WriteWithoutRead(r.permissions);
    var hooks := p.ept.hooks;
    var i := IndexOfVirtual(hooks, PageAlign(r.targetFunc));
    if i < |hooks| {
      assert hooks[i] in hooks;
    } else if ReachesRecord(p.ept, r) && r.record.Some? {
      HookInserts(m, p, r);
    }
  }

  lemma WriteWithoutRead(permissions: nat)
    ensures And(permissions, EPT_PAGE_WRITE) != 0 <==> permissions / 2 % 2 == 1
    ensures And(permissions, EPT_PAGE_READ) != 0 <==> permissions % 2 == 1
    ensures And(permissions, EPT_PAGE_EXECUTE) != 0 <==> permissions / 4 % 2 == 1
  {
  }

  /** One record more, in front: for the request's own virtual and physical page, with an entry that
      may be read if bit 0 of the permissions is set, and neither written nor executed; that entry is
      live. */
  ghost predicate AddsRecord(before: seq<Hook>, r: HookRequest, after: EptState)
    requires WellFormed(after)
  {
    && |after.hooks| == |before| + 1 && after.hooks[1..] == before
    && var h := after.hooks[0];
    && h.virtualAddress == r.targetFunc - r.targetFunc % 0x1000
    && h.physicalAddress == r.physical && h.physicalBaseAddress == r.physical - r.physical % 0x1000
    && Some(h.record) == r.record
    && h.changed == h.original.(read := r.permissions % 2 == 1, write := false, execute := false)
    && ReadEntry(after.tables, h.entry) == h.changed
  }

  /** A request that is accepted and finds its page not hooked yet adds its record. Any other leaves
      the records as they are. */
  lemma HookAddsRecord(m: MemoryMap, p: Processor, r: HookRequest)
    requires Inv(m, p)
    ensures var o := RootModePageHook(m, p.ept, r);
      if o.ok && forall h | h in p.ept.hooks :: h.virtualAddress != r.targetFunc - r.targetFunc % 0x1000 then
        AddsRecord(p.ept.hooks, r, o.state)
      else o.state.hooks == p.ept.hooks
  {
    var i := IndexOfVirtual(p.ept.hooks, PageAlign(r.targetFunc));
    if i < |p.ept.hooks| {
      assert p.ept.hooks[i] in p.ept.hooks;
    } else if ReachesRecord(p.ept, r) && r.record.Some? {
      RecordAdded(m, p, r);
    }
  }

  lemma RecordAdded(m: MemoryMap, p: Processor, r: HookRequest)
    requires Inv(m, p) && ReachesRecord(p.ept, r) && r.record.Some?
    ensures var o := RootModePageHook(m, p.ept, r);
      o.ok && AddsRecord(p.ept.hooks, r, o.state)
  {
    HookInserts(m, p, r);
    var t := Split(p.ept.tables, m, r.splitBuffer.value, r.physical).tables;
    var h := NewHook(t, r, Pml1Ref(t, r.physical).value);
    assert RootModePageHook(m, p.ept, r).state == InsertHook(p.ept.(tables := t), h);
    RestrictAccessKeepsReadOnly(h.original, r.permissions);
    WriteWithoutRead(r.permissions);
  }

  // ----- Pages without a hook -----

  /** A page that is not hooked, or whose grant is pending, has every right. */
  lemma OpenPageFullRights(m: MemoryMap, p: Processor, page: nat, offset: nat)
    requires Inv(m, p) && page < SMALL_PAGES && offset < PAGE_SIZE
    requires forall h | h in p.ept.hooks && h.physicalBaseAddress == page * PAGE_SIZE :: p.pending == Some(h)
    ensures var w := Walk(p.ept.tables, page * PAGE_SIZE + offset);
      w.Some? && w.value.read && w.value.write && w.value.execute
  {
    WalkUnderInv(m, p, page, offset);
    EntryOfOpenPage(m, p, page);
  }

  lemma EntryOfOpenPage(m: MemoryMap, p: Processor, page: nat)
    requires Inv(m, p)
    requires forall h | h in p.ept.hooks && h.physicalBaseAddress == page * PAGE_SIZE :: p.pending == Some(h)
    ensures EntryUnder(m, p.ept.hooks, p.pending, page) == SmallEntry(m, page)
  {
    if h :| h in p.ept.hooks && PageOf(h) == page {
      assert Describes(m, h, p.requested);
      var j :| 0 <= j < |p.ept.hooks| && p.ept.hooks[j] == h;
      EntryUnderHooked(m, p.ept.hooks, p.pending, j);
    } else {
      EntryUnderUnhooked(m, p.ept.hooks, p.pending, page);
    }
  }

  /** No step touches the two upper levels. */
  lemma StepKeepsUpper(m: MemoryMap, kernel: KernelImage, p: Processor, a: Action)
    requires Stepable(p)
    ensures var t, u := p.ept.tables, Step(m, kernel, p, a).ept.tables;
      u.base == t.base && u.pml4 == t.pml4 && u.pml3 == t.pml3
  {
    match a
    case HookPage(r) => HookKeepsUpper(m, p.ept, r);
    case UnhookPage(address) => UnhookKeepsUpper(p.ept, address);
    case UnhookAll => RestoreAllKeepsUpper(p.ept.tables, p.ept.hooks);
    case Violation(_, _, _, _) =>
    case MonitorTrap =>
  }

  lemma HookKeepsUpper(m: MemoryMap, s: EptState, r: HookRequest)
    requires WellFormed(s)
    ensures var t, u := s.tables, RootModePageHook(m, s, r).state.tables;
      u.base == t.base && u.pml4 == t.pml4 && u.pml3 == t.pml3
  {
  }

  lemma UnhookKeepsUpper(s: EptState, address: nat)
    requires WellFormed(s)
    ensures var t, u := s.tables, PageUnhook(s, address).0.tables;
      u.base == t.base && u.pml4 == t.pml4 && u.pml3 == t.pml3
  {
  }

  lemma {:induction false} RunKeepsUpper(m: MemoryMap, kernel: KernelImage, p: Processor, actions: seq<Action>)
    requires EnabledRun(m, kernel, p, actions)
    ensures Run(m, kernel, p, actions).ept.tables.pml4 == p.ept.tables.pml4
    decreases |actions|
  {
    if actions != [] {
      StepKeepsUpper(m, kernel, p, actions[0]);
      RunKeepsUpper(m, kernel, Step(m, kernel, p, actions[0]), actions[1..]);
    }
  }

  /** In every reachable state nothing above 512 GB is mapped. */
  lemma AboveUnmapped(m: MemoryMap, kernel: KernelImage, base: nat, actions: seq<Action>, p: Processor, address: nat)
    requires Reachable(m, kernel, base, actions, p) && address / 0x80_0000_0000 % 512 != 0
    ensures WellSized(p.ept.tables) && Walk(p.ept.tables, address).None?
  {
    ConstructedInv(m, base);
    RunKeepsInv(m, kernel, Constructed(m, base), actions);
    RunKeepsUpper(m, kernel, Constructed(m, base), actions);
  }

  lemma {:induction false} EntryAttributes(
      m: MemoryMap, hooks: seq<Hook>, pending: Option<Hook>, page: nat, requested: map<nat, nat>)
    requires forall h | h in hooks :: Describes(m, h, requested)
    ensures var e := EntryUnder(m, hooks, pending, page);
      !e.ignorePat && !e.suppressVe
  {
    if hooks != [] {
      assert Describes(m, hooks[0], requested);
      EntryAttributes(m, hooks[1..], pending, page, requested);
    }
  }

  /** No entry that a processor uses ignores the PAT or suppresses virtualization exceptions. */
  lemma AttributesClear(m: MemoryMap, p: Processor, k: nat, i: nat)
    requires Inv(m, p) && k < LARGE_PAGES && i < 512
    ensures match p.ept.tables.pml2[k]
      case Large(e) => !e.ignorePat && !e.suppressVe
      case Table(t) =>
        && t.frame in p.ept.tables.pml1
        && var e := p.ept.tables.pml1[t.frame][i]; !e.ignorePat && !e.suppressVe
  {
    assert SlotOk(m, p.ept.tables, p.ept.hooks, p.pending, k);
    EntryAttributes(m, p.ept.hooks, p.pending, k * 512 + i, p.requested);
  }

  // ----- The list as a finite map -----

  /** Re-hooking a hooked page is accepted and changes nothing. */
  lemma RehookChangesNothing(m: MemoryMap, s: EptState, r: HookRequest)
    requires WellFormed(s) && (exists h | h in s.hooks :: h.virtualAddress == PageAlign(r.targetFunc))
    requires !(r.onVmxRoot && !r.launched)
    requires And(r.permissions, EPT_PAGE_WRITE) == 0 || And(r.permissions, EPT_PAGE_READ) != 0
    ensures RootModePageHook(m, s, r) == HookOutcome(s, true, [])
  {
    var h :| h in s.hooks && h.virtualAddress == PageAlign(r.targetFunc);
    var i :| 0 <= i < |s.hooks| && s.hooks[i] == h;
  }

  lemma RemoveAt(hooks: seq<Hook>, i: nat)
    requires i < |hooks| && DistinctHooks(hooks)
    ensures forall h :: h in hooks[..i] + hooks[i + 1..] <==> h in hooks && h.virtualAddress != hooks[i].virtualAddress
  {
    var rest := hooks[..i] + hooks[i + 1..];
    forall h | h in rest
      ensures h in hooks && h.virtualAddress != hooks[i].virtualAddress
    {
      var j :| 0 <= j < |rest| && rest[j] == h;
      assert h == hooks[if j < i then j else j + 1];
    }
    forall h | h in hooks && h.virtualAddress != hooks[i].virtualAddress
      ensures h in rest
    {
      var j :| 0 <= j < |hooks| && hooks[j] == h;
      assert h == rest[if j < i then j else j - 1];
    }
  }

  /** Unhooking removes the one record of the page, or nothing. */
  lemma UnhookRemovesOne(m: MemoryMap, p: Processor, address: nat)
    requires Inv(m, p)
    ensures var o := PageUnhook(p.ept, address);
      && (forall h :: h in o.0.hooks <==> h in p.ept.hooks && h.virtualAddress != PageAlign(address))
      && (o.1.Some? <==> exists h | h in p.ept.hooks :: h.virtualAddress == PageAlign(address))
      && |o.0.hooks| == |p.ept.hooks| - if o.1.Some? then 1 else 0
  {
    var hooks := p.ept.hooks;
    var i := IndexOfVirtual(hooks, PageAlign(address));
    if i < |hooks| {
      RemoveAt(hooks, i);
      assert hooks[i] in hooks;
    }
  }

  // ----- Two virtual pages on one physical page -----

  /** A page without a record has its identity entry. */
  lemma UnhookedEntry(m: MemoryMap, p: Processor, page: nat, ref: EntryRef)
    requires Inv(m, p) && page < SMALL_PAGES && (forall h | h in p.ept.hooks :: PageOf(h) != page)
    requires p.ept.tables.pml2[page / 512] == Table(FullAccess(ref.table)) && ref.index == page % 512
    ensures ref.table in p.ept.tables.pml1 && ReadEntry(p.ept.tables, ref) == SmallEntry(m, page)
  {
    EntryUnderUnhooked(m, p.ept.hooks, p.pending, page);
    assert SlotOk(m, p.ept.tables, p.ept.hooks, p.pending, page / 512);
    assert page / 512 * 512 + page % 512 == page;
  }

  /** Hooking a page that is hooked under another address records its restricted entry as the
      original one. */
  lemma AliasRecord(m: MemoryMap, p: Processor, h: Hook, alias: HookRequest)
    requires Inv(m, p) && h in p.ept.hooks && p.pending != Some(h)
    requires ReachesRecord(p.ept, alias) && alias.record.Some? && alias.physical == h.physicalBaseAddress
    ensures h.entry.table in p.ept.tables.pml1 && h.entry.index < 512
    ensures var g := NewHook(p.ept.tables, alias, h.entry);
      && RootModePageHook(m, p.ept, alias) ==
         HookOutcome(InsertHook(p.ept, g), true, [alias.splitBuffer.value])
      && g.original == h.changed && g.entry == h.entry && g.virtualAddress != h.virtualAddress
      && ReadEntry(p.ept.tables, h.entry) == h.changed
  {
    var j :| 0 <= j < |p.ept.hooks| && p.ept.hooks[j] == h;
    assert Describes(m, h, p.requested) && Placed(p.ept.tables, h);
    LiveEntry(m, p, j);
    var page := PageOf(h);
    IndicesOfPage(page, 0);
    assert SlotOk(m, p.ept.tables, p.ept.hooks, p.pending, page / 512);
    assert Split(p.ept.tables, m, alias.splitBuffer.value, alias.physical).tables == p.ept.tables;
    assert Pml1Ref(p.ept.tables, alias.physical) == Some(h.entry);
  }

  /** A request that comes as far as its record and gets it puts it in front of the others. */
  lemma HookInserts(m: MemoryMap, p: Processor, r: HookRequest)
    requires Inv(m, p) && ReachesRecord(p.ept, r) && r.record.Some?
    ensures var o := RootModePageHook(m, p.ept, r);
      && o.ok && |o.state.hooks| == |p.ept.hooks| + 1 && o.state.hooks[1..] == p.ept.hooks
      && o.state.hooks[0].physicalBaseAddress == PageAlign(r.physical)
      && o.state.hooks[0].virtualAddress == PageAlign(r.targetFunc)
  {
    assert SlotOk(m, p.ept.tables, p.ept.hooks, p.pending, Pml2Position(r.physical));
    var t := Split(p.ept.tables, m, r.splitBuffer.value, r.physical).tables;
    assert Pml1Ref(t, r.physical).Some?;
  }

  /** Such a request breaks the invariant at once: two records have one page. */
  lemma AliasBreaksInv(m: MemoryMap, kernel: KernelImage, p: Processor, h: Hook, alias: HookRequest)
    requires Inv(m, p) && h in p.ept.hooks
    requires ReachesRecord(p.ept, alias) && alias.record.Some?
    requires alias.physical == h.physicalBaseAddress && alias.physical % PAGE_SIZE == 0
    ensures !Inv(m, Step(m, kernel, p, HookPage(alias)))
  {
    HookInserts(m, p, alias);
    var hooks := RootModePageHook(m, p.ept, alias).state.hooks;
    var j :| 0 <= j < |p.ept.hooks| && p.ept.hooks[j] == h;
    assert hooks[j + 1] == hooks[1..][j];
    assert PageOf(hooks[0]) == PageOf(hooks[j + 1]);
    assert !DistinctHooks(hooks);
  }

  /** The state after the two unhooks, in either order. */
  function BothUnhooked(s: EptState, first: nat, second: nat): EptState
    requires WellFormed(s)
  {
    PageUnhook(PageUnhook(s, first).0, second).0
  }

  /** Unhooking the alias first undoes the alias. */
  lemma AliasFirst(s: EptState, h: Hook, g: Hook)
    requires WellFormed(s) && h.entry.table in s.tables.pml1 && h.entry.index < 512
    requires ReadEntry(s.tables, h.entry) == h.changed && g.virtualAddress % PAGE_SIZE == 0
    requires g.entry == h.entry && g.original == h.changed
    ensures PageUnhook(InsertHook(s, g), g.virtualAddress).0 == s
    ensures UnhookAllPages(InsertHook(s, g)) == UnhookAllPages(s)
  {
    var both := InsertHook(s, g);
    assert both.hooks[..0] + both.hooks[1..] == s.hooks;
    var t := s.tables.pml1[h.entry.table];
    assert t[h.entry.index := g.changed][h.entry.index := h.changed] == t;
    assert WriteEntry(both.tables, g.entry, g.original).pml1 == s.tables.pml1;
    UnhookFirst(both);
  }

  /** Unhooking the original first writes its restricted entry back last. */
  lemma OriginalFirst(s: EptState, i: nat, g: Hook)
    requires WellFormed(s) && i < |s.hooks| && DistinctHooks(s.hooks)
    requires var h := s.hooks[i];
      && h.virtualAddress % PAGE_SIZE == 0 && g.virtualAddress % PAGE_SIZE == 0
      && g.entry == h.entry && g.original == h.changed && g.virtualAddress != h.virtualAddress
    ensures var h := s.hooks[i];
      var none := BothUnhooked(InsertHook(s, g), h.virtualAddress, g.virtualAddress);
      && none.hooks == s.hooks[..i] + s.hooks[i + 1..] && none.tables.pml2 == s.tables.pml2
      && h.entry.table in none.tables.pml1 && ReadEntry(none.tables, h.entry) == h.changed
  {
    var h, both := s.hooks[i], InsertHook(s, g);
    assert both.hooks[i + 1] == h && both.hooks[1..] == s.hooks;
    var k := IndexOfVirtual(both.hooks, h.virtualAddress);
    assert k > 0 && s.hooks[k - 1].virtualAddress == h.virtualAddress;
    assert k == i + 1;
    var one := PageUnhook(both, h.virtualAddress).0;
    assert one.hooks == [g] + (s.hooks[..i] + s.hooks[i + 1..]);
    assert IndexOfVirtual(one.hooks, g.virtualAddress) == 0;
  }

  /** A page whose record is gone but whose entry is still restricted breaks the invariant. */
  lemma RestrictedWithoutRecord(m: MemoryMap, p: Processor, i: nat, t: Tables)
    requires Inv(m, p) && i < |p.ept.hooks| && WellSized(t) && t.pml2 == p.ept.tables.pml2
    requires var h := p.ept.hooks[i];
      h.entry.table in t.pml1 && ReadEntry(t, h.entry) == h.changed
    ensures !Inv(m, p.(ept := EptState(t, p.ept.hooks[..i] + p.ept.hooks[i + 1..])))
  {
    var h, q := p.ept.hooks[i], p.(ept := EptState(t, p.ept.hooks[..i] + p.ept.hooks[i + 1..]));
    assert Describes(m, h, p.requested) && Placed(p.ept.tables, h);
    LiveEntry(m, p, i);
    RestOfHooks(p.ept.hooks, i);
    if Inv(m, q) {
      UnhookedEntry(m, q, PageOf(h), h.entry);
    }
  }

  /** One physical page hooked under a second virtual page, and both unhooked again: the page has its
      original entry, and the invariant is back, exactly when the later of the two hooks goes first. */
  lemma AliasOrderIff(m: MemoryMap, p: Processor, i: nat, alias: HookRequest, aliasFirst: bool)
    requires Inv(m, p) && p.pending.None? && i < |p.ept.hooks|
    requires ReachesRecord(p.ept, alias) && alias.record.Some?
    requires alias.physical == p.ept.hooks[i].physicalBaseAddress
    ensures var h, a := p.ept.hooks[i], PageAlign(alias.targetFunc);
      var both := RootModePageHook(m, p.ept, alias).state;
      var none :=
        if aliasFirst then BothUnhooked(both, a, h.virtualAddress) else BothUnhooked(both, h.virtualAddress, a);
      && none.hooks == p.ept.hooks[..i] + p.ept.hooks[i + 1..]
      && h.entry.table in none.tables.pml1 && h.entry.index < 512
      && (ReadEntry(none.tables, h.entry) == h.original <==> aliasFirst)
      && (Inv(m, p.(ept := none)) <==> aliasFirst)
  {
    var h := p.ept.hooks[i];
    assert Describes(m, h, p.requested);
    AliasRecord(m, p, h, alias);
    LiveEntry(m, p, i);
    var g := NewHook(p.ept.tables, alias, h.entry);
    if aliasFirst {
      AliasFirst(p.ept, h, g);
      UnhookedAt(m, p, i);
    } else {
      OriginalFirst(p.ept, i, g);
      var none := BothUnhooked(InsertHook(p.ept, g), h.virtualAddress, g.virtualAddress);
      RestrictedWithoutRecord(m, p, i, none.tables);
    }
  }

  lemma UnhookedAt(m: MemoryMap, p: Processor, i: nat)
    requires Inv(m, p) && p.pending.None? && i < |p.ept.hooks|
    ensures var h := p.ept.hooks[i];
      var s := PageUnhook(p.ept, h.virtualAddress).0;
      && s.hooks == p.ept.hooks[..i] + p.ept.hooks[i + 1..]
      && h.entry.table in s.tables.pml1 && h.entry.index < 512 && ReadEntry(s.tables, h.entry) == h.original
      && Inv(m, p.(ept := s))
  {
    UnhookedState(m, p, i);
    RemoveKeepsInv(m, p.ept.tables, p.ept.hooks, None, p.requested, i);
  }

  /** Unhooking a record's page removes that record and writes its original entry back. */
  lemma UnhookedState(m: MemoryMap, p: Processor, i: nat)
    requires Inv(m, p) && i < |p.ept.hooks|
    ensures var h := p.ept.hooks[i];
      PageUnhook(p.ept, h.virtualAddress).0 ==
      EptState(WriteEntry(p.ept.tables, h.entry, h.original), p.ept.hooks[..i] + p.ept.hooks[i + 1..])
  {
    FoundByVirtual(p.ept.hooks, i);
    assert Describes(m, p.ept.hooks[i], p.requested);
  }

  lemma FoundByVirtual(hooks: seq<Hook>, i: nat)
    requires i < |hooks| && DistinctHooks(hooks)
    ensures IndexOfVirtual(hooks, hooks[i].virtualAddress) == i
  {
    var k := IndexOfVirtual(hooks, hooks[i].virtualAddress);
    assert k <= i && hooks[k].virtualAddress == hooks[i].virtualAddress;
  }

  /** Unhook-all takes the newest record first, so the alias does no harm there. */
  lemma UnhookAllWithAlias(m: MemoryMap, p: Processor, i: nat, alias: HookRequest)
    requires Inv(m, p) && p.pending.None? && i < |p.ept.hooks|
    requires ReachesRecord(p.ept, alias) && alias.record.Some?
    requires alias.physical == p.ept.hooks[i].physicalBaseAddress
    ensures UnhookAllPages(RootModePageHook(m, p.ept, alias).state) == UnhookAllPages(p.ept)
  {
    var h := p.ept.hooks[i];
    AliasRecord(m, p, h, alias);
    AliasFirst(p.ept, h, NewHook(p.ept.tables, alias, h.entry));
  }

  // ----- Failing allocations -----

  ghost predicate SafeFrees(o: HookOutcome) {
    && (forall i, j | 0 <= i < j < |o.freed| :: o.freed[i] != o.freed[j])
    && forall b | b in o.freed :: b !in o.state.tables.pml1
  }

  /** The split buffers a hook request frees are dead and freed once, exactly unless the request
      comes as far as its record and cannot allocate it: then a table in use is freed, or a
      buffer is freed twice. */
  lemma HookFreesSafelyIff(m: MemoryMap, p: Processor, r: HookRequest)
    requires Inv(m, p) && (r.splitBuffer.Some? ==> r.splitBuffer.value !in p.ept.tables.pml1)
    ensures SafeFrees(RootModePageHook(m, p.ept, r)) <==>
      !(ReachesRecord(p.ept, r) && r.record.None?)
  {
    var o := RootModePageHook(m, p.ept, r);
    if ReachesRecord(p.ept, r) {
      var t := p.ept.tables;
      var k := Pml2Position(r.physical);
      assert SlotOk(m, t, p.ept.hooks, p.pending, k);
      var buffer := r.splitBuffer.value;
      if t.pml2[k].Large? {
        assert buffer in Split(t, m, buffer, r.physical).tables.pml1;
        assert r.record.None? ==> o.freed == [buffer] && o.freed[0] in o.state.tables.pml1;
      } else {
        assert r.record.None? ==> o.freed == [buffer, buffer] && o.freed[0] == o.freed[1];
      }
    }
  }
}
