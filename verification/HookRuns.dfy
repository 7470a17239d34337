/** What every run of hook, unhook, violation and monitor-trap exits keeps on one processor. */
module HookRuns {
  import opened Wrappers
  import opened Mtrr
  import opened PageTables
  import opened HookProtocol

  // ----- The invariant -----

  function PageOf(h: Hook): nat {
    h.physicalBaseAddress / PAGE_SIZE
  }

  /** The live entry of a 4 KB page, as the hooked pages and the pending grant determine it. */
  function EntryUnder(m: MemoryMap, hooks: seq<Hook>, pending: Option<Hook>, page: nat): Pte {
    if hooks == [] then SmallEntry(m, page)
    else if PageOf(hooks[0]) == page then
      if pending == Some(hooks[0]) then hooks[0].original else hooks[0].changed
    else EntryUnder(m, hooks[1..], pending, page)
  }

  /** A record describes one page: its entry is that page's, its original value is the identity
      mapping and its changed value restricts that to the requested permissions. */
  ghost predicate Describes(m: MemoryMap, h: Hook, requested: map<nat, nat>) {
    && h.physicalBaseAddress == PageOf(h) * PAGE_SIZE && PageOf(h) < SMALL_PAGES
    && h.entry.index == PageOf(h) % 512
    && h.original == SmallEntry(m, PageOf(h))
    && h.virtualAddress % PAGE_SIZE == 0
    && h.virtualAddress in requested
    && h.changed == RestrictAccess(h.original, requested[h.virtualAddress])
  }

  ghost predicate Placed(t: Tables, h: Hook)
    requires WellSized(t)
  {
    PageOf(h) < SMALL_PAGES && t.pml2[PageOf(h) / 512] == Table(FullAccess(h.entry.table))
  }

  /** Slot k of the PML2 level maps its own 2 MB, as one page or through a split table. */
  ghost predicate SlotOk(m: MemoryMap, t: Tables, hooks: seq<Hook>, pending: Option<Hook>, k: nat)
    requires WellSized(t) && k < LARGE_PAGES
  {
    match t.pml2[k]
    case Large(e) => e == LargeEntry(m, k)
    case Table(p) =>
      && p == FullAccess(p.frame) && p.frame in t.pml1
      && forall i | 0 <= i < 512 :: t.pml1[p.frame][i] == EntryUnder(m, hooks, pending, k * 512 + i)
  }

  ghost predicate DistinctHooks(hooks: seq<Hook>) {
    forall i, j | 0 <= i < j < |hooks| ::
      PageOf(hooks[i]) != PageOf(hooks[j]) && hooks[i].virtualAddress != hooks[j].virtualAddress
  }

  ghost predicate Referenced(t: Tables, f: nat)
    requires WellSized(t)
  {
    exists k | 0 <= k < LARGE_PAGES :: t.pml2[k] == Table(FullAccess(f))
  }

  ghost predicate TablesOk(m: MemoryMap, t: Tables, hooks: seq<Hook>, pending: Option<Hook>)
    requires WellSized(t)
  {
    && IdentityUpper(t)
    && (forall k | 0 <= k < LARGE_PAGES :: SlotOk(m, t, hooks, pending, k))
    && (forall f | f in t.pml1 :: Referenced(t, f))
  }

  ghost predicate HooksOk(m: MemoryMap, t: Tables, hooks: seq<Hook>, requested: map<nat, nat>)
    requires WellSized(t)
  {
    && DistinctHooks(hooks)
    && forall h | h in hooks :: Describes(m, h, requested) && Placed(t, h)
  }

  ghost predicate Inv(m: MemoryMap, p: Processor) {
    && WellFormed(p.ept)
    && TablesOk(m, p.ept.tables, p.ept.hooks, p.pending)
    && HooksOk(m, p.ept.tables, p.ept.hooks, p.requested)
    && (p.monitorTrap <==> p.pending.Some?)
    && (p.pending.Some? ==> p.pending.value in p.ept.hooks)
  }

  // ----- When a step may happen -----

  /** The physical page of a request that gets its record is not hooked yet. */
  ghost predicate Grantable(p: Processor, r: HookRequest) {
    && r.physical < 0x1_0000_0000_0000 && r.physical % PAGE_SIZE == 0
    && (ReachesRecord(p.ept, r) && r.record.Some? ==>
          forall h | h in p.ept.hooks :: h.physicalBaseAddress != r.physical)
  }

  /** Its table buffer is not a table already in use. */
  ghost predicate FreshBuffer(p: Processor, r: HookRequest) {
    ReachesRecord(p.ept, r) ==> r.splitBuffer.value !in p.ept.tables.pml1
  }

  /** A request that comes as far as its record gets it. Else it frees a table in use, which the free
      thread then zeroes, or a buffer twice. */
  ghost predicate GetsRecord(p: Processor, a: Action) {
    a.HookPage? && ReachesRecord(p.ept, a.request) ==> a.request.record.Some?
  }

  /** What an action must respect while a grant is pending: the granted page stays hooked, and no
      other page is opened. Anything else may happen. */
  ghost predicate RespectsGrant(kernel: KernelImage, p: Processor, a: Action) {
    p.pending.Some? ==>
      match a
      case UnhookPage(address) => PageAlign(address) != p.pending.value.virtualAddress
      case UnhookAll => false
      case Violation(q, guestPhysical, _, rip) =>
        Opens(p.ept, q, guestPhysical, rip, kernel) ==> PageAlign(guestPhysical) == p.pending.value.physicalBaseAddress
      case _ => true
  }

  ghost predicate Enabled(kernel: KernelImage, p: Processor, a: Action) {
    && RespectsGrant(kernel, p, a) && GetsRecord(p, a)
    && (a.HookPage? ==> Grantable(p, a.request) && FreshBuffer(p, a.request))
  }

  // ----- EntryUnder -----

  lemma {:induction false} EntryUnderFrame(
      m: MemoryMap, hooks: seq<Hook>, pending: Option<Hook>, page: nat, requested: map<nat, nat>)
    requires forall h | h in hooks :: Describes(m, h, requested)
    ensures var e := EntryUnder(m, hooks, pending, page);
      e.frame == page && e.memoryType == SmallEntry(m, page).memoryType
  {
    if hooks != [] {
      assert Describes(m, hooks[0], requested);
      EntryUnderFrame(m, hooks[1..], pending, page, requested);
    }
  }

  lemma {:induction false} EntryUnderUnhooked(m: MemoryMap, hooks: seq<Hook>, pending: Option<Hook>, page: nat)
    requires forall h | h in hooks :: PageOf(h) != page
    ensures EntryUnder(m, hooks, pending, page) == SmallEntry(m, page)
  {
    if hooks != [] {
      EntryUnderUnhooked(m, hooks[1..], pending, page);
    }
  }

  lemma {:induction false} EntryUnderHooked(m: MemoryMap, hooks: seq<Hook>, pending: Option<Hook>, j: nat)
    requires j < |hooks| && DistinctHooks(hooks)
    ensures EntryUnder(m, hooks, pending, PageOf(hooks[j]))
         == if pending == Some(hooks[j]) then hooks[j].original else hooks[j].changed
  {
    if j > 0 {
      EntryUnderHooked(m, hooks[1..], pending, j - 1);
    }
  }

  /** The entry of a page depends on no record of another page. */
  lemma {:induction false} EntryUnderRemove(m: MemoryMap, hooks: seq<Hook>, pending: Option<Hook>, j: nat, page: nat)
    requires j < |hooks| && PageOf(hooks[j]) != page
    ensures EntryUnder(m, hooks[..j] + hooks[j + 1..], pending, page) == EntryUnder(m, hooks, pending, page)
  {
    var rest := hooks[..j] + hooks[j + 1..];
    if j == 0 {
      assert rest == hooks[1..];
    } else {
      assert rest[0] == hooks[0] && rest[1..] == hooks[1..][..j - 1] + hooks[1..][j..];
      EntryUnderRemove(m, hooks[1..], pending, j - 1, page);
    }
  }

  lemma {:induction false} EntryUnderPending(m: MemoryMap, hooks: seq<Hook>, g: Hook, page: nat)
    requires PageOf(g) != page
    ensures EntryUnder(m, hooks, Some(g), page) == EntryUnder(m, hooks, None, page)
  {
    if hooks != [] {
      EntryUnderPending(m, hooks[1..], g, page);
    }
  }

  // ----- Writing one entry -----

  /** Two slots never share a split table: its entries name the frames of one large page. */
  lemma TableOfOneSlot(
      m: MemoryMap, t: Tables, hooks: seq<Hook>, pending: Option<Hook>, requested: map<nat, nat>, k: nat, l: nat)
    requires WellSized(t) && TablesOk(m, t, hooks, pending)
    requires forall h | h in hooks :: Describes(m, h, requested)
    requires k < LARGE_PAGES && l < LARGE_PAGES
    requires t.pml2[k].Table? && t.pml2[k] == t.pml2[l]
    ensures k == l
  {
    assert SlotOk(m, t, hooks, pending, k) && SlotOk(m, t, hooks, pending, l);
    var entries := t.pml1[t.pml2[k].pointer.frame];
    assert entries[0] == EntryUnder(m, hooks, pending, k * 512 + 0);
    assert entries[0] == EntryUnder(m, hooks, pending, l * 512 + 0);
    EntryUnderFrame(m, hooks, pending, k * 512, requested);
    EntryUnderFrame(m, hooks, pending, l * 512, requested);
  }

  /** Writing the entry of one page keeps a slot in step with a change of the records or the grant
      that concerns that page only. */
  lemma WriteKeepsSlot(
      m: MemoryMap, t: Tables, hooks: seq<Hook>, pending: Option<Hook>, requested: map<nat, nat>,
      page: nat, ref: EntryRef, hooks': seq<Hook>, pending': Option<Hook>, k: nat)
    requires WellSized(t) && TablesOk(m, t, hooks, pending) && k < LARGE_PAGES
    requires forall h | h in hooks :: Describes(m, h, requested)
    requires page < SMALL_PAGES && t.pml2[page / 512] == Table(FullAccess(ref.table))
    requires ref.table in t.pml1 && ref.index == page % 512
    requires forall q | 0 <= q < SMALL_PAGES && q != page ::
      EntryUnder(m, hooks', pending', q) == EntryUnder(m, hooks, pending, q)
    ensures SlotOk(m, WriteEntry(t, ref, EntryUnder(m, hooks', pending', page)), hooks', pending', k)
  {
    var u := WriteEntry(t, ref, EntryUnder(m, hooks', pending', page));
    assert SlotOk(m, t, hooks, pending, k);
    if t.pml2[k].Table? {
      var f := t.pml2[k].pointer.frame;
      if k == page / 512 {
        assert k * 512 + page % 512 == page;
      } else if f == ref.table {
        TableOfOneSlot(m, t, hooks, pending, requested, k, page / 512);
      }
      forall i | 0 <= i < 512
        ensures u.pml1[f][i] == EntryUnder(m, hooks', pending', k * 512 + i)
      {
        assert t.pml1[f][i] == EntryUnder(m, hooks, pending, k * 512 + i);
        assert k * 512 + i == page ==> k == page / 512 && i == page % 512;
      }
    }
  }

  /** So it keeps the tables. */
  lemma WriteKeepsTables(
      m: MemoryMap, t: Tables, hooks: seq<Hook>, pending: Option<Hook>, requested: map<nat, nat>,
      page: nat, ref: EntryRef, hooks': seq<Hook>, pending': Option<Hook>)
    requires WellSized(t) && TablesOk(m, t, hooks, pending)
    requires forall h | h in hooks :: Describes(m, h, requested)
    requires page < SMALL_PAGES && t.pml2[page / 512] == Table(FullAccess(ref.table))
    requires ref.table in t.pml1 && ref.index == page % 512
    requires forall q | 0 <= q < SMALL_PAGES && q != page ::
      EntryUnder(m, hooks', pending', q) == EntryUnder(m, hooks, pending, q)
    ensures TablesOk(m, WriteEntry(t, ref, EntryUnder(m, hooks', pending', page)), hooks', pending')
  {
    var u := WriteEntry(t, ref, EntryUnder(m, hooks', pending', page));
    forall k | 0 <= k < LARGE_PAGES
      ensures SlotOk(m, u, hooks', pending', k)
    {
      WriteKeepsSlot(m, t, hooks, pending, requested, page, ref, hooks', pending', k);
    }
    forall f | f in u.pml1
      ensures Referenced(u, f)
    {
      assert Referenced(t, f);
    }
  }

  // ----- Every step keeps the invariant -----

  /** The new table holds the identity entries, and no page in it is hooked. */
  lemma SplitSlot(m: MemoryMap, p: Processor, buffer: nat, k: nat)
    requires Inv(m, p) && buffer !in p.ept.tables.pml1 && k < LARGE_PAGES && p.ept.tables.pml2[k].Large?
    ensures forall h | h in p.ept.hooks :: PageOf(h) / 512 != k
    ensures forall i | 0 <= i < 512 ::
      SplitEntries(m, p.ept.tables.pml2[k].page)[i] == EntryUnder(m, p.ept.hooks, p.pending, k * 512 + i)
  {
    var t, hooks := p.ept.tables, p.ept.hooks;
    assert SlotOk(m, t, hooks, p.pending, k);
    forall h | h in hooks
      ensures PageOf(h) / 512 != k
    {
      assert Placed(t, h);
    }
    forall i | 0 <= i < 512
      ensures SplitEntries(m, t.pml2[k].page)[i] == EntryUnder(m, hooks, p.pending, k * 512 + i)
    {
      assert (k * 512 + i) / 512 == k;
      EntryUnderUnhooked(m, hooks, p.pending, k * 512 + i);
    }
  }

  lemma SplitKeepsTables(m: MemoryMap, p: Processor, buffer: nat, address: nat)
    requires Inv(m, p) && buffer !in p.ept.tables.pml1
    ensures var t := Split(p.ept.tables, m, buffer, address).tables;
      && TablesOk(m, t, p.ept.hooks, p.pending)
      && (forall h | h in p.ept.hooks :: Placed(t, h))
      && WellFormed(EptState(t, p.ept.hooks))
  {
    var t, hooks := p.ept.tables, p.ept.hooks;
    var u := Split(t, m, buffer, address).tables;
    var k := Pml2Position(address);
    if u != t {
      SplitSlot(m, p, buffer, k);
      forall h | h in hooks
        ensures Placed(u, h)
      {
        assert Placed(t, h);
      }
      forall l | 0 <= l < LARGE_PAGES
        ensures SlotOk(m, u, hooks, p.pending, l)
      {
        assert SlotOk(m, t, hooks, p.pending, l);
      }
      forall f | f in u.pml1
        ensures Referenced(u, f)
      {
        if f == buffer {
          assert u.pml2[k] == Table(FullAccess(f));
        } else {
          assert Referenced(t, f);
          var l :| 0 <= l < LARGE_PAGES && t.pml2[l] == Table(FullAccess(f));
          assert u.pml2[l] == Table(FullAccess(f));
        }
      }
    }
  }

  /** A new record in front leaves the records of other pages describing them. */
  lemma InsertKeepsHooks(m: MemoryMap, t: Tables, hooks: seq<Hook>, requested: map<nat, nat>, h: Hook, permissions: nat)
    requires WellFormed(EptState(t, [h] + hooks)) && HooksOk(m, t, hooks, requested)
    requires forall g | g in hooks :: PageOf(g) != PageOf(h) && g.virtualAddress != h.virtualAddress
    requires Describes(m, h, requested[h.virtualAddress := permissions]) && Placed(t, h)
    ensures HooksOk(m, WriteEntry(t, h.entry, h.changed), [h] + hooks, requested[h.virtualAddress := permissions])
  {
    var requested' := requested[h.virtualAddress := permissions];
    forall g | g in [h] + hooks
      ensures Describes(m, g, requested') && Placed(WriteEntry(t, h.entry, h.changed), g)
    {
      assert g in hooks ==> Describes(m, g, requested) && Placed(t, g);
    }
  }

  lemma InsertKeepsInv(
      m: MemoryMap, t: Tables, hooks: seq<Hook>, pending: Option<Hook>, requested: map<nat, nat>, r: HookRequest)
    requires WellFormed(EptState(t, hooks)) && r.record.Some?
    requires pending.Some? ==> pending.value in hooks
    requires TablesOk(m, t, hooks, pending) && HooksOk(m, t, hooks, requested)
    requires r.physical < 0x1_0000_0000_0000 && r.physical % PAGE_SIZE == 0
    requires Pml1Ref(t, r.physical).Some?
    requires forall g | g in hooks ::
      g.physicalBaseAddress != r.physical && g.virtualAddress != PageAlign(r.targetFunc)
    ensures var h := NewHook(t, r, Pml1Ref(t, r.physical).value);
      var s := InsertHook(EptState(t, hooks), h);
      && TablesOk(m, s.tables, s.hooks, pending)
      && HooksOk(m, s.tables, s.hooks, requested[h.virtualAddress := r.permissions])
  {
    var h := NewHook(t, r, Pml1Ref(t, r.physical).value);
    var page := r.physical / PAGE_SIZE;
    HookedPageIsSplit(m, t, hooks, pending, r.physical);
    assert PageOf(h) == page;
    forall g | g in hooks
      ensures PageOf(g) != page
    {
      assert Describes(m, g, requested);
    }
    EntryUnderUnhooked(m, hooks, pending, page);
    InsertKeepsHooks(m, t, hooks, requested, h, r.permissions);
    EntryUnderInsert(m, hooks, pending, h);
    WriteKeepsTables(m, t, hooks, pending, requested, page, h.entry, [h] + hooks, pending);
  }

  lemma EntryUnderInsert(m: MemoryMap, hooks: seq<Hook>, pending: Option<Hook>, h: Hook)
    requires pending != Some(h)
    ensures EntryUnder(m, [h] + hooks, pending, PageOf(h)) == h.changed
    ensures forall q | q != PageOf(h) :: EntryUnder(m, [h] + hooks, pending, q) == EntryUnder(m, hooks, pending, q)
  {
    assert ([h] + hooks)[1..] == hooks;
  }

  /** The part of a hook request after the split. */
  lemma EntryKeepsInv(m: MemoryMap, p: Processor, t: Tables, r: HookRequest)
    requires Inv(m, p) && Grantable(p, r) && ReachesRecord(p.ept, r)
    requires WellFormed(EptState(t, p.ept.hooks)) && TablesOk(m, t, p.ept.hooks, p.pending)
    requires forall h | h in p.ept.hooks :: Placed(t, h)
    ensures var o := HookedEntry(EptState(t, p.ept.hooks), r);
      var s, ok, page := o.0, o.1, PageAlign(r.targetFunc);
      && (ok <==> s.hooks != p.ept.hooks)
      && (p.pending.Some? ==> p.pending.value in s.hooks)
      && TablesOk(m, s.tables, s.hooks, p.pending)
      && HooksOk(m, s.tables, s.hooks, if ok then p.requested[page := r.permissions] else p.requested)
  {
    assert IndexOfVirtual(p.ept.hooks, PageAlign(r.targetFunc)) == |p.ept.hooks|;
    if HookedEntry(EptState(t, p.ept.hooks), r).1 {
      InsertKeepsInv(m, t, p.ept.hooks, p.pending, p.requested, r);
    }
  }

  lemma HookKeepsInv(m: MemoryMap, kernel: KernelImage, p: Processor, r: HookRequest)
    requires Inv(m, p) && Grantable(p, r) && FreshBuffer(p, r)
    ensures Inv(m, Step(m, kernel, p, HookPage(r)))
  {
    if ReachesRecord(p.ept, r) {
      var split := Split(p.ept.tables, m, r.splitBuffer.value, r.physical);
      SplitKeepsTables(m, p, r.splitBuffer.value, r.physical);
      EntryKeepsInv(m, p, split.tables, r);
    }
  }

  /** In a well-formed table the entry found for an address is the entry of its page. */
  lemma HookedPageIsSplit(m: MemoryMap, t: Tables, hooks: seq<Hook>, pending: Option<Hook>, physical: nat)
    requires WellSized(t) && TablesOk(m, t, hooks, pending)
    requires physical < 0x1_0000_0000_0000 && physical % PAGE_SIZE == 0
    requires Pml1Ref(t, physical).Some?
    ensures var ref := Pml1Ref(t, physical).value;
      var page := physical / PAGE_SIZE;
      && page < SMALL_PAGES && PageAlign(physical) == page * PAGE_SIZE
      && t.pml2[page / 512] == Table(FullAccess(ref.table))
      && ref.index == page % 512
      && ReadEntry(t, ref) == EntryUnder(m, hooks, pending, page)
  {
    var page := physical / PAGE_SIZE;
    assert physical < MAPPED_BYTES by {
      assert physical / 0x80_0000_0000 < 512;
    }
    IndicesOfPage(page, 0);
    assert SlotOk(m, t, hooks, pending, page / 512);
    assert page / 512 * 512 + page % 512 == page;
  }

  lemma RestOfHooks(hooks: seq<Hook>, j: nat)
    requires j < |hooks| && DistinctHooks(hooks)
    ensures var rest := hooks[..j] + hooks[j + 1..];
      && DistinctHooks(rest)
      && forall g | g in rest :: g in hooks && PageOf(g) != PageOf(hooks[j])
  {
    var rest := hooks[..j] + hooks[j + 1..];
    forall g | g in rest
      ensures g in hooks && PageOf(g) != PageOf(hooks[j])
    {
      var i :| 0 <= i < |rest| && rest[i] == g;
      assert g == hooks[if i < j then i else i + 1];
    }
  }

  /** A record keeps describing its page when another entry is written. */
  lemma HooksSurviveWrite(
      m: MemoryMap, t: Tables, hooks: seq<Hook>, requested: map<nat, nat>, kept: seq<Hook>, ref: EntryRef, e: Pte)
    requires WellSized(t) && ref.table in t.pml1 && ref.index < 512
    requires HooksOk(m, t, hooks, requested) && DistinctHooks(kept) && forall g | g in kept :: g in hooks
    ensures HooksOk(m, WriteEntry(t, ref, e), kept, requested)
  {
    forall g | g in kept
      ensures Describes(m, g, requested) && Placed(WriteEntry(t, ref, e), g)
    {
      assert Placed(t, g);
    }
  }

  /** Removing a record that no grant is pending for, its original entry written back. */
  lemma RemoveKeepsInv(
      m: MemoryMap, t: Tables, hooks: seq<Hook>, pending: Option<Hook>, requested: map<nat, nat>, j: nat)
    requires WellFormed(EptState(t, hooks)) && j < |hooks| && pending != Some(hooks[j])
    requires TablesOk(m, t, hooks, pending) && HooksOk(m, t, hooks, requested)
    ensures var u := WriteEntry(t, hooks[j].entry, hooks[j].original);
      var rest := hooks[..j] + hooks[j + 1..];
      TablesOk(m, u, rest, pending) && HooksOk(m, u, rest, requested)
  {
    var h := hooks[j];
    var rest := hooks[..j] + hooks[j + 1..];
    var page := PageOf(h);
    assert Describes(m, h, requested) && Placed(t, h);
    RestOfHooks(hooks, j);
    HooksSurviveWrite(m, t, hooks, requested, rest, h.entry, h.original);
    EntryUnderUnhooked(m, rest, pending, page);
    forall q | 0 <= q < SMALL_PAGES && q != page
      ensures EntryUnder(m, rest, pending, q) == EntryUnder(m, hooks, pending, q)
    {
      EntryUnderRemove(m, hooks, pending, j, q);
    }
    WriteKeepsTables(m, t, hooks, pending, requested, page, h.entry, rest, pending);
  }

  lemma {:induction false} RestoreAllKeepsUpper(t: Tables, hooks: seq<Hook>)
    requires WellFormed(EptState(t, hooks))
    ensures RestoreAll(t, hooks) == t.(pml1 := RestoreAll(t, hooks).pml1)
    decreases |hooks|
  {
    if hooks != [] {
      RestoreAllKeepsUpper(WriteEntry(t, hooks[0].entry, hooks[0].original), hooks[1..]);
    }
  }

  lemma RestoreFirst(m: MemoryMap, t: Tables, hooks: seq<Hook>, requested: map<nat, nat>)
    requires WellFormed(EptState(t, hooks)) && hooks != []
    requires TablesOk(m, t, hooks, None) && HooksOk(m, t, hooks, requested)
    ensures var rest, u := hooks[1..], WriteEntry(t, hooks[0].entry, hooks[0].original);
      WellFormed(EptState(u, rest)) && TablesOk(m, u, rest, None) && HooksOk(m, u, rest, requested)
  {
    RemoveKeepsInv(m, t, hooks, None, requested, 0);
    assert hooks[..0] + hooks[1..] == hooks[1..];
    assert forall h | h in hooks[1..] :: h in hooks;
  }

  lemma {:induction false} RestoreAllKeepsInv(m: MemoryMap, t: Tables, hooks: seq<Hook>, requested: map<nat, nat>)
    requires WellFormed(EptState(t, hooks))
    requires TablesOk(m, t, hooks, None) && HooksOk(m, t, hooks, requested)
    ensures TablesOk(m, RestoreAll(t, hooks), [], None)
    decreases |hooks|
  {
    if hooks != [] {
      RestoreFirst(m, t, hooks, requested);
      RestoreAllKeepsInv(m, WriteEntry(t, hooks[0].entry, hooks[0].original), hooks[1..], requested);
    }
  }

  /** Opening or closing the grant of record j rewrites exactly that record's entry. */
  lemma GrantKeepsInv(
      m: MemoryMap, t: Tables, hooks: seq<Hook>, requested: map<nat, nat>, j: nat,
      pending: Option<Hook>, pending': Option<Hook>)
    requires WellFormed(EptState(t, hooks)) && j < |hooks|
    requires pending == None || pending == Some(hooks[j])
    requires pending' == None || pending' == Some(hooks[j])
    requires TablesOk(m, t, hooks, pending) && HooksOk(m, t, hooks, requested)
    ensures var u := WriteEntry(t, hooks[j].entry, if pending'.None? then hooks[j].changed else hooks[j].original);
      TablesOk(m, u, hooks, pending') && HooksOk(m, u, hooks, requested)
  {
    var h := hooks[j];
    assert Describes(m, h, requested) && Placed(t, h);
    EntryUnderHooked(m, hooks, pending', j);
    forall q | 0 <= q < SMALL_PAGES && q != PageOf(h)
      ensures EntryUnder(m, hooks, pending', q) == EntryUnder(m, hooks, pending, q)
    {
      EntryUnderPending(m, hooks, h, q);
    }
    WriteKeepsTables(m, t, hooks, pending, requested, PageOf(h), h.entry, hooks, pending');
    HooksSurviveWrite(m, t, hooks, requested, hooks, h.entry, EntryUnder(m, hooks, pending', PageOf(h)));
  }

  lemma UnhookKeepsInv(m: MemoryMap, kernel: KernelImage, p: Processor, address: nat)
    requires Inv(m, p) && RespectsGrant(kernel, p, UnhookPage(address))
    ensures Inv(m, Step(m, kernel, p, UnhookPage(address)))
  {
    var i := IndexOfVirtual(p.ept.hooks, PageAlign(address));
    if i < |p.ept.hooks| {
      WithoutRecordInv(m, p, i);
    }
  }

  lemma WithoutRecordInv(m: MemoryMap, p: Processor, i: nat)
    requires Inv(m, p) && i < |p.ept.hooks| && p.pending != Some(p.ept.hooks[i])
    ensures var hooks, h := p.ept.hooks, p.ept.hooks[i];
      var s := EptState(WriteEntry(p.ept.tables, h.entry, h.original), hooks[..i] + hooks[i + 1..]);
      Inv(m, p.(ept := s, fault := None))
  {
    RemoveKeepsInv(m, p.ept.tables, p.ept.hooks, p.pending, p.requested, i);
    RestOfHooks(p.ept.hooks, i);
    if p.pending.Some? {
      OthersStay(p.ept.hooks, i, p.pending.value);
    }
  }

  lemma OthersStay(hooks: seq<Hook>, i: nat, h: Hook)
    requires i < |hooks| && h in hooks && h != hooks[i]
    ensures h in hooks[..i] + hooks[i + 1..]
  {
    var j :| 0 <= j < |hooks| && hooks[j] == h;
    assert (hooks[..i] + hooks[i + 1..])[if j < i then j else j - 1] == h;
  }

  /** The record a page is found under, when no other record has its physical page. */
  lemma FoundByPhysical(m: MemoryMap, p: Processor, h: Hook)
    requires Inv(m, p) && h in p.ept.hooks
    ensures var i := IndexOfPhysical(p.ept.hooks, h.physicalBaseAddress);
      i < |p.ept.hooks| && p.ept.hooks[i] == h
  {
    var i := IndexOfPhysical(p.ept.hooks, h.physicalBaseAddress);
    var j :| 0 <= j < |p.ept.hooks| && p.ept.hooks[j] == h;
    assert i <= j && PageOf(p.ept.hooks[i]) == PageOf(p.ept.hooks[j]);
  }

  /** An access opens a page exactly when it is granted. */
  lemma OpensIsGrant(p: Processor, a: Action, kernel: KernelImage)
    requires WellFormed(p.ept) && a.Violation?
    ensures Opens(p.ept, a.qualification, a.guestPhysical, a.rip, kernel) <==>
      HandleEptViolation(p.ept, a.qualification, a.guestPhysical, a.guestLinear, a.rip, kernel).grant.Some?
  {
    var i := IndexOfPhysical(p.ept.hooks, PageAlign(a.guestPhysical));
    assert i < |p.ept.hooks| ==> p.ept.hooks[i] in p.ept.hooks;
  }

  lemma ViolationKeepsInv(m: MemoryMap, kernel: KernelImage, p: Processor, a: Action)
    requires Inv(m, p) && a.Violation? && RespectsGrant(kernel, p, a)
    ensures Inv(m, Step(m, kernel, p, a))
  {
    var hooks := p.ept.hooks;
    var o := HandleEptViolation(p.ept, a.qualification, a.guestPhysical, a.guestLinear, a.rip, kernel);
    OpensIsGrant(p, a, kernel);
    if o.grant.Some? {
      var i := IndexOfPhysical(hooks, PageAlign(a.guestPhysical));
      if p.pending.Some? {
        FoundByPhysical(m, p, p.pending.value);
      }
      GrantKeepsInv(m, p.ept.tables, hooks, p.requested, i, p.pending, Some(hooks[i]));
    }
  }

  lemma MonitorTrapKeepsInv(m: MemoryMap, kernel: KernelImage, p: Processor)
    requires Inv(m, p)
    ensures Inv(m, Step(m, kernel, p, MonitorTrap))
  {
    if p.pending.Some? {
      var j :| 0 <= j < |p.ept.hooks| && p.ept.hooks[j] == p.pending.value;
      GrantKeepsInv(m, p.ept.tables, p.ept.hooks, p.requested, j, p.pending, None);
    }
  }

  lemma StepKeepsInv(m: MemoryMap, kernel: KernelImage, p: Processor, a: Action)
    requires Inv(m, p) && Enabled(kernel, p, a)
    ensures Inv(m, Step(m, kernel, p, a))
  {
    match a
    case HookPage(r) => HookKeepsInv(m, kernel, p, r);
    case UnhookPage(address) => UnhookKeepsInv(m, kernel, p, address);
    case UnhookAll => RestoreAllKeepsInv(m, p.ept.tables, p.ept.hooks, p.requested);
    case Violation(_, _, _, _) => ViolationKeepsInv(m, kernel, p, a);
    case MonitorTrap => MonitorTrapKeepsInv(m, kernel, p);
  }

  // ----- Runs -----

  ghost predicate EnabledRun(m: MemoryMap, kernel: KernelImage, p: Processor, actions: seq<Action>)
    decreases |actions|
  {
    actions != [] ==>
      && Stepable(p) && Enabled(kernel, p, actions[0])
      && EnabledRun(m, kernel, Step(m, kernel, p, actions[0]), actions[1..])
  }

  ghost predicate Stepable(p: Processor) {
    WellFormed(p.ept) && (p.pending.Some? ==> p.pending.value in p.ept.hooks)
  }

  ghost function Run(m: MemoryMap, kernel: KernelImage, p: Processor, actions: seq<Action>): Processor
    requires EnabledRun(m, kernel, p, actions)
    decreases |actions|
  {
    if actions == [] then p else Run(m, kernel, Step(m, kernel, p, actions[0]), actions[1..])
  }

  lemma {:induction false} RunKeepsInv(m: MemoryMap, kernel: KernelImage, p: Processor, actions: seq<Action>)
    requires Inv(m, p) && EnabledRun(m, kernel, p, actions)
    ensures Inv(m, Run(m, kernel, p, actions))
    decreases |actions|
  {
    if actions != [] {
      StepKeepsInv(m, kernel, p, actions[0]);
      RunKeepsInv(m, kernel, Step(m, kernel, p, actions[0]), actions[1..]);
    }
  }

  /** The state LogicalProcessorInitialize leaves behind. */
  function Constructed(m: MemoryMap, base: nat): Processor {
    Processor(EptState(IdentityTables(m, base), []), None, false, None, map[], map[])
  }

  lemma ConstructedInv(m: MemoryMap, base: nat)
    ensures Inv(m, Constructed(m, base))
  {
    var t := IdentityTables(m, base);
    forall k | 0 <= k < LARGE_PAGES
      ensures SlotOk(m, t, [], None, k)
    {
      assert t.pml2[k] == Large(LargeEntry(m, k));
    }
  }

  ghost predicate Reachable(m: MemoryMap, kernel: KernelImage, base: nat, actions: seq<Action>, p: Processor) {
    && EnabledRun(m, kernel, Constructed(m, base), actions)
    && p == Run(m, kernel, Constructed(m, base), actions)
  }

  // ----- The effective map -----

  /** What the processor does with a guest-physical address of a small page, as the records and
      the grant determine it. */
  function EffectiveTranslation(m: MemoryMap, hooks: seq<Hook>, pending: Option<Hook>, page: nat): Translation {
    var e := EntryUnder(m, hooks, pending, page);
    Translation(page, e.read, e.write, e.execute, e.memoryType)
  }

  /** In every state the invariant allows, an address of a split large page translates as the
      records say, and one of an unsplit large page as the identity map says. */
  lemma WalkUnderInv(m: MemoryMap, p: Processor, page: nat, offset: nat)
    requires Inv(m, p) && page < SMALL_PAGES && offset < PAGE_SIZE
    ensures Walk(p.ept.tables, page * PAGE_SIZE + offset) == Some(
        if p.ept.tables.pml2[page / 512].Table? then EffectiveTranslation(m, p.ept.hooks, p.pending, page)
        else Translation(page, true, true, true, LargeEntry(m, page / 512).memoryType))
  {
    var t := p.ept.tables;
    WalkReaches(t, page, offset);
    assert SlotOk(m, t, p.ept.hooks, p.pending, page / 512);
    assert page / 512 * 512 + page % 512 == page;
    if t.pml2[page / 512].Table? {
      EntryUnderFrame(m, p.ept.hooks, p.pending, page, p.requested);
      assert t.pml1[t.pml2[page / 512].pointer.frame][page % 512]
          == EntryUnder(m, p.ept.hooks, p.pending, page / 512 * 512 + page % 512);
    }
  }

  /** Whole-run identity: whatever is hooked, unhooked, violated and trapped, in any order, every
      address below 512 GB translates to itself with the memory type of its page. Only in 2 MB page 0
      it may be another until that page is split: its first address's, or uncacheable when a memory
      range ends inside it. */
  lemma WholeRunIdentity(m: MemoryMap, kernel: KernelImage, base: nat, actions: seq<Action>, p: Processor, address: nat)
    requires forall k | 0 < k < LARGE_PAGES :: ValidForLargePage(m, k)
    requires Reachable(m, kernel, base, actions, p) && address < MAPPED_BYTES
    ensures Inv(m, p)
    ensures Walk(p.ept.tables, address).Some?
    ensures var w := Walk(p.ept.tables, address).value;
      && w.frame == address / PAGE_SIZE
      && (address >= SIZE_2_MB ==> w.memoryType == MemoryTypeAt(m, PageAlign(address)) % 8)
      && (address < SIZE_2_MB ==>
            w.memoryType == if p.ept.tables.pml2[0].Table? then MemoryTypeAt(m, PageAlign(address)) % 8
                            else if ValidForLargePage(m, 0) then MemoryTypeAt(m, 0) % 8 else 0)
  {
    ConstructedInv(m, base);
    RunKeepsInv(m, kernel, Constructed(m, base), actions);
    IdentityUnderInv(m, p, address);
  }

  lemma IdentityUnderInv(m: MemoryMap, p: Processor, address: nat)
    requires Inv(m, p) && address < MAPPED_BYTES
    requires forall k | 0 < k < LARGE_PAGES :: ValidForLargePage(m, k)
    ensures Walk(p.ept.tables, address).Some?
    ensures var w := Walk(p.ept.tables, address).value;
      && w.frame == address / PAGE_SIZE
      && (address >= SIZE_2_MB ==> w.memoryType == MemoryTypeAt(m, PageAlign(address)) % 8)
      && (address < SIZE_2_MB ==>
            w.memoryType == if p.ept.tables.pml2[0].Table? then MemoryTypeAt(m, PageAlign(address)) % 8
                            else if ValidForLargePage(m, 0) then MemoryTypeAt(m, 0) % 8 else 0)
  {
    var page, offset := address / PAGE_SIZE, address % PAGE_SIZE;
    assert page / 512 > 0 <==> address >= SIZE_2_MB;
    assert address == page * PAGE_SIZE + offset && PageAlign(address) == page * PAGE_SIZE;
    PageUnderInv(m, p, page, offset);
  }

  lemma PageUnderInv(m: MemoryMap, p: Processor, page: nat, offset: nat)
    requires Inv(m, p) && page < SMALL_PAGES && offset < PAGE_SIZE
    requires page / 512 > 0 ==> ValidForLargePage(m, page / 512)
    ensures var w := Walk(p.ept.tables, page * PAGE_SIZE + offset);
      && w.Some? && w.value.frame == page
      && w.value.memoryType ==
         if page / 512 > 0 || p.ept.tables.pml2[0].Table? then MemoryTypeAt(m, page * PAGE_SIZE) % 8
         else if ValidForLargePage(m, 0) then MemoryTypeAt(m, 0) % 8 else 0
  {
    WalkUnderInv(m, p, page, offset);
    if page / 512 > 0 {
      TypeOfPage(m, page);
    }
    EntryUnderFrame(m, p.ept.hooks, p.pending, page, p.requested);
  }

  /** Outside the first large page splitting does not show in the memory type. */
  lemma TypeOfPage(m: MemoryMap, page: nat)
    requires page < SMALL_PAGES && ValidForLargePage(m, page / 512)
    ensures LargeEntry(m, page / 512).memoryType == SmallEntry(m, page).memoryType
  {
    SplittingKeepsMemoryType(m, page / 512, page % 512);
    assert page / 512 * PAGES_PER_LARGE_PAGE + page % 512 == page;
  }
}
