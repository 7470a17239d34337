/** What holds of the pool under every interleaving of its callers and its two threads. */
module PoolTheorems {
  import opened Wrappers
  import opened RequestList
  import opened PoolProtocol

  // ----- Slots -----

  lemma SlotUpdated(p: Pool, kind: AllocationType, i: nat, isUsed: bool, memory: map<nat, seq<nat>>)
    requires PoolOk(p) && i < |SlotsOf(p, kind)|
    requires var a := SlotsOf(p, kind)[i].data.address;
      memory == (if isUsed then p.memory else p.memory[a := Zeros(SizeOf(kind))])
    ensures var slots := SlotsOf(p, kind);
      PoolOk(WithSlots(p, kind, slots[i := slots[i].(isUsed := isUsed)]).(memory := memory))
  {
    var slots := SlotsOf(p, kind);
    var q := WithSlots(p, kind, slots[i := slots[i].(isUsed := isUsed)]).(memory := memory);
    var all, after := p.paging + p.hooks, q.paging + q.hooks;
    assert forall j | 0 <= j < |all| :: after[j].data == all[j].data;
    forall k, s | s in SlotsOf(q, k)
      ensures s.data.kind == k && s.data.address != 0 && s.data.address in memory
      ensures |memory[s.data.address]| == SizeOf(k)
      ensures !s.isUsed ==> memory[s.data.address] == Zeros(SizeOf(k))
    {
      var j :| 0 <= j < |SlotsOf(q, k)| && SlotsOf(q, k)[j] == s;
      var before := SlotsOf(p, k)[j];
      assert before in SlotsOf(p, k) && slots[i] in SlotsOf(p, kind);
      if before.data.address == slots[i].data.address {
        SameAddressSameSlot(p, k, j, kind, i);
      }
    }
  }

  /** One address, one slot. */
  lemma SameAddressSameSlot(p: Pool, k: AllocationType, j: nat, kind: AllocationType, i: nat)
    requires PoolOk(p) && j < |SlotsOf(p, k)| && i < |SlotsOf(p, kind)|
    requires SlotsOf(p, k)[j].data.address == SlotsOf(p, kind)[i].data.address
    ensures k == kind && i == j
  {
    var all := p.paging + p.hooks;
    var u := if k == SplitPage then j else |p.paging| + j;
    var v := if kind == SplitPage then i else |p.paging| + i;
    assert all[u] == SlotsOf(p, k)[j] && all[v] == SlotsOf(p, kind)[i];
  }

  /** A handed-out block has a used slot, and FreeInternal's search finds exactly that one. */
  lemma BlockHasSlot(p: Pool, b: Block)
    requires PoolOk(p) && Uses(p.paging, b) + Uses(p.hooks, b) > 0
    ensures var slots, i := SlotsOf(p, b.kind), FirstAt(SlotsOf(p, b.kind), b.address);
      i < |slots| && slots[i] == Item(b, true)
  {
    UsesIff(p.paging, b);
    UsesIff(p.hooks, b);
    var k := if Item(b, true) in p.paging then SplitPage else EptHookPage;
    var j :| 0 <= j < |SlotsOf(p, k)| && SlotsOf(p, k)[j] == Item(b, true);
    assert SlotsOf(p, k)[j] in SlotsOf(p, k);
    var i := FirstAt(SlotsOf(p, k), b.address);
    SameAddressSameSlot(p, k, j, k, i);
  }

  lemma {:induction false} UsedAtMostOnce(slots: seq<Slot>, b: Block)
    requires Distinct(slots)
    ensures Uses(slots, b) <= 1
  {
    if slots != [] {
      var last := |slots| - 1;
      UsedAtMostOnce(slots[..last], b);
      UsesIff(slots[..last], b);
      assert forall j | 0 <= j < last :: slots[..last][j] == slots[j];
    }
  }

  lemma DistinctParts(a: seq<Slot>, b: seq<Slot>)
    requires Distinct(a + b)
    ensures Distinct(a) && Distinct(b)
  {
    assert forall i | 0 <= i < |a| :: a[i] == (a + b)[i];
    assert forall i | 0 <= i < |b| :: b[i] == (a + b)[|a| + i];
  }

  /** Every block is in at most one slot. */
  lemma BlockOnce(p: Pool, b: Block)
    requires PoolOk(p)
    ensures Uses(p.paging, b) + Uses(p.hooks, b) <= 1
  {
    DistinctParts(p.paging, p.hooks);
    UsedAtMostOnce(p.paging, b);
    UsedAtMostOnce(p.hooks, b);
    UsesIff(p.paging, b);
    UsesIff(p.hooks, b);
    assert Item(b, true) in SlotsOf(p, SplitPage) ==> b.kind == SplitPage;
    assert Item(b, true) in SlotsOf(p, EptHookPage) ==> b.kind == EptHookPage;
  }

  // ----- The steps keep the invariant -----

  lemma ClaimKeeps(w: World, kind: AllocationType)
    requires PoolOk(w.pool)
    ensures PoolOk(NextWorld(w, Claim(kind)).pool)
  {
    var slots := SlotsOf(w.pool, kind);
    var i := FirstWith(slots, false);
    if i < |slots| {
      SlotUpdated(w.pool, kind, i, true, w.pool.memory);
    }
  }

  lemma ClaimConserves(w: World, kind: AllocationType, b: Block)
    requires PoolOk(w.pool) && ConservedAt(w, b)
    ensures ConservedAt(NextWorld(w, Claim(kind)), b)
  {
    var slots := SlotsOf(w.pool, kind);
    var i := FirstWith(slots, false);
    if i < |slots| {
      assert slots[i] in slots;
      UsesUpdate(slots, i, slots[i].(isUsed := true), b);
    }
  }

  lemma GrowConserves(w: World, address: Option<nat>, b: Block)
    requires ConservedAt(w, b) && w.allocating.Some?
    ensures ConservedAt(NextWorld(w, AllocationRun(address)), b)
  {
    if address.Some? {
      var kind := w.allocating.value;
      var added, q := Item(Block(address.value, kind), false), Grown(w.pool, kind, address);
      UsesAppend(SlotsOf(w.pool, kind), added, b);
      assert SlotsOf(q, kind) == SlotsOf(w.pool, kind) + [added];
      assert Uses(q.paging, b) == Uses(w.pool.paging, b) && Uses(q.hooks, b) == Uses(w.pool.hooks, b);
    }
  }

  /** A fresh slot keeps the addresses distinct. */
  lemma GrownDistinct(p: Pool, kind: AllocationType, address: nat)
    requires Distinct(p.paging + p.hooks) && Fresh(p, address)
    ensures var q := Grown(p, kind, Some(address)); Distinct(q.paging + q.hooks)
  {
    var q := Grown(p, kind, Some(address));
    var all, after, n := p.paging + p.hooks, q.paging + q.hooks, |q.paging|;
    var at := if kind == SplitPage then |p.paging| else |all|;
    assert forall k | 0 <= k < |all| :: all[k] in all;
    assert forall k | 0 <= k < |after| && k != at :: after[k] == all[if k < at then k else k - 1];
    assert after[at].data.address == address;
  }

  lemma GrowKeeps(p: Pool, kind: AllocationType, address: nat)
    requires PoolOk(p) && Fresh(p, address)
    ensures PoolOk(Grown(p, kind, Some(address)))
  {
    GrownDistinct(p, kind, address);
    var q := Grown(p, kind, Some(address));
    forall k, s | s in SlotsOf(q, k)
      ensures s.data.kind == k && s.data.address != 0 && s.data.address in q.memory
      ensures |q.memory[s.data.address]| == SizeOf(k)
      ensures !s.isUsed ==> q.memory[s.data.address] == Zeros(SizeOf(k))
    {
      if s != Item(Block(address, kind), false) {
        assert s in SlotsOf(p, k) && s in p.paging + p.hooks;
      }
    }
  }

  lemma ReleaseKeeps(p: Pool, b: Block)
    requires PoolOk(p)
    ensures PoolOk(Released(p, b))
  {
    var slots, i := SlotsOf(p, b.kind), FirstAt(SlotsOf(p, b.kind), b.address);
    if i < |slots| {
      SlotUpdated(p, b.kind, i, false, p.memory[b.address := Zeros(SizeOf(b.kind))]);
    }
  }

  /** The free thread gives back the slot of the very block it popped. */
  lemma ReleaseConserves(w: World, c: Block)
    requires WorldOk(w) && w.inFlight.Some?
    ensures ConservedAt(NextWorld(w, FreeRun), c)
  {
    var b := w.inFlight.value;
    var slots, i := SlotsOf(w.pool, b.kind), FirstAt(SlotsOf(w.pool, b.kind), b.address);
    assert ConservedAt(w, b) && ConservedAt(w, c);
    BlockHasSlot(w.pool, b);
    assert slots[i] in slots;
    UsesUpdate(slots, i, slots[i].(isUsed := false), c);
  }

  lemma SubmitConserves(w: World, c: Block, b: Block)
    requires ConservedAt(w, b) && c in w.submitting
    ensures ConservedAt(NextWorld(w, SubmitFree(c)), b)
  {
    InsertedUses(w.pool.freeRequests, c, b);
  }

  lemma PopConserves(w: World, b: Block)
    requires ConservedAt(w, b) && EnabledStep(w, FreePop)
    ensures ConservedAt(NextWorld(w, FreePop), b)
  {
    PoppedUses(w.pool.freeRequests, NO_BLOCK, b);
  }

  lemma MoveConserves(w: World, c: Block, b: Block)
    requires ConservedAt(w, b)
    ensures c in w.owned ==> ConservedAt(NextWorld(w, BeginFree(c)), b)
    ensures c in w.submitting ==> ConservedAt(NextWorld(w, DropFree(c)), b)
  {
  }

  lemma WriteKeeps(w: World, b: Block, contents: seq<nat>)
    requires WorldOk(w) && EnabledStep(w, WriteBlock(b, contents))
    ensures PoolOk(NextWorld(w, WriteBlock(b, contents)).pool)
  {
    assert ConservedAt(w, b);
    var p, q := w.pool, NextWorld(w, WriteBlock(b, contents)).pool;
    BlockHasSlot(p, b);
    var i := FirstAt(SlotsOf(p, b.kind), b.address);
    forall k, s | s in SlotsOf(q, k)
      ensures s.data.kind == k && s.data.address != 0 && s.data.address in q.memory
      ensures |q.memory[s.data.address]| == SizeOf(k)
      ensures !s.isUsed ==> q.memory[s.data.address] == Zeros(SizeOf(k))
    {
      assert s in SlotsOf(p, k);
      if s.data.address == b.address {
        var j :| 0 <= j < |SlotsOf(p, k)| && SlotsOf(p, k)[j] == s;
        SameAddressSameSlot(p, k, j, b.kind, i);
      }
    }
  }

  lemma StepKeepsPool(w: World, s: PoolStep)
    requires WorldOk(w) && EnabledStep(w, s)
    ensures PoolOk(NextWorld(w, s).pool)
  {
    match s
    case Claim(kind) => ClaimKeeps(w, kind);
    case AllocationRun(address) =>
      if address.Some? {
        GrowKeeps(w.pool, w.allocating.value, address.value);
      }
    case FreeRun => ReleaseKeeps(w.pool, w.inFlight.value);
    case WriteBlock(b, contents) => WriteKeeps(w, b, contents);
    case _ =>
  }

  lemma StepConserves(w: World, s: PoolStep, b: Block)
    requires WorldOk(w) && EnabledStep(w, s)
    ensures ConservedAt(NextWorld(w, s), b)
  {
    assert ConservedAt(w, b);
    match s
    case Claim(kind) => ClaimConserves(w, kind, b);
    case AllocationRun(address) => GrowConserves(w, address, b);
    case FreeRun => ReleaseConserves(w, b);
    case SubmitFree(c) => SubmitConserves(w, c, b);
    case FreePop => PopConserves(w, b);
    case BeginFree(c) => MoveConserves(w, c, b);
    case DropFree(c) => MoveConserves(w, c, b);
    case _ =>
  }

  lemma StepKeepsWorld(w: World, s: PoolStep)
    requires WorldOk(w) && EnabledStep(w, s)
    ensures WorldOk(NextWorld(w, s))
  {
    StepKeepsPool(w, s);
    forall b: Block
      ensures ConservedAt(NextWorld(w, s), b)
    {
      StepConserves(w, s, b);
    }
  }

  // ----- Runs -----

  ghost predicate EnabledWorldRun(w: World, steps: seq<PoolStep>)
    decreases |steps|
  {
    steps != [] ==> EnabledStep(w, steps[0]) && EnabledWorldRun(NextWorld(w, steps[0]), steps[1..])
  }

  ghost function RunWorld(w: World, steps: seq<PoolStep>): World
    decreases |steps|
  {
    if steps == [] then w else RunWorld(NextWorld(w, steps[0]), steps[1..])
  }

  lemma {:induction false} RunKeepsWorld(w: World, steps: seq<PoolStep>)
    requires WorldOk(w) && EnabledWorldRun(w, steps)
    ensures WorldOk(RunWorld(w, steps))
    decreases |steps|
  {
    if steps != [] {
      StepKeepsWorld(w, steps[0]);
      RunKeepsWorld(NextWorld(w, steps[0]), steps[1..]);
    }
  }

  // ----- The start -----

  /** The operating system returns distinct, non-null addresses. */
  ghost predicate DistinctAddresses(addresses: nat -> Option<nat>) {
    && (forall i: nat | addresses(i).Some? :: addresses(i).value != 0)
    && (forall i: nat, j: nat | i < j && addresses(i).Some? && addresses(j).Some? :: addresses(i) != addresses(j))
  }

  ghost predicate Taken(addresses: nat -> Option<nat>, k: nat, address: nat) {
    exists i: nat | i < k :: addresses(i) == Some(address)
  }

  /** Nothing is handed out, and only the first k addresses are in use. */
  ghost predicate Initial(p: Pool, addresses: nat -> Option<nat>, k: nat) {
    && PoolOk(p)
    && (forall s | s in p.paging + p.hooks :: !s.isUsed && Taken(addresses, k, s.data.address))
    && (forall s | s in p.freeRequests :: !s.isUsed)
  }

  lemma GrowInitial(p: Pool, addresses: nat -> Option<nat>, k: nat, kind: AllocationType)
    requires DistinctAddresses(addresses) && Initial(p, addresses, k)
    ensures Initial(Grown(p, kind, addresses(k)), addresses, k + 1)
  {
    var q := Grown(p, kind, addresses(k));
    if addresses(k).Some? {
      GrowKeeps(p, kind, addresses(k).value);
    }
    forall s | s in q.paging + q.hooks
      ensures !s.isUsed && Taken(addresses, k + 1, s.data.address)
    {
      if s in p.paging + p.hooks {
        assert Taken(addresses, k, s.data.address);
        var i: nat :| i < k && addresses(i) == Some(s.data.address);
      } else {
        assert addresses(k) == Some(s.data.address);
      }
    }
  }

  lemma EmptyInitial(addresses: nat -> Option<nat>)
    ensures Initial(EmptyPool(), addresses, 0)
  {
  }

  lemma GrowTwiceInitial(p: Pool, addresses: nat -> Option<nat>, k: nat)
    requires DistinctAddresses(addresses) && Initial(p, addresses, k)
    ensures Initial(GrownTwice(p, addresses(k), addresses(k + 1)), addresses, k + 2)
  {
    GrowInitial(p, addresses, k, SplitPage);
    GrowInitial(Grown(p, SplitPage, addresses(k)), addresses, k + 1, EptHookPage);
  }

  lemma {:induction false} InitialKeeps(addresses: nat -> Option<nat>, n: nat)
    requires DistinctAddresses(addresses)
    ensures Initial(InitialPool(addresses, n), addresses, 2 * n)
  {
    if n == 0 {
      EmptyInitial(addresses);
    } else {
      var p, k := InitialPool(addresses, n - 1), 2 * (n - 1);
      InitialKeeps(addresses, n - 1);
      GrowTwiceInitial(p, addresses, k);
      assert InitialPool(addresses, n) == GrownTwice(p, addresses(k), addresses(k + 1));
    }
  }

  function Started(addresses: nat -> Option<nat>, rounds: nat): World {
    World(InitialPool(addresses, rounds), multiset{}, multiset{}, None, None, multiset{})
  }

  lemma StartedOk(addresses: nat -> Option<nat>, rounds: nat)
    requires DistinctAddresses(addresses)
    ensures WorldOk(Started(addresses, rounds))
  {
    InitialKeeps(addresses, rounds);
    var p := Started(addresses, rounds).pool;
    forall b: Block
      ensures ConservedAt(Started(addresses, rounds), b)
    {
      UsesIff(p.paging, b);
      UsesIff(p.hooks, b);
      UsesIff(p.freeRequests, b);
      assert Item(b, true) !in p.paging + p.hooks;
    }
  }

  // ----- The guarantees -----

  /** Pool exclusivity: in every reachable state, under every interleaving, a handed-out block is
      in one place only, and two of them never share an address. */
  lemma PoolExclusive(addresses: nat -> Option<nat>, rounds: nat, steps: seq<PoolStep>, b: Block, c: Block)
    requires DistinctAddresses(addresses) && EnabledWorldRun(Started(addresses, rounds), steps)
    ensures var w := RunWorld(Started(addresses, rounds), steps);
      && Outstanding(w, b) <= 1
      && (Outstanding(w, b) > 0 && Outstanding(w, c) > 0 && b != c ==> b.address != c.address)
  {
    StartedOk(addresses, rounds);
    RunKeepsWorld(Started(addresses, rounds), steps);
    Exclusive(RunWorld(Started(addresses, rounds), steps), b, c);
  }

  lemma Exclusive(w: World, b: Block, c: Block)
    requires WorldOk(w)
    ensures Outstanding(w, b) <= 1
    ensures Outstanding(w, b) > 0 && Outstanding(w, c) > 0 && b != c ==> b.address != c.address
  {
    assert ConservedAt(w, b) && ConservedAt(w, c);
    BlockOnce(w.pool, b);
    if Outstanding(w, b) > 0 && Outstanding(w, c) > 0 && b.address == c.address {
      BlockHasSlot(w.pool, b);
      BlockHasSlot(w.pool, c);
      var i, j := FirstAt(SlotsOf(w.pool, b.kind), b.address), FirstAt(SlotsOf(w.pool, c.kind), c.address);
      SameAddressSameSlot(w.pool, b.kind, i, c.kind, j);
    }
  }

  /** A claimed block was with nobody, and it is zeroed. */
  lemma ClaimedZeroed(w: World, kind: AllocationType)
    requires WorldOk(w)
    ensures var (_, address) := Found(w.pool, kind);
      var t := NextWorld(w, Claim(kind));
      if address.None? then t == w && forall s | s in SlotsOf(w.pool, kind) :: s.isUsed
      else
        var b := Block(address.value, kind);
        && Outstanding(w, b) == 0 && t.owned == w.owned + multiset{b}
        && b.address in t.pool.memory && t.pool.memory[b.address] == Zeros(SizeOf(kind))
  {
    var slots := SlotsOf(w.pool, kind);
    var i := FirstWith(slots, false);
    if i < |slots| {
      var b := slots[i].data;
      assert slots[i] in slots && b == Block(b.address, kind);
      assert ConservedAt(w, b);
      if Outstanding(w, b) > 0 {
        BlockHasSlot(w.pool, b);
        SameAddressSameSlot(w.pool, kind, FirstAt(slots, b.address), kind, i);
      }
    }
  }

  /** The free thread changes no block a caller holds. */
  lemma FreeRunSpares(w: World, b: Block)
    requires WorldOk(w) && w.inFlight.Some? && b in w.owned
    ensures b.address in w.pool.memory && b.address in NextWorld(w, FreeRun).pool.memory
    ensures NextWorld(w, FreeRun).pool.memory[b.address] == w.pool.memory[b.address]
  {
    assert ConservedAt(w, b);
    BlockHasSlot(w.pool, b);
    assert Item(b, true) in SlotsOf(w.pool, b.kind);
    Exclusive(w, b, w.inFlight.value);
    ReleasedSpares(w.pool, w.inFlight.value, b.address);
  }

  lemma ReleasedSpares(p: Pool, b: Block, address: nat)
    requires address in p.memory && b.address != address
    ensures address in Released(p, b).memory && Released(p, b).memory[address] == p.memory[address]
  {
  }

  ghost predicate Grows(before: seq<Slot>, after: seq<Slot>) {
    |before| <= |after| && forall i | 0 <= i < |before| :: after[i].data == before[i].data
  }

  ghost predicate PoolGrows(p: Pool, q: Pool) {
    Grows(p.paging, q.paging) && Grows(p.hooks, q.hooks)
  }

  lemma FoundGrows(p: Pool, kind: AllocationType)
    ensures PoolGrows(p, Found(p, kind).0)
  {
  }

  lemma GrownGrows(p: Pool, kind: AllocationType, address: Option<nat>)
    ensures PoolGrows(p, Grown(p, kind, address))
  {
  }

  lemma ReleasedGrows(p: Pool, b: Block)
    ensures PoolGrows(p, Released(p, b))
  {
  }

  lemma StepGrows(w: World, s: PoolStep)
    ensures PoolGrows(w.pool, NextWorld(w, s).pool)
  {
    match s
    case Claim(kind) => FoundGrows(w.pool, kind);
    case AllocationRun(address) =>
      if w.allocating.Some? {
        GrownGrows(w.pool, w.allocating.value, address);
      }
    case FreeRun =>
      if w.inFlight.Some? {
        ReleasedGrows(w.pool, w.inFlight.value);
      }
    case _ =>
  }

  /** The slot lists only grow: no slot ever disappears or changes its address. */
  lemma {:induction false} ListsGrow(w: World, steps: seq<PoolStep>)
    ensures PoolGrows(w.pool, RunWorld(w, steps).pool)
    decreases |steps|
  {
    if steps != [] {
      StepGrows(w, steps[0]);
      ListsGrow(NextWorld(w, steps[0]), steps[1..]);
    }
  }

  /** Freeing undoes claiming: whatever the holder wrote, the pool is as it was before. */
  lemma ClaimFreeRoundTrip(p: Pool, kind: AllocationType, contents: seq<nat>)
    requires PoolOk(p) && Found(p, kind).1.Some?
    ensures var (q, address) := Found(p, kind);
      Released(q.(memory := q.memory[address.value := contents]), Block(address.value, kind)) == p
  {
    var (q, address) := Found(p, kind);
    var slots := SlotsOf(p, kind);
    var i := FirstWith(slots, false);
    var b := Block(address.value, kind);
    assert slots[i] in slots;
    var j := FirstAt(SlotsOf(q, kind), b.address);
    assert SlotsOf(q, kind)[i].data == slots[i].data && j <= i;
    assert SlotsOf(q, kind)[j].data == slots[j].data;
    SameAddressSameSlot(p, kind, i, kind, j);
    assert SlotsOf(q, kind)[i := slots[i]] == slots;
    assert q.memory[b.address := contents][b.address := Zeros(SizeOf(kind))] == p.memory;
  }

  /** Freeing the same block twice hands one address to two callers: the second release makes the
      slot unused while its next owner still holds it. */
  lemma DoubleFreeShares(p: Pool, kind: AllocationType)
    requires PoolOk(p) && Found(p, kind).1.Some?
    ensures var (claimed, address) := Found(p, kind);
      var b := Block(address.value, kind);
      var reclaimed := Found(Released(claimed, b), kind);
      reclaimed.1 == address && Found(Released(reclaimed.0, b), kind).1 == address
  {
    var (claimed, address) := Found(p, kind);
    var b := Block(address.value, kind);
    assert SlotsOf(p, kind)[FirstWith(SlotsOf(p, kind), false)] in SlotsOf(p, kind);
    ClaimFreeRoundTrip(p, kind, p.memory[address.value]);
    assert claimed.memory[address.value := p.memory[address.value]] == claimed.memory;
    assert claimed.(memory := claimed.memory) == claimed;
  }

  // ----- What is claimed, grown and released -----

  /** A search succeeds exactly when the list of the kind has an unused slot. It then takes the first
      one, and nothing but that slot changes. */
  lemma FoundIff(p: Pool, kind: AllocationType)
    ensures var slots, q, address := SlotsOf(p, kind), Found(p, kind).0, Found(p, kind).1;
      && (address.Some? <==> exists s | s in slots :: !s.isUsed)
      && (address.None? ==> q == p)
      && (address.Some? ==>
            exists i | 0 <= i < |slots| ::
              && !slots[i].isUsed && (forall j | 0 <= j < i :: slots[j].isUsed)
              && address.value == slots[i].data.address
              && q == WithSlots(p, kind, slots[i := Item(slots[i].data, true)]))
  {
    var slots := SlotsOf(p, kind);
    var i := FirstWith(slots, false);
    if i < |slots| {
      assert slots[i] in slots && !slots[i].isUsed;
      assert slots[i := slots[i].(isUsed := true)] == slots[i := Item(slots[i].data, true)];
    }
  }

  /** Growth by an address that the operating system returns makes a search that would have failed
      find that address, in a zeroed block of the size of the kind (8192 or 80 bytes) and one more
      slot than there was. */
  lemma GrowthServes(p: Pool, kind: AllocationType, address: nat)
    requires Found(p, kind).1.None?
    ensures var q, other := Grown(p, kind, Some(address)), if kind == SplitPage then EptHookPage else SplitPage;
      && Found(q, kind).1 == Some(address)
      && |SlotsOf(q, kind)| == |SlotsOf(p, kind)| + 1 && SlotsOf(q, other) == SlotsOf(p, other)
      && address in q.memory && |q.memory[address]| * 8 == (if kind == SplitPage then 8192 else 80)
      && forall i | 0 <= i < |q.memory[address]| :: q.memory[address][i] == 0
  {
    var slots, after := SlotsOf(p, kind), SlotsOf(Grown(p, kind, Some(address)), kind);
    var i := FirstWith(after, false);
    assert forall j | 0 <= j < |slots| :: after[j] == slots[j] && slots[j].isUsed;
    assert after[|slots|] == Item(Block(address, kind), false);
  }

  /** Without an address nothing grows. */
  lemma NoGrowth(p: Pool, kind: AllocationType)
    ensures Grown(p, kind, None) == p
  {
  }

  /** There are n unused slots of each kind, with the first 2n addresses in the order they came, and
      both request lists have room for 100 requests. */
  ghost predicate Served(p: Pool, addresses: nat -> Option<nat>, n: nat) {
    && |p.paging| == |p.hooks| == n && |p.allocationRequests| == |p.freeRequests| == 100
    && (forall i | 0 <= i < n ::
          addresses(2 * i).Some? && p.paging[i] == Item(Block(addresses(2 * i).value, SplitPage), false))
    && (forall i | 0 <= i < n ::
          addresses(2 * i + 1).Some? && p.hooks[i] == Item(Block(addresses(2 * i + 1).value, EptHookPage), false))
  }

  /** That is the pool after n rounds of the constructor, all served. */
  lemma {:induction false} InitialServed(addresses: nat -> Option<nat>, n: nat)
    requires forall i: nat | i < 2 * n :: addresses(i).Some?
    ensures Served(InitialPool(addresses, n), addresses, n)
  {
    if n > 0 {
      InitialServed(addresses, n - 1);
      GrownTwiceAppends(InitialPool(addresses, n - 1), addresses(2 * n - 2), addresses(2 * n - 1));
      ServedGrows(InitialPool(addresses, n - 1), InitialPool(addresses, n), addresses, n - 1);
    }
  }

  lemma ServedGrows(p: Pool, q: Pool, addresses: nat -> Option<nat>, n: nat)
    requires Served(p, addresses, n) && addresses(2 * n).Some? && addresses(2 * n + 1).Some?
    requires q.paging == p.paging + [Item(Block(addresses(2 * n).value, SplitPage), false)]
    requires q.hooks == p.hooks + [Item(Block(addresses(2 * n + 1).value, EptHookPage), false)]
    requires q.allocationRequests == p.allocationRequests && q.freeRequests == p.freeRequests
    ensures Served(q, addresses, n + 1)
  {
  }

  lemma GrownTwiceAppends(p: Pool, first: Option<nat>, second: Option<nat>)
    requires first.Some? && second.Some?
    ensures var q := GrownTwice(p, first, second);
      && q.paging == p.paging + [Item(Block(first.value, SplitPage), false)]
      && q.hooks == p.hooks + [Item(Block(second.value, EptHookPage), false)]
      && q.allocationRequests == p.allocationRequests && q.freeRequests == p.freeRequests
  {
  }

  /** A request into an empty list, the allocation thread's round for it, and an address from the
      operating system make the claim succeed that failed before. */
  lemma RequestServes(w: World, kind: AllocationType, address: nat)
    requires WorldOk(w) && w.allocating.None? && !HasRequest(w.pool.allocationRequests)
    requires Found(w.pool, kind).1.None? && Fresh(w.pool, address)
    ensures var queued := NextWorld(w, RequestAllocation(kind));
      var popped := NextWorld(queued, AllocationPop);
      var grown := NextWorld(popped, AllocationRun(Some(address)));
      && EnabledStep(queued, AllocationPop) && EnabledStep(popped, AllocationRun(Some(address)))
      && NextWorld(w, Claim(kind)) == w
      && NextWorld(grown, Claim(kind)).owned == w.owned + multiset{Block(address, kind)}
  {
    var queued := NextWorld(w, RequestAllocation(kind));
    assert FirstWith(w.pool.allocationRequests, false) == 0;
    assert FirstWith(queued.pool.allocationRequests, true) == 0;
    var popped := NextWorld(queued, AllocationPop);
    assert popped.allocating == Some(kind);
    SameSlotsSameFound(w.pool, popped.pool, kind);
    GrowthServes(popped.pool, kind, address);
  }

  lemma SameSlotsSameFound(p: Pool, q: Pool, kind: AllocationType)
    requires p.paging == q.paging && p.hooks == q.hooks
    ensures Found(p, kind).1 == Found(q, kind).1
  {
  }

  // ----- The memory of blocks in use -----

  lemma OwnedHasMemory(w: World, b: Block)
    requires WorldOk(w) && b in w.owned
    ensures b.address in w.pool.memory && |w.pool.memory[b.address]| == SizeOf(b.kind)
    ensures Item(b, true) in SlotsOf(w.pool, b.kind)
  {
    assert ConservedAt(w, b);
    BlockHasSlot(w.pool, b);
    var i := FirstAt(SlotsOf(w.pool, b.kind), b.address);
    assert SlotsOf(w.pool, b.kind)[i] in SlotsOf(w.pool, b.kind);
  }

  /** A step changes the memory of a block its caller holds only if it is the caller's own write. */
  lemma StepSparesOwned(w: World, s: PoolStep, b: Block)
    requires WorldOk(w) && EnabledStep(w, s) && b in w.owned
    requires s.WriteBlock? ==> s.block != b
    ensures b.address in w.pool.memory && b.address in NextWorld(w, s).pool.memory
    ensures NextWorld(w, s).pool.memory[b.address] == w.pool.memory[b.address]
  {
    OwnedHasMemory(w, b);
    match s
    case AllocationRun(address) => assert Item(b, true) in w.pool.paging + w.pool.hooks;
    case FreeRun => FreeRunSpares(w, b);
    case WriteBlock(c, _) => Exclusive(w, b, c);
    case _ =>
  }

  /** Callers may store into SPLIT blocks they hold, any number of them at once. */
  lemma StoreKeepsWorld(w: World, memory: map<nat, seq<nat>>)
    requires WorldOk(w) && memory.Keys == w.pool.memory.Keys
    requires forall f | f in memory :: |memory[f]| == |w.pool.memory[f]|
    requires forall f | f in memory && memory[f] != w.pool.memory[f] :: Block(f, SplitPage) in w.owned
    ensures WorldOk(w.(pool := w.pool.(memory := memory)))
  {
    var p, t := w.pool, w.(pool := w.pool.(memory := memory));
    forall k, s | s in SlotsOf(p, k)
      ensures s.data.address in memory && |memory[s.data.address]| == SizeOf(k)
      ensures !s.isUsed ==> memory[s.data.address] == Zeros(SizeOf(k))
    {
      var f := s.data.address;
      if memory[f] != p.memory[f] {
        UsedSlotOnly(w, k, s);
      }
    }
    forall b: Block
      ensures ConservedAt(t, b)
    {
      assert ConservedAt(w, b);
    }
  }

  /** The only slot with the address of a SPLIT block in use is a used one. */
  lemma UsedSlotOnly(w: World, kind: AllocationType, s: Slot)
    requires WorldOk(w) && s in SlotsOf(w.pool, kind) && Block(s.data.address, SplitPage) in w.owned
    ensures s.isUsed
  {
    var b := Block(s.data.address, SplitPage);
    OwnedHasMemory(w, b);
    var i :| 0 <= i < |SlotsOf(w.pool, SplitPage)| && SlotsOf(w.pool, SplitPage)[i] == Item(b, true);
    var j :| 0 <= j < |SlotsOf(w.pool, kind)| && SlotsOf(w.pool, kind)[j] == s;
    SameAddressSameSlot(w.pool, kind, j, SplitPage, i);
  }

  // ----- The final drain -----

  /** The free thread alone, popping and releasing until the list is empty. */
  ghost function DrainWorld(w: World): World
    decreases UsedCount(w.pool.freeRequests)
  {
    PoppedCount(w.pool.freeRequests, NO_BLOCK);
    if !HasRequest(w.pool.freeRequests) then w
    else DrainWorld(NextWorld(NextWorld(w, FreePop), FreeRun))
  }

  /** Once callers have stopped freeing, the drain ends with an empty list, and the slots still in
      use are exactly the blocks callers hold, are submitting or have dropped. The pool it leaves is
      the one DrainFrees leaves. */
  lemma {:induction false} DrainLeavesHeld(w: World)
    requires WorldOk(w) && w.inFlight.None?
    ensures var t := DrainWorld(w);
      && t.pool == Drained(w.pool)
      && WorldOk(t) && !HasRequest(t.pool.freeRequests) && t.inFlight.None?
      && t.owned == w.owned && t.submitting == w.submitting && t.dropped == w.dropped
      && forall b: Block ::
           Uses(t.pool.paging, b) + Uses(t.pool.hooks, b) == w.owned[b] + w.submitting[b] + w.dropped[b]
    decreases UsedCount(w.pool.freeRequests)
  {
    PoppedCount(w.pool.freeRequests, NO_BLOCK);
    if HasRequest(w.pool.freeRequests) {
      var popped := NextWorld(w, FreePop);
      StepKeepsWorld(w, FreePop);
      StepKeepsWorld(popped, FreeRun);
      assert NextWorld(popped, FreeRun).pool == FreedOne(w.pool);
      DrainLeavesHeld(NextWorld(popped, FreeRun));
    } else {
      forall b: Block
        ensures Uses(w.pool.paging, b) + Uses(w.pool.hooks, b) == w.owned[b] + w.submitting[b] + w.dropped[b]
      {
        UsesIff(w.pool.freeRequests, b);
        assert ConservedAt(w, b);
      }
    }
  }
}
