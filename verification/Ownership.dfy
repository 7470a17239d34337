/** The pool and the Ept of every processor together: who owns which block. Processors claim
    blocks, turn them into split tables and hook records, and hand them back, while the pool's
    threads run in between. */
module Ownership {
  import opened Wrappers
  import opened Mtrr
  import opened PageTables
  import opened TableMemory
  import opened HookProtocol
  import opened HookRuns
  import opened RequestList
  import opened PoolProtocol
  import opened PoolTheorems

  // ----- Blocks of one processor -----

  function Count(xs: seq<Block>, b: Block): nat {
    if xs == [] then 0 else (if xs[0] == b then 1 else 0) + Count(xs[1..], b)
  }

  lemma {:induction false} CountConcat(xs: seq<Block>, ys: seq<Block>, b: Block)
    ensures Count(xs + ys, b) == Count(xs, b) + Count(ys, b)
  {
    if xs == [] {
      assert xs + ys == ys;
    } else {
      CountConcat(xs[1..], ys, b);
      assert (xs + ys)[1..] == xs[1..] + ys;
    }
  }

  function Blocks(addresses: seq<nat>, kind: AllocationType): (bs: seq<Block>)
    ensures |bs| == |addresses|
  {
    seq(|addresses|, i requires 0 <= i < |addresses| => Block(addresses[i], kind))
  }

  function RecordBlocks(hooks: seq<Hook>): seq<Block> {
    Blocks(RecordsOf(hooks), EptHookPage)
  }

  /** How often a processor uses a block: as a split table, or as the record of a hook. A SPLIT
      block is named by the page its table is in, a HOOK block by its address. */
  function Live(s: EptState, b: Block): nat {
    if b.kind == SplitPage then if b.address in s.tables.pml1 then 1 else 0
    else Count(RecordBlocks(s.hooks), b)
  }

  /** The blocks an operation takes out of the processor's hands. */
  function Consumed(p: Processor, a: Action): seq<Block> {
    if !a.HookPage? || !Allocates(p.ept, a.request) || a.request.splitBuffer.None? then []
    else
      [Block(a.request.splitBuffer.value, SplitPage)]
        + if !ReachesRecord(p.ept, a.request) || a.request.record.None? then []
          else [Block(a.request.record.value, EptHookPage)]
  }

  /** The blocks an operation hands to Free. */
  function Freed(m: MemoryMap, p: Processor, a: Action): seq<Block>
    requires WellFormed(p.ept)
  {
    match a
    case HookPage(r) => Blocks(RootModePageHook(m, p.ept, r).freed, SplitPage)
    case UnhookPage(address) =>
      var record := PageUnhook(p.ept, address).1;
      if record.None? then [] else [Block(record.value, EptHookPage)]
    case UnhookAll => RecordBlocks(p.ept.hooks)
    case _ => []
  }

  lemma RecordBlocksRemove(hooks: seq<Hook>, i: nat, b: Block)
    requires i < |hooks|
    ensures Count(RecordBlocks(hooks[..i] + hooks[i + 1..]), b) + Count([Block(hooks[i].record, EptHookPage)], b)
         == Count(RecordBlocks(hooks), b)
  {
    var front, back := RecordBlocks(hooks[..i]), RecordBlocks(hooks[i + 1..]);
    var one := [Block(hooks[i].record, EptHookPage)];
    assert RecordBlocks(hooks[..i] + hooks[i + 1..]) == front + back;
    assert RecordBlocks(hooks) == front + (one + back);
    CountConcat(front, back, b);
    CountConcat(one, back, b);
    CountConcat(front, one + back, b);
  }

  lemma {:induction false} CountOfOther(xs: seq<Block>, b: Block)
    requires b !in xs
    ensures Count(xs, b) == 0
  {
    if xs != [] {
      CountOfOther(xs[1..], b);
    }
  }

  /** The split succeeds, and leaves an entry to hook. */
  lemma SplitAddsBuffer(m: MemoryMap, p: Processor, r: HookRequest)
    requires Inv(m, p) && ReachesRecord(p.ept, r)
    ensures var split := Split(p.ept.tables, m, r.splitBuffer.value, r.physical);
      && split.ok && Pml1Ref(split.tables, r.physical).Some?
      && split.tables.pml1.Keys
         == p.ept.tables.pml1.Keys + if split.bufferFreed then {} else {r.splitBuffer.value}
  {
    assert SlotOk(m, p.ept.tables, p.ept.hooks, p.pending, Pml2Position(r.physical));
  }

  /** A request that comes as far as its record takes both blocks; it frees the table's when the
      large page was split already. */
  lemma ReachedHook(m: MemoryMap, p: Processor, r: HookRequest)
    requires Inv(m, p) && FreshBuffer(p, r) && ReachesRecord(p.ept, r) && r.record.Some?
    ensures var table, record := Block(r.splitBuffer.value, SplitPage), Block(r.record.value, EptHookPage);
      var split := Split(p.ept.tables, m, r.splitBuffer.value, r.physical);
      var s := RootModePageHook(m, p.ept, r).state;
      && Consumed(p, HookPage(r)) == [table] + [record]
      && Freed(m, p, HookPage(r)) == (if split.bufferFreed then [table] else [])
      && RecordBlocks(s.hooks) == [record] + RecordBlocks(p.ept.hooks)
      && s.tables.pml1.Keys == p.ept.tables.pml1.Keys + if split.bufferFreed then {} else {r.splitBuffer.value}
  {
    SplitAddsBuffer(m, p, r);
    var split := Split(p.ept.tables, m, r.splitBuffer.value, r.physical);
    var h := NewHook(split.tables, r, Pml1Ref(split.tables, r.physical).value);
    var u := InsertHook(p.ept.(tables := split.tables), h);
    assert HookedEntry(p.ept.(tables := split.tables), r) == (u, true);
    assert RecordBlocks(u.hooks) == [Block(h.record, EptHookPage)] + RecordBlocks(p.ept.hooks);
  }

  ghost predicate Conserves(m: MemoryMap, kernel: KernelImage, p: Processor, a: Action, b: Block)
    requires Stepable(p)
  {
    Live(Step(m, kernel, p, a).ept, b) + Count(Freed(m, p, a), b) == Live(p.ept, b) + Count(Consumed(p, a), b)
  }

  lemma HookConserves(m: MemoryMap, kernel: KernelImage, p: Processor, r: HookRequest, b: Block)
    requires Inv(m, p) && FreshBuffer(p, r) && GetsRecord(p, HookPage(r))
    ensures Conserves(m, kernel, p, HookPage(r), b)
  {
    if ReachesRecord(p.ept, r) {
      ReachedHook(m, p, r);
      var record := Block(r.record.value, EptHookPage);
      CountConcat([Block(r.splitBuffer.value, SplitPage)], [record], b);
      CountConcat([record], RecordBlocks(p.ept.hooks), b);
    }
  }

  /** Without its record the table's block is freed once too often. */
  lemma FailedRecordDuplicates(m: MemoryMap, kernel: KernelImage, p: Processor, r: HookRequest)
    requires Inv(m, p) && FreshBuffer(p, r) && !GetsRecord(p, HookPage(r))
    ensures !Conserves(m, kernel, p, HookPage(r), Block(r.splitBuffer.value, SplitPage))
  {
    var buffer := r.splitBuffer.value;
    assert SlotOk(m, p.ept.tables, p.ept.hooks, p.pending, Pml2Position(r.physical));
    if p.ept.tables.pml2[Pml2Position(r.physical)].Large? {
      var o := RootModePageHook(m, p.ept, r);
      assert o.freed == [buffer] && buffer in o.state.tables.pml1;
      assert Freed(m, p, HookPage(r)) == Consumed(p, HookPage(r)) == [Block(buffer, SplitPage)];
    } else {
      var b := Block(buffer, SplitPage);
      assert RootModePageHook(m, p.ept, r) == HookOutcome(p.ept, false, [buffer, buffer]);
      assert Freed(m, p, HookPage(r)) == [b] + [b] && Consumed(p, HookPage(r)) == [b];
      CountConcat([b], [b], b);
    }
  }

  lemma UnhookConserves(m: MemoryMap, kernel: KernelImage, p: Processor, address: nat, b: Block)
    requires Inv(m, p)
    ensures Live(Step(m, kernel, p, UnhookPage(address)).ept, b) + Count(Freed(m, p, UnhookPage(address)), b)
         == Live(p.ept, b)
  {
    var i := IndexOfVirtual(p.ept.hooks, PageAlign(address));
    if i < |p.ept.hooks| {
      RecordBlocksRemove(p.ept.hooks, i, b);
    }
  }

  lemma UnhookAllConserves(m: MemoryMap, kernel: KernelImage, p: Processor, b: Block)
    requires Inv(m, p)
    ensures Live(Step(m, kernel, p, UnhookAll).ept, b) + Count(Freed(m, p, UnhookAll), b) == Live(p.ept, b)
  {
    if b.kind == SplitPage {
      CountOfOther(RecordBlocks(p.ept.hooks), b);
    }
    assert RecordBlocks([]) == [];
  }

  /** An operation loses or duplicates no block, exactly unless it is a hook request that comes as
      far as its record and does not get it: what it frees and what the processor then uses are what
      the processor used before and what the operation took. */
  lemma StepConservesBlocks(m: MemoryMap, kernel: KernelImage, p: Processor, a: Action)
    requires Inv(m, p) && (a.HookPage? ==> FreshBuffer(p, a.request))
    ensures (forall b :: Conserves(m, kernel, p, a, b)) <==> GetsRecord(p, a)
  {
    if GetsRecord(p, a) {
      forall b
        ensures Conserves(m, kernel, p, a, b)
      {
        match a
        case HookPage(r) => HookConserves(m, kernel, p, r, b);
        case UnhookPage(address) => UnhookConserves(m, kernel, p, address, b);
        case UnhookAll => UnhookAllConserves(m, kernel, p, b);
        case _ =>
      }
    } else {
      FailedRecordDuplicates(m, kernel, p, a.request);
    }
  }

  // ----- The whole system -----

  /** A processor and the blocks it has claimed but not yet put to use. */
  datatype Cpu = Cpu(processor: Processor, held: multiset<Block>)

  datatype Host = Host(world: World, cpus: seq<Cpu>)

  datatype HostStep =
    | Background(step: PoolStep)
    | ClaimFor(cpu: nat, kind: AllocationType)
    | Operate(cpu: nat, action: Action)

  function InUse(c: Cpu, b: Block): nat {
    Live(c.processor.ept, b) + c.held[b]
  }

  function Total(cpus: seq<Cpu>, b: Block): nat {
    if cpus == [] then 0 else Total(cpus[..|cpus| - 1], b) + InUse(cpus[|cpus| - 1], b)
  }

  lemma {:induction false} TotalUpdate(cpus: seq<Cpu>, i: nat, c: Cpu, b: Block)
    requires i < |cpus|
    ensures Total(cpus[i := c], b) + InUse(cpus[i], b) == Total(cpus, b) + InUse(c, b)
  {
    var last := |cpus| - 1;
    if i == last {
      assert cpus[i := c][..last] == cpus[..last];
    } else {
      TotalUpdate(cpus[..last], i, c, b);
      assert cpus[i := c][..last] == cpus[..last][i := c];
    }
  }

  lemma {:induction false} TotalAtLeast(cpus: seq<Cpu>, i: nat, b: Block)
    requires i < |cpus|
    ensures Total(cpus, b) >= InUse(cpus[i], b)
    ensures forall j | 0 <= j < |cpus| && j != i :: Total(cpus, b) >= InUse(cpus[i], b) + InUse(cpus[j], b)
  {
    if |cpus| > 1 {
      var last := |cpus| - 1;
      if i < last {
        TotalAtLeast(cpus[..last], i, b);
      }
      forall j | 0 <= j < last
        ensures Total(cpus[..last], b) >= InUse(cpus[j], b)
      {
        TotalAtLeast(cpus[..last], j, b);
      }
    }
  }

  // ----- Freeing and taking -----

  function FreeAll(w: World, blocks: seq<Block>): World
    decreases |blocks|
  {
    if blocks == [] then w else FreeAll(NextWorld(w, BeginFree(blocks[0])), blocks[1..])
  }

  lemma {:induction false} FreeAllKeeps(w: World, blocks: seq<Block>)
    requires WorldOk(w) && forall b :: Count(blocks, b) <= w.owned[b]
    ensures var t := FreeAll(w, blocks);
      && WorldOk(t) && t.pool == w.pool && t.inFlight == w.inFlight && t.allocating == w.allocating
      && forall b :: t.owned[b] == w.owned[b] - Count(blocks, b)
    decreases |blocks|
  {
    if blocks != [] {
      assert Count(blocks, blocks[0]) <= w.owned[blocks[0]];
      StepKeepsWorld(w, BeginFree(blocks[0]));
      assert forall b :: Count(blocks[1..], b) == Count(blocks, b) - if blocks[0] == b then 1 else 0;
      FreeAllKeeps(NextWorld(w, BeginFree(blocks[0])), blocks[1..]);
    }
  }

  function TakeAll(held: multiset<Block>, blocks: seq<Block>): multiset<Block> {
    if blocks == [] then held else TakeAll(held - multiset{blocks[0]}, blocks[1..])
  }

  lemma {:induction false} TakeAllCounts(held: multiset<Block>, blocks: seq<Block>, b: Block)
    requires forall c :: Count(blocks, c) <= held[c]
    ensures TakeAll(held, blocks)[b] == held[b] - Count(blocks, b)
    decreases |blocks|
  {
    if blocks != [] {
      assert Count(blocks, blocks[0]) <= held[blocks[0]];
      assert forall c :: Count(blocks[1..], c) == Count(blocks, c) - if blocks[0] == c then 1 else 0;
      TakeAllCounts(held - multiset{blocks[0]}, blocks[1..], b);
    }
  }

  // ----- Steps -----

  /** A processor as the memory shows it: an operation reads the entries of split tables there. */
  function Seen(p: Processor, memory: map<nat, seq<nat>>): Processor
    requires WellSized(p.ept.tables)
  {
    p.(ept := p.ept.(tables := SeenTables(p.ept.tables, memory)))
  }

  ghost predicate Defined(h: Host, s: HostStep) {
    match s
    case Background(_) => true
    case ClaimFor(i, _) => i < |h.cpus|
    case Operate(i, _) =>
      && i < |h.cpus| && WellSized(h.cpus[i].processor.ept.tables)
      && Stepable(Seen(h.cpus[i].processor, h.world.pool.memory))
  }

  ghost predicate IsTable(h: Host, b: Block) {
    b.kind == SplitPage && exists c | c in h.cpus :: b.address in c.processor.ept.tables.pml1
  }

  /** A hook operation runs on blocks its processor holds. Nothing is said about their freshness:
      that follows. Holders may write what they like into their blocks, but not into live tables:
      those only the operations write. */
  ghost predicate HostEnabled(kernel: KernelImage, h: Host, s: HostStep) {
    && Defined(h, s)
    && match s
       case Background(step) =>
         && !step.Claim? && !step.BeginFree? && EnabledStep(h.world, step)
         && (step.WriteBlock? ==> !IsTable(h, step.block))
       case ClaimFor(_, _) => true
       case Operate(i, a) =>
         var p := Seen(h.cpus[i].processor, h.world.pool.memory);
         && RespectsGrant(kernel, p, a) && GetsRecord(p, a) && (a.HookPage? ==> Grantable(p, a.request))
         && forall b :: Count(Consumed(p, a), b) <= h.cpus[i].held[b]
  }

  /** The pool after an operation has stored the entries it changed. */
  function StoredWorld(w: World, before: EptState, after: EptState): World {
    w.(pool := w.pool.(memory := Stored(w.pool.memory, before.tables.pml1, after.tables.pml1)))
  }

  /** A fault the operation pends is delivered with its exit. */
  function HostNext(m: MemoryMap, kernel: KernelImage, h: Host, s: HostStep): Host
    requires Defined(h, s)
  {
    match s
    case Background(step) => h.(world := NextWorld(h.world, step))
    case ClaimFor(i, kind) =>
      var address := Found(h.world.pool, kind).1;
      if address.None? then h
      else
        Host(NextWorld(h.world, Claim(kind)),
             h.cpus[i := h.cpus[i].(held := h.cpus[i].held + multiset{Block(address.value, kind)})])
    case Operate(i, a) =>
      var c := h.cpus[i];
      var p := Seen(c.processor, h.world.pool.memory);
      var q := Step(m, kernel, p, a).(fault := None);
      Host(FreeAll(StoredWorld(h.world, p.ept, q.ept), Freed(m, p, a)),
           h.cpus[i := Cpu(q, TakeAll(c.held, Consumed(p, a)))])
  }

  /** Every block handed out to a caller is a live split table, a live hook record, or in the
      hands of a processor, and in one of these places only once. The memory of every live table
      holds the table's entries. */
  ghost predicate HostOk(m: MemoryMap, h: Host) {
    && WorldOk(h.world)
    && (forall c | c in h.cpus ::
          Inv(m, c.processor) && c.processor.fault.None? && Backed(c.processor.ept.tables, h.world.pool.memory))
    && forall b: Block :: h.world.owned[b] == Total(h.cpus, b)
  }

  // ----- The invariant -----

  /** What a processor holds no table uses, so the freshness a hook needs comes for free. */
  lemma HeldIsFresh(m: MemoryMap, h: Host, i: nat, b: Block)
    requires HostOk(m, h) && i < |h.cpus|
    ensures Total(h.cpus, b) <= 1
    ensures b in h.cpus[i].held ==> forall j | 0 <= j < |h.cpus| :: Live(h.cpus[j].processor.ept, b) == 0
  {
    Exclusive(h.world, b, b);
    assert h.world.owned[b] <= Outstanding(h.world, b);
    forall j | 0 <= j < |h.cpus|
      ensures b in h.cpus[i].held ==> Live(h.cpus[j].processor.ept, b) == 0
    {
      TotalAtLeast(h.cpus, i, b);
    }
  }

  /** In such a state a processor is what the memory shows of it, and what it may do it may do
      without a word about fresh buffers. */
  lemma OperateEnabled(m: MemoryMap, kernel: KernelImage, h: Host, i: nat, a: Action)
    requires HostOk(m, h) && HostEnabled(kernel, h, Operate(i, a))
    ensures Seen(h.cpus[i].processor, h.world.pool.memory) == h.cpus[i].processor
    ensures Inv(m, h.cpus[i].processor) && Enabled(kernel, h.cpus[i].processor, a)
  {
    var p := h.cpus[i].processor;
    assert h.cpus[i] in h.cpus;
    BackedIsSeen(p.ept.tables, h.world.pool.memory);
    if a.HookPage? && Allocates(p.ept, a.request) && a.request.splitBuffer.Some? {
      var b := Block(a.request.splitBuffer.value, SplitPage);
      assert Count(Consumed(p, a), b) <= h.cpus[i].held[b];
      assert Consumed(p, a)[0] == b;
      HeldIsFresh(m, h, i, b);
      assert Live(p.ept, b) == 0;
    }
  }

  /** A live table's block is owned, and its memory is at hand. */
  lemma TableIsOwned(m: MemoryMap, h: Host, c: Cpu, f: nat)
    requires HostOk(m, h) && c in h.cpus && f in c.processor.ept.tables.pml1
    ensures Block(f, SplitPage) in h.world.owned
    ensures f in h.world.pool.memory && |h.world.pool.memory[f]| == SPLIT_SIZE
  {
    var b := Block(f, SplitPage);
    var i :| 0 <= i < |h.cpus| && h.cpus[i] == c;
    TotalAtLeast(h.cpus, i, b);
    OwnedHasMemory(h.world, b);
  }

  lemma BackgroundKeepsHost(m: MemoryMap, kernel: KernelImage, h: Host, step: PoolStep)
    requires HostOk(m, h) && HostEnabled(kernel, h, Background(step))
    ensures HostOk(m, HostNext(m, kernel, h, Background(step)))
  {
    StepKeepsWorld(h.world, step);
    forall c | c in h.cpus
      ensures Backed(c.processor.ept.tables, NextWorld(h.world, step).pool.memory)
    {
      forall f | f in c.processor.ept.tables.pml1
        ensures f in NextWorld(h.world, step).pool.memory
        ensures NextWorld(h.world, step).pool.memory[f] == h.world.pool.memory[f]
      {
        TableIsOwned(m, h, c, f);
        assert step.WriteBlock? ==> step.block != Block(f, SplitPage);
        StepSparesOwned(h.world, step, Block(f, SplitPage));
      }
    }
  }

  lemma ClaimKeepsHost(m: MemoryMap, kernel: KernelImage, h: Host, i: nat, kind: AllocationType)
    requires HostOk(m, h) && i < |h.cpus|
    ensures HostOk(m, HostNext(m, kernel, h, ClaimFor(i, kind)))
  {
    var address := Found(h.world.pool, kind).1;
    if address.Some? {
      StepKeepsWorld(h.world, Claim(kind));
      var t := HostNext(m, kernel, h, ClaimFor(i, kind));
      forall b: Block
        ensures t.world.owned[b] == Total(t.cpus, b)
      {
        TotalUpdate(h.cpus, i, t.cpus[i], b);
      }
      assert forall c | c in t.cpus :: c in h.cpus || c == t.cpus[i];
      assert h.cpus[i] in h.cpus;
    }
  }

  /** What the operation frees its processor used or held, and what it uses afterwards is the rest. */
  lemma OperateBalances(m: MemoryMap, kernel: KernelImage, h: Host, i: nat, a: Action, b: Block)
    requires HostOk(m, h) && HostEnabled(kernel, h, Operate(i, a))
    ensures var c, t := h.cpus[i], HostNext(m, kernel, h, Operate(i, a));
      && Count(Freed(m, c.processor, a), b) <= h.world.owned[b]
      && InUse(t.cpus[i], b) + Count(Freed(m, c.processor, a), b) == InUse(c, b)
  {
    var c := h.cpus[i];
    OperateEnabled(m, kernel, h, i, a);
    StepConservesBlocks(m, kernel, c.processor, a);
    assert Conserves(m, kernel, c.processor, a, b);
    TotalAtLeast(h.cpus, i, b);
    TakeAllCounts(c.held, Consumed(c.processor, a), b);
  }

  /** The entries of a live table fit their words. */
  lemma EntriesFit(m: MemoryMap, p: Processor, f: nat, i: nat)
    requires Inv(m, p) && f in p.ept.tables.pml1 && i < 512
    ensures Encodable(p.ept.tables.pml1[f][i])
  {
    var t := p.ept.tables;
    assert Referenced(t, f);
    var k :| 0 <= k < LARGE_PAGES && t.pml2[k] == Table(FullAccess(f));
    assert SlotOk(m, t, p.ept.hooks, p.pending, k);
    EntryUnderFrame(m, p.ept.hooks, p.pending, k * 512 + i, p.requested);
  }

  /** Storing a processor's new tables, all of which it owns, leaves them in memory. */
  lemma TablesStored(m: MemoryMap, h: Host, i: nat, q: Processor)
    requires HostOk(m, h) && i < |h.cpus| && Inv(m, q)
    requires forall f | f in q.ept.tables.pml1 :: Block(f, SplitPage) in h.world.owned
    ensures var w := StoredWorld(h.world, h.cpus[i].processor.ept, q.ept);
      WorldOk(w) && Backed(q.ept.tables, w.pool.memory)
  {
    var p, memory := h.cpus[i].processor, h.world.pool.memory;
    assert h.cpus[i] in h.cpus && Backed(p.ept.tables, memory);
    forall f | f in q.ept.tables.pml1
      ensures f in memory && |memory[f]| == SPLIT_SIZE
    {
      OwnedHasMemory(h.world, Block(f, SplitPage));
    }
    forall f, j | f in q.ept.tables.pml1 && 0 <= j < 512
      ensures Encodable(q.ept.tables.pml1[f][j])
    {
      EntriesFit(m, q, f, j);
    }
    StoredIsBacked(memory, p.ept.tables, q.ept.tables);
    StoreKeepsWorld(h.world, Stored(memory, p.ept.tables.pml1, q.ept.tables.pml1));
  }

  /** The operation's stores go to blocks its processor owns, and leave its tables in memory. */
  lemma OperateStores(m: MemoryMap, kernel: KernelImage, h: Host, i: nat, a: Action)
    requires HostOk(m, h) && HostEnabled(kernel, h, Operate(i, a))
    ensures var p, q := h.cpus[i].processor, Step(m, kernel, h.cpus[i].processor, a);
      var w := StoredWorld(h.world, p.ept, q.ept);
      && Inv(m, q) && WorldOk(w) && Backed(q.ept.tables, w.pool.memory)
  {
    var p := h.cpus[i].processor;
    OperateEnabled(m, kernel, h, i, a);
    StepKeepsInv(m, kernel, p, a);
    var q := Step(m, kernel, p, a);
    forall f | f in q.ept.tables.pml1
      ensures Block(f, SplitPage) in h.world.owned
    {
      OperateBalances(m, kernel, h, i, a, Block(f, SplitPage));
      TotalAtLeast(h.cpus, i, Block(f, SplitPage));
    }
    TablesStored(m, h, i, q);
  }

  /** Another processor's tables are none of those the operation stores. */
  lemma OperateSpares(m: MemoryMap, kernel: KernelImage, h: Host, i: nat, a: Action, j: nat)
    requires HostOk(m, h) && HostEnabled(kernel, h, Operate(i, a)) && j < |h.cpus| && j != i
    ensures var t := HostNext(m, kernel, h, Operate(i, a));
      && Inv(m, h.cpus[j].processor)
      && Backed(h.cpus[j].processor.ept.tables,
                StoredWorld(h.world, h.cpus[i].processor.ept, t.cpus[i].processor.ept).pool.memory)
  {
    var t := HostNext(m, kernel, h, Operate(i, a));
    assert h.cpus[j] in h.cpus;
    OperateEnabled(m, kernel, h, i, a);
    forall f | f in h.cpus[j].processor.ept.tables.pml1
      ensures f !in t.cpus[i].processor.ept.tables.pml1
    {
      var b := Block(f, SplitPage);
      OperateBalances(m, kernel, h, i, a, b);
      TotalAtLeast(h.cpus, i, b);
      HeldIsFresh(m, h, i, b);
      assert InUse(h.cpus[j], b) > 0;
    }
  }

  lemma OperateKeepsHost(m: MemoryMap, kernel: KernelImage, h: Host, i: nat, a: Action)
    requires HostOk(m, h) && HostEnabled(kernel, h, Operate(i, a))
    ensures HostOk(m, HostNext(m, kernel, h, Operate(i, a)))
  {
    var c, t := h.cpus[i], HostNext(m, kernel, h, Operate(i, a));
    var freed := Freed(m, c.processor, a);
    OperateEnabled(m, kernel, h, i, a);
    OperateStores(m, kernel, h, i, a);
    forall b: Block
      ensures Count(freed, b) <= h.world.owned[b]
    {
      OperateBalances(m, kernel, h, i, a, b);
    }
    FreeAllKeeps(StoredWorld(h.world, c.processor.ept, t.cpus[i].processor.ept), freed);
    forall b: Block
      ensures t.world.owned[b] == Total(t.cpus, b)
    {
      OperateBalances(m, kernel, h, i, a, b);
      TotalUpdate(h.cpus, i, t.cpus[i], b);
    }
    forall d | d in t.cpus
      ensures Inv(m, d.processor) && d.processor.fault.None?
      ensures Backed(d.processor.ept.tables, t.world.pool.memory)
    {
      var j :| 0 <= j < |t.cpus| && t.cpus[j] == d;
      if j != i {
        OperateSpares(m, kernel, h, i, a, j);
      }
    }
  }

  lemma HostStepKeeps(m: MemoryMap, kernel: KernelImage, h: Host, s: HostStep)
    requires HostOk(m, h) && HostEnabled(kernel, h, s)
    ensures HostOk(m, HostNext(m, kernel, h, s))
  {
    match s
    case Background(step) => BackgroundKeepsHost(m, kernel, h, step);
    case ClaimFor(i, kind) => ClaimKeepsHost(m, kernel, h, i, kind);
    case Operate(i, a) => OperateKeepsHost(m, kernel, h, i, a);
  }

  ghost predicate HostRunEnabled(m: MemoryMap, kernel: KernelImage, h: Host, steps: seq<HostStep>)
    decreases |steps|
  {
    steps != [] ==>
      && HostEnabled(kernel, h, steps[0])
      && HostRunEnabled(m, kernel, HostNext(m, kernel, h, steps[0]), steps[1..])
  }

  ghost function HostRun(m: MemoryMap, kernel: KernelImage, h: Host, steps: seq<HostStep>): Host
    requires HostRunEnabled(m, kernel, h, steps)
    decreases |steps|
  {
    if steps == [] then h else HostRun(m, kernel, HostNext(m, kernel, h, steps[0]), steps[1..])
  }

  lemma {:induction false} HostRunKeeps(m: MemoryMap, kernel: KernelImage, h: Host, steps: seq<HostStep>)
    requires HostOk(m, h) && HostRunEnabled(m, kernel, h, steps)
    ensures HostOk(m, HostRun(m, kernel, h, steps))
    decreases |steps|
  {
    if steps != [] {
      HostStepKeeps(m, kernel, h, steps[0]);
      HostRunKeeps(m, kernel, HostNext(m, kernel, h, steps[0]), steps[1..]);
    }
  }

  /** n processors right after construction, with the pool right after its own. */
  function Booted(m: MemoryMap, bases: seq<nat>, addresses: nat -> Option<nat>, rounds: nat): Host {
    var cpus := seq(|bases|, i requires 0 <= i < |bases| => Cpu(Constructed(m, bases[i]), multiset{}));
    Host(Started(addresses, rounds), cpus)
  }

  lemma {:induction false} NothingInUse(cpus: seq<Cpu>, b: Block)
    requires forall c | c in cpus :: InUse(c, b) == 0
    ensures Total(cpus, b) == 0
  {
    if cpus != [] {
      NothingInUse(cpus[..|cpus| - 1], b);
    }
  }

  lemma BootedOk(m: MemoryMap, bases: seq<nat>, addresses: nat -> Option<nat>, rounds: nat)
    requires DistinctAddresses(addresses)
    ensures HostOk(m, Booted(m, bases, addresses, rounds))
  {
    StartedOk(addresses, rounds);
    var h := Booted(m, bases, addresses, rounds);
    forall c | c in h.cpus
      ensures Inv(m, c.processor)
    {
      var i :| 0 <= i < |bases| && h.cpus[i] == c;
      ConstructedInv(m, bases[i]);
    }
    forall b: Block
      ensures Total(h.cpus, b) == 0
    {
      assert RecordBlocks([]) == [];
      NothingInUse(h.cpus, b);
    }
  }

  // ----- Tables and PML2 entries -----

  /** The number of PML2 entries that lead to the table at a page. */
  function References(pml2: seq<Pde>, page: nat): nat {
    if pml2 == [] then 0
    else References(pml2[..|pml2| - 1], page) + if pml2[|pml2| - 1] == Table(FullAccess(page)) then 1 else 0
  }

  lemma {:induction false} ReferencedOnce(pml2: seq<Pde>, page: nat)
    requires forall k, l | 0 <= k < |pml2| && 0 <= l < |pml2| && pml2[k] == pml2[l] == Table(FullAccess(page)) :: k == l
    ensures References(pml2, page) == if Table(FullAccess(page)) in pml2 then 1 else 0
  {
    if pml2 != [] {
      var front, end := pml2[..|pml2| - 1], pml2[|pml2| - 1];
      assert forall k | 0 <= k < |front| :: front[k] == pml2[k];
      ReferencedOnce(front, page);
      assert pml2 == front + [end];
      assert end == Table(FullAccess(page)) ==> Table(FullAccess(page)) !in front;
    }
  }

  /** A page is a live table exactly when one PML2 entry leads to it, and never two do. */
  lemma LiveIsReferenced(m: MemoryMap, p: Processor, page: nat)
    requires Inv(m, p)
    ensures Live(p.ept, Block(page, SplitPage)) == References(p.ept.tables.pml2, page)
  {
    var t := p.ept.tables;
    forall k, l | 0 <= k < |t.pml2| && 0 <= l < |t.pml2| && t.pml2[k] == t.pml2[l] == Table(FullAccess(page))
      ensures k == l
    {
      TableOfOneSlot(m, t, p.ept.hooks, p.pending, p.requested, k, l);
    }
    ReferencedOnce(t.pml2, page);
    if Table(FullAccess(page)) in t.pml2 {
      var k :| 0 <= k < |t.pml2| && t.pml2[k] == Table(FullAccess(page));
      assert SlotOk(m, t, p.ept.hooks, p.pending, k);
    }
    if page in t.pml1 {
      assert Referenced(t, page);
    }
  }

  /** The references of all processors together. */
  function AllReferences(cpus: seq<Cpu>, page: nat): nat {
    if cpus == [] then 0
    else AllReferences(cpus[..|cpus| - 1], page) + References(cpus[|cpus| - 1].processor.ept.tables.pml2, page)
  }

  function AllHeld(cpus: seq<Cpu>, b: Block): nat {
    if cpus == [] then 0 else AllHeld(cpus[..|cpus| - 1], b) + cpus[|cpus| - 1].held[b]
  }

  lemma {:induction false} TotalOfSplits(m: MemoryMap, cpus: seq<Cpu>, page: nat)
    requires forall c | c in cpus :: Inv(m, c.processor)
    ensures Total(cpus, Block(page, SplitPage)) == AllReferences(cpus, page) + AllHeld(cpus, Block(page, SplitPage))
  {
    if cpus != [] {
      var last := cpus[|cpus| - 1];
      assert last in cpus;
      TotalOfSplits(m, cpus[..|cpus| - 1], page);
      LiveIsReferenced(m, last.processor, page);
    }
  }

  /** Cross-module ownership: in every reachable state of the whole system, for every page, the
      used SPLIT slots for it are the PML2 entries of all processors that lead to it, the blocks
      still in a processor's hands, and the ones on their way through Free or dropped; and their
      number is at most one. */
  lemma SplitSlotsAccounted(
      m: MemoryMap, kernel: KernelImage, bases: seq<nat>, addresses: nat -> Option<nat>, rounds: nat,
      steps: seq<HostStep>, page: nat)
    requires DistinctAddresses(addresses)
    requires HostRunEnabled(m, kernel, Booted(m, bases, addresses, rounds), steps)
    ensures var h := HostRun(m, kernel, Booted(m, bases, addresses, rounds), steps);
      var b := Block(page, SplitPage);
      var w := h.world;
      && Uses(w.pool.paging, b)
         == AllReferences(h.cpus, page) + AllHeld(h.cpus, b) + w.submitting[b]
            + Uses(w.pool.freeRequests, b) + (if w.inFlight == Some(b) then 1 else 0) + w.dropped[b]
      && Uses(w.pool.paging, b) <= 1
  {
    BootedOk(m, bases, addresses, rounds);
    HostRunKeeps(m, kernel, Booted(m, bases, addresses, rounds), steps);
    var h := HostRun(m, kernel, Booted(m, bases, addresses, rounds), steps);
    var b := Block(page, SplitPage);
    assert ConservedAt(h.world, b) && h.world.owned[b] == Total(h.cpus, b);
    TotalOfSplits(m, h.cpus, page);
    UsesIff(h.world.pool.hooks, b);
    assert forall s | s in SlotsOf(h.world.pool, EptHookPage) :: s.data.kind == EptHookPage;
    BlockOnce(h.world.pool, b);
  }

  /** The free thread never zeroes a table in use: the block it works on leads nowhere in any
      processor's tables, and what the hardware finds in them stays as it is. */
  lemma FreeThreadSparesTables(m: MemoryMap, h: Host, i: nat)
    requires HostOk(m, h) && i < |h.cpus| && h.world.inFlight.Some?
    ensures var t := h.cpus[i].processor.ept.tables;
      && WellSized(t) && !IsTable(h, h.world.inFlight.value)
      && SeenTables(t, h.world.pool.memory) == t
      && SeenTables(t, NextWorld(h.world, FreeRun).pool.memory) == t
  {
    var c := h.cpus[i];
    assert c in h.cpus;
    var t, after := c.processor.ept.tables, NextWorld(h.world, FreeRun).pool.memory;
    BackedIsSeen(t, h.world.pool.memory);
    forall d, f | d in h.cpus && f in d.processor.ept.tables.pml1
      ensures h.world.inFlight.value != Block(f, SplitPage)
      ensures f in h.world.pool.memory && f in after && after[f] == h.world.pool.memory[f]
    {
      TableIsOwned(m, h, d, f);
      FreeRunSpares(h.world, Block(f, SplitPage));
      Exclusive(h.world, Block(f, SplitPage), h.world.inFlight.value);
    }
    BackedIsSeen(t, after);
  }

  /** Identity for the whole system: whatever the processors do and however the pool's threads run
      in between, what the hardware finds in every processor's tables maps every address below 512 GB
      to itself with the memory type of its page, and the trap is armed exactly while a grant is
      pending. That no buffer is a table in use is no assumption here. */
  lemma HostIdentity(
      m: MemoryMap, kernel: KernelImage, bases: seq<nat>, addresses: nat -> Option<nat>, rounds: nat,
      steps: seq<HostStep>, i: nat, address: nat)
    requires forall k | 0 < k < LARGE_PAGES :: ValidForLargePage(m, k)
    requires DistinctAddresses(addresses)
    requires HostRunEnabled(m, kernel, Booted(m, bases, addresses, rounds), steps)
    requires i < |HostRun(m, kernel, Booted(m, bases, addresses, rounds), steps).cpus| && address < MAPPED_BYTES
    ensures var h := HostRun(m, kernel, Booted(m, bases, addresses, rounds), steps);
      var p := h.cpus[i].processor;
      && WellSized(p.ept.tables)
      && var w := Walk(SeenTables(p.ept.tables, h.world.pool.memory), address);
      && w.Some? && w.value.frame == address / PAGE_SIZE
      && (address >= SIZE_2_MB ==> w.value.memoryType == MemoryTypeAt(m, PageAlign(address)) % 8)
      && (p.monitorTrap <==> p.pending.Some?)
  {
    BootedOk(m, bases, addresses, rounds);
    HostRunKeeps(m, kernel, Booted(m, bases, addresses, rounds), steps);
    var h := HostRun(m, kernel, Booted(m, bases, addresses, rounds), steps);
    HardwareIdentity(m, h, i, address);
  }

  lemma HardwareIdentity(m: MemoryMap, h: Host, i: nat, address: nat)
    requires forall k | 0 < k < LARGE_PAGES :: ValidForLargePage(m, k)
    requires HostOk(m, h) && i < |h.cpus| && address < MAPPED_BYTES
    ensures var p := h.cpus[i].processor;
      && WellSized(p.ept.tables)
      && var w := Walk(SeenTables(p.ept.tables, h.world.pool.memory), address);
      && w.Some? && w.value.frame == address / PAGE_SIZE
      && (address >= SIZE_2_MB ==> w.value.memoryType == MemoryTypeAt(m, PageAlign(address)) % 8)
      && (p.monitorTrap <==> p.pending.Some?)
  {
    var p := h.cpus[i].processor;
    assert h.cpus[i] in h.cpus;
    BackedIsSeen(p.ept.tables, h.world.pool.memory);
    IdentityUnderInv(m, p, address);
  }

  // ----- A failed record allocation -----

  /** The buffer of the request that did not get its record: the large page is split into it, and it
      is freed. */
  lemma FailedRecordOutcome(m: MemoryMap, kernel: KernelImage, p: Processor, r: HookRequest)
    requires Inv(m, p) && Grantable(p, r) && FreshBuffer(p, r)
    requires ReachesRecord(p.ept, r) && r.record.None? && p.ept.tables.pml2[Pml2Position(r.physical)].Large?
    ensures var q := Step(m, kernel, p, HookPage(r));
      && Inv(m, q) && Freed(m, p, HookPage(r)) == [Block(r.splitBuffer.value, SplitPage)]
      && q.ept.tables.pml2[Pml2Position(r.physical)] == Table(FullAccess(r.splitBuffer.value))
      && q.ept.tables.pml1.Keys == p.ept.tables.pml1.Keys + {r.splitBuffer.value}
  {
    HookKeepsInv(m, kernel, p, r);
  }

  /** The walk of an address ends in an entry that grants nothing. */
  ghost predicate Lost(t: Tables, memory: map<nat, seq<nat>>, address: nat) {
    WellSized(t) && Walk(SeenTables(t, memory), address) == Some(Translation(0, false, false, false, 0))
  }

  /** A walk through a zeroed table grants nothing. */
  lemma ZeroedTable(t: Tables, memory: map<nat, seq<nat>>, f: nat, page: nat, offset: nat)
    requires WellSized(t) && IdentityUpper(t) && page < SMALL_PAGES && offset < PAGE_SIZE
    requires t.pml2[page / 512] == Table(FullAccess(f)) && f in t.pml1
    requires f in memory && memory[f] == Zeros(SPLIT_SIZE)
    ensures Lost(t, memory, page * PAGE_SIZE + offset)
  {
    ZeroWord();
    WalkReaches(SeenTables(t, memory), page, offset);
  }

  /** A processor splits a large page into a block it holds, for a request that does not get its
      record. */
  ghost predicate MissesRecord(h: Host, i: nat, r: HookRequest) {
    && i < |h.cpus|
    && var p := h.cpus[i].processor;
    && Grantable(p, r) && ReachesRecord(p.ept, r) && r.record.None?
    && WellSized(p.ept.tables) && p.ept.tables.pml2[Pml2Position(r.physical)].Large?
    && Block(r.splitBuffer.value, SplitPage) in h.cpus[i].held
  }

  /** A processor that has put one more block it held to use leaves its tables in memory. */
  lemma OneMoreTable(m: MemoryMap, h: Host, i: nat, q: Processor, b: Block)
    requires HostOk(m, h) && i < |h.cpus| && Inv(m, q) && b in h.cpus[i].held
    requires forall f | f in q.ept.tables.pml1 :: f in h.cpus[i].processor.ept.tables.pml1 || Block(f, SplitPage) == b
    ensures b in h.world.owned
    ensures var w := StoredWorld(h.world, h.cpus[i].processor.ept, q.ept);
      WorldOk(w) && Backed(q.ept.tables, w.pool.memory)
  {
    assert h.cpus[i] in h.cpus;
    TotalAtLeast(h.cpus, i, b);
    forall f | f in q.ept.tables.pml1
      ensures Block(f, SplitPage) in h.world.owned
    {
      if Block(f, SplitPage) != b {
        TableIsOwned(m, h, h.cpus[i], f);
      }
    }
    TablesStored(m, h, i, q);
  }

  /** It may run, and its buffer is fresh. */
  lemma MissingRecordFresh(m: MemoryMap, h: Host, i: nat, r: HookRequest)
    requires HostOk(m, h) && MissesRecord(h, i, r)
    ensures Inv(m, h.cpus[i].processor) && FreshBuffer(h.cpus[i].processor, r)
    ensures Seen(h.cpus[i].processor, h.world.pool.memory) == h.cpus[i].processor
  {
    var b := Block(r.splitBuffer.value, SplitPage);
    assert h.cpus[i] in h.cpus;
    BackedIsSeen(h.cpus[i].processor.ept.tables, h.world.pool.memory);
    HeldIsFresh(m, h, i, b);
    assert Live(h.cpus[i].processor.ept, b) == 0;
  }

  lemma FreeOne(w: World, b: Block)
    ensures FreeAll(w, [b]) == NextWorld(w, BeginFree(b))
  {
    assert FreeAll(w, [b]) == FreeAll(NextWorld(w, BeginFree(b)), []);
  }

  /** Processor i has stored its tables, one of which is in block b and split from large page k, and
      has begun to free that block. */
  ghost predicate FreesItsTable(w: World, t: Host, i: nat, b: Block, k: nat) {
    && i < |t.cpus| && k < LARGE_PAGES && b.kind == SplitPage && b in w.owned
    && var tables := t.cpus[i].processor.ept.tables;
    && WellSized(tables) && IdentityUpper(tables)
    && tables.pml2[k] == Table(FullAccess(b.address)) && b.address in tables.pml1
    && WorldOk(w) && Backed(tables, w.pool.memory) && t.world == NextWorld(w, BeginFree(b))
  }

  /** That is what the request does. */
  lemma FailedRecordStep(m: MemoryMap, kernel: KernelImage, h: Host, i: nat, r: HookRequest)
    requires HostOk(m, h) && MissesRecord(h, i, r)
    ensures Defined(h, Operate(i, HookPage(r)))
    ensures var t := HostNext(m, kernel, h, Operate(i, HookPage(r)));
      && i < |t.cpus| && Inv(m, t.cpus[i].processor)
      && FreesItsTable(StoredWorld(h.world, h.cpus[i].processor.ept, t.cpus[i].processor.ept), t, i,
                       Block(r.splitBuffer.value, SplitPage), Pml2Position(r.physical))
  {
    var p, b := h.cpus[i].processor, Block(r.splitBuffer.value, SplitPage);
    MissingRecordFresh(m, h, i, r);
    FailedRecordOutcome(m, kernel, p, r);
    var q := HostNext(m, kernel, h, Operate(i, HookPage(r))).cpus[i].processor;
    assert q == Step(m, kernel, p, HookPage(r)).(fault := None);
    OneMoreTable(m, h, i, q, b);
    FreeOne(StoredWorld(h.world, p.ept, q.ept), b);
  }

  /** What happens to a table whose block is freed while it is in use. */
  lemma FreedTableZeroed(w: World, t: Tables, b: Block, page: nat, offset: nat)
    requires WorldOk(w) && b in w.owned && b.kind == SplitPage
    requires w.inFlight.None? && !HasRequest(w.pool.freeRequests)
    requires WellSized(t) && IdentityUpper(t) && b.address in t.pml1
    requires page < SMALL_PAGES && t.pml2[page / 512] == Table(FullAccess(b.address)) && offset < PAGE_SIZE
    ensures var freed, steps := NextWorld(w, BeginFree(b)), [SubmitFree(b), FreePop, FreeRun];
      && EnabledWorldRun(freed, steps)
      && Lost(t, RunWorld(freed, steps).pool.memory, page * PAGE_SIZE + offset)
      && Item(b, false) in RunWorld(freed, steps).pool.paging
  {
    FreedIsZeroed(w, b);
    var steps := [SubmitFree(b), FreePop, FreeRun];
    ZeroedTable(t, RunWorld(NextWorld(w, BeginFree(b)), steps).pool.memory, b.address, page, offset);
  }

  /** The hardware finds the table as it should be, and three steps of the free path later it finds
      nothing. */
  ghost predicate LosesPage(t: Host, i: nat, b: Block, address: nat)
    requires i < |t.cpus|
  {
    var tables, steps := t.cpus[i].processor.ept.tables, [SubmitFree(b), FreePop, FreeRun];
    && WellSized(tables) && SeenTables(tables, t.world.pool.memory) == tables
    && EnabledWorldRun(t.world, steps)
    && Lost(tables, RunWorld(t.world, steps).pool.memory, address)
    && Item(b, false) in RunWorld(t.world, steps).pool.paging
  }

  lemma FreedTableIsLost(w: World, t: Host, i: nat, b: Block, page: nat, offset: nat)
    requires page < SMALL_PAGES && offset < PAGE_SIZE && FreesItsTable(w, t, i, b, page / 512)
    requires w.inFlight.None? && !HasRequest(w.pool.freeRequests)
    ensures LosesPage(t, i, b, page * PAGE_SIZE + offset)
  {
    var tables := t.cpus[i].processor.ept.tables;
    BackedIsSeen(tables, w.pool.memory);
    FreedTableZeroed(w, tables, b, page, offset);
  }

  /** Where HookTheorems.HookFreesSafelyIff fails, the harm is done. The request has made a large page
      a table in its buffer, through which the hardware finds what it found before, and has freed the
      buffer. Three steps of the free path later the table is zeroed with the PML2 entry still leading
      to it: every address of the large page has lost all its rights, and the slot can be claimed
      again. */
  lemma FailedRecordZeroesTable(
      m: MemoryMap, kernel: KernelImage, h: Host, i: nat, r: HookRequest, page: nat, offset: nat)
    requires HostOk(m, h) && MissesRecord(h, i, r)
    requires h.world.inFlight.None? && !HasRequest(h.world.pool.freeRequests)
    requires page < SMALL_PAGES && page / 512 == Pml2Position(r.physical) && offset < PAGE_SIZE
    ensures Defined(h, Operate(i, HookPage(r)))
    ensures var t := HostNext(m, kernel, h, Operate(i, HookPage(r)));
      && i < |t.cpus| && Inv(m, t.cpus[i].processor)
      && LosesPage(t, i, Block(r.splitBuffer.value, SplitPage), page * PAGE_SIZE + offset)
  {
    FailedRecordStep(m, kernel, h, i, r);
    var t := HostNext(m, kernel, h, Operate(i, HookPage(r)));
    var w := StoredWorld(h.world, h.cpus[i].processor.ept, t.cpus[i].processor.ept);
    FreedTableIsLost(w, t, i, Block(r.splitBuffer.value, SplitPage), page, offset);
  }

  /** A block freed while nothing else is queued is zeroed and unused after three steps. */
  lemma FreedIsZeroed(w: World, b: Block)
    requires WorldOk(w) && b in w.owned && w.inFlight.None? && !HasRequest(w.pool.freeRequests)
    ensures var freed := NextWorld(w, BeginFree(b));
      var steps := [SubmitFree(b), FreePop, FreeRun];
      && EnabledWorldRun(freed, steps)
      && var t := RunWorld(freed, steps).pool;
      && b.address in t.memory && t.memory[b.address] == Zeros(SizeOf(b.kind))
      && Item(b, false) in SlotsOf(t, b.kind)
  {
    var freed := NextWorld(w, BeginFree(b));
    StepKeepsWorld(w, BeginFree(b));
    SubmittedIsPopped(freed, b);
    ReleasedIsZeroed(NextWorld(NextWorld(freed, SubmitFree(b)), FreePop), b);
    RunOfThree(freed, SubmitFree(b), FreePop, FreeRun);
  }

  lemma SubmittedIsPopped(w: World, b: Block)
    requires WorldOk(w) && b in w.submitting && w.inFlight.None? && !HasRequest(w.pool.freeRequests)
    ensures var queued := NextWorld(w, SubmitFree(b));
      && EnabledStep(w, SubmitFree(b)) && EnabledStep(queued, FreePop)
      && WorldOk(NextWorld(queued, FreePop)) && NextWorld(queued, FreePop).inFlight == Some(b)
  {
    var queued := NextWorld(w, SubmitFree(b));
    StepKeepsWorld(w, SubmitFree(b));
    assert FirstWith(queued.pool.freeRequests, true) == 0;
    StepKeepsWorld(queued, FreePop);
  }

  lemma ReleasedIsZeroed(w: World, b: Block)
    requires WorldOk(w) && w.inFlight == Some(b)
    ensures var t := NextWorld(w, FreeRun).pool;
      && b.address in t.memory && t.memory[b.address] == Zeros(SizeOf(b.kind))
      && Item(b, false) in SlotsOf(t, b.kind)
  {
    assert ConservedAt(w, b);
    BlockHasSlot(w.pool, b);
    var i := FirstAt(SlotsOf(w.pool, b.kind), b.address);
    assert SlotsOf(w.pool, b.kind)[i] in SlotsOf(w.pool, b.kind);
    assert SlotsOf(NextWorld(w, FreeRun).pool, b.kind)[i] == Item(b, false);
  }

  lemma RunOfThree(w: World, s1: PoolStep, s2: PoolStep, s3: PoolStep)
    ensures RunWorld(w, [s1, s2, s3]) == NextWorld(NextWorld(NextWorld(w, s1), s2), s3)
    ensures EnabledWorldRun(w, [s1, s2, s3]) <==>
      && EnabledStep(w, s1) && EnabledStep(NextWorld(w, s1), s2)
      && EnabledStep(NextWorld(NextWorld(w, s1), s2), s3)
  {
    var w1 := NextWorld(w, s1);
    var w2 := NextWorld(w1, s2);
    assert [s1, s2, s3][1..] == [s2, s3] && [s2, s3][1..] == [s3] && [s3][1..] == [];
    assert RunWorld(w1, [s2, s3]) == RunWorld(w2, [s3]) == RunWorld(NextWorld(w2, s3), []);
    assert EnabledWorldRun(NextWorld(w2, s3), []);
    assert EnabledWorldRun(w2, [s3]) <==> EnabledStep(w2, s3);
    assert EnabledWorldRun(w1, [s2, s3]) <==> EnabledStep(w1, s2) && EnabledWorldRun(w2, [s3]);
  }

  /** A new system gets there with its first block: the request of one processor finds no record. */
  lemma FailedRecordReachable(
      m: MemoryMap, kernel: KernelImage, base: nat, addresses: nat -> Option<nat>, rounds: nat)
    requires DistinctAddresses(addresses) && Found(InitialPool(addresses, rounds), SplitPage).1.Some?
    ensures var buffer := Found(InitialPool(addresses, rounds), SplitPage).1;
      var t := HostNext(m, kernel, Booted(m, [base], addresses, rounds), ClaimFor(0, SplitPage));
      && HostOk(m, t) && MissesRecord(t, 0, HookRequest(false, false, 0x10000, 1, 0x20_0000, buffer, None))
      && t.world.inFlight.None? && !HasRequest(t.world.pool.freeRequests)
  {
    var h, w := Booted(m, [base], addresses, rounds), Started(addresses, rounds);
    BootedOk(m, [base], addresses, rounds);
    ClaimKeepsHost(m, kernel, h, 0, SplitPage);
    InitialKeeps(addresses, rounds);
    FoundKeepsRequests(w.pool, SplitPage);
    NewRequestReaches(m, base, Found(w.pool, SplitPage).1.value);
  }

  lemma FoundKeepsRequests(p: Pool, kind: AllocationType)
    ensures Found(p, kind).0.freeRequests == p.freeRequests
  {
  }

  lemma NewRequestReaches(m: MemoryMap, base: nat, buffer: nat)
    ensures var p := Constructed(m, base);
      var r := HookRequest(false, false, 0x10000, 1, 0x20_0000, Some(buffer), None);
      && Grantable(p, r) && ReachesRecord(p.ept, r)
      && WellSized(p.ept.tables) && p.ept.tables.pml2[Pml2Position(r.physical)].Large?
  {
    ConstructedInv(m, base);
    IndicesOfPage(0x200, 0);
  }
}
