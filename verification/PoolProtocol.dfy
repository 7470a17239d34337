/** The pool's operations on its slot lists (PoolManager.cpp) as functions, and the pool as a
    state machine: any number of callers, the allocation thread and the free thread take steps
    one lock-protected section at a time, in any order. */
module PoolProtocol {
  import opened Wrappers
  import opened RequestList

  datatype AllocationType = SplitPage | EptHookPage

  // sizeof(VMM_EPT_DYNAMIC_SPLIT) and sizeof(EPT_HOOKED_PAGE_DETAIL), in 64-bit words
  const SPLIT_SIZE: nat := 8192 / 8
  const HOOK_SIZE: nat := 80 / 8

  datatype Block = Block(address: nat, kind: AllocationType)

  /** A list slot is used or not, like a request slot. */
  type Slot = Item<Block>

  function SizeOf(kind: AllocationType): nat {
    if kind == SplitPage then SPLIT_SIZE else HOOK_SIZE
  }

  function Zeros(n: nat): seq<nat> {
    seq(n, _ => 0)
  }

  datatype Pool = Pool(
    paging: seq<Slot>, hooks: seq<Slot>,
    allocationRequests: seq<Item<AllocationType>>, freeRequests: seq<Item<Block>>,
    memory: map<nat, seq<nat>>)

  function SlotsOf(p: Pool, kind: AllocationType): seq<Slot> {
    if kind == SplitPage then p.paging else p.hooks
  }

  function WithSlots(p: Pool, kind: AllocationType, slots: seq<Slot>): Pool {
    if kind == SplitPage then p.(paging := slots) else p.(hooks := slots)
  }

  // ----- The lock-protected operations -----

  /** FindFreeSlot: the first unused slot becomes used. */
  function Found(p: Pool, kind: AllocationType): (Pool, Option<nat>) {
    var slots := SlotsOf(p, kind);
    var i := FirstWith(slots, false);
    if i < |slots| then (WithSlots(p, kind, slots[i := slots[i].(isUsed := true)]), Some(slots[i].data.address))
    else (p, None)
  }

  /** AllocateInternal with the address the operating system returns, if any. */
  function Grown(p: Pool, kind: AllocationType, address: Option<nat>): Pool {
    if address.None? then p
    else
      WithSlots(p, kind, SlotsOf(p, kind) + [Item(Block(address.value, kind), false)])
        .(memory := p.memory[address.value := Zeros(SizeOf(kind))])
  }

  function FirstAt(slots: seq<Slot>, address: nat): (i: nat)
    ensures i <= |slots|
    ensures i < |slots| ==> slots[i].data.address == address
    ensures forall j | 0 <= j < i :: slots[j].data.address != address
  {
    if slots == [] || slots[0].data.address == address then 0 else 1 + FirstAt(slots[1..], address)
  }

  /** FreeInternal: the slot with this address is zeroed and becomes unused. */
  function Released(p: Pool, b: Block): Pool {
    var slots := SlotsOf(p, b.kind);
    var i := FirstAt(slots, b.address);
    if i == |slots| then p
    else
      WithSlots(p, b.kind, slots[i := slots[i].(isUsed := false)])
        .(memory := p.memory[b.address := Zeros(SizeOf(b.kind))])
  }

  function EmptyPool(): Pool {
    var requests := seq(MAX_ALLOCATION_REQUESTS, _ => Item(SplitPage, false));
    Pool([], [], requests, seq(MAX_ALLOCATION_REQUESTS, _ => Item(NO_BLOCK, false)), map[])
  }

  function GrownTwice(p: Pool, first: Option<nat>, second: Option<nat>): Pool {
    Grown(Grown(p, SplitPage, first), EptHookPage, second)
  }

  /** The constructor's loop after n rounds (MAX_INITIAL_ALLOCATIONS, ten, in the end): a block of
      each kind a round, any of which may fail. */
  function InitialPool(addresses: nat -> Option<nat>, n: nat): Pool {
    if n == 0 then EmptyPool()
    else GrownTwice(InitialPool(addresses, n - 1), addresses(2 * n - 2), addresses(2 * n - 1))
  }

  // ----- The final drain -----

  /** Popping one free request and releasing its block. */
  function FreedOne(p: Pool): Pool {
    var (requests, b) := Popped(p.freeRequests, NO_BLOCK);
    var q := p.(freeRequests := requests);
    if b.address == 0 then q else Released(q, b)
  }

  /** The free requests are popped and released until none is left. */
  function Drained(p: Pool): Pool
    decreases UsedCount(p.freeRequests)
  {
    PoppedCount(p.freeRequests, NO_BLOCK);
    if !HasRequest(p.freeRequests) then p else Drained(FreedOne(p))
  }

  lemma DrainedStep(p: Pool)
    ensures Drained(p) == if HasRequest(p.freeRequests) then Drained(FreedOne(p)) else p
    ensures HasRequest(p.freeRequests) ==> UsedCount(FreedOne(p).freeRequests) < UsedCount(p.freeRequests)
  {
    PoppedCount(p.freeRequests, NO_BLOCK);
  }

  // ----- The state machine -----

  /** The pool, and where every handed-out block currently is: with a caller, being submitted by
      Free, popped by the free thread, or given up after the free list stayed full. */
  datatype World = World(
    pool: Pool, owned: multiset<Block>, submitting: multiset<Block>,
    inFlight: Option<Block>, allocating: Option<AllocationType>, dropped: multiset<Block>)

  datatype PoolStep =
    | Claim(kind: AllocationType)
    | RequestAllocation(kind: AllocationType)
    | AllocationPop
    | AllocationRun(address: Option<nat>)
    | BeginFree(block: Block)
    | SubmitFree(block: Block)
    | DropFree(block: Block)
    | FreePop
    | FreeRun
    | WriteBlock(block: Block, contents: seq<nat>)

  const NO_BLOCK: Block := Block(0, SplitPage)

  /** A caller frees and writes only what it holds; a worker pops after it saw a nonzero size; the
      operating system returns fresh addresses. */
  ghost predicate EnabledStep(w: World, s: PoolStep) {
    match s
    case Claim(_) => true
    case RequestAllocation(_) => true
    case AllocationPop => w.allocating.None? && HasRequest(w.pool.allocationRequests)
    case AllocationRun(address) => w.allocating.Some? && (address.Some? ==> Fresh(w.pool, address.value))
    case BeginFree(b) => b in w.owned
    case SubmitFree(b) => b in w.submitting
    case DropFree(b) => b in w.submitting
    case FreePop => w.inFlight.None? && HasRequest(w.pool.freeRequests)
    case FreeRun => w.inFlight.Some?
    case WriteBlock(b, contents) => b in w.owned && |contents| == SizeOf(b.kind)
  }

  predicate Fresh(p: Pool, address: nat) {
    address != 0 && forall s | s in p.paging + p.hooks :: s.data.address != address
  }

  function NextWorld(w: World, s: PoolStep): World {
    match s
    case Claim(kind) =>
      var (pool, address) := Found(w.pool, kind);
      if address.None? then w
      else w.(pool := pool, owned := w.owned + multiset{Block(address.value, kind)})
    case RequestAllocation(kind) =>
      w.(pool := w.pool.(allocationRequests := Inserted(w.pool.allocationRequests, kind).0))
    case AllocationPop =>
      var (requests, kind) := Popped(w.pool.allocationRequests, SplitPage);
      w.(pool := w.pool.(allocationRequests := requests), allocating := Some(kind))
    case AllocationRun(address) =>
      if w.allocating.None? then w
      else w.(pool := Grown(w.pool, w.allocating.value, address), allocating := None)
    case BeginFree(b) => w.(owned := w.owned - multiset{b}, submitting := w.submitting + multiset{b})
    case SubmitFree(b) =>
      var (requests, ok) := Inserted(w.pool.freeRequests, b);
      if !ok then w
      else w.(pool := w.pool.(freeRequests := requests), submitting := w.submitting - multiset{b})
    case DropFree(b) => w.(submitting := w.submitting - multiset{b}, dropped := w.dropped + multiset{b})
    case FreePop =>
      var (requests, b) := Popped(w.pool.freeRequests, NO_BLOCK);
      w.(pool := w.pool.(freeRequests := requests), inFlight := Some(b))
    case FreeRun =>
      if w.inFlight.None? then w
      else
        var b := w.inFlight.value;
        w.(pool := if b.address == 0 then w.pool else Released(w.pool, b), inFlight := None)
    case WriteBlock(b, contents) => w.(pool := w.pool.(memory := w.pool.memory[b.address := contents]))
  }

  // ----- The invariant -----

  /** The places a handed-out block can be in. */
  ghost function Outstanding(w: World, b: Block): nat {
    w.owned[b] + w.submitting[b] + Uses(w.pool.freeRequests, b)
      + (if w.inFlight == Some(b) then 1 else 0) + w.dropped[b]
  }

  ghost predicate ConservedAt(w: World, b: Block) {
    Uses(w.pool.paging, b) + Uses(w.pool.hooks, b) == Outstanding(w, b)
  }

  /** Every block is handed out at most once at a time and every handed-out block is somewhere. */
  ghost predicate Conserved(w: World) {
    forall b: Block :: ConservedAt(w, b)
  }

  ghost predicate Distinct(slots: seq<Slot>) {
    forall i, j | 0 <= i < j < |slots| :: slots[i].data.address != slots[j].data.address
  }

  ghost predicate SlotsOk(p: Pool, kind: AllocationType) {
    forall s | s in SlotsOf(p, kind) ::
      && s.data.kind == kind && s.data.address != 0
      && s.data.address in p.memory && |p.memory[s.data.address]| == SizeOf(kind)
      && (!s.isUsed ==> p.memory[s.data.address] == Zeros(SizeOf(kind)))
  }

  ghost predicate PoolOk(p: Pool) {
    && |p.allocationRequests| == MAX_ALLOCATION_REQUESTS && |p.freeRequests| == MAX_ALLOCATION_REQUESTS
    && Distinct(p.paging + p.hooks)
    && SlotsOk(p, SplitPage) && SlotsOk(p, EptHookPage)
  }

  ghost predicate WorldOk(w: World) {
    PoolOk(w.pool) && Conserved(w)
  }
}
