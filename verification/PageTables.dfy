/** The four-level EPT paging structures of section 28.2 of Intel SDM Vol 3C, as values:
    what a guest-physical address translates to, and what SplitLargePage makes of a large page.

    A PML2 slot is a union in the source; its LargePage bit tells the two readings apart. The
    mask-and-shift index macros are written as quotients and remainders of the address. */
module PageTables {
  import opened Wrappers
  import opened Mtrr

  const LARGE_PAGES: nat := 512 * 512
  const SMALL_PAGES: nat := LARGE_PAGES * 512
  const MAPPED_BYTES: nat := 0x80_0000_0000

  /** An entry that points to a table of the next level. */
  datatype Pointer = Pointer(read: bool, write: bool, execute: bool, frame: nat)

  /** An entry that maps a page. The memory type is a three-bit field. */
  datatype Pte = Pte(
    read: bool, write: bool, execute: bool, memoryType: nat,
    ignorePat: bool, frame: nat, suppressVe: bool)

  datatype Pde = Large(page: Pte) | Table(pointer: Pointer)

  /** One processor's paging structures. `base` is the physical page of the PML4 table, the
      PML3 table is the page after it and the 512 PML2 tables follow. `pml1` holds the split
      tables by physical page. */
  datatype Tables = Tables(
    base: nat, pml4: seq<Pointer>, pml3: seq<Pointer>, pml2: seq<Pde>, pml1: map<nat, seq<Pte>>)

  datatype EntryRef = EntryRef(table: nat, index: nat)

  datatype Translation = Translation(frame: nat, read: bool, write: bool, execute: bool, memoryType: nat)

  function Pml4Index(address: nat): (i: nat) ensures i < 512 { address / 0x80_0000_0000 % 512 }
  function Pml3Index(address: nat): (i: nat) ensures i < 512 { address / 0x4000_0000 % 512 }
  function Pml2Index(address: nat): (i: nat) ensures i < 512 { address / 0x20_0000 % 512 }
  function Pml1Index(address: nat): (i: nat) ensures i < 512 { address / 0x1000 % 512 }

  /** The position of an address in the row-major PML2[512][512]. */
  function Pml2Position(address: nat): (k: nat)
    ensures k < LARGE_PAGES
  {
    Pml3Index(address) * 512 + Pml2Index(address)
  }

  ghost predicate WellSized(t: Tables) {
    && |t.pml4| == 512 && |t.pml3| == 512 && |t.pml2| == LARGE_PAGES
    && forall f | f in t.pml1 :: |t.pml1[f]| == 512
  }

  const NOT_PRESENT: Pointer := Pointer(false, false, false, 0)

  function FullAccess(frame: nat): Pointer {
    Pointer(true, true, true, frame)
  }

  // ----- The hardware walk -----

  /** The rights of a translation are those that every level grants. */
  function Leaf(pointers: seq<Pointer>, frame: nat, e: Pte): Translation {
    Translation(
      frame,
      e.read && forall p | p in pointers :: p.read,
      e.write && forall p | p in pointers :: p.write,
      e.execute && forall p | p in pointers :: p.execute,
      e.memoryType)
  }

  /** The two lower levels, entered at PML2 slot k under the given upper entries. */
  function WalkLower(t: Tables, p4: Pointer, p3: Pointer, k: nat, i: nat): Option<Translation>
    requires WellSized(t) && k < LARGE_PAGES && i < 512
  {
    match t.pml2[k]
    case Large(e) => Some(Leaf([p4, p3], e.frame * 512 + i, e))
    case Table(p2) =>
      if !p2.read || p2.frame !in t.pml1 then None
      else Some(Leaf([p4, p3, p2], t.pml1[p2.frame][i].frame, t.pml1[p2.frame][i]))
  }

  /** The four-level walk: each pointer's frame selects the table of the next level. */
  function Walk(t: Tables, address: nat): Option<Translation>
    requires WellSized(t)
  {
    var p4 := t.pml4[Pml4Index(address)];
    if !p4.read || p4.frame != t.base + 1 then None else
    var p3 := t.pml3[Pml3Index(address)];
    if !p3.read || p3.frame < t.base + 2 || p3.frame >= t.base + 2 + 512 then None else
    WalkLower(t, p4, p3, (p3.frame - (t.base + 2)) * 512 + Pml2Index(address), Pml1Index(address))
  }

  /** Section 28.2.2 of the SDM: an address has a right exactly when every entry on the way grants it,
      from the PML4 entry to the one that maps the page. */
  lemma WalkRights(t: Tables, address: nat)
    requires WellSized(t) && Walk(t, address).Some?
    ensures var w, p4, p3 := Walk(t, address).value, t.pml4[Pml4Index(address)], t.pml3[Pml3Index(address)];
      && t.base + 2 <= p3.frame < t.base + 2 + 512
      && match t.pml2[(p3.frame - t.base - 2) * 512 + Pml2Index(address)]
         case Large(e) =>
           && (w.read <==> p4.read && p3.read && e.read)
           && (w.write <==> p4.write && p3.write && e.write)
           && (w.execute <==> p4.execute && p3.execute && e.execute)
         case Table(p2) =>
           && p2.frame in t.pml1
           && var e := t.pml1[p2.frame][Pml1Index(address)];
           && (w.read <==> p4.read && p3.read && p2.read && e.read)
           && (w.write <==> p4.write && p3.write && p2.write && e.write)
           && (w.execute <==> p4.execute && p3.execute && p2.execute && e.execute)
  {
    var p4, p3 := t.pml4[Pml4Index(address)], t.pml3[Pml3Index(address)];
    var k := (p3.frame - (t.base + 2)) * 512 + Pml2Index(address);
    match t.pml2[k]
    case Large(e) => assert forall p | p in [p4, p3] :: p == p4 || p == p3;
    case Table(p2) => assert forall p | p in [p4, p3, p2] :: p == p4 || p == p3 || p == p2;
  }

  // ----- Entries of the identity map -----

  /** The entry a split table holds for an unhooked 4 KB page. */
  function SmallEntry(m: MemoryMap, page: nat): Pte {
    Pte(true, true, true, MemoryTypeAt(m, page * PAGE_SIZE) % 8, false, page, false)
  }

  /** The entry SetupPML2Entry writes for a 2 MB page that it does not split. */
  function LargeEntry(m: MemoryMap, k: nat): Pte {
    var memoryType :=
      if ValidForLargePage(m, k) then MemoryTypeAt(m, k * SIZE_2_MB) else MEMORY_TYPE_UNCACHEABLE;
    Pte(true, true, true, memoryType % 8, false, k, false)
  }

  function IdentityTables(m: MemoryMap, base: nat): Tables {
    Tables(
      base,
      seq(512, i => if i == 0 then FullAccess(base + 1) else NOT_PRESENT),
      seq(512, i requires i >= 0 => FullAccess(base + 2 + i)),
      seq(LARGE_PAGES, k requires k >= 0 => Large(LargeEntry(m, k))),
      map[])
  }

  // ----- SplitLargePage -----

  function SplitEntries(m: MemoryMap, e: Pte): (s: seq<Pte>)
    ensures |s| == 512
  {
    seq(512, i requires i >= 0 =>
      var frame := e.frame * SIZE_2_MB / PAGE_SIZE + i;
      Pte(true, true, true, MemoryTypeAt(m, frame * PAGE_SIZE) % 8, e.ignorePat, frame, e.suppressVe))
  }

  datatype SplitOutcome = SplitOutcome(tables: Tables, ok: bool, bufferFreed: bool)

  /** SplitLargePage with the buffer at physical page `buffer`. */
  function Split(t: Tables, m: MemoryMap, buffer: nat, address: nat): (o: SplitOutcome)
    requires WellSized(t)
    ensures WellSized(o.tables)
  {
    if Pml4Index(address) > 0 then SplitOutcome(t, false, false)
    else
      var k := Pml2Position(address);
      match t.pml2[k]
      case Table(_) => SplitOutcome(t, true, true)
      case Large(e) =>
        SplitOutcome(
          t.(pml2 := t.pml2[k := Table(FullAccess(buffer))], pml1 := t.pml1[buffer := SplitEntries(m, e)]),
          true, false)
  }

  /** GetPml1Entry: where the 4 KB entry of an address is, if its large page is split. */
  function Pml1Ref(t: Tables, address: nat): (r: Option<EntryRef>)
    requires WellSized(t)
    ensures r.Some? ==> r.value.table in t.pml1 && r.value.index < 512
  {
    if Pml4Index(address) > 0 then None
    else
      match t.pml2[Pml2Position(address)]
      case Large(_) => None
      case Table(p) => if p.frame in t.pml1 then Some(EntryRef(p.frame, Pml1Index(address))) else None
  }

  function ReadEntry(t: Tables, r: EntryRef): Pte
    requires WellSized(t) && r.table in t.pml1 && r.index < 512
  {
    t.pml1[r.table][r.index]
  }

  function WriteEntry(t: Tables, r: EntryRef, e: Pte): (u: Tables)
    requires WellSized(t) && r.table in t.pml1 && r.index < 512
    ensures WellSized(u) && u.pml1.Keys == t.pml1.Keys
  {
    t.(pml1 := t.pml1[r.table := t.pml1[r.table][r.index := e]])
  }

  // ----- Address arithmetic -----

  lemma IndicesOfPage(page: nat, offset: nat)
    requires page < SMALL_PAGES && offset < PAGE_SIZE
    ensures var a := page * PAGE_SIZE + offset;
      && a < MAPPED_BYTES && a / PAGE_SIZE == page
      && Pml4Index(a) == 0 && Pml2Position(a) == page / 512 && Pml1Index(a) == page % 512
      && Pml3Index(a) == page / 512 / 512 && Pml2Index(a) == page / 512 % 512
  {
    var a := page * PAGE_SIZE + offset;
    assert a / 0x1000 == page;
    assert a / 0x20_0000 == page / 512;
    assert a / 0x4000_0000 == page / 512 / 512;
    assert a / 0x80_0000_0000 == 0;
  }

  /** The upper two levels of the identity map: PML4[0] leads to PML3, PML3[i] to PML2[i]. */
  ghost predicate IdentityUpper(t: Tables)
    requires WellSized(t)
  {
    && t.pml4[0] == FullAccess(t.base + 1)
    && forall i | 0 <= i < 512 :: t.pml3[i] == FullAccess(t.base + 2 + i)
  }

  lemma WalkThroughUpper(t: Tables, address: nat, i3: nat)
    requires WellSized(t) && IdentityUpper(t)
    requires Pml4Index(address) == 0 && Pml3Index(address) == i3
    ensures Walk(t, address)
         == WalkLower(t, FullAccess(t.base + 1), FullAccess(t.base + 2 + i3), Pml2Position(address), Pml1Index(address))
  {
    assert t.pml3[i3] == FullAccess(t.base + 2 + i3);
  }

  /** Under such upper levels an address reaches the PML2 slot of its large page. */
  lemma WalkReaches(t: Tables, page: nat, offset: nat)
    requires WellSized(t) && IdentityUpper(t) && page < SMALL_PAGES && offset < PAGE_SIZE
    ensures Walk(t, page * PAGE_SIZE + offset)
         == WalkLower(t, FullAccess(t.base + 1), FullAccess(t.base + 2 + page / 512 / 512), page / 512, page % 512)
  {
    var address := page * PAGE_SIZE + offset;
    IndicesOfPage(page, offset);
    var k, i := Pml2Position(address), Pml1Index(address);
    WalkThroughUpper(t, address, page / 512 / 512);
  }
}
