/** The memory-type map of an Ept object (Ept.cpp: BuildMtrrMap, GetMemoryType and
    IsValidForLargePage), built from the memory type range registers.

    Register numbering and the precedence rules are those of section 11.11 of
    Intel SDM Vol 3A. */
module Mtrr {
  import opened Wrappers
  import opened Arithmetic

  const PAGE_SIZE: nat := 0x1000
  const SIZE_2_MB: nat := 0x200000
  const PAGES_PER_LARGE_PAGE: nat := 512

  const MEMORY_TYPE_UNCACHEABLE: nat := 0
  const MEMORY_TYPE_WRITE_THROUGH: nat := 4
  const MEMORY_TYPE_WRITE_BACK: nat := 6
  const MEMORY_TYPE_INVALID: nat := 0xFF

  const FIXED_RANGE_MTRRS_SIZE: nat := (1 + 2 + 8) * 8
  const MAX_VARIABLE_RANGE_MTRRS: nat := 255
  const MTRR_ENTRIES_SIZE: nat := MAX_VARIABLE_RANGE_MTRRS + FIXED_RANGE_MTRRS_SIZE

  type Byte = x: nat | x < 0x100

  datatype Range = Range(base: nat, end: nat, memoryType: Byte, fixed: bool)

  /** What the lookups read: the enabled ranges in order, and the default type. */
  datatype MemoryMap = MemoryMap(ranges: seq<Range>, defaultType: Byte)

  /** One IA32_MTRR_PHYSBASE/PHYSMASK pair. `scanOfZero` is what the bit scan leaves behind
      when the mask has no bit set, a case the instruction leaves undefined. */
  datatype VariableRegister = VariableRegister(
    memoryType: Byte, basePage: nat, valid: bool, maskPage: nat, scanOfZero: nat)

  /** The eleven fixed-range registers are one of 64 KB, two of 16 KB and eight of 4 KB ranges,
      eight type bytes each. */
  datatype Registers = Registers(
    enabled: bool, defaultType: Byte, fixedSupported: bool, fixedEnabled: bool,
    fixed: seq<seq<Byte>>, variable: seq<VariableRegister>)

  ghost predicate ReadableRegisters(r: Registers) {
    && |r.fixed| == 11
    && (forall i | 0 <= i < 11 :: |r.fixed[i]| == 8)
    && |r.variable| <= MAX_VARIABLE_RANGE_MTRRS
  }

  // ----- What BuildMtrrMap builds -----

  function TrailingZeros(n: nat): nat
    requires n > 0
  {
    if n % 2 == 1 then 0 else 1 + TrailingZeros(n / 2)
  }

  function MaskBits(v: VariableRegister): nat {
    if v.maskPage == 0 then v.scanOfZero else 12 + TrailingZeros(v.maskPage)
  }

  function VariableRange(v: VariableRegister): Range {
    Range(v.basePage * PAGE_SIZE, v.basePage * PAGE_SIZE + Pow2(MaskBits(v)) - 1, v.memoryType, false)
  }

  function VariableRanges(vs: seq<VariableRegister>): seq<Range> {
    if vs == [] then [] else
      var v := vs[|vs| - 1];
      VariableRanges(vs[..|vs| - 1]) +
      if v.valid && v.memoryType != MEMORY_TYPE_WRITE_BACK then [VariableRange(v)] else []
  }

  function FixedBase(register: nat): nat {
    if register == 0 then 0
    else if register < 3 then 0x80000 + (register - 1) * 0x4000 * 8
    else 0xC0000 + (register - 3) * 0x1000 * 8
  }

  function FixedSize(register: nat): (size: nat)
    ensures size >= PAGE_SIZE
  {
    if register == 0 then 0x10000 else if register < 3 then 0x4000 else 0x1000
  }

  function FixedRange(fixed: seq<seq<Byte>>, n: nat): Range
    requires |fixed| == 11 && (forall i | 0 <= i < 11 :: |fixed[i]| == 8)
    requires n < FIXED_RANGE_MTRRS_SIZE
  {
    var base := FixedBase(n / 8) + FixedSize(n / 8) * (n % 8);
    Range(base, base + (FixedSize(n / 8) - 1), fixed[n / 8][n % 8], true)
  }

  function FixedRanges(fixed: seq<seq<Byte>>): seq<Range>
    requires |fixed| == 11 && (forall i | 0 <= i < 11 :: |fixed[i]| == 8)
  {
    seq(FIXED_RANGE_MTRRS_SIZE, n requires 0 <= n < FIXED_RANGE_MTRRS_SIZE => FixedRange(fixed, n))
  }

  function BuiltMap(r: Registers): MemoryMap
    requires ReadableRegisters(r)
  {
    if !r.enabled then MemoryMap([], MEMORY_TYPE_UNCACHEABLE)
    else
      MemoryMap(
        (if r.fixedSupported && r.fixedEnabled then FixedRanges(r.fixed) else [])
        + VariableRanges(r.variable),
        r.defaultType)
  }

  // ----- The lookups -----

  predicate Covers(range: Range, address: nat) {
    range.base <= address < range.end
  }

  /** The target type after the ranges from index i on, when it is `current` before them. */
  function TypeFrom(ranges: seq<Range>, i: nat, current: Byte, address: nat): Byte
    requires i <= |ranges|
    decreases |ranges| - i
  {
    if i == |ranges| then current
    else if !Covers(ranges[i], address) then TypeFrom(ranges, i + 1, current, address)
    else if ranges[i].fixed || current == MEMORY_TYPE_UNCACHEABLE then ranges[i].memoryType
    else if ranges[i].memoryType == MEMORY_TYPE_WRITE_THROUGH && current == MEMORY_TYPE_WRITE_BACK then
      TypeFrom(ranges, i + 1, MEMORY_TYPE_WRITE_THROUGH, address)
    else TypeFrom(ranges, i + 1, ranges[i].memoryType, address)
  }

  function MemoryTypeAt(m: MemoryMap, address: nat): Byte {
    var t := TypeFrom(m.ranges, 0, MEMORY_TYPE_INVALID, address);
    if t == MEMORY_TYPE_INVALID then m.defaultType else t
  }

  predicate Straddles(range: Range, largePage: nat) {
    var start := largePage * SIZE_2_MB;
    var last := start + SIZE_2_MB - 1;
    (start <= range.end < last) || (start < range.base <= last)
  }

  predicate ValidForLargePage(m: MemoryMap, largePage: nat) {
    forall i | 0 <= i < |m.ranges| :: !Straddles(m.ranges[i], largePage)
  }

  /** The memory-range fields of the Ept class. */
  class MtrrMap {
    const memoryRanges: array<Range>
    var numberOfEnabledMemoryRanges: nat
    var defaultMemoryType: Byte

    ghost predicate Valid()
      reads this
    {
      && memoryRanges.Length == MTRR_ENTRIES_SIZE
      && numberOfEnabledMemoryRanges <= MTRR_ENTRIES_SIZE
    }

    ghost function Map(): MemoryMap
      requires Valid()
      reads this, memoryRanges
    {
      MemoryMap(memoryRanges[..numberOfEnabledMemoryRanges], defaultMemoryType)
    }

    /** The map of a new Ept object. */
    constructor (r: Registers)
      requires ReadableRegisters(r)
      ensures Valid() && Map() == BuiltMap(r) && fresh(memoryRanges)
    {
      memoryRanges := new Range[MTRR_ENTRIES_SIZE](_ => Range(0, 0, 0, false));
      numberOfEnabledMemoryRanges := 0;
      defaultMemoryType := MEMORY_TYPE_INVALID;
      new;
      BuildMtrrMap(r);
    }

    method AddRange(range: Range)
      requires Valid() && numberOfEnabledMemoryRanges < MTRR_ENTRIES_SIZE
      modifies this`numberOfEnabledMemoryRanges, memoryRanges
      ensures Valid() && numberOfEnabledMemoryRanges == old(numberOfEnabledMemoryRanges) + 1
      ensures Map() == old(Map()).(ranges := old(Map()).ranges + [range])
    {
      memoryRanges[numberOfEnabledMemoryRanges] := range;
      numberOfEnabledMemoryRanges := numberOfEnabledMemoryRanges + 1;
    }

    /** Appends the eight descriptors of one fixed-range register. */
    method AddFixedRegister(fixed: seq<seq<Byte>>, register: nat)
      requires Valid() && |fixed| == 11 && (forall i | 0 <= i < 11 :: |fixed[i]| == 8)
      requires register < 11 && numberOfEnabledMemoryRanges == 8 * register
      requires Map().ranges == FixedRanges(fixed)[..8 * register]
      modifies this`numberOfEnabledMemoryRanges, memoryRanges
      ensures Valid() && numberOfEnabledMemoryRanges == 8 * (register + 1)
      ensures Map() == old(Map()).(ranges := FixedRanges(fixed)[..8 * (register + 1)])
    {
      for j := 0 to 8
        invariant Valid() && numberOfEnabledMemoryRanges == 8 * register + j
        invariant Map() == old(Map()).(ranges := FixedRanges(fixed)[..8 * register + j])
      {
        var base := FixedBase(register) + FixedSize(register) * j;
        ghost var n := 8 * register + j;
        assert n / 8 == register && n % 8 == j;
        AddRange(Range(base, base + (FixedSize(register) - 1), fixed[register][j], true));
        assert FixedRanges(fixed)[..n + 1] == FixedRanges(fixed)[..n] + [FixedRange(fixed, n)];
      }
    }

    /** The eleven fixed registers in the order 64 KB, 16 KB, 4 KB. */
    method AddFixedRanges(fixed: seq<seq<Byte>>)
      requires Valid() && |fixed| == 11 && (forall i | 0 <= i < 11 :: |fixed[i]| == 8)
      requires numberOfEnabledMemoryRanges == 0
      modifies this`numberOfEnabledMemoryRanges, memoryRanges
      ensures Valid() && numberOfEnabledMemoryRanges == FIXED_RANGE_MTRRS_SIZE
      ensures Map() == old(Map()).(ranges := FixedRanges(fixed))
    {
      for register := 0 to 11
        invariant Valid() && numberOfEnabledMemoryRanges == 8 * register
        invariant Map() == old(Map()).(ranges := FixedRanges(fixed)[..8 * register])
      {
        AddFixedRegister(fixed, register);
      }
      assert FixedRanges(fixed)[..88] == FixedRanges(fixed);
    }

    method AddVariableRanges(variable: seq<VariableRegister>)
      requires Valid() && |variable| <= MAX_VARIABLE_RANGE_MTRRS
      requires numberOfEnabledMemoryRanges <= FIXED_RANGE_MTRRS_SIZE
      modifies this`numberOfEnabledMemoryRanges, memoryRanges
      ensures Valid() && Map() == old(Map()).(ranges := old(Map()).ranges + VariableRanges(variable))
    {
      ghost var before := Map().ranges;
      for currentRegister := 0 to |variable|
        invariant Valid()
        invariant numberOfEnabledMemoryRanges <= |before| + currentRegister
        invariant Map() == old(Map()).(ranges := before + VariableRanges(variable[..currentRegister]))
      {
        var v := variable[currentRegister];
        assert variable[..currentRegister + 1][..currentRegister] == variable[..currentRegister];
        if v.valid {
          AddRange(VariableRange(v));
          if v.memoryType == MEMORY_TYPE_WRITE_BACK {
            numberOfEnabledMemoryRanges := numberOfEnabledMemoryRanges - 1;
          }
        }
      }
      assert variable[..|variable|] == variable;
    }

    method BuildMtrrMap(r: Registers)
      requires Valid() && numberOfEnabledMemoryRanges == 0 && ReadableRegisters(r)
      modifies this, memoryRanges
      ensures Valid() && Map() == BuiltMap(r)
    {
      if !r.enabled {
        defaultMemoryType := MEMORY_TYPE_UNCACHEABLE;
        return;
      }
      defaultMemoryType := r.defaultType;
      if r.fixedSupported && r.fixedEnabled {
        AddFixedRanges(r.fixed);
      }
      AddVariableRanges(r.variable);
    }

    method GetMemoryType(pfn: nat, isLargePage: bool) returns (targetMemoryType: Byte)
      requires Valid()
      ensures targetMemoryType == MemoryTypeAt(Map(), pfn * if isLargePage then SIZE_2_MB else PAGE_SIZE)
    {
      targetMemoryType := MEMORY_TYPE_INVALID;
      var addressOfPage := pfn * if isLargePage then SIZE_2_MB else PAGE_SIZE;
      ghost var ranges := Map().ranges;
      var current := 0;
      while current < numberOfEnabledMemoryRanges
        invariant current <= numberOfEnabledMemoryRanges
        invariant TypeFrom(ranges, current, targetMemoryType, addressOfPage)
                  == TypeFrom(ranges, 0, MEMORY_TYPE_INVALID, addressOfPage)
      {
        var range := memoryRanges[current];
        if range.base <= addressOfPage && addressOfPage < range.end {
          if range.fixed {
            targetMemoryType := range.memoryType;
            break;
          }
          if targetMemoryType == MEMORY_TYPE_UNCACHEABLE {
            targetMemoryType := range.memoryType;
            break;
          }
          if targetMemoryType == MEMORY_TYPE_WRITE_THROUGH || range.memoryType == MEMORY_TYPE_WRITE_THROUGH {
            if targetMemoryType == MEMORY_TYPE_WRITE_BACK {
              targetMemoryType := MEMORY_TYPE_WRITE_THROUGH;
              current := current + 1;
              continue;
            }
          }
          targetMemoryType := range.memoryType;
        }
        current := current + 1;
      }
      assert targetMemoryType == TypeFrom(ranges, 0, MEMORY_TYPE_INVALID, addressOfPage);
      if targetMemoryType == MEMORY_TYPE_INVALID {
        targetMemoryType := defaultMemoryType;
      }
    }

    method IsValidForLargePage(pfn: nat) returns (valid: bool)
      requires Valid()
      ensures valid <==> ValidForLargePage(Map(), pfn)
    {
      var startPageAddress := pfn * SIZE_2_MB;
      var endPageAddress := startPageAddress + SIZE_2_MB - 1;
      var i := 0;
      while i < numberOfEnabledMemoryRanges
        invariant i <= numberOfEnabledMemoryRanges
        invariant forall j | 0 <= j < i :: !Straddles(memoryRanges[j], pfn)
      {
        var range := memoryRanges[i];
        if (startPageAddress <= range.end && endPageAddress > range.end) ||
           (startPageAddress < range.base && endPageAddress >= range.base)
        {
          assert Straddles(Map().ranges[i], pfn);
          return false;
        }
        i := i + 1;
      }
      return true;
    }
  }

  // ----- Fixed ranges -----

  /** The 88 fixed descriptors tile the first megabyte: no gap, no overlap. */
  lemma FixedRangesTile(fixed: seq<seq<Byte>>)
    requires |fixed| == 11 && (forall i | 0 <= i < 11 :: |fixed[i]| == 8)
    ensures var rs := FixedRanges(fixed);
      && |rs| == 88
      && rs[0].base == 0
      && rs[87].end + 1 == 0x100000
      && (forall n | 0 <= n < 88 :: rs[n].base < rs[n].end && rs[n].base % PAGE_SIZE == 0)
      && (forall n | 0 <= n < 87 :: rs[n + 1].base == rs[n].end + 1)
  {
    var rs := FixedRanges(fixed);
    forall n | 0 <= n < 87
      ensures rs[n + 1].base == rs[n].end + 1
    {
      if n % 8 < 7 {
        assert (n + 1) / 8 == n / 8 && (n + 1) % 8 == n % 8 + 1;
      } else {
        assert (n + 1) / 8 == n / 8 + 1 && (n + 1) % 8 == 0;
      }
    }
  }

  /** The register byte that the SDM's fixed-range tables give for an address below 1 MB. */
  function FixedByte(fixed: seq<seq<Byte>>, address: nat): Byte
    requires |fixed| == 11 && (forall i | 0 <= i < 11 :: |fixed[i]| == 8)
    requires address < 0x100000
  {
    if address < 0x80000 then fixed[0][address / 0x10000]
    else if address < 0xC0000 then fixed[1 + (address - 0x80000) / 0x20000][(address - 0x80000) % 0x20000 / 0x4000]
    else fixed[3 + (address - 0xC0000) / 0x8000][(address - 0xC0000) % 0x8000 / 0x1000]
  }

  function FixedIndex(address: nat): (n: nat)
    requires address < 0x100000
    ensures n < 88
  {
    if address < 0x80000 then address / 0x10000
    else if address < 0xC0000 then 8 + (address - 0x80000) / 0x4000
    else 24 + (address - 0xC0000) / 0x1000
  }

  /** A fixed range ends on the last byte of a page, so no page starts there. */
  lemma FixedEndsBeforePage(fixed: seq<seq<Byte>>, n: nat, page: nat)
    requires |fixed| == 11 && (forall i | 0 <= i < 11 :: |fixed[i]| == 8)
    requires n < 88
    ensures FixedRange(fixed, n).end != page * PAGE_SIZE
  {
    assert FixedBase(n / 8) % PAGE_SIZE == 0 && FixedSize(n / 8) % PAGE_SIZE == 0;
    assert (FixedRange(fixed, n).end + 1) % PAGE_SIZE == 0;
  }

  lemma Fixed64Index(d: nat)
    requires d < 0x80000
    ensures var n := d / 0x10000;
      n / 8 == 0 && n % 8 == n && 0x10000 * n <= d < 0x10000 * n + 0x10000
  {
  }

  lemma Fixed16Index(d: nat)
    requires d < 0x40000
    ensures var n := 8 + d / 0x4000;
      && n / 8 == 1 + d / 0x20000 < 3 && n % 8 == d % 0x20000 / 0x4000
      && (n / 8 - 1) * 0x20000 + 0x4000 * (n % 8) <= d < (n / 8 - 1) * 0x20000 + 0x4000 * (n % 8) + 0x4000
  {
  }

  lemma Fixed4Index(d: nat)
    requires d < 0x40000
    ensures var n := 24 + d / 0x1000;
      && n / 8 == 3 + d / 0x8000 < 11 && n % 8 == d % 0x8000 / 0x1000
      && (n / 8 - 3) * 0x8000 + 0x1000 * (n % 8) <= d < (n / 8 - 3) * 0x8000 + 0x1000 * (n % 8) + 0x1000
  {
  }

  lemma FixedIndexCovers(fixed: seq<seq<Byte>>, page: nat)
    requires |fixed| == 11 && (forall i | 0 <= i < 11 :: |fixed[i]| == 8)
    requires page < 256
    ensures var n := FixedIndex(page * PAGE_SIZE);
      && Covers(FixedRange(fixed, n), page * PAGE_SIZE)
      && FixedRange(fixed, n).memoryType == FixedByte(fixed, page * PAGE_SIZE)
  {
    var address := page * PAGE_SIZE;
    var range := FixedRange(fixed, FixedIndex(address));
    if address < 0x80000 {
      Fixed64Index(address);
    } else if address < 0xC0000 {
      Fixed16Index(address - 0x80000);
    } else {
      Fixed4Index(address - 0xC0000);
    }
    assert range.base <= address <= range.end;
    FixedEndsBeforePage(fixed, FixedIndex(address), page);
  }

  /** Later descriptors start above everything an earlier one ends at. */
  lemma {:induction false} FixedRangesOrdered(fixed: seq<seq<Byte>>, j: nat, n: nat)
    requires |fixed| == 11 && (forall i | 0 <= i < 11 :: |fixed[i]| == 8)
    requires j < n < 88
    ensures FixedRanges(fixed)[j].end < FixedRanges(fixed)[n].base
    decreases n - j
  {
    FixedRangesTile(fixed);
    if j + 1 < n {
      FixedRangesOrdered(fixed, j + 1, n);
    }
  }

  lemma {:induction false} FirstFixedMatch(ranges: seq<Range>, i: nat, n: nat, current: Byte, address: nat)
    requires i <= n < |ranges|
    requires ranges[n].fixed && Covers(ranges[n], address)
    requires forall j | i <= j < n :: !Covers(ranges[j], address)
    ensures TypeFrom(ranges, i, current, address) == ranges[n].memoryType
    decreases n - i
  {
    if i < n {
      FirstFixedMatch(ranges, i + 1, n, current, address);
    }
  }

  /** With fixed ranges enabled, every page of the first megabyte gets its fixed-range byte,
      whatever the variable registers say. The byte 0xFF is the one exception: the code takes
      it for "no match" and answers with the default type. */
  lemma FixedRangesWin(r: Registers, page: nat)
    requires ReadableRegisters(r) && r.enabled && r.fixedSupported && r.fixedEnabled
    requires page < 256
    ensures var byte := FixedByte(r.fixed, page * PAGE_SIZE);
      MemoryTypeAt(BuiltMap(r), page * PAGE_SIZE)
      == if byte == MEMORY_TYPE_INVALID then r.defaultType else byte
  {
    var address := page * PAGE_SIZE;
    var ranges := BuiltMap(r).ranges;
    var n := FixedIndex(address);
    FixedIndexCovers(r.fixed, page);
    forall j | 0 <= j < n
      ensures !Covers(ranges[j], address)
    {
      FixedRangesOrdered(r.fixed, j, n);
    }
    FirstFixedMatch(ranges, 0, n, MEMORY_TYPE_INVALID, address);
  }

  /** With fixed ranges enabled the first large page always straddles one of them. */
  lemma FirstLargePageStraddles(r: Registers)
    requires ReadableRegisters(r) && r.enabled && r.fixedSupported && r.fixedEnabled
    ensures !ValidForLargePage(BuiltMap(r), 0)
  {
    assert Straddles(BuiltMap(r).ranges[0], 0);
  }

  // ----- Splitting -----

  lemma {:induction false} SameMatchesSameType(ranges: seq<Range>, i: nat, current: Byte, a: nat, b: nat)
    requires i <= |ranges|
    requires forall j | i <= j < |ranges| :: Covers(ranges[j], a) == Covers(ranges[j], b)
    ensures TypeFrom(ranges, i, current, a) == TypeFrom(ranges, i, current, b)
    decreases |ranges| - i
  {
    if i < |ranges| {
      SameMatchesSameType(ranges, i + 1, current, a, b);
      SameMatchesSameType(ranges, i + 1, ranges[i].memoryType, a, b);
      SameMatchesSameType(ranges, i + 1, MEMORY_TYPE_WRITE_THROUGH, a, b);
    }
  }

  /** A large page that no range straddles has one memory type throughout: each of its 512
      small pages gets the type of the large page. */
  lemma SplittingKeepsMemoryType(m: MemoryMap, largePage: nat, i: nat)
    requires ValidForLargePage(m, largePage) && i < PAGES_PER_LARGE_PAGE
    ensures MemoryTypeAt(m, (largePage * PAGES_PER_LARGE_PAGE + i) * PAGE_SIZE)
         == MemoryTypeAt(m, largePage * SIZE_2_MB)
  {
    var a := largePage * SIZE_2_MB;
    var b := (largePage * PAGES_PER_LARGE_PAGE + i) * PAGE_SIZE;
    assert a <= b <= a + SIZE_2_MB - PAGE_SIZE;
    forall j | 0 <= j < |m.ranges|
      ensures Covers(m.ranges[j], a) == Covers(m.ranges[j], b)
    {
      assert !Straddles(m.ranges[j], largePage);
    }
    SameMatchesSameType(m.ranges, 0, MEMORY_TYPE_INVALID, a, b);
  }

  // ----- Precedence of overlapping variable ranges -----

  /** The types of the ranges that cover an address, in register order. */
  function MatchingTypes(ranges: seq<Range>, i: nat, address: nat): (ts: seq<Byte>)
    requires i <= |ranges|
    ensures forall t | t in ts :: exists j | i <= j < |ranges| :: ranges[j].memoryType == t
    decreases |ranges| - i
  {
    if i == |ranges| then []
    else
      (if Covers(ranges[i], address) then [ranges[i].memoryType] else [])
      + MatchingTypes(ranges, i + 1, address)
  }

  /** Section 11.11.4.1 of the SDM: if any matching variable range is uncacheable, so is the page. */
  ghost predicate UncacheablePrecedence(m: MemoryMap, address: nat) {
    MEMORY_TYPE_UNCACHEABLE in MatchingTypes(m.ranges, 0, address) ==>
      MemoryTypeAt(m, address) == MEMORY_TYPE_UNCACHEABLE
  }

  /** A match directly after the first uncacheable one replaces it. */
  predicate FirstUncacheableStands(ts: seq<Byte>) {
    if ts == [] then true
    else if ts[0] == MEMORY_TYPE_UNCACHEABLE then |ts| == 1 || ts[1] == MEMORY_TYPE_UNCACHEABLE
    else FirstUncacheableStands(ts[1..])
  }

  /** A descriptor built from a variable register: WB ones are dropped, and 0xFF is no type. */
  predicate VariableOnly(range: Range) {
    !range.fixed && range.memoryType != MEMORY_TYPE_WRITE_BACK && range.memoryType != MEMORY_TYPE_INVALID
  }

  /** The fold that TypeFrom performs over the matching types. */
  function FoldTypes(ts: seq<Byte>, current: Byte): Byte {
    if ts == [] then current
    else if current == MEMORY_TYPE_UNCACHEABLE then ts[0]
    else FoldTypes(ts[1..], ts[0])
  }

  lemma {:induction false} TypeFromIsFold(ranges: seq<Range>, i: nat, current: Byte, address: nat)
    requires i <= |ranges|
    requires forall j | i <= j < |ranges| && Covers(ranges[j], address) :: VariableOnly(ranges[j])
    requires current != MEMORY_TYPE_WRITE_BACK
    ensures TypeFrom(ranges, i, current, address) == FoldTypes(MatchingTypes(ranges, i, address), current)
    decreases |ranges| - i
  {
    if i < |ranges| {
      var rest := MatchingTypes(ranges, i + 1, address);
      if Covers(ranges[i], address) {
        assert VariableOnly(ranges[i]);
        TypeFromIsFold(ranges, i + 1, ranges[i].memoryType, address);
        assert ([ranges[i].memoryType] + rest)[1..] == rest;
      } else {
        TypeFromIsFold(ranges, i + 1, current, address);
        assert MatchingTypes(ranges, i, address) == rest;
      }
    }
  }

  lemma {:induction false} FoldKeepsUncacheable(ts: seq<Byte>, current: Byte)
    requires MEMORY_TYPE_UNCACHEABLE in ts && current != MEMORY_TYPE_UNCACHEABLE
    ensures FoldTypes(ts, current) == MEMORY_TYPE_UNCACHEABLE <==> FirstUncacheableStands(ts)
  {
    if ts[0] == MEMORY_TYPE_UNCACHEABLE {
      assert |ts| > 1 ==> ts[1..][0] == ts[1];
    } else {
      FoldKeepsUncacheable(ts[1..], ts[0]);
    }
  }

  lemma {:induction false} FoldTypesStaysValid(ts: seq<Byte>, current: Byte)
    requires ts != [] && MEMORY_TYPE_INVALID !in ts
    ensures FoldTypes(ts, current) != MEMORY_TYPE_INVALID
  {
    if current != MEMORY_TYPE_UNCACHEABLE && |ts| > 1 {
      FoldTypesStaysValid(ts[1..], ts[0]);
    }
  }

  /** Uncacheable precedence fails in the code when a later range overlaps an uncacheable one.
      At an address that variable ranges only cover it holds exactly when the first uncacheable
      match is the last match or is followed by another uncacheable one. */
  lemma UncacheablePrecedenceIff(m: MemoryMap, address: nat)
    requires forall j | 0 <= j < |m.ranges| && Covers(m.ranges[j], address) :: VariableOnly(m.ranges[j])
    requires MEMORY_TYPE_UNCACHEABLE in MatchingTypes(m.ranges, 0, address)
    ensures UncacheablePrecedence(m, address) <==> FirstUncacheableStands(MatchingTypes(m.ranges, 0, address))
  {
    var ts := MatchingTypes(m.ranges, 0, address);
    TypeFromIsFold(m.ranges, 0, MEMORY_TYPE_INVALID, address);
    MatchingAreCovering(m.ranges, 0, address);
    FoldKeepsUncacheable(ts, MEMORY_TYPE_INVALID);
    FoldTypesStaysValid(ts, MEMORY_TYPE_INVALID);
  }

  lemma {:induction false} MatchingAreCovering(ranges: seq<Range>, i: nat, address: nat)
    requires i <= |ranges|
    ensures forall t | t in MatchingTypes(ranges, i, address) ::
      exists j | i <= j < |ranges| :: Covers(ranges[j], address) && ranges[j].memoryType == t
    decreases |ranges| - i
  {
    if i < |ranges| {
      MatchingAreCovering(ranges, i + 1, address);
    }
  }

  lemma {:induction false} VariableRangesAreVariable(vs: seq<VariableRegister>)
    requires forall v | v in vs && v.valid :: v.memoryType != MEMORY_TYPE_INVALID
    ensures forall range | range in VariableRanges(vs) :: VariableOnly(range)
  {
    if vs != [] {
      VariableRangesAreVariable(vs[..|vs| - 1]);
    }
  }

  /** So it is from 1 MB on for every content of the registers, fixed ranges enabled or not; 0xFF is
      no memory type a register may hold. */
  lemma BuiltPrecedenceIff(r: Registers, page: nat)
    requires ReadableRegisters(r) && page >= 256
    requires forall v | v in r.variable && v.valid :: v.memoryType != MEMORY_TYPE_INVALID
    requires MEMORY_TYPE_UNCACHEABLE in MatchingTypes(BuiltMap(r).ranges, 0, page * PAGE_SIZE)
    ensures UncacheablePrecedence(BuiltMap(r), page * PAGE_SIZE) <==>
      FirstUncacheableStands(MatchingTypes(BuiltMap(r).ranges, 0, page * PAGE_SIZE))
  {
    BuiltAboveFixed(r, page * PAGE_SIZE);
    UncacheablePrecedenceIff(BuiltMap(r), page * PAGE_SIZE);
  }

  /** Every fixed range ends below 1 MB, so what covers an address from there on is variable. */
  lemma BuiltAboveFixed(r: Registers, address: nat)
    requires ReadableRegisters(r) && (address >= 0x10_0000 || !r.fixedSupported || !r.fixedEnabled)
    requires forall v | v in r.variable && v.valid :: v.memoryType != MEMORY_TYPE_INVALID
    ensures var ranges := BuiltMap(r).ranges;
      forall j | 0 <= j < |ranges| && Covers(ranges[j], address) :: VariableOnly(ranges[j])
  {
    var ranges, fixed, variable := BuiltMap(r).ranges, FixedRanges(r.fixed), VariableRanges(r.variable);
    VariableRangesAreVariable(r.variable);
    forall j | 0 <= j < |fixed|
      ensures fixed[j].end < 0x10_0000
    {
      FixedEndsBelow(r.fixed, j);
    }
    assert ranges == variable || ranges == [] || (ranges == fixed + variable && address >= 0x10_0000);
    forall j | 0 <= j < |ranges| && Covers(ranges[j], address)
      ensures VariableOnly(ranges[j])
    {
      assert ranges[j] in variable;
    }
  }

  lemma FixedEndsBelow(fixed: seq<seq<Byte>>, n: nat)
    requires |fixed| == 11 && (forall i | 0 <= i < 11 :: |fixed[i]| == 8)
    requires n < FIXED_RANGE_MTRRS_SIZE
    ensures FixedRange(fixed, n).end < 0x10_0000
  {
  }

  // ----- What the variable registers say -----

  /** Bit k is the lowest one set. */
  ghost predicate LowestBit(mask: nat, k: nat) {
    mask % Pow2(k) == 0 && mask / Pow2(k) % 2 == 1
  }

  lemma HalfOfMask(mask: nat, k: nat)
    requires k > 0 && mask % Pow2(k) == 0
    ensures mask % 2 == 0 && mask / 2 % Pow2(k - 1) == 0 && mask / 2 / Pow2(k - 1) == mask / Pow2(k)
  {
    var p, q := Pow2(k - 1), mask / Pow2(k);
    Associate(2, p, q);
    assert mask == 2 * (p * q);
    DivMod(mask / 2, p, q, 0);
  }

  /** What the bit scan of BuildMtrrMap finds. */
  lemma {:induction false} LowestBitIsScanned(mask: nat, k: nat)
    requires LowestBit(mask, k)
    ensures mask > 0 && TrailingZeros(mask) == k
    decreases k
  {
    if k == 0 {
      assert Pow2(0) == 1 && mask / 1 == mask;
    } else {
      HalfOfMask(mask, k);
      LowestBitIsScanned(mask / 2, k - 1);
    }
  }

  /** A page lies in the range of a valid register that is not write-back: from the base page on, as
      many pages as the lowest bit of the mask stands for. */
  ghost predicate LiesIn(v: VariableRegister, page: nat) {
    && v.valid && v.memoryType != MEMORY_TYPE_WRITE_BACK
    && exists k | LowestBit(v.maskPage, k) :: v.basePage <= page < v.basePage + Pow2(k)
  }

  /** Exactly these pages the descriptor made of the register covers. */
  lemma VariableCoversIff(v: VariableRegister, k: nat, page: nat)
    requires LowestBit(v.maskPage, k)
    ensures Covers(VariableRange(v), page * PAGE_SIZE) <==> v.basePage <= page < v.basePage + Pow2(k)
  {
    LowestBitIsScanned(v.maskPage, k);
    Pow2Sum(12, k);
    assert Pow2(12) == 0x1000;
  }

  /** For a base aligned to the size of the range that is the match rule of section 11.11.3 of the
      SDM: page and base agree in all bits from the lowest mask bit on. */
  lemma AlignedBaseMatches(basePage: nat, k: nat, page: nat)
    requires basePage % Pow2(k) == 0
    ensures basePage <= page < basePage + Pow2(k) <==> page / Pow2(k) == basePage / Pow2(k)
  {
    var p, b, q := Pow2(k), basePage / Pow2(k), page / Pow2(k);
    QuotientAndRest(basePage, p);
    QuotientAndRest(page, p);
    Distribute(b, 1, p);
    Distribute(q, 1, p);
    if q > b {
      MulMono(b + 1, q, p, p);
    } else if q < b {
      MulMono(q + 1, b, p, p);
    }
  }

  /** The types of the registers whose range a page lies in, in register order. */
  ghost function TypesOver(vs: seq<VariableRegister>, page: nat): seq<Byte> {
    if vs == [] then []
    else
      var v := vs[|vs| - 1];
      TypesOver(vs[..|vs| - 1], page) + if LiesIn(v, page) then [v.memoryType] else []
  }

  /** The masks of valid registers have a bit set; then the scan is defined. */
  ghost predicate MasksSet(vs: seq<VariableRegister>) {
    forall v | v in vs && v.valid :: exists k :: LowestBit(v.maskPage, k)
  }

  lemma {:induction false} MatchingConcat(a: seq<Range>, b: seq<Range>, i: nat, address: nat)
    requires i <= |a|
    ensures MatchingTypes(a + b, i, address) == MatchingTypes(a, i, address) + MatchingTypes(b, 0, address)
    decreases |a| - i
  {
    if i < |a| {
      MatchingConcat(a, b, i + 1, address);
    } else {
      MatchingSuffix(a, b, 0, address);
    }
  }

  lemma {:induction false} MatchingSuffix(a: seq<Range>, b: seq<Range>, j: nat, address: nat)
    requires j <= |b|
    ensures MatchingTypes(a + b, |a| + j, address) == MatchingTypes(b, j, address)
    decreases |b| - j
  {
    if j < |b| {
      MatchingSuffix(a, b, j + 1, address);
    }
  }

  lemma {:induction false} NothingMatches(ranges: seq<Range>, i: nat, address: nat)
    requires i <= |ranges| && forall j | 0 <= j < |ranges| :: !Covers(ranges[j], address)
    ensures MatchingTypes(ranges, i, address) == []
    decreases |ranges| - i
  {
    if i < |ranges| {
      NothingMatches(ranges, i + 1, address);
    }
  }

  lemma {:induction false} VariableMatches(vs: seq<VariableRegister>, page: nat)
    requires MasksSet(vs)
    ensures MatchingTypes(VariableRanges(vs), 0, page * PAGE_SIZE) == TypesOver(vs, page)
  {
    if vs != [] {
      var front, v := vs[..|vs| - 1], vs[|vs| - 1];
      VariableMatches(front, page);
      OneMatches(v, page);
      MatchingConcat(VariableRanges(front), OneRange(v), 0, page * PAGE_SIZE);
      assert VariableRanges(vs) == VariableRanges(front) + OneRange(v);
    }
  }

  function OneRange(v: VariableRegister): seq<Range> {
    if v.valid && v.memoryType != MEMORY_TYPE_WRITE_BACK then [VariableRange(v)] else []
  }

  lemma OneMatches(v: VariableRegister, page: nat)
    requires v.valid ==> exists k :: LowestBit(v.maskPage, k)
    ensures MatchingTypes(OneRange(v), 0, page * PAGE_SIZE) == if LiesIn(v, page) then [v.memoryType] else []
  {
    if OneRange(v) != [] {
      var k :| LowestBit(v.maskPage, k);
      VariableCoversIff(v, k, page);
      LiesInIff(v, k, page);
      assert MatchingTypes([VariableRange(v)], 1, page * PAGE_SIZE) == [];
    }
  }

  lemma LiesInIff(v: VariableRegister, k: nat, page: nat)
    requires v.valid && v.memoryType != MEMORY_TYPE_WRITE_BACK && LowestBit(v.maskPage, k)
    ensures LiesIn(v, page) <==> v.basePage <= page < v.basePage + Pow2(k)
  {
    forall l | LowestBit(v.maskPage, l)
      ensures l == k
    {
      LowestBitIsScanned(v.maskPage, l);
      LowestBitIsScanned(v.maskPage, k);
    }
  }

  /** No fixed range has a say: the page is not below 1 MB, or the fixed ranges are off. */
  predicate BesideFixed(r: Registers, page: nat) {
    page * 0x1000 >= 0x10_0000 || !r.fixedSupported || !r.fixedEnabled
  }

  lemma BuiltMatches(r: Registers, page: nat)
    requires ReadableRegisters(r) && r.enabled && MasksSet(r.variable) && BesideFixed(r, page)
    ensures MatchingTypes(BuiltMap(r).ranges, 0, page * PAGE_SIZE) == TypesOver(r.variable, page)
  {
    var fixed, variable, address := FixedRanges(r.fixed), VariableRanges(r.variable), page * PAGE_SIZE;
    VariableMatches(r.variable, page);
    assert [] + variable == variable;
    if r.fixedSupported && r.fixedEnabled {
      forall j | 0 <= j < |fixed|
        ensures !Covers(fixed[j], address)
      {
        FixedEndsBelow(r.fixed, j);
      }
      NothingMatches(fixed, 0, address);
      MatchingConcat(fixed, variable, 0, address);
    }
  }

  /** The type that the code gives a page on which the types ts lie: the last of them, except that
      the one behind the first uncacheable type ends the search. */
  function Prevailing(ts: seq<Byte>): Byte
    requires ts != []
  {
    if |ts| == 1 then ts[0]
    else if ts[0] == MEMORY_TYPE_UNCACHEABLE then ts[1]
    else Prevailing(ts[1..])
  }

  lemma {:induction false} FoldIsPrevailing(ts: seq<Byte>, current: Byte)
    requires ts != [] && current != MEMORY_TYPE_UNCACHEABLE
    ensures FoldTypes(ts, current) == Prevailing(ts)
  {
    if |ts| > 1 && ts[0] != MEMORY_TYPE_UNCACHEABLE {
      FoldIsPrevailing(ts[1..], ts[0]);
    }
  }

  /** An uncacheable type that another follows loses to it. */
  lemma {:induction false} PrevailingBehind(ts: seq<Byte>, u: nat)
    requires u + 1 < |ts| && ts[u] == MEMORY_TYPE_UNCACHEABLE && MEMORY_TYPE_UNCACHEABLE !in ts[..u]
    ensures Prevailing(ts) == ts[u + 1]
  {
    if u > 0 {
      assert ts[0] == ts[..u][0];
      assert ts[1..][..u - 1] == ts[..u][1..];
      PrevailingBehind(ts[1..], u - 1);
    }
  }

  /** Without an uncacheable type before the last one the last register wins. */
  lemma {:induction false} PrevailingLast(ts: seq<Byte>)
    requires ts != [] && MEMORY_TYPE_UNCACHEABLE !in ts[..|ts| - 1]
    ensures Prevailing(ts) == ts[|ts| - 1]
  {
    if |ts| > 1 {
      assert ts[0] == ts[..|ts| - 1][0];
      assert ts[1..][..|ts| - 2] == ts[..|ts| - 1][1..];
      PrevailingLast(ts[1..]);
    }
  }

  /** The memory type of every page that no fixed range has a say in, in terms of the registers: with
      no register over it the default type, with one its type, with several the one that prevails.
      With the range registers off everything is uncacheable. */
  lemma BuiltTypeAt(r: Registers, page: nat)
    requires ReadableRegisters(r) && MasksSet(r.variable) && BesideFixed(r, page)
    requires forall v | v in r.variable && v.valid :: v.memoryType != MEMORY_TYPE_INVALID
    ensures var ts := TypesOver(r.variable, page);
      MemoryTypeAt(BuiltMap(r), page * PAGE_SIZE) ==
      if !r.enabled then 0 else if ts == [] then r.defaultType else Prevailing(ts)
  {
    if r.enabled {
      var ranges, address := BuiltMap(r).ranges, page * PAGE_SIZE;
      BuiltMatches(r, page);
      BuiltAboveFixed(r, address);
      TypeFromIsFold(ranges, 0, MEMORY_TYPE_INVALID, address);
      var ts := TypesOver(r.variable, page);
      if ts != [] {
        MatchingAreCovering(ranges, 0, address);
        FoldTypesStaysValid(ts, MEMORY_TYPE_INVALID);
        FoldIsPrevailing(ts, MEMORY_TYPE_INVALID);
      }
    }
  }

  lemma {:induction false} OverNone(vs: seq<VariableRegister>, page: nat)
    requires forall v | v in vs :: !LiesIn(v, page)
    ensures TypesOver(vs, page) == []
  {
    if vs != [] {
      OverNone(vs[..|vs| - 1], page);
    }
  }

  lemma {:induction false} OverOne(vs: seq<VariableRegister>, i: nat, page: nat)
    requires i < |vs| && LiesIn(vs[i], page)
    requires forall j | 0 <= j < |vs| && j != i :: !LiesIn(vs[j], page)
    ensures TypesOver(vs, page) == [vs[i].memoryType]
  {
    var last := |vs| - 1;
    if i < last {
      OverOne(vs[..last], i, page);
    } else {
      OverNone(vs[..last], page);
    }
  }

  /** A page in the range of exactly one register has that register's type, and one in the range of
      none the default type. */
  lemma OneRangeDecides(r: Registers, page: nat, i: nat)
    requires ReadableRegisters(r) && r.enabled && MasksSet(r.variable) && BesideFixed(r, page)
    requires forall v | v in r.variable && v.valid :: v.memoryType != MEMORY_TYPE_INVALID
    ensures (forall v | v in r.variable :: !LiesIn(v, page)) ==>
      MemoryTypeAt(BuiltMap(r), page * PAGE_SIZE) == r.defaultType
    ensures
      (&& i < |r.variable| && LiesIn(r.variable[i], page)
       && forall j | 0 <= j < |r.variable| && j != i :: !LiesIn(r.variable[j], page)) ==>
      MemoryTypeAt(BuiltMap(r), page * PAGE_SIZE) == r.variable[i].memoryType
  {
    BuiltTypeAt(r, page);
    if forall v | v in r.variable :: !LiesIn(v, page) {
      OverNone(r.variable, page);
    } else if i < |r.variable| && LiesIn(r.variable[i], page)
      && forall j | 0 <= j < |r.variable| && j != i :: !LiesIn(r.variable[j], page) {
      OverOne(r.variable, i, page);
    }
  }

  /** Small page i of the large page is covered, and j is not. */
  predicate Splits(range: Range, largePage: nat, i: nat, j: nat) {
    && i < 512 && j < 512
    && Covers(range, (largePage * 512 + i) * PAGE_SIZE) && !Covers(range, (largePage * 512 + j) * PAGE_SIZE)
  }

  /** A range of whole pages straddles a large page exactly when it covers one of its 512 small pages
      and not another. */
  lemma StraddlesIff(range: Range, largePage: nat)
    requires range.base % PAGE_SIZE == 0 && (range.end + 1) % PAGE_SIZE == 0 && range.base < range.end
    ensures Straddles(range, largePage) <==> exists i, j :: Splits(range, largePage, i, j)
  {
    var start := largePage * SIZE_2_MB;
    var first, last := range.base / PAGE_SIZE, range.end / PAGE_SIZE;
    if start <= range.end < start + SIZE_2_MB - 1 {
      assert Splits(range, largePage, last - largePage * 512, 511);
    } else if start < range.base <= start + SIZE_2_MB - 1 {
      assert Splits(range, largePage, first - largePage * 512, 0);
    }
  }

  // ----- Registers for which promises fail -----

  /** Ranges of 1 MB at the given pages, over write-back memory; the fixed ranges are off. */
  function Megabytes(types: seq<Byte>, basePage: nat): Registers {
    Registers(true, MEMORY_TYPE_WRITE_BACK, true, false, seq(11, _ => seq(8, _ => MEMORY_TYPE_WRITE_BACK)),
              seq(|types|, i requires 0 <= i < |types| => VariableRegister(types[i], basePage, true, 0x100, 0)))
  }

  lemma MegabyteRange(memoryType: Byte, basePage: nat)
    ensures VariableRange(VariableRegister(memoryType, basePage, true, 0x100, 0))
         == Range(basePage * PAGE_SIZE, basePage * PAGE_SIZE + 0xFFFFF, memoryType, false)
  {
    assert LowestBit(0x100, 8) by {
      assert Pow2(8) == 0x100;
    }
    LowestBitIsScanned(0x100, 8);
    assert Pow2(20) == 0x10_0000;
  }

  /** An uncacheable megabyte with a write-through one over it is reported write-through. */
  lemma UncacheablePrecedenceFails()
    ensures var r := Megabytes([MEMORY_TYPE_UNCACHEABLE, MEMORY_TYPE_WRITE_THROUGH], 0x100);
      && ReadableRegisters(r)
      && !UncacheablePrecedence(BuiltMap(r), 0x10_0000)
      && MemoryTypeAt(BuiltMap(r), 0x10_0000) == MEMORY_TYPE_WRITE_THROUGH
  {
    var r := Megabytes([MEMORY_TYPE_UNCACHEABLE, MEMORY_TYPE_WRITE_THROUGH], 0x100);
    var vs := r.variable;
    MegabyteRange(MEMORY_TYPE_UNCACHEABLE, 0x100);
    MegabyteRange(MEMORY_TYPE_WRITE_THROUGH, 0x100);
    assert VariableRanges(vs[..1][..0]) == [];
    assert VariableRanges(vs[..1]) == [VariableRange(vs[0])];
    var ranges := BuiltMap(r).ranges;
    assert ranges == [VariableRange(vs[0]), VariableRange(vs[1])];
    assert MatchingTypes(ranges, 2, 0x10_0000) == [];
    assert MatchingTypes(ranges, 1, 0x10_0000) == [MEMORY_TYPE_WRITE_THROUGH];
    assert MatchingTypes(ranges, 0, 0x10_0000)[0] == MEMORY_TYPE_UNCACHEABLE;
    assert TypeFrom(ranges, 1, MEMORY_TYPE_UNCACHEABLE, 0x10_0000) == MEMORY_TYPE_WRITE_THROUGH;
  }

  /** With an uncacheable megabyte at 3 MB the second large page, and not only the first one,
      straddles a range. */
  lemma LaterLargePageStraddles()
    ensures var r := Megabytes([MEMORY_TYPE_UNCACHEABLE], 0x300);
      ReadableRegisters(r) && !ValidForLargePage(BuiltMap(r), 1)
  {
    var r := Megabytes([MEMORY_TYPE_UNCACHEABLE], 0x300);
    MegabyteRange(MEMORY_TYPE_UNCACHEABLE, 0x300);
    assert VariableRanges(r.variable[..0]) == [];
    assert BuiltMap(r).ranges[0] == VariableRange(r.variable[0]);
    assert Straddles(BuiltMap(r).ranges[0], 1);
  }
}
