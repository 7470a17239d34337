/** Split tables as the words of memory they are: what the hardware walk reads, and what the
    operations on the tables store. */
module TableMemory {
  import opened Wrappers
  import opened PageTables

  const FRAMES: nat := 0x10_0000_0000

  // ----- One entry -----

  function Flag(on: bool): nat {
    if on then 1 else 0
  }

  /** The upper half of an EPTE: the frame in 36 bits, 15 reserved ones, suppress-#VE. */
  function UpperBits(e: Pte): (u: nat)
    ensures u < 0x10_0000_0000_0000
  {
    e.frame % FRAMES + FRAMES * (0x8000 * Flag(e.suppressVe))
  }

  /** From bit 3 on: the memory type in three bits, ignore-PAT, five bits that are left zero, and
      from bit 12 on the upper half. */
  function Attributes(e: Pte): (a: nat)
    ensures a < 0x2000_0000_0000_0000
  {
    e.memoryType % 8 + 8 * (Flag(e.ignorePat) + 2 * (32 * UpperBits(e)))
  }

  /** The 64 bits of an EPTE: the three rights come first. */
  function Word(e: Pte): U64 {
    Flag(e.read) + 2 * (Flag(e.write) + 2 * (Flag(e.execute) + 2 * Attributes(e)))
  }

  /** Where each field lies in the 64 bits. */
  lemma WordLayout(e: Pte)
    requires Encodable(e)
    ensures Word(e) ==
      (if e.read then 1 else 0) + (if e.write then 2 else 0) + (if e.execute then 4 else 0)
      + 8 * e.memoryType + (if e.ignorePat then 0x40 else 0) + 0x1000 * e.frame
      + if e.suppressVe then 0x8000_0000_0000_0000 else 0
  {
  }

  function WithAttributes(read: bool, write: bool, execute: bool, attributes: nat): Pte {
    var upper := attributes / 8 / 2 / 32;
    Pte(read, write, execute, attributes % 8, attributes / 8 % 2 == 1,
        upper % FRAMES, upper / FRAMES / 0x8000 % 2 == 1)
  }

  function EntryOf(word: nat): Pte {
    WithAttributes(word % 2 == 1, word / 2 % 2 == 1, word / 2 / 2 % 2 == 1, word / 2 / 2 / 2)
  }

  predicate Encodable(e: Pte) {
    e.memoryType < 8 && e.frame < FRAMES
  }

  lemma FlagReadsBack(on: bool, rest: nat)
    ensures var word := Flag(on) + 2 * rest;
      (word % 2 == 1 <==> on) && word / 2 == rest
  {
  }

  lemma TypeReadsBack(memoryType: nat, rest: nat)
    ensures var word := memoryType % 8 + 8 * rest;
      word % 8 == memoryType % 8 && word / 8 == rest
  {
  }

  lemma UpperReadsBack(e: Pte)
    ensures var upper := UpperBits(e);
      upper % FRAMES == e.frame % FRAMES && (upper / FRAMES / 0x8000 % 2 == 1 <==> e.suppressVe)
  {
    assert (0x8000 * Flag(e.suppressVe)) / 0x8000 == Flag(e.suppressVe);
  }

  lemma RightsReadBack(read: bool, write: bool, execute: bool, rest: nat)
    ensures var word := Flag(read) + 2 * (Flag(write) + 2 * (Flag(execute) + 2 * rest));
      && (word % 2 == 1 <==> read) && (word / 2 % 2 == 1 <==> write) && (word / 2 / 2 % 2 == 1 <==> execute)
      && word / 2 / 2 / 2 == rest
  {
    FlagReadsBack(read, Flag(write) + 2 * (Flag(execute) + 2 * rest));
    FlagReadsBack(write, Flag(execute) + 2 * rest);
    FlagReadsBack(execute, rest);
  }

  lemma AttributesReadBack(e: Pte)
    requires Encodable(e)
    ensures WithAttributes(e.read, e.write, e.execute, Attributes(e)) == e
  {
    TypeReadsBack(e.memoryType, Flag(e.ignorePat) + 2 * (32 * UpperBits(e)));
    FlagReadsBack(e.ignorePat, 32 * UpperBits(e));
    assert (32 * UpperBits(e)) / 32 == UpperBits(e);
    UpperReadsBack(e);
  }

  /** An entry with a frame of 36 bits and a memory type of 3 survives its encoding. */
  lemma WordReadsBack(e: Pte)
    requires Encodable(e)
    ensures EntryOf(Word(e)) == e
  {
    RightsReadBack(e.read, e.write, e.execute, Attributes(e));
    AttributesReadBack(e);
  }

  /** What is left of an entry in zeroed memory grants nothing. */
  lemma ZeroWord()
    ensures EntryOf(0) == Pte(false, false, false, 0, false, 0, false)
  {
  }

  // ----- Whole tables -----

  /** The 512 entries at the start of a block. */
  function EntriesOf(words: seq<nat>): (es: seq<Pte>)
    ensures |es| == 512
  {
    seq(512, i requires 0 <= i => EntryOf(if i < |words| then words[i] else 0))
  }

  /** The tables as the hardware finds them: the split ones are what their memory says. */
  function SeenTables(t: Tables, memory: map<nat, seq<nat>>): (u: Tables)
    requires WellSized(t)
    ensures WellSized(u) && u.pml1.Keys == t.pml1.Keys
  {
    t.(pml1 := map f | f in t.pml1 :: EntriesOf(if f in memory then memory[f] else []))
  }

  /** The memory of every split table says what the table holds. */
  ghost predicate Backed(t: Tables, memory: map<nat, seq<nat>>) {
    forall f | f in t.pml1 :: f in memory && EntriesOf(memory[f]) == t.pml1[f]
  }

  lemma BackedIsSeen(t: Tables, memory: map<nat, seq<nat>>)
    requires WellSized(t) && Backed(t, memory)
    ensures SeenTables(t, memory) == t
  {
    assert SeenTables(t, memory).pml1 == t.pml1;
  }

  /** An operation stores the entries it has changed, and those of a new table all. */
  function StoredWords(words: seq<nat>, before: seq<Pte>, after: seq<Pte>): (ws: seq<nat>)
    ensures |ws| == |words|
  {
    seq(|words|, i requires 0 <= i < |words| =>
      if i < |after| && (i >= |before| || before[i] != after[i]) then Word(after[i]) else words[i])
  }

  function Stored(
      memory: map<nat, seq<nat>>, before: map<nat, seq<Pte>>, after: map<nat, seq<Pte>>): (u: map<nat, seq<nat>>)
    ensures u.Keys == memory.Keys && forall f | f in memory :: |u[f]| == |memory[f]|
  {
    map f | f in memory ::
      if f in after then StoredWords(memory[f], if f in before then before[f] else [], after[f]) else memory[f]
  }

  /** What was stored is what is found. */
  lemma StoredIsBacked(memory: map<nat, seq<nat>>, before: Tables, after: Tables)
    requires WellSized(before) && WellSized(after)
    requires forall f | f in before.pml1 && f in after.pml1 :: f in memory && EntriesOf(memory[f]) == before.pml1[f]
    requires forall f | f in after.pml1 :: f in memory && |memory[f]| >= 512
    requires forall f, i | f in after.pml1 && 0 <= i < 512 :: Encodable(after.pml1[f][i])
    ensures Backed(after, Stored(memory, before.pml1, after.pml1))
  {
    forall f | f in after.pml1
      ensures EntriesOf(Stored(memory, before.pml1, after.pml1)[f]) == after.pml1[f]
    {
      forall i | 0 <= i < 512
        ensures EntryOf(Stored(memory, before.pml1, after.pml1)[f][i]) == after.pml1[f][i]
      {
        WordReadsBack(after.pml1[f][i]);
        assert f in before.pml1 ==> EntriesOf(memory[f])[i] == before.pml1[f][i];
      }
    }
  }
}
