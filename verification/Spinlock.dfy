/** The test-and-set lock with backoff (Spinlock.cpp): the class itself, and any number of
    threads interleaving its three atomic accesses to the lock word. */
module Spinlock {
  import opened Wrappers
  import opened Arithmetic

  const MAX_WAIT: nat := 65536

  // ----- Backoff -----

  /** `wait * 2 > MAX_WAIT ? MAX_WAIT : wait * 2` */
  function Doubled(wait: nat): nat {
    if wait * 2 > MAX_WAIT then MAX_WAIT else wait * 2
  }

  /** The wait before attempt k. */
  function Wait(k: nat): nat {
    if k == 0 then 1 else Doubled(Wait(k - 1))
  }

  lemma FifteenAndSixteen()
    ensures Pow2(15) == 32768 && Pow2(16) == 65536
  {
    assert Pow2(5) == 32;
    assert Pow2(10) == 32 * Pow2(5);
    assert Pow2(15) == 32 * Pow2(10);
  }

  /** The wait is always a power of two, at most 65536, and stays there from attempt 16 on; the
      doubled value fits 32 bits. */
  lemma {:induction false} WaitIsPower(k: nat)
    ensures Wait(k) == Pow2(if k < 16 then k else 16)
    ensures Wait(k) <= MAX_WAIT && Wait(k) * 2 < 0x1_0000_0000
    ensures Wait(k) == MAX_WAIT <==> k >= 16
  {
    FifteenAndSixteen();
    if k > 0 {
      WaitIsPower(k - 1);
      if k < 16 {
        Pow2Grows(k, 15);
      } else if k == 16 {
        assert Wait(15) == 32768;
      }
    }
  }

  // ----- The class -----

  class Spinlock {
    var lock: int

    constructor ()
      ensures lock == 0
    {
      lock := 0;
    }

    method InterlockedExchange(value: int) returns (previous: int)
      modifies this
      ensures previous == old(lock) && lock == value
    {
      previous, lock := lock, value;
    }

    /** One attempt: the exchange has to find 0, and the word must not be 0 afterwards. */
    method DoLock() returns (locked: bool)
      modifies this
      ensures locked <==> old(lock) == 0
      ensures lock == 1
    {
      var previous := InterlockedExchange(1);
      locked := previous == 0 && lock != 0;
    }

    /** `observed(k)` is the lock word as the other threads left it before attempt k. The lock is
        taken at the first attempt that finds it free; after `budget` attempts that all found it
        taken the loop is still spinning. */
    method Lock(observed: nat -> int, budget: nat) returns (locked: bool, attempts: nat, wait: nat)
      modifies this
      ensures locked ==> 0 < attempts <= budget && lock == 1 && observed(attempts - 1) == 0
      ensures locked ==> forall k: nat | k < attempts - 1 :: observed(k) != 0
      ensures !locked ==> attempts == budget && forall k: nat | k < budget :: observed(k) != 0
      ensures !locked ==> wait == Wait(attempts)
    {
      wait := 1;
      attempts := 0;
      locked := false;
      while !locked && attempts < budget
        invariant attempts <= budget && (locked || wait == Wait(attempts))
        invariant forall k: nat | k < attempts - (if locked then 1 else 0) :: observed(k) != 0
        invariant locked ==> attempts > 0 && lock == 1 && observed(attempts - 1) == 0
      {
        lock := observed(attempts);
        locked := DoLock();
        attempts := attempts + 1;
        if !locked {
          WaitIsPower(attempts - 1);
          wait := Doubled(wait);
        }
      }
    }

    method Unlock()
      modifies this
      ensures lock == 0
    {
      lock := 0;
    }
  }

  // ----- Any number of threads -----

  /** Between attempts a thread waits; after a winning exchange it re-reads the word. */
  datatype Phase = Outside | Trying(attempt: nat) | Won(attempt: nat) | Critical

  datatype System = System(lock: int, threads: seq<Phase>)

  datatype Access = Start(thread: nat) | Exchange(thread: nat) | Reread(thread: nat) | Release(thread: nat)

  predicate Possible(s: System, a: Access) {
    && a.thread < |s.threads|
    && match a
       case Start(t) => s.threads[t].Outside?
       case Exchange(t) => s.threads[t].Trying?
       case Reread(t) => s.threads[t].Won?
       case Release(t) => s.threads[t].Critical?
  }

  function Next(s: System, a: Access): System
    requires Possible(s, a)
  {
    var t := a.thread;
    match a
    case Start(_) => s.(threads := s.threads[t := Trying(0)])
    case Exchange(_) =>
      System(1, s.threads[t := if s.lock == 0 then Won(s.threads[t].attempt) else Trying(s.threads[t].attempt + 1)])
    case Reread(_) =>
      s.(threads := s.threads[t := if s.lock != 0 then Critical else Trying(s.threads[t].attempt + 1)])
    case Release(_) => System(0, s.threads[t := Outside])
  }

  predicate Holds(p: Phase) {
    p.Won? || p.Critical?
  }

  /** At most one thread holds the lock, and the word is 0 exactly when none does. */
  ghost predicate Exclusive(s: System) {
    && (forall i, j | 0 <= i < j < |s.threads| :: !(Holds(s.threads[i]) && Holds(s.threads[j])))
    && (s.lock == 0 <==> forall i | 0 <= i < |s.threads| :: !Holds(s.threads[i]))
  }

  lemma AccessKeepsExclusive(s: System, a: Access)
    requires Exclusive(s) && Possible(s, a)
    ensures Exclusive(Next(s, a))
    ensures a.Reread? ==> Next(s, a).threads[a.thread] == Critical
  {
    var u := Next(s, a);
    assert forall i | 0 <= i < |s.threads| && i != a.thread :: u.threads[i] == s.threads[i];
    assert Holds(s.threads[a.thread]) ==>
      forall i | 0 <= i < |s.threads| && i != a.thread :: !Holds(s.threads[i]);
    if s.lock != 0 {
      var j :| 0 <= j < |s.threads| && Holds(s.threads[j]);
      assert j != a.thread ==> u.threads[j] == s.threads[j];
    }
    assert Holds(u.threads[a.thread]) || !Holds(u.threads[a.thread]);
  }

  ghost predicate PossibleRun(s: System, run: seq<Access>)
    decreases |run|
  {
    run != [] ==> Possible(s, run[0]) && PossibleRun(Next(s, run[0]), run[1..])
  }

  ghost function After(s: System, run: seq<Access>): System
    requires PossibleRun(s, run)
    decreases |run|
  {
    if run == [] then s else After(Next(s, run[0]), run[1..])
  }

  function Fresh(n: nat): System {
    System(0, seq(n, _ => Outside))
  }

  lemma {:induction false} RunKeepsExclusive(s: System, run: seq<Access>)
    requires Exclusive(s) && PossibleRun(s, run)
    ensures Exclusive(After(s, run))
    decreases |run|
  {
    if run != [] {
      AccessKeepsExclusive(s, run[0]);
      RunKeepsExclusive(Next(s, run[0]), run[1..]);
    }
  }

  /** Mutual exclusion for any number of threads and any interleaving; a thread that won the
      exchange always finds the word nonzero again; and when nobody holds the lock the next
      exchange wins it. */
  lemma MutualExclusion(n: nat, run: seq<Access>, i: nat, j: nat)
    requires PossibleRun(Fresh(n), run)
    requires i < |After(Fresh(n), run).threads| && j < |After(Fresh(n), run).threads|
    ensures var s := After(Fresh(n), run);
      && (s.threads[i].Critical? && s.threads[j].Critical? ==> i == j)
      && (s.threads[i].Won? ==> s.lock != 0)
      && (s.lock == 0 <==> forall k | 0 <= k < |s.threads| :: !Holds(s.threads[k]))
      && (s.lock == 0 && s.threads[i].Trying? ==> Next(s, Exchange(i)).threads[i].Won?)
  {
    RunKeepsExclusive(Fresh(n), run);
    var s := After(Fresh(n), run);
    assert s.threads[i].Won? ==> Holds(s.threads[i]);
    assert Holds(s.threads[i]) && Holds(s.threads[j]) ==> !(i < j) && !(j < i);
  }
}
