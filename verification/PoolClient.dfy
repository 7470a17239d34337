/** Allocate and Free as their callers run them (PoolManager.cpp): bounded retry loops around the
    pool's atomic sections. What a section answers at each attempt depends on the other threads,
    so the answers are functions of the attempt's number. */
module PoolClient {
  import opened Wrappers
  import opened Arithmetic
  import opened PoolProtocol
  import opened Spinlock

  const MAX_WAIT_ITERATIONS: nat := 10
  // Attempts and pauses of one retry loop, at most.
  const MAX_ATTEMPTS: nat := 25
  const MAX_PAUSES: nat := 655359

  /** `i` is the first of the attempts 0 to n - 1 that succeeds, or n when none does. */
  ghost predicate IsFirst(succeeds: nat -> bool, n: nat, i: nat) {
    && i <= n && (i < n ==> succeeds(i))
    && forall j: nat | j < i :: !succeeds(j)
  }

  ghost predicate FirstFound(finds: nat -> Option<nat>, n: nat, i: nat) {
    && i <= n && (i < n ==> finds(i).Some?)
    && forall j: nat | j < i :: finds(j).None?
  }

  /** One attempt made beforehand, and failed, moves the first success by one. */
  lemma FirstAfter(f: nat -> bool, later: nat -> bool, n: nat, i: nat)
    requires (forall j: nat :: later(j) == f(j + 1)) && !f(0)
    requires IsFirst(later, n, i)
    ensures IsFirst(f, n + 1, i + 1)
  {
    assert forall j: nat | j < i + 1 :: !f(j) by {
      forall j: nat | j < i + 1
        ensures !f(j)
      {
        assert j > 0 ==> later(j - 1) == f(j - 1 + 1);
      }
    }
  }

  /** The pauses before the first k attempts: 1 + 2 + ... + 32768, then 65536 each. */
  function Pauses(k: nat): nat {
    if k <= 16 then Pow2(k) - 1 else 65535 + (k - 16) * 65536
  }

  lemma PausesStep(k: nat)
    ensures Pauses(k + 1) == Pauses(k) + Wait(k)
  {
    WaitIsPower(k);
    assert Pow2(8) == 256 && Pow2(16) == 65536;
  }

  lemma PausesBound(k: nat)
    requires k <= MAX_ATTEMPTS
    ensures Pauses(k) <= MAX_PAUSES
  {
    if k <= 16 {
      Pow2Grows(k, 16);
      assert Pow2(8) == 256 && Pow2(16) == 65536;
    }
  }

  /** Waits, tries, doubles the wait and counts the attempts at the longest wait. */
  method Retry(answers: nat -> bool) returns (ok: bool, waitCount: nat, attempts: nat, pauses: nat)
    ensures 1 <= attempts <= 25 && pauses == Pauses(attempts) <= 655359
    ensures IsFirst(answers, MAX_ATTEMPTS, if ok then attempts - 1 else attempts)
    ensures ok <==> answers(attempts - 1)
    ensures waitCount == MAX_WAIT_ITERATIONS <==> attempts == MAX_ATTEMPTS
    ensures !ok ==> attempts == 25
  {
    ok, waitCount, attempts, pauses := false, 0, 0, 0;
    var wait: nat := 1;
    while !ok && waitCount < MAX_WAIT_ITERATIONS
      invariant attempts <= MAX_ATTEMPTS && wait == Wait(attempts) && pauses == Pauses(attempts)
      invariant waitCount == if attempts < 16 then 0 else attempts - 15
      invariant attempts > 0 ==> ok == answers(attempts - 1)
      invariant attempts == 0 ==> !ok
      invariant forall k: nat | k < attempts - (if ok then 1 else 0) :: !answers(k)
      decreases MAX_ATTEMPTS - attempts
    {
      for i := 0 to wait
        invariant pauses == Pauses(attempts) + i
      {
        pauses := pauses + 1;
      }
      ok := answers(attempts);
      PausesStep(attempts);
      WaitIsPower(attempts);
      WaitIsPower(attempts + 1);
      wait := Doubled(wait);
      attempts := attempts + 1;
      if wait == MAX_WAIT {
        waitCount := waitCount + 1;
      }
    }
    PausesBound(attempts);
  }

  /** `kind` is None for a value outside the enumeration, `found` the immediate search and
      `inserts(0)` the immediate insertion of the request. The block is the one the first
      successful search finds, provided the request was queued before the last attempt: a request
      queued by that attempt stays in the list while the caller gives up. */
  method Allocate(kind: Option<AllocationType>, found: Option<nat>, inserts: nat -> bool, finds: nat -> Option<nat>)
    returns (allocation: Option<nat>, pauses: nat, ghost queuedAt: nat, ghost foundAt: nat)
    ensures pauses <= 2 * MAX_PAUSES
    ensures kind.None? ==> allocation.None? && pauses == 0
    ensures kind.Some? && found.Some? ==> allocation == found && pauses == 0
    ensures kind.Some? && found.None? ==>
      && IsFirst(inserts, MAX_ATTEMPTS, queuedAt)
      && (queuedAt == MAX_ATTEMPTS ==> allocation.None?)
      && (queuedAt < MAX_ATTEMPTS ==>
            && FirstFound(finds, MAX_ATTEMPTS, foundAt)
            && allocation == if foundAt < MAX_ATTEMPTS then finds(foundAt) else None)
  {
    pauses, queuedAt, foundAt := 0, 0, 0;
    if kind.None? {
      return None, 0, 0, 0;
    }
    if found.Some? {
      return found, 0, 0, 0;
    }
    var queued := inserts(0);
    if !queued {
      var later := (i: nat) => inserts(i + 1);
      var waitCount, attempts;
      queued, waitCount, attempts, pauses := Retry(later);
      FirstAfter(inserts, later, MAX_ATTEMPTS, if queued then attempts - 1 else attempts);
      queuedAt := attempts;
      if waitCount == MAX_WAIT_ITERATIONS {
        return None, pauses, queuedAt, foundAt;
      }
    }
    var searches := (i: nat) => finds(i).Some?;
    var ok, _, last, more := Retry(searches);
    assert forall j: nat :: searches(j) == finds(j).Some?;
    allocation := if ok then finds(last - 1) else None;
    foundAt := if ok then last - 1 else last;
    pauses := pauses + more;
  }

  /** `Free`: whether the request was queued; otherwise the block stays used for good. */
  method Free(address: nat, kind: Option<AllocationType>, inserts: nat -> bool) returns (queued: bool, pauses: nat)
    ensures pauses <= MAX_PAUSES
    ensures queued <==> address != 0 && kind.Some? && exists i: nat | i <= MAX_ATTEMPTS :: inserts(i)
  {
    queued, pauses := false, 0;
    if address == 0 || kind.None? {
      return;
    }
    queued := inserts(0);
    if !queued {
      var later := (i: nat) => inserts(i + 1);
      var waitCount, attempts;
      queued, waitCount, attempts, pauses := Retry(later);
      FirstAfter(inserts, later, MAX_ATTEMPTS, if queued then attempts - 1 else attempts);
      assert queued ==> inserts(attempts);
    }
  }
}
