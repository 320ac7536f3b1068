/** The two waiting loops of mcp/salt-formulas/salt-formula-maas/_modules/maasng.py that poll a
    condition under a time limit. `elapsed(k)` is the time read after the k-th unsuccessful check. */
module PollingLoops {
  import opened Common

  const POLL_TIME := 5

  /** Every sleep lets at least the poll time pass. */
  ghost predicate ClockAdvances(elapsed: nat -> int) {
    && elapsed(0) >= 0
    && forall k: nat, next: nat :: next == k + 1 ==> elapsed(next) >= elapsed(k) + POLL_TIME
  }

  lemma {:induction false} ClockLowerBound(elapsed: nat -> int, k: nat)
    requires ClockAdvances(elapsed)
    ensures elapsed(k) >= POLL_TIME * k
  {
    if k > 0 { ClockLowerBound(elapsed, k - 1); }
  }

  /** `wait_for_http_code`: two minutes for an expected answer. */
  method WaitForHttpCode(code: nat -> int, expected: set<int>, elapsed: nat -> int) returns (up: bool, checks: nat)
    requires ClockAdvances(elapsed)
    ensures 1 <= checks <= 25
    ensures up <==> code(checks - 1) in expected
    ensures forall k :: 0 <= k < checks - 1 ==> code(k) !in expected && elapsed(k) < 120
    ensures !up ==> elapsed(checks - 1) >= 120
  {
    var k := 0;
    while code(k) !in expected
      invariant k <= 24
      invariant forall j :: 0 <= j < k ==> code(j) !in expected && elapsed(j) < 120
      decreases 25 - k
    {
      ClockLowerBound(elapsed, k);
      if 120 - elapsed(k) <= 0 { return false, k + 1; }
      k := k + 1;
    }
    return true, k + 1;
  }

  /** `boot_resources_is_importing(wait=True)`: a quarter of an hour for the import to finish. The
      value returned in time is a fresh reading, which may again be positive. */
  method WaitForImport(importing: nat -> bool, elapsed: nat -> int) returns (reading: Option<bool>, checks: nat)
    requires ClockAdvances(elapsed)
    ensures 1 <= checks <= 181
    ensures forall k :: 0 <= k < checks - 1 ==> importing(k) && elapsed(k) < 900
    ensures reading.None? <==> importing(checks - 1)
    ensures reading.None? ==> elapsed(checks - 1) >= 900
    ensures reading.Some? ==> reading.value == importing(checks)
  {
    var k := 0;
    while importing(k)
      invariant k <= 180
      invariant forall j :: 0 <= j < k ==> importing(j) && elapsed(j) < 900
      decreases 181 - k
    {
      ClockLowerBound(elapsed, k);
      if 900 - elapsed(k) <= 0 { return None, k + 1; }
      k := k + 1;
    }
    return Some(importing(k + 1)), k + 1;
  }
}
