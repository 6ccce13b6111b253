/** The downward scan for the kernel image (src/os/windows/kernel.rs). */
module KernelScan {
  import opened Base
  import opened PhysicalMemory

  /** The scan stays within the 2^48 bytes that hold its start. */
  const REGION: nat := 0x1_0000_0000_0000

  datatype ScanError<E> = ProbeFailed(error: E) | NotFound

  /** Clearing the low bits of an address, for a power of two. */
  function AlignDown(x: Address, size: nat): (r: Address)
    requires size > 0
    ensures r % size == 0 && r <= x < r + size
  {
    AlignedQuotient(x, size);
    size * (x / size)
  }

  lemma AlignedQuotient(x: nat, size: nat)
    requires size > 0
    ensures 0 <= size * (x / size) <= x < size * (x / size) + size
    ensures size * (x / size) % size == 0
  {
    var q := x / size;
    assert x == size * q + x % size;
    QuotientUnique(size * q, size, q, 0);
  }

  predicate ScanStep(step: nat) {
    exists k: nat :: k <= 48 && step == Pow2(k)
  }

  /** Both the scan step and the region are powers of two. */
  lemma StepDivides(step: nat)
    requires ScanStep(step)
    ensures step > 0 && REGION % step == 0 && ADDRESS_SPACE % step == 0 && step <= REGION
  {
    var k: nat :| k <= 48 && step == Pow2(k);
    RegionPower();
    Pow2Add(k, 48 - k);
    Factor(REGION, step, Pow2(48 - k));
    Pow2Add(k, 64 - k);
    Factor(ADDRESS_SPACE, step, Pow2(64 - k));
  }

  lemma Factor(x: nat, s: nat, c: nat)
    requires s > 0 && c > 0 && x == s * c
    ensures x % s == 0 && s <= x
  {
    QuotientUnique(x, s, c, 0);
    Scale(s, c);
  }

  lemma RegionPower()
    ensures Pow2(48) == REGION && Pow2(64) == ADDRESS_SPACE
  {
    hide Pow2;
    EighthPower();
    Pow2Add(8, 8);
    Pow2Add(16, 16);
    Pow2Add(32, 16);
    Pow2Add(48, 16);
  }

  /** The address of probe `i`; the subtraction wraps. */
  function Probed(start: Address, step: nat, i: nat): Address
    requires step > 0
  {
    (AlignDown(start, step) - i * step) % ADDRESS_SPACE
  }

  function Stop(start: Address): Address {
    AlignDown(start, REGION)
  }

  /** Probes before the guard fails, for a start above the first region. */
  function Probes(start: Address, step: nat): nat
    requires step > 0
  {
    start % REGION / step + 1
  }

  /** Above the first region nothing wraps: the guard holds for exactly that many probes. */
  lemma ScanRange(start: Address, step: nat, i: nat)
    requires ScanStep(step) && start >= REGION && i <= Probes(start, step)
    ensures step > 0 && Probed(start, step, i) == AlignDown(start, step) - i * step
    ensures Probed(start, step, i) >= Stop(start) <==> i < Probes(start, step)
  {
    StepDivides(step);
    AlignedTogether(start, step);
    AboveRegion(start);
    hide AlignDown;
    StepsWithin(start % REGION / step, i, step);
  }

  lemma StepsWithin(n: nat, i: nat, step: nat)
    requires i <= n + 1
    ensures i <= n ==> 0 <= i * step <= n * step
    ensures i == n + 1 ==> i * step == n * step + step
  {
    if i <= n {
      Monotone(i, n, step);
      Monotone(0, i, step);
    }
  }

  lemma AboveRegion(start: Address)
    requires start >= REGION
    ensures Stop(start) >= REGION
  {
  }

  /** The aligned start is the region's base plus whole steps. */
  lemma AlignedTogether(start: Address, step: nat)
    requires step > 0 && REGION % step == 0
    ensures AlignDown(start, step) == Stop(start) + start % REGION / step * step
  {
    var q, r := start / REGION, start % REGION;
    var c := REGION / step;
    assert REGION == step * c;
    assert start == step * (c * q + r / step) + r % step by {
      assert (step * c) * q == step * (c * q);
      assert r == step * (r / step) + r % step;
    }
    QuotientUnique(start, step, c * q + r / step, r % step);
    assert step * (c * q + r / step) == (step * c) * q + r / step * step;
  }

  /** The guard can fail, so that the kernel can be reported missing, exactly when the scan starts above the first
      region: below it the stop address is zero and the subtraction wraps past it. */
  lemma GuardFailsIff(start: Address, step: nat)
    requires ScanStep(step)
    ensures step > 0
    ensures (exists i: nat :: Probed(start, step, i) < Stop(start)) <==> start >= REGION
  {
    StepDivides(step);
    if start >= REGION {
      ScanRange(start, step, Probes(start, step));
      assert Probed(start, step, Probes(start, step)) < Stop(start);
    } else {
      assert start / REGION == 0;
    }
  }

  /** An aligned address of the scanned range. */
  predicate Candidate(start: Address, step: nat, b: Address)
    requires step > 0
  {
    Stop(start) <= b <= start && b % step == 0
  }

  predicate Passed<E(==)>(probe: Address -> Result<bool, E>, start: Address, step: nat, n: nat)
    requires step > 0
  {
    forall i: nat :: i < n ==> probe(Probed(start, step, i)) == Ok(false)
  }

  ghost predicate Terminates<E>(probe: Address -> Result<bool, E>, start: Address, step: nat)
    requires step > 0
  {
    start >= REGION || exists i: nat :: probe(Probed(start, step, i)) != Ok(false)
  }

  /** `find_kernel`: the first probe that hits or fails decides; otherwise the kernel is not found. */
  method FindKernel<E>(probe: Address -> Result<bool, E>, start: Address, step: nat)
    returns (r: Result<Address, ScanError<E>>, ghost n: nat)
    requires ScanStep(step) && step > 0
    requires Terminates(probe, start, step)
    ensures Passed(probe, start, step, n)
    ensures start >= REGION ==> n <= Probes(start, step)
    ensures r.Ok? ==> r.value == Probed(start, step, n) && probe(r.value) == Ok(true)
    ensures r.Ok? && start >= REGION ==> n < Probes(start, step)
    ensures r.Ok? && start >= REGION ==>
              forall b: Address :: Candidate(start, step, b) && probe(b) == Ok(true) ==> b <= r.value
    ensures r.Err? && r.error.NotFound? ==> forall b: Address :: Candidate(start, step, b) ==> probe(b) == Ok(false)
    ensures r.Err? && r.error.NotFound? ==> start >= REGION && n == Probes(start, step)
    ensures r.Err? && r.error.ProbeFailed? ==> probe(Probed(start, step, n)) == Err(r.error.error)
  {
    hide Probed, AlignDown, ScanStep, Probes, Passed;
    var scan := AlignDown(start, step);
    var stop := Stop(start);
    n := 0;
    ghost var bound := ProbeBound(probe, start, step);
    FirstProbe(probe, start, step);
    while scan >= stop
      invariant scan == Probed(start, step, n)
      invariant Passed(probe, start, step, n)
      invariant n <= bound
      decreases bound - n
    {
      InRange(probe, start, step, n, bound);
      var hit := probe(scan);
      if hit.Err? {
        return Err(ProbeFailed(hit.error)), n;
      }
      if hit.value {
        forall b: Address | start >= REGION && Candidate(start, step, b) && probe(b) == Ok(true)
          ensures b <= scan
        {
          HitIsGreatest(probe, start, step, n, b);
        }
        return Ok(scan), n;
      }
      NextProbe(start, step, n);
      OneMore(probe, start, step, n);
      scan := (scan - step) % ADDRESS_SPACE;
      n := n + 1;
    }
    GuardFailsIff(start, step);
    ScanRange(start, step, n);
    forall b: Address | Candidate(start, step, b)
      ensures probe(b) == Ok(false)
    {
      NoneInRange(probe, start, step, b);
    }
    r := Err(NotFound);
  }

  /** A probe index the loop never passes: the end of the range, or else the first probe that decides. */
  ghost function ProbeBound<E>(probe: Address -> Result<bool, E>, start: Address, step: nat): (b: nat)
    requires step > 0 && Terminates(probe, start, step)
    ensures start >= REGION ==> b == Probes(start, step)
    ensures start < REGION ==> probe(Probed(start, step, b)) != Ok(false)
  {
    if start >= REGION then Probes(start, step)
    else
      var i: nat :| probe(Probed(start, step, i)) != Ok(false);
      i
  }

  lemma FirstProbe<E>(probe: Address -> Result<bool, E>, start: Address, step: nat)
    requires step > 0
    ensures Probed(start, step, 0) == AlignDown(start, step) && Passed(probe, start, step, 0)
  {
  }

  /** While the guard holds and no probe has decided, the bound is not reached, or this probe decides. */
  lemma InRange<E>(probe: Address -> Result<bool, E>, start: Address, step: nat, n: nat, bound: nat)
    requires step > 0 && ScanStep(step) && Terminates(probe, start, step)
    requires bound == ProbeBound(probe, start, step) && n <= bound
    requires Probed(start, step, n) >= Stop(start)
    ensures n < bound || probe(Probed(start, step, n)) != Ok(false)
    ensures start >= REGION ==> n < Probes(start, step)
  {
    if start >= REGION {
      ScanRange(start, step, n);
    }
  }

  lemma OneMore<E>(probe: Address -> Result<bool, E>, start: Address, step: nat, n: nat)
    requires step > 0 && Passed(probe, start, step, n) && probe(Probed(start, step, n)) == Ok(false)
    ensures Passed(probe, start, step, n + 1)
  {
    hide Probed;
  }

  lemma NextProbe(start: Address, step: nat, i: nat)
    requires step > 0
    ensures (Probed(start, step, i) - step) % ADDRESS_SPACE == Probed(start, step, i + 1)
  {
    var x := AlignDown(start, step) - i * step;
    assert AlignDown(start, step) - (i + 1) * step == x - step;
    var q := x / ADDRESS_SPACE;
    assert x == ADDRESS_SPACE * q + x % ADDRESS_SPACE;
  }

  /** A hit is the greatest aligned address of the range that passes the check. */
  lemma HitIsGreatest<E>(probe: Address -> Result<bool, E>, start: Address, step: nat, n: nat, b: Address)
    requires ScanStep(step) && step > 0 && start >= REGION && n < Probes(start, step)
    requires Passed(probe, start, step, n)
    requires Candidate(start, step, b) && probe(b) == Ok(true)
    ensures b <= Probed(start, step, n)
  {
    var i := StepsDown(start, step, b);
    ScanRange(start, step, n);
    if i < n {
      ScanRange(start, step, i);
      assert false;
    } else {
      Monotone(n, i, step);
    }
  }

  /** An aligned address at or below the start is a whole number of steps down. */
  lemma StepsDown(start: Address, step: nat, b: Address) returns (i: nat)
    requires step > 0 && b <= start && b % step == 0
    ensures b == AlignDown(start, step) - i * step
  {
    var p, q := start / step, b / step;
    assert b == step * q;
    assert step * (q - p) == step * q - step * p;
    if q > p {
      Scale(step, q - p);
    }
    i := p - q;
    assert step * p - (p - q) * step == step * q;
  }

  lemma Monotone(n: nat, i: nat, step: nat)
    requires n <= i
    ensures n * step <= i * step
  {
  }

  /** No aligned address of the range passes the check when every probe of the range failed it. */
  lemma NoneInRange<E>(probe: Address -> Result<bool, E>, start: Address, step: nat, b: Address)
    requires ScanStep(step) && step > 0 && start >= REGION
    requires Passed(probe, start, step, Probes(start, step))
    requires Candidate(start, step, b)
    ensures probe(b) == Ok(false)
  {
    var i := StepsDown(start, step, b);
    var n := Probes(start, step);
    ScanRange(start, step, n);
    if i >= n {
      Monotone(n, i, step);
    } else {
      ScanRange(start, step, i);
    }
  }
}
