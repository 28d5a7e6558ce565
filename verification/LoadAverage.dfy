/** The load average of the feedback-queue scheduler, in 17.14 fixed point on 32-bit integers. */
module LoadAverage {
  import opened Division

  /** One, in fixed point. */
  const F: int := 0x4000

  function IntToFp(n: int): int { Wrap32(n * F) }

  /** The product is taken in 64 bits, divided toward zero and cut back to 32. */
  function MulFp(x: int, y: int): int { Wrap32(Quotient(Wrap64(x * y), F)) }

  function DivFp(x: int, y: int): int
    requires y != 0
  {
    Wrap32(Quotient(Wrap64(x * F), y))
  }

  function AddFp(x: int, y: int): int { Wrap32(x + y) }

  function MulFpInt(x: int, n: int): int { Wrap32(x * n) }

  /** The once-a-second update. */
  function NextLoad(load: int, ready: nat): int {
    AddFp(MulFp(DivFp(IntToFp(59), IntToFp(60)), load), MulFpInt(DivFp(IntToFp(1), IntToFp(60)), ready))
  }

  // ------------------------------------------------------------------ whole runs

  /** The kernel's value after updates that saw these many ready threads, the oldest first. */
  function Load(ready: seq<nat>): int {
    if ready == [] then 0 else NextLoad(Load(ready[..|ready| - 1]), ready[|ready| - 1])
  }

  /** The value of the exact recurrence, in the same units. */
  function Exact(ready: seq<nat>): real {
    if ready == [] then 0.0
    else 59.0 / 60.0 * Exact(ready[..|ready| - 1]) + ready[|ready| - 1] as real * F as real / 60.0
  }

  /** With the coefficients as the macros round them, and nothing overflowing. */
  lemma NextLoadRounded(load: int, ready: nat, most: nat)
    requires 0 <= load <= most * F && ready <= most <= 131071
    ensures NextLoad(load, ready) == 16110 * load / F + 273 * ready <= most * F
  {
    Coefficients();
    Decayed(load);
    assert MulFpInt(273, ready) == 273 * ready;
  }

  lemma Coefficients()
    ensures DivFp(IntToFp(59), IntToFp(60)) == 16110 && DivFp(IntToFp(1), IntToFp(60)) == 273
  {
    assert IntToFp(59) == 59 * F && IntToFp(60) == 60 * F && IntToFp(1) == F;
    assert DivFp(59 * F, 60 * F) == 16110 && DivFp(F, 60 * F) == 273;
  }

  lemma Decayed(load: int)
    requires 0 <= load <= 131071 * F
    ensures MulFp(16110, load) == 16110 * load / F
  {
    assert Wrap64(16110 * load) == 16110 * load;
  }

  /** What one update adds to the error. */
  lemma ErrorStep(x: int, y: real, r: nat, most: nat, bound: real)
    requires 0 <= x <= most * F && r <= most && bound == 60.0 * (most as real + 1.0)
    requires x as real <= y < x as real + bound
    ensures var x' := 16110 * x / F + 273 * r;
            var y' := 59.0 / 60.0 * y + r as real * F as real / 60.0;
            x' as real <= y' < x' as real + bound
  {
    var low := 16110 * x / F;
    assert low * F <= 16110 * x < low * F + F;
    var lowR, xR, rR, mR := low as real, x as real, r as real, most as real;
    assert lowR * 16384.0 <= 16110.0 * xR < lowR * 16384.0 + 16384.0;
    assert xR <= mR * 16384.0;
    assert (low + 273 * r) as real == lowR + 273.0 * rR;
    var y' := 59.0 / 60.0 * y + rR * 16384.0 / 60.0;
    assert 60.0 * y' == 59.0 * y + 16384.0 * rR;
  }

  predicate AtMost(ready: seq<nat>, most: nat) {
    forall i | 0 <= i < |ready| :: ready[i] <= most
  }

  /** For every run length: the value stays in range, never exceeds the exact one and trails it by
      less than 60(R+1) units of 2^-14. */
  lemma {:induction false} LoadTracksExact(ready: seq<nat>, most: nat)
    requires most <= 131071 && AtMost(ready, most)
    ensures 0 <= Load(ready) <= most * F
    ensures Load(ready) as real <= Exact(ready) < Load(ready) as real + 60.0 * (most as real + 1.0)
  {
    if ready != [] {
      var before, r := ready[..|ready| - 1], ready[|ready| - 1];
      LoadTracksExact(before, most);
      assert ready[|ready| - 1] <= most;
      NextLoadRounded(Load(before), r, most);
      ErrorStep(Load(before), Exact(before), r, most, 60.0 * (most as real + 1.0));
    }
  }

  // ------------------------------------------------------------------ what users see

  function FpToIntRound(x: int): int {
    if x >= 0 then Quotient(Wrap32(x + F / 2), F) else Quotient(Wrap32(x - F / 2), F)
  }

  /** The system call reports a hundred times the load average. */
  function GetLoadAvg(load: int): int { FpToIntRound(MulFpInt(load, 100)) }

  /** Up to 1310 ready threads the report is the nearest integer, so it too tracks the exact value. */
  lemma ReportTracksExact(ready: seq<nat>, most: nat)
    requires most <= 1310 && AtMost(ready, most)
    ensures var report, exact := GetLoadAvg(Load(ready)) as real, 100.0 * Exact(ready) / F as real;
            exact - 0.5 - 6000.0 * (most as real + 1.0) / F as real < report <= exact + 0.5
  {
    LoadTracksExact(ready, most);
    ReportIsNearest(Load(ready));
  }

  /** The report is the nearest integer to a hundred times the load exactly while the sum that rounds it
      fits in 32 bits. */
  lemma ReportIsNearest(x: int)
    requires 0 <= x < B32 / 2
    ensures 100 * x - F / 2 < F * GetLoadAvg(x) <= 100 * x + F / 2 <==> 100 * x + F / 2 < B32 / 2
  {
    if 100 * x < B32 / 2 {
      assert MulFpInt(x, 100) == 100 * x;
      RoundedUp(100 * x);
    } else {
      BelowHalf(MulFpInt(x, 100));
      if 100 * x < B32 / 2 + F / 2 { assert MulFpInt(x, 100) == 100 * x - B32; }
    }
  }

  lemma RoundedUp(y: int)
    requires 0 <= y < B32 / 2
    ensures y - F / 2 < F * FpToIntRound(y) <= y + F / 2 <==> y + F / 2 < B32 / 2
  {
    if y + F / 2 < B32 / 2 {
      assert Wrap32(y + F / 2) == y + F / 2;
    } else {
      assert Wrap32(y + F / 2) == y + F / 2 - B32;
    }
  }

  lemma BelowHalf(w: int)
    requires -(B32 / 2) <= w < B32 / 2
    ensures F * FpToIntRound(w) < B32 / 2 - F / 2
    ensures -(B32 / 2) + F / 2 <= w < 0 ==> FpToIntRound(w) <= 0
  {
  }

  /** One update with that many ready threads is enough for a negative report. */
  lemma ReportOverflows(n: nat)
    requires 78663 <= n <= 131071
    ensures GetLoadAvg(Load([n])) < 0
  {
    assert [n][..0] == [];
    NextLoadRounded(0, n, 131071);
    Negative(27300 * n);
    assert 273 * n * 100 == 27300 * n;
  }

  lemma Negative(y: int)
    requires B32 / 2 + F / 2 <= y <= B32 - F
    ensures Wrap32(y) == y - B32 && FpToIntRound(Wrap32(y)) < 0
  {
    assert Wrap32(y) == y - B32;
    assert Wrap32(y - B32 - F / 2) == y - B32 - F / 2;
  }

  // ------------------------------------------------------------------ the scheduler

  /** How a load stands to the exact one when at most `most` threads were ever ready. */
  ghost predicate Tracks(load: int, seen: seq<nat>, most: nat) {
    0 <= load <= most * F && load as real <= Exact(seen) < load as real + 60.0 * (most as real + 1.0)
  }

  class Scheduler {
    var loadAvg: int
    /** How many threads were ready at each update so far. */
    ghost var seen: seq<nat>

    ghost predicate Valid()
      reads this
    {
      && loadAvg == Load(seen)
      && forall most: nat | most <= 131071 && AtMost(seen, most) :: Tracks(loadAvg, seen, most)
    }

    constructor ()
      ensures Valid() && seen == []
    {
      loadAvg, seen := 0, [];
    }

    /** The update, once a second.  It counts the running thread too, unless it is the idle thread, and
        the value goes on tracking the exact one. */
    method CalculateLoadAvg(readyListSize: nat, idle: bool)
      requires Valid()
      modifies this
      ensures Valid() && seen == old(seen) + [if idle then readyListSize else readyListSize + 1]
    {
      var ready := if idle then readyListSize else readyListSize + 1;
      loadAvg := NextLoad(loadAvg, ready);
      seen := seen + [ready];
      assert seen[..|seen| - 1] == old(seen);
      forall most: nat | most <= 131071 && AtMost(seen, most) ensures Tracks(loadAvg, seen, most) {
        LoadTracksExact(seen, most);
      }
    }

    /** The system call. */
    method ReportLoadAvg() returns (report: int)
      requires Valid()
      ensures forall most: nat | most <= 1310 && AtMost(seen, most) ::
                var exact := 100.0 * Exact(seen) / F as real;
                exact - 0.5 - 6000.0 * (most as real + 1.0) / F as real < report as real <= exact + 0.5
    {
      report := GetLoadAvg(loadAvg);
      forall most: nat | most <= 1310 && AtMost(seen, most)
        ensures var exact := 100.0 * Exact(seen) / F as real;
                exact - 0.5 - 6000.0 * (most as real + 1.0) / F as real < report as real <= exact + 0.5
      {
        ReportTracksExact(seen, most);
      }
    }
  }
}
