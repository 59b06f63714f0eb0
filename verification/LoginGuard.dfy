/**
 The web console's login backoff: every attempt is charged when it is admitted, so
 a run of failures is spaced on a doubling curve however its outcomes interleave.
 */
module LoginGuard {
  import opened Base

  /** Times are nanoseconds of a clock that never steps back. */
  const SECOND: nat := 1_000_000_000
  const BACKOFF_MAX: nat := 300
  const U32_MAX: nat := 0xffff_ffff

  function Pow2(k: nat): (p: nat)
    ensures p > 0
  {
    if k == 0 then 1 else 2 * Pow2(k - 1)
  }

  /** The seconds a run of failures has earned; a shift past 63 bits saturates. */
  function BackoffFor(failures: nat): nat {
    if failures == 0 then 0
    else
      var factor := if failures - 1 < 64 then Pow2(failures - 1) else 0xffff_ffff_ffff_ffff;
      if factor < BACKOFF_MAX then factor else BACKOFF_MAX
  }

  lemma {:induction false} Pow2Grows(j: nat, k: nat)
    requires j <= k
    ensures Pow2(j) <= Pow2(k)
  {
    if j < k { Pow2Grows(j, k - 1); }
  }

  /** The first failure costs a second. From there the curve doubles up to its cap of 300
      and stays there: it never falls, and from the tenth failure on it is the cap. */
  lemma BackoffCurve(failures: nat)
    ensures BackoffFor(0) == 0 && BackoffFor(1) == 1
    ensures failures >= 1 ==>
              BackoffFor(failures + 1) == if 2 * BackoffFor(failures) < 300 then 2 * BackoffFor(failures) else 300
    ensures failures >= 10 ==> BackoffFor(failures) == 300
    ensures BackoffFor(failures) <= BackoffFor(failures + 1) <= 300
  {
    assert Pow2(9) == 512;
    if 10 <= failures <= 64 { Pow2Grows(9, failures - 1); }
    if 9 <= failures <= 63 { Pow2Grows(9, failures); }
    if failures == 64 { Pow2Grows(9, 63); }
  }

  // ----- the guard

  datatype Guard = Guard(failures: nat, lockedUntil: Option<nat>)

  function Saturated(n: nat): nat { if n < U32_MAX then n else U32_MAX }

  predicate Passes(g: Guard, now: nat) {
    g.lockedUntil == None || g.lockedUntil.value <= now
  }

  function Checked(g: Guard, now: nat): Guard {
    if Passes(g, now) then g.(lockedUntil := None) else g
  }

  function Confirmed(g: Guard, now: nat): Guard {
    g.(lockedUntil := Some(now + SECOND * BackoffFor(g.failures)))
  }

  function Failed(g: Guard, now: nat): Guard {
    Confirmed(g.(failures := Saturated(g.failures + 1)), now)
  }

  /** An attempt reads the clock to check the window and again to arm the next one. */
  function Attempted(g: Guard, check: nat, arm: nat): Guard {
    if Passes(g, check) then Failed(Checked(g, check), arm) else g
  }

  class Login {
    var failures: nat
    var lockedUntil: Option<nat>

    ghost function View(): Guard
      reads this
    {
      Guard(failures, lockedUntil)
    }

    constructor ()
      ensures View() == Guard(0, None)
    {
      failures, lockedUntil := 0, None;
    }

    method Check(now: nat) returns (open: bool)
      modifies this
      ensures open <==> Passes(old(View()), now)
      ensures View() == Checked(old(View()), now)
    {
      if lockedUntil.Some? && lockedUntil.value > now { return false; }
      lockedUntil := None;
      open := true;
    }

    method RecordFailure(now: nat)
      modifies this
      ensures View() == Failed(old(View()), now)
    {
      failures := Saturated(failures + 1);
      lockedUntil := Some(now + SECOND * BackoffFor(failures));
    }

    method ConfirmFailure(now: nat)
      modifies this
      ensures View() == Confirmed(old(View()), now)
    {
      lockedUntil := Some(now + SECOND * BackoffFor(failures));
    }

    method RecordSuccess()
      modifies this
      ensures View() == Guard(0, None)
    {
      failures, lockedUntil := 0, None;
    }

    /** Gate one attempt: a burst at a window's end buys one guess, as the admitted
        attempt closes the gate for at least a second. */
    method BeginAttempt(check: nat, arm: nat) returns (admitted: bool)
      requires check <= arm
      modifies this
      ensures admitted <==> Passes(old(View()), check)
      ensures View() == Attempted(old(View()), check, arm)
      ensures admitted ==> !Passes(View(), arm + SECOND - 1)
    {
      admitted := Check(check);
      if admitted {
        RecordFailure(arm);
        LeastBackoff(failures);
      }
    }
  }

  lemma LeastBackoff(failures: nat)
    requires failures >= 1
    ensures BackoffFor(failures) >= 1
  {
  }

  // ----- runs without a success

  datatype Event =
    | Attempt(check: nat, arm: nat)
    | LateFailure(now: nat)
    | Look(now: nat)

  function Begins(e: Event): nat { match e case Attempt(check, _) => check case LateFailure(now) => now case Look(now) => now }

  function Ends(e: Event): nat { match e case Attempt(_, arm) => arm case LateFailure(now) => now case Look(now) => now }

  function Next(g: Guard, e: Event): Guard {
    match e
    case Attempt(check, arm) => Attempted(g, check, arm)
    case LateFailure(now) => Confirmed(g, now)
    case Look(now) => Checked(g, now)
  }

  /** The guard before each event and after the last; the events follow one another. */
  ghost predicate Run(gs: seq<Guard>, events: seq<Event>) {
    && |gs| == |events| + 1
    && (forall i :: 0 <= i < |events| ==> gs[i + 1] == Next(gs[i], events[i]) && Begins(events[i]) <= Ends(events[i]))
    && (forall i, j :: 0 <= i < j < |events| ==> Ends(events[i]) <= Begins(events[j]))
  }

  predicate Admits(g: Guard, e: Event) { e.Attempt? && Passes(g, e.check) }

  /** The attempts admitted by the events from `i` up to `j`. */
  ghost function Admissions(gs: seq<Guard>, events: seq<Event>, i: nat, j: nat): nat
    requires i <= j <= |events| && |gs| == |events| + 1
  {
    if i == j then 0 else Admissions(gs, events, i, j - 1) + if Admits(gs[j - 1], events[j - 1]) then 1 else 0
  }

  /** The seconds that `n` failures after the first `f` cost. */
  function Owed(f: nat, n: nat): nat {
    if n == 0 then 0 else Owed(f, n - 1) + BackoffFor(f + n)
  }

  lemma SaturationKeepsBackoff(n: nat)
    ensures BackoffFor(Saturated(n)) == BackoffFor(n)
  {
    if n >= U32_MAX {
      BackoffCurve(n);
      BackoffCurve(U32_MAX);
    }
  }

  /** With `n` attempts charged since `start`: the clock has passed what all but the
      last of them cost, and the gate stays shut until what all of them cost. */
  ghost predicate Charged(g: Guard, clock: nat, start: nat, f: nat, n: nat) {
    && n > 0 && g.failures == Saturated(f + n)
    && clock >= start + SECOND * Owed(f, n - 1)
    && (g.lockedUntil.Some? ==> g.lockedUntil.value >= start + SECOND * Owed(f, n))
    && (g.lockedUntil.None? ==> clock >= start + SECOND * Owed(f, n))
  }

  lemma StepKeepsCharged(g: Guard, e: Event, clock: nat, start: nat, f: nat, n: nat)
    requires Charged(g, clock, start, f, n) && clock <= Begins(e) <= Ends(e)
    ensures Charged(Next(g, e), Ends(e), start, f, if Admits(g, e) then n + 1 else n)
    ensures Admits(g, e) ==> Begins(e) >= start + SECOND * Owed(f, n)
  {
    SaturationKeepsBackoff(f + n);
    SaturationKeepsBackoff(f + n + 1);
    assert Saturated(Saturated(f + n) + 1) == Saturated(f + n + 1);
    assert Owed(f, n) == Owed(f, n - 1) + BackoffFor(f + n);
    assert Owed(f, n + 1) == Owed(f, n) + BackoffFor(f + n + 1);
  }

  lemma FirstCharge(g: Guard, e: Event)
    requires Admits(g, e) && g.failures <= U32_MAX
    ensures Charged(Next(g, e), Ends(e), Ends(e), g.failures, 1)
  {
    SaturationKeepsBackoff(g.failures + 1);
    assert Owed(g.failures, 1) == BackoffFor(g.failures + 1);
  }

  lemma {:induction false} RunCharges(gs: seq<Guard>, events: seq<Event>, i: nat, j: nat)
    requires Run(gs, events) && i < j <= |events| && Admits(gs[i], events[i]) && gs[i].failures <= U32_MAX
    ensures Charged(gs[j], Ends(events[j - 1]), Ends(events[i]), gs[i].failures, Admissions(gs, events, i, j))
    decreases j
  {
    if j == i + 1 {
      FirstCharge(gs[i], events[i]);
      assert Admissions(gs, events, i, i) == 0;
    } else {
      RunCharges(gs, events, i, j - 1);
      StepKeepsCharged(gs[j - 1], events[j - 1], Ends(events[j - 2]), Ends(events[i]), gs[i].failures, Admissions(gs, events, i, j - 1));
    }
  }

  /**
   Two admitted attempts are as far apart as every charge from the first of them to
   the last before the second has earned, whatever confirmations come in between.
   For consecutive ones that is the backoff of the failures then counted.
   */
  lemma AdmissionsAreSpaced(gs: seq<Guard>, events: seq<Event>, i: nat, j: nat)
    requires Run(gs, events) && i < j < |events| && gs[i].failures <= U32_MAX
    requires Admits(gs[i], events[i]) && Admits(gs[j], events[j])
    ensures Begins(events[j]) >= Ends(events[i]) + SECOND * Owed(gs[i].failures, Admissions(gs, events, i, j))
    ensures Admissions(gs, events, i, j) == 1 ==>
              Begins(events[j]) >= Ends(events[i]) + SECOND * BackoffFor(gs[i + 1].failures)
  {
    RunCharges(gs, events, i, j);
    StepKeepsCharged(gs[j], events[j], Ends(events[j - 1]), Ends(events[i]), gs[i].failures, Admissions(gs, events, i, j));
    SaturationKeepsBackoff(gs[i].failures + 1);
    assert Owed(gs[i].failures, 1) == BackoffFor(gs[i].failures + 1);
  }

  /** An admitted attempt shuts the gate for exactly what the run has then earned. */
  lemma WindowIsExact(g: Guard, check: nat, arm: nat, now: nat)
    requires Passes(g, check) && g.failures <= 0xffff_ffff
    ensures Attempted(g, check, arm).failures == if g.failures == 0xffff_ffff then g.failures else g.failures + 1
    ensures Passes(Attempted(g, check, arm), now) <==> now >= arm + 1_000_000_000 * BackoffFor(g.failures + 1)
  {
    SaturationKeepsBackoff(g.failures + 1);
  }

  /** A late outcome counts nothing and shuts the gate from then on for what was earned. */
  lemma LateWindowIsExact(g: Guard, late: nat, now: nat)
    ensures Confirmed(g, late).failures == g.failures
    ensures Passes(Confirmed(g, late), now) <==> now >= late + 1_000_000_000 * BackoffFor(g.failures)
  {
  }

  lemma {:induction false} LockoutIsShort(gs: seq<Guard>, events: seq<Event>, i: nat, until: nat)
    requires Run(gs, events) && 0 < i < |gs| && gs[0].lockedUntil == None
    requires gs[i].lockedUntil == Some(until)
    ensures until <= Ends(events[i - 1]) + 300 * 1_000_000_000
  {
    var g, e := gs[i - 1], events[i - 1];
    BackoffCurve(g.failures);
    BackoffCurve(Saturated(g.failures + 1));
    if i > 1 && g.lockedUntil == Some(until) {
      LockoutIsShort(gs, events, i - 1, until);
    }
  }

  /** The lockout is never permanent: in every run, whoever waits 300 seconds is admitted. */
  lemma LockoutEnds(gs: seq<Guard>, events: seq<Event>, i: nat, now: nat)
    requires Run(gs, events) && 0 < i < |gs| && gs[0].lockedUntil == None
    requires now >= Ends(events[i - 1]) + 300 * 1_000_000_000
    ensures Passes(gs[i], now)
  {
    if gs[i].lockedUntil.Some? { LockoutIsShort(gs, events, i, gs[i].lockedUntil.value); }
  }

  /** What the curve falls short of the cap, over a whole run: 9 * 300 - 511 seconds. */
  lemma {:induction false} OwedIsNearTheCap(f: nat, n: nat)
    ensures Owed(f, n) + 2189 >= 300 * n
    ensures n <= 9 ==> Owed(f, n) + 1 >= Pow2(n)
  {
    assert Pow2(9) == 512;
    if n > 0 {
      OwedIsNearTheCap(f, n - 1);
      if n >= 10 {
        BackoffCurve(f + n);
      } else {
        LeastOwed(f, n);
        FallsShort(n);
      }
    }
  }

  lemma {:induction false} LeastOwed(f: nat, n: nat)
    requires 1 <= n <= 9
    ensures BackoffFor(f + n) >= Pow2(n - 1)
  {
    Pow2Grows(n - 1, 8);
    assert Pow2(8) == 256;
    if f + n <= 64 { Pow2Grows(n - 1, f + n - 1); }
  }

  lemma FallsShort(n: nat)
    requires 1 <= n <= 9
    ensures Pow2(n) - 1 + 2189 >= 300 * n
  {
    assert Pow2(1) == 2 && Pow2(2) == 4 && Pow2(3) == 8 && Pow2(4) == 16 && Pow2(5) == 32;
    assert Pow2(6) == 64 && Pow2(7) == 128 && Pow2(8) == 256 && Pow2(9) == 512;
  }

  /** Any day admits fewer than 300 attempts: at most 296, the one that opens it included. */
  lemma DayIsBounded(gs: seq<Guard>, events: seq<Event>, i: nat, j: nat)
    requires Run(gs, events) && i < j < |events| && gs[i].failures <= U32_MAX
    requires Admits(gs[i], events[i]) && Admits(gs[j], events[j])
    requires Begins(events[j]) <= Begins(events[i]) + 1_000_000_000 * 86_400
    ensures Admissions(gs, events, i, j + 1) <= 296
  {
    var n := Admissions(gs, events, i, j);
    AdmissionsAreSpaced(gs, events, i, j);
    OwedIsNearTheCap(gs[i].failures, n);
    assert Admissions(gs, events, i, j + 1) == n + 1;
    assert SECOND * Owed(gs[i].failures, n) <= SECOND * 86_400;
  }
}
