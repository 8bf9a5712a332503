/** backend/fetch_budget.py: how long a provider fetch may keep trying. Instants and
    durations are seconds; `now` is the reading of the monotonic clock. */
module FetchBudget {
  import opened Common

  datatype Kind = Patient | Interactive

  datatype Budget = Budget(
      kind: Kind, attempts: int, base: real, longest: real, timeout: Option<real>, deadline: Option<real>)

  function Min(a: real, b: real): real {
    if a <= b then a else b
  }

  function Max(a: real, b: real): real {
    if a >= b then a else b
  }

  predicate Expired(b: Budget, now: real) {
    b.deadline.Some? && now >= b.deadline.value
  }

  function Remaining(b: Budget, now: real): Option<real> {
    if b.deadline.None? then None else Some(Max(0.0, b.deadline.value - now))
  }

  /** The smaller of two limits, where None is no limit. */
  function Narrower(a: Option<real>, b: Option<real>): Option<real> {
    if a.None? then b else if b.None? then a else Some(Min(a.value, b.value))
  }

  /** A call site's own timeout, narrowed to fit the budget. */
  function CapTimeout(b: Budget, now: real, caller: Option<real>): Option<real> {
    Narrower(Narrower(caller, b.timeout), Remaining(b, now))
  }

  /** A back-off, clamped to what is left. */
  function SleepFor(b: Budget, now: real, wait: real): real {
    var left := Remaining(b, now);
    if left.None? then wait else Max(0.0, Min(wait, left.value))
  }

  function AtLeastOne(n: int): int {
    if n >= 1 then n else 1
  }

  function PatientBudget(retries: int, base: real, longest: real): Budget {
    Budget(Patient, AtLeastOne(retries), base, longest, None, None)
  }

  function InteractiveBudget(now: real, retries: int, base: real, longest: real, timeout: real, seconds: real): Budget {
    Budget(Interactive, AtLeastOne(retries), base, longest, Some(timeout), Some(now + seconds))
  }

  /** x is no limit, or at least y. */
  predicate Allows(x: Option<real>, y: real) {
    x.None? || y <= x.value
  }

  /** The capped timeout is the least of the limits that are set, and None when none is. */
  lemma CapIsLeast(b: Budget, now: real, caller: Option<real>)
    ensures var cap := CapTimeout(b, now, caller);
            && (cap.None? <==> caller.None? && b.timeout.None? && b.deadline.None?)
            && (cap.Some? ==>
                  && Allows(caller, cap.value) && Allows(b.timeout, cap.value) && Allows(Remaining(b, now), cap.value)
                  && cap in {caller, b.timeout, Remaining(b, now)})
  {
  }

  /** An attempt that starts now and keeps to its timeout, and a back-off that starts now,
      both end by the deadline, or at once when it has passed. */
  lemma NothingPassesTheDeadline(b: Budget, now: real, caller: Option<real>, took: real, wait: real)
    requires b.deadline.Some? && (took <= 0.0 || took <= CapTimeout(b, now, caller).GetOr(took))
    ensures now + took <= Max(now, b.deadline.value)
    ensures now + SleepFor(b, now, wait) <= Max(now, b.deadline.value)
  {
    CapIsLeast(b, now, caller);
  }

  /** Under a patient budget nothing is narrowed. */
  lemma PatienceIsFree(retries: int, base: real, longest: real, now: real, caller: Option<real>, wait: real)
    ensures var b := PatientBudget(retries, base, longest);
            CapTimeout(b, now, caller) == caller && SleepFor(b, now, wait) == wait && !Expired(b, now)
                && b.attempts >= 1
  {
  }
}
