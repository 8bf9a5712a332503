/** backend/session.py: the sessions of a trading calendar, in Eastern wall-clock time.
    Instants are microseconds, and a day has 86,400,000,000 of them. Sessions open at 09:30
    and close at 16:00, or at 13:00 on an early-close day. */
module Session {
  import opened Common

  const MAX_SCAN_DAYS := 10

  /** Which days trade, and which of them close early. */
  datatype Calendar = Calendar(trading: int -> bool, early: int -> bool)

  function DayOf(t: int): (d: int)
    ensures d * 86_400_000_000 <= t < (d + 1) * 86_400_000_000
  {
    t / 86_400_000_000
  }

  function OpenOf(d: int): int {
    d * 86_400_000_000 + 34_200_000_000
  }

  function CloseOf(cal: Calendar, d: int): int {
    d * 86_400_000_000 + (if cal.early(d) then 46_800_000_000 else 57_600_000_000)
  }

  /** The open of the first session that opens after now, looking at no more than `left` days from d. */
  function ScanForOpen(cal: Calendar, d: int, now: int, left: nat): int
    decreases left
  {
    if left == 0 then OpenOf(d)
    else if cal.trading(d) && OpenOf(d) > now then OpenOf(d)
    else ScanForOpen(cal, d + 1, now, left - 1)
  }

  function NextOpen(cal: Calendar, now: int): int {
    ScanForOpen(cal, DayOf(now), now, MAX_SCAN_DAYS + 1)
  }

  method NextSessionOpen(cal: Calendar, now: int) returns (at: int)
    ensures at == NextOpen(cal, now)
  {
    var d := DayOf(now);
    for k := 0 to MAX_SCAN_DAYS + 1
      invariant ScanForOpen(cal, d, now, MAX_SCAN_DAYS + 1 - k) == NextOpen(cal, now)
    {
      if cal.trading(d) && OpenOf(d) > now {
        return OpenOf(d);
      }
      d := d + 1;
    }
    return OpenOf(d);
  }

  datatype SessionState = SessionState(
    now: int, isOpen: bool, openAt: Option<int>, closeAt: Option<int>, nextOpenAt: int,
    sinceOpen: Option<int>, untilClose: Option<int>)

  function StateAt(cal: Calendar, now: int): SessionState {
    var d := DayOf(now);
    if cal.trading(d) then
      SessionState(now, OpenOf(d) <= now < CloseOf(cal, d), Some(OpenOf(d)), Some(CloseOf(cal, d)), NextOpen(cal, now),
                   Some(now - OpenOf(d)), Some(CloseOf(cal, d) - now))
    else
      SessionState(now, false, None, None, NextOpen(cal, now), None, None)
  }

  // ---- The scan finds the least later open -------------------------------------

  /** From any day, one of the next MAX_SCAN_DAYS days trades. */
  ghost predicate NeverLongClosed(cal: Calendar) {
    forall d: int :: TradesSoonAfter(cal, d)
  }

  ghost predicate TradesSoonAfter(cal: Calendar, d: int) {
    exists k: int :: d < k <= d + MAX_SCAN_DAYS && cal.trading(k)
  }

  lemma {:induction false} ScanFinds(cal: Calendar, d: int, now: int, left: nat, k: int)
    requires d <= k < d + left && cal.trading(k) && OpenOf(k) > now
    ensures exists e: int ::
              d <= e <= k && cal.trading(e) && OpenOf(e) > now && ScanForOpen(cal, d, now, left) == OpenOf(e)
                        && forall f: int :: d <= f < e ==> !(cal.trading(f) && OpenOf(f) > now)
    decreases left
  {
    if !(cal.trading(d) && OpenOf(d) > now) {
      ScanFinds(cal, d + 1, now, left - 1, k);
    }
  }

  /** The next open is later than now, a session opens then, and none opens sooner. */
  lemma NextOpenIsLeast(cal: Calendar, now: int) returns (e: int)
    requires NeverLongClosed(cal)
    ensures cal.trading(e) && NextOpen(cal, now) == OpenOf(e) && OpenOf(e) > now
    ensures forall f: int :: cal.trading(f) && OpenOf(f) > now ==> e <= f
  {
    var d := DayOf(now);
    assert TradesSoonAfter(cal, d);
    var k: int :| d < k <= d + MAX_SCAN_DAYS && cal.trading(k);
    ScanFinds(cal, d, now, MAX_SCAN_DAYS + 1, k);
    e :| d <= e <= k && cal.trading(e) && OpenOf(e) > now && NextOpen(cal, now) == OpenOf(e)
         && forall f: int :: d <= f < e ==> !(cal.trading(f) && OpenOf(f) > now);
    forall f: int | cal.trading(f) && OpenOf(f) > now ensures e <= f {
      assert f < d ==> OpenOf(f) <= now;
    }
  }
}

/** backend/execution_gate.py: which order actions may execute at an instant, and when a
    blocked one next may. */
module ExecutionGate {
  import opened Common
  import opened Session

  datatype Action = Entry | RollShort | RollLeap | Defense | ExitKill | Cancel

  datatype Reason = OpenWindow | MarketClosed | SettleWindow | EntryWindow | CloseBlackout | GapEmergencyUnlock

  datatype Verdict = Verdict(allowed: bool, executableAt: Option<int>, reason: Reason, emergencyPath: bool)

  /** The three windows, in microseconds, and the two emergency thresholds. */
  datatype Config = Config(settle: nat, entry: nat, blackout: nat, atrMult: real, minPrint: real)

  datatype GapContext = GapContext(
      adverseGap: Option<real>, brokeLow: bool, printMinutes: Option<real>, limitOrder: bool)

  const NO_GAP := GapContext(None, false, None, true)

  function Earliest(cfg: Config, a: Action): nat {
    if a.Entry? && cfg.entry > cfg.settle then cfg.entry else cfg.settle
  }

  predicate Eligible(a: Action) {
    a.Defense? || a.ExitKill?
  }

  predicate GapUnlocked(cfg: Config, gap: GapContext) {
    && gap.limitOrder
    && gap.printMinutes.Some? && gap.printMinutes.value >= cfg.minPrint
    && ((gap.adverseGap.Some? && gap.adverseGap.value >= cfg.atrMult) || gap.brokeLow)
  }

  function Blocked(at: int, reason: Reason): Verdict {
    Verdict(false, Some(at), reason, false)
  }

  function ExecutionWindow(cfg: Config, a: Action, s: SessionState, gap: GapContext): Verdict {
    if a.Cancel? then Verdict(true, None, OpenWindow, false)
    else if !s.isOpen then Blocked(s.nextOpenAt + Earliest(cfg, a), MarketClosed)
    else if s.untilClose.Some? && s.untilClose.value <= cfg.blackout then
      Blocked(s.nextOpenAt + Earliest(cfg, a), CloseBlackout)
    else
      var since := s.sinceOpen.GetOr(0);
      if since < cfg.settle then
        if Eligible(a) && GapUnlocked(cfg, gap) then Verdict(true, None, GapEmergencyUnlock, true)
        else Blocked(s.openAt.GetOr(0) + Earliest(cfg, a), SettleWindow)
      else if a.Entry? && since < cfg.entry then Blocked(s.openAt.GetOr(0) + Earliest(cfg, a), EntryWindow)
      else Verdict(true, None, OpenWindow, false)
  }

  function At(cfg: Config, cal: Calendar, a: Action, now: int, gap: GapContext): Verdict {
    ExecutionWindow(cfg, a, StateAt(cal, now), gap)
  }

  predicate Allowed(cfg: Config, cal: Calendar, a: Action, now: int) {
    At(cfg, cal, a, now, NO_GAP).allowed
  }

  // ---- When an action is allowed -----------------------------------------------

  /** Past the settle window, and for an entry past the entry window too, and short of the
      blackout, in the session of day d, from 9:30 to 16:00, or to 13:00 when it is early. */
  predicate Within(cfg: Config, cal: Calendar, a: Action, d: int, t: int) {
    var midnight := d * 24 * 3_600_000_000;
    && cal.trading(d)
    && midnight + 9 * 3_600_000_000 + 1_800_000_000 + cfg.settle <= t
    && (a.Entry? ==> midnight + 9 * 3_600_000_000 + 1_800_000_000 + cfg.entry <= t)
    && t < midnight + (if cal.early(d) then 13 else 16) * 3_600_000_000 - cfg.blackout
  }

  lemma SessionDay(cal: Calendar, d: int, t: int)
    requires OpenOf(d) <= t < CloseOf(cal, d)
    ensures DayOf(t) == d
  {
  }

  /** The gate's five rules amount to one interval per session. */
  lemma AllowedExactly(cfg: Config, cal: Calendar, a: Action, t: int)
    requires !a.Cancel?
    ensures Allowed(cfg, cal, a, t) <==> exists d: int :: Within(cfg, cal, a, d, t)
  {
    var d := DayOf(t);
    if Allowed(cfg, cal, a, t) {
      assert Within(cfg, cal, a, d, t);
    }
    if exists d: int :: Within(cfg, cal, a, d, t) {
      var e: int :| Within(cfg, cal, a, e, t);
      SessionDay(cal, e, t);
    }
  }

  /** Why a verdict says no, whatever the gap: outside a session; within the blackout before
      its close; within the settle window; and, for an entry, within the entry window. */
  lemma ReasonsMean(cfg: Config, cal: Calendar, a: Action, now: int, gap: GapContext)
    ensures var d, v := DayOf(now), At(cfg, cal, a, now, gap);
            var out := !cal.trading(d) || now < OpenOf(d) || CloseOf(cal, d) <= now;
            var late := CloseOf(cal, d) - now <= cfg.blackout;
            if v.allowed then v.reason == (if v.emergencyPath then GapEmergencyUnlock else OpenWindow)
            else
              && !v.emergencyPath && !a.Cancel?
              && (v.reason == MarketClosed <==> out)
              && (v.reason == CloseBlackout <==> !out && late)
              && (v.reason == SettleWindow <==> !out && !late && now - OpenOf(d) < cfg.settle)
              && (v.reason == EntryWindow <==> !out && !late && cfg.settle <= now - OpenOf(d) < cfg.entry && a.Entry?)
  {
  }

  // ---- The promise in executable_at --------------------------------------------

  /** The sessions where the action's interval is not empty. */
  predicate Outlasts(cfg: Config, cal: Calendar, a: Action, d: int) {
    OpenOf(d) + Earliest(cfg, a) < CloseOf(cal, d) - cfg.blackout
  }

  /** The session a blocked verdict points at: the one now in progress when it is still to
      come there, else the next to open. */
  lemma TargetSession(cfg: Config, cal: Calendar, a: Action, now: int) returns (e: int)
    requires !a.Cancel? && NeverLongClosed(cal) && !Allowed(cfg, cal, a, now)
    ensures cal.trading(e) && At(cfg, cal, a, now, NO_GAP).executableAt == Some(OpenOf(e) + Earliest(cfg, a))
    ensures now < OpenOf(e) + Earliest(cfg, a)
    ensures forall d: int, t :: d < e && now <= t ==> !Within(cfg, cal, a, d, t)
    ensures OpenOf(e) > now || e == DayOf(now)
  {
    e := NextOpenIsLeast(cal, now);
    var s := StateAt(cal, now);
    if s.isOpen && CloseOf(cal, DayOf(now)) - now > cfg.blackout {
      e := DayOf(now);
      forall d: int, t | d < e && now <= t ensures !Within(cfg, cal, a, d, t) {
        assert CloseOf(cal, d) <= (d + 1) * 86_400_000_000 <= e * 86_400_000_000 <= now;
      }
    } else {
      forall d: int, t | d < e && now <= t ensures !Within(cfg, cal, a, d, t) {
        NotBeforeNext(cfg, cal, a, now, e, d, t);
      }
    }
  }

  lemma NotBeforeNext(cfg: Config, cal: Calendar, a: Action, now: int, e: int, d: int, t: int)
    requires d < e && now <= t
    requires forall f: int :: cal.trading(f) && OpenOf(f) > now ==> e <= f
    requires !(cal.trading(DayOf(now)) && OpenOf(DayOf(now)) <= now < CloseOf(cal, DayOf(now)) - cfg.blackout)
    ensures !Within(cfg, cal, a, d, t)
  {
    if Within(cfg, cal, a, d, t) {
      assert OpenOf(d) <= now;
      assert now < CloseOf(cal, d);
      SessionDay(cal, d, now);
      assert false;
    }
  }

  /** Nothing is allowed before the instant of a day when no earlier day has any. */
  lemma NoneSooner(cfg: Config, cal: Calendar, a: Action, now: int, e: int)
    requires !a.Cancel?
    requires forall d: int, t :: d < e && now <= t ==> !Within(cfg, cal, a, d, t)
    ensures forall t :: now <= t < OpenOf(e) + Earliest(cfg, a) ==> !Allowed(cfg, cal, a, t)
  {
    forall t | now <= t < OpenOf(e) + Earliest(cfg, a) ensures !Allowed(cfg, cal, a, t) {
      AllowedExactly(cfg, cal, a, t);
      forall d: int ensures !Within(cfg, cal, a, d, t) {
        if d > e { assert OpenOf(d) > OpenOf(e); }
      }
    }
  }

  lemma AllowedThen(cfg: Config, cal: Calendar, a: Action, now: int, e: int)
    requires !a.Cancel? && cal.trading(e) && now <= OpenOf(e) + Earliest(cfg, a)
    requires forall d: int, t :: d < e && now <= t ==> !Within(cfg, cal, a, d, t)
    ensures OpenOf(e) + Earliest(cfg, a) < OpenOf(e + 1) ==>
              (Allowed(cfg, cal, a, OpenOf(e) + Earliest(cfg, a)) <==> Outlasts(cfg, cal, a, e))
  {
    var at := OpenOf(e) + Earliest(cfg, a);
    AllowedExactly(cfg, cal, a, at);
    if Outlasts(cfg, cal, a, e) { assert Within(cfg, cal, a, e, at); }
    if at < OpenOf(e + 1) && Allowed(cfg, cal, a, at) {
      var d: int :| Within(cfg, cal, a, d, at);
      assert d <= e;
    }
  }

  /** The promised instant is kept exactly when the session it falls in outlasts the
      action's minimum plus the blackout. */
  lemma PromiseKeptExactly(cfg: Config, cal: Calendar, a: Action, now: int) returns (e: int)
    requires !a.Cancel? && NeverLongClosed(cal) && !Allowed(cfg, cal, a, now)
    ensures var at := At(cfg, cal, a, now, NO_GAP).executableAt;
            && cal.trading(e) && at == Some(OpenOf(e) + Earliest(cfg, a)) && now < at.value
            && (forall t :: now <= t < at.value ==> !Allowed(cfg, cal, a, t))
            && (OpenOf(e) + Earliest(cfg, a) < OpenOf(e + 1) ==>
                  (Allowed(cfg, cal, a, at.value) <==> Outlasts(cfg, cal, a, e)))
  {
    e := TargetSession(cfg, cal, a, now);
    NoneSooner(cfg, cal, a, now, e);
    AllowedThen(cfg, cal, a, now, e);
  }

  /** When every session is long enough, a blocked verdict names the least instant at or
      after now at which the same action is allowed. */
  lemma ExecutableAtIsLeast(cfg: Config, cal: Calendar, a: Action, now: int)
    requires !a.Cancel? && NeverLongClosed(cal) && !Allowed(cfg, cal, a, now)
    requires forall d: int :: cal.trading(d) ==> Outlasts(cfg, cal, a, d)
    ensures var at := At(cfg, cal, a, now, NO_GAP).executableAt;
            && at.Some? && now < at.value && Allowed(cfg, cal, a, at.value)
            && (forall t :: now <= t < at.value ==> !Allowed(cfg, cal, a, t))
  {
    var e := PromiseKeptExactly(cfg, cal, a, now);
    assert OpenOf(e) + Earliest(cfg, a) < CloseOf(cal, e) < OpenOf(e + 1);
  }

  /** An allowed verdict names no instant, a blocked one always does. */
  lemma InstantExactlyWhenBlocked(cfg: Config, a: Action, s: SessionState, gap: GapContext)
    ensures ExecutionWindow(cfg, a, s, gap).executableAt.None? <==> ExecutionWindow(cfg, a, s, gap).allowed
    ensures a.Cancel? ==> ExecutionWindow(cfg, a, s, gap).allowed
  {
  }

  // ---- The emergency path ------------------------------------------------------

  /** It opens for a defense or an exit inside the settle window of an open session, on a
      limit order with enough two-sided prints and either a big adverse gap or a break of
      the opening low, and for nothing else. */
  lemma EmergencyExactly(cfg: Config, cal: Calendar, a: Action, now: int, gap: GapContext)
    ensures At(cfg, cal, a, now, gap).emergencyPath
            <==> var d := DayOf(now);
                 && (a.Defense? || a.ExitKill?) && cal.trading(d)
                 && OpenOf(d) <= now < CloseOf(cal, d) - cfg.blackout && now < OpenOf(d) + cfg.settle
                 && gap.limitOrder && gap.printMinutes.Some? && gap.printMinutes.value >= cfg.minPrint
                 && ((gap.adverseGap.Some? && gap.adverseGap.value >= cfg.atrMult) || gap.brokeLow)
  {
  }

  /** A gap context never blocks what is allowed without one, and what it adds is the
      emergency path alone. */
  lemma GapOnlyUnlocks(cfg: Config, cal: Calendar, a: Action, now: int, gap: GapContext)
    ensures At(cfg, cal, a, now, gap).emergencyPath || At(cfg, cal, a, now, gap) == At(cfg, cal, a, now, NO_GAP)
    ensures At(cfg, cal, a, now, gap).emergencyPath ==> !Allowed(cfg, cal, a, now)
  {
  }

  /** With the shipped settings every regular and every half-day session is long enough. */
  lemma ShippedSettingsKeepThePromise(cal: Calendar, a: Action, now: int)
    requires !a.Cancel? && NeverLongClosed(cal)
    requires !Allowed(SHIPPED, cal, a, now)
    ensures var at := At(SHIPPED, cal, a, now, NO_GAP).executableAt;
            at.Some? && now < at.value && Allowed(SHIPPED, cal, a, at.value)
            && (forall t :: now <= t < at.value ==> !Allowed(SHIPPED, cal, a, t))
  {
    forall d: int | cal.trading(d) ensures Outlasts(SHIPPED, cal, a, d) {
    }
    ExecutableAtIsLeast(SHIPPED, cal, a, now);
  }

  const SHIPPED := Config(1_800_000_000, 3_600_000_000, 900_000_000, 2.0, 5.0)

  // ---- A promise that is not kept ----------------------------------------------

  /** Asked a microsecond before the open of a session too short for the action, the gate
      names an instant in it at which it will still say no. */
  lemma ShortSessionBreaksThePromise(cfg: Config, cal: Calendar, a: Action, d: int)
    requires !a.Cancel? && NeverLongClosed(cal) && cal.trading(d)
    requires !Outlasts(cfg, cal, a, d) && OpenOf(d) + Earliest(cfg, a) < OpenOf(d + 1)
    ensures !Allowed(cfg, cal, a, OpenOf(d) - 1)
    ensures var at := At(cfg, cal, a, OpenOf(d) - 1, NO_GAP).executableAt;
            at == Some(OpenOf(d) + Earliest(cfg, a)) && !Allowed(cfg, cal, a, at.value)
  {
    var now := OpenOf(d) - 1;
    assert DayOf(now) == d;
    var e := PromiseKeptExactly(cfg, cal, a, now);
    var f := NextOpenIsLeast(cal, now);
    assert f == d;
    assert At(cfg, cal, a, now, NO_GAP).executableAt == Some(NextOpen(cal, now) + Earliest(cfg, a));
    assert e == d;
  }

  /** The shipped settings, but for entries only from 200 minutes after the open. */
  const LATE_ENTRY := SHIPPED.(entry := 12_000_000_000)

  /** 200 minutes and the 15 before the close do not fit in a half-day of 210: on any
      calendar with a half-day, an entry asked for just before that day's open. */
  lemma HalfDayBreaksThePromise(cal: Calendar, d: int)
    requires NeverLongClosed(cal) && cal.trading(d) && cal.early(d)
    ensures !Allowed(LATE_ENTRY, cal, Entry, OpenOf(d) - 1)
    ensures var at := At(LATE_ENTRY, cal, Entry, OpenOf(d) - 1, NO_GAP).executableAt;
            at.Some? && !Allowed(LATE_ENTRY, cal, Entry, at.value)
  {
    ShortSessionBreaksThePromise(LATE_ENTRY, cal, Entry, d);
  }
}
