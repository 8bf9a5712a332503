/** Over every run of ticks: each slot once a weekday, and each expiring put checked until a
    check succeeds. */
module SchedulerTheorems {
  import AccountTheorems
  import Accounts
  import opened AlertScheduler
  import opened Common
  import opened Strings

  // ---- Runs of ticks -----------------------------------------------------------

  /** Every slot is a time of day, written "HH:MM". */
  ghost predicate Times(schedule: seq<string>) {
    forall s :: s in schedule ==> exists m :: 0 <= m < 1440 && s == Hhmm(m)
  }

  ghost predicate DaysAdvance(ticks: seq<int>) {
    forall i, j :: 0 <= i < j < |ticks| ==> Day(ticks[i]) <= Day(ticks[j])
  }

  /** The registry after the ticks. */
  function LastRun(schedule: seq<string>, ticks: seq<int>): map<string, int> {
    if ticks == [] then map[]
    else
      var before, now := LastRun(schedule, ticks[..|ticks| - 1]), ticks[|ticks| - 1];
      Stamped(before, DueSlots(schedule, now, before), Day(now))
  }

  /** The slots the k-th tick claims. */
  function ClaimedAt(schedule: seq<string>, ticks: seq<int>, k: nat): seq<string>
    requires k < |ticks|
  {
    DueSlots(schedule, ticks[k], LastRun(schedule, ticks[..k]))
  }

  lemma {:induction false} DueOfHas(schedule: seq<string>, now: int, lastRun: map<string, int>, slot: string)
    ensures slot in DueOf(schedule, now, lastRun) <==> slot in schedule && Due(slot, now, lastRun)
  {
    if schedule != [] {
      FrontLast(schedule);
      DueOfHas(schedule[..|schedule| - 1], now, lastRun, slot);
    }
  }

  function DueNow(now: int, lastRun: map<string, int>): string -> bool {
    (slot: string) => Due(slot, now, lastRun)
  }

  /** The slots a tick claims come in the order of the schedule. */
  lemma {:induction false} SlotsInOrder(schedule: seq<string>, now: int, lastRun: map<string, int>)
    returns (at: seq<int>)
    ensures Picks(at, schedule, DueNow(now, lastRun)) && |DueOf(schedule, now, lastRun)| == |at|
    ensures forall i :: 0 <= i < |at| ==> DueOf(schedule, now, lastRun)[i] == schedule[at[i]]
  {
    at := [];
    if schedule != [] {
      var front, last := schedule[..|schedule| - 1], schedule[|schedule| - 1];
      var before := SlotsInOrder(front, now, lastRun);
      FrontLast(schedule);
      PicksSnoc(before, front, last, DueNow(now, lastRun));
      at := before + (if DueNow(now, lastRun)(last) then [|front|] else []);
    }
  }

  /** The j-th tick is on day d, at or after minute m. */
  predicate Reached(ticks: seq<int>, j: int, d: int, m: int) {
    0 <= j < |ticks| && ticks[j] / 1440 == d && m <= ticks[j] % 1440
  }

  ghost predicate SomeReached(ticks: seq<int>, n: nat, d: int, m: int) {
    exists j :: 0 <= j < n && Reached(ticks, j, d, m)
  }

  lemma DueMeans(schedule: seq<string>, m: int, now: int, lastRun: map<string, int>)
    requires 0 <= m < 1440
    ensures Hhmm(m) in DueSlots(schedule, now, lastRun)
            <==> Weekday(Day(now)) < 5 && Hhmm(m) in schedule && m <= Minute(now)
                 && !(Hhmm(m) in lastRun && lastRun[Hhmm(m)] == Day(now))
  {
    DueOfHas(schedule, now, lastRun, Hhmm(m));
    TextOrderIsTimeOrder(m, Minute(now));
  }

  /** For the day of the last tick, or a later one, the registry says whether a tick of
      that day has reached the slot. */
  lemma {:induction false} LastRunMeans(schedule: seq<string>, m: int, ticks: seq<int>, d: int)
    requires 0 <= m < 1440 && Hhmm(m) in schedule && DaysAdvance(ticks)
    requires forall j :: 0 <= j < |ticks| ==> Day(ticks[j]) <= d
    ensures var last := LastRun(schedule, ticks);
            Hhmm(m) in last && last[Hhmm(m)] == d <==> Weekday(d) < 5 && SomeReached(ticks, |ticks|, d, m)
  {
    if ticks != [] {
      var front, now := ticks[..|ticks| - 1], ticks[|ticks| - 1];
      LastRunMeans(schedule, m, front, d);
      DueMeans(schedule, m, now, LastRun(schedule, front));
      ReachedSnoc(ticks, d, m);
      if Day(now) == d {
        assert Reached(ticks, |ticks| - 1, d, m) <==> m <= Minute(now);
      } else {
        assert Day(now) < d && !SomeReached(front, |front|, d, m);
      }
    }
  }

  lemma ReachedSnoc(ticks: seq<int>, d: int, m: int)
    requires ticks != []
    ensures SomeReached(ticks, |ticks|, d, m)
            <==> SomeReached(ticks[..|ticks| - 1], |ticks| - 1, d, m) || Reached(ticks, |ticks| - 1, d, m)
  {
    var front := ticks[..|ticks| - 1];
    assert forall j :: 0 <= j < |front| ==> (Reached(front, j, d, m) <==> Reached(ticks, j, d, m));
  }

  /** A tick claims a slot exactly when it is the first tick of its day at or after the
      slot's time, and the day is a weekday. The clock may even go back within a day. */
  lemma ClaimedExactly(schedule: seq<string>, m: int, ticks: seq<int>, k: nat)
    requires 0 <= m < 1440 && k < |ticks| && DaysAdvance(ticks)
    ensures Hhmm(m) in ClaimedAt(schedule, ticks, k)
            <==> Hhmm(m) in schedule && ticks[k] / 1440 % 7 < 5 && m <= ticks[k] % 1440
                 && !SomeReached(ticks, k, ticks[k] / 1440, m)
  {
    var front, d := ticks[..k], Day(ticks[k]);
    DueMeans(schedule, m, ticks[k], LastRun(schedule, front));
    if Hhmm(m) in schedule { LastRunMeans(schedule, m, front, d); }
    assert forall j :: 0 <= j < k ==> (Reached(front, j, d, m) <==> Reached(ticks, j, d, m));
  }

  lemma {:induction false} FirstReach(ticks: seq<int>, d: int, m: int, n: nat) returns (k: nat)
    requires n <= |ticks| && SomeReached(ticks, n, d, m)
    ensures k < n && Reached(ticks, k, d, m) && !SomeReached(ticks, k, d, m)
  {
    if SomeReached(ticks, n - 1, d, m) {
      k := FirstReach(ticks, d, m, n - 1);
    } else {
      k := n - 1;
    }
  }

  ghost predicate ClaimsOn(schedule: seq<string>, ticks: seq<int>, k: int, d: int, slot: string) {
    0 <= k < |ticks| && Day(ticks[k]) == d && slot in ClaimedAt(schedule, ticks, k)
  }

  /** On each weekday with a tick at or after it, a slot is claimed by one tick and no other. */
  lemma OncePerDay(schedule: seq<string>, m: int, ticks: seq<int>, d: int)
    requires 0 <= m < 1440 && Hhmm(m) in schedule && DaysAdvance(ticks) && Weekday(d) < 5
    requires SomeReached(ticks, |ticks|, d, m)
    ensures exists k :: ClaimsOn(schedule, ticks, k, d, Hhmm(m))
                        && forall j :: ClaimsOn(schedule, ticks, j, d, Hhmm(m)) ==> j == k
  {
    var k := FirstReach(ticks, d, m, |ticks|);
    ClaimedExactly(schedule, m, ticks, k);
    assert ClaimsOn(schedule, ticks, k, d, Hhmm(m));
    forall j | ClaimsOn(schedule, ticks, j, d, Hhmm(m)) ensures j == k {
      ClaimedExactly(schedule, m, ticks, j);
      assert Reached(ticks, j, d, m);
      assert j < k ==> SomeReached(ticks, k, d, m);
      assert k < j ==> SomeReached(ticks, j, d, m);
    }
  }

  /** Never on a weekend. */
  lemma NothingOnWeekends(schedule: seq<string>, ticks: seq<int>, k: nat)
    requires k < |ticks| && Weekday(Day(ticks[k])) >= 5
    ensures ClaimedAt(schedule, ticks, k) == []
  {
  }

  // ---- How many passes a day ---------------------------------------------------

  /** The ticks of day d, among the first n, that claimed anything. */
  function Passes(schedule: seq<string>, ticks: seq<int>, n: nat, d: int): nat
    requires n <= |ticks|
  {
    if n == 0 then 0
    else Passes(schedule, ticks, n - 1, d)
         + (if Day(ticks[n - 1]) == d && ClaimedAt(schedule, ticks, n - 1) != [] then 1 else 0)
  }

  /** What those ticks claimed. */
  function Taken(schedule: seq<string>, ticks: seq<int>, n: nat, d: int): set<string>
    requires n <= |ticks|
  {
    if n == 0 then {}
    else Taken(schedule, ticks, n - 1, d)
         + (if Day(ticks[n - 1]) == d then Members(ClaimedAt(schedule, ticks, n - 1)) else {})
  }

  lemma {:induction false} TakenWasReached(schedule: seq<string>, m: int, ticks: seq<int>, n: nat, d: int)
    requires n <= |ticks| && 0 <= m < 1440 && Hhmm(m) in Taken(schedule, ticks, n, d)
    ensures SomeReached(ticks, n, d, m)
  {
    if Hhmm(m) in Taken(schedule, ticks, n - 1, d) {
      TakenWasReached(schedule, m, ticks, n - 1, d);
    } else {
      DueMeans(schedule, m, ticks[n - 1], LastRun(schedule, ticks[..n - 1]));
      assert Reached(ticks, n - 1, d, m);
    }
  }

  lemma ClaimsAreNew(schedule: seq<string>, ticks: seq<int>, n: nat, slot: string)
    requires n < |ticks| && Times(schedule) && DaysAdvance(ticks) && slot in ClaimedAt(schedule, ticks, n)
    ensures slot in schedule && slot !in Taken(schedule, ticks, n, Day(ticks[n]))
  {
    DueOfHas(schedule, ticks[n], LastRun(schedule, ticks[..n]), slot);
    var m :| 0 <= m < 1440 && slot == Hhmm(m);
    ClaimedExactly(schedule, m, ticks, n);
    if slot in Taken(schedule, ticks, n, Day(ticks[n])) { TakenWasReached(schedule, m, ticks, n, Day(ticks[n])); }
  }

  lemma {:induction false} PassesTake(schedule: seq<string>, ticks: seq<int>, n: nat, d: int)
    requires n <= |ticks| && Times(schedule) && DaysAdvance(ticks)
    ensures Passes(schedule, ticks, n, d) <= |Taken(schedule, ticks, n, d)|
    ensures forall s :: s in Taken(schedule, ticks, n, d) ==> s in schedule
  {
    if n > 0 {
      var k: nat := n - 1;
      PassesTake(schedule, ticks, k, d);
      var before, now := Taken(schedule, ticks, k, d), ClaimedAt(schedule, ticks, k);
      if Day(ticks[k]) == d && now != [] {
        forall s | s in now ensures s in schedule && s !in before {
          ClaimsAreNew(schedule, ticks, k, s);
        }
        Larger(before, Members(now), now[0]);
      }
    }
  }

  lemma Larger<T>(a: set<T>, b: set<T>, x: T)
    requires x in b && x !in a
    ensures |a + b| >= |a| + 1
  {
    assert |a + {x}| == |a| + 1;
    assert a + b == (a + {x}) + (b - {x} - a);
  }

  lemma {:induction false} MembersBound<T>(s: seq<T>, some: set<T>)
    requires forall x :: x in some ==> x in s
    ensures |some| <= |s|
  {
    if s == [] {
      assert some == {};
    } else {
      assert s == [s[0]] + s[1..];
      MembersBound(s[1..], some - {s[0]});
    }
  }

  /** There are never more slot passes in a day than slots in the schedule. */
  lemma PassesAreBounded(schedule: seq<string>, ticks: seq<int>, d: int)
    requires Times(schedule) && DaysAdvance(ticks)
    ensures Passes(schedule, ticks, |ticks|, d) <= |schedule|
  {
    PassesTake(schedule, ticks, |ticks|, d);
    MembersBound(schedule, Taken(schedule, ticks, |ticks|, d));
  }

  // ---- Mandatory expiry checks -------------------------------------------------

  ghost predicate LegIn(puts: seq<Put>, key: Check) {
    exists n :: 0 <= n < |puts| && puts[n].expires == key.day && puts[n].strike == key.strike
  }

  ghost predicate OpenLeg(p: Position, key: Check) {
    !p.closed && p.ticker == key.ticker && LegIn(p.puts, key)
  }

  /** The book has an open short put under this key. */
  ghost predicate HasLeg(ps: seq<Position>, key: Check) {
    exists i :: 0 <= i < |ps| && OpenLeg(ps[i], key)
  }

  lemma {:induction false} LegChecksHas(p: Position, puts: seq<Put>, day: int, last: map<Check, int>, key: Check)
    ensures key in LegChecks(p, puts, day, last)
            <==> key.day == day && key.ticker == p.ticker && !(key in last && last[key] == day) && LegIn(puts, key)
  {
    if puts != [] {
      var front := puts[..|puts| - 1];
      LegChecksHas(p, front, day, last, key);
      assert forall n :: 0 <= n < |front| ==> front[n] == puts[n];
    }
  }

  lemma HasLegSnoc(ps: seq<Position>, key: Check)
    requires ps != []
    ensures HasLeg(ps, key) <==> HasLeg(ps[..|ps| - 1], key) || OpenLeg(ps[|ps| - 1], key)
  {
    var front := ps[..|ps| - 1];
    assert forall i :: 0 <= i < |front| ==> front[i] == ps[i];
    if HasLeg(front, key) {
      var i :| 0 <= i < |front| && OpenLeg(front[i], key);
      assert OpenLeg(ps[i], key);
    }
  }

  lemma {:induction false} PositionChecksHas(ps: seq<Position>, day: int, last: map<Check, int>, key: Check)
    ensures key in PositionChecks(ps, day, last)
            <==> key.day == day && !(key in last && last[key] == day) && HasLeg(ps, key)
  {
    if ps != [] {
      var p := ps[|ps| - 1];
      PositionChecksHas(ps[..|ps| - 1], day, last, key);
      LegChecksHas(p, p.puts, day, last, key);
      HasLegSnoc(ps, key);
    }
  }

  /** The check is of put m of position a. */
  ghost predicate LegAt(ps: seq<Position>, key: Check, a: int, m: int) {
    && 0 <= a < |ps| && !ps[a].closed && ps[a].ticker == key.ticker
    && 0 <= m < |ps[a].puts| && ps[a].puts[m].strike == key.strike && ps[a].puts[m].expires == key.day
  }

  lemma {:induction false} PutAt(p: Position, puts: seq<Put>, day: int, last: map<Check, int>, i: nat) returns (m: int)
    requires i < |LegChecks(p, puts, day, last)|
    ensures 0 <= m < |puts| && puts[m].expires == day
    ensures LegChecks(p, puts, day, last)[i] == Check(day, p.ticker, puts[m].strike)
  {
    var front := puts[..|puts| - 1];
    if i < |LegChecks(p, front, day, last)| {
      m := PutAt(p, front, day, last, i);
    } else {
      m := |front|;
    }
  }

  lemma {:induction false} PutsInOrder(p: Position, puts: seq<Put>, day: int, last: map<Check, int>, i: nat, j: nat)
    returns (m: int, n: int)
    requires i < j < |LegChecks(p, puts, day, last)|
    ensures 0 <= m < n < |puts| && puts[m].expires == day == puts[n].expires
    ensures LegChecks(p, puts, day, last)[i] == Check(day, p.ticker, puts[m].strike)
    ensures LegChecks(p, puts, day, last)[j] == Check(day, p.ticker, puts[n].strike)
  {
    var front := puts[..|puts| - 1];
    if j < |LegChecks(p, front, day, last)| {
      m, n := PutsInOrder(p, front, day, last, i, j);
    } else {
      m := PutAt(p, front, day, last, i);
      n := |front|;
    }
  }

  lemma {:induction false} CheckAt(ps: seq<Position>, day: int, last: map<Check, int>, i: nat) returns (a: int, m: int)
    requires i < |PositionChecks(ps, day, last)|
    ensures LegAt(ps, PositionChecks(ps, day, last)[i], a, m)
  {
    var front, p := ps[..|ps| - 1], ps[|ps| - 1];
    var before := PositionChecks(front, day, last);
    if i < |before| {
      a, m := CheckAt(front, day, last, i);
    } else {
      a := |front|;
      m := PutAt(p, p.puts, day, last, i - |before|);
    }
  }

  /** The checks due at a visit come position by position, and put by put. */
  lemma {:induction false} ChecksInOrder(ps: seq<Position>, day: int, last: map<Check, int>, i: nat, j: nat)
    returns (a: int, m: int, b: int, n: int)
    requires i < j < |PositionChecks(ps, day, last)|
    ensures LegAt(ps, PositionChecks(ps, day, last)[i], a, m) && LegAt(ps, PositionChecks(ps, day, last)[j], b, n)
    ensures a < b || (a == b && m < n)
  {
    var front, p := ps[..|ps| - 1], ps[|ps| - 1];
    var before := PositionChecks(front, day, last);
    if j < |before| {
      a, m, b, n := ChecksInOrder(front, day, last, i, j);
    } else if i < |before| {
      a, m := CheckAt(front, day, last, i);
      b := |front|;
      n := PutAt(p, p.puts, day, last, j - |before|);
    } else {
      a, b := |front|, |front|;
      m, n := PutsInOrder(p, p.puts, day, last, i - |before|, j - |before|);
    }
  }

  function Registers(visits: seq<Visit>): Registries {
    AfterVisits(map[], visits)
  }

  /** It is the key's day, the clock has passed 15:30, and the leg is in the book. */
  ghost predicate Expiring(v: Visit, key: Check) {
    v.book.Some? && HasLeg(v.book.value, key) && v.now / 1440 == key.day && v.now % 1440 >= 15 * 60 + 30
  }

  /** A visit of this registry that saw the leg expiring and whose alert run succeeded. */
  ghost predicate CheckedBy(v: Visit, name: string, key: Check) {
    RegistryName(v.account) == name && v.runSucceeds && Expiring(v, key)
  }

  ghost predicate Checked(visits: seq<Visit>, n: nat, name: string, key: Check)
    requires n <= |visits|
  {
    exists j :: 0 <= j < n && CheckedBy(visits[j], name, key)
  }

  /** Nothing but a check's own day is ever written against it. */
  ghost predicate OwnDays(last: map<Check, int>) {
    forall key :: key in last ==> last[key] == key.day
  }

  lemma DueAtMeans(rs: Registries, v: Visit, key: Check)
    requires OwnDays(RegistryOf(rs, RegistryName(v.account)))
    ensures key in DueAt(rs, v) <==> Expiring(v, key) && key !in RegistryOf(rs, RegistryName(v.account))
  {
    var last := RegistryOf(rs, RegistryName(v.account));
    TextOrderIsTimeOrder(EXPIRY_CHECK, Minute(v.now));
    assert Hhmm(EXPIRY_CHECK) == "15:30";
    if v.book.Some? { PositionChecksHas(v.book.value, Day(v.now), last, key); }
  }

  lemma AfterVisitMeans(rs: Registries, v: Visit, name: string, key: Check)
    requires OwnDays(RegistryOf(rs, name))
    ensures OwnDays(RegistryOf(AfterVisit(rs, v), name))
    ensures key in RegistryOf(AfterVisit(rs, v), name) <==> key in RegistryOf(rs, name) || CheckedBy(v, name, key)
  {
    if RegistryName(v.account) == name {
      forall k ensures k in DueAt(rs, v) <==> Expiring(v, k) && k !in RegistryOf(rs, name) {
        DueAtMeans(rs, v, k);
      }
    }
  }

  /** A key is in a registry exactly when a visit of that registry has checked it. */
  lemma {:induction false} RegistersMean(visits: seq<Visit>, name: string, key: Check)
    ensures OwnDays(RegistryOf(Registers(visits), name))
    ensures key in RegistryOf(Registers(visits), name) <==> Checked(visits, |visits|, name, key)
  {
    if visits != [] {
      var front, last := visits[..|visits| - 1], visits[|visits| - 1];
      RegistersMean(front, name, key);
      AfterVisitMeans(Registers(front), last, name, key);
      assert forall j :: 0 <= j < |front| ==> front[j] == visits[j];
    }
  }

  /** A leg is due at a visit exactly when it is expiring and no earlier visit of the same
      registry has checked it: from 15:30 on it stays due until an alert run succeeds,
      whatever failed before, and then it is not due again. */
  lemma DueUntilChecked(visits: seq<Visit>, k: nat, key: Check)
    requires k < |visits|
    ensures key in DueAt(Registers(visits[..k]), visits[k])
            <==> Expiring(visits[k], key) && !Checked(visits, k, RegistryName(visits[k].account), key)
  {
    var name := RegistryName(visits[k].account);
    RegistersMean(visits[..k], name, key);
    DueAtMeans(Registers(visits[..k]), visits[k], key);
    assert forall j :: 0 <= j < k ==> visits[..k][j] == visits[j];
  }

  /** The visits of one registry. */
  function Only(visits: seq<Visit>, name: string): seq<Visit> {
    if visits == [] then []
    else
      var last := visits[|visits| - 1];
      Only(visits[..|visits| - 1], name) + (if RegistryName(last.account) == name then [last] else [])
  }

  /** What is due for an account depends on its own visits alone. */
  lemma {:induction false} AccountsAreApart(visits: seq<Visit>, v: Visit)
    ensures RegistryOf(Registers(visits), RegistryName(v.account))
            == RegistryOf(Registers(Only(visits, RegistryName(v.account))), RegistryName(v.account))
    ensures DueAt(Registers(visits), v) == DueAt(Registers(Only(visits, RegistryName(v.account))), v)
  {
    if visits != [] {
      var name := RegistryName(v.account);
      var front, last := visits[..|visits| - 1], visits[|visits| - 1];
      AccountsAreApart(front, v);
      if RegistryName(last.account) == name {
        assert (Only(front, name) + [last])[..|Only(front, name)|] == Only(front, name);
      } else {
        assert Only(front, name) + [] == Only(front, name);
      }
    }
  }

  // ---- Each real account by itself ---------------------------------------------

  /** A turn that cannot read the registry changes nothing and finds nothing due. */
  lemma {:induction false} NothingRead(rs: Registries, visits: seq<Visit>)
    requires forall i :: 0 <= i < |visits| ==> visits[i].book.None?
    ensures AfterVisits(rs, visits) == rs
    ensures forall i :: 0 <= i < |visits| ==> DueAt(rs, visits[i]) == []
  {
    if visits != [] { NothingRead(rs, visits[..|visits| - 1]); }
  }

  /** A tick during which the registry of accounts cannot be read leaves every registry of
      checks as it was. */
  lemma UnreadableTickChangesNothing(rs: Registries, t: Tick)
    requires t.Complete() && t.first.Unreadable?
    requires forall i :: 0 <= i < |t.turns| ==> t.turns[i].again.Unreadable?
    ensures AfterVisits(rs, t.Visits()) == rs
    ensures forall i :: 0 <= i < |t.Visits()| ==> DueAt(rs, t.Visits()[i]) == []
  {
    NothingRead(rs, t.Visits());
  }

  /** Every read of the tick gives the same; and a registry that can be read has someone to
      visit, whom it knows. */
  ghost predicate Steady(t: Tick) {
    && t.Complete() && (forall i :: 0 <= i < |t.turns| ==> t.turns[i].again == t.first)
    && (t.first.Listed? ==> t.first.scheduled != [] && forall s :: s in t.first.scheduled ==> s in t.first.registered)
  }

  /** What the registry file gives to a read. */
  function ListingOf(r: Accounts.Registry): Listing {
    Listed(Accounts.ScheduledIds(r.accounts), Accounts.Ids(r.accounts), r.active)
  }

  lemma {:induction false} ScheduledHas(accts: seq<Accounts.Account>, id: string)
    ensures id in Accounts.ScheduledIds(accts) <==>
            exists i :: 0 <= i < |accts| && accts[i].id == id && !accts[i].archived
  {
    if accts != [] {
      var front := accts[..|accts| - 1];
      ScheduledHas(front, id);
      assert forall i :: 0 <= i < |front| ==> front[i] == accts[i];
    }
  }

  /** Every registry the operations leave has the primary to visit, and knows whom it visits. */
  lemma RegistryIsVisitable(r: Accounts.Registry)
    requires AccountTheorems.Inv(r)
    ensures var l := ListingOf(r);
            "primary" in l.scheduled && l.active in l.scheduled && forall s :: s in l.scheduled ==> s in l.registered
  {
    ScheduledHas(r.accounts, "primary");
    ScheduledHas(r.accounts, r.active);
    forall s | s in ListingOf(r).scheduled ensures s in ListingOf(r).registered {
      ScheduledHas(r.accounts, s);
    }
  }

  /** A tick that could list the accounts gives each of them one turn, in the order listed;
      one that could not, or that found none, gives one turn to the active book. */
  lemma TurnsMean(t: Tick)
    requires t.Complete()
    ensures t.first.Listed? && t.first.scheduled != [] ==>
              && |t.Visits()| == |t.first.scheduled|
              && forall i :: 0 <= i < |t.Visits()| ==> t.Visits()[i].account == Some(t.first.scheduled[i])
    ensures t.first.Unreadable? || t.first.scheduled == [] ==> |t.Visits()| == 1 && t.Visits()[0].account == None
    ensures forall i :: 0 <= i < |t.Visits()| ==>
              t.Visits()[i].now == t.now && t.Visits()[i].runSucceeds == t.turns[i].runSucceeds
  {
  }

  /** A turn reads the book of its own account, as long as that is registered when the
      registry is read again; without an account, the one active then; and when the registry
      cannot be read again, none. */
  lemma TurnReads(t: Tick, i: nat, id: string)
    requires t.Complete() && i < |t.turns|
    ensures var v, turn := t.Visits()[i], t.turns[i];
            id in turn.books && v.whose == Some(id) && v.book == Some(turn.books[id])
            <==> && id in turn.books && turn.again.Listed?
                 && ((v.account == Some(id) && id in turn.again.registered)
                     || (v.account == None && id == turn.again.active))
    ensures t.turns[i].again.Unreadable? ==> t.Visits()[i].book == None
  {
  }

  function Live(): Accounts.Account -> bool {
    (a: Accounts.Account) => !a.archived
  }

  lemma {:induction false} ScheduledPicks(accts: seq<Accounts.Account>) returns (at: seq<int>)
    ensures Picks(at, accts, Live()) && |Accounts.ScheduledIds(accts)| == |at|
    ensures forall i :: 0 <= i < |at| ==> Accounts.ScheduledIds(accts)[i] == accts[at[i]].id
  {
    at := [];
    if accts != [] {
      var front, last := accts[..|accts| - 1], accts[|accts| - 1];
      var before := ScheduledPicks(front);
      FrontLast(accts);
      PicksSnoc(before, front, last, Live());
      at := before + (if Live()(last) then [|front|] else []);
    }
  }

  /** A turn is a book's exactly when the book is where the turn's account was listed. */
  lemma TurnIsOf(r: Accounts.Registry, t: Tick, at: seq<int>, i: nat, k: nat)
    requires AccountTheorems.DistinctIds(r.accounts) && t.Complete() && t.first == ListingOf(r) && k < |r.accounts|
    requires t.first.scheduled != [] && |at| == |t.first.scheduled| && i < |at| && 0 <= at[i] < |r.accounts|
    requires t.first.scheduled[i] == r.accounts[at[i]].id
    ensures t.Visits()[i].account == Some(r.accounts[k].id) <==> at[i] == k
  {
    TurnsMean(t);
    SamePlace(r.accounts, at[i], k);
  }

  lemma SamePlace(accts: seq<Accounts.Account>, i: nat, k: nat)
    requires AccountTheorems.DistinctIds(accts) && i < |accts| && k < |accts|
    ensures accts[i].id == accts[k].id <==> i == k
  {
  }

  /** The turns a book has in a tick. */
  ghost function TurnsOf(t: Tick, id: string): set<int>
    requires t.Complete()
  {
    set i | 0 <= i < |t.Visits()| && t.Visits()[i].account == Some(id)
  }

  ghost function PlacesIn(at: seq<int>, k: int): set<int> {
    set i | 0 <= i < |at| && at[i] == k
  }

  lemma OnePlace(at: seq<int>, k: int)
    requires forall i, j :: 0 <= i < j < |at| ==> at[i] < at[j]
    ensures if k in at then exists i :: PlacesIn(at, k) == {i} else PlacesIn(at, k) == {}
  {
    if k in at {
      var i :| 0 <= i < |at| && at[i] == k;
      assert PlacesIn(at, k) == {i};
    }
  }

  lemma TurnsArePlaces(r: Accounts.Registry, t: Tick, at: seq<int>, k: nat)
    requires AccountTheorems.Inv(r) && t.Complete() && t.first == ListingOf(r) && k < |r.accounts|
    requires t.first.scheduled != [] && |at| == |t.first.scheduled|
    requires forall i :: 0 <= i < |at| ==> 0 <= at[i] < |r.accounts| && t.first.scheduled[i] == r.accounts[at[i]].id
    ensures TurnsOf(t, r.accounts[k].id) == PlacesIn(at, k)
  {
    TurnsMean(t);
    forall i | 0 <= i < |at| ensures i in TurnsOf(t, r.accounts[k].id) <==> i in PlacesIn(at, k) {
      TurnIsOf(r, t, at, i, k);
    }
  }

  /** From any registry the operations leave: every book that is not archived has exactly
      one turn in the tick, and no other book has any. */
  lemma EachBookHasOneTurn(r: Accounts.Registry, t: Tick, k: nat)
    requires AccountTheorems.Inv(r) && t.Complete() && t.first == ListingOf(r) && k < |r.accounts|
    ensures if r.accounts[k].archived then TurnsOf(t, r.accounts[k].id) == {}
            else exists i :: TurnsOf(t, r.accounts[k].id) == {i}
  {
    RegistryIsVisitable(r);
    var at := ScheduledPicks(r.accounts);
    TurnsArePlaces(r, t, at, k);
    OnePlace(at, k);
    assert k in at <==> Live()(r.accounts[k]);
  }

  /** The book the visit reads, if any, is that of the account whose registry it uses. */
  ghost predicate OwnBook(v: Visit) {
    v.book.Some? ==> v.whose == Some(RegistryName(v.account))
  }

  /** A visit reads a book under another account's registry exactly when the registry of
      accounts listed nobody at the first read and could be read, with some other book
      than the primary active, at the second. */
  lemma MisfiledExactly(t: Tick, i: nat)
    requires t.Complete() && i < |t.turns|
    ensures var v := t.Visits()[i];
            v.whose.Some? && v.whose != Some(RegistryName(v.account))
            <==> AccountIds(t.first) == [None] && t.turns[i].again.Listed? && t.turns[i].again.active != "primary"
  {
  }

  lemma SteadyIsOwn(t: Tick, i: nat)
    requires Steady(t) && i < |t.turns|
    ensures OwnBook(t.Visits()[i])
  {
    MisfiledExactly(t, i);
  }

  ghost predicate AllSteady(ticks: seq<Tick>) {
    forall i :: 0 <= i < |ticks| ==> Steady(ticks[i])
  }

  /** The visits of a run of ticks. */
  ghost function AllVisits(ticks: seq<Tick>): seq<Visit>
    requires AllSteady(ticks)
  {
    if ticks == [] then [] else AllVisits(ticks[..|ticks| - 1]) + ticks[|ticks| - 1].Visits()
  }

  lemma {:induction false} SteadyRunsAreOwn(ticks: seq<Tick>)
    requires AllSteady(ticks)
    ensures forall k :: 0 <= k < |AllVisits(ticks)| ==> OwnBook(AllVisits(ticks)[k])
  {
    if ticks != [] {
      var t := ticks[|ticks| - 1];
      SteadyRunsAreOwn(ticks[..|ticks| - 1]);
      forall i | 0 <= i < |t.turns| ensures OwnBook(t.Visits()[i]) {
        SteadyIsOwn(t, i);
      }
    }
  }

  /** The visits that read the book of this account. */
  function Reading(visits: seq<Visit>, a: string): seq<Visit> {
    if visits == [] then []
    else
      var last := visits[|visits| - 1];
      Reading(visits[..|visits| - 1], a) + (if last.book.Some? && last.whose == Some(a) then [last] else [])
  }

  lemma {:induction false} OnlyItsBook(visits: seq<Visit>, a: string)
    requires forall k :: 0 <= k < |visits| ==> OwnBook(visits[k])
    ensures RegistryOf(Registers(visits), a) == RegistryOf(Registers(Reading(visits, a)), a)
  {
    if visits != [] {
      var front, last := visits[..|visits| - 1], visits[|visits| - 1];
      OnlyItsBook(front, a);
      if last.book.Some? && last.whose == Some(a) {
        assert (Reading(front, a) + [last])[..|Reading(front, a)|] == Reading(front, a);
      } else {
        assert Reading(front, a) + [] == Reading(front, a);
      }
    }
  }

  /** Over any run of steady ticks, what is due for an account depends on nothing but the
      visits that read that account's own book. */
  lemma RealAccountsAreApart(ticks: seq<Tick>, v: Visit)
    requires AllSteady(ticks)
    ensures DueAt(Registers(AllVisits(ticks)), v)
            == DueAt(Registers(Reading(AllVisits(ticks), RegistryName(v.account))), v)
  {
    SteadyRunsAreOwn(ticks);
    OnlyItsBook(AllVisits(ticks), RegistryName(v.account));
  }

  /** And a leg is due exactly until a visit that read it in that very book has had a
      successful alert run. */
  lemma DueUntilItsBookIsChecked(ticks: seq<Tick>, k: nat, key: Check)
    requires AllSteady(ticks)
    requires k < |AllVisits(ticks)|
    ensures var visits := AllVisits(ticks);
            key in DueAt(Registers(visits[..k]), visits[k])
            <==> Expiring(visits[k], key)
                 && !exists j ::
                   && 0 <= j < k && visits[j].whose == visits[k].whose
                   && visits[j].runSucceeds && Expiring(visits[j], key)
  {
    var visits := AllVisits(ticks);
    SteadyRunsAreOwn(ticks);
    DueUntilChecked(visits, k, key);
    var name := RegistryName(visits[k].account);
    if Expiring(visits[k], key) {
      assert OwnBook(visits[k]);
      forall j | 0 <= j < k
        ensures CheckedBy(visits[j], name, key)
                <==> visits[j].whose == visits[k].whose && visits[j].runSucceeds && Expiring(visits[j], key)
      {
        assert OwnBook(visits[j]);
      }
    }
  }
}
