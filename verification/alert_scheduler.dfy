/** backend/alert_scheduler.py: which slots a tick claims, and the mandatory checks on the
    day a put expires. An instant is a number of minutes of the ET wall clock; day 0 is a
    Monday. */
module AlertScheduler {
  import opened Common
  import opened Strings

  function Day(now: int): int {
    now / 1440
  }

  function Minute(now: int): (m: int)
    ensures 0 <= m < 1440
  {
    now % 1440
  }

  /** 0 is Monday. */
  function Weekday(day: int): int {
    day % 7
  }

  // ---- "HH:MM" -----------------------------------------------------------------

  function Digit(n: int): char
    requires 0 <= n <= 9
  {
    '0' + n as char
  }

  function TwoDigits(n: int): string
    requires 0 <= n <= 99
  {
    [Digit(n / 10), Digit(n % 10)]
  }

  /** strftime("%H:%M") */
  function Hhmm(minute: int): string
    requires 0 <= minute < 1440
  {
    TwoDigits(minute / 60) + ":" + TwoDigits(minute % 60)
  }

  lemma LeChar(a: char, s: string, b: char, t: string)
    ensures Le([a] + s, [b] + t) <==> a < b || (a == b && Le(s, t))
  {
    assert ([a] + s)[1..] == s && ([b] + t)[1..] == t;
  }

  /** Comparing two-digit numbers, and then what follows, as strings or as numbers. */
  lemma LeTwoDigits(a: int, s: string, b: int, t: string)
    requires 0 <= a <= 99 && 0 <= b <= 99
    ensures Le(TwoDigits(a) + s, TwoDigits(b) + t) <==> a < b || (a == b && Le(s, t))
  {
    LeChar(Digit(a / 10), [Digit(a % 10)] + s, Digit(b / 10), [Digit(b % 10)] + t);
    LeChar(Digit(a % 10), s, Digit(b % 10), t);
    assert TwoDigits(a) + s == [Digit(a / 10)] + ([Digit(a % 10)] + s);
    assert TwoDigits(b) + t == [Digit(b / 10)] + ([Digit(b % 10)] + t);
  }

  /** The order of the texts is the order of the times. */
  lemma TextOrderIsTimeOrder(a: int, b: int)
    requires 0 <= a < 1440 && 0 <= b < 1440
    ensures Le(Hhmm(a), Hhmm(b)) <==> a <= b
  {
    LeTwoDigits(a % 60, "", b % 60, "");
    assert TwoDigits(a % 60) + "" == TwoDigits(a % 60) && TwoDigits(b % 60) + "" == TwoDigits(b % 60);
    LeChar(':', TwoDigits(a % 60), ':', TwoDigits(b % 60));
    LeTwoDigits(a / 60, ":" + TwoDigits(a % 60), b / 60, ":" + TwoDigits(b % 60));
    assert TwoDigits(a / 60) + ":" + TwoDigits(a % 60) == TwoDigits(a / 60) + (":" + TwoDigits(a % 60));
    assert TwoDigits(b / 60) + ":" + TwoDigits(b % 60) == TwoDigits(b / 60) + (":" + TwoDigits(b % 60));
  }

  // ---- Slots -------------------------------------------------------------------

  predicate Due(slot: string, now: int, lastRun: map<string, int>) {
    Le(slot, Hhmm(Minute(now))) && !(slot in lastRun && lastRun[slot] == Day(now))
  }

  function DueOf(schedule: seq<string>, now: int, lastRun: map<string, int>): seq<string> {
    if schedule == [] then []
    else DueOf(schedule[..|schedule| - 1], now, lastRun)
         + (if Due(schedule[|schedule| - 1], now, lastRun) then [schedule[|schedule| - 1]] else [])
  }

  function DueSlots(schedule: seq<string>, now: int, lastRun: map<string, int>): seq<string> {
    if Weekday(Day(now)) >= 5 then [] else DueOf(schedule, now, lastRun)
  }

  /** The registry with the day written against each of the keys. */
  function Stamped<K>(last: map<K, int>, keys: seq<K>, day: int): map<K, int> {
    map k | k in last.Keys + Members(keys) :: if k in keys then day else last[k]
  }

  function Members<T>(s: seq<T>): set<T> {
    set x | x in s
  }

  lemma StampedSnoc<K>(last: map<K, int>, keys: seq<K>, n: nat, day: int)
    requires n < |keys|
    ensures Stamped(last, keys[..n + 1], day) == Stamped(last, keys[..n], day)[keys[n] := day]
  {
    TakeSnoc(keys, n + 1);
  }

  method StampAll<K(==)>(last: map<K, int>, keys: seq<K>, day: int) returns (r: map<K, int>)
    ensures r == Stamped(last, keys, day)
  {
    r := last;
    assert Stamped(last, keys[..0], day) == last;
    for i := 0 to |keys|
      invariant r == Stamped(last, keys[..i], day)
    {
      StampedSnoc(last, keys, i, day);
      r := r[keys[i] := day];
    }
    TakeAll(keys);
  }

  class Scheduler {
    const schedule: seq<string>
    var lastRun: map<string, int>

    constructor (schedule: seq<string>)
      ensures this.schedule == schedule && lastRun == map[]
    {
      this.schedule := schedule;
      lastRun := map[];
    }

    method FindDue(now: int) returns (due: seq<string>)
      ensures due == DueSlots(schedule, now, lastRun)
    {
      if Weekday(Day(now)) >= 5 {
        return [];
      }
      due := [];
      for i := 0 to |schedule|
        invariant due == DueOf(schedule[..i], now, lastRun)
      {
        assert schedule[..i + 1][..i] == schedule[..i];
        if Due(schedule[i], now, lastRun) {
          due := due + [schedule[i]];
        }
      }
      TakeAll(schedule);
    }

    /** Claims every due slot at once; one alert pass over each account covers them all. */
    method Tick(now: int) returns (due: seq<string>)
      modifies this
      ensures due == DueSlots(schedule, now, old(lastRun))
      ensures lastRun == Stamped(old(lastRun), due, Day(now))
    {
      due := FindDue(now);
      if due == [] {
        assert Stamped(lastRun, due, Day(now)) == lastRun;
        return;
      }
      lastRun := StampAll(lastRun, due, Day(now));
    }
  }

  // ---- Mandatory expiry checks -------------------------------------------------

  /** 15:30 */
  const EXPIRY_CHECK := 930

  /** A short put, by the day it expires. */
  datatype Put = Put(expires: int, strike: string)

  datatype Position = Position(ticker: string, closed: bool, puts: seq<Put>)

  /** "<day>:expiry:<ticker>:<strike>" */
  datatype Check = Check(day: int, ticker: string, strike: string)

  function LegChecks(p: Position, puts: seq<Put>, day: int, last: map<Check, int>): seq<Check> {
    if puts == [] then []
    else
      var put := puts[|puts| - 1];
      var key := Check(day, p.ticker, put.strike);
      LegChecks(p, puts[..|puts| - 1], day, last)
      + (if put.expires == day && !(key in last && last[key] == day) then [key] else [])
  }

  function PositionChecks(ps: seq<Position>, day: int, last: map<Check, int>): seq<Check> {
    if ps == [] then []
    else
      var p := ps[|ps| - 1];
      PositionChecks(ps[..|ps| - 1], day, last) + (if p.closed then [] else LegChecks(p, p.puts, day, last))
  }

  function MandatoryChecks(ps: seq<Position>, now: int, last: map<Check, int>): seq<Check> {
    if !Le("15:30", Hhmm(Minute(now))) then [] else PositionChecks(ps, Day(now), last)
  }

  method FindMandatory(ps: seq<Position>, now: int, last: map<Check, int>) returns (due: seq<Check>)
    ensures due == MandatoryChecks(ps, now, last)
  {
    due := [];
    if !Le("15:30", Hhmm(Minute(now))) {
      return;
    }
    var day := Day(now);
    for i := 0 to |ps|
      invariant due == PositionChecks(ps[..i], day, last)
    {
      assert ps[..i + 1][..i] == ps[..i];
      if !ps[i].closed {
        var legs := FindLegs(ps[i], day, last);
        due := due + legs;
      }
    }
    TakeAll(ps);
  }

  method FindLegs(p: Position, day: int, last: map<Check, int>) returns (legs: seq<Check>)
    ensures legs == LegChecks(p, p.puts, day, last)
  {
    legs := [];
    for n := 0 to |p.puts|
      invariant legs == LegChecks(p, p.puts[..n], day, last)
    {
      assert p.puts[..n + 1][..n] == p.puts[..n];
      var key := Check(day, p.ticker, p.puts[n].strike);
      if p.puts[n].expires == day && !(key in last && last[key] == day) {
        legs := legs + [key];
      }
    }
    TakeAll(p.puts);
  }

  /** What one read of the registry of accounts gives: the accounts to visit, all those
      that are registered, and the active one. */
  datatype Listing = Unreadable | Listed(scheduled: seq<string>, registered: set<string>, active: string)

  /** Whom a tick visits. None is "just the active book". */
  function AccountIds(first: Listing): seq<Option<string>> {
    if first.Unreadable? || first.scheduled == [] then [None]
    else seq(|first.scheduled|, i requires 0 <= i < |first.scheduled| => Some(first.scheduled[i]))
  }

  /** Whose book a turn reads. Entering an account, or finding the active one, reads the
      registry again; when that fails, the turn reads nothing. */
  function Resolve(account: Option<string>, again: Listing): Option<string> {
    if again.Unreadable? then None
    else if account.None? then Some(again.active)
    else if account.value in again.registered then account
    else None
  }

  /** What one turn meets: the second read, the books that can be read, and whether an
      alert run, if there is one, succeeds. */
  datatype Turn = Turn(again: Listing, books: map<string, seq<Position>>, runSucceeds: bool)

  datatype Visit = Visit(
      now: int, account: Option<string>, whose: Option<string>, book: Option<seq<Position>>, runSucceeds: bool)

  function VisitOf(now: int, account: Option<string>, turn: Turn): Visit {
    var whose := Resolve(account, turn.again);
    Visit(now, account, whose,
          if whose.Some? && whose.value in turn.books then Some(turn.books[whose.value]) else None, turn.runSucceeds)
  }

  /** The name of the registry an account uses: the primary and None share one. */
  function RegistryName(account: Option<string>): string {
    if account.None? then "primary" else account.value
  }

  type Registries = map<string, map<Check, int>>

  function RegistryOf(rs: Registries, name: string): map<Check, int> {
    if name in rs then rs[name] else map[]
  }

  function DueAt(rs: Registries, v: Visit): seq<Check> {
    if v.book.None? then [] else MandatoryChecks(v.book.value, v.now, RegistryOf(rs, RegistryName(v.account)))
  }

  /** A run that succeeds stamps what was due; anything else stamps nothing. */
  function AfterVisit(rs: Registries, v: Visit): Registries {
    var due := DueAt(rs, v);
    if due == [] || !v.runSucceeds then rs
    else rs[RegistryName(v.account) := Stamped(RegistryOf(rs, RegistryName(v.account)), due, Day(v.now))]
  }

  function AfterVisits(rs: Registries, visits: seq<Visit>): Registries {
    if visits == [] then rs else AfterVisit(AfterVisits(rs, visits[..|visits| - 1]), visits[|visits| - 1])
  }

  /** One tick: the first read of the registry of accounts, and a turn for each account. */
  datatype Tick = Tick(now: int, first: Listing, turns: seq<Turn>) {
    predicate Complete() {
      |turns| == |AccountIds(first)|
    }

    function Visits(): seq<Visit>
      requires Complete()
    {
      seq(|turns|, i requires 0 <= i < |turns| => VisitOf(now, AccountIds(first)[i], turns[i]))
    }
  }

  /** The primary's registry stands apart from the others. */
  ghost predicate Mirrors(rs: Registries, shared: map<Check, int>, byAccount: Registries) {
    && RegistryOf(rs, "primary") == shared
    && forall a :: a != "primary" ==> RegistryOf(rs, a) == RegistryOf(byAccount, a)
  }

  lemma MirrorsStore(rs: Registries, shared: map<Check, int>, byAccount: Registries, name: string, m: map<Check, int>)
    requires Mirrors(rs, shared, byAccount)
    ensures name == "primary" ==> Mirrors(rs[name := m], m, byAccount)
    ensures name != "primary" ==> Mirrors(rs[name := m], shared, byAccount[name := m])
  {
    if name != "primary" {
      var all, others := rs[name := m], byAccount[name := m];
      forall a | a != "primary" ensures RegistryOf(all, a) == RegistryOf(others, a) {
        assert a != name ==> RegistryOf(rs, a) == RegistryOf(byAccount, a);
      }
    }
  }

  class ExpiryChecks {
    var shared: map<Check, int>
    var byAccount: map<string, map<Check, int>>

    constructor ()
      ensures shared == map[] && byAccount == map[]
    {
      shared, byAccount := map[], map[];
    }

    function Registry(account: Option<string>): map<Check, int>
      reads this
    {
      if account == None || account == Some("primary") then shared
      else RegistryOf(byAccount, account.value)
    }

    /** rs is what this object holds, by name. */
    ghost predicate Holds(rs: Registries)
      reads this
    {
      Mirrors(rs, shared, byAccount)
    }

    method RunCheck(v: Visit, ghost rs: Registries) returns (due: seq<Check>)
      requires Holds(rs)
      modifies this
      ensures due == DueAt(rs, v) && Holds(AfterVisit(rs, v))
    {
      var registry := Registry(v.account);
      due := [];
      if v.book.None? {
        return;
      }
      due := FindMandatory(v.book.value, v.now, registry);
      if due == [] || !v.runSucceeds {
        return;
      }
      var stamped := StampAll(registry, due, Day(v.now));
      MirrorsStore(rs, shared, byAccount, RegistryName(v.account), stamped);
      if v.account == None || v.account == Some("primary") {
        shared := stamped;
      } else {
        byAccount := byAccount[v.account.value := stamped];
      }
    }

    /** A whole tick, account by account. */
    method RunTick(t: Tick, ghost rs: Registries)
      requires t.Complete() && Holds(rs)
      modifies this
      ensures Holds(AfterVisits(rs, t.Visits()))
    {
      var ids := AccountIds(t.first);
      ghost var now := rs;
      for i := 0 to |ids|
        invariant now == AfterVisits(rs, t.Visits()[..i]) && Holds(now)
      {
        assert t.Visits()[..i + 1][..i] == t.Visits()[..i];
        var v := VisitOf(t.now, ids[i], t.turns[i]);
        var due := RunCheck(v, now);
        now := AfterVisit(now, v);
      }
      TakeAll(t.Visits());
    }
  }
}
