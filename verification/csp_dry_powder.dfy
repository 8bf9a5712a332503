/** backend/csp_dry_powder.py: the shadow put sleeve's per-day store, the outcomes it
    records, and the sizing of a sweep. Days are day numbers, money is in cents. */
module CspDryPowder {
  import opened Bags
  import opened Common
  import opened DayStore

  datatype Expiry = Missing | Unreadable(text: string) | On(day: int, text: string)

  datatype Key = Key(ticker: string, openedOn: int, expiry: Expiry)

  datatype Trade = Trade(key: Key, strike: int, contracts: nat, weeklyYield: Option<int>)

  datatype Outcome = Outcome(key: Key, strike: int, contracts: nat, wasAssigned: bool, close: int,
                             resolved: int, realizedYield: Option<int>)

  datatype DayFile = DayFile(trades: seq<Trade>, outcomes: seq<Outcome>)

  type Store = map<int, DayFile>

  /** A ticker's daily closes, in index order. */
  type Bars = seq<(int, int)>

  // ---- Recording ---------------------------------------------------------------

  function DayOf(store: Store, day: int): DayFile {
    if day in store then store[day] else DayFile([], [])
  }

  function Appended(store: Store, day: int, trades: seq<Trade>, outcomes: seq<Outcome>): Store {
    store[day := DayFile(DayOf(store, day).trades + trades, DayOf(store, day).outcomes + outcomes)]
  }

  function Recorded(store: Store, day: int, trades: seq<Trade>, outcomes: seq<Outcome>, keep: Limit): Store {
    Pruned(Appended(store, day, trades, outcomes), keep)
  }

  // ---- Resolving ---------------------------------------------------------------

  /** The last close whose day is not after the target. */
  function CloseOnOrBefore(bars: Bars, day: int): Option<int> {
    if bars == [] then None
    else if bars[|bars| - 1].0 <= day then Some(bars[|bars| - 1].1)
    else CloseOnOrBefore(bars[..|bars| - 1], day)
  }

  /** The last bar not after the day. */
  ghost predicate LatestBar(bars: Bars, day: int, k: int) {
    0 <= k < |bars| && bars[k].0 <= day && forall j :: k < j < |bars| ==> bars[j].0 > day
  }

  lemma {:induction false} CloseIsLatest(bars: Bars, day: int)
    ensures CloseOnOrBefore(bars, day).None? <==> forall k :: 0 <= k < |bars| ==> bars[k].0 > day
    ensures CloseOnOrBefore(bars, day).Some? ==>
              exists k :: LatestBar(bars, day, k) && bars[k].1 == CloseOnOrBefore(bars, day).value
  {
    if bars != [] {
      var front, last := bars[..|bars| - 1], |bars| - 1;
      CloseIsLatest(front, day);
      if bars[last].0 <= day {
        assert LatestBar(bars, day, last);
      } else {
        assert forall k :: 0 <= k < |front| ==> front[k] == bars[k];
        if CloseOnOrBefore(front, day).Some? {
          var k :| LatestBar(front, day, k) && front[k].1 == CloseOnOrBefore(front, day).value;
          assert LatestBar(bars, day, k);
        }
      }
    }
  }

  function BarsOf(market: map<string, Bars>, ticker: string): Bars {
    if ticker in market then market[ticker] else []
  }

  /** The outcome of one trade, once its expiration has passed and its close is known. */
  function Settled(t: Trade, today: int, asOf: int, market: map<string, Bars>): Option<Outcome> {
    if !t.key.expiry.On? || t.key.expiry.day > asOf then None
    else
      var close := CloseOnOrBefore(BarsOf(market, t.key.ticker), t.key.expiry.day);
      if close.None? then None
      else
        var put := close.value <= t.strike;
        Some(Outcome(t.key, t.strike, t.contracts, put, close.value, today,
                     if put then None else t.weeklyYield))
  }

  function KeysOf(outcomes: seq<Outcome>): (ks: set<Key>) {
    set i | 0 <= i < |outcomes| :: outcomes[i].key
  }

  /** The keys with an outcome in a day that is still stored. */
  function Resolved(store: Store): set<Key> {
    set d, i | d in store && 0 <= i < |store[d].outcomes| :: store[d].outcomes[i].key
  }

  /** Each trade whose key is still open is settled, and its key is open no more. */
  function SettleAll(
      trades: seq<Trade>, done: set<Key>, today: int, asOf: int, market: map<string, Bars>): seq<Outcome>
  {
    if trades == [] then []
    else
      var t := trades[|trades| - 1];
      SettleOne(SettleAll(trades[..|trades| - 1], done, today, asOf, market), t, done, Settled(t, today, asOf, market))
  }

  function SettleOne(before: seq<Outcome>, t: Trade, done: set<Key>, o: Option<Outcome>): seq<Outcome> {
    if t.key !in done && t.key !in KeysOf(before) && o.Some? then before + [o.value] else before
  }

  /** The trades of the given days, in order. */
  function TradesOf(store: Store, days: seq<int>): seq<Trade> {
    if days == [] then [] else TradesOf(store, days[..|days| - 1]) + DayOf(store, days[|days| - 1]).trades
  }

  method ResolvedKeys(store: Store, days: seq<int>) returns (done: set<Key>)
    requires forall d :: d in days <==> d in store
    ensures done == Resolved(store)
  {
    done := {};
    for i := 0 to |days|
      invariant done
                == set j, k | 0 <= j < i && 0 <= k < |DayOf(store, days[j]).outcomes|
                     :: DayOf(store, days[j]).outcomes[k].key
    {
      var day := DayOf(store, days[i]);
      for n := 0 to |day.outcomes|
        invariant done
                  == (set j, k | 0 <= j < i && 0 <= k < |DayOf(store, days[j]).outcomes|
                        :: DayOf(store, days[j]).outcomes[k].key)
                          + KeysOf(day.outcomes[..n])
      {
        assert day.outcomes[..n + 1] == day.outcomes[..n] + [day.outcomes[n]];
        KeysSnoc(day.outcomes[..n], day.outcomes[n]);
        done := done + {day.outcomes[n].key};
      }
      assert day.outcomes[..|day.outcomes|] == day.outcomes;
    }
    ResolvedByIndex(store, days);
  }

  lemma ResolvedByIndex(store: Store, days: seq<int>)
    requires forall d :: d in days <==> d in store
    ensures Resolved(store)
            == set j, k | 0 <= j < |days| && 0 <= k < |DayOf(store, days[j]).outcomes|
                 :: DayOf(store, days[j]).outcomes[k].key
  {
    var all := set j, k | 0 <= j < |days| && 0 <= k < |DayOf(store, days[j]).outcomes|
        :: DayOf(store, days[j]).outcomes[k].key;
    forall key ensures key in Resolved(store) <==> key in all {
      if key in Resolved(store) {
        var d, i :| d in store && 0 <= i < |store[d].outcomes| && store[d].outcomes[i].key == key;
        var j :| 0 <= j < |days| && days[j] == d;
        assert DayOf(store, days[j]).outcomes[i].key == key;
      }
      if key in all {
        var j, k :| 0 <= j < |days| && 0 <= k < |DayOf(store, days[j]).outcomes|
            && DayOf(store, days[j]).outcomes[k].key == key;
        assert days[j] in days && store[days[j]].outcomes[k].key == key;
      }
    }
  }

  lemma KeysSnoc(outcomes: seq<Outcome>, o: Outcome)
    ensures KeysOf(outcomes + [o]) == KeysOf(outcomes) + {o.key}
  {
    assert (outcomes + [o])[|outcomes|] == o;
    assert forall i :: 0 <= i < |outcomes| ==> (outcomes + [o])[i] == outcomes[i];
  }

  /** What a resolution appends to today's file. */
  function Outcomes(store: Store, days: seq<int>, today: int, asOf: int, market: map<string, Bars>): seq<Outcome>
  {
    SettleAll(TradesOf(store, days), Resolved(store), today, asOf, market)
  }

  method SettleDay(trades: seq<Trade>, settled: seq<Outcome>, shut: set<Key>, today: int, asOf: int,
                   market: map<string, Bars>, ghost earlier: seq<Trade>, ghost done: set<Key>)
    returns (out: seq<Outcome>, closed: set<Key>)
    requires settled == SettleAll(earlier, done, today, asOf, market) && shut == done + KeysOf(settled)
    ensures out == SettleAll(earlier + trades, done, today, asOf, market) && closed == done + KeysOf(out)
  {
    out, closed := settled, shut;
    assert earlier + trades[..0] == earlier;
    for n := 0 to |trades|
      invariant out == SettleAll(earlier + trades[..n], done, today, asOf, market) && closed == done + KeysOf(out)
    {
      AppendTake(earlier, trades, n);
      SettleSnoc(earlier + trades[..n], trades[n], done, today, asOf, market);
      var o := Settled(trades[n], today, asOf, market);
      if trades[n].key !in closed && o.Some? {
        KeysSnoc(out, o.value);
        out, closed := out + [o.value], closed + {o.value.key};
      }
    }
    TakeAll(trades);
  }

  lemma SettleSnoc(trades: seq<Trade>, t: Trade, done: set<Key>, today: int, asOf: int, market: map<string, Bars>)
    ensures SettleAll(trades + [t], done, today, asOf, market)
            == SettleOne(SettleAll(trades, done, today, asOf, market), t, done, Settled(t, today, asOf, market))
  {
    assert (trades + [t])[..|trades|] == trades;
  }

  // ---- Sizing a sweep ----------------------------------------------------------

  /** A name that had no qualifying strike, or the strike chosen for it. */
  datatype Look =
    | Passed(ticker: string)
    | Picked(ticker: string, expiry: Expiry, strike: Option<int>, weeklyYield: Option<int>)

  function Available(deployable: int, committed: int): int {
    if deployable - committed > 0 then deployable - committed else 0
  }

  /** Whole contracts of 100 shares that the cash secures. */
  function SizeContracts(strike: Option<int>, cash: int): nat {
    if strike.None? || strike.value <= 0 || cash <= 0 then 0 else Floor(cash, strike.value * 100)
  }

  function Floor(cash: nat, unit: int): nat
    requires unit > 0
  {
    cash / unit
  }

  /** The cash that secures n contracts. */
  function Cost(strike: int, n: nat): int {
    strike * 100 * n
  }

  function SizeOfLook(look: Look, deployable: int, committed: int): nat {
    if look.Passed? then 0 else SizeContracts(look.strike, Available(deployable, committed))
  }

  function Collateral(look: Look, n: nat): int {
    if look.Passed? || look.strike.None? then 0 else Cost(look.strike.value, n)
  }

  /** The cash committed to the first n names. */
  function Committed(looks: seq<Look>, n: nat, deployable: int): int
    requires n <= |looks|
  {
    if n == 0 then 0
    else
      var before := Committed(looks, n - 1, deployable);
      before + Collateral(looks[n - 1], SizeOfLook(looks[n - 1], deployable, before))
  }

  function SizeAt(looks: seq<Look>, n: nat, deployable: int): nat
    requires n < |looks|
  {
    SizeOfLook(looks[n], deployable, Committed(looks, n, deployable))
  }

  function TradeAt(looks: seq<Look>, n: nat, deployable: int, today: int): seq<Trade>
    requires n < |looks|
  {
    if looks[n].Passed? || looks[n].strike.None? || SizeAt(looks, n, deployable) == 0 then []
    else
      var key := Key(looks[n].ticker, today, looks[n].expiry);
      [Trade(key, looks[n].strike.value, SizeAt(looks, n, deployable), looks[n].weeklyYield)]
  }

  function TradesUpTo(looks: seq<Look>, n: nat, deployable: int, today: int): seq<Trade>
    requires n <= |looks|
  {
    if n == 0 then [] else TradesUpTo(looks, n - 1, deployable, today) + TradeAt(looks, n - 1, deployable, today)
  }

  function TradesOfSweep(looks: seq<Look>, deployable: int, today: int): seq<Trade> {
    TradesUpTo(looks, |looks|, deployable, today)
  }

  method Sweep(looks: seq<Look>, deployable: int, today: int) returns (trades: seq<Trade>, committed: int)
    ensures trades == TradesOfSweep(looks, deployable, today) && committed == Committed(looks, |looks|, deployable)
  {
    trades, committed := [], 0;
    for i := 0 to |looks|
      invariant trades == TradesUpTo(looks, i, deployable, today) && committed == Committed(looks, i, deployable)
    {
      match looks[i]
      case Passed(_) =>
      case Picked(ticker, expiry, strike, weeklyYield) =>
        var n := SizeContracts(strike, Available(deployable, committed));
        if n > 0 {
          committed := committed + Cost(strike.value, n);
          trades := trades + [Trade(Key(ticker, today, expiry), strike.value, n, weeklyYield)];
        }
    }
  }

  lemma Divided(cash: int, unit: int)
    requires unit > 0
    ensures cash / unit * unit <= cash < (cash / unit + 1) * unit
  {
  }

  /** A name is given as many contracts as fit in what is left, and not one more. */
  lemma SizeIsMost(look: Look, deployable: int, committed: int)
    requires look.Picked? && look.strike.Some? && look.strike.value > 0
    ensures var n := SizeOfLook(look, deployable, committed);
            Collateral(look, n) <= Available(deployable, committed) < Collateral(look, n + 1)
  {
    var cash, unit := Available(deployable, committed), look.strike.value * 100;
    Divided(cash, unit);
    var n := SizeOfLook(look, deployable, committed);
    if cash > 0 {
      assert n == cash / unit;
    }
    Times(unit, n);
  }

  lemma Times(unit: int, n: nat)
    ensures unit * n == n * unit && unit * (n + 1) == (n + 1) * unit
  {
  }

  lemma StepCommits(looks: seq<Look>, n: nat, deployable: int)
    requires n < |looks|
    ensures var before, after := Committed(looks, n, deployable), Committed(looks, n + 1, deployable);
            before <= after <= before + Available(deployable, before)
  {
    var before := Committed(looks, n, deployable);
    var look := looks[n];
    if look.Picked? && look.strike.Some? && look.strike.value > 0 {
      SizeIsMost(look, deployable, before);
      NonNegative(look.strike.value * 100, SizeOfLook(look, deployable, before));
    }
  }

  lemma NonNegative(unit: int, n: nat)
    requires unit >= 0
    ensures unit * n >= 0
  {
  }

  /** A sweep never commits more than the deployable cash. */
  lemma {:induction false} CommittedFits(looks: seq<Look>, n: nat, deployable: int)
    requires n <= |looks|
    ensures 0 <= Committed(looks, n, deployable) <= Available(deployable, 0)
  {
    if n > 0 {
      CommittedFits(looks, n - 1, deployable);
      StepCommits(looks, n - 1, deployable);
    }
  }

  lemma {:induction false} CommittedGrows(looks: seq<Look>, m: nat, n: nat, deployable: int)
    requires m <= n <= |looks|
    ensures Committed(looks, m, deployable) <= Committed(looks, n, deployable)
  {
    if m < n {
      CommittedGrows(looks, m, n - 1, deployable);
      StepCommits(looks, n - 1, deployable);
    }
  }

  /** When a sweep ends, no name it picked has room for one more contract. */
  lemma NoRoomLeft(looks: seq<Look>, i: nat, deployable: int)
    requires i < |looks| && looks[i].Picked? && looks[i].strike.Some? && looks[i].strike.value > 0
    ensures Available(deployable, Committed(looks, |looks|, deployable)) < looks[i].strike.value * 100
  {
    var before, n := Committed(looks, i, deployable), SizeAt(looks, i, deployable);
    SizeIsMost(looks[i], deployable, before);
    OneMore(looks[i].strike.value * 100, n);
    CommittedGrows(looks, i + 1, |looks|, deployable);
    StepCommits(looks, i, deployable);
  }

  lemma OneMore(unit: int, n: nat)
    ensures unit * (n + 1) == unit * n + unit
  {
  }

  function CollateralOf(trades: seq<Trade>): int {
    if trades == [] then 0
    else CollateralOf(trades[..|trades| - 1]) + Cost(trades[|trades| - 1].strike, trades[|trades| - 1].contracts)
  }

  lemma TradeIsCommitted(looks: seq<Look>, n: nat, deployable: int, today: int, before: seq<Trade>)
    requires n < |looks|
    ensures CollateralOf(before + TradeAt(looks, n, deployable, today))
            == CollateralOf(before) + Collateral(looks[n], SizeAt(looks, n, deployable))
  {
    var at := TradeAt(looks, n, deployable, today);
    if at == [] {
      assert before + at == before;
      NoCost(looks[n]);
    } else {
      assert (before + at)[..|before|] == before;
    }
  }

  lemma NoCost(look: Look)
    ensures Collateral(look, 0) == 0
  {
  }

  lemma RecordedStep(looks: seq<Look>, n: nat, deployable: int, today: int)
    requires n < |looks|
    requires CollateralOf(TradesUpTo(looks, n, deployable, today)) == Committed(looks, n, deployable)
    ensures CollateralOf(TradesUpTo(looks, n + 1, deployable, today)) == Committed(looks, n + 1, deployable)
  {
    TradeIsCommitted(looks, n, deployable, today, TradesUpTo(looks, n, deployable, today));
  }

  /** The trades recorded are worth exactly what the sweep committed. */
  lemma {:induction false} CommittedIsRecorded(looks: seq<Look>, n: nat, deployable: int, today: int)
    requires n <= |looks|
    ensures CollateralOf(TradesUpTo(looks, n, deployable, today)) == Committed(looks, n, deployable)
  {
    if n > 0 {
      var m: nat := n - 1;
      CommittedIsRecorded(looks, m, deployable, today);
      RecordedStep(looks, m, deployable, today);
      assert n == m + 1;
    }
  }

  // ---- The store ---------------------------------------------------------------

  class DryPowderStore {
    const keep: Limit
    var days: Store

    constructor (keep: Limit)
      ensures this.keep == keep && days == map[]
    {
      this.keep := keep;
      days := map[];
    }

    method Record(day: int, trades: seq<Trade>, outcomes: seq<Outcome>)
      modifies this
      ensures days == Recorded(old(days), day, trades, outcomes, keep)
    {
      days := Appended(days, day, trades, outcomes);
      var removed;
      days, removed := Prune(days, keep);
    }

    method Scan(looks: seq<Look>, deployable: int, today: int)
      modifies this
      ensures days == Recorded(old(days), today, TradesOfSweep(looks, deployable, today), [], keep)
    {
      var trades, committed := Sweep(looks, deployable, today);
      Record(today, trades, []);
    }

    method ResolveOutcomes(today: int, asOf: Option<int>, market: map<string, Bars>)
      returns (resolved: seq<Outcome>, ghost order: seq<int>)
      modifies this
      ensures Ascending(order) && forall d :: d in order <==> d in old(days)
      ensures resolved == Outcomes(old(days), order, today, asOf.GetOr(today), market)
      ensures days == if resolved == [] then old(days) else Recorded(old(days), today, [], resolved, keep)
    {
      var stored := StoredDays(days);
      order := stored;
      resolved := ResolveDays(days, stored, today, asOf.GetOr(today), market);
      if resolved != [] {
        Record(today, [], resolved);
      }
    }
  }

  method ResolveDays(store: Store, days: seq<int>, today: int, asOf: int, market: map<string, Bars>)
    returns (resolved: seq<Outcome>)
    requires forall d :: d in days <==> d in store
    ensures resolved == Outcomes(store, days, today, asOf, market)
  {
    var done := ResolvedKeys(store, days);
    ghost var first := done;
    resolved := [];
    for i := 0 to |days|
      invariant resolved == SettleAll(TradesOf(store, days[..i]), first, today, asOf, market)
      invariant done == first + KeysOf(resolved)
    {
      TakeSnoc(days, i + 1);
      assert days[..i + 1][..i] == days[..i];
      resolved, done := SettleDay(DayOf(store, days[i]).trades, resolved, done, today, asOf, market,
                                  TradesOf(store, days[..i]), first);
    }
    TakeAll(days);
  }
}
