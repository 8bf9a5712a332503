/** Exactly one outcome per shadow trade, over every run of sweeps and resolutions, though
    the oldest days are thrown away. */
module CspTheorems {
  import opened Bags
  import opened Common
  import opened CspDryPowder
  import opened DayStore

  // ---- The invariant -----------------------------------------------------------

  /** A day's file holds that day's trades, and outcomes of trades not younger than it. */
  ghost predicate DayOk(file: DayFile, d: int) {
    && (forall i :: 0 <= i < |file.trades| ==> file.trades[i].key.openedOn == d)
    && (forall i :: 0 <= i < |file.outcomes| ==> file.outcomes[i].key.openedOn <= d)
  }

  ghost predicate StoreOk(store: Store, now: int) {
    forall d :: d in store ==> d <= now && DayOk(store[d], d)
  }

  ghost predicate OnceEach(history: seq<Outcome>) {
    forall i, j :: 0 <= i < j < |history| ==> history[i].key != history[j].key
  }

  /** As long as the day of a settled trade is stored, so is an outcome of it. */
  ghost predicate Remembered(store: Store, now: int, key: Key) {
    && key.openedOn <= now
    && (key.openedOn in store ==> key in Resolved(store))
    && (key.openedOn == now ==> now in store)
  }

  /** The store, and every outcome ever appended to it. */
  datatype World = World(store: Store, history: seq<Outcome>)

  ghost predicate Inv(w: World, now: int) {
    && StoreOk(w.store, now) && OnceEach(w.history)
    && forall i :: 0 <= i < |w.history| ==> Remembered(w.store, now, w.history[i].key)
  }

  // ---- Recording keeps it ------------------------------------------------------

  lemma RecordedOk(store: Store, now: int, day: int, trades: seq<Trade>, outcomes: seq<Outcome>, keep: Limit)
    requires StoreOk(store, now) && now <= day
    requires DayOk(DayFile(trades, outcomes), day)
    ensures StoreOk(Recorded(store, day, trades, outcomes, keep), day)
    ensures day in Recorded(store, day, trades, outcomes, keep)
  {
    var next := Appended(store, day, trades, outcomes);
    var was := DayOf(store, day);
    forall i | 0 <= i < |was.trades + trades| ensures (was.trades + trades)[i].key.openedOn == day {
      assert i >= |was.trades| ==> (was.trades + trades)[i] == trades[i - |was.trades|];
    }
    forall i | 0 <= i < |was.outcomes + outcomes| ensures (was.outcomes + outcomes)[i].key.openedOn <= day {
      assert i >= |was.outcomes| ==> (was.outcomes + outcomes)[i] == outcomes[i - |was.outcomes|];
    }
    NewestKept(next, keep, day);
  }

  /** Where an outcome is stored. */
  ghost predicate StoredAt(store: Store, d: int, i: int, key: Key) {
    d in store && 0 <= i < |store[d].outcomes| && store[d].outcomes[i].key == key
  }

  lemma ResolvedIsStored(store: Store, key: Key)
    ensures key in Resolved(store) <==> exists d, i :: StoredAt(store, d, i, key)
  {
    if key in Resolved(store) {
      var d, i :| d in store && 0 <= i < |store[d].outcomes| && store[d].outcomes[i].key == key;
      assert StoredAt(store, d, i, key);
    }
    if d, i :| StoredAt(store, d, i, key) {
      assert store[d].outcomes[i].key in Resolved(store);
    }
  }

  /** Appending forgets nothing. */
  lemma AppendedResolved(store: Store, day: int, trades: seq<Trade>, outcomes: seq<Outcome>, key: Key)
    requires key in Resolved(store) || key in KeysOf(outcomes)
    ensures key in Resolved(Appended(store, day, trades, outcomes))
  {
    var next := Appended(store, day, trades, outcomes);
    if key in Resolved(store) {
      ResolvedIsStored(store, key);
      var d, i :| StoredAt(store, d, i, key);
      assert StoredAt(next, d, i, key);
    } else {
      var i :| 0 <= i < |outcomes| && outcomes[i].key == key;
      assert StoredAt(next, day, |DayOf(store, day).outcomes| + i, key);
    }
    ResolvedIsStored(next, key);
  }

  /** Pruning forgets an outcome only together with the day of its trade. */
  lemma PrunedResolved(store: Store, now: int, key: Key, keep: Limit)
    requires StoreOk(store, now) && key in Resolved(store) && key.openedOn in Pruned(store, keep)
    ensures key in Resolved(Pruned(store, keep))
  {
    ResolvedIsStored(store, key);
    var d, i :| StoredAt(store, d, i, key);
    assert DayOk(store[d], d);
    KeptUpward(store, keep, key.openedOn, d);
    assert StoredAt(Pruned(store, keep), d, i, key);
    ResolvedIsStored(Pruned(store, keep), key);
  }

  lemma AppendedOk(store: Store, now: int, day: int, trades: seq<Trade>, outcomes: seq<Outcome>)
    requires StoreOk(store, now) && now <= day && DayOk(DayFile(trades, outcomes), day)
    ensures StoreOk(Appended(store, day, trades, outcomes), day)
  {
    var was := DayOf(store, day);
    forall i | 0 <= i < |was.trades + trades| ensures (was.trades + trades)[i].key.openedOn == day {
      assert i >= |was.trades| ==> (was.trades + trades)[i] == trades[i - |was.trades|];
    }
    forall i | 0 <= i < |was.outcomes + outcomes| ensures (was.outcomes + outcomes)[i].key.openedOn <= day {
      assert i >= |was.outcomes| ==> (was.outcomes + outcomes)[i] == outcomes[i - |was.outcomes|];
    }
  }

  lemma StaysRemembered(
      store: Store, now: int, day: int, trades: seq<Trade>, outcomes: seq<Outcome>, key: Key, keep: Limit)
    requires StoreOk(store, now) && now <= day && DayOk(DayFile(trades, outcomes), day)
    requires Remembered(store, now, key) || (key in KeysOf(outcomes) && key.openedOn <= day)
    ensures Remembered(Recorded(store, day, trades, outcomes, keep), day, key)
  {
    var next := Appended(store, day, trades, outcomes);
    AppendedOk(store, now, day, trades, outcomes);
    RecordedOk(store, now, day, trades, outcomes, keep);
    if key.openedOn in Recorded(store, day, trades, outcomes, keep) {
      assert key.openedOn in store || key.openedOn == day;
      AppendedResolved(store, day, trades, outcomes, key);
      PrunedResolved(next, day, key, keep);
    }
  }

  // ---- What a resolution appends -----------------------------------------------

  lemma {:induction false} SettleAllOnce(
      trades: seq<Trade>, done: set<Key>, today: int, asOf: int, market: map<string, Bars>)
    ensures var out := SettleAll(trades, done, today, asOf, market);
            OnceEach(out) && forall i :: 0 <= i < |out| ==> out[i].key !in done
  {
    if trades != [] {
      SettleAllOnce(trades[..|trades| - 1], done, today, asOf, market);
    }
  }

  ghost predicate Settles(trades: seq<Trade>, k: int, today: int, asOf: int, market: map<string, Bars>, o: Outcome) {
    0 <= k < |trades| && Settled(trades[k], today, asOf, market) == Some(o)
  }

  /** Every outcome is that of one of the trades, the first one with its key that settles. */
  lemma {:induction false} SettleAllFrom(
      trades: seq<Trade>, done: set<Key>, today: int, asOf: int, market: map<string, Bars>, i: nat)
    requires i < |SettleAll(trades, done, today, asOf, market)|
    ensures exists k :: Settles(trades, k, today, asOf, market, SettleAll(trades, done, today, asOf, market)[i])
  {
    var front, last := trades[..|trades| - 1], trades[|trades| - 1];
    var before := SettleAll(front, done, today, asOf, market);
    var o := SettleAll(trades, done, today, asOf, market)[i];
    if i < |before| {
      SettleAllFrom(front, done, today, asOf, market, i);
      var k :| Settles(front, k, today, asOf, market, before[i]);
      assert Settles(trades, k, today, asOf, market, o);
    } else {
      assert Settles(trades, |trades| - 1, today, asOf, market, o);
    }
  }

  /** Trade k is the first of its key that settles, and the key was open. */
  ghost predicate Settling(
      trades: seq<Trade>, done: set<Key>, today: int, asOf: int, market: map<string, Bars>, k: int)
  {
    && 0 <= k < |trades| && trades[k].key !in done && Settled(trades[k], today, asOf, market).Some?
    && forall j :: 0 <= j < k && trades[j].key == trades[k].key ==> Settled(trades[j], today, asOf, market).None?
  }

  /** The outcomes are those of the trades at these places, in order. */
  ghost predicate SettlesAt(
      out: seq<Outcome>, trades: seq<Trade>, done: set<Key>, today: int, asOf: int, market: map<string, Bars>,
      at: seq<int>)
  {
    && |at| == |out| && (forall i, j :: 0 <= i < j < |at| ==> at[i] < at[j])
    && (forall k :: k in at <==> Settling(trades, done, today, asOf, market, k))
    && (forall i :: 0 <= i < |at| ==> Settles(trades, at[i], today, asOf, market, out[i]))
  }

  lemma KeyWasSettled(out: seq<Outcome>, trades: seq<Trade>, done: set<Key>, today: int, asOf: int,
                      market: map<string, Bars>, at: seq<int>, key: Key)
    requires SettlesAt(out, trades, done, today, asOf, market, at) && key !in done
    ensures key in KeysOf(out)
            <==> exists k :: 0 <= k < |trades| && trades[k].key == key && Settled(trades[k], today, asOf, market).Some?
  {
    if key in KeysOf(out) {
      var i :| 0 <= i < |out| && out[i].key == key;
      assert Settles(trades, at[i], today, asOf, market, out[i]);
    }
    if k :| 0 <= k < |trades| && trades[k].key == key && Settled(trades[k], today, asOf, market).Some? {
      var f := FirstSettling(trades, done, today, asOf, market, k);
      var i :| 0 <= i < |at| && at[i] == f;
      assert Settles(trades, at[i], today, asOf, market, out[i]);
    }
  }

  lemma {:induction false} FirstSettling(
      trades: seq<Trade>, done: set<Key>, today: int, asOf: int, market: map<string, Bars>, k: nat) returns (f: nat)
    requires k < |trades| && trades[k].key !in done && Settled(trades[k], today, asOf, market).Some?
    ensures Settling(trades, done, today, asOf, market, f) && trades[f].key == trades[k].key
    decreases k
  {
    if j :| 0 <= j < k && trades[j].key == trades[k].key && Settled(trades[j], today, asOf, market).Some? {
      f := FirstSettling(trades, done, today, asOf, market, j);
    } else {
      f := k;
    }
  }

  lemma SettlingSnoc(front: seq<Trade>, t: Trade, done: set<Key>, today: int, asOf: int, market: map<string, Bars>,
                     k: int)
    ensures k < |front| ==>
              (Settling(front + [t], done, today, asOf, market, k) <==> Settling(front, done, today, asOf, market, k))
    ensures Settling(front + [t], done, today, asOf, market, |front|)
            <==> && t.key !in done && Settled(t, today, asOf, market).Some?
                 && !exists j ::
                   0 <= j < |front| && front[j].key == t.key && Settled(front[j], today, asOf, market).Some?
  {
    assert forall j :: 0 <= j < |front| ==> (front + [t])[j] == front[j];
  }

  /** What one more trade adds. */
  lemma SettleOneIs(out: seq<Outcome>, front: seq<Trade>, t: Trade, done: set<Key>, today: int, asOf: int,
                    market: map<string, Bars>, at: seq<int>)
    requires SettlesAt(out, front, done, today, asOf, market, at)
    ensures Settling(front + [t], done, today, asOf, market, |front|) ==> Settled(t, today, asOf, market).Some?
    ensures SettleOne(out, t, done, Settled(t, today, asOf, market))
            == if Settling(front + [t], done, today, asOf, market, |front|)
               then out + [Settled(t, today, asOf, market).value] else out
  {
    SettlingSnoc(front, t, done, today, asOf, market, |front|);
    if t.key !in done { KeyWasSettled(out, front, done, today, asOf, market, at, t.key); }
  }

  lemma SettlesStill(out: seq<Outcome>, front: seq<Trade>, t: Trade, done: set<Key>, today: int, asOf: int,
                     market: map<string, Bars>, at: seq<int>, i: nat)
    requires SettlesAt(out, front, done, today, asOf, market, at) && i < |at|
    ensures at[i] < |front| && Settles(front + [t], at[i], today, asOf, market, out[i])
  {
    assert at[i] in at && Settles(front, at[i], today, asOf, market, out[i]);
  }

  lemma SettlesAtSnoc(out: seq<Outcome>, front: seq<Trade>, t: Trade, done: set<Key>, today: int, asOf: int,
                      market: map<string, Bars>, at: seq<int>, next: seq<Outcome>)
    requires SettlesAt(out, front, done, today, asOf, market, at)
    requires Settling(front + [t], done, today, asOf, market, |front|) ==>
               Settled(t, today, asOf, market).Some? && next == out + [Settled(t, today, asOf, market).value]
    requires !Settling(front + [t], done, today, asOf, market, |front|) ==> next == out
    ensures SettlesAt(next, front + [t], done, today, asOf, market,
                      at + (if Settling(front + [t], done, today, asOf, market, |front|) then [|front|] else []))
  {
    var isNew := Settling(front + [t], done, today, asOf, market, |front|);
    var more := at + (if isNew then [|front|] else []);
    forall k ensures k in more <==> Settling(front + [t], done, today, asOf, market, k) {
      SettlingSnoc(front, t, done, today, asOf, market, k);
      if isNew && k == |front| { assert more[|at|] == k; }
    }
    forall i | 0 <= i < |at| ensures at[i] < |front| && Settles(front + [t], at[i], today, asOf, market, out[i]) {
      SettlesStill(out, front, t, done, today, asOf, market, at, i);
    }
  }

  /** Of several trades of one key the first that settles gives the outcome, and outcomes come
      in the order of their trades. */
  lemma {:induction false} SettleAllInOrder(
      trades: seq<Trade>, done: set<Key>, today: int, asOf: int, market: map<string, Bars>) returns (at: seq<int>)
    ensures SettlesAt(SettleAll(trades, done, today, asOf, market), trades, done, today, asOf, market, at)
  {
    at := [];
    if trades != [] {
      var front, t := trades[..|trades| - 1], trades[|trades| - 1];
      var before := SettleAllInOrder(front, done, today, asOf, market);
      FrontLast(trades);
      var out := SettleAll(front, done, today, asOf, market);
      SettleOneIs(out, front, t, done, today, asOf, market, before);
      SettlesAtSnoc(out, front, t, done, today, asOf, market, before, SettleAll(trades, done, today, asOf, market));
      at := before + (if Settling(trades, done, today, asOf, market, |front|) then [|front|] else []);
    }
  }

  /** No trade that can be settled is passed over. */
  lemma {:induction false} SettleAllCovers(
      trades: seq<Trade>, done: set<Key>, today: int, asOf: int, market: map<string, Bars>, k: nat)
    requires k < |trades| && Settled(trades[k], today, asOf, market).Some?
    ensures trades[k].key in done || trades[k].key in KeysOf(SettleAll(trades, done, today, asOf, market))
  {
    var front, last := trades[..|trades| - 1], trades[|trades| - 1];
    var before, out := SettleAll(front, done, today, asOf, market), SettleAll(trades, done, today, asOf, market);
    if k < |front| {
      SettleAllCovers(front, done, today, asOf, market, k);
      if out != before { KeysSnoc(before, out[|before|]); }
    } else if out != before {
      KeysSnoc(before, out[|before|]);
    }
  }

  lemma {:induction false} TradesOfHas(store: Store, days: seq<int>, t: Trade)
    ensures t in TradesOf(store, days) <==> exists d :: d in days && t in DayOf(store, d).trades
  {
    if days != [] {
      var front, last := days[..|days| - 1], days[|days| - 1];
      FrontLast(days);
      TradesOfHas(store, front, t);
      if t in TradesOf(store, front) {
        var d :| d in front && t in DayOf(store, d).trades;
        assert d in days;
      } else if t in DayOf(store, last).trades {
        assert last in days;
      }
      if d :| d in days && t in DayOf(store, d).trades {
        assert d in front || d == last;
      }
    }
  }

  /** The days that are stored, in order. */
  ghost predicate Lists(days: seq<int>, store: Store) {
    forall d :: d in days <==> d in store
  }

  /** The trade's own terms; its yield is realized exactly when it is not assigned. */
  ghost predicate OutcomeOf(o: Outcome, t: Trade) {
    o.key == t.key && o.strike == t.strike && o.contracts == t.contracts
    && o.realizedYield == (if o.wasAssigned then None else t.weeklyYield)
  }

  /** An outcome is appended only for a stored trade that was not resolved, whose
      expiration is not after the resolution's date and whose close is known; it is
      assigned exactly when that close is at or below the strike. */
  lemma ResolveIsSound(store: Store, days: seq<int>, today: int, asOf: int, market: map<string, Bars>, i: nat)
    requires Lists(days, store) && i < |Outcomes(store, days, today, asOf, market)|
    ensures var o := Outcomes(store, days, today, asOf, market)[i];
            && o.key !in Resolved(store) && o.key.expiry.On? && o.key.expiry.day <= asOf && o.resolved == today
            && CloseOnOrBefore(BarsOf(market, o.key.ticker), o.key.expiry.day) == Some(o.close)
            && (o.wasAssigned <==> o.close <= o.strike) && (o.wasAssigned ==> o.realizedYield.None?)
            && exists d, n :: d in store && 0 <= n < |store[d].trades| && OutcomeOf(o, store[d].trades[n])
  {
    var trades := TradesOf(store, days);
    SettleAllOnce(trades, Resolved(store), today, asOf, market);
    SettleAllFrom(trades, Resolved(store), today, asOf, market, i);
    var o := Outcomes(store, days, today, asOf, market)[i];
    var k :| Settles(trades, k, today, asOf, market, o);
    TradesOfHas(store, days, trades[k]);
    var d :| d in days && trades[k] in DayOf(store, d).trades;
    var n :| 0 <= n < |store[d].trades| && store[d].trades[n] == trades[k];
    assert d in store && OutcomeOf(o, store[d].trades[n]);
  }

  lemma OutcomesOk(store: Store, now: int, days: seq<int>, today: int, asOf: int, market: map<string, Bars>)
    requires StoreOk(store, now) && now <= today && Lists(days, store)
    ensures DayOk(DayFile([], Outcomes(store, days, today, asOf, market)), today)
  {
    var out := Outcomes(store, days, today, asOf, market);
    forall i | 0 <= i < |out| ensures out[i].key.openedOn <= today {
      ResolveIsSound(store, days, today, asOf, market, i);
      var d, n :| d in store && 0 <= n < |store[d].trades| && store[d].trades[n].key == out[i].key;
      assert DayOk(store[d], d);
    }
  }

  /** A key that was ever settled is not settled again. */
  lemma NeverAgain(w: World, now: int, days: seq<int>, today: int, asOf: int, market: map<string, Bars>, i: nat, j: nat)
    requires Inv(w, now) && Lists(days, w.store)
    requires i < |w.history| && j < |Outcomes(w.store, days, today, asOf, market)|
    ensures w.history[i].key != Outcomes(w.store, days, today, asOf, market)[j].key
  {
    ResolveIsSound(w.store, days, today, asOf, market, j);
    var o := Outcomes(w.store, days, today, asOf, market)[j];
    var d, n :| d in w.store && 0 <= n < |w.store[d].trades| && w.store[d].trades[n].key == o.key;
    assert DayOk(w.store[d], d);
    assert Remembered(w.store, now, w.history[i].key);
  }

  // ---- Whole runs --------------------------------------------------------------

  datatype Op =
    | Scan(today: int, trades: seq<Trade>, keep: Limit)
    | Resolve(today: int, asOf: int, market: map<string, Bars>, days: seq<int>, keep: Limit)

  /** A sweep records trades it opened itself; a resolution goes over the stored days. */
  ghost predicate Genuine(w: World, op: Op) {
    match op
    case Scan(today, trades, _) => forall i :: 0 <= i < |trades| ==> trades[i].key.openedOn == today
    case Resolve(_, _, _, days, _) => Lists(days, w.store)
  }

  function Step(w: World, op: Op): World {
    match op
    case Scan(today, trades, keep) => w.(store := Recorded(w.store, today, trades, [], keep))
    case Resolve(today, asOf, market, days, keep) =>
      var out := Outcomes(w.store, days, today, asOf, market);
      if out == [] then w else World(Recorded(w.store, today, [], out, keep), w.history + out)
  }

  function Run(ops: seq<Op>): World {
    if ops == [] then World(map[], []) else Step(Run(ops[..|ops| - 1]), ops[|ops| - 1])
  }

  ghost predicate GenuineRun(ops: seq<Op>) {
    forall n :: 0 <= n < |ops| ==> Genuine(Run(ops[..n]), ops[n])
  }

  ghost predicate DaysAdvance(ops: seq<Op>) {
    forall i, j :: 0 <= i < j < |ops| ==> ops[i].today <= ops[j].today
  }

  /** The trades of a sweep are opened on its day, so sweeps are genuine. */
  lemma {:induction false} SweepIsGenuine(looks: seq<Look>, n: nat, deployable: int, today: int)
    requires n <= |looks|
    ensures forall i :: 0 <= i < |TradesUpTo(looks, n, deployable, today)| ==>
              TradesUpTo(looks, n, deployable, today)[i].key.openedOn == today
  {
    if n > 0 { SweepIsGenuine(looks, n - 1, deployable, today); }
  }

  lemma ScanKeeps(w: World, now: int, today: int, trades: seq<Trade>, keep: Limit)
    requires Inv(w, now) && now <= today && forall i :: 0 <= i < |trades| ==> trades[i].key.openedOn == today
    ensures Inv(Step(w, Scan(today, trades, keep)), today)
  {
    RecordedOk(w.store, now, today, trades, [], keep);
    forall i | 0 <= i < |w.history|
      ensures Remembered(Recorded(w.store, today, trades, [], keep), today, w.history[i].key)
    {
      StaysRemembered(w.store, now, today, trades, [], w.history[i].key, keep);
    }
  }

  lemma OnceTogether(a: seq<Outcome>, b: seq<Outcome>)
    requires OnceEach(a) && OnceEach(b) && forall i, j :: 0 <= i < |a| && 0 <= j < |b| ==> a[i].key != b[j].key
    ensures OnceEach(a + b)
  {
    forall i, j | 0 <= i < j < |a + b| ensures (a + b)[i].key != (a + b)[j].key {
      if j >= |a| && i < |a| { assert a[i].key != b[j - |a|].key; }
    }
  }

  lemma ResolveKeeps(
    w: World, now: int, today: int, asOf: int, market: map<string, Bars>, days: seq<int>, keep: Limit)
    requires Inv(w, now) && now <= today && Lists(days, w.store)
    ensures Inv(Step(w, Resolve(today, asOf, market, days, keep)), today)
  {
    var out := Outcomes(w.store, days, today, asOf, market);
    if out == [] {
      assert forall i :: 0 <= i < |w.history| ==> Remembered(w.store, now, w.history[i].key);
    } else {
      var next := Recorded(w.store, today, [], out, keep);
      OutcomesOk(w.store, now, days, today, asOf, market);
      RecordedOk(w.store, now, today, [], out, keep);
      SettleAllOnce(TradesOf(w.store, days), Resolved(w.store), today, asOf, market);
      forall i, j | 0 <= i < |w.history| && 0 <= j < |out| ensures w.history[i].key != out[j].key {
        NeverAgain(w, now, days, today, asOf, market, i, j);
      }
      OnceTogether(w.history, out);
      forall i | 0 <= i < |w.history + out| ensures Remembered(next, today, (w.history + out)[i].key) {
        if i < |w.history| {
          assert Remembered(w.store, now, w.history[i].key);
        } else {
          assert out[i - |w.history|].key in KeysOf(out);
        }
        StaysRemembered(w.store, now, today, [], out, (w.history + out)[i].key, keep);
      }
    }
  }

  lemma {:induction false} RunKeeps(ops: seq<Op>)
    requires ops != [] && DaysAdvance(ops) && GenuineRun(ops)
    ensures Inv(Run(ops), ops[|ops| - 1].today)
  {
    var front, last := ops[..|ops| - 1], ops[|ops| - 1];
    var now := last.today;
    if front == [] {
      assert Run(front) == World(map[], []);
    } else {
      assert forall i :: 0 <= i < |front| ==> front[i] == ops[i];
      forall n | 0 <= n < |front| ensures Genuine(Run(front[..n]), front[n]) {
        assert front[..n] == ops[..n];
      }
      RunKeeps(front);
      now := front[|front| - 1].today;
    }
    assert Genuine(Run(ops[..|ops| - 1]), last);
    match last
    case Scan(today, trades, keep) => ScanKeeps(Run(front), now, today, trades, keep);
    case Resolve(today, asOf, market, days, keep) => ResolveKeeps(Run(front), now, today, asOf, market, days, keep);
  }

  /** Over any run with days that do not go back, no (ticker, opened, expiration) ever gets
      a second outcome, whatever has been pruned in between. */
  lemma ExactlyOnce(ops: seq<Op>)
    requires DaysAdvance(ops) && GenuineRun(ops)
    ensures OnceEach(Run(ops).history)
  {
    if ops != [] { RunKeeps(ops); }
  }

  // ---- Nothing settled late ----------------------------------------------------

  /** Its expiration is a date that has passed, and its ticker has a bar not after it. */
  ghost predicate Due(t: Trade, asOf: int, market: map<string, Bars>) {
    && t.key.expiry.On? && t.key.expiry.day <= asOf && t.key.ticker in market
    && exists k :: LatestBar(market[t.key.ticker], t.key.expiry.day, k)
  }

  lemma DueIsSettled(t: Trade, today: int, asOf: int, market: map<string, Bars>)
    ensures Due(t, asOf, market) <==> Settled(t, today, asOf, market).Some?
  {
    if t.key.expiry.On? { CloseIsLatest(BarsOf(market, t.key.ticker), t.key.expiry.day); }
  }

  /** After a resolution, every trade still stored whose expiration has passed and whose
      close is known has its outcome stored too, assigned or not. */
  lemma ResolveIsComplete(
    w: World, now: int, today: int, asOf: int, market: map<string, Bars>, days: seq<int>, keep: Limit, d: int, n: nat)
    requires Inv(w, now) && now <= today && Lists(days, w.store)
    requires d in Step(w, Resolve(today, asOf, market, days, keep)).store
    requires n < |Step(w, Resolve(today, asOf, market, days, keep)).store[d].trades|
    ensures var after := Step(w, Resolve(today, asOf, market, days, keep)).store;
            var t := after[d].trades[n];
            Due(t, asOf, market) ==> t.key in Resolved(after)
  {
    var out := Outcomes(w.store, days, today, asOf, market);
    var after := Step(w, Resolve(today, asOf, market, days, keep)).store;
    var t := after[d].trades[n];
    DueIsSettled(t, today, asOf, market);
    if Due(t, asOf, market) {
      TradeWasStored(w.store, today, out, keep, d, n);
      TradesOfHas(w.store, days, t);
      var k :| 0 <= k < |TradesOf(w.store, days)| && TradesOf(w.store, days)[k] == t;
      SettleAllCovers(TradesOf(w.store, days), Resolved(w.store), today, asOf, market, k);
      if out != [] {
        OutcomesOk(w.store, now, days, today, asOf, market);
        AppendedOk(w.store, now, today, [], out);
        AppendedResolved(w.store, today, [], out, t.key);
        assert DayOk(w.store[d], d);
        PrunedResolved(Appended(w.store, today, [], out), today, t.key, keep);
      }
    }
  }

  lemma TradeWasStored(store: Store, today: int, out: seq<Outcome>, keep: Limit, d: int, n: nat)
    requires var after := if out == [] then store else Recorded(store, today, [], out, keep);
             d in after && n < |after[d].trades|
    ensures var after := if out == [] then store else Recorded(store, today, [], out, keep);
            d in store && n < |store[d].trades| && store[d].trades[n] == after[d].trades[n]
  {
    if out != [] && d == today {
      assert DayOf(store, today).trades + [] == DayOf(store, today).trades;
    }
  }

  /** So a second resolution at once finds nothing to do. */
  lemma ResolveIsIdempotent(
    w: World, now: int, today: int, asOf: int, market: map<string, Bars>, days: seq<int>, keep: Limit, again: seq<int>)
    requires Inv(w, now) && now <= today && Lists(days, w.store)
    requires Lists(again, Step(w, Resolve(today, asOf, market, days, keep)).store)
    ensures var after := Step(w, Resolve(today, asOf, market, days, keep));
            Step(after, Resolve(today, asOf, market, again, keep)) == after
  {
    var after := Step(w, Resolve(today, asOf, market, days, keep));
    var out := Outcomes(after.store, again, today, asOf, market);
    if out != [] {
      ResolveIsSound(after.store, again, today, asOf, market, 0);
      SettleAllFrom(TradesOf(after.store, again), Resolved(after.store), today, asOf, market, 0);
      var k :| Settles(TradesOf(after.store, again), k, today, asOf, market, out[0]);
      var t := TradesOf(after.store, again)[k];
      TradesOfHas(after.store, again, t);
      var d :| d in again && t in DayOf(after.store, d).trades;
      var n :| 0 <= n < |after.store[d].trades| && after.store[d].trades[n] == t;
      DueIsSettled(t, today, asOf, market);
      ResolveIsComplete(w, now, today, asOf, market, days, keep, d, n);
    }
  }

  // ---- Recording and sweeping, day by day and name by name ---------------------

  /** What is stored of a day after a recording: what was there, with the new entries behind
      it on the day itself. */
  lemma RecordMeans(store: Store, day: int, trades: seq<Trade>, outcomes: seq<Outcome>, keep: Limit, d: int)
    requires d in Recorded(store, day, trades, outcomes, keep)
    ensures d in store || d == day
    ensures var file := Recorded(store, day, trades, outcomes, keep)[d];
            var was := if d in store then store[d] else DayFile([], []);
            && file.trades == (if d == day then was.trades + trades else was.trades)
            && file.outcomes == (if d == day then was.outcomes + outcomes else was.outcomes)
  {
  }

  /** The shares' price of n contracts of 100. */
  function Price(strike: int, n: nat): int {
    100 * strike * n
  }

  /** n is the most contracts that the cash left secures. */
  ghost predicate Most(n: nat, strike: int, left: int) {
    Price(strike, n) <= left < Price(strike, n + 1)
  }

  /** A sweep goes name by name. One with a chosen strike gets the most contracts that the
      cash left secures, if that is any, at that strike and expiration; the cash they take is
      gone for the names after it. Any other gets none. */
  lemma SweepMeans(looks: seq<Look>, n: nat, deployable: int, today: int)
    requires n < |looks|
    ensures var left := deployable - Committed(looks, n, deployable);
            var before, after := TradesUpTo(looks, n, deployable, today), TradesUpTo(looks, n + 1, deployable, today);
            var took := Committed(looks, n + 1, deployable) - Committed(looks, n, deployable);
            match looks[n]
            case Passed(_) => after == before && took == 0
            case Picked(ticker, expiry, strike, perWeek) =>
              if strike.None? || strike.value <= 0 || left < 100 * strike.value then after == before && took == 0
              else
                var q: nat := SizeAt(looks, n, deployable);
                && q > 0 && Most(q, strike.value, left) && took == Price(strike.value, q)
                && after == before + [Trade(Key(ticker, today, expiry), strike.value, q, perWeek)]
  {
    var before := TradesUpTo(looks, n, deployable, today);
    assert before + [] == before;
    if looks[n].Picked? && looks[n].strike.Some? && looks[n].strike.value > 0 {
      SizeIsMost(looks[n], deployable, Committed(looks, n, deployable));
      RoomMeans(looks[n].strike.value, SizeAt(looks, n, deployable));
      NothingFits(looks[n].strike.value, SizeAt(looks, n, deployable), deployable - Committed(looks, n, deployable));
    }
  }

  lemma RoomMeans(strike: int, n: nat)
    ensures Cost(strike, n) == Price(strike, n) && Cost(strike, n + 1) == Price(strike, n + 1)
  {
  }

  lemma NothingFits(strike: int, n: nat, left: int)
    requires strike > 0 && Price(strike, n) <= (if left > 0 then left else 0) < Price(strike, n + 1)
    ensures n == 0 <==> left < 100 * strike
  {
    if n > 0 { AtLeastOne(100 * strike, n); }
  }

  lemma AtLeastOne(unit: int, n: nat)
    requires unit > 0 && n > 0
    ensures unit * n >= unit
  {
  }
}
