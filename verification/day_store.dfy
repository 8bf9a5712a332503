/** A store with one file a day, of which the newest days are kept, as csp_dry_powder.py and
    gate_telemetry.py each keep one. */
module DayStore {
  import opened Bags
  import opened Sorting

  /** How many days are kept; DRY_POWDER_LOG_RETENTION_DAYS is 180. */
  type Limit = n: int | n > 0 witness 180

  // ---- Which days are kept -----------------------------------------------------

  function Later<V>(store: map<int, V>, d: int): set<int> {
    set e | e in store && e > d
  }

  /** The newest `max` days. */
  function Pruned<V>(store: map<int, V>, max: nat): map<int, V> {
    map d | d in store && |Later(store, d)| < max :: store[d]
  }

  predicate IntLe(a: int, b: int) {
    a <= b
  }

  ghost predicate Ascending(s: seq<int>) {
    forall i, j :: 0 <= i < j < |s| ==> s[i] < s[j]
  }

  method StoredDays<V>(store: map<int, V>) returns (days: seq<int>)
    ensures Ascending(days) && forall d :: d in days <==> d in store
  {
    var names := Listed(store.Keys);
    days := Sort(names, IntLe);
    SortSorted(names, IntLe);
    SortBag(names, IntLe);
    SameBagSameMembers(names, days);
    DistinctBag(names);
    BagDistinct(days);
    assert forall i, j :: 0 <= i < j < |days| ==> IntLe(days[i], days[j]) && days[i] != days[j];
  }

  lemma {:induction false} AscendingCount(days: seq<int>, i: nat)
    requires Ascending(days) && i <= |days|
    ensures |set j | i <= j < |days| :: days[j]| == |days| - i
    decreases |days| - i
  {
    if i < |days| {
      AscendingCount(days, i + 1);
      assert (set j | i <= j < |days| :: days[j]) == {days[i]} + set j | i + 1 <= j < |days| :: days[j];
      assert days[i] !in set j | i + 1 <= j < |days| :: days[j];
    }
  }

  lemma LaterIsAfter<V>(store: map<int, V>, days: seq<int>, i: nat)
    requires Ascending(days) && (forall d :: d in days <==> d in store) && i < |days|
    ensures |Later(store, days[i])| == |days| - 1 - i
  {
    AscendingCount(days, i + 1);
    var after := set j | i + 1 <= j < |days| :: days[j];
    forall e ensures e in Later(store, days[i]) <==> e in after {
      if e in Later(store, days[i]) {
        assert e in days;
        var j :| 0 <= j < |days| && days[j] == e;
        assert j > i;
      }
      if e in after {
        var j :| i + 1 <= j < |days| && days[j] == e;
        assert days[j] in days;
      }
    }
    assert Later(store, days[i]) == after;
  }

  lemma PrunedIsNewest<V>(store: map<int, V>, days: seq<int>, n: nat)
    requires Ascending(days) && (forall d :: d in days <==> d in store) && n <= |days|
    ensures Pruned(store, |days| - n) == map d | d in store && d !in days[..n] :: store[d]
  {
    forall d | d in store ensures |Later(store, d)| < |days| - n <==> d !in days[..n] {
      assert d in days;
      var i :| 0 <= i < |days| && days[i] == d;
      LaterIsAfter(store, days, i);
      assert i < n ==> days[..n][i] == d;
    }
  }

  lemma SizeOf<V>(store: map<int, V>, days: seq<int>)
    requires Ascending(days) && forall d :: d in days <==> d in store
    ensures |store| == |days|
  {
    AscendingCount(days, 0);
    var all := set j | 0 <= j < |days| :: days[j];
    forall d ensures d in all <==> d in store.Keys {
      if d in store { assert d in days; }
      if d in all { var j :| 0 <= j < |days| && days[j] == d; assert days[j] in days; }
    }
    assert all == store.Keys;
  }

  /** Unlinks the oldest days beyond the limit. */
  method Prune<V>(store: map<int, V>, max: nat) returns (kept: map<int, V>, removed: nat)
    requires max > 0
    ensures kept == Pruned(store, max) && removed == |store| - |kept|
            && |kept| == if |store| <= max then |store| else max
  {
    var days := StoredDays(store);
    SizeOf(store, days);
    if |days| <= max {
      AllFew(store, max);
      return store, 0;
    }
    PrunedIsNewest(store, days, |days| - max);
    removed := |days| - max;
    kept := Without(store, days[..removed]);
  }

  lemma AllFew<V>(store: map<int, V>, max: nat)
    requires |store| <= max
    ensures Pruned(store, max) == store
  {
    forall d | d in store ensures |Later(store, d)| < max {
      SmallerSet(Later(store, d) + {d}, store.Keys);
    }
  }

  // ---- What pruning leaves -----------------------------------------------------

  /** If a day is kept, so is every later one. */
  lemma KeptUpward<V>(store: map<int, V>, max: nat, d: int, e: int)
    requires d in Pruned(store, max) && e in store && d <= e
    ensures e in Pruned(store, max)
  {
    assert Later(store, e) <= Later(store, d);
    SmallerSet(Later(store, e), Later(store, d));
  }

  lemma NewestKept<V>(store: map<int, V>, max: nat, d: int)
    requires d in store && max > 0 && forall e :: e in store ==> e <= d
    ensures d in Pruned(store, max)
  {
    assert Later(store, d) == {};
  }

  // ---- Pruning as one goes, and pruning once -----------------------------------

  lemma Any<T>(s: set<T>) returns (x: T)
    requires s != {}
    ensures x in s
  {
    x :| x in s;
  }

  lemma {:induction false} Least(s: set<int>) returns (m: int)
    requires s != {}
    ensures m in s && forall e :: e in s ==> m <= e
  {
    var x := Any(s);
    var others := s - {x};
    assert forall e :: e in s <==> e == x || e in others;
    if others == {} {
      m := x;
      assert s == {x};
    } else {
      var rest := Least(others);
      m := if rest < x then rest else x;
    }
  }

  lemma LaterStep<V>(store: map<int, V>, e: int, m: int)
    requires m in Later(store, e) && forall x :: x in Later(store, e) ==> m <= x
    ensures Later(store, m) == Later(store, e) - {m} && |Later(store, m)| == |Later(store, e)| - 1
  {
    assert Later(store, m) == Later(store, e) - {m};
  }

  /** As many days as are kept, if there are so many later ones, are later and kept. */
  lemma {:induction false} KeptAbove<V>(store: map<int, V>, max: nat, e: int)
    requires |Later(store, e)| >= max
    ensures |Later(Pruned(store, max), e)| >= max
    decreases |Later(store, e)|
  {
    if |Later(store, e)| > max {
      var m := Least(Later(store, e));
      LaterStep(store, e, m);
      KeptAbove(store, max, m);
      assert Later(Pruned(store, max), m) <= Later(Pruned(store, max), e);
      SmallerSet(Later(Pruned(store, max), m), Later(Pruned(store, max), e));
    } else {
      forall f | f in Later(store, e) ensures f in Pruned(store, max) {
        FewerLater(store, e, f);
      }
      assert Later(Pruned(store, max), e) == Later(store, e);
    }
  }

  lemma FewerLater<V>(store: map<int, V>, e: int, f: int)
    requires f in Later(store, e)
    ensures |Later(store, f)| < |Later(store, e)|
  {
    assert Later(store, f) <= Later(store, e) - {f};
    SmallerSet(Later(store, f), Later(store, e) - {f});
  }

  /** A day that is dropped with the others is dropped without them too. */
  lemma KeptOfKept<V>(store: map<int, V>, max: nat, day: int, v: V, d: int)
    requires d in Pruned(Pruned(store, max)[day := v], max)
    ensures d in Pruned(store[day := v], max)
  {
    var mid, all := Pruned(store, max)[day := v], store[day := v];
    if e :| e in Later(store, d) && e !in Pruned(store, max) {
      KeptAbove(store, max, e);
      assert Later(Pruned(store, max), e) <= Later(mid, d);
      SmallerSet(Later(Pruned(store, max), e), Later(mid, d));
    } else {
      assert Later(mid, d) == Later(all, d);
    }
  }

  lemma KeptOfAll<V>(store: map<int, V>, max: nat, day: int, v: V, d: int)
    requires d in Pruned(store[day := v], max)
    ensures d in Pruned(Pruned(store, max)[day := v], max)
  {
    var mid, all := Pruned(store, max)[day := v], store[day := v];
    assert Later(store, d) <= Later(all, d) && Later(mid, d) <= Later(all, d);
    SmallerSet(Later(store, d), Later(all, d));
    SmallerSet(Later(mid, d), Later(all, d));
  }

  /** What was pruned before makes no difference to what is kept. */
  lemma PruneTwice<V>(store: map<int, V>, max: nat, day: int, v: V)
    ensures Pruned(Pruned(store, max)[day := v], max) == Pruned(store[day := v], max)
  {
    var twice, once := Pruned(Pruned(store, max)[day := v], max), Pruned(store[day := v], max);
    forall d ensures d in twice <==> d in once {
      if d in twice { KeptOfKept(store, max, day, v, d); }
      if d in once { KeptOfAll(store, max, day, v, d); }
    }
  }

  /** A day that has been dropped stays out, whatever is written to it. */
  lemma DroppedStaysOut<V>(store: map<int, V>, max: nat, day: int, v: V, w: V)
    requires day in store && day !in Pruned(store, max)
    ensures Pruned(store[day := v], max) == Pruned(store[day := w], max)
  {
    forall d ensures Later(store[day := v], d) == Later(store, d) && Later(store[day := w], d) == Later(store, d) {}
    var one, other := Pruned(store[day := v], max), Pruned(store[day := w], max);
    assert day !in one && day !in other;
    assert one.Keys == other.Keys;
    assert forall d :: d in one ==> one[d] == store[d] == other[d];
  }
}
