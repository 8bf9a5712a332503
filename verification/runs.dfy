/** Maximal runs of one constant positive value in a sequence of levels, where
    `u[k]` is the level after k rows and `u[0]` the level before the first. */
module Runs {
  import opened Common

  type Span = (nat, nat)

  /** Row i moves the level to a new positive value. */
  predicate Opens(u: seq<nat>, i: nat) {
    i + 1 < |u| && u[i + 1] > 0 && u[i + 1] != u[i]
  }

  /** The first row at or after j that moves the level again, or the end. */
  function NextChange(u: seq<nat>, j: nat): (e: nat)
    requires j < |u|
    ensures j <= e < |u|
    ensures e + 1 < |u| ==> u[e + 1] != u[e]
    ensures u[e] == u[j]
    ensures forall k :: j <= k <= e ==> u[k] == u[j]
    decreases |u| - j
  {
    if j + 1 == |u| || u[j + 1] != u[j] then j else NextChange(u, j + 1)
  }

  /** The kept runs among those that open before row i, oldest first. */
  function Spans(u: seq<nat>, i: nat, keep: (nat, nat) -> bool): seq<Span>
    requires i < |u|
  {
    if i == 0 then []
    else
      var before := Spans(u, i - 1, keep);
      if Opens(u, i - 1) && keep(i - 1, NextChange(u, i)) then before + [(i - 1, NextChange(u, i))] else before
  }

  // ---- An incremental view: the run in progress after k rows -------------------

  function Running(u: seq<nat>, k: nat): (s: Option<nat>)
    requires k < |u|
    ensures s.Some? ==> s.value < k && Opens(u, s.value) && u[k] > 0
    ensures s.Some? ==> forall m :: s.value < m <= k ==> u[m] == u[k]
    ensures s.None? && u[0] == 0 ==> u[k] == 0
  {
    if k == 0 then None
    else if u[k] == u[k - 1] then Running(u, k - 1)
    else if u[k] > 0 then Some(k - 1)
    else None
  }

  /** Every run that opened before this row has ended by row k. */
  function Settled(u: seq<nat>, k: nat): (s: nat)
    requires k < |u|
    ensures s <= k
  {
    if Running(u, k).Some? then Running(u, k).value else k
  }

  lemma {:induction false} QuietSpans(u: seq<nat>, i: nat, j: nat, keep: (nat, nat) -> bool)
    requires i <= j < |u|
    requires forall m :: i <= m < j ==> !Opens(u, m)
    ensures Spans(u, j, keep) == Spans(u, i, keep)
  {
    if i < j { QuietSpans(u, i, j - 1, keep); }
  }

  /** When the level moves at row k, or the rows end, the run in progress is (s, k). */
  lemma RunCloses(u: seq<nat>, k: nat, keep: (nat, nat) -> bool)
    requires k < |u| && Running(u, k).Some?
    requires k + 1 < |u| ==> u[k + 1] != u[k]
    ensures var s := Running(u, k).value;
            && NextChange(u, s + 1) == k
            && Spans(u, k, keep) == Spans(u, s, keep) + (if keep(s, k) then [(s, k)] else [])
  {
    var s := Running(u, k).value;
    var e := NextChange(u, s + 1);
    assert e >= k;
    QuietSpans(u, s + 1, k, keep);
  }

  // ---- An independent definition -----------------------------------------------

  /** Rows i+1 to j all leave the same positive level, and neither neighbour does. */
  ghost predicate MaximalRun(u: seq<nat>, i: nat, j: nat) {
    && i < j < |u|
    && u[i + 1] > 0
    && (forall k :: i < k <= j ==> u[k] == u[i + 1])
    && u[i] != u[i + 1]
    && (j + 1 < |u| ==> u[j + 1] != u[i + 1])
  }

  lemma RunsAreMaximal(u: seq<nat>, i: nat, j: nat)
    ensures MaximalRun(u, i, j) <==> Opens(u, i) && j == NextChange(u, i + 1)
  {
    if MaximalRun(u, i, j) {
      var e := NextChange(u, i + 1);
      assert j <= e;
      assert e <= j;
    }
  }

  lemma {:induction false} SpansExact(u: seq<nat>, n: nat, i: nat, j: nat, keep: (nat, nat) -> bool)
    requires n < |u|
    ensures (i, j) in Spans(u, n, keep) <==> i < n && MaximalRun(u, i, j) && keep(i, j)
  {
    RunsAreMaximal(u, i, j);
    if n > 0 {
      SpansExact(u, n - 1, i, j, keep);
    }
  }

  /** Spans that open before n and end before m, each ending before the next opens. */
  ghost predicate Ordered(sps: seq<Span>, n: nat, m: nat) {
    && (forall p :: 0 <= p < |sps| ==> sps[p].0 < sps[p].1 < m && sps[p].0 < n)
    && (forall p, q :: 0 <= p < q < |sps| ==> sps[p].1 <= sps[q].0)
  }

  lemma {:induction false} SpansApart(u: seq<nat>, n: nat, keep: (nat, nat) -> bool)
    requires n < |u|
    ensures Ordered(Spans(u, n, keep), n, |u|)
  {
    if n > 0 {
      SpansApart(u, n - 1, keep);
      var before := Spans(u, n - 1, keep);
      if Opens(u, n - 1) {
        forall p | 0 <= p < |before| ensures before[p].1 <= n - 1 {
          var (i, j) := before[p];
          assert (i, j) in before;
          SpansExact(u, n - 1, i, j, keep);
          assert u[n] != u[n - 1];
        }
      }
      var sps := Spans(u, n, keep);
      forall p, q | 0 <= p < q < |sps| ensures sps[p].1 <= sps[q].0 {
        assert sps[p] == before[p];
      }
    }
  }

  // ---- Telescoping -------------------------------------------------------------

  /** Level times price change, row by row, from row lo up to row hi. */
  function RowSum(u: seq<nat>, p: seq<int>, lo: nat, hi: nat): int
    requires lo <= hi < |u| == |p|
  {
    if lo == hi then 0 else RowSum(u, p, lo, hi - 1) + u[hi] * (p[hi] - p[hi - 1])
  }

  function RunGain(u: seq<nat>, p: seq<int>, i: nat, j: nat): int
    requires i < j < |u| == |p|
  {
    u[i + 1] * (p[j] - p[i])
  }

  /** The gains of all runs that open before row i, whether kept or not. */
  function RunSum(u: seq<nat>, p: seq<int>, i: nat): int
    requires i < |u| == |p|
  {
    if i == 0 then 0
    else RunSum(u, p, i - 1) + (if Opens(u, i - 1) then RunGain(u, p, i - 1, NextChange(u, i)) else 0)
  }

  lemma {:induction false} QuietSum(u: seq<nat>, p: seq<int>, i: nat, j: nat)
    requires i <= j < |u| == |p|
    requires forall m :: i <= m < j ==> !Opens(u, m)
    ensures RunSum(u, p, i) == RunSum(u, p, j)
  {
    if i < j { QuietSum(u, p, i, j - 1); }
  }

  lemma SplitGain(level: int, a: int, b: int, c: int)
    ensures level * (c - a) == level * (b - a) + level * (c - b)
  {
  }

  /** What the run in progress has made so far. */
  function Made(u: seq<nat>, p: seq<int>, k: nat): int
    requires k < |u| == |p|
  {
    if Running(u, k).Some? then u[k] * (p[k] - p[Running(u, k).value]) else 0
  }

  /** What all the runs have made by row k. */
  function SoFar(u: seq<nat>, p: seq<int>, k: nat): int
    requires k < |u| == |p|
  {
    RunSum(u, p, Settled(u, k)) + Made(u, p, k)
  }

  /** Row k adds its own gain: it goes on with a run. */
  lemma RunGoesOn(u: seq<nat>, p: seq<int>, k: nat)
    requires 0 < k < |u| == |p| && u[k] == u[k - 1] && Running(u, k).Some?
    ensures SoFar(u, p, k) == SoFar(u, p, k - 1) + u[k] * (p[k] - p[k - 1])
  {
    SplitGain(u[k], p[Running(u, k).value], p[k - 1], p[k]);
  }

  /** Or there is still none. */
  lemma StillQuiet(u: seq<nat>, p: seq<int>, k: nat)
    requires 0 < k < |u| == |p| && u[0] == 0 && u[k] == u[k - 1] && Running(u, k).None?
    ensures SoFar(u, p, k) == SoFar(u, p, k - 1) + u[k] * (p[k] - p[k - 1])
  {
    QuietSum(u, p, k - 1, k);
  }

  /** Or a run begins, at the row before. */
  lemma RunBegins(u: seq<nat>, p: seq<int>, k: nat)
    requires 0 < k < |u| == |p| && u[0] == 0 && u[k] != u[k - 1] && u[k] > 0
    ensures SoFar(u, p, k) == SoFar(u, p, k - 1) + u[k] * (p[k] - p[k - 1])
  {
    RunEndsAt(u, p, k - 1);
  }

  /** Or one has ended and none begins. */
  lemma RunStops(u: seq<nat>, p: seq<int>, k: nat)
    requires 0 < k < |u| == |p| && u[0] == 0 && u[k] != u[k - 1] && u[k] == 0
    ensures SoFar(u, p, k) == SoFar(u, p, k - 1) + u[k] * (p[k] - p[k - 1])
  {
    RunEndsAt(u, p, k - 1);
    QuietSum(u, p, k - 1, k);
  }

  /** Row by row is run by run, plus what the run in progress has made so far. */
  lemma {:induction false} RowsAreRuns(u: seq<nat>, p: seq<int>, k: nat)
    requires k < |u| == |p| && u[0] == 0
    ensures RowSum(u, p, 0, k) == SoFar(u, p, k)
  {
    if k > 0 {
      RowsAreRuns(u, p, k - 1);
      if u[k] == u[k - 1] {
        if Running(u, k).Some? { RunGoesOn(u, p, k); } else { StillQuiet(u, p, k); }
      } else {
        if u[k] > 0 { RunBegins(u, p, k); } else { RunStops(u, p, k); }
      }
    }
  }

  lemma RunEndsAt(u: seq<nat>, p: seq<int>, k: nat)
    requires k < |u| == |p| && u[0] == 0
    requires k + 1 < |u| ==> u[k + 1] != u[k]
    ensures RunSum(u, p, k) == SoFar(u, p, k)
  {
    if Running(u, k).Some? {
      var s := Running(u, k).value;
      RunCloses(u, k, (_, _) => true);
      QuietSum(u, p, s + 1, k);
    }
  }

  /** The gains of all the runs add up to the gain of every row. */
  lemma AllRunsAreAllRows(u: seq<nat>, p: seq<int>)
    requires 0 < |u| == |p| && u[0] == 0
    ensures RunSum(u, p, |u| - 1) == RowSum(u, p, 0, |u| - 1)
  {
    RowsAreRuns(u, p, |u| - 1);
    RunEndsAt(u, p, |u| - 1);
  }
}
