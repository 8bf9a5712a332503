/** backend/event_runner.py, EventGate: which signals are newly true for a name, and
    when a run may start because of them. Times are microseconds. */
module EventRunner {
  import opened Common

  /** In the alphabetical order of the names, which is the order `sorted` gives. */
  datatype Signal =
    | ApproachStrike | AssignmentRisk | Defense | DividendRisk | Earnings | ExtrinsicCaptured | Market | Roll75
  {
    function Name(): string {
      match this
      case ApproachStrike => "approach_strike"
      case AssignmentRisk => "assignment_risk"
      case Defense => "defense"
      case DividendRisk => "dividend_risk"
      case Earnings => "earnings"
      case ExtrinsicCaptured => "extrinsic_captured"
      case Market => "market"
      case Roll75 => "roll_75"
    }
  }

  const ALL_SIGNALS := [ApproachStrike, AssignmentRisk, Defense, DividendRisk, Earnings,
                        ExtrinsicCaptured, Market, Roll75]

  datatype Reading = Reading(ticker: string, signals: set<Signal>)

  type Edge = (string, Signal)

  function Reason(e: Edge): string {
    e.0 + ":" + e.1.Name()
  }

  /** r.split(":", 1)[0] */
  function TickerOf(r: string): string {
    if r == "" || r[0] == ':' then "" else [r[0]] + TickerOf(r[1..])
  }

  function UpperChar(c: char): char {
    if 'a' <= c <= 'z' then (c - 'a') + 'A' else c
  }

  function Upper(s: string): string {
    seq(|s|, k requires 0 <= k < |s| => UpperChar(s[k]))
  }

  // ---- Edges -------------------------------------------------------------------

  function Before(seen: map<string, set<Signal>>, t: string): set<Signal> {
    if t in seen then seen[t] else {}
  }

  /** One edge for each signal of `risen` among the first k, in order. */
  function EdgesFor(t: string, risen: set<Signal>, k: nat): seq<Edge>
    requires k <= |ALL_SIGNALS|
  {
    if k == 0 then []
    else EdgesFor(t, risen, k - 1) + (if ALL_SIGNALS[k - 1] in risen then [(t, ALL_SIGNALS[k - 1])] else [])
  }

  function SeenAfter(seen: map<string, set<Signal>>, rs: seq<Reading>): map<string, set<Signal>> {
    if rs == [] then seen
    else
      var last := rs[|rs| - 1];
      SeenAfter(seen, rs[..|rs| - 1])[last.ticker := last.signals]
  }

  function Flips(seen: map<string, set<Signal>>, rs: seq<Reading>): seq<Edge> {
    if rs == [] then []
    else
      var front, last := rs[..|rs| - 1], rs[|rs| - 1];
      Flips(seen, front)
      + EdgesFor(last.ticker, last.signals - Before(SeenAfter(seen, front), last.ticker), |ALL_SIGNALS|)
  }

  function Escalations(symbols: seq<string>): seq<Edge> {
    seq(|symbols|, i requires 0 <= i < |symbols| => (Upper(symbols[i]), Defense))
  }

  /** What one poller cycle brings. */
  datatype Input = Input(readings: seq<Reading>, escalated: seq<string>, market: bool, now: int)

  function Edges(seen: map<string, set<Signal>>, inp: Input): seq<Edge> {
    Flips(seen, inp.readings) + Escalations(inp.escalated) + (if inp.market then [("MARKET", Market)] else [])
  }

  datatype Limits = Limits(gap: int, cooldown: int)

  datatype State = State(
      seen: map<string, set<Signal>>, primed: bool, lastByTicker: map<string, int>, lastAt: Option<int>)

  const START := State(map[], false, map[], None)

  predicate Cool(st: State, lim: Limits, t: string, now: int) {
    t in st.lastByTicker ==> now - st.lastByTicker[t] >= lim.cooldown
  }

  predicate GapOver(st: State, lim: Limits, now: int) {
    st.lastAt.Some? ==> now - st.lastAt.value >= lim.gap
  }

  function Due(st: State, lim: Limits, edges: seq<Edge>, now: int): seq<string> {
    if edges == [] then []
    else
      var last := edges[|edges| - 1];
      Due(st, lim, edges[..|edges| - 1], now) + (if Cool(st, lim, last.0, now) then [Reason(last)] else [])
  }

  function Observed(st: State, inp: Input): State {
    st.(seen := SeenAfter(st.seen, inp.readings), primed := true)
  }

  function Reasons(st: State, lim: Limits, inp: Input): seq<string> {
    if st.primed && GapOver(st, lim, inp.now) then Due(st, lim, Edges(st.seen, inp), inp.now) else []
  }

  function Stamp(m: map<string, int>, reasons: seq<string>, now: int): map<string, int> {
    if reasons == [] then m
    else Stamp(m, reasons[..|reasons| - 1], now)[TickerOf(reasons[|reasons| - 1]) := now]
  }

  function Marked(st: State, reasons: seq<string>, now: int): State {
    st.(lastAt := Some(now), lastByTicker := Stamp(st.lastByTicker, reasons, now))
  }

  method AddEdges(edges0: seq<Edge>, t: string, risen: set<Signal>) returns (edges: seq<Edge>)
    ensures edges == edges0 + EdgesFor(t, risen, |ALL_SIGNALS|)
  {
    edges := edges0;
    for k := 0 to |ALL_SIGNALS|
      invariant edges == edges0 + EdgesFor(t, risen, k)
    {
      if ALL_SIGNALS[k] in risen {
        edges := edges + [(t, ALL_SIGNALS[k])];
      }
    }
  }

  method CollectEdges(seen0: map<string, set<Signal>>, inp: Input)
    returns (seen: map<string, set<Signal>>, edges: seq<Edge>)
    ensures seen == SeenAfter(seen0, inp.readings) && edges == Edges(seen0, inp)
  {
    seen, edges := seen0, [];
    for i := 0 to |inp.readings|
      invariant seen == SeenAfter(seen0, inp.readings[..i])
      invariant edges == Flips(seen0, inp.readings[..i])
    {
      var r := inp.readings[i];
      assert inp.readings[..i + 1][..i] == inp.readings[..i];
      edges := AddEdges(edges, r.ticker, r.signals - Before(seen, r.ticker));
      seen := seen[r.ticker := r.signals];
    }
    assert inp.readings[..|inp.readings|] == inp.readings;
    edges := edges + Escalations(inp.escalated);
    if inp.market {
      edges := edges + [("MARKET", Market)];
    }
  }

  method CollectDue(ghost st: State, lastByTicker: map<string, int>, lim: Limits, edges: seq<Edge>, now: int)
    returns (due: seq<string>)
    requires st.lastByTicker == lastByTicker
    ensures due == Due(st, lim, edges, now)
  {
    due := [];
    for i := 0 to |edges|
      invariant due == Due(st, lim, edges[..i], now)
    {
      assert edges[..i + 1][..i] == edges[..i];
      var t := edges[i].0;
      if !(t in lastByTicker && now - lastByTicker[t] < lim.cooldown) {
        due := due + [Reason(edges[i])];
      }
    }
    assert edges[..|edges|] == edges;
  }

  class EventGate {
    var seen: map<string, set<Signal>>
    var primed: bool
    var lastByTicker: map<string, int>
    var lastAt: Option<int>
    const lim: Limits

    constructor (lim: Limits)
      ensures this.lim == lim && View() == START
    {
      this.lim := lim;
      seen, primed, lastByTicker, lastAt := map[], false, map[], None;
    }

    function View(): State
      reads this
    {
      State(seen, primed, lastByTicker, lastAt)
    }

    method Reset()
      modifies this
      ensures View() == START
    {
      seen, primed, lastByTicker, lastAt := map[], false, map[], None;
    }

    method Observe(inp: Input) returns (due: seq<string>)
      modifies this
      ensures View() == Observed(old(View()), inp)
      ensures due == Reasons(old(View()), lim, inp)
    {
      ghost var st := View();
      var edges;
      seen, edges := CollectEdges(seen, inp);
      if !primed {
        primed := true;
        return [];
      }
      if edges == [] || (lastAt.Some? && inp.now - lastAt.value < lim.gap) {
        return [];
      }
      due := CollectDue(st, lastByTicker, lim, edges, inp.now);
    }

    method MarkRan(reasons: seq<string>, now: int)
      modifies this`lastAt, this`lastByTicker
      ensures View() == Marked(old(View()), reasons, now)
    {
      ghost var st := View();
      lastAt := Some(now);
      for i := 0 to |reasons|
        invariant View() == st.(lastAt := Some(now), lastByTicker := Stamp(st.lastByTicker, reasons[..i], now))
      {
        assert reasons[..i + 1][..i] == reasons[..i];
        lastByTicker := lastByTicker[TickerOf(reasons[i]) := now];
      }
      assert reasons[..|reasons|] == reasons;
    }
  }
}

/** What the gate promises over every run of poller cycles. */
module EventTheorems {
  import opened Common
  import opened EventRunner

  /** A cycle's due reasons start a pass; it either completes and is marked, no earlier
      than the cycle began, or fails and is not marked at all. */
  datatype Outcome = Completed(at: int) | Failed

  datatype Cycle = Cycle(inp: Input, outcome: Outcome)

  datatype Pass = Pass(at: int, reasons: seq<string>)

  function After(st: State, lim: Limits, c: Cycle): State {
    var rs := Reasons(st, lim, c.inp);
    var seen := Observed(st, c.inp);
    if rs != [] && c.outcome.Completed? then Marked(seen, rs, c.outcome.at) else seen
  }

  function Run(cs: seq<Cycle>, lim: Limits): State {
    if cs == [] then START else After(Run(cs[..|cs| - 1], lim), lim, cs[|cs| - 1])
  }

  /** The completed passes, in order. */
  function Passes(cs: seq<Cycle>, lim: Limits): seq<Pass> {
    if cs == [] then []
    else
      var front, c := cs[..|cs| - 1], cs[|cs| - 1];
      var rs := Reasons(Run(front, lim), lim, c.inp);
      Passes(front, lim) + (if rs != [] && c.outcome.Completed? then [Pass(c.outcome.at, rs)] else [])
  }

  /** The clock does not run backwards within or between cycles. */
  ghost predicate Clocked(cs: seq<Cycle>) {
    && (forall i :: 0 <= i < |cs| && cs[i].outcome.Completed? ==> cs[i].inp.now <= cs[i].outcome.at)
    && (forall i, j :: 0 <= i < j < |cs| ==> cs[i].inp.now <= cs[j].inp.now)
  }

  // ---- What starts a pass ------------------------------------------------------

  lemma {:induction false} EdgesForHas(t: string, risen: set<Signal>, k: nat, e: Edge)
    requires k <= |ALL_SIGNALS|
    ensures e in EdgesFor(t, risen, k) <==> e.0 == t && e.1 in risen && e.1 in ALL_SIGNALS[..k]
  {
    if k > 0 {
      EdgesForHas(t, risen, k - 1, e);
      assert ALL_SIGNALS[..k] == ALL_SIGNALS[..k - 1] + [ALL_SIGNALS[k - 1]];
    }
  }

  lemma AllSignals(s: Signal)
    ensures s in ALL_SIGNALS[..|ALL_SIGNALS|]
  {
    var i := match s case ApproachStrike => 0 case AssignmentRisk => 1 case Defense => 2 case DividendRisk => 3
                     case Earnings => 4 case ExtrinsicCaptured => 5 case Market => 6 case Roll75 => 7;
    assert ALL_SIGNALS[i] == s;
  }

  /** A cycle's readings form a dictionary. */
  ghost predicate Keyed(rs: seq<Reading>) {
    forall i, j :: 0 <= i < j < |rs| ==> rs[i].ticker != rs[j].ticker
  }

  lemma {:induction false} SeenElsewhere(seen: map<string, set<Signal>>, rs: seq<Reading>, t: string)
    requires forall i :: 0 <= i < |rs| ==> rs[i].ticker != t
    ensures Before(SeenAfter(seen, rs), t) == Before(seen, t)
  {
    if rs != [] { SeenElsewhere(seen, rs[..|rs| - 1], t); }
  }

  /** t now shows s and did not when t was last read. */
  ghost predicate Flipped(seen: map<string, set<Signal>>, rs: seq<Reading>, e: Edge) {
    exists i :: 0 <= i < |rs| && rs[i].ticker == e.0 && e.1 in rs[i].signals && e.1 !in Before(seen, e.0)
  }

  lemma {:induction false} FlipsExact(seen: map<string, set<Signal>>, rs: seq<Reading>, e: Edge)
    requires Keyed(rs)
    ensures e in Flips(seen, rs) <==> Flipped(seen, rs, e)
  {
    if rs != [] {
      var front, last := rs[..|rs| - 1], rs[|rs| - 1];
      FlipsExact(seen, front, e);
      SeenElsewhere(seen, front, last.ticker);
      EdgesForHas(last.ticker, last.signals - Before(seen, last.ticker), |ALL_SIGNALS|, e);
      AllSignals(e.1);
      if Flipped(seen, front, e) {
        var i :| 0 <= i < |front| && front[i].ticker == e.0 && e.1 in front[i].signals && e.1 !in Before(seen, e.0);
        assert rs[i] == front[i];
      }
      if Flipped(seen, rs, e) {
        var i :| 0 <= i < |rs| && rs[i].ticker == e.0 && e.1 in rs[i].signals && e.1 !in Before(seen, e.0);
        assert i < |front| ==> front[i] == rs[i];
      }
    }
  }

  lemma {:induction false} DueExact(st: State, lim: Limits, edges: seq<Edge>, now: int, r: string)
    ensures r in Due(st, lim, edges, now) <==> exists e :: e in edges && r == Reason(e) && Cool(st, lim, e.0, now)
  {
    if edges != [] {
      var front, last := edges[..|edges| - 1], edges[|edges| - 1];
      FrontLast(edges);
      DueExact(st, lim, front, now, r);
      assert forall e :: e in edges <==> e in front || e == last;
    }
  }

  function Cooled(st: State, lim: Limits, now: int): Edge -> bool {
    (e: Edge) => Cool(st, lim, e.0, now)
  }

  /** The reasons are those of the edges that have cooled, in their order. */
  lemma {:induction false} DueInOrder(st: State, lim: Limits, edges: seq<Edge>, now: int) returns (at: seq<int>)
    ensures Picks(at, edges, Cooled(st, lim, now)) && |Due(st, lim, edges, now)| == |at|
    ensures forall i :: 0 <= i < |at| ==> Due(st, lim, edges, now)[i] == Reason(edges[at[i]])
  {
    at := [];
    if edges != [] {
      var front, last := edges[..|edges| - 1], edges[|edges| - 1];
      var before := DueInOrder(st, lim, front, now);
      FrontLast(edges);
      PicksSnoc(before, front, last, Cooled(st, lim, now));
      at := before + (if Cooled(st, lim, now)(last) then [|front|] else []);
    }
  }

  /** Where e stands: reading a, and b in the order of the signals' names. */
  ghost predicate StandsAt(rs: seq<Reading>, e: Edge, a: int, b: int) {
    0 <= a < |rs| && rs[a].ticker == e.0 && 0 <= b < |ALL_SIGNALS| && ALL_SIGNALS[b] == e.1
  }

  lemma {:induction false} SignalAt(t: string, risen: set<Signal>, k: nat, i: nat) returns (b: int)
    requires k <= |ALL_SIGNALS| && i < |EdgesFor(t, risen, k)|
    ensures 0 <= b < k && EdgesFor(t, risen, k)[i] == (t, ALL_SIGNALS[b])
  {
    if i < |EdgesFor(t, risen, k - 1)| {
      b := SignalAt(t, risen, k - 1, i);
    } else {
      b := k - 1;
    }
  }

  lemma {:induction false} SignalsInOrder(t: string, risen: set<Signal>, k: nat, i: nat, j: nat)
    returns (b: int, d: int)
    requires k <= |ALL_SIGNALS| && i < j < |EdgesFor(t, risen, k)|
    ensures 0 <= b < d < k
    ensures EdgesFor(t, risen, k)[i] == (t, ALL_SIGNALS[b]) && EdgesFor(t, risen, k)[j] == (t, ALL_SIGNALS[d])
  {
    if j < |EdgesFor(t, risen, k - 1)| {
      b, d := SignalsInOrder(t, risen, k - 1, i, j);
    } else {
      d := k - 1;
      b := SignalAt(t, risen, k - 1, i);
    }
  }

  lemma StandsLater(front: seq<Reading>, r: Reading, e: Edge, a: int, b: int)
    requires StandsAt(front, e, a, b)
    ensures StandsAt(front + [r], e, a, b)
  {
  }

  lemma {:induction false} FlipAt(seen: map<string, set<Signal>>, rs: seq<Reading>, i: nat) returns (a: int, b: int)
    requires i < |Flips(seen, rs)|
    ensures StandsAt(rs, Flips(seen, rs)[i], a, b)
  {
    var front, r := rs[..|rs| - 1], rs[|rs| - 1];
    var before := Flips(seen, front);
    FrontLast(rs);
    if i < |before| {
      a, b := FlipAt(seen, front, i);
      StandsLater(front, r, before[i], a, b);
    } else {
      var risen := r.signals - EventRunner.Before(SeenAfter(seen, front), r.ticker);
      a := |front|;
      b := SignalAt(r.ticker, risen, |ALL_SIGNALS|, i - |before|);
    }
  }

  /** Flips come reading by reading, and of one reading by the signals' names. */
  lemma {:induction false} FlipsInOrder(seen: map<string, set<Signal>>, rs: seq<Reading>, i: nat, j: nat)
    returns (a: int, b: int, c: int, d: int)
    requires i < j < |Flips(seen, rs)|
    ensures StandsAt(rs, Flips(seen, rs)[i], a, b) && StandsAt(rs, Flips(seen, rs)[j], c, d)
    ensures a < c || (a == c && b < d)
  {
    var front, r := rs[..|rs| - 1], rs[|rs| - 1];
    var before := Flips(seen, front);
    var risen := r.signals - EventRunner.Before(SeenAfter(seen, front), r.ticker);
    FrontLast(rs);
    if j < |before| {
      a, b, c, d := FlipsInOrder(seen, front, i, j);
      StandsLater(front, r, before[i], a, b);
      StandsLater(front, r, before[j], c, d);
    } else if i < |before| {
      a, b := FlipAt(seen, front, i);
      StandsLater(front, r, before[i], a, b);
      c := |front|;
      d := SignalAt(r.ticker, risen, |ALL_SIGNALS|, j - |before|);
    } else {
      a, c := |front|, |front|;
      b, d := SignalsInOrder(r.ticker, risen, |ALL_SIGNALS|, i - |before|, j - |before|);
    }
  }

  /** Flips first, by reading and then by name; then the escalations, as they were given; and
      the market last. */
  ghost predicate Precedes(inp: Input, e: Edge, f: Edge) {
    || (exists a, b, c, d :: StandsAt(inp.readings, e, a, b) && StandsAt(inp.readings, f, c, d)
                             && (a < c || (a == c && b < d)))
    || ((exists a, b :: StandsAt(inp.readings, e, a, b)) && exists s :: s in inp.escalated && f == (Upper(s), Defense))
    || (exists i, j :: 0 <= i < j < |inp.escalated| && e == (Upper(inp.escalated[i]), Defense)
                       && f == (Upper(inp.escalated[j]), Defense))
    || (inp.market && f == ("MARKET", Market))
  }

  lemma EdgesInOrder(seen: map<string, set<Signal>>, inp: Input, i: nat, j: nat)
    requires i < j < |Edges(seen, inp)|
    ensures Precedes(inp, Edges(seen, inp)[i], Edges(seen, inp)[j])
  {
    var flips, all, n := Flips(seen, inp.readings), Edges(seen, inp), |Flips(seen, inp.readings)|;
    if j < n {
      var a, b, c, d := FlipsInOrder(seen, inp.readings, i, j);
    } else if j < n + |inp.escalated| {
      assert all[j] == (Upper(inp.escalated[j - n]), Defense);
      if i < n {
        var a, b := FlipAt(seen, inp.readings, i);
        assert inp.escalated[j - n] in inp.escalated;
      } else {
        assert all[i] == (Upper(inp.escalated[i - n]), Defense);
      }
    }
  }

  /** The reasons of a cycle come in that order. */
  lemma ReasonsInOrder(st: State, lim: Limits, inp: Input, i: nat, j: nat) returns (e: Edge, f: Edge)
    requires i < j < |Reasons(st, lim, inp)|
    ensures Reasons(st, lim, inp)[i] == Reason(e) && Reasons(st, lim, inp)[j] == Reason(f) && Precedes(inp, e, f)
  {
    var at := DueInOrder(st, lim, Edges(st.seen, inp), inp.now);
    e, f := Edges(st.seen, inp)[at[i]], Edges(st.seen, inp)[at[j]];
    EdgesInOrder(st.seen, inp, at[i], at[j]);
  }

  /** Escalated this cycle, by the poller's own price watch. */
  predicate Escalated(inp: Input, e: Edge) {
    (e.1 == Defense && exists s :: s in inp.escalated && e.0 == Upper(s)) || (inp.market && e == ("MARKET", Market))
  }

  lemma EdgesExact(seen: map<string, set<Signal>>, inp: Input, e: Edge)
    requires Keyed(inp.readings)
    ensures e in Edges(seen, inp) <==> Flipped(seen, inp.readings, e) || Escalated(inp, e)
  {
    FlipsExact(seen, inp.readings, e);
    var esc := Escalations(inp.escalated);
    if e in esc {
      var i :| 0 <= i < |esc| && esc[i] == e;
      assert inp.escalated[i] in inp.escalated;
    }
    if e.1 == Defense && exists s :: s in inp.escalated && e.0 == Upper(s) {
      var s :| s in inp.escalated && e.0 == Upper(s);
      var i :| 0 <= i < |inp.escalated| && inp.escalated[i] == s;
      assert esc[i] == e;
    }
  }

  /** A reason is due exactly when the gate is primed, the gap since the last pass is over,
      and it names an edge whose ticker is out of its cooldown. */
  lemma ReasonsExact(st: State, lim: Limits, inp: Input, r: string)
    requires Keyed(inp.readings)
    ensures r in Reasons(st, lim, inp)
            <==> st.primed && GapOver(st, lim, inp.now)
                 && exists e: Edge :: r == Reason(e) && Cool(st, lim, e.0, inp.now)
                                      && (Flipped(st.seen, inp.readings, e) || Escalated(inp, e))
  {
    DueExact(st, lim, Edges(st.seen, inp), inp.now, r);
    forall e: Edge ensures e in Edges(st.seen, inp) <==> Flipped(st.seen, inp.readings, e) || Escalated(inp, e) {
      EdgesExact(st.seen, inp, e);
    }
  }

  /** What the last reading of a ticker in these cycles was; nothing if it was never read. */
  function LastRead(cs: seq<Cycle>, t: string): set<Signal> {
    if cs == [] then {}
    else ReadIn(cs[|cs| - 1].inp.readings, t, LastRead(cs[..|cs| - 1], t))
  }

  function ReadIn(rs: seq<Reading>, t: string, otherwise: set<Signal>): set<Signal> {
    if rs == [] then otherwise
    else if rs[|rs| - 1].ticker == t then rs[|rs| - 1].signals
    else ReadIn(rs[..|rs| - 1], t, otherwise)
  }

  lemma {:induction false} ReadInIsSeen(seen: map<string, set<Signal>>, rs: seq<Reading>, t: string)
    ensures Before(SeenAfter(seen, rs), t) == ReadIn(rs, t, Before(seen, t))
  {
    if rs != [] { ReadInIsSeen(seen, rs[..|rs| - 1], t); }
  }

  /** Every cycle updates what was last read, whether or not a pass followed. */
  lemma {:induction false} SeenIsLastRead(cs: seq<Cycle>, lim: Limits, t: string)
    ensures Before(Run(cs, lim).seen, t) == LastRead(cs, t)
    ensures Run(cs, lim).primed <==> cs != []
  {
    if cs != [] {
      var front := cs[..|cs| - 1];
      SeenIsLastRead(front, lim, t);
      ReadInIsSeen(Run(front, lim).seen, cs[|cs| - 1].inp.readings, t);
    }
  }

  /** Over any run of cycles: the first starts nothing, and each reason a later one gives
      is a signal that was not there the last time its ticker was read, or an escalation. */
  lemma ReasonsAreEdges(cs: seq<Cycle>, lim: Limits, inp: Input, r: string)
    requires Keyed(inp.readings) && r in Reasons(Run(cs, lim), lim, inp)
    ensures cs != []
    ensures exists e: Edge ::
              && r == Reason(e)
              && (Escalated(inp, e)
                  || (e.1 !in LastRead(cs, e.0)
                      && exists rd :: rd in inp.readings && rd.ticker == e.0 && e.1 in rd.signals))
  {
    var st := Run(cs, lim);
    ReasonsExact(st, lim, inp, r);
    var e: Edge :| r == Reason(e) && Cool(st, lim, e.0, inp.now)
        && (Flipped(st.seen, inp.readings, e) || Escalated(inp, e));
    SeenIsLastRead(cs, lim, e.0);
  }

  // ---- How often passes run ----------------------------------------------------

  /** The pass a cycle completes, if it completes one. */
  function PassOf(st: State, lim: Limits, c: Cycle): seq<Pass> {
    var rs := Reasons(st, lim, c.inp);
    if rs != [] && c.outcome.Completed? then [Pass(c.outcome.at, rs)] else []
  }

  lemma PassFacts(st: State, lim: Limits, c: Cycle)
    ensures PassOf(st, lim, c) == [] ==>
            After(st, lim, c).lastAt == st.lastAt && After(st, lim, c).lastByTicker == st.lastByTicker
    ensures PassOf(st, lim, c) != [] ==>
              var p := PassOf(st, lim, c)[0];
              && p == Pass(c.outcome.at, Reasons(st, lim, c.inp)) && GapOver(st, lim, c.inp.now)
              && After(st, lim, c).lastAt == Some(p.at)
              && After(st, lim, c).lastByTicker == Stamp(st.lastByTicker, p.reasons, p.at)
  {
  }

  lemma {:induction false} LastAtIsLastPass(cs: seq<Cycle>, lim: Limits)
    ensures var ps, st := Passes(cs, lim), Run(cs, lim);
            st.lastAt == if ps == [] then None else Some(ps[|ps| - 1].at)
  {
    if cs != [] {
      var front, c := cs[..|cs| - 1], cs[|cs| - 1];
      LastAtIsLastPass(front, lim);
      PassFacts(Run(front, lim), lim, c);
      assert Passes(cs, lim) == Passes(front, lim) + PassOf(Run(front, lim), lim, c);
    }
  }

  ghost predicate Spaced(ats: seq<int>, d: int) {
    forall i :: 0 <= i < |ats| - 1 ==> ats[i + 1] - ats[i] >= d
  }

  lemma SpacedSnoc(ats: seq<int>, x: int, d: int)
    requires Spaced(ats, d) && (ats != [] ==> x - ats[|ats| - 1] >= d)
    ensures Spaced(ats + [x], d)
  {
  }

  /** At most one more, late enough. */
  lemma SpacedStep(ats: seq<int>, more: seq<int>, d: int)
    requires Spaced(ats, d) && |more| <= 1 && (more != [] && ats != [] ==> more[0] - ats[|ats| - 1] >= d)
    ensures Spaced(ats + more, d)
  {
    if more == [] {
      assert ats + more == ats;
    } else {
      assert more == [more[0]];
      SpacedSnoc(ats, more[0], d);
    }
  }

  function Ats(ps: seq<Pass>): (ats: seq<int>)
    ensures |ats| == |ps|
  {
    seq(|ps|, i requires 0 <= i < |ps| => ps[i].at)
  }

  /** Steps of at least d add up. */
  lemma {:induction false} SpacedSums(ats: seq<int>, d: int, i: nat, j: nat)
    requires Spaced(ats, d) && i <= j < |ats|
    ensures ats[j] - ats[i] >= (j - i) * d
    decreases j
  {
    if i < j {
      SpacedSums(ats, d, i, j - 1);
      assert (j - i) * d == (j - 1 - i) * d + d;
    }
  }

  /** So the k-th comes at least k-1 steps after the first. */
  lemma SpacedFromFirst(ats: seq<int>, d: int, k: nat)
    requires Spaced(ats, d) && 1 <= k <= |ats|
    ensures ats[k - 1] >= ats[0] + (k - 1) * d
  {
    SpacedSums(ats, d, 0, k - 1);
  }

  lemma {:induction false} PassesSpaced(cs: seq<Cycle>, lim: Limits)
    requires Clocked(cs)
    ensures Spaced(Ats(Passes(cs, lim)), lim.gap)
  {
    if cs != [] {
      ClockedFront(cs);
      PassesSpaced(cs[..|cs| - 1], lim);
      PassesSpacedStep(cs, lim);
    }
  }

  lemma PassesSpacedStep(cs: seq<Cycle>, lim: Limits)
    requires cs != [] && Clocked(cs) && Spaced(Ats(Passes(cs[..|cs| - 1], lim)), lim.gap)
    ensures Spaced(Ats(Passes(cs, lim)), lim.gap)
  {
    var front, c := cs[..|cs| - 1], cs[|cs| - 1];
    var ps, p := Passes(front, lim), PassOf(Run(front, lim), lim, c);
    LastAtIsLastPass(front, lim);
    PassFacts(Run(front, lim), lim, c);
    assert Passes(cs, lim) == ps + p;
    assert Ats(ps + p) == Ats(ps) + Ats(p);
    SpacedStep(Ats(ps), Ats(p), lim.gap);
  }

  /** The k-th completed pass is at least k-1 gaps after the first. */
  lemma PassesAreRateLimited(cs: seq<Cycle>, lim: Limits, k: nat)
    requires Clocked(cs) && 1 <= k <= |Passes(cs, lim)|
    ensures Passes(cs, lim)[k - 1].at >= Passes(cs, lim)[0].at + (k - 1) * lim.gap
  {
    PassesSpaced(cs, lim);
    SpacedFromFirst(Ats(Passes(cs, lim)), lim.gap, k);
  }

  // ---- How often passes name one ticker ----------------------------------------

  predicate Names(rs: seq<string>, t: string) {
    exists r :: r in rs && TickerOf(r) == t
  }

  /** When the completed passes that named t ran. */
  function NamedAt(ps: seq<Pass>, t: string): seq<int> {
    if ps == [] then []
    else
      var last := ps[|ps| - 1];
      NamedAt(ps[..|ps| - 1], t) + (if Names(last.reasons, t) then [last.at] else [])
  }

  lemma {:induction false} StampExact(m: map<string, int>, rs: seq<string>, now: int, t: string)
    ensures Names(rs, t) ==> t in Stamp(m, rs, now) && Stamp(m, rs, now)[t] == now
    ensures !Names(rs, t) ==> (t in Stamp(m, rs, now) <==> t in m) && (t in m ==> Stamp(m, rs, now)[t] == m[t])
  {
    if rs != [] {
      StampExact(m, rs[..|rs| - 1], now, t);
      assert rs == rs[..|rs| - 1] + [rs[|rs| - 1]];
      assert Names(rs, t) <==> Names(rs[..|rs| - 1], t) || TickerOf(rs[|rs| - 1]) == t;
    }
  }

  lemma NamedAtSnoc(ps: seq<Pass>, p: Pass, t: string)
    ensures NamedAt(ps + [p], t) == NamedAt(ps, t) + (if Names(p.reasons, t) then [p.at] else [])
  {
    assert (ps + [p])[..|ps|] == ps;
  }

  /** The same, for the one pass a cycle may make. */
  function NamedIn(p: seq<Pass>, t: string): seq<int> {
    if p != [] && Names(p[0].reasons, t) then [p[0].at] else []
  }

  lemma NamedAtStep(cs: seq<Cycle>, lim: Limits, t: string)
    requires cs != []
    ensures var front, c := cs[..|cs| - 1], cs[|cs| - 1];
            var p := PassOf(Run(front, lim), lim, c);
            NamedAt(Passes(cs, lim), t) == NamedAt(Passes(front, lim), t) + NamedIn(p, t)
  {
    var front, c := cs[..|cs| - 1], cs[|cs| - 1];
    var p := PassOf(Run(front, lim), lim, c);
    assert Passes(cs, lim) == Passes(front, lim) + p;
    if p != [] {
      NamedAtSnoc(Passes(front, lim), p[0], t);
    } else {
      assert Passes(front, lim) + [] == Passes(front, lim);
      assert NamedAt(Passes(front, lim), t) + [] == NamedAt(Passes(front, lim), t);
    }
  }

  lemma {:induction false} LastByTickerIsLastNamed(cs: seq<Cycle>, lim: Limits, t: string)
    ensures var at, st := NamedAt(Passes(cs, lim), t), Run(cs, lim);
            && (t in st.lastByTicker <==> at != [])
            && (at != [] ==> st.lastByTicker[t] == at[|at| - 1])
  {
    if cs != [] {
      var front, c := cs[..|cs| - 1], cs[|cs| - 1];
      LastByTickerIsLastNamed(front, lim, t);
      NamedAtStep(cs, lim, t);
      PassFacts(Run(front, lim), lim, c);
      var p := PassOf(Run(front, lim), lim, c);
      if p != [] {
        StampExact(Run(front, lim).lastByTicker, p[0].reasons, p[0].at, t);
      }
    }
  }

  predicate NoColon(t: string) {
    ':' !in t
  }

  lemma {:induction false} TickerOfReason(t: string, rest: string)
    requires NoColon(t)
    ensures TickerOf(t + ":" + rest) == t
  {
    var r := t + ":" + rest;
    if t != "" {
      assert r[1..] == t[1..] + ":" + rest;
      TickerOfReason(t[1..], rest);
      assert t == [t[0]] + t[1..];
    }
  }

  lemma {:induction false} DueNames(st: State, lim: Limits, edges: seq<Edge>, now: int, t: string)
    requires forall e :: e in edges ==> NoColon(e.0)
    requires Names(Due(st, lim, edges, now), t)
    ensures Cool(st, lim, t, now)
  {
    var r :| r in Due(st, lim, edges, now) && TickerOf(r) == t;
    DueExact(st, lim, edges, now, r);
    var e: Edge :| e in edges && r == Reason(e) && Cool(st, lim, e.0, now);
    TickerOfReason(e.0, e.1.Name());
  }

  /** No ticker the cycle mentions has a colon in it, so a reason names its own ticker. */
  ghost predicate PlainTickers(c: Cycle) {
    && Keyed(c.inp.readings)
    && (forall rd :: rd in c.inp.readings ==> NoColon(rd.ticker))
    && (forall s :: s in c.inp.escalated ==> NoColon(Upper(s)))
  }

  lemma PlainEdges(st: State, c: Cycle)
    requires PlainTickers(c)
    ensures forall e :: e in Edges(st.seen, c.inp) ==> NoColon(e.0)
  {
    forall e | e in Edges(st.seen, c.inp) ensures NoColon(e.0) {
      EdgesExact(st.seen, c.inp, e);
      if Flipped(st.seen, c.inp.readings, e) {
        var i :| 0 <= i < |c.inp.readings| && c.inp.readings[i].ticker == e.0;
        assert c.inp.readings[i] in c.inp.readings;
      }
    }
  }

  lemma NamedWhenCool(st: State, lim: Limits, c: Cycle, t: string)
    requires PlainTickers(c) && PassOf(st, lim, c) != [] && Names(PassOf(st, lim, c)[0].reasons, t)
    ensures Cool(st, lim, t, c.inp.now)
  {
    PlainEdges(st, c);
    DueNames(st, lim, Edges(st.seen, c.inp), c.inp.now, t);
  }

  /** A pass that names a ticker ends a cooldown or more after the last that named it. */
  lemma NamedIsLate(st: State, lim: Limits, c: Cycle, t: string)
    requires PlainTickers(c) && PassOf(st, lim, c) != [] && Names(PassOf(st, lim, c)[0].reasons, t)
    requires c.outcome.Completed? ==> c.inp.now <= c.outcome.at
    requires t in st.lastByTicker
    ensures PassOf(st, lim, c)[0].at - st.lastByTicker[t] >= lim.cooldown
  {
    NamedWhenCool(st, lim, c, t);
    PassFacts(st, lim, c);
  }

  lemma NamedOnce(st: State, lim: Limits, c: Cycle, t: string, ats: seq<int>)
    requires PlainTickers(c) && (c.outcome.Completed? ==> c.inp.now <= c.outcome.at)
    requires Spaced(ats, lim.cooldown) && (t in st.lastByTicker <==> ats != [])
    requires ats != [] ==> st.lastByTicker[t] == ats[|ats| - 1]
    ensures Spaced(ats + NamedIn(PassOf(st, lim, c), t), lim.cooldown)
  {
    var more := NamedIn(PassOf(st, lim, c), t);
    if more != [] && ats != [] { NamedIsLate(st, lim, c, t); }
    SpacedStep(ats, more, lim.cooldown);
  }

  lemma NamedSpacedStep(cs: seq<Cycle>, lim: Limits, t: string)
    requires cs != [] && Clocked(cs) && PlainTickers(cs[|cs| - 1])
    requires Spaced(NamedAt(Passes(cs[..|cs| - 1], lim), t), lim.cooldown)
    ensures Spaced(NamedAt(Passes(cs, lim), t), lim.cooldown)
  {
    var front, c := cs[..|cs| - 1], cs[|cs| - 1];
    LastByTickerIsLastNamed(front, lim, t);
    NamedOnce(Run(front, lim), lim, c, t, NamedAt(Passes(front, lim), t));
    NamedAtStep(cs, lim, t);
  }

  lemma ClockedFront(cs: seq<Cycle>)
    requires cs != [] && Clocked(cs)
    ensures Clocked(cs[..|cs| - 1])
  {
  }

  lemma {:induction false} NamedSpaced(cs: seq<Cycle>, lim: Limits, t: string)
    requires Clocked(cs) && forall i :: 0 <= i < |cs| ==> PlainTickers(cs[i])
    ensures Spaced(NamedAt(Passes(cs, lim), t), lim.cooldown)
  {
    if cs != [] {
      ClockedFront(cs);
      NamedSpaced(cs[..|cs| - 1], lim, t);
      NamedSpacedStep(cs, lim, t);
    }
  }

  /** The k-th completed pass that names a ticker is at least k-1 cooldowns after the first that did. */
  lemma TickersAreRateLimited(cs: seq<Cycle>, lim: Limits, t: string, k: nat)
    requires Clocked(cs) && forall i :: 0 <= i < |cs| ==> PlainTickers(cs[i])
    requires 1 <= k <= |NamedAt(Passes(cs, lim), t)|
    ensures NamedAt(Passes(cs, lim), t)[k - 1] >= NamedAt(Passes(cs, lim), t)[0] + (k - 1) * lim.cooldown
  {
    NamedSpaced(cs, lim, t);
    SpacedFromFirst(NamedAt(Passes(cs, lim), t), lim.cooldown, k);
  }

  // ---- What the limits cost ----------------------------------------------------

  lemma NameTells(s: Signal, s': Signal)
    requires s.Name() == s'.Name()
    ensures s == s'
  {
    assert s.Name()[0] == s'.Name()[0] && s.Name()[1] == s'.Name()[1];
  }

  lemma ReasonTells(e: Edge, e': Edge)
    requires NoColon(e.0) && NoColon(e'.0) && Reason(e) == Reason(e')
    ensures e == e'
  {
    TickerOfReason(e.0, e.1.Name());
    TickerOfReason(e'.0, e'.1.Name());
    var n := |e.0| + 1;
    assert Reason(e)[n..] == e.1.Name() && Reason(e')[n..] == e'.1.Name();
    NameTells(e.1, e'.1);
  }

  /** A cycle that gives e's reason saw e itself flip, or be escalated, with nothing to hold it. */
  lemma GivenIsFree(st: State, lim: Limits, c: Cycle, e: Edge)
    requires PlainTickers(c) && NoColon(e.0) && Reason(e) in Reasons(st, lim, c.inp)
    ensures GapOver(st, lim, c.inp.now) && Cool(st, lim, e.0, c.inp.now)
    ensures Flipped(st.seen, c.inp.readings, e) || Escalated(c.inp, e)
  {
    ReasonsExact(st, lim, c.inp, Reason(e));
    var e': Edge :| Reason(e) == Reason(e') && Cool(st, lim, e'.0, c.inp.now)
                    && (Flipped(st.seen, c.inp.readings, e') || Escalated(c.inp, e'));
    EdgesExact(st.seen, c.inp, e');
    PlainEdges(st, c);
    ReasonTells(e, e');
  }

  /** The gap since the last pass, or the cooldown of e's ticker, still runs. */
  predicate Held(st: State, lim: Limits, e: Edge, now: int) {
    !GapOver(st, lim, now) || !Cool(st, lim, e.0, now)
  }

  /** After the first cycle, a plain ticker's flip is given exactly when nothing holds it. */
  lemma FlipIsGivenUnlessHeld(st: State, lim: Limits, c: Cycle, e: Edge)
    requires st.primed && PlainTickers(c) && Flipped(st.seen, c.inp.readings, e)
    ensures Reason(e) in Reasons(st, lim, c.inp) <==> !Held(st, lim, e, c.inp.now)
  {
    var i :| 0 <= i < |c.inp.readings| && c.inp.readings[i].ticker == e.0;
    assert c.inp.readings[i] in c.inp.readings;
    ReasonsExact(st, lim, c.inp, Reason(e));
    if Reason(e) in Reasons(st, lim, c.inp) { GivenIsFree(st, lim, c, e); }
  }

  /** This cycle reads e's ticker with e's signal, which its last reading did not show; or it
      escalates the ticker's defense, or the market. */
  ghost predicate Fresh(cs: seq<Cycle>, c: Cycle, e: Edge) {
    || (e.1 !in LastRead(cs, e.0) && exists rd :: rd in c.inp.readings && rd.ticker == e.0 && e.1 in rd.signals)
    || (e.1 == Defense && exists s :: s in c.inp.escalated && Upper(s) == e.0)
    || (c.inp.market && e == ("MARKET", Market))
  }

  /** The last pass, and the last that named the ticker, are long enough ago. */
  ghost predicate LongAgo(ps: seq<Pass>, lim: Limits, t: string, now: int) {
    && (ps != [] ==> ps[|ps| - 1].at + lim.gap <= now)
    && (NamedAt(ps, t) != [] ==> NamedAt(ps, t)[|NamedAt(ps, t)| - 1] + lim.cooldown <= now)
  }

  lemma FreshIs(cs: seq<Cycle>, lim: Limits, c: Cycle, e: Edge)
    ensures Fresh(cs, c, e) <==> Flipped(Run(cs, lim).seen, c.inp.readings, e) || Escalated(c.inp, e)
  {
    SeenIsLastRead(cs, lim, e.0);
  }

  /** The gate remembers the last pass, and the last of those that named t. */
  ghost predicate Remembers(st: State, ps: seq<Pass>, named: seq<int>, t: string) {
    && st.lastAt == (if ps == [] then None else Some(ps[|ps| - 1].at))
    && (t in st.lastByTicker <==> named != [])
    && (named != [] ==> st.lastByTicker[t] == named[|named| - 1])
  }

  lemma RunRemembers(cs: seq<Cycle>, lim: Limits, t: string)
    ensures Remembers(Run(cs, lim), Passes(cs, lim), NamedAt(Passes(cs, lim), t), t)
  {
    LastAtIsLastPass(cs, lim);
    LastByTickerIsLastNamed(cs, lim, t);
  }

  lemma LongAgoOf(st: State, ps: seq<Pass>, lim: Limits, t: string, now: int)
    requires Remembers(st, ps, NamedAt(ps, t), t)
    ensures LongAgo(ps, lim, t, now) <==> GapOver(st, lim, now) && Cool(st, lim, t, now)
  {
  }

  lemma LongAgoIs(cs: seq<Cycle>, lim: Limits, t: string, now: int)
    ensures LongAgo(Passes(cs, lim), lim, t, now)
            <==> GapOver(Run(cs, lim), lim, now) && Cool(Run(cs, lim), lim, t, now)
  {
    RunRemembers(cs, lim, t);
    LongAgoOf(Run(cs, lim), Passes(cs, lim), lim, t, now);
  }

  /** A reason is given exactly when its own edge is there and nothing holds it. */
  lemma GivenWhenFree(st: State, lim: Limits, c: Cycle, e: Edge)
    requires PlainTickers(c) && NoColon(e.0)
    ensures Reason(e) in Reasons(st, lim, c.inp)
            <==> && st.primed && GapOver(st, lim, c.inp.now) && Cool(st, lim, e.0, c.inp.now)
                 && (Flipped(st.seen, c.inp.readings, e) || Escalated(c.inp, e))
  {
    ReasonsExact(st, lim, c.inp, Reason(e));
    if Reason(e) in Reasons(st, lim, c.inp) { GivenIsFree(st, lim, c, e); }
  }

  /** Over any run: a cycle gives e's reason exactly when e is fresh, it is not the first
      cycle, and the passes completed so far are long enough ago. */
  lemma GivenExactly(cs: seq<Cycle>, lim: Limits, c: Cycle, e: Edge)
    requires PlainTickers(c) && NoColon(e.0)
    ensures Reason(e) in Reasons(Run(cs, lim), lim, c.inp)
            <==> cs != [] && Fresh(cs, c, e) && LongAgo(Passes(cs, lim), lim, e.0, c.inp.now)
  {
    SeenIsLastRead(cs, lim, e.0);
    FreshIs(cs, lim, c, e);
    LongAgoIs(cs, lim, e.0, c.inp.now);
    GivenWhenFree(Run(cs, lim), lim, c, e);
  }

  /** Every reading of e's ticker shows e, and no escalation names it. */
  ghost predicate StillShown(c: Cycle, e: Edge) {
    PlainTickers(c) && !Escalated(c.inp, e)
    && forall rd :: rd in c.inp.readings && rd.ticker == e.0 ==> e.1 in rd.signals
  }

  lemma {:induction false} ShownStaysRead(cs: seq<Cycle>, ds: seq<Cycle>, e: Edge)
    requires e.1 in LastRead(cs, e.0) && forall i :: 0 <= i < |ds| ==> StillShown(ds[i], e)
    ensures e.1 in LastRead(cs + ds, e.0)
  {
    if ds == [] {
      assert cs + ds == cs;
    } else {
      var front, d := ds[..|ds| - 1], ds[|ds| - 1];
      ShownStaysRead(cs, front, e);
      assert (cs + ds)[..|cs + ds| - 1] == cs + front && (cs + ds)[|cs + ds| - 1] == d;
      assert StillShown(d, e);
      ReadInShows(d.inp.readings, LastRead(cs + front, e.0), e);
    }
  }

  lemma {:induction false} ReadInShows(rs: seq<Reading>, otherwise: set<Signal>, e: Edge)
    requires e.1 in otherwise && forall rd :: rd in rs && rd.ticker == e.0 ==> e.1 in rd.signals
    ensures e.1 in ReadIn(rs, e.0, otherwise)
  {
    if rs != [] {
      assert rs[|rs| - 1] in rs;
      ReadInShows(rs[..|rs| - 1], otherwise, e);
    }
  }

  lemma FlipIsRead(cs: seq<Cycle>, lim: Limits, c: Cycle, e: Edge)
    requires PlainTickers(c) && Flipped(Run(cs, lim).seen, c.inp.readings, e)
    ensures e.1 in LastRead(cs + [c], e.0) && NoColon(e.0)
  {
    var i :| 0 <= i < |c.inp.readings| && c.inp.readings[i].ticker == e.0 && e.1 in c.inp.readings[i].signals;
    assert c.inp.readings[i] in c.inp.readings;
    ReadInHas(c.inp.readings, c.inp.readings[i], LastRead(cs, e.0));
    assert (cs + [c])[..|cs|] == cs;
  }

  /** The price of the limits: a flip that comes while the gap or the cooldown runs is not
      given then, nor in any later cycle, for as long as every reading of its ticker still
      shows it and no escalation names it. It is lost, not postponed. */
  lemma SuppressedEdgeIsLost(cs: seq<Cycle>, lim: Limits, c: Cycle, ds: seq<Cycle>, k: nat, e: Edge)
    requires PlainTickers(c) && Flipped(Run(cs, lim).seen, c.inp.readings, e) && Held(Run(cs, lim), lim, e, c.inp.now)
    requires k < |ds| && forall i :: 0 <= i < |ds| ==> StillShown(ds[i], e)
    ensures Reason(e) !in Reasons(Run(cs, lim), lim, c.inp)
    ensures Reason(e) !in Reasons(Run(cs + [c] + ds[..k], lim), lim, ds[k].inp)
  {
    FlipIsRead(cs, lim, c, e);
    if Reason(e) in Reasons(Run(cs, lim), lim, c.inp) { GivenIsFree(Run(cs, lim), lim, c, e); }
    var before := cs + [c] + ds[..k];
    ShownStaysRead(cs + [c], ds[..k], e);
    SeenIsLastRead(before, lim, e.0);
    assert StillShown(ds[k], e);
    if Reason(e) in Reasons(Run(before, lim), lim, ds[k].inp) { GivenIsFree(Run(before, lim), lim, ds[k], e); }
  }

  function Cycled(ticker: string, signals: set<Signal>, now: int): Cycle {
    Cycle(Input([Reading(ticker, signals)], [], false, now), Completed(now))
  }

  const TEN_APART := Limits(10, 0)

  /** Primed, then a pass for U at 100; T's earnings signal rises at 105. */
  function Early(): seq<Cycle> {
    [Cycled("T", {}, 0), Cycled("U", {Defense}, 100)]
  }

  lemma EarlyState()
    ensures Run(Early(), TEN_APART) == State(map["T" := {}, "U" := {Defense}], true, map["U" := 100], Some(100))
  {
    var prime, first := Cycled("T", {}, 0), Cycled("U", {Defense}, 100);
    assert Early()[..1] == [prime] && [prime][..0] == [];
    var rs := prime.inp.readings;
    assert rs[..0] == [] && SeenAfter(map[], rs) == map["T" := {}];
    assert Run([], TEN_APART) == START && Reasons(START, TEN_APART, prime.inp) == [];
    var st := Run([prime], TEN_APART);
    assert st == After(START, TEN_APART, prime);
    assert st == State(map["T" := {}], true, map[], None);
    var us := first.inp.readings;
    assert us[..0] == [] && SeenAfter(st.seen, us) == map["T" := {}, "U" := {Defense}];
    OnlyDefense(st);
    Stamped100();
  }

  lemma OnlyDefense(st: State)
    requires st == State(map["T" := {}], true, map[], None)
    ensures Reasons(st, TEN_APART, Cycled("U", {Defense}, 100).inp) == ["U:defense"]
  {
    var inp := Cycled("U", {Defense}, 100).inp;
    assert inp.readings[..0] == [];
    assert Flips(st.seen, []) == [] && SeenAfter(st.seen, []) == st.seen;
    assert Before(st.seen, "U") == {} && {Defense} - {} == {Defense};
    DefenseAlone();
    assert Edges(st.seen, inp) == [("U", Defense)];
    assert [("U", Defense)][..0] == [];
    assert Reason(("U", Defense)) == "U:defense";
  }

  lemma DefenseAlone()
    ensures EdgesFor("U", {Defense}, 8) == [("U", Defense)]
  {
    assert EdgesFor("U", {Defense}, 0) == [];
    assert EdgesFor("U", {Defense}, 1) == [];
    assert EdgesFor("U", {Defense}, 2) == [];
    assert EdgesFor("U", {Defense}, 3) == [("U", Defense)];
    assert EdgesFor("U", {Defense}, 4) == [("U", Defense)];
    assert EdgesFor("U", {Defense}, 5) == [("U", Defense)];
    assert EdgesFor("U", {Defense}, 6) == [("U", Defense)];
    assert EdgesFor("U", {Defense}, 7) == [("U", Defense)];
  }

  lemma Stamped100()
    ensures Stamp(map[], ["U:defense"], 100) == map["U" := 100]
  {
    assert ["U:defense"][..0] == [];
    assert "U" + ":" + "defense" == "U:defense";
    TickerOfReason("U", "defense");
  }

  function FlipCycle(): Cycle {
    Cycled("T", {Earnings}, 105)
  }

  lemma FlipIsHeld()
    ensures PlainTickers(FlipCycle())
            && Flipped(Run(Early(), TEN_APART).seen, FlipCycle().inp.readings, ("T", Earnings))
    ensures Held(Run(Early(), TEN_APART), TEN_APART, ("T", Earnings), 105)
    ensures var st := Run(Early() + [FlipCycle()], TEN_APART);
            st.lastAt == Some(100) && st.lastByTicker == map["U" := 100]
  {
    EarlyState();
    assert FlipCycle().inp.readings[0].ticker == "T";
    assert (Early() + [FlipCycle()])[..2] == Early();
  }

  /** Such a run: T flips five after a pass; at 200, long past the gap and with T never
      cooled down, its reading is the same, and T is still not acted on. */
  lemma EarningsAreLost()
    ensures var st, later := Run(Early() + [FlipCycle()], TEN_APART), Cycled("T", {Earnings}, 200);
            && GapOver(st, TEN_APART, 200) && Cool(st, TEN_APART, "T", 200)
            && "T:earnings" !in Reasons(st, TEN_APART, later.inp)
  {
    var later, e := Cycled("T", {Earnings}, 200), ("T", Earnings);
    assert Reason(e) == "T" + ":" + "earnings" == "T:earnings";
    FlipIsHeld();
    assert StillShown(later, e);
    SuppressedEdgeIsLost(Early(), TEN_APART, FlipCycle(), [later], 0, e);
    assert Early() + [FlipCycle()] + [later][..0] == Early() + [FlipCycle()];
  }

  lemma {:induction false} ReadInHas(rs: seq<Reading>, rd: Reading, otherwise: set<Signal>)
    requires Keyed(rs) && rd in rs
    ensures ReadIn(rs, rd.ticker, otherwise) == rd.signals
  {
    var front, last := rs[..|rs| - 1], rs[|rs| - 1];
    assert rs == front + [last];
    if last != rd {
      var i :| 0 <= i < |front| && front[i] == rd;
      assert rs[i] == rd && rs[|rs| - 1] == last;
      ReadInHas(front, rd, otherwise);
    }
  }
}
