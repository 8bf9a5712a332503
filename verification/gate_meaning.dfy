/** What the aggregate's numbers mean, candidate by candidate. */
module GateMeaning {
  import opened Bags
  import opened Common
  import opened GateAggregate
  import opened GateCodec
  import opened GateRoundTrip

  predicate HasFailed(rs: seq<GateResult>, g: string) {
    exists r :: r in rs && r.gateId == g && r.authority == Veto && r.passed == Some(false)
  }

  /** Veto g failed and every other veto ran and passed. */
  predicate SoleBlock(rs: seq<GateResult>, g: string) {
    && HasFailed(rs, g)
    && (forall r :: r in rs && r.authority == Veto && r.gateId != g ==> r.passed == Some(true))
  }

  function Without(rs: seq<GateResult>, g: string): (out: seq<GateResult>)
    ensures forall r :: r in out <==> r in rs && r.gateId != g
  {
    if rs == [] then [] else (if rs[0].gateId != g then [rs[0]] else []) + Without(rs[1..], g)
  }

  predicate OtherVeto(rs: seq<GateResult>, g: string) {
    exists r :: r in rs && r.authority == Veto && r.gateId != g
  }

  /** A sole block is a counterfactual: without g the candidate would be admitted. The
      one exception is a candidate whose only veto is g, since a candidate with no veto
      at all is never admitted. */
  lemma SoleIsCounterfactual(rs: seq<GateResult>, g: string)
    requires WellFormed(rs)
    ensures SoleBlock(rs, g) <==> HasFailed(rs, g) && (Admitted(Without(rs, g)) || !OtherVeto(rs, g))
    ensures SoleBlock(rs, g) ==> !Admitted(rs)
  {
    if SoleBlock(rs, g) && OtherVeto(rs, g) {
      var r :| r in rs && r.authority == Veto && r.gateId != g;
      assert r in Without(rs, g);
    }
    if HasFailed(rs, g) && Admitted(Without(rs, g)) {
      forall r | r in rs && r.authority == Veto && r.gateId != g ensures r.passed == Some(true) {
        assert r in Without(rs, g);
      }
    }
    if HasFailed(rs, g) {
      var r :| r in rs && r.gateId == g && r.authority == Veto && r.passed == Some(false);
      assert r.passed != Some(true);
    }
  }

  // ---- One candidate's events --------------------------------------------------

  lemma {:induction false} BesideCount(gid: string, vf: seq<string>, a: string, b: string)
    ensures BesideAll(gid, vf)[Beside(a, b)] == if a == gid && b != gid then multiset(vf)[b] else 0
    ensures forall x :: x in BesideAll(gid, vf) ==> x.Beside?
  {
    if vf != [] {
      var front := vf[..|vf| - 1];
      assert vf == front + [vf[|vf| - 1]];
      BesideCount(gid, front, a, b);
    }
  }

  predicate Mine(r: GateResult, g: string) {
    r.gateId == g && g != ""
  }

  lemma VetoSplit(r: GateResult, week: string, vf: seq<string>, unknown: bool, x: Event)
    ensures VetoEvents(r, week, vf, unknown)[x] ==
            if !FailedVeto(r) then 0
            else (if !unknown && vf == [r.gateId] then AloneEvents(r.gateId, week)[x] else 0)
                 + BesideAll(r.gateId, vf)[x]
  {
    UnionCount(AloneEvents(r.gateId, week), BesideAll(r.gateId, vf), x);
    UnionCount(multiset{}, BesideAll(r.gateId, vf), x);
  }

  /** How often x happens in one result, part by part. */
  lemma ResultSplit(r: GateResult, week: string, vf: seq<string>, unknown: bool, x: Event)
    requires r.gateId != "" && r.passed.Some?
    ensures ResultEvents(r, week, vf, unknown)[x] ==
            RanEvents(r.gateId, week)[x]
            + (if r.passed == Some(false) then FellEvents(r.gateId, week)[x] else 0)
            + VetoEvents(r, week, vf, unknown)[x]
  {
    var ran := RanEvents(r.gateId, week);
    var fell := if r.passed == Some(false) then FellEvents(r.gateId, week) else multiset{};
    UnionCount(ran + fell, VetoEvents(r, week, vf, unknown), x);
    UnionCount(ran, fell, x);
  }

  /** How often x happens in one result, when x is not about a pair of gates. */
  lemma SingleCount(r: GateResult, week: string, vf: seq<string>, unknown: bool, x: Event)
    requires !x.Beside?
    ensures ResultEvents(r, week, vf, unknown)[x] ==
            if r.gateId == "" || r.passed.None? then 0
            else (if x == Ran(r.gateId) || x == RanIn(r.gateId, week) then 1 else 0)
                 + (if r.passed == Some(false) && (x == Fell(r.gateId) || x == FellIn(r.gateId, week)) then 1 else 0)
                 + (if FailedVeto(r) && !unknown && vf == [r.gateId]
                       && (x == Alone(r.gateId) || x == AloneIn(r.gateId, week)) then 1 else 0)
  {
    if r.gateId != "" && r.passed.Some? {
      ResultSplit(r, week, vf, unknown, x);
      VetoSplit(r, week, vf, unknown, x);
      TwoCount(Ran(r.gateId), RanIn(r.gateId, week), x);
      TwoCount(Fell(r.gateId), FellIn(r.gateId, week), x);
      TwoCount(Alone(r.gateId), AloneIn(r.gateId, week), x);
      BesideCount(r.gateId, vf, "", "");
    }
  }

  lemma RanCount(r: GateResult, week: string, vf: seq<string>, unknown: bool, g: string, w: string)
    ensures var ev := ResultEvents(r, week, vf, unknown);
            && ev[Ran(g)] == (if Mine(r, g) && r.passed.Some? then 1 else 0)
            && ev[RanIn(g, w)] == (if w == week then ev[Ran(g)] else 0)
  {
    SingleCount(r, week, vf, unknown, Ran(g));
    SingleCount(r, week, vf, unknown, RanIn(g, w));
  }

  lemma FellCount(r: GateResult, week: string, vf: seq<string>, unknown: bool, g: string, w: string)
    ensures var ev := ResultEvents(r, week, vf, unknown);
            && ev[Fell(g)] == (if Mine(r, g) && r.passed == Some(false) then 1 else 0)
            && ev[FellIn(g, w)] == (if w == week then ev[Fell(g)] else 0)
  {
    SingleCount(r, week, vf, unknown, Fell(g));
    SingleCount(r, week, vf, unknown, FellIn(g, w));
  }

  lemma AloneCount(r: GateResult, week: string, vf: seq<string>, unknown: bool, g: string, w: string)
    ensures var ev := ResultEvents(r, week, vf, unknown);
            && ev[Alone(g)] == (if Mine(r, g) && FailedVeto(r) && !unknown && vf == [g] then 1 else 0)
            && ev[AloneIn(g, w)] == (if w == week then ev[Alone(g)] else 0)
  {
    SingleCount(r, week, vf, unknown, Alone(g));
    SingleCount(r, week, vf, unknown, AloneIn(g, w));
  }

  lemma BesideOfResult(r: GateResult, week: string, vf: seq<string>, unknown: bool, g: string, b: string)
    ensures ResultEvents(r, week, vf, unknown)[Beside(g, b)]
            == if Mine(r, g) && FailedVeto(r) && g != b then multiset(vf)[b] else 0
  {
    var x := Beside(g, b);
    if r.gateId != "" && r.passed.Some? {
      ResultSplit(r, week, vf, unknown, x);
      VetoSplit(r, week, vf, unknown, x);
      TwoCount(Ran(r.gateId), RanIn(r.gateId, week), x);
      TwoCount(Fell(r.gateId), FellIn(r.gateId, week), x);
      TwoCount(Alone(r.gateId), AloneIn(r.gateId, week), x);
      BesideCount(r.gateId, vf, g, b);
    }
  }

  predicate Has(rs: seq<GateResult>, g: string) {
    exists r :: r in rs && r.gateId == g
  }

  predicate HasVerdict(rs: seq<GateResult>, g: string) {
    exists r :: r in rs && r.gateId == g && r.passed.Some?
  }

  predicate HasFall(rs: seq<GateResult>, g: string) {
    exists r :: r in rs && r.gateId == g && r.passed == Some(false)
  }

  /** The last result names a gate that the earlier ones do not. */
  lemma LastIsNew(rs: seq<GateResult>)
    requires rs != [] && WellFormed(rs)
    ensures var front, last := rs[..|rs| - 1], rs[|rs| - 1];
            && WellFormed(front) && !Has(front, last.gateId)
            && (forall r :: r in rs <==> r in front || r == last)
  {
    var front, last := rs[..|rs| - 1], rs[|rs| - 1];
    assert rs == front + [last];
    forall r | r in front ensures r.gateId != last.gateId {
      var i :| 0 <= i < |front| && front[i] == r;
      assert rs[i] == r && rs[|rs| - 1] == last;
    }
  }

  lemma {:induction false} VerdictsCount(rs: seq<GateResult>, week: string, vf: seq<string>, unknown: bool, g: string)
    requires WellFormed(rs)
    ensures ResultsEvents(rs, week, vf, unknown)[Ran(g)] == (if HasVerdict(rs, g) then 1 else 0)
    ensures ResultsEvents(rs, week, vf, unknown)[Fell(g)] == (if HasFall(rs, g) then 1 else 0)
  {
    if rs != [] {
      LastIsNew(rs);
      VerdictsCount(rs[..|rs| - 1], week, vf, unknown, g);
      RanCount(rs[|rs| - 1], week, vf, unknown, g, week);
      FellCount(rs[|rs| - 1], week, vf, unknown, g, week);
    }
  }

  lemma {:induction false} VetoesCount(
      rs: seq<GateResult>, week: string, vf: seq<string>, unknown: bool, g: string, b: string)
    requires WellFormed(rs)
    ensures ResultsEvents(rs, week, vf, unknown)[Alone(g)]
            == (if HasFailed(rs, g) && !unknown && vf == [g] then 1 else 0)
    ensures ResultsEvents(rs, week, vf, unknown)[Beside(g, b)]
            == (if HasFailed(rs, g) && g != b then multiset(vf)[b] else 0)
  {
    if rs != [] {
      LastIsNew(rs);
      VetoesCount(rs[..|rs| - 1], week, vf, unknown, g, b);
      AloneCount(rs[|rs| - 1], week, vf, unknown, g, week);
      BesideOfResult(rs[|rs| - 1], week, vf, unknown, g, b);
      assert HasFailed(rs, g) <==>
             HasFailed(rs[..|rs| - 1], g) || (rs[|rs| - 1].gateId == g && FailedVeto(rs[|rs| - 1]));
    }
  }

  lemma ResultsSnoc(rs: seq<GateResult>, week: string, vf: seq<string>, unknown: bool, x: Event)
    requires rs != []
    ensures ResultsEvents(rs, week, vf, unknown)[x]
            == ResultsEvents(rs[..|rs| - 1], week, vf, unknown)[x] + ResultEvents(rs[|rs| - 1], week, vf, unknown)[x]
  {
    UnionCount(ResultsEvents(rs[..|rs| - 1], week, vf, unknown), ResultEvents(rs[|rs| - 1], week, vf, unknown), x);
  }

  /** x is a weekly event, and y the event it breaks down. */
  predicate Weekly(x: Event, y: Event, g: string, w: string) {
    (x == RanIn(g, w) && y == Ran(g)) || (x == FellIn(g, w) && y == Fell(g)) || (x == AloneIn(g, w) && y == Alone(g))
  }

  lemma {:induction false} WeekCount(rs: seq<GateResult>, week: string, vf: seq<string>, unknown: bool,
                                     g: string, w: string, x: Event, y: Event)
    requires Weekly(x, y, g, w)
    ensures var ev := ResultsEvents(rs, week, vf, unknown); ev[x] == if w == week then ev[y] else 0
  {
    if rs != [] {
      WeekCount(rs[..|rs| - 1], week, vf, unknown, g, w, x, y);
      ResultsSnoc(rs, week, vf, unknown, x);
      ResultsSnoc(rs, week, vf, unknown, y);
      RanCount(rs[|rs| - 1], week, vf, unknown, g, w);
      FellCount(rs[|rs| - 1], week, vf, unknown, g, w);
      AloneCount(rs[|rs| - 1], week, vf, unknown, g, w);
    }
  }

  lemma {:induction false} FailedVetoes(rs: seq<GateResult>)
    requires WellFormed(rs)
    ensures Distinct(VetoFailed(rs))
    ensures forall g :: g in VetoFailed(rs) <==> HasFailed(rs, g)
  {
    if rs != [] {
      LastIsNew(rs);
      var front, last := rs[..|rs| - 1], rs[|rs| - 1];
      FailedVetoes(front);
      assert HasFailed(front, last.gateId) ==> Has(front, last.gateId);
      forall g ensures HasFailed(rs, g) <==> HasFailed(front, g) || (last.gateId == g && FailedVeto(last)) {
      }
    }
  }

  lemma SoleList(rs: seq<GateResult>, g: string)
    requires WellFormed(rs)
    ensures HasFailed(rs, g) && !UnknownVeto(rs) && VetoFailed(rs) == [g] <==> SoleBlock(rs, g)
  {
    FailedVetoes(rs);
    var vf := VetoFailed(rs);
    if HasFailed(rs, g) && !UnknownVeto(rs) && vf == [g] {
      forall r | r in rs && r.authority == Veto && r.gateId != g ensures r.passed == Some(true) {
        assert r.gateId !in vf;
        assert !HasFailed(rs, r.gateId);
        assert !FailedVeto(r) && r.passed.Some?;
        assert r.passed.value;
      }
    }
    if SoleBlock(rs, g) {
      OnlyMember(vf, g);
      var f :| f in rs && f.gateId == g && FailedVeto(f);
      forall r | r in rs && r.authority == Veto ensures r.passed.Some? {
        if r.gateId == g { SameGate(rs, r, f); }
      }
    }
  }

  lemma SameGate(rs: seq<GateResult>, r: GateResult, f: GateResult)
    requires WellFormed(rs) && r in rs && f in rs && r.gateId == f.gateId
    ensures r == f
  {
    OnlyOne(rs, r);
    OnlyOne(rs, f);
  }

  lemma OnlyMember(vf: seq<string>, g: string)
    requires Distinct(vf) && g in vf && forall x :: x in vf ==> x == g
    ensures vf == [g]
  {
    var n := |vf| - 1;
    assert vf[0] in vf && vf[n] in vf;
    assert n == 0;
  }

  /** One candidate's share of every count. */
  lemma EntryCount(e: Entry, g: string, b: string)
    requires WellFormed(e.candidate.results)
    ensures var rs, ev := e.candidate.results, EntryEvents(e);
            && ev[Ran(g)] == (if HasVerdict(rs, g) then 1 else 0)
            && ev[Fell(g)] == (if HasFall(rs, g) then 1 else 0)
            && ev[Alone(g)] == (if SoleBlock(rs, g) then 1 else 0)
            && ev[Beside(g, b)] == (if g != b && HasFailed(rs, g) && HasFailed(rs, b) then 1 else 0)
  {
    var rs := e.candidate.results;
    VerdictsCount(rs, e.week, VetoFailed(rs), UnknownVeto(rs), g);
    VetoesCount(rs, e.week, VetoFailed(rs), UnknownVeto(rs), g, b);
    SoleList(rs, g);
    FailedVetoes(rs);
    DistinctBag(VetoFailed(rs));
  }

  // ---- All candidates ----------------------------------------------------------

  function HowMany(es: seq<Entry>, p: Entry -> bool): nat {
    if es == [] then 0 else HowMany(es[..|es| - 1], p) + (if p(es[|es| - 1]) then 1 else 0)
  }

  ghost predicate AllWellFormed(es: seq<Entry>) {
    forall e :: e in es ==> WellFormed(e.candidate.results)
  }

  function Solely(g: string): Entry -> bool {
    (e: Entry) => SoleBlock(e.candidate.results, g)
  }

  function Jointly(a: string, b: string): Entry -> bool {
    (e: Entry) => a != b && HasFailed(e.candidate.results, a) && HasFailed(e.candidate.results, b)
  }

  function Verdict(g: string): Entry -> bool {
    (e: Entry) => HasVerdict(e.candidate.results, g)
  }

  function Failing(g: string): Entry -> bool {
    (e: Entry) => HasFall(e.candidate.results, g)
  }

  lemma {:induction false} EventsAreNumbers(es: seq<Entry>, g: string, b: string)
    requires AllWellFormed(es)
    ensures AllEvents(es)[Ran(g)] == HowMany(es, Verdict(g))
    ensures AllEvents(es)[Fell(g)] == HowMany(es, Failing(g))
    ensures AllEvents(es)[Alone(g)] == HowMany(es, Solely(g))
    ensures AllEvents(es)[Beside(g, b)] == HowMany(es, Jointly(g, b))
  {
    if es != [] {
      EventsAreNumbers(es[..|es| - 1], g, b);
      EntryCount(es[|es| - 1], g, b);
    }
  }

  lemma {:induction false} JointlyIsSymmetric(es: seq<Entry>, a: string, b: string)
    ensures HowMany(es, Jointly(a, b)) == HowMany(es, Jointly(b, a))
  {
    if es != [] { JointlyIsSymmetric(es[..|es| - 1], a, b); }
  }

  /** The counts of the pass, gate by gate and pair by pair; the co-block matrix is symmetric. */
  lemma TallyMeans(t: Tally, es: seq<Entry>, g: string, b: string)
    requires Covers(t, es) && AllWellFormed(es)
    ensures Get(t.evaluated, g) == HowMany(es, Verdict(g))
    ensures Get(t.failed, g) == HowMany(es, Failing(g))
    ensures Get(t.sole, g) == HowMany(es, Solely(g))
    ensures Get(t.coBlock, (g, b)) == HowMany(es, Jointly(g, b)) == Get(t.coBlock, (b, g))
  {
    EventsAreNumbers(es, g, b);
    EventsAreNumbers(es, b, g);
    JointlyIsSymmetric(es, g, b);
  }

  // ---- A candidate is blocked by one gate, or admitted, or neither -------------

  function SoleTotal(gs: seq<string>, t: Tally): nat {
    if gs == [] then 0 else SoleTotal(gs[..|gs| - 1], t) + Get(t.sole, gs[|gs| - 1])
  }

  function SoleGates(gs: seq<string>, es: seq<Entry>): nat {
    if gs == [] then 0 else SoleGates(gs[..|gs| - 1], es) + HowMany(es, Solely(gs[|gs| - 1]))
  }

  lemma {:induction false} OneSoleGate(gs: seq<string>, es: seq<Entry>)
    requires es != [] && Distinct(gs) && AllWellFormed(es)
    ensures var rs := es[|es| - 1].candidate.results;
            && SoleGates(gs, es) <= SoleGates(gs, es[..|es| - 1]) + (if Admitted(rs) then 0 else 1)
            && ((forall g :: g in gs ==> !SoleBlock(rs, g)) ==> SoleGates(gs, es) == SoleGates(gs, es[..|es| - 1]))
  {
    if gs != [] {
      var front, g := gs[..|gs| - 1], gs[|gs| - 1];
      var rs := es[|es| - 1].candidate.results;
      assert gs == front + [g];
      OneSoleGate(front, es);
      SoleIsCounterfactual(rs, g);
      if SoleBlock(rs, g) {
        forall x | x in front ensures !SoleBlock(rs, x) {
          OneBlocker(rs, g, x);
        }
      }
    }
  }

  lemma OneBlocker(rs: seq<GateResult>, g: string, x: string)
    requires SoleBlock(rs, g) && x != g
    ensures !SoleBlock(rs, x)
  {
    var f :| f in rs && f.gateId == g && f.authority == Veto && f.passed == Some(false);
    assert f.gateId != x && f.passed.value == false;
  }

  lemma {:induction false} SoleGatesBounded(gs: seq<string>, es: seq<Entry>)
    requires Distinct(gs) && AllWellFormed(es)
    requires forall e :: e in es ==> (e.candidate.admitted ==> Admitted(e.candidate.results))
    ensures SoleGates(gs, es) + AdmittedCount(es) <= |es|
  {
    if es == [] {
      NoSoles(gs);
    } else {
      SoleGatesBounded(gs, es[..|es| - 1]);
      OneSoleGate(gs, es);
    }
  }

  lemma {:induction false} NoSoles(gs: seq<string>)
    ensures SoleGates(gs, []) == 0
  {
    if gs != [] { NoSoles(gs[..|gs| - 1]); }
  }

  lemma {:induction false} SoleTotalIs(gs: seq<string>, t: Tally, es: seq<Entry>)
    requires Covers(t, es) && AllWellFormed(es)
    ensures SoleTotal(gs, t) == SoleGates(gs, es)
  {
    if gs != [] {
      SoleTotalIs(gs[..|gs| - 1], t, es);
      TallyMeans(t, es, gs[|gs| - 1], "");
    }
  }

  /** Sole blocks over any set of gates, and the admitted, never exceed the evaluated. */
  lemma SoleAndAdmittedAreExclusive(t: Tally, es: seq<Entry>, gs: seq<string>)
    requires Covers(t, es) && AllWellFormed(es) && Distinct(gs)
    requires forall e :: e in es ==> (e.candidate.admitted ==> Admitted(e.candidate.results))
    ensures SoleTotal(gs, t) + t.admittedN <= t.evaluatedN
  {
    SoleTotalIs(gs, t, es);
    SoleGatesBounded(gs, es);
  }

  // ---- The weekly series adds up -----------------------------------------------

  function WeeklyTotal(ws: seq<string>, t: Tally, g: string): Week {
    if ws == [] then Week(0, 0, 0)
    else
      var s, w := WeeklyTotal(ws[..|ws| - 1], t, g), GetWeek(t.weekly, (g, ws[|ws| - 1]));
      Week(s.evaluated + w.evaluated, s.failed + w.failed, s.sole + w.sole)
  }

  function WeeklyEvents(ws: seq<string>, ev: multiset<Event>, g: string): Week {
    if ws == [] then Week(0, 0, 0)
    else
      var s, w := WeeklyEvents(ws[..|ws| - 1], ev, g), ws[|ws| - 1];
      Week(s.evaluated + ev[RanIn(g, w)], s.failed + ev[FellIn(g, w)], s.sole + ev[AloneIn(g, w)])
  }

  lemma {:induction false} WeeklyIsEvents(ws: seq<string>, t: Tally, ev: multiset<Event>, g: string)
    requires Counts(t, ev)
    ensures WeeklyTotal(ws, t, g) == WeeklyEvents(ws, ev, g)
  {
    if ws != [] { WeeklyIsEvents(ws[..|ws| - 1], t, ev, g); }
  }

  lemma WeekStep(ev: multiset<Event>, e: Entry, g: string, w: string)
    ensures var mine := EntryEvents(e);
            && (ev + mine)[RanIn(g, w)] == ev[RanIn(g, w)] + (if w == e.week then mine[Ran(g)] else 0)
            && (ev + mine)[FellIn(g, w)] == ev[FellIn(g, w)] + (if w == e.week then mine[Fell(g)] else 0)
            && (ev + mine)[AloneIn(g, w)] == ev[AloneIn(g, w)] + (if w == e.week then mine[Alone(g)] else 0)
  {
    var rs := e.candidate.results;
    WeekCount(rs, e.week, VetoFailed(rs), UnknownVeto(rs), g, w, RanIn(g, w), Ran(g));
    WeekCount(rs, e.week, VetoFailed(rs), UnknownVeto(rs), g, w, FellIn(g, w), Fell(g));
    WeekCount(rs, e.week, VetoFailed(rs), UnknownVeto(rs), g, w, AloneIn(g, w), Alone(g));
  }

  lemma {:induction false} OneWeek(ws: seq<string>, ev: multiset<Event>, e: Entry, g: string)
    requires Distinct(ws)
    ensures var mine := EntryEvents(e);
            var s, was := WeeklyEvents(ws, ev + mine, g), WeeklyEvents(ws, ev, g);
            s == if e.week in ws
                 then Week(was.evaluated + mine[Ran(g)], was.failed + mine[Fell(g)], was.sole + mine[Alone(g)])
                 else was
  {
    if ws != [] {
      var front, w := ws[..|ws| - 1], ws[|ws| - 1];
      assert ws == front + [w];
      OneWeek(front, ev, e, g);
      WeekStep(ev, e, g, w);
    }
  }

  function InWeek(w: string, p: Entry -> bool): Entry -> bool {
    (e: Entry) => e.week == w && p(e)
  }

  /** What a gate did in a week: candidates it judged, failed, and blocked alone. */
  function WeekCounts(es: seq<Entry>, g: string, w: string): Week {
    Week(HowMany(es, InWeek(w, Verdict(g))), HowMany(es, InWeek(w, Failing(g))), HowMany(es, InWeek(w, Solely(g))))
  }

  lemma EntryWeek(e: Entry, g: string, w: string)
    requires WellFormed(e.candidate.results)
    ensures var ev := EntryEvents(e);
            && ev[RanIn(g, w)] == (if InWeek(w, Verdict(g))(e) then 1 else 0)
            && ev[FellIn(g, w)] == (if InWeek(w, Failing(g))(e) then 1 else 0)
            && ev[AloneIn(g, w)] == (if InWeek(w, Solely(g))(e) then 1 else 0)
  {
    var rs := e.candidate.results;
    EntryCount(e, g, "");
    WeekCount(rs, e.week, VetoFailed(rs), UnknownVeto(rs), g, w, RanIn(g, w), Ran(g));
    WeekCount(rs, e.week, VetoFailed(rs), UnknownVeto(rs), g, w, FellIn(g, w), Fell(g));
    WeekCount(rs, e.week, VetoFailed(rs), UnknownVeto(rs), g, w, AloneIn(g, w), Alone(g));
  }

  lemma {:induction false} WeekEventsAreNumbers(es: seq<Entry>, g: string, w: string)
    requires AllWellFormed(es)
    ensures var ev := AllEvents(es);
            Week(ev[RanIn(g, w)], ev[FellIn(g, w)], ev[AloneIn(g, w)]) == WeekCounts(es, g, w)
  {
    if es != [] {
      WeekEventsAreNumbers(es[..|es| - 1], g, w);
      EntryWeek(es[|es| - 1], g, w);
    }
  }

  /** The weekly counters are about the candidates of that week. */
  lemma WeeklyMeans(t: Tally, es: seq<Entry>, g: string, w: string)
    requires Covers(t, es) && AllWellFormed(es)
    ensures GetWeek(t.weekly, (g, w)) == WeekCounts(es, g, w)
  {
    WeekEventsAreNumbers(es, g, w);
  }

  lemma {:induction false} NoEvents(ws: seq<string>, g: string)
    ensures WeeklyEvents(ws, multiset{}, g) == Week(0, 0, 0)
  {
    if ws != [] { NoEvents(ws[..|ws| - 1], g); }
  }

  lemma {:induction false} WeeksCoverEvents(ws: seq<string>, es: seq<Entry>, g: string)
    requires Distinct(ws) && forall e :: e in es ==> e.week in ws
    ensures var ev := AllEvents(es); WeeklyEvents(ws, ev, g) == Week(ev[Ran(g)], ev[Fell(g)], ev[Alone(g)])
  {
    if es == [] {
      NoEvents(ws, g);
    } else {
      WeeksCoverEvents(ws, es[..|es| - 1], g);
      OneWeek(ws, AllEvents(es[..|es| - 1]), es[|es| - 1], g);
    }
  }

  /** Over any list of weeks that covers the range, a gate's weekly counters sum to its totals. */
  lemma WeeksSumToTotals(ws: seq<string>, t: Tally, es: seq<Entry>, g: string)
    requires Covers(t, es) && Distinct(ws) && forall e :: e in es ==> e.week in ws
    ensures WeeklyTotal(ws, t, g) == Week(Get(t.evaluated, g), Get(t.failed, g), Get(t.sole, g))
  {
    WeeklyIsEvents(ws, t, AllEvents(es), g);
    WeeksCoverEvents(ws, es, g);
  }

  // ---- Every run the encoder wrote meets the conditions above ------------------

  /** Whatever was encoded, the decoded candidates carry each gate at most once. */
  lemma DecodedIsWellFormed(cs: seq<Candidate>, i: nat)
    requires i < |cs|
    ensures |Decode(Encode(cs))| == |cs| && WellFormed(Decode(Encode(cs))[i].results)
  {
    var all := AllNamed(cs);
    RoundTrip(cs);
    var out := Settled(all, cs[i].results, |Order(all)|);
    SettledInOrder(all, cs[i].results, |Order(all)|);
    SettledMembers(all, cs[i].results, |Order(all)|);
    AllNamedMembers(cs);
    OrderIsStrict(all);
    forall r | r in out ensures r.gateId != "" {
      assert r.gateId in Order(all);
      IdsAreSeen(all, r.gateId);
    }
    forall a, b | 0 <= a < b < |out| ensures out[a].gateId != out[b].gateId {
      assert GateIds(out)[a] != GateIds(out)[b];
    }
  }

  /** Each gate keeps one authority across the run. */
  ghost predicate OneAuthority(cs: seq<Candidate>) {
    forall r, r' :: r in AllNamed(cs) && r' in AllNamed(cs) && r.gateId == r'.gateId ==> r.authority == r'.authority
  }

  lemma {:induction false} FirstSeenIsSeen(all: seq<GateResult>, g: string)
    ensures FirstSeen(all, g).Some? ==> FirstSeen(all, g).value in all
  {
    if all != [] { FirstSeenIsSeen(all[..|all| - 1], g); }
  }

  /** The flag record_scan wrote is the verdict its decoded results give. */
  lemma DecodedFlagIsVerdict(cs: seq<Candidate>, i: nat)
    requires i < |cs| && WellFormed(cs[i].results) && OneAuthority(cs)
    requires cs[i].admitted == Admitted(cs[i].results)
    ensures |Decode(Encode(cs))| == |cs|
    ensures Decode(Encode(cs))[i].admitted == Admitted(Decode(Encode(cs))[i].results)
  {
    var all := AllNamed(cs);
    RoundTrip(cs);
    AllNamedMembers(cs);
    forall r | r in cs[i].results ensures Rebase(all, r).authority == r.authority {
      FirstSeenIsSeen(all, r.gateId);
    }
    AdmissionSurvives(all, cs[i].results);
  }
}
