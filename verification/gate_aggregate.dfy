/** backend/gate_telemetry.py, aggregate: one pass over the recorded runs that counts,
    per gate, how often it ran, failed, failed alone, and failed with each other gate. */
module GateAggregate {
  import opened Bags
  import opened Common
  import opened GateCodec

  datatype Week = Week(evaluated: nat, failed: nat, sole: nat)

  /** The dictionaries of the pass; a pair stands for a dictionary inside a dictionary. */
  datatype Tally = Tally(
    evaluatedN: nat, admittedN: nat,
    evaluated: map<string, nat>, failed: map<string, nat>, sole: map<string, nat>,
    coBlock: map<(string, string), nat>, weekly: map<(string, string), Week>)

  /** A recorded run, with the ISO week its day falls in. */
  datatype DayRun = DayRun(week: string, run: Run)

  datatype Entry = Entry(week: string, candidate: Candidate)

  function Get<K>(m: map<K, nat>, k: K): nat {
    if k in m then m[k] else 0
  }

  function Plus<K>(m: map<K, nat>, k: K): map<K, nat> {
    m[k := Get(m, k) + 1]
  }

  function GetWeek(m: map<(string, string), Week>, k: (string, string)): Week {
    if k in m then m[k] else Week(0, 0, 0)
  }

  // ---- What there is to count --------------------------------------------------

  /** Something the pass counts once each time it happens. */
  datatype Event =
    | Ran(gate: string) | Fell(gate: string) | Alone(gate: string)
    | RanIn(gate: string, week: string) | FellIn(gate: string, week: string) | AloneIn(gate: string, week: string)
    | Beside(gate: string, other: string)

  predicate FailedVeto(r: GateResult) {
    r.authority == Veto && r.passed == Some(false)
  }

  predicate UnknownVeto(results: seq<GateResult>) {
    exists r :: r in results && r.authority == Veto && r.passed.None?
  }

  function VetoFailed(results: seq<GateResult>): seq<string> {
    if results == [] then []
    else
      var last := results[|results| - 1];
      VetoFailed(results[..|results| - 1]) + (if FailedVeto(last) then [last.gateId] else [])
  }

  /** One for each failed veto other than gid. */
  function BesideAll(gid: string, vf: seq<string>): multiset<Event> {
    if vf == [] then multiset{}
    else
      var other := vf[|vf| - 1];
      BesideAll(gid, vf[..|vf| - 1]) + BesideOne(gid, other)
  }

  function RanEvents(gid: string, week: string): multiset<Event> {
    multiset{Ran(gid), RanIn(gid, week)}
  }

  function FellEvents(gid: string, week: string): multiset<Event> {
    multiset{Fell(gid), FellIn(gid, week)}
  }

  function AloneEvents(gid: string, week: string): multiset<Event> {
    multiset{Alone(gid), AloneIn(gid, week)}
  }

  function VetoEvents(r: GateResult, week: string, vf: seq<string>, unknown: bool): multiset<Event> {
    if !FailedVeto(r) then multiset{}
    else (if !unknown && vf == [r.gateId] then AloneEvents(r.gateId, week) else multiset{}) + BesideAll(r.gateId, vf)
  }

  function ResultEvents(r: GateResult, week: string, vf: seq<string>, unknown: bool): multiset<Event> {
    if r.gateId == "" || r.passed.None? then multiset{}
    else RanEvents(r.gateId, week)
         + (if r.passed == Some(false) then FellEvents(r.gateId, week) else multiset{})
         + VetoEvents(r, week, vf, unknown)
  }

  function ResultsEvents(rs: seq<GateResult>, week: string, vf: seq<string>, unknown: bool): multiset<Event> {
    if rs == [] then multiset{}
    else ResultsEvents(rs[..|rs| - 1], week, vf, unknown) + ResultEvents(rs[|rs| - 1], week, vf, unknown)
  }

  function EntryEvents(e: Entry): multiset<Event> {
    var rs := e.candidate.results;
    ResultsEvents(rs, e.week, VetoFailed(rs), UnknownVeto(rs))
  }

  function AllEvents(es: seq<Entry>): multiset<Event> {
    if es == [] then multiset{} else AllEvents(es[..|es| - 1]) + EntryEvents(es[|es| - 1])
  }

  /** Every dictionary holds how often its event has happened. */
  ghost predicate Counts(t: Tally, ev: multiset<Event>) {
    && (forall g :: Get(t.evaluated, g) == ev[Ran(g)])
    && (forall g :: Get(t.failed, g) == ev[Fell(g)])
    && (forall g :: Get(t.sole, g) == ev[Alone(g)])
    && (forall a, b :: Get(t.coBlock, (a, b)) == ev[Beside(a, b)])
    && (forall g, w :: GetWeek(t.weekly, (g, w)) == Week(ev[RanIn(g, w)], ev[FellIn(g, w)], ev[AloneIn(g, w)]))
  }

  // ---- The pass ----------------------------------------------------------------

  function BesideOne(gid: string, other: string): multiset<Event> {
    if other != gid then multiset{Beside(gid, other)} else multiset{}
  }

  method BumpOther(t0: Tally, gid: string, other: string, ghost ev: multiset<Event>) returns (t: Tally)
    requires Counts(t0, ev)
    ensures Counts(t, ev + BesideOne(gid, other)) && t.evaluatedN == t0.evaluatedN && t.admittedN == t0.admittedN
  {
    t := t0;
    if other != gid {
      t := t.(coBlock := Plus(t.coBlock, (gid, other)));
    }
  }

  lemma BesideStep(gid: string, vf: seq<string>, i: nat, ev: multiset<Event>)
    requires i < |vf|
    ensures ev + BesideAll(gid, vf[..i + 1]) == ev + BesideAll(gid, vf[..i]) + BesideOne(gid, vf[i])
  {
    assert vf[..i + 1][..i] == vf[..i];
    Swap(ev, BesideAll(gid, vf[..i]), BesideOne(gid, vf[i]));
  }

  method BumpOthers(t0: Tally, gid: string, vf: seq<string>, ghost ev: multiset<Event>) returns (t: Tally)
    requires Counts(t0, ev)
    ensures Counts(t, ev + BesideAll(gid, vf)) && t.evaluatedN == t0.evaluatedN && t.admittedN == t0.admittedN
  {
    t := t0;
    ghost var seen := ev;
    for i := 0 to |vf|
      invariant Counts(t, seen) && seen == ev + BesideAll(gid, vf[..i])
      invariant t.evaluatedN == t0.evaluatedN && t.admittedN == t0.admittedN
    {
      BesideStep(gid, vf, i, ev);
      t := BumpOther(t, gid, vf[i], seen);
      seen := seen + BesideOne(gid, vf[i]);
    }
    assert vf[..|vf|] == vf;
  }

  lemma OneRan(t: Tally, ev: multiset<Event>, g: string)
    requires Counts(t, ev)
    ensures Counts(t.(evaluated := Plus(t.evaluated, g)), ev + multiset{Ran(g)})
  {
  }

  lemma OneFell(t: Tally, ev: multiset<Event>, g: string)
    requires Counts(t, ev)
    ensures Counts(t.(failed := Plus(t.failed, g)), ev + multiset{Fell(g)})
  {
  }

  lemma OneAlone(t: Tally, ev: multiset<Event>, g: string)
    requires Counts(t, ev)
    ensures Counts(t.(sole := Plus(t.sole, g)), ev + multiset{Alone(g)})
  {
  }

  lemma OneRanIn(t: Tally, ev: multiset<Event>, g: string, w: string)
    requires Counts(t, ev)
    ensures var wk := GetWeek(t.weekly, (g, w));
            Counts(t.(weekly := t.weekly[(g, w) := wk.(evaluated := wk.evaluated + 1)]), ev + multiset{RanIn(g, w)})
  {
  }

  lemma OneFellIn(t: Tally, ev: multiset<Event>, g: string, w: string)
    requires Counts(t, ev)
    ensures var wk := GetWeek(t.weekly, (g, w));
            Counts(t.(weekly := t.weekly[(g, w) := wk.(failed := wk.failed + 1)]), ev + multiset{FellIn(g, w)})
  {
  }

  lemma OneAloneIn(t: Tally, ev: multiset<Event>, g: string, w: string)
    requires Counts(t, ev)
    ensures var wk := GetWeek(t.weekly, (g, w));
            Counts(t.(weekly := t.weekly[(g, w) := wk.(sole := wk.sole + 1)]), ev + multiset{AloneIn(g, w)})
  {
  }

  method BumpRan(t0: Tally, gid: string, week: string, ghost ev: multiset<Event>) returns (t: Tally)
    requires Counts(t0, ev)
    ensures Counts(t, ev + RanEvents(gid, week)) && t.evaluatedN == t0.evaluatedN && t.admittedN == t0.admittedN
  {
    ghost var one := ev + multiset{Ran(gid)};
    t := t0.(evaluated := Plus(t0.evaluated, gid));
    OneRan(t0, ev, gid);
    var wk := GetWeek(t.weekly, (gid, week));
    OneRanIn(t, one, gid, week);
    t := t.(weekly := t.weekly[(gid, week) := wk.(evaluated := wk.evaluated + 1)]);
    assert one + multiset{RanIn(gid, week)} == ev + RanEvents(gid, week);
  }

  method BumpFell(t0: Tally, gid: string, week: string, ghost ev: multiset<Event>) returns (t: Tally)
    requires Counts(t0, ev)
    ensures Counts(t, ev + FellEvents(gid, week)) && t.evaluatedN == t0.evaluatedN && t.admittedN == t0.admittedN
  {
    ghost var one := ev + multiset{Fell(gid)};
    t := t0.(failed := Plus(t0.failed, gid));
    OneFell(t0, ev, gid);
    var wk := GetWeek(t.weekly, (gid, week));
    OneFellIn(t, one, gid, week);
    t := t.(weekly := t.weekly[(gid, week) := wk.(failed := wk.failed + 1)]);
    assert one + multiset{FellIn(gid, week)} == ev + FellEvents(gid, week);
  }

  method BumpAlone(t0: Tally, gid: string, week: string, ghost ev: multiset<Event>) returns (t: Tally)
    requires Counts(t0, ev)
    ensures Counts(t, ev + AloneEvents(gid, week)) && t.evaluatedN == t0.evaluatedN && t.admittedN == t0.admittedN
  {
    ghost var one := ev + multiset{Alone(gid)};
    t := t0.(sole := Plus(t0.sole, gid));
    OneAlone(t0, ev, gid);
    var wk := GetWeek(t.weekly, (gid, week));
    OneAloneIn(t, one, gid, week);
    t := t.(weekly := t.weekly[(gid, week) := wk.(sole := wk.sole + 1)]);
    assert one + multiset{AloneIn(gid, week)} == ev + AloneEvents(gid, week);
  }

  method AddVeto(t0: Tally, week: string, r: GateResult, vf: seq<string>, unknown: bool, ghost ev: multiset<Event>)
    returns (t: Tally)
    requires Counts(t0, ev)
    ensures Counts(t, ev + VetoEvents(r, week, vf, unknown))
    ensures t.evaluatedN == t0.evaluatedN && t.admittedN == t0.admittedN
  {
    t := t0;
    if FailedVeto(r) {
      ghost var seen := ev;
      if !unknown && vf == [r.gateId] {
        t := BumpAlone(t, r.gateId, week, seen);
        seen := seen + AloneEvents(r.gateId, week);
        Swap(ev, AloneEvents(r.gateId, week), BesideAll(r.gateId, vf));
      } else {
        Swap(ev, multiset{}, BesideAll(r.gateId, vf));
      }
      t := BumpOthers(t, r.gateId, vf, seen);
    }
  }

  method AddResult(t0: Tally, week: string, r: GateResult, vf: seq<string>, unknown: bool, ghost ev: multiset<Event>)
    returns (t: Tally)
    requires Counts(t0, ev)
    ensures Counts(t, ev + ResultEvents(r, week, vf, unknown))
    ensures t.evaluatedN == t0.evaluatedN && t.admittedN == t0.admittedN
  {
    t := t0;
    if r.gateId != "" && r.passed.Some? {
      t := BumpRan(t, r.gateId, week, ev);
      ghost var seen := ev + RanEvents(r.gateId, week);
      ghost var fell := if r.passed == Some(false) then FellEvents(r.gateId, week) else multiset{};
      if r.passed == Some(false) {
        t := BumpFell(t, r.gateId, week, seen);
      }
      assert Counts(t, seen + fell);
      t := AddVeto(t, week, r, vf, unknown, seen + fell);
      Swap(ev, RanEvents(r.gateId, week), fell);
      Swap(ev, RanEvents(r.gateId, week) + fell, VetoEvents(r, week, vf, unknown));
    }
  }

  method AddResults(t0: Tally, week: string, rs: seq<GateResult>, ghost ev: multiset<Event>) returns (t: Tally)
    requires Counts(t0, ev)
    ensures Counts(t, ev + ResultsEvents(rs, week, VetoFailed(rs), UnknownVeto(rs)))
    ensures t.evaluatedN == t0.evaluatedN && t.admittedN == t0.admittedN
  {
    t := t0;
    var vf, unknown := VetoFailed(rs), UnknownVeto(rs);
    ghost var seen := ev;
    for j := 0 to |rs|
      invariant Counts(t, seen) && seen == ev + ResultsEvents(rs[..j], week, vf, unknown)
      invariant t.evaluatedN == t0.evaluatedN && t.admittedN == t0.admittedN
    {
      t := AddResult(t, week, rs[j], vf, unknown, seen);
      ResultsStep(rs, j, week, vf, unknown, ev);
      seen := seen + ResultEvents(rs[j], week, vf, unknown);
    }
    assert rs[..|rs|] == rs;
  }

  lemma ResultsStep(rs: seq<GateResult>, j: nat, week: string, vf: seq<string>, unknown: bool, ev: multiset<Event>)
    requires j < |rs|
    ensures ev + ResultsEvents(rs[..j + 1], week, vf, unknown)
            == ev + ResultsEvents(rs[..j], week, vf, unknown) + ResultEvents(rs[j], week, vf, unknown)
  {
    assert rs[..j + 1][..j] == rs[..j];
    Swap(ev, ResultsEvents(rs[..j], week, vf, unknown), ResultEvents(rs[j], week, vf, unknown));
  }

  method AddCandidate(t0: Tally, e: Entry, ghost ev: multiset<Event>) returns (t: Tally)
    requires Counts(t0, ev)
    ensures Counts(t, ev + EntryEvents(e))
    ensures t.evaluatedN == t0.evaluatedN + 1
    ensures t.admittedN == t0.admittedN + (if e.candidate.admitted then 1 else 0)
  {
    t := t0.(evaluatedN := t0.evaluatedN + 1);
    if e.candidate.admitted {
      t := t.(admittedN := t.admittedN + 1);
    }
    t := AddResults(t, e.week, e.candidate.results, ev);
  }

  predicate InUniverse(universe: Option<set<string>>, symbol: string) {
    universe.Some? ==> symbol in universe.value
  }

  function Counted(week: string, c: Candidate, universe: Option<set<string>>): seq<Entry> {
    if InUniverse(universe, c.symbol) then [Entry(week, c)] else []
  }

  function RunEntries(week: string, cs: seq<Candidate>, universe: Option<set<string>>): seq<Entry> {
    if cs == [] then []
    else
      var c := cs[|cs| - 1];
      RunEntries(week, cs[..|cs| - 1], universe) + Counted(week, c, universe)
  }

  /** The candidates the pass counts, in stream order. */
  function Entries(runs: seq<DayRun>, universe: Option<set<string>>): seq<Entry> {
    if runs == [] then []
    else
      var r := runs[|runs| - 1];
      Entries(runs[..|runs| - 1], universe) + RunEntries(r.week, Decode(r.run), universe)
  }

  function AdmittedCount(es: seq<Entry>): nat {
    if es == [] then 0 else AdmittedCount(es[..|es| - 1]) + (if es[|es| - 1].candidate.admitted then 1 else 0)
  }

  ghost predicate Covers(t: Tally, es: seq<Entry>) {
    Counts(t, AllEvents(es)) && t.evaluatedN == |es| && t.admittedN == AdmittedCount(es)
  }

  lemma AllEventsSnoc(es: seq<Entry>, e: Entry)
    ensures AllEvents(es + [e]) == AllEvents(es) + EntryEvents(e)
    ensures AdmittedCount(es + [e]) == AdmittedCount(es) + (if e.candidate.admitted then 1 else 0)
  {
    assert (es + [e])[..|es|] == es;
  }

  lemma RunEntriesStep(week: string, cs: seq<Candidate>, j: nat, universe: Option<set<string>>, es: seq<Entry>)
    requires j < |cs|
    ensures es + RunEntries(week, cs[..j + 1], universe)
            == es + RunEntries(week, cs[..j], universe)
                + Counted(week, cs[j], universe)
  {
    assert cs[..j + 1][..j] == cs[..j];
  }

  method AddRun(t0: Tally, r: DayRun, universe: Option<set<string>>, ghost es0: seq<Entry>) returns (t: Tally)
    requires Covers(t0, es0)
    ensures Covers(t, es0 + RunEntries(r.week, Decode(r.run), universe))
  {
    var cs := DecodedCandidates(r.run);
    t := t0;
    ghost var es := es0;
    for j := 0 to |cs|
      invariant Covers(t, es) && es == es0 + RunEntries(r.week, cs[..j], universe)
    {
      RunEntriesStep(r.week, cs, j, universe, es0);
      if InUniverse(universe, cs[j].symbol) {
        var e := Entry(r.week, cs[j]);
        t := AddCandidate(t, e, AllEvents(es));
        AllEventsSnoc(es, e);
        es := es + [e];
      }
    }
    assert cs[..|cs|] == cs;
  }

  lemma EntriesStep(runs: seq<DayRun>, i: nat, universe: Option<set<string>>)
    requires i < |runs|
    ensures Entries(runs[..i + 1], universe)
            == Entries(runs[..i], universe) + RunEntries(runs[i].week, Decode(runs[i].run), universe)
  {
    assert runs[..i + 1][..i] == runs[..i];
  }

  method Aggregate(runs: seq<DayRun>, universe: Option<set<string>>) returns (t: Tally)
    ensures Covers(t, Entries(runs, universe))
  {
    t := Tally(0, 0, map[], map[], map[], map[], map[]);
    ghost var es := [];
    for i := 0 to |runs|
      invariant Covers(t, es) && es == Entries(runs[..i], universe)
    {
      t := AddRun(t, runs[i], universe, es);
      EntriesStep(runs, i, universe);
      es := es + RunEntries(runs[i].week, Decode(runs[i].run), universe);
    }
    assert runs[..|runs|] == runs;
  }
}
