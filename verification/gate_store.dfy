/** backend/gate_telemetry.py: record_scan, one file a day, and aggregate over a range of
    it. What is reported is the last writing of each scan, whatever was packed, retried or
    pruned on the way. Days are day numbers. */
module GateStore {
  import opened Bags
  import opened Common
  import opened DayStore
  import opened GateAggregate
  import opened GateCodec
  import opened GateMeaning
  import opened GateRoundTrip
  import opened GateStored

  /** One run of a day's file: the scan that wrote it, and the ruleset it was under, which
      some old runs do not name. R is the form the candidates are in. */
  datatype Filed<R> = Filed(scanId: string, ruleset: Option<string>, run: R)

  type Files<R> = map<int, seq<Filed<R>>>

  function RunsOf<R>(files: Files<R>, day: int): seq<Filed<R>> {
    if day in files then files[day] else []
  }

  /** Where this scan is filed already. */
  function Place<R>(runs: seq<Filed<R>>, scanId: string): (i: Option<nat>)
    ensures i.Some? ==> i.value < |runs| && runs[i.value].scanId == scanId
    ensures i.None? ==> forall k :: 0 <= k < |runs| ==> runs[k].scanId != scanId
  {
    if runs == [] then None
    else if runs[0].scanId == scanId then Some(0)
    else
      var later := Place(runs[1..], scanId);
      if later.Some? then Some(later.value + 1) else None
  }

  function Refiled<R>(runs: seq<Filed<R>>, r: Filed<R>): seq<Filed<R>> {
    var i := Place(runs, r.scanId);
    if i.Some? then runs[i.value := r] else runs + [r]
  }

  function Written<R>(files: Files<R>, day: int, r: Filed<R>): Files<R> {
    files[day := Refiled(RunsOf(files, day), r)]
  }

  // ---- The store ---------------------------------------------------------------

  /** A row of the sweep: its symbol and what build_results gave. */
  datatype Scored = Scored(symbol: string, results: seq<GateResult>)

  /** Rows without a symbol or results are not recorded; the flag is computed. */
  function Candidates(rows: seq<Scored>): (cs: seq<Candidate>)
    ensures forall i :: 0 <= i < |cs| ==> cs[i].admitted == Admitted(cs[i].results) && cs[i].results != []
  {
    if rows == [] then []
    else
      var last := rows[|rows| - 1];
      Candidates(rows[..|rows| - 1])
      + (if last.symbol != "" && last.results != [] then
           [Candidate(last.symbol, Admitted(last.results), last.results)]
         else [])
  }

  function Recordable(): Scored -> bool {
    (row: Scored) => row.symbol != "" && row.results != []
  }

  /** One candidate for each row with a symbol and results, and for no other, in the order of
      the rows: at[i] is the row that candidate i comes from. */
  lemma {:induction false} CandidatesAreRows(rows: seq<Scored>) returns (at: seq<int>)
    ensures Picks(at, rows, Recordable()) && |Candidates(rows)| == |at|
    ensures forall i :: 0 <= i < |at| ==> Candidates(rows)[i].symbol == rows[at[i]].symbol
                                          && Candidates(rows)[i].results == rows[at[i]].results
  {
    at := [];
    if rows != [] {
      var front, last := rows[..|rows| - 1], rows[|rows| - 1];
      var before := CandidatesAreRows(front);
      FrontLast(rows);
      PicksSnoc(before, front, last, Recordable());
      at := before + (if Recordable()(last) then [|front|] else []);
    }
  }

  class Telemetry {
    const keep: Limit
    var files: Files<Run>

    constructor (keep: Limit)
      ensures this.keep == keep && files == map[]
    {
      this.keep := keep;
      files := map[];
    }

    method RecordScan(day: int, scanId: string, ruleset: string, rows: seq<Scored>)
      modifies this`files
      ensures files == Pruned(Written(old(files), day, Filed(scanId, Some(ruleset), Encode(Candidates(rows)))), keep)
    {
      var perCandidate: seq<Candidate> := [];
      for i := 0 to |rows|
        invariant perCandidate == Candidates(rows[..i]) && files == old(files)
      {
        TakeSnoc(rows, i + 1);
        if rows[i].symbol != "" && rows[i].results != [] {
          perCandidate := perCandidate + [Candidate(rows[i].symbol, Admitted(rows[i].results), rows[i].results)];
        }
      }
      TakeAll(rows);
      var gates, packed := EncodeRun(perCandidate);
      var run := Filed(scanId, Some(ruleset), Packed(gates, packed));
      var runs := RunsOf(files, day);
      var same := Place(runs, scanId);
      runs := if same.Some? then runs[same.value := run] else runs + [run];
      files := files[day := runs];
      var removed;
      files, removed := Prune(files, keep);
    }
  }

  // ---- Any number of recordings ------------------------------------------------

  datatype Write<R> = Write(day: int, filed: Filed<R>)

  /** The files after these recordings, from an empty store. */
  function After<R>(ws: seq<Write<R>>, keep: Limit): Files<R> {
    if ws == [] then map[]
    else
      var w := ws[|ws| - 1];
      Pruned(Written(After(ws[..|ws| - 1], keep), w.day, w.filed), keep)
  }

  /** The same when nothing is ever pruned. */
  function Everything<R>(ws: seq<Write<R>>): Files<R> {
    if ws == [] then map[] else Written(Everything(ws[..|ws| - 1]), ws[|ws| - 1].day, ws[|ws| - 1].filed)
  }

  lemma WrittenAfterPruning<R>(files: Files<R>, keep: Limit, day: int, r: Filed<R>)
    ensures Pruned(Written(Pruned(files, keep), day, r), keep) == Pruned(Written(files, day, r), keep)
  {
    var v, w := Refiled(RunsOf(Pruned(files, keep), day), r), Refiled(RunsOf(files, day), r);
    PruneTwice(files, keep, day, v);
    if day in files && day !in Pruned(files, keep) { DroppedStaysOut(files, keep, day, v, w); }
  }

  /** Pruning after every recording keeps what pruning once at the end would. */
  lemma {:induction false} PrunedAsOne<R>(ws: seq<Write<R>>, keep: Limit)
    ensures After(ws, keep) == Pruned(Everything(ws), keep)
  {
    if ws != [] {
      var front, w := ws[..|ws| - 1], ws[|ws| - 1];
      PrunedAsOne(front, keep);
      WrittenAfterPruning(Everything(front), keep, w.day, w.filed);
    }
  }

  /** The last recording of its scan on its day. */
  predicate IsLast<R>(ws: seq<Write<R>>, k: nat) {
    k < |ws| && forall j :: k < j < |ws| ==> !(ws[j].day == ws[k].day && ws[j].filed.scanId == ws[k].filed.scanId)
  }

  ghost predicate LastWriting<R(!new)>(ws: seq<Write<R>>, d: int, r: Filed<R>) {
    exists k: nat :: IsLast(ws, k) && ws[k] == Write(d, r)
  }

  lemma LastSnoc<R(!new)>(ws: seq<Write<R>>, w: Write<R>, d: int, r: Filed<R>)
    ensures LastWriting(ws + [w], d, r)
            <==> w == Write(d, r) || (LastWriting(ws, d, r) && !(w.day == d && w.filed.scanId == r.scanId))
  {
    var all := ws + [w];
    if LastWriting(all, d, r) {
      var k: nat :| IsLast(all, k) && all[k] == Write(d, r);
      if k < |ws| {
        assert all[|ws|] == w;
        assert IsLast(ws, k) && ws[k] == Write(d, r) by {
          forall j | k < j < |ws| ensures !(ws[j].day == ws[k].day && ws[j].filed.scanId == ws[k].filed.scanId) {
            assert all[j] == ws[j];
          }
        }
      }
    }
    if w == Write(d, r) { assert IsLast(all, |ws|) && all[|ws|] == w; }
    if LastWriting(ws, d, r) && !(w.day == d && w.filed.scanId == r.scanId) {
      var k: nat :| IsLast(ws, k) && ws[k] == Write(d, r);
      forall j | k < j < |all| ensures !(all[j].day == all[k].day && all[j].filed.scanId == all[k].filed.scanId) {
        if j < |ws| { assert all[j] == ws[j]; }
      }
      assert IsLast(all, k) && all[k] == Write(d, r);
    }
  }

  ghost predicate OnePerScan<R>(runs: seq<Filed<R>>) {
    forall i, j :: 0 <= i < j < |runs| ==> runs[i].scanId != runs[j].scanId
  }

  lemma RefiledHas<R(!new)>(runs: seq<Filed<R>>, r: Filed<R>)
    requires OnePerScan(runs)
    ensures OnePerScan(Refiled(runs, r))
    ensures forall x :: x in Refiled(runs, r) <==> x == r || (x in runs && x.scanId != r.scanId)
  {
    var out, at := Refiled(runs, r), Place(runs, r.scanId);
    forall x | x == r || (x in runs && x.scanId != r.scanId) ensures x in out {
      if x == r {
        assert out[if at.Some? then at.value else |runs|] == r;
      } else {
        var i :| 0 <= i < |runs| && runs[i] == x;
        assert out[i] == x;
      }
    }
    forall x | x in out ensures x == r || (x in runs && x.scanId != r.scanId) {
      var i :| 0 <= i < |out| && out[i] == x;
      if at.Some? && i != at.value { assert runs[i] == x; }
    }
  }

  /** A scan recorded again keeps its place in the day's file; a new one comes last. */
  lemma RefiledInPlace<R(!new)>(runs: seq<Filed<R>>, r: Filed<R>, i: nat)
    requires OnePerScan(runs)
    ensures i < |runs| && runs[i].scanId == r.scanId ==> Refiled(runs, r) == runs[..i] + [r] + runs[i + 1..]
    ensures (forall k :: 0 <= k < |runs| ==> runs[k].scanId != r.scanId) ==> Refiled(runs, r) == runs + [r]
  {
  }

  /** A day's file has one run for each scan recorded that day: the last one recorded. */
  lemma {:induction false} FileHasLastWritings<R(!new)>(ws: seq<Write<R>>, d: int)
    ensures OnePerScan(RunsOf(Everything(ws), d))
    ensures forall r :: r in RunsOf(Everything(ws), d) <==> LastWriting(ws, d, r)
  {
    if ws != [] {
      var front, w := ws[..|ws| - 1], ws[|ws| - 1];
      FrontLast(ws);
      FileHasLastWritings(front, d);
      RefiledHas(RunsOf(Everything(front), d), w.filed);
      assert RunsOf(Everything(ws), d)
             == if d == w.day then Refiled(RunsOf(Everything(front), d), w.filed) else RunsOf(Everything(front), d);
      forall r ensures r in RunsOf(Everything(ws), d) <==> LastWriting(ws, d, r) {
        LastSnoc(front, w, d, r);
      }
    }
  }

  /** On every day still stored, each scan is there once, as it was last recorded, and
      nothing else is; a retried scan is not counted twice. */
  lemma OncePerScan<R(!new)>(ws: seq<Write<R>>, keep: Limit, d: int)
    requires d in After(ws, keep)
    ensures OnePerScan(After(ws, keep)[d])
    ensures forall r :: r in After(ws, keep)[d] <==> LastWriting(ws, d, r)
  {
    PrunedAsOne(ws, keep);
    FileHasLastWritings(ws, d);
  }

  // ---- The range ---------------------------------------------------------------

  /** What is asked for; no ruleset is no filter, and so is an empty one. */
  datatype Query = Query(from: Option<int>, to: Option<int>, ruleset: Option<string>)

  /** With neither end given, the last `lookback` days. */
  function Defaulted(q: Query, today: int, lookback: int): Query {
    if q.from.None? && q.to.None? then q.(from := Some(today - (lookback - 1)), to := Some(today)) else q
  }

  predicate InRange(q: Query, day: int) {
    !(q.from.Some? && day < q.from.value) && !(q.to.Some? && day > q.to.value)
  }

  predicate Wanted<R>(q: Query, r: Filed<R>) {
    !Truthy(q.ruleset) || r.ruleset == q.ruleset
  }

  /** A day's runs under the ruleset, in the order of its file. */
  function OfDay<R>(q: Query, day: int, runs: seq<Filed<R>>): seq<Write<R>> {
    if runs == [] then []
    else
      var last := runs[|runs| - 1];
      OfDay(q, day, runs[..|runs| - 1]) + (if Wanted(q, last) then [Write(day, last)] else [])
  }

  function DayPart<R>(files: Files<R>, day: int, q: Query): seq<Write<R>> {
    if InRange(q, day) then OfDay(q, day, RunsOf(files, day)) else []
  }

  /** The runs of the range, day by day. */
  function Stream<R>(files: Files<R>, order: seq<int>, q: Query): seq<Write<R>> {
    if order == [] then []
    else
      var last := order[|order| - 1];
      Stream(files, order[..|order| - 1], q) + DayPart(files, last, q)
  }

  function DayRuns(ws: seq<Write<Run>>, weekOf: int -> string): (runs: seq<DayRun>)
    ensures |runs| == |ws|
  {
    seq(|ws|, i requires 0 <= i < |ws| => DayRun(weekOf(ws[i].day), ws[i].filed.run))
  }

  // ---- The rollup --------------------------------------------------------------

  /** The ruleset a run counts under. */
  function RulesetOf<R>(w: Write<R>): string {
    if Truthy(w.filed.ruleset) then w.filed.ruleset.value else "unknown"
  }

  function SizeOf(run: Run): nat {
    match run
    case Inline(cs) => |cs|
    case Packed(_, rows) => |rows|
  }

  function Noted(present: map<string, nat>, w: Write<Run>): map<string, nat> {
    present[RulesetOf(w) := Get(present, RulesetOf(w)) + SizeOf(w.filed.run)]
  }

  /** How many candidates were recorded under each ruleset. */
  function Present(ws: seq<Write<Run>>): map<string, nat> {
    if ws == [] then map[] else Noted(Present(ws[..|ws| - 1]), ws[|ws| - 1])
  }

  ghost predicate Mixes<R>(ws: seq<Write<R>>) {
    exists i, j :: 0 <= i < j < |ws| && RulesetOf(ws[i]) != RulesetOf(ws[j])
  }

  /** Without a ruleset named, a range under several gives the counts and no table. */
  datatype Rollup = Refused(present: map<string, nat>) | Table(present: map<string, nat>, tally: Tally)

  lemma {:induction false} PresentHas(ws: seq<Write<Run>>, l: string)
    ensures l in Present(ws) <==> exists i :: 0 <= i < |ws| && RulesetOf(ws[i]) == l
  {
    if ws != [] {
      var front := ws[..|ws| - 1];
      PresentHas(front, l);
      assert forall i :: 0 <= i < |front| ==> front[i] == ws[i];
    }
  }

  /** More than one ruleset was noted exactly when two runs differ in theirs. */
  lemma MixesIsSeveral(ws: seq<Write<Run>>)
    ensures Mixes(ws) <==> |Present(ws)| > 1
  {
    var labels := Present(ws).Keys;
    if Mixes(ws) {
      var i, j :| 0 <= i < j < |ws| && RulesetOf(ws[i]) != RulesetOf(ws[j]);
      PresentHas(ws, RulesetOf(ws[i]));
      PresentHas(ws, RulesetOf(ws[j]));
      AtLeastTwo(labels, RulesetOf(ws[i]), RulesetOf(ws[j]));
    }
    if |Present(ws)| > 1 {
      var a, b := TwoOf(labels);
      PresentHas(ws, a);
      PresentHas(ws, b);
      var i :| 0 <= i < |ws| && RulesetOf(ws[i]) == a;
      var j :| 0 <= j < |ws| && RulesetOf(ws[j]) == b;
      assert i != j && RulesetOf(ws[if i < j then i else j]) != RulesetOf(ws[if i < j then j else i]);
    }
  }

  lemma OfDayStep<R>(q: Query, day: int, runs: seq<Filed<R>>, j: nat, before: seq<Write<R>>)
    requires j < |runs|
    ensures before + OfDay(q, day, runs[..j + 1])
            == if Wanted(q, runs[j]) then before + OfDay(q, day, runs[..j]) + [Write(day, runs[j])]
               else before + OfDay(q, day, runs[..j])
  {
    assert runs[..j + 1][..j] == runs[..j];
    assert OfDay(q, day, runs[..j]) + [] == OfDay(q, day, runs[..j]);
  }

  lemma StreamStep<R>(files: Files<R>, order: seq<int>, q: Query, i: nat)
    requires i < |order|
    ensures Stream(files, order[..i + 1], q)
            == Stream(files, order[..i], q) + DayPart(files, order[i], q)
  {
    assert order[..i + 1][..i] == order[..i];
  }

  /** What the pass holds after these runs. */
  ghost predicate Sums(
      present: map<string, nat>, t: Tally, ws: seq<Write<Run>>, weekOf: int -> string, universe: Option<set<string>>)
  {
    present == Present(ws) && Covers(t, Entries(DayRuns(ws, weekOf), universe))
  }

  lemma EntriesSnoc(ws: seq<Write<Run>>, w: Write<Run>, weekOf: int -> string, universe: Option<set<string>>)
    ensures Present(ws + [w]) == Noted(Present(ws), w)
    ensures Entries(DayRuns(ws + [w], weekOf), universe)
            == Entries(DayRuns(ws, weekOf), universe) + RunEntries(weekOf(w.day), Decode(w.filed.run), universe)
  {
    var all := DayRuns(ws + [w], weekOf);
    assert (ws + [w])[..|ws|] == ws && all[..|ws|] == DayRuns(ws, weekOf);
  }

  lemma SumsSnoc(present: map<string, nat>, t: Tally, ws: seq<Write<Run>>, w: Write<Run>, weekOf: int -> string,
                 universe: Option<set<string>>)
    requires present == Present(ws)
    requires Covers(t, Entries(DayRuns(ws, weekOf), universe)
                       + RunEntries(weekOf(w.day), Decode(w.filed.run), universe))
    ensures Sums(Noted(present, w), t, ws + [w], weekOf, universe)
  {
    EntriesSnoc(ws, w, weekOf, universe);
  }

  method AddFiled(day: int, run: Filed<Run>, universe: Option<set<string>>, weekOf: int -> string,
                  present0: map<string, nat>, t0: Tally, ghost ws: seq<Write<Run>>)
    returns (present: map<string, nat>, t: Tally)
    requires Sums(present0, t0, ws, weekOf, universe)
    ensures Sums(present, t, ws + [Write(day, run)], weekOf, universe)
  {
    t := AddRun(t0, DayRun(weekOf(day), run.run), universe, Entries(DayRuns(ws, weekOf), universe));
    present := Noted(present0, Write(day, run));
    SumsSnoc(present0, t, ws, Write(day, run), weekOf, universe);
  }

  /** One day of the range. */
  method AddDay(q: Query, day: int, runs: seq<Filed<Run>>, universe: Option<set<string>>, weekOf: int -> string,
                present0: map<string, nat>, t0: Tally, ghost before: seq<Write<Run>>)
    returns (present: map<string, nat>, t: Tally)
    requires Sums(present0, t0, before, weekOf, universe)
    ensures Sums(present, t, before + OfDay(q, day, runs), weekOf, universe)
  {
    present, t := present0, t0;
    ghost var ws := before;
    assert before + OfDay(q, day, []) == before;
    for j := 0 to |runs|
      invariant ws == before + OfDay(q, day, runs[..j]) && Sums(present, t, ws, weekOf, universe)
    {
      OfDayStep(q, day, runs, j, before);
      if Truthy(q.ruleset) && runs[j].ruleset != q.ruleset {
        continue;
      }
      present, t := AddFiled(day, runs[j], universe, weekOf, present, t, ws);
      ws := ws + [Write(day, runs[j])];
    }
    TakeAll(runs);
  }

  /** aggregate, up to the layout of its report. */
  method Report(files: Files<Run>, asked: Query, today: int, lookback: int, universe: Option<set<string>>,
                weekOf: int -> string) returns (r: Rollup, ghost order: seq<int>)
    ensures Ascending(order) && forall d :: d in order <==> d in files
    ensures var lastDays := asked.(from := Some(today - lookback + 1), to := Some(today));
            var runs := Stream(files, order, if asked.from.None? && asked.to.None? then lastDays else asked);
            && r.present == Present(runs)
            && (r.Refused? <==> asked.ruleset.None? && Mixes(runs))
            && (r.Table? ==> Covers(r.tally, Entries(DayRuns(runs, weekOf), universe)))
  {
    var q := Defaulted(asked, today, lookback);
    var days := StoredDays(files);
    order := days;
    var present: map<string, nat> := map[];
    var t := Tally(0, 0, map[], map[], map[], map[], map[]);
    ghost var ws: seq<Write<Run>> := [];
    for i := 0 to |days|
      invariant ws == Stream(files, days[..i], q) && Sums(present, t, ws, weekOf, universe)
    {
      StreamStep(files, days, q, i);
      if (q.from.Some? && days[i] < q.from.value) || (q.to.Some? && days[i] > q.to.value) {
        assert ws + [] == ws;
        continue;
      }
      present, t := AddDay(q, days[i], RunsOf(files, days[i]), universe, weekOf, present, t, ws);
      ws := ws + OfDay(q, days[i], RunsOf(files, days[i]));
    }
    TakeAll(days);
    MixesIsSeveral(ws);
    if asked.ruleset.None? && |present| > 1 {
      return Refused(present), order;
    }
    return Table(present, t), order;
  }

  // ---- Rulesets are not pooled -------------------------------------------------

  lemma {:induction false} StreamIsWanted<R>(files: Files<R>, order: seq<int>, q: Query)
    ensures forall i :: 0 <= i < |Stream(files, order, q)| ==> Wanted(q, Stream(files, order, q)[i].filed)
  {
    if order != [] {
      var last := order[|order| - 1];
      StreamIsWanted(files, order[..|order| - 1], q);
      OfDayIsWanted(q, last, RunsOf(files, last));
    }
  }

  lemma {:induction false} OfDayIsWanted<R>(q: Query, day: int, runs: seq<Filed<R>>)
    ensures forall i :: 0 <= i < |OfDay(q, day, runs)| ==> Wanted(q, OfDay(q, day, runs)[i].filed)
  {
    if runs != [] { OfDayIsWanted(q, day, runs[..|runs| - 1]); }
  }

  /** A table is never made of several rulesets, unless an empty one is asked for: that
      filters nothing and is not refused. */
  lemma PoolsExactly<R>(files: Files<R>, order: seq<int>, q: Query)
    ensures q.ruleset.Some? && Mixes(Stream(files, order, q))
            <==> q.ruleset == Some("") && Mixes(Stream(files, order, q.(ruleset := None)))
  {
    var runs := Stream(files, order, q);
    StreamIsWanted(files, order, q);
    if q.ruleset == Some("") { NoFilter(files, order, q); }
    if q.ruleset.Some? && Mixes(runs) {
      var i, j :| 0 <= i < j < |runs| && RulesetOf(runs[i]) != RulesetOf(runs[j]);
      assert Wanted(q, runs[i].filed) && Wanted(q, runs[j].filed);
    }
  }

  /** Two empty runs of one day, under different rulesets. */
  function TwoRulesets(): Files<Run> {
    map[0 := [Filed("a", Some("legacy"), Inline([])), Filed("b", Some("ranker"), Inline([]))]]
  }

  /** Such an ask and such a store. */
  lemma EmptyTextPools()
    ensures Mixes(Stream(TwoRulesets(), [0], Query(None, None, Some(""))))
  {
    var q, runs := Query(None, None, Some("")), TwoRulesets()[0];
    assert runs[..1] == [runs[0]] && runs[..1][..0] == [] && [0][..0] == [];
    assert OfDay(q, 0, [runs[0]]) == OfDay(q, 0, []) + [Write(0, runs[0])];
    assert OfDay(q, 0, runs) == [Write(0, runs[0]), Write(0, runs[1])];
    var stream := Stream(TwoRulesets(), [0], q);
    assert stream == [Write(0, runs[0]), Write(0, runs[1])];
    assert RulesetOf(stream[0]) == "legacy" && RulesetOf(stream[1]) == "ranker";
    assert RulesetOf(stream[0])[0] != RulesetOf(stream[1])[0];
  }

  lemma {:induction false} NoFilter<R>(files: Files<R>, order: seq<int>, q: Query)
    requires q.ruleset == Some("")
    ensures Stream(files, order, q) == Stream(files, order, q.(ruleset := None))
  {
    if order != [] {
      var last := order[|order| - 1];
      NoFilter(files, order[..|order| - 1], q);
      NoFilterOfDay(q, last, RunsOf(files, last));
    }
  }

  lemma {:induction false} NoFilterOfDay<R>(q: Query, day: int, runs: seq<Filed<R>>)
    requires q.ruleset == Some("")
    ensures OfDay(q, day, runs) == OfDay(q.(ruleset := None), day, runs)
  {
    if runs != [] { NoFilterOfDay(q, day, runs[..|runs| - 1]); }
  }

  // ---- From recording to report ------------------------------------------------

  function EncodedRun(r: Filed<seq<Candidate>>): Filed<Run> {
    Filed(r.scanId, r.ruleset, Encode(r.run))
  }

  function EncodedRuns(rs: seq<Filed<seq<Candidate>>>): (out: seq<Filed<Run>>)
    ensures |out| == |rs|
  {
    seq(|rs|, i requires 0 <= i < |rs| => EncodedRun(rs[i]))
  }

  /** The same writings, packed as record_scan packs them. */
  function EncodedWrites(ws: seq<Write<seq<Candidate>>>): (out: seq<Write<Run>>)
    ensures |out| == |ws|
  {
    seq(|ws|, i requires 0 <= i < |ws| => Write(ws[i].day, EncodedRun(ws[i].filed)))
  }

  ghost predicate Packs(packed: Files<Run>, files: Files<seq<Candidate>>) {
    packed.Keys == files.Keys && forall d :: RunsOf(packed, d) == EncodedRuns(RunsOf(files, d))
  }

  lemma {:induction false} SamePlace(rs: seq<Filed<seq<Candidate>>>, scanId: string)
    ensures Place(EncodedRuns(rs), scanId) == Place(rs, scanId)
  {
    if rs != [] {
      SamePlace(rs[1..], scanId);
      assert EncodedRuns(rs)[1..] == EncodedRuns(rs[1..]);
    }
  }

  lemma RefiledPacks(rs: seq<Filed<seq<Candidate>>>, r: Filed<seq<Candidate>>)
    ensures Refiled(EncodedRuns(rs), EncodedRun(r)) == EncodedRuns(Refiled(rs, r))
  {
    SamePlace(rs, r.scanId);
  }

  lemma WrittenPacks(packed: Files<Run>, files: Files<seq<Candidate>>, day: int, r: Filed<seq<Candidate>>)
    requires Packs(packed, files)
    ensures Packs(Written(packed, day, EncodedRun(r)), Written(files, day, r))
  {
    var packed', files' := Written(packed, day, EncodedRun(r)), Written(files, day, r);
    forall d ensures RunsOf(packed', d) == EncodedRuns(RunsOf(files', d)) {
      assert RunsOf(packed, d) == EncodedRuns(RunsOf(files, d));
      if d == day { RefiledPacks(RunsOf(files, d), r); }
    }
  }

  lemma {:induction false} EverythingPacks(ws: seq<Write<seq<Candidate>>>)
    ensures Packs(Everything(EncodedWrites(ws)), Everything(ws))
  {
    if ws != [] {
      var front, w := ws[..|ws| - 1], ws[|ws| - 1];
      EverythingPacks(front);
      assert EncodedWrites(ws)[..|ws| - 1] == EncodedWrites(front);
      WrittenPacks(Everything(EncodedWrites(front)), Everything(front), w.day, w.filed);
    }
  }

  lemma PrunedPacks(packed: Files<Run>, files: Files<seq<Candidate>>, keep: Limit)
    requires Packs(packed, files)
    ensures Packs(Pruned(packed, keep), Pruned(files, keep))
  {
    forall d ensures Later(packed, d) == Later(files, d) {}
    forall d ensures RunsOf(Pruned(packed, keep), d) == EncodedRuns(RunsOf(Pruned(files, keep), d)) {
      assert RunsOf(packed, d) == EncodedRuns(RunsOf(files, d));
    }
  }

  lemma {:induction false} OfDayPacks(q: Query, day: int, rs: seq<Filed<seq<Candidate>>>)
    ensures OfDay(q, day, EncodedRuns(rs)) == EncodedWrites(OfDay(q, day, rs))
  {
    if rs != [] {
      OfDayPacks(q, day, rs[..|rs| - 1]);
      assert EncodedRuns(rs)[..|rs| - 1] == EncodedRuns(rs[..|rs| - 1]);
    }
  }

  lemma {:induction false} StreamPacks(packed: Files<Run>, files: Files<seq<Candidate>>, order: seq<int>, q: Query)
    requires Packs(packed, files)
    ensures Stream(packed, order, q) == EncodedWrites(Stream(files, order, q))
  {
    if order != [] {
      var front, last := order[..|order| - 1], order[|order| - 1];
      StreamPacks(packed, files, front, q);
      DayPacks(packed, files, last, q);
      EncodedJoin(Stream(files, front, q), DayPart(files, last, q));
    }
  }

  lemma DayPacks(packed: Files<Run>, files: Files<seq<Candidate>>, day: int, q: Query)
    requires Packs(packed, files)
    ensures DayPart(packed, day, q) == EncodedWrites(DayPart(files, day, q))
  {
    assert RunsOf(packed, day) == EncodedRuns(RunsOf(files, day));
    OfDayPacks(q, day, RunsOf(files, day));
  }

  lemma EncodedJoin(a: seq<Write<seq<Candidate>>>, b: seq<Write<seq<Candidate>>>)
    ensures EncodedWrites(a + b) == EncodedWrites(a) + EncodedWrites(b)
  {
  }

  /** The scans of the range, as they were handed to record_scan. */
  function ScansOf(ws: seq<Write<seq<Candidate>>>, weekOf: int -> string): (scans: seq<Scan>)
    ensures |scans| == |ws|
  {
    seq(|ws|, i requires 0 <= i < |ws| => Scan(weekOf(ws[i].day), ws[i].filed.run))
  }

  lemma {:induction false} StreamHas<R>(files: Files<R>, order: seq<int>, q: Query, w: Write<R>)
    requires w in Stream(files, order, q)
    ensures w.filed in RunsOf(files, w.day)
  {
    var front, last := order[..|order| - 1], order[|order| - 1];
    if w in Stream(files, front, q) {
      StreamHas(files, front, q, w);
    } else {
      OfDayHas(q, last, RunsOf(files, last), w);
    }
  }

  lemma {:induction false} OfDayHas<R>(q: Query, day: int, runs: seq<Filed<R>>, w: Write<R>)
    requires w in OfDay(q, day, runs)
    ensures w.day == day && w.filed in runs
  {
    var front := runs[..|runs| - 1];
    if w in OfDay(q, day, front) { OfDayHas(q, day, front, w); }
  }

  ghost predicate SoundWrites(ws: seq<Write<seq<Candidate>>>) {
    forall k :: 0 <= k < |ws| ==> Sound(ws[k].filed.run)
  }

  lemma StreamIsSound(ws: seq<Write<seq<Candidate>>>, keep: Limit, order: seq<int>, q: Query, weekOf: int -> string)
    requires SoundWrites(ws)
    ensures AllSound(ScansOf(Stream(After(ws, keep), order, q), weekOf))
  {
    var runs := Stream(After(ws, keep), order, q);
    forall i | 0 <= i < |runs| ensures Sound(runs[i].filed.run) {
      StreamHas(After(ws, keep), order, q, runs[i]);
      OncePerScan(ws, keep, runs[i].day);
      assert LastWriting(ws, runs[i].day, runs[i].filed);
    }
  }

  /** The runs of the range are the stored forms of the scans of the range. */
  lemma StreamIsEncoded(ws: seq<Write<seq<Candidate>>>, keep: Limit, order: seq<int>, q: Query)
    ensures Stream(After(EncodedWrites(ws), keep), order, q) == EncodedWrites(Stream(After(ws, keep), order, q))
  {
    PrunedAsOne(ws, keep);
    PrunedAsOne(EncodedWrites(ws), keep);
    EverythingPacks(ws);
    PrunedPacks(Everything(EncodedWrites(ws)), Everything(ws), keep);
    StreamPacks(After(EncodedWrites(ws), keep), After(ws, keep), order, q);
  }

  lemma StreamIsStored(ws: seq<Write<seq<Candidate>>>, keep: Limit, order: seq<int>, q: Query, weekOf: int -> string)
    ensures DayRuns(Stream(After(EncodedWrites(ws), keep), order, q), weekOf)
            == Stored(ScansOf(Stream(After(ws, keep), order, q), weekOf))
  {
    StreamIsEncoded(ws, keep, order, q);
  }

  /** The whole way. Whatever was recorded, retried, packed and pruned, a table over a range
      counts the candidates of the last writing of each scan of each stored day in it. */
  lemma TableCountsLastWritings(
      ws: seq<Write<seq<Candidate>>>, keep: Limit, order: seq<int>, q: Query, weekOf: int -> string,
      universe: Option<set<string>>, t: Tally, g: string, b: string, w: string)
    requires SoundWrites(ws)
    requires Covers(t, Entries(DayRuns(Stream(After(EncodedWrites(ws), keep), order, q), weekOf), universe))
    ensures var es := GateStored.Recorded(ScansOf(Stream(After(ws, keep), order, q), weekOf), universe);
            && t.evaluatedN == |es| && t.admittedN == HowMany(es, AdmittedOnes())
            && Get(t.evaluated, g) == HowMany(es, Verdict(g)) && Get(t.failed, g) == HowMany(es, Failing(g))
            && Get(t.sole, g) == HowMany(es, Solely(g)) && Get(t.coBlock, (g, b)) == HowMany(es, Jointly(g, b))
            && GetWeek(t.weekly, (g, w)) == WeekCounts(es, g, w)
  {
    var runs := Stream(After(ws, keep), order, q);
    StreamIsStored(ws, keep, order, q, weekOf);
    StreamIsSound(ws, keep, order, q, weekOf);
    StoredCountsAreRecorded(t, ScansOf(runs, weekOf), universe, g, b, w);
  }
}
