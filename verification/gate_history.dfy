/** What the calibration table counts, in terms of nothing but the rows that were handed to
    record_scan: the numbers of rows of which this or that is true. */
module GateHistory {
  import opened Bags
  import opened Common
  import opened DayStore
  import opened GateAggregate
  import opened GateCodec
  import opened GateMeaning
  import opened GateRoundTrip
  import opened GateStore
  import opened GateStored

  // ---- Which rows count --------------------------------------------------------

  /** What was handed to record_scan: a day, a scan's id and ruleset, and its rows. */
  type Scans = seq<Write<seq<Scored>>>

  predicate RowCounts(row: Scored, universe: Option<set<string>>) {
    row.symbol != "" && row.results != [] && (universe.None? || row.symbol in universe.value)
  }

  /** The days recorded after this one. */
  ghost function DaysAfter<R(!new)>(ws: seq<Write<R>>, day: int): set<int> {
    set i | 0 <= i < |ws| && ws[i].day > day :: ws[i].day
  }

  /** Recording k is the last of its scan and day, the day is among the newest that are kept,
      and it is in the range and under the ruleset asked for. */
  ghost predicate Selected<R(!new)>(ws: seq<Write<R>>, keep: Limit, q: Query, k: nat) {
    && k < |ws|
    && (forall i :: k < i < |ws| ==> ws[i].day != ws[k].day || ws[i].filed.scanId != ws[k].filed.scanId)
    && |DaysAfter(ws, ws[k].day)| < keep
    && (q.from.Some? ==> q.from.value <= ws[k].day) && (q.to.Some? ==> ws[k].day <= q.to.value)
    && (q.ruleset in {None, Some("")} || ws[k].filed.ruleset == q.ruleset)
  }

  /** A row as an entry of the week of its day. */
  function EntryOf(week: string, row: Scored): Entry {
    Entry(week, Candidate(row.symbol, Admitted(row.results), row.results))
  }

  function Counting(universe: Option<set<string>>, week: string, p: Entry -> bool): Scored -> bool {
    (row: Scored) => RowCounts(row, universe) && p(EntryOf(week, row))
  }

  /** The rows of a scan that count and of which p is true. */
  ghost function RowSet(rows: seq<Scored>, universe: Option<set<string>>, week: string, p: Entry -> bool): set<int> {
    Where(rows, Counting(universe, week, p))
  }

  /** All the rows that count and of which p is true: recording k, row j. */
  ghost function Rows(ws: Scans, keep: Limit, q: Query, universe: Option<set<string>>, weekOf: int -> string,
                      p: Entry -> bool): set<(int, int)> {
    set k, j | 0 <= k < |ws| && Selected(ws, keep, q, k)
               && j in RowSet(ws[k].filed.run, universe, weekOf(ws[k].day), p) :: (k, j)
  }

  // ---- One scan ----------------------------------------------------------------

  lemma {:induction false} ScanCount(rows: seq<Scored>, universe: Option<set<string>>, week: string, p: Entry -> bool)
    ensures HowMany(RunEntries(week, Candidates(rows), universe), p) == |RowSet(rows, universe, week, p)|
  {
    if rows == [] {
      assert Where(rows, Counting(universe, week, p)) == {};
    } else {
      var front, row := rows[..|rows| - 1], rows[|rows| - 1];
      FrontLast(rows);
      ScanCount(front, universe, week, p);
      ScanCountSnoc(front, row, universe, week, p);
      WhereSnoc(front, row, Counting(universe, week, p));
    }
  }

  lemma ScanCountSnoc(front: seq<Scored>, row: Scored, universe: Option<set<string>>, week: string, p: Entry -> bool)
    ensures HowMany(RunEntries(week, Candidates(front + [row]), universe), p)
            == HowMany(RunEntries(week, Candidates(front), universe), p)
               + (if Counting(universe, week, p)(row) then 1 else 0)
  {
    CandidatesSnoc(front, row);
    EntriesOfSnoc(Candidates(front), row, universe, week, p);
  }

  lemma CandidatesSnoc(front: seq<Scored>, row: Scored)
    ensures Candidates(front + [row])
            == Candidates(front)
               + (if row.symbol != "" && row.results != [] then
                    [Candidate(row.symbol, Admitted(row.results), row.results)]
                  else [])
  {
    assert (front + [row])[..|front|] == front;
  }

  lemma EntriesOfSnoc(cs: seq<Candidate>, row: Scored, universe: Option<set<string>>, week: string, p: Entry -> bool)
    ensures var more := if row.symbol != "" && row.results != [] then
                          [Candidate(row.symbol, Admitted(row.results), row.results)]
                        else [];
            HowMany(RunEntries(week, cs + more, universe), p)
            == HowMany(RunEntries(week, cs, universe), p)
               + (if RowCounts(row, universe) && p(EntryOf(week, row)) then 1 else 0)
  {
    var c := Candidate(row.symbol, Admitted(row.results), row.results);
    var es := RunEntries(week, cs, universe);
    assert (cs + [c])[..|cs|] == cs && cs + [] == cs;
    HowManySnoc(es, Entry(week, c), p);
    assert es + [] == es;
  }

  lemma HowManySnoc(es: seq<Entry>, e: Entry, p: Entry -> bool)
    ensures HowMany(es + [e], p) == HowMany(es, p) + (if p(e) then 1 else 0)
  {
    assert (es + [e])[..|es|] == es;
  }

  lemma {:induction false} HowManyJoin(a: seq<Entry>, b: seq<Entry>, p: Entry -> bool)
    ensures HowMany(a + b, p) == HowMany(a, p) + HowMany(b, p)
  {
    if b == [] {
      assert a + b == a;
    } else {
      var front, e := b[..|b| - 1], b[|b| - 1];
      HowManyJoin(a, front, p);
      assert a + b == a + front + [e];
      HowManySnoc(a + front, e, p);
    }
  }

  // ---- All scans ---------------------------------------------------------------

  function CandidateWrites(ws: Scans): (out: seq<Write<seq<Candidate>>>)
    ensures |out| == |ws|
  {
    seq(|ws|, i requires 0 <= i < |ws| =>
      Write(ws[i].day, Filed(ws[i].filed.scanId, ws[i].filed.ruleset, Candidates(ws[i].filed.run))))
  }

  /** The rows of one recording. */
  ghost function Part(ws: Scans, universe: Option<set<string>>, weekOf: int -> string, p: Entry -> bool)
    : int -> set<int>
  {
    k => if 0 <= k < |ws| then RowSet(ws[k].filed.run, universe, weekOf(ws[k].day), p) else {}
  }

  /** The pairs of one of the ks and one of its parts. */
  ghost function Pairs(ks: seq<int>, part: int -> set<int>): set<(int, int)> {
    set i, j | 0 <= i < |ks| && j in part(ks[i]) :: (ks[i], j)
  }

  /** The recordings at these places, one after the other. */
  ghost predicate Places(ws: Scans, ks: seq<int>, stream: seq<Write<seq<Candidate>>>) {
    && |ks| == |stream| && Distinct(ks)
    && forall i :: 0 <= i < |ks| ==> 0 <= ks[i] < |ws| && CandidateWrites(ws)[ks[i]] == stream[i]
  }

  lemma {:induction false} StreamCount(
      ws: Scans, ks: seq<int>, stream: seq<Write<seq<Candidate>>>, universe: Option<set<string>>,
      weekOf: int -> string, p: Entry -> bool)
    requires Places(ws, ks, stream)
    ensures HowMany(GateStored.Recorded(ScansOf(stream, weekOf), universe), p)
            == |Pairs(ks, Part(ws, universe, weekOf, p))|
  {
    if ks == [] {
      assert Pairs(ks, Part(ws, universe, weekOf, p)) == {};
    } else {
      var n := |ks| - 1;
      var k := ks[n];
      StreamCount(ws, ks[..n], stream[..n], universe, weekOf, p);
      FrontLast(stream);
      FrontLast(ks);
      RecordedSnoc(stream[..n], stream[n], universe, weekOf, p);
      ScanCount(ws[k].filed.run, universe, weekOf(ws[k].day), p);
      PairsSnoc(ks[..n], k, Part(ws, universe, weekOf, p));
    }
  }

  lemma RecordedSnoc(front: seq<Write<seq<Candidate>>>, w: Write<seq<Candidate>>, universe: Option<set<string>>,
                     weekOf: int -> string, p: Entry -> bool)
    ensures HowMany(GateStored.Recorded(ScansOf(front + [w], weekOf), universe), p)
            == HowMany(GateStored.Recorded(ScansOf(front, weekOf), universe), p)
               + HowMany(RunEntries(weekOf(w.day), w.filed.run, universe), p)
  {
    var scans := ScansOf(front + [w], weekOf);
    assert scans == ScansOf(front, weekOf) + [Scan(weekOf(w.day), w.filed.run)];
    assert scans[..|front|] == ScansOf(front, weekOf);
    HowManyJoin(GateStored.Recorded(ScansOf(front, weekOf), universe),
                RunEntries(weekOf(w.day), w.filed.run, universe), p);
  }

  lemma PairsHave(ks: seq<int>, part: int -> set<int>, k: int, j: int)
    ensures (k, j) in Pairs(ks, part) <==> k in ks && j in part(k)
  {
    if k in ks && j in part(k) {
      var i :| 0 <= i < |ks| && ks[i] == k;
      assert (ks[i], j) in Pairs(ks, part);
    }
  }

  lemma PairsSnoc(front: seq<int>, k: int, part: int -> set<int>)
    requires k !in front
    ensures |Pairs(front + [k], part)| == |Pairs(front, part)| + |part(k)|
  {
    var mine := part(k);
    var paired := set j | j in mine :: (k, j);
    forall k', j ensures (k', j) in Pairs(front + [k], part) <==> (k', j) in Pairs(front, part) + paired {
      PairsHave(front + [k], part, k', j);
      PairsHave(front, part, k', j);
    }
    forall x | x in paired ensures x !in Pairs(front, part) { PairsHave(front, part, x.0, x.1); }
    assert Pairs(front + [k], part) == Pairs(front, part) + paired;
    assert Pairs(front, part) !! paired;
    PairedSize(k, mine);
  }

  lemma {:induction false} PairedSize(k: int, s: set<int>)
    ensures |set j | j in s :: (k, j)| == |s|
  {
    var paired := set j | j in s :: (k, j);
    if s == {} {
      assert paired == {};
    } else {
      var x := Any(s);
      PairedSize(k, s - {x});
      assert paired == (set j | j in s - {x} :: (k, j)) + {(k, x)};
    }
  }

  // ---- Which recordings the stream has -----------------------------------------

  lemma {:induction false} StreamMeans<R(!new)>(files: Files<R>, order: seq<int>, q: Query, w: Write<R>)
    ensures w in Stream(files, order, q)
            <==> w.day in order && InRange(q, w.day) && Wanted(q, w.filed) && w.filed in RunsOf(files, w.day)
  {
    if order != [] {
      var front, last := order[..|order| - 1], order[|order| - 1];
      FrontLast(order);
      StreamMeans(files, front, q, w);
      OfDayMeans(q, last, RunsOf(files, last), w);
    }
  }

  lemma {:induction false} OfDayMeans<R(!new)>(q: Query, day: int, runs: seq<Filed<R>>, w: Write<R>)
    ensures w in OfDay(q, day, runs) <==> w.day == day && Wanted(q, w.filed) && w.filed in runs
  {
    if runs != [] {
      FrontLast(runs);
      OfDayMeans(q, day, runs[..|runs| - 1], w);
    }
  }

  lemma LastDayIsNew(order: seq<int>)
    requires order != [] && Ascending(order)
    ensures order[|order| - 1] !in order[..|order| - 1]
  {
  }

  lemma LastScanIsNew<R>(runs: seq<Filed<R>>)
    requires runs != [] && OnePerScan(runs)
    ensures runs[|runs| - 1] !in runs[..|runs| - 1]
  {
  }

  /** No run is streamed twice. */
  lemma {:induction false} StreamIsDistinct<R(!new)>(files: Files<R>, order: seq<int>, q: Query)
    requires Ascending(order) && forall d :: d in order ==> OnePerScan(RunsOf(files, d))
    ensures Distinct(Stream(files, order, q))
  {
    if order != [] {
      var front, last := order[..|order| - 1], order[|order| - 1];
      FrontLast(order);
      StreamIsDistinct(files, front, q);
      OfDayIsDistinct(q, last, RunsOf(files, last));
      var a, b := Stream(files, front, q), DayPart(files, last, q);
      LastDayIsNew(order);
      forall x | x in a ensures x !in b {
        StreamMeans(files, front, q, x);
        OfDayMeans(q, last, RunsOf(files, last), x);
      }
      DistinctJoin(a, b);
    }
  }

  lemma {:induction false} OfDayIsDistinct<R(!new)>(q: Query, day: int, runs: seq<Filed<R>>)
    requires OnePerScan(runs)
    ensures Distinct(OfDay(q, day, runs))
  {
    if runs != [] {
      var front, last := runs[..|runs| - 1], runs[|runs| - 1];
      OfDayIsDistinct(q, day, front);
      if Wanted(q, last) {
        LastScanIsNew(runs);
        OfDayMeans(q, day, front, Write(day, last));
        DistinctJoin(OfDay(q, day, front), [Write(day, last)]);
      } else {
        assert OfDay(q, day, runs) == OfDay(q, day, front) + [];
        assert OfDay(q, day, front) + [] == OfDay(q, day, front);
      }
    }
  }

  lemma DistinctJoin<T>(a: seq<T>, b: seq<T>)
    requires Distinct(a) && Distinct(b) && forall x :: x in a ==> x !in b
    ensures Distinct(a + b)
  {
    var s := a + b;
    forall i, j | 0 <= i < j < |s| ensures s[i] != s[j] {
      assert i < |a| ==> s[i] in a;
      assert j >= |a| ==> s[j] == b[j - |a|] && s[j] in b;
      assert i >= |a| ==> s[i] == b[i - |a|];
    }
  }

  lemma {:induction false} EverythingDays<R(!new)>(ws: seq<Write<R>>, d: int)
    ensures d in Everything(ws) <==> exists i :: 0 <= i < |ws| && ws[i].day == d
  {
    if ws != [] {
      var front := ws[..|ws| - 1];
      EverythingDays(front, d);
      assert forall i :: 0 <= i < |front| ==> front[i] == ws[i];
    }
  }

  /** A day is stored exactly when it was recorded and fewer than `keep` later ones were. */
  lemma StoredDaysMean<R(!new)>(ws: seq<Write<R>>, keep: Limit, d: int)
    ensures d in After(ws, keep) <==> (exists i :: 0 <= i < |ws| && ws[i].day == d) && |DaysAfter(ws, d)| < keep
  {
    PrunedAsOne(ws, keep);
    EverythingDays(ws, d);
    forall e ensures e in Later(Everything(ws), d) <==> e in DaysAfter(ws, d) {
      EverythingDays(ws, e);
    }
    assert Later(Everything(ws), d) == DaysAfter(ws, d);
  }

  lemma SelectedParts<R(!new)>(ws: seq<Write<R>>, keep: Limit, q: Query, k: nat)
    requires k < |ws|
    ensures Selected(ws, keep, q, k)
            <==> IsLast(ws, k) && |DaysAfter(ws, ws[k].day)| < keep && InRange(q, ws[k].day) && Wanted(q, ws[k].filed)
  {
  }

  lemma LastIsFiled<R(!new)>(ws: seq<Write<R>>, keep: Limit, k: nat)
    requires IsLast(ws, k) && ws[k].day in After(ws, keep)
    ensures ws[k].filed in RunsOf(After(ws, keep), ws[k].day)
  {
    OncePerScan(ws, keep, ws[k].day);
    assert ws[k] == Write(ws[k].day, ws[k].filed);
    assert LastWriting(ws, ws[k].day, ws[k].filed);
  }

  lemma SelectedIsStreamed<R(!new)>(ws: seq<Write<R>>, keep: Limit, order: seq<int>, q: Query, k: nat)
    requires k < |ws| && forall d :: d in order <==> d in After(ws, keep)
    ensures Selected(ws, keep, q, k) <==> IsLast(ws, k) && ws[k] in Stream(After(ws, keep), order, q)
  {
    SelectedParts(ws, keep, q, k);
    StreamMeans(After(ws, keep), order, q, ws[k]);
    StoredDaysMean(ws, keep, ws[k].day);
    if IsLast(ws, k) && ws[k].day in After(ws, keep) { LastIsFiled(ws, keep, k); }
  }

  /** Where a streamed run was written. */
  lemma PlaceOf<R(!new)>(ws: seq<Write<R>>, keep: Limit, order: seq<int>, q: Query, w: Write<R>) returns (k: nat)
    requires (forall d :: d in order <==> d in After(ws, keep)) && w in Stream(After(ws, keep), order, q)
    ensures IsLast(ws, k) && ws[k] == w
  {
    StreamMeans(After(ws, keep), order, q, w);
    OncePerScan(ws, keep, w.day);
    k :| IsLast(ws, k) && ws[k] == Write(w.day, w.filed);
  }

  /** Each run's place is the last writing of it. */
  ghost predicate Traced<R>(ws: seq<Write<R>>, ks: seq<int>, stream: seq<Write<R>>) {
    |ks| <= |stream| && forall i :: 0 <= i < |ks| ==> 0 <= ks[i] < |ws| && IsLast(ws, ks[i]) && ws[ks[i]] == stream[i]
  }

  lemma TracedSnoc<R(!new)>(ws: seq<Write<R>>, ks: seq<int>, stream: seq<Write<R>>, k: nat)
    requires Traced(ws, ks, stream) && |ks| < |stream| && IsLast(ws, k) && ws[k] == stream[|ks|]
    ensures Traced(ws, ks + [k], stream)
  {
  }

  lemma {:induction false} Trace<R(!new)>(ws: seq<Write<R>>, keep: Limit, order: seq<int>, q: Query,
                                          stream: seq<Write<R>>, n: nat)
    returns (ks: seq<int>)
    requires n <= |stream| && (forall d :: d in order <==> d in After(ws, keep))
    requires forall w :: w in stream ==> w in Stream(After(ws, keep), order, q)
    ensures |ks| == n && Traced(ws, ks, stream)
  {
    ks := [];
    if n > 0 {
      var before := Trace(ws, keep, order, q, stream, n - 1);
      var k := PlaceOf(ws, keep, order, q, stream[n - 1]);
      TracedSnoc(ws, before, stream, k);
      ks := before + [k];
    }
  }

  /** Where all of them were. */
  lemma PlacesOf(ws: Scans, keep: Limit, order: seq<int>, q: Query) returns (ks: seq<int>)
    requires Ascending(order) && forall d :: d in order <==> d in After(CandidateWrites(ws), keep)
    ensures Places(ws, ks, Stream(After(CandidateWrites(ws), keep), order, q))
    ensures forall k :: k in ks <==> 0 <= k < |ws| && Selected(ws, keep, q, k)
  {
    var cw := CandidateWrites(ws);
    var files := After(cw, keep);
    forall d | d in order ensures OnePerScan(RunsOf(files, d)) { OncePerScan(cw, keep, d); }
    StreamIsDistinct(files, order, q);
    ks := Trace(cw, keep, order, q, Stream(files, order, q), |Stream(files, order, q)|);
    PlacesAreSelected(ws, keep, order, q, ks);
  }

  lemma PlacesAreSelected(ws: Scans, keep: Limit, order: seq<int>, q: Query, ks: seq<int>)
    requires var cw := CandidateWrites(ws); forall d :: d in order <==> d in After(cw, keep)
    requires var cw := CandidateWrites(ws);
             var stream := Stream(After(cw, keep), order, q);
             Distinct(stream) && |ks| == |stream| && Traced(cw, ks, stream)
    ensures Distinct(ks)
    ensures forall k :: k in ks <==> 0 <= k < |ws| && Selected(ws, keep, q, k)
  {
    var cw := CandidateWrites(ws);
    var stream := Stream(After(cw, keep), order, q);
    forall i, j | 0 <= i < j < |ks| ensures ks[i] != ks[j] { assert stream[i] != stream[j]; }
    forall k | 0 <= k < |ws| ensures k in ks <==> Selected(ws, keep, q, k) {
      SelectedIsStreamed(cw, keep, order, q, k);
      SelectedAlike(ws, keep, q, k);
      if IsLast(cw, k) && cw[k] in stream {
        var i :| 0 <= i < |stream| && stream[i] == cw[k];
        SameLast(cw, ks[i], k);
      }
    }
  }

  lemma SelectedAlike(ws: Scans, keep: Limit, q: Query, k: nat)
    requires k < |ws|
    ensures Selected(CandidateWrites(ws), keep, q, k) <==> Selected(ws, keep, q, k)
  {
    var cw := CandidateWrites(ws);
    forall d ensures d in DaysAfter(cw, ws[k].day) <==> d in DaysAfter(ws, ws[k].day) {
      if d in DaysAfter(cw, ws[k].day) {
        var i :| 0 <= i < |cw| && cw[i].day > ws[k].day && cw[i].day == d;
        assert ws[i].day == d;
      }
      if d in DaysAfter(ws, ws[k].day) {
        var i :| 0 <= i < |ws| && ws[i].day > ws[k].day && ws[i].day == d;
        assert cw[i].day == d;
      }
    }
    assert DaysAfter(cw, ws[k].day) == DaysAfter(ws, ws[k].day);
    assert forall i :: 0 <= i < |ws| ==> cw[i].day == ws[i].day && cw[i].filed.scanId == ws[i].filed.scanId;
  }

  /** A scan of a day has one last writing. */
  lemma SameLast<R(!new)>(ws: seq<Write<R>>, i: nat, j: nat)
    requires IsLast(ws, i) && IsLast(ws, j) && ws[i] == ws[j]
    ensures i == j
  {
  }

  // ---- The table ---------------------------------------------------------------

  lemma EntriesAreRows(ws: Scans, keep: Limit, order: seq<int>, q: Query, universe: Option<set<string>>,
                       weekOf: int -> string, p: Entry -> bool)
    requires Ascending(order) && forall d :: d in order <==> d in After(CandidateWrites(ws), keep)
    ensures var stream := Stream(After(CandidateWrites(ws), keep), order, q);
            HowMany(GateStored.Recorded(ScansOf(stream, weekOf), universe), p)
            == |Rows(ws, keep, q, universe, weekOf, p)|
  {
    var ks := PlacesOf(ws, keep, order, q);
    StreamCount(ws, ks, Stream(After(CandidateWrites(ws), keep), order, q), universe, weekOf, p);
    var rows, part := Rows(ws, keep, q, universe, weekOf, p), Part(ws, universe, weekOf, p);
    forall k, j ensures (k, j) in Pairs(ks, part) <==> (k, j) in rows {
      PairsHave(ks, part, k, j);
    }
    assert Pairs(ks, part) == rows;
  }

  /** Each row carries each gate once, and each gate keeps one authority across a scan. */
  ghost predicate SoundScans(ws: Scans) {
    forall k :: 0 <= k < |ws| ==> Sound(Candidates(ws[k].filed.run))
  }

  /** What the store holds after these scans were recorded. */
  function Recordings(ws: Scans, keep: Limit): Files<Run> {
    After(EncodedWrites(CandidateWrites(ws)), keep)
  }

  /** From the rows handed to record_scan to the table, with nothing in between: a row counts
      when its scan was not recorded again that day, the day is still kept and in the range,
      and the ruleset and the universe are those asked for; and each number of the table is
      the number of such rows with that property. */
  lemma TableIsACount(
      ws: Scans, keep: Limit, order: seq<int>, q: Query, weekOf: int -> string, universe: Option<set<string>>,
      t: Tally, g: string, b: string, w: string)
    requires SoundScans(ws)
    requires Ascending(order) && forall d :: d in order <==> d in Recordings(ws, keep)
    requires Covers(t, Entries(DayRuns(Stream(Recordings(ws, keep), order, q), weekOf), universe))
    ensures t.admittedN == |Rows(ws, keep, q, universe, weekOf, AdmittedOnes())|
    ensures Get(t.evaluated, g) == |Rows(ws, keep, q, universe, weekOf, Verdict(g))|
    ensures Get(t.failed, g) == |Rows(ws, keep, q, universe, weekOf, Failing(g))|
    ensures Get(t.sole, g) == |Rows(ws, keep, q, universe, weekOf, Solely(g))|
    ensures Get(t.coBlock, (g, b)) == |Rows(ws, keep, q, universe, weekOf, Jointly(g, b))|
    ensures GetWeek(t.weekly, (g, w)) == Week(|Rows(ws, keep, q, universe, weekOf, InWeek(w, Verdict(g)))|,
                                              |Rows(ws, keep, q, universe, weekOf, InWeek(w, Failing(g)))|,
                                              |Rows(ws, keep, q, universe, weekOf, InWeek(w, Solely(g)))|)
  {
    var cw := CandidateWrites(ws);
    SameDays(cw, keep);
    TableCountsLastWritings(cw, keep, order, q, weekOf, universe, t, g, b, w);
    EntriesAreRows(ws, keep, order, q, universe, weekOf, AdmittedOnes());
    EntriesAreRows(ws, keep, order, q, universe, weekOf, Verdict(g));
    EntriesAreRows(ws, keep, order, q, universe, weekOf, Failing(g));
    EntriesAreRows(ws, keep, order, q, universe, weekOf, Solely(g));
    EntriesAreRows(ws, keep, order, q, universe, weekOf, Jointly(g, b));
    EntriesAreRows(ws, keep, order, q, universe, weekOf, InWeek(w, Verdict(g)));
    EntriesAreRows(ws, keep, order, q, universe, weekOf, InWeek(w, Failing(g)));
    EntriesAreRows(ws, keep, order, q, universe, weekOf, InWeek(w, Solely(g)));
  }

  // ---- The counts by ruleset ---------------------------------------------------

  function AnyEntry(): Entry -> bool {
    (e: Entry) => true
  }

  lemma {:induction false} AllOfThem(es: seq<Entry>)
    ensures HowMany(es, AnyEntry()) == |es|
  {
    if es != [] { AllOfThem(es[..|es| - 1]); }
  }

  predicate CountsAs(ruleset: Option<string>, l: string) {
    (l != "" && ruleset == Some(l)) || (ruleset in {None, Some("")} && l == "unknown")
  }

  /** The rows recorded under a ruleset; runs that name none are counted as unknown. */
  ghost function RowsUnder(ws: Scans, keep: Limit, q: Query, l: string): set<(int, int)> {
    set k, j | 0 <= k < |ws| && Selected(ws, keep, q, k) && CountsAs(ws[k].filed.ruleset, l)
               && j in RowSet(ws[k].filed.run, None, "", AnyEntry()) :: (k, j)
  }

  ghost function PartUnder(ws: Scans, l: string): int -> set<int> {
    k => if 0 <= k < |ws| && RulesetOf(ws[k]) == l then RowSet(ws[k].filed.run, None, "", AnyEntry()) else {}
  }

  lemma {:induction false} EveryEntry(week: string, cs: seq<Candidate>)
    ensures HowMany(RunEntries(week, cs, None), AnyEntry()) == |cs|
  {
    if cs != [] {
      EveryEntry(week, cs[..|cs| - 1]);
      HowManySnoc(RunEntries(week, cs[..|cs| - 1], None), Entry(week, cs[|cs| - 1]), AnyEntry());
    }
  }

  lemma CandidateCount(rows: seq<Scored>)
    ensures |Candidates(rows)| == |RowSet(rows, None, "", AnyEntry())|
  {
    EveryEntry("", Candidates(rows));
    ScanCount(rows, None, "", AnyEntry());
  }

  lemma PresentSnoc(front: seq<Write<seq<Candidate>>>, w: Write<seq<Candidate>>, l: string)
    ensures Get(Present(EncodedWrites(front + [w])), l)
            == Get(Present(EncodedWrites(front)), l) + (if RulesetOf(w) == l then |w.filed.run| else 0)
  {
    var all := EncodedWrites(front + [w]);
    assert all == EncodedWrites(front) + [all[|front|]];
    assert all[..|front|] == EncodedWrites(front);
  }

  lemma {:induction false} PresentCount(ws: Scans, ks: seq<int>, stream: seq<Write<seq<Candidate>>>, l: string)
    requires Places(ws, ks, stream)
    ensures Get(Present(EncodedWrites(stream)), l) == |Pairs(ks, PartUnder(ws, l))|
  {
    if ks == [] {
      assert Pairs(ks, PartUnder(ws, l)) == {};
    } else {
      var n := |ks| - 1;
      PresentCount(ws, ks[..n], stream[..n], l);
      FrontLast(ks);
      FrontLast(stream);
      PresentSnoc(stream[..n], stream[n], l);
      CandidateCount(ws[ks[n]].filed.run);
      PairsSnoc(ks[..n], ks[n], PartUnder(ws, l));
    }
  }

  lemma PairsAreRowsUnder(ws: Scans, keep: Limit, q: Query, l: string, ks: seq<int>)
    requires forall k :: k in ks <==> 0 <= k < |ws| && Selected(ws, keep, q, k)
    ensures Pairs(ks, PartUnder(ws, l)) == RowsUnder(ws, keep, q, l)
  {
    var part, rows := PartUnder(ws, l), RowsUnder(ws, keep, q, l);
    forall k, j ensures (k, j) in Pairs(ks, part) <==> (k, j) in rows {
      PairsHave(ks, part, k, j);
      assert 0 <= k < |ws| ==> (CountsAs(ws[k].filed.ruleset, l) <==> RulesetOf(ws[k]) == l);
    }
  }

  /** The count reported beside a ruleset is the number of rows recorded under it. */
  lemma PresentIsACount(ws: Scans, keep: Limit, order: seq<int>, q: Query, l: string)
    requires Ascending(order) && forall d :: d in order <==> d in Recordings(ws, keep)
    ensures Get(Present(Stream(Recordings(ws, keep), order, q)), l) == |RowsUnder(ws, keep, q, l)|
  {
    var cw := CandidateWrites(ws);
    SameDays(cw, keep);
    StreamIsEncoded(cw, keep, order, q);
    var ks := PlacesOf(ws, keep, order, q);
    PresentCount(ws, ks, Stream(After(cw, keep), order, q), l);
    PairsAreRowsUnder(ws, keep, q, l, ks);
  }

  /** The denominator of every rate. */
  lemma EvaluatedIsACount(
      ws: Scans, keep: Limit, order: seq<int>, q: Query, weekOf: int -> string, universe: Option<set<string>>, t: Tally)
    requires SoundScans(ws)
    requires Ascending(order) && forall d :: d in order <==> d in Recordings(ws, keep)
    requires Covers(t, Entries(DayRuns(Stream(Recordings(ws, keep), order, q), weekOf), universe))
    ensures t.evaluatedN == |Rows(ws, keep, q, universe, weekOf, AnyEntry())|
  {
    var cw := CandidateWrites(ws);
    SameDays(cw, keep);
    TableCountsLastWritings(cw, keep, order, q, weekOf, universe, t, "", "", "");
    AllOfThem(GateStored.Recorded(ScansOf(Stream(After(cw, keep), order, q), weekOf), universe));
    EntriesAreRows(ws, keep, order, q, universe, weekOf, AnyEntry());
  }

  lemma SameDays(ws: seq<Write<seq<Candidate>>>, keep: Limit)
    ensures forall d :: d in After(EncodedWrites(ws), keep) <==> d in After(ws, keep)
  {
    PrunedAsOne(ws, keep);
    PrunedAsOne(EncodedWrites(ws), keep);
    EverythingPacks(ws);
    PrunedPacks(Everything(EncodedWrites(ws)), Everything(ws), keep);
  }
}
