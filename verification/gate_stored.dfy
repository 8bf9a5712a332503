/** From record_scan to aggregate: the numbers counted over the stored, packed runs are
    the numbers of the candidates that were recorded. */
module GateStored {
  import opened Bags
  import opened Common
  import opened GateAggregate
  import opened GateCodec
  import opened GateMeaning
  import opened GateRoundTrip

  /** A scan as record_scan receives it, with the ISO week of its day. */
  datatype Scan = Scan(week: string, candidates: seq<Candidate>)

  function Stored(scans: seq<Scan>): (runs: seq<DayRun>)
    ensures |runs| == |scans|
  {
    seq(|scans|, i requires 0 <= i < |scans| => DayRun(scans[i].week, Encode(scans[i].candidates)))
  }

  /** The candidates of the universe, before they were packed. */
  function Recorded(scans: seq<Scan>, universe: Option<set<string>>): seq<Entry> {
    if scans == [] then []
    else
      var s := scans[|scans| - 1];
      Recorded(scans[..|scans| - 1], universe) + RunEntries(s.week, s.candidates, universe)
  }

  /** Each candidate carries each gate once, with the flag its results give, and each gate
      keeps one authority across the scan. */
  ghost predicate Sound(cs: seq<Candidate>) {
    && OneAuthority(cs)
    && (forall i :: 0 <= i < |cs| ==> WellFormed(cs[i].results) && cs[i].admitted == Admitted(cs[i].results))
  }

  // ---- One candidate -----------------------------------------------------------

  predicate Says(rs: seq<GateResult>, g: string, a: Authority, p: Option<bool>) {
    exists r :: r in rs && r.gateId == g && r.authority == a && r.passed == p
  }

  /** The two lists say the same of every gate. */
  ghost predicate Alike(rs: seq<GateResult>, back: seq<GateResult>) {
    forall g, a, p :: Says(back, g, a, p) <==> Says(rs, g, a, p)
  }

  lemma SaysSurvives(all: seq<GateResult>, rs: seq<GateResult>)
    requires WellFormed(rs) && forall r :: r in rs ==> r in all
    requires forall r :: r in rs ==> Rebase(all, r).authority == r.authority
    ensures Alike(rs, Settled(all, rs, |Order(all)|))
  {
    var out, want := Settled(all, rs, |Order(all)|), RebaseAll(all, rs);
    DecodedIsPermutation(all, rs);
    SameBagSameMembers(out, want);
    forall r | r in rs ensures Rebase(all, r) in out {
      var i :| 0 <= i < |rs| && rs[i] == r;
      assert want[i] in want;
    }
    forall d | d in out ensures exists r :: r in rs && d == Rebase(all, r) {
      var i :| 0 <= i < |want| && want[i] == d;
      assert rs[i] in rs;
    }
  }

  lemma RebaseKeepsAuthority(cs: seq<Candidate>, i: nat)
    requires i < |cs| && WellFormed(cs[i].results) && OneAuthority(cs)
    ensures var all := AllNamed(cs);
            forall r :: r in cs[i].results ==> r in all && Rebase(all, r).authority == r.authority
  {
    var all := AllNamed(cs);
    AllNamedMembers(cs);
    forall r | r in cs[i].results ensures Rebase(all, r).authority == r.authority {
      FirstSeenIsSeen(all, r.gateId);
    }
  }

  lemma AlikeBlocks(rs: seq<GateResult>, back: seq<GateResult>, g: string)
    requires Alike(rs, back)
    ensures HasFailed(back, g) == HasFailed(rs, g)
    ensures HasVerdict(back, g) == HasVerdict(rs, g)
    ensures HasFall(back, g) == HasFall(rs, g)
  {
    SaysIs(rs, g);
    SaysIs(back, g);
  }

  lemma SaysIs(rs: seq<GateResult>, g: string)
    ensures HasFailed(rs, g) <==> Says(rs, g, Veto, Some(false))
    ensures HasVerdict(rs, g) <==> exists a, p :: Says(rs, g, a, p) && p.Some?
    ensures HasFall(rs, g) <==> exists a :: Says(rs, g, a, Some(false))
  {
    if HasVerdict(rs, g) {
      var r :| r in rs && r.gateId == g && r.passed.Some?;
      assert Says(rs, g, r.authority, r.passed);
    }
    if HasFall(rs, g) {
      var r :| r in rs && r.gateId == g && r.passed == Some(false);
      assert Says(rs, g, r.authority, Some(false));
    }
  }

  lemma AlikeSoles(rs: seq<GateResult>, back: seq<GateResult>, g: string)
    requires Alike(rs, back) && SoleBlock(rs, g)
    ensures SoleBlock(back, g)
  {
    AlikeBlocks(rs, back, g);
    forall r | r in back && r.authority == Veto && r.gateId != g ensures r.passed == Some(true) {
      assert Says(back, r.gateId, Veto, r.passed);
      assert Says(rs, r.gateId, Veto, r.passed);
    }
  }

  // ---- All candidates ----------------------------------------------------------

  /** The stored candidate counts as the recorded one does. */
  ghost predicate Twin(e: Entry, back: Entry) {
    && back.week == e.week && back.candidate.symbol == e.candidate.symbol
    && back.candidate.admitted == e.candidate.admitted == Admitted(e.candidate.results)
    && WellFormed(back.candidate.results)
    && Alike(e.candidate.results, back.candidate.results)
  }

  ghost predicate Twins(es: seq<Entry>, back: seq<Entry>) {
    |back| == |es| && forall i :: 0 <= i < |es| ==> Twin(es[i], back[i])
  }

  lemma DecodedIsTwin(cs: seq<Candidate>, i: nat, week: string)
    requires i < |cs| && Sound(cs)
    ensures |Decode(Encode(cs))| == |cs| && Twin(Entry(week, cs[i]), Entry(week, Decode(Encode(cs))[i]))
  {
    RoundTrip(cs);
    RebaseKeepsAuthority(cs, i);
    SaysSurvives(AllNamed(cs), cs[i].results);
    DecodedIsWellFormed(cs, i);
  }

  lemma TwinsTogether(a: seq<Entry>, a': seq<Entry>, b: seq<Entry>, b': seq<Entry>)
    requires Twins(a, a') && Twins(b, b')
    ensures Twins(a + b, a' + b')
  {
  }

  lemma {:induction false} RunTwins(
      week: string, cs: seq<Candidate>, back: seq<Candidate>, universe: Option<set<string>>)
    requires |back| == |cs|
    requires forall i :: 0 <= i < |cs| ==> Twin(Entry(week, cs[i]), Entry(week, back[i]))
    ensures Twins(RunEntries(week, cs, universe), RunEntries(week, back, universe))
  {
    if cs != [] {
      var n := |cs| - 1;
      assert Twin(Entry(week, cs[n]), Entry(week, back[n]));
      RunTwins(week, cs[..n], back[..n], universe);
      TwinsTogether(RunEntries(week, cs[..n], universe), RunEntries(week, back[..n], universe),
                    Counted(week, cs[n], universe), Counted(week, back[n], universe));
    }
  }

  lemma ScanTwins(s: Scan, universe: Option<set<string>>)
    requires Sound(s.candidates)
    ensures Twins(RunEntries(s.week, s.candidates, universe),
                  RunEntries(s.week, Decode(Encode(s.candidates)), universe))
  {
    var back := Decode(Encode(s.candidates));
    RoundTrip(s.candidates);
    forall i | 0 <= i < |s.candidates| ensures Twin(Entry(s.week, s.candidates[i]), Entry(s.week, back[i])) {
      DecodedIsTwin(s.candidates, i, s.week);
    }
    RunTwins(s.week, s.candidates, back, universe);
  }

  ghost predicate AllSound(scans: seq<Scan>) {
    forall s :: s in scans ==> Sound(s.candidates)
  }

  lemma StoredSnoc(scans: seq<Scan>, universe: Option<set<string>>)
    requires scans != []
    ensures var front, s := scans[..|scans| - 1], scans[|scans| - 1];
            Entries(Stored(scans), universe)
            == Entries(Stored(front), universe) + RunEntries(s.week, Decode(Encode(s.candidates)), universe)
  {
    var n := |scans| - 1;
    assert Stored(scans)[..n] == Stored(scans[..n]);
  }

  lemma {:induction false} StoredTwins(scans: seq<Scan>, universe: Option<set<string>>)
    requires AllSound(scans)
    ensures Twins(Recorded(scans, universe), Entries(Stored(scans), universe))
  {
    if scans != [] {
      var front, s := scans[..|scans| - 1], scans[|scans| - 1];
      assert s in scans;
      StoredTwins(front, universe);
      ScanTwins(s, universe);
      StoredSnoc(scans, universe);
      TwinsTogether(Recorded(front, universe), Entries(Stored(front), universe),
                    RunEntries(s.week, s.candidates, universe),
                    RunEntries(s.week, Decode(Encode(s.candidates)), universe));
    }
  }

  /** p cannot tell an entry from its twin. */
  ghost predicate Blind(p: Entry -> bool) {
    forall e, back :: Twin(e, back) ==> p(e) == p(back)
  }

  lemma {:induction false} SameNumber(es: seq<Entry>, back: seq<Entry>, p: Entry -> bool)
    requires Twins(es, back) && Blind(p)
    ensures HowMany(back, p) == HowMany(es, p)
  {
    if es != [] {
      var n := |es| - 1;
      SameNumber(es[..n], back[..n], p);
      assert Twin(es[n], back[n]);
    }
  }

  /** Some veto ran and every veto passed. */
  predicate ClearedVetoes(rs: seq<GateResult>) {
    && (exists r :: r in rs && r.authority == Veto)
    && (forall r :: r in rs && r.authority == Veto ==> r.passed == Some(true))
  }

  function AdmittedOnes(): Entry -> bool {
    (e: Entry) => ClearedVetoes(e.candidate.results)
  }

  lemma {:induction false} SameAdmitted(es: seq<Entry>, back: seq<Entry>)
    requires Twins(es, back)
    ensures AdmittedCount(back) == HowMany(es, AdmittedOnes())
  {
    if es != [] {
      var n := |es| - 1;
      SameAdmitted(es[..n], back[..n]);
      assert Twin(es[n], back[n]);
    }
  }

  lemma BlindToTwins(g: string, b: string)
    ensures Blind(Verdict(g)) && Blind(Failing(g)) && Blind(Solely(g)) && Blind(Jointly(g, b))
  {
    forall e, back | Twin(e, back)
      ensures Verdict(g)(e) == Verdict(g)(back) && Failing(g)(e) == Failing(g)(back)
      ensures Jointly(g, b)(e) == Jointly(g, b)(back) && Solely(g)(e) == Solely(g)(back)
    {
      var rs, rs' := e.candidate.results, back.candidate.results;
      AlikeBlocks(rs, rs', g);
      AlikeBlocks(rs, rs', b);
      if SoleBlock(rs, g) { AlikeSoles(rs, rs', g); }
      if SoleBlock(rs', g) { AlikeSoles(rs', rs, g); }
    }
  }

  lemma BlindInWeek(w: string, p: Entry -> bool)
    requires Blind(p)
    ensures Blind(InWeek(w, p))
  {
  }

  lemma TwinsAreWellFormed(es: seq<Entry>, back: seq<Entry>)
    requires Twins(es, back)
    ensures AllWellFormed(back)
  {
    forall e | e in back ensures WellFormed(e.candidate.results) {
      var i :| 0 <= i < |back| && back[i] == e;
      assert Twin(es[i], back[i]);
    }
  }

  /** The weekly series too. */
  lemma StoredWeeksAreRecorded(t: Tally, scans: seq<Scan>, universe: Option<set<string>>, g: string, w: string)
    requires AllSound(scans) && Covers(t, Entries(Stored(scans), universe))
    ensures GetWeek(t.weekly, (g, w)) == WeekCounts(Recorded(scans, universe), g, w)
  {
    var es, back := Recorded(scans, universe), Entries(Stored(scans), universe);
    StoredTwins(scans, universe);
    TwinsAreWellFormed(es, back);
    WeeklyMeans(t, back, g, w);
    BlindToTwins(g, "");
    BlindInWeek(w, Verdict(g));
    BlindInWeek(w, Failing(g));
    BlindInWeek(w, Solely(g));
    SameNumber(es, back, InWeek(w, Verdict(g)));
    SameNumber(es, back, InWeek(w, Failing(g)));
    SameNumber(es, back, InWeek(w, Solely(g)));
  }

  /** What the pass counts over the packed runs is what the recorded candidates were:
      packing loses nothing that the aggregate reports. */
  lemma StoredCountsAreRecorded(
      t: Tally, scans: seq<Scan>, universe: Option<set<string>>, g: string, b: string, w: string)
    requires AllSound(scans) && Covers(t, Entries(Stored(scans), universe))
    ensures var es := Recorded(scans, universe);
            && t.evaluatedN == |es| && t.admittedN == HowMany(es, AdmittedOnes())
            && Get(t.evaluated, g) == HowMany(es, Verdict(g)) && Get(t.failed, g) == HowMany(es, Failing(g))
            && Get(t.sole, g) == HowMany(es, Solely(g)) && Get(t.coBlock, (g, b)) == HowMany(es, Jointly(g, b))
            && GetWeek(t.weekly, (g, w)) == WeekCounts(es, g, w)
  {
    var es, back := Recorded(scans, universe), Entries(Stored(scans), universe);
    StoredTwins(scans, universe);
    TwinsAreWellFormed(es, back);
    EventsAreNumbers(back, g, b);
    BlindToTwins(g, b);
    SameNumber(es, back, Verdict(g));
    SameNumber(es, back, Failing(g));
    SameNumber(es, back, Solely(g));
    SameNumber(es, back, Jointly(g, b));
    SameAdmitted(es, back);
    StoredWeeksAreRecorded(t, scans, universe, g, w);
  }
}
