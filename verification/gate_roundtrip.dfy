/** What survives the trip through the packed form of a run. */
module GateRoundTrip {
  import opened Bags
  import opened Common
  import opened GateCodec

  /** A result as the run's manifest describes its gate: level, authority, label and
      direction are those first seen in the run; the verdict is the candidate's own. */
  function Rebase(all: seq<GateResult>, r: GateResult): GateResult {
    var first := FirstSeen(all, r.gateId);
    if first.None? then r
    else r.(level := first.value.level, authority := first.value.authority,
            labelText := LabelOr(first.value.labelText, r.gateId), direction := first.value.direction)
  }

  /** For each of the first k gates of an order, the candidate's last result for it. */
  function SettledBy(order: seq<string>, all: seq<GateResult>, results: seq<GateResult>, k: nat): seq<GateResult>
    requires k <= |order|
  {
    if k == 0 then []
    else
      var last := LastSeen(results, order[k - 1]);
      SettledBy(order, all, results, k - 1) + (if last.Some? then [Rebase(all, last.value)] else [])
  }

  /** The gates of the run in canonical order. */
  function Settled(all: seq<GateResult>, results: seq<GateResult>, k: nat): seq<GateResult>
    requires k <= |Order(all)|
  {
    SettledBy(Order(all), all, results, k)
  }

  function Canonical(all: seq<GateResult>, c: Candidate): Candidate {
    c.(results := Settled(all, c.results, |Order(all)|))
  }

  lemma {:induction false} ConstantThreshold(all: seq<GateResult>, r: GateResult)
    requires r in all
    ensures r.threshold in ThresholdsOf(all, r.gateId)
  {
    var front, last := all[..|all| - 1], all[|all| - 1];
    assert all == front + [last];
    if r != last { ConstantThreshold(front, r); }
  }

  lemma DecodedCell(all: seq<GateResult>, gid: string, r: GateResult)
    requires gid in Order(all) && r in all && r.gateId == gid
    ensures FirstSeen(all, gid).Some?
    ensures DecodeCell(GateFor(all, gid), CellOf(r, Varies(all, gid))) == Rebase(all, r)
  {
    FirstThresholdOfOrdered(all, gid);
    ConstantThreshold(all, r);
  }

  /** Every named result is among those gathered, and all of those are named. */
  ghost predicate Gathers(all: seq<GateResult>, results: seq<GateResult>) {
    && (forall r :: r in results && r.gateId != "" ==> r in all)
    && (forall r :: r in all ==> r.gateId != "")
  }

  /** A cell decodes to what the candidate last said of its gate. */
  ghost predicate Decodes(gate: Gate, cell: Option<Cell>, all: seq<GateResult>, results: seq<GateResult>, gid: string) {
    var last := LastSeen(results, gid);
    && (cell.Some? <==> last.Some?)
    && (cell.Some? ==> DecodeCell(gate, cell.value) == Rebase(all, last.value))
  }

  lemma DecodedAt(all: seq<GateResult>, results: seq<GateResult>, k: nat)
    requires k < |Order(all)| && Gathers(all, results)
    ensures Decodes(EncodedGates(all)[k], CellsFor(all, results, Order(all))[k], all, results, Order(all)[k])
  {
    var gid := Order(all)[k];
    OrderIsStrict(all);
    IdsAreSeen(all, gid);
    IdsAreSeen(results, gid);
    var last := LastSeen(results, gid);
    if last.Some? {
      DecodedCell(all, gid, last.value);
    }
  }

  /** So the cells decode to the settled results. */
  lemma {:induction false} DecodedCells(
      gates: seq<Gate>, cells: seq<Option<Cell>>, order: seq<string>,
      all: seq<GateResult>, results: seq<GateResult>, k: nat)
    requires k <= |gates| == |cells| == |order|
    requires forall i :: 0 <= i < |order| ==> Decodes(gates[i], cells[i], all, results, order[i])
    ensures DecodeCells(gates, cells, k) == SettledBy(order, all, results, k)
  {
    if k > 0 {
      DecodedCells(gates, cells, order, all, results, k - 1);
      assert Decodes(gates[k - 1], cells[k - 1], all, results, order[k - 1]);
    }
  }

  lemma {:induction false} NamedMembers(results: seq<GateResult>)
    ensures forall r :: r in Named(results) <==> r in results && r.gateId != ""
  {
    if results != [] {
      NamedMembers(results[..|results| - 1]);
      assert results == results[..|results| - 1] + [results[|results| - 1]];
    }
  }

  lemma {:induction false} AllNamedMembers(cs: seq<Candidate>)
    ensures forall r :: r in AllNamed(cs) ==> r.gateId != ""
    ensures forall i, r :: 0 <= i < |cs| && r in cs[i].results && r.gateId != "" ==> r in AllNamed(cs)
  {
    if cs != [] {
      AllNamedMembers(cs[..|cs| - 1]);
      NamedMembers(cs[|cs| - 1].results);
    }
  }

  lemma RowRoundTrip(cs: seq<Candidate>, i: nat)
    requires i < |cs|
    ensures var all := AllNamed(cs); DecodeRow(EncodedGates(all), EncodedRow(all, cs[i])) == Canonical(all, cs[i])
  {
    var all := AllNamed(cs);
    var order, gates, cells := Order(all), EncodedGates(all), CellsFor(all, cs[i].results, Order(all));
    AllNamedMembers(cs);
    forall k | 0 <= k < |order| ensures Decodes(gates[k], cells[k], all, cs[i].results, order[k]) {
      DecodedAt(all, cs[i].results, k);
    }
    DecodedCells(gates, cells, order, all, cs[i].results, |order|);
  }

  /** Decoding an encoded run, for every run whatever it holds: gates repeated within a
      candidate, gates without an id, and gates that change level or authority midway. */
  lemma RoundTrip(cs: seq<Candidate>)
    ensures |Decode(Encode(cs))| == |cs|
    ensures forall i :: 0 <= i < |cs| ==> Decode(Encode(cs))[i] == Canonical(AllNamed(cs), cs[i])
  {
    forall i | 0 <= i < |cs| ensures Decode(Encode(cs))[i] == Canonical(AllNamed(cs), cs[i]) {
      RowRoundTrip(cs, i);
    }
  }

  // ---- When every candidate carries each gate at most once ---------------------

  ghost predicate WellFormed(results: seq<GateResult>) {
    && (forall r :: r in results ==> r.gateId != "")
    && (forall i, j :: 0 <= i < j < |results| ==> results[i].gateId != results[j].gateId)
  }

  lemma {:induction false} OnlyOne(results: seq<GateResult>, r: GateResult)
    requires WellFormed(results) && r in results
    ensures LastSeen(results, r.gateId) == Some(r)
  {
    var front, last := results[..|results| - 1], results[|results| - 1];
    assert results == front + [last];
    if r != last {
      assert r in front;
      OnlyOne(front, r);
    }
  }

  function GateIds(results: seq<GateResult>): (ids: seq<string>)
    ensures |ids| == |results|
  {
    seq(|results|, i requires 0 <= i < |results| => results[i].gateId)
  }

  ghost predicate IsSettled(all: seq<GateResult>, results: seq<GateResult>, g: string, r: GateResult) {
    LastSeen(results, g).Some? && r == Rebase(all, LastSeen(results, g).value)
  }

  /** The decoded results hold exactly the settled gates. */
  lemma {:induction false} SettledMembers(all: seq<GateResult>, results: seq<GateResult>, k: nat)
    requires k <= |Order(all)|
    ensures forall r :: r in Settled(all, results, k) ==>
            IsSettled(all, results, r.gateId, r) && r.gateId in Order(all)[..k]
    ensures forall g :: g in Order(all)[..k] && LastSeen(results, g).Some?
              ==> Rebase(all, LastSeen(results, g).value) in Settled(all, results, k)
  {
    if k > 0 {
      SettledMembers(all, results, k - 1);
      assert Order(all)[..k] == Order(all)[..k - 1] + [Order(all)[k - 1]];
    }
  }

  predicate Precede(all: seq<GateResult>, ids: seq<string>, g: string) {
    forall i :: 0 <= i < |ids| ==> ids[i] != g && GateCodec.Canonical(all)(ids[i], g)
  }

  lemma SettledBefore(all: seq<GateResult>, results: seq<GateResult>, k: nat)
    requires k < |Order(all)|
    ensures Precede(all, GateIds(Settled(all, results, k)), Order(all)[k])
  {
    var before, g := Settled(all, results, k), Order(all)[k];
    SettledMembers(all, results, k);
    OrderIsStrict(all);
    forall i | 0 <= i < |before| ensures before[i].gateId != g && GateCodec.Canonical(all)(before[i].gateId, g) {
      assert before[i] in before;
      var m :| 0 <= m < k && Order(all)[m] == before[i].gateId;
    }
  }

  lemma IdOfSettled(all: seq<GateResult>, results: seq<GateResult>, k: nat)
    requires 0 < k <= |Order(all)|
    ensures var before, ids := GateIds(Settled(all, results, k - 1)), GateIds(Settled(all, results, k));
            ids == before || ids == before + [Order(all)[k - 1]]
  {
  }

  /** Each once, in strict canonical order. */
  lemma {:induction false} SettledInOrder(all: seq<GateResult>, results: seq<GateResult>, k: nat)
    requires k <= |Order(all)|
    ensures StrictlyOrdered(all, GateIds(Settled(all, results, k)))
  {
    if k > 0 {
      SettledInOrder(all, results, k - 1);
      SettledBefore(all, results, k - 1);
      IdOfSettled(all, results, k);
      AppendStrict(all, GateIds(Settled(all, results, k - 1)), Order(all)[k - 1]);
    }
  }

  lemma AppendStrict(all: seq<GateResult>, ids: seq<string>, g: string)
    requires StrictlyOrdered(all, ids)
    requires Precede(all, ids, g)
    ensures StrictlyOrdered(all, ids + [g])
  {
  }

  function RebaseAll(all: seq<GateResult>, results: seq<GateResult>): seq<GateResult> {
    seq(|results|, i requires 0 <= i < |results| => Rebase(all, results[i]))
  }

  lemma SettledAreRebased(all: seq<GateResult>, results: seq<GateResult>)
    requires WellFormed(results) && forall r :: r in results ==> r in all
    ensures forall r :: r in Settled(all, results, |Order(all)|) <==> r in RebaseAll(all, results)
  {
    var out, want := Settled(all, results, |Order(all)|), RebaseAll(all, results);
    SettledMembers(all, results, |Order(all)|);
    assert Order(all)[..|Order(all)|] == Order(all);
    OrderIsStrict(all);
    forall r | r in out ensures r in want {
      IdsAreSeen(results, r.gateId);
      var i :| 0 <= i < |results| && results[i] == LastSeen(results, r.gateId).value;
      assert want[i] == r;
    }
    forall r | r in want ensures r in out {
      var i :| 0 <= i < |want| && want[i] == r;
      OnlyOne(results, results[i]);
      IdsAreSeen(all, results[i].gateId);
      assert results[i].gateId in Order(all);
    }
  }

  /** A candidate's results come back as a permutation of themselves, in (level, id)
      order, with verdict, value and threshold intact, no gate added and none lost. */
  lemma DecodedIsPermutation(all: seq<GateResult>, results: seq<GateResult>)
    requires WellFormed(results) && forall r :: r in results ==> r in all
    ensures multiset(Settled(all, results, |Order(all)|)) == multiset(RebaseAll(all, results))
  {
    var out, want := Settled(all, results, |Order(all)|), RebaseAll(all, results);
    SettledAreRebased(all, results);
    SettledInOrder(all, results, |Order(all)|);
    forall i, j | 0 <= i < j < |out| ensures out[i] != out[j] {
      assert GateIds(out)[i] != GateIds(out)[j];
    }
    forall i, j | 0 <= i < j < |want| ensures want[i] != want[j] {
      assert want[i].gateId == results[i].gateId && want[j].gateId == results[j].gateId;
    }
    SameMembersSameBag(out, want);
  }

  /** The whole run at once, for candidates that carry each gate at most once. */
  lemma CodecRoundTrip(cs: seq<Candidate>, i: nat)
    requires i < |cs| && WellFormed(cs[i].results)
    ensures var all, back := AllNamed(cs), Decode(Encode(cs));
            && |back| == |cs| && back[i].symbol == cs[i].symbol && back[i].admitted == cs[i].admitted
            && multiset(back[i].results) == multiset(RebaseAll(all, cs[i].results))
            && StrictlyOrdered(all, GateIds(back[i].results))
  {
    var all := AllNamed(cs);
    RoundTrip(cs);
    AllNamedMembers(cs);
    DecodedIsPermutation(all, cs[i].results);
    SettledInOrder(all, cs[i].results, |Order(all)|);
  }

  /** The first result seen of its gate describes the gate as this one does. */
  predicate Uniform(all: seq<GateResult>, r: GateResult) {
    var first := FirstSeen(all, r.gateId);
    && first.Some? && r.level == first.value.level && r.authority == first.value.authority
    && r.labelText == LabelOr(first.value.labelText, r.gateId) && r.direction == first.value.direction
  }

  lemma UniformIsRebased(all: seq<GateResult>, r: GateResult)
    requires r in all
    ensures Uniform(all, r) <==> r == Rebase(all, r)
  {
    IdsAreSeen(all, r.gateId);
  }

  /** Rebasing keeps ids, so a list that is a permutation of its rebased self is that self. */
  lemma RebasedInPlace(all: seq<GateResult>, results: seq<GateResult>, r: GateResult)
    requires WellFormed(results) && r in results && multiset(RebaseAll(all, results)) == multiset(results)
    ensures r == Rebase(all, r)
  {
    var want := RebaseAll(all, results);
    SameBagSameMembers(want, results);
    var i :| 0 <= i < |want| && want[i] == r;
    OnlyOne(results, results[i]);
    OnlyOne(results, r);
  }

  /** The trip is lossless for a candidate exactly when the manifest already tells the
      truth about each of its gates: same level, authority, label and direction as the
      result first seen in the run. */
  lemma LosslessExactlyWhenUniform(all: seq<GateResult>, results: seq<GateResult>)
    requires WellFormed(results) && forall r :: r in results ==> r in all
    ensures multiset(Settled(all, results, |Order(all)|)) == multiset(results)
            <==> forall r :: r in results ==> Uniform(all, r)
  {
    DecodedIsPermutation(all, results);
    forall r | r in results ensures Uniform(all, r) <==> r == Rebase(all, r) {
      UniformIsRebased(all, r);
    }
    if multiset(RebaseAll(all, results)) == multiset(results) {
      forall r | r in results ensures r == Rebase(all, r) {
        RebasedInPlace(all, results, r);
      }
    }
    if forall r :: r in results ==> r == Rebase(all, r) {
      assert RebaseAll(all, results) == results;
    }
  }

  /** The verdict written beside a row is the one its decoded results give, as long as
      each gate keeps one authority across the run. */
  lemma AdmissionSurvives(all: seq<GateResult>, results: seq<GateResult>)
    requires WellFormed(results) && forall r :: r in results ==> r in all
    requires forall r :: r in results ==> Rebase(all, r).authority == r.authority
    ensures Admitted(Settled(all, results, |Order(all)|)) == Admitted(results)
  {
    var out, want := Settled(all, results, |Order(all)|), RebaseAll(all, results);
    DecodedIsPermutation(all, results);
    SameBagSameMembers(out, want);
    forall r | r in results ensures Rebase(all, r) in out && Rebase(all, r).passed == r.passed {
      var i :| 0 <= i < |results| && results[i] == r;
      assert want[i] in want;
    }
    forall d | d in out ensures exists r :: r in results && d == Rebase(all, r) {
      var i :| 0 <= i < |want| && want[i] == d;
      assert results[i] in results;
    }
  }
}
