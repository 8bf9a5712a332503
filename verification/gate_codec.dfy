/** backend/gate_telemetry.py: gate results, admission, and the codec that hoists what
    repeats across a run into a manifest and leaves each candidate a positional row. */
module GateCodec {
  import opened Bags
  import opened Common
  import opened Sorting
  import opened Strings

  datatype Authority = Veto | Rank | Shadow | OtherAuthority(name: string)

  /** A stored scalar; Null is Python's None. */
  datatype Json = Null | Number(number: real) | Text(text: string) | Flag(flag: bool)

  datatype GateResult = GateResult(
    gateId: string, level: Option<real>, authority: Authority, labelText: string, passed: Option<bool>,
    value: Json, threshold: Json, direction: Option<string>)

  datatype Candidate = Candidate(symbol: string, admitted: bool, results: seq<GateResult>)

  /** Every evaluated veto passed, and there was one. */
  predicate Admitted(results: seq<GateResult>) {
    && (exists r :: r in results && r.authority == Veto)
    && (forall r :: r in results && r.authority == Veto ==> r.passed == Some(true))
  }

  // ---- The stored form ---------------------------------------------------------

  datatype Gate = Gate(
    gateId: string, level: Option<real>, authority: Authority, labelText: string, direction: Option<string>,
    threshold: Json, thresholdVaries: bool)

  /** [passed, value] or [passed, value, threshold]. */
  datatype Cell = Cell(passed: Option<bool>, value: Json, own: Option<Json>)

  datatype Row = Row(symbol: string, admitted: bool, cells: seq<Option<Cell>>)

  /** Schema 1 stores the results inline; schema 2 packs them. */
  datatype Run = Inline(candidates: seq<Candidate>) | Packed(gates: seq<Gate>, rows: seq<Row>)

  // ---- What a run says about each gate -----------------------------------------

  /** Results without a gate id are skipped. */
  function Named(results: seq<GateResult>): seq<GateResult> {
    if results == [] then []
    else
      var last := results[|results| - 1];
      Named(results[..|results| - 1]) + (if last.gateId != "" then [last] else [])
  }

  function AllNamed(cs: seq<Candidate>): seq<GateResult> {
    if cs == [] then [] else AllNamed(cs[..|cs| - 1]) + Named(cs[|cs| - 1].results)
  }

  function FirstSeen(all: seq<GateResult>, gid: string): (r: Option<GateResult>)
    ensures r.Some? ==> r.value.gateId == gid
  {
    if all == [] then None
    else
      var before := FirstSeen(all[..|all| - 1], gid);
      if before.Some? then before
      else if all[|all| - 1].gateId == gid then Some(all[|all| - 1]) else None
  }

  function LastSeen(all: seq<GateResult>, gid: string): (r: Option<GateResult>)
    ensures r.Some? ==> r.value.gateId == gid
  {
    if all == [] then None
    else if all[|all| - 1].gateId == gid then Some(all[|all| - 1])
    else LastSeen(all[..|all| - 1], gid)
  }

  /** The gate ids in the order they are first met. */
  function Ids(all: seq<GateResult>): seq<string> {
    if all == [] then []
    else
      var before := Ids(all[..|all| - 1]);
      var gid := all[|all| - 1].gateId;
      if gid in before then before else before + [gid]
  }

  function ThresholdsOf(all: seq<GateResult>, gid: string): seq<Json> {
    if all == [] then []
    else
      var last := all[|all| - 1];
      ThresholdsOf(all[..|all| - 1], gid) + (if last.gateId == gid then [last.threshold] else [])
  }

  function LevelKey(level: Option<real>): real {
    level.GetOr(99.0)
  }

  function KeyOf(all: seq<GateResult>, gid: string): real {
    var first := FirstSeen(all, gid);
    if first.Some? then LevelKey(first.value.level) else 99.0
  }

  /** Canonical order: by level, then by gate id. */
  function Canonical(all: seq<GateResult>): (string, string) -> bool {
    (a: string, b: string) => KeyOf(all, a) < KeyOf(all, b) || (KeyOf(all, a) == KeyOf(all, b) && Le(a, b))
  }

  function Order(all: seq<GateResult>): seq<string> {
    Sort(Ids(all), Canonical(all))
  }

  predicate Constant(vals: seq<Json>) {
    forall v :: v in vals ==> v == vals[0]
  }

  predicate Varies(all: seq<GateResult>, gid: string) {
    !Constant(ThresholdsOf(all, gid))
  }

  function LabelOr(labelText: string, gid: string): string {
    if labelText != "" then labelText else gid
  }

  function GateFor(all: seq<GateResult>, gid: string): Gate
    requires FirstSeen(all, gid).Some?
  {
    var first := FirstSeen(all, gid).value;
    Gate(gid, first.level, first.authority, LabelOr(first.labelText, gid), first.direction,
         if Varies(all, gid) then Null else first.threshold, Varies(all, gid))
  }

  function CellOf(r: GateResult, varies: bool): Cell {
    Cell(r.passed, r.value, if varies then Some(r.threshold) else None)
  }

  function CellFor(all: seq<GateResult>, results: seq<GateResult>, gid: string): Option<Cell> {
    var last := LastSeen(results, gid);
    if last.Some? then Some(CellOf(last.value, Varies(all, gid))) else None
  }

  function CellsFor(all: seq<GateResult>, results: seq<GateResult>, order: seq<string>): seq<Option<Cell>> {
    seq(|order|, k requires 0 <= k < |order| => CellFor(all, results, order[k]))
  }

  lemma {:induction false} IdsAreSeen(all: seq<GateResult>, gid: string)
    ensures gid in Ids(all) <==> FirstSeen(all, gid).Some?
    ensures gid in Ids(all) <==> exists r :: r in all && r.gateId == gid
    ensures gid in Ids(all) <==> LastSeen(all, gid).Some?
    ensures LastSeen(all, gid).Some? ==> LastSeen(all, gid).value in all
  {
    if all != [] {
      IdsAreSeen(all[..|all| - 1], gid);
      assert all == all[..|all| - 1] + [all[|all| - 1]];
    }
  }

  lemma {:induction false} IdsAreDistinct(all: seq<GateResult>)
    ensures forall i, j :: 0 <= i < j < |Ids(all)| ==> Ids(all)[i] != Ids(all)[j]
  {
    if all != [] { IdsAreDistinct(all[..|all| - 1]); }
  }

  lemma CanonicalIsAnOrder(all: seq<GateResult>)
    ensures TotalPreorder(Canonical(all))
  {
    forall a, b ensures Canonical(all)(a, b) || Canonical(all)(b, a) {
      LeTotal(a, b);
    }
    forall a, b, c | Canonical(all)(a, b) && Canonical(all)(b, c) ensures Canonical(all)(a, c) {
      if Le(a, b) && Le(b, c) { LeTransitive(a, b, c); }
    }
  }

  /** Each gate once, strictly ascending by level and then by id. */
  predicate StrictlyOrdered(all: seq<GateResult>, ids: seq<string>) {
    forall i, j :: 0 <= i < j < |ids| ==>
      && ids[i] != ids[j]
      && (KeyOf(all, ids[i]) < KeyOf(all, ids[j]) || (KeyOf(all, ids[i]) == KeyOf(all, ids[j]) && Le(ids[i], ids[j])))
  }

  lemma OrderIsStrict(all: seq<GateResult>)
    ensures StrictlyOrdered(all, Order(all))
    ensures forall g :: g in Order(all) <==> g in Ids(all)
    ensures |Order(all)| == |Ids(all)|
  {
    CanonicalIsAnOrder(all);
    SortSorted(Ids(all), Canonical(all));
    SortBag(Ids(all), Canonical(all));
    IdsAreDistinct(all);
    SameBagSameMembers(Order(all), Ids(all));
    DistinctBag(Ids(all));
    BagDistinct(Order(all));
    forall i, j | 0 <= i < j < |Order(all)|
      ensures Canonical(all)(Order(all)[i], Order(all)[j]) && Order(all)[i] != Order(all)[j]
    {
    }
  }

  // ---- The encoder -------------------------------------------------------------

  function EncodedGates(all: seq<GateResult>): (gates: seq<Gate>)
    ensures |gates| == |Order(all)|
  {
    OrderIsStrict(all);
    seq(|Order(all)|, k requires 0 <= k < |Order(all)| =>
      (IdsAreSeen(all, Order(all)[k]); GateFor(all, Order(all)[k])))
  }

  function EncodedRow(all: seq<GateResult>, c: Candidate): Row {
    Row(c.symbol, c.admitted, CellsFor(all, c.results, Order(all)))
  }

  function Encode(cs: seq<Candidate>): Run {
    var all := AllNamed(cs);
    Packed(EncodedGates(all), EncodedRows(all, cs))
  }

  function EncodedRows(all: seq<GateResult>, cs: seq<Candidate>): (rows: seq<Row>)
    ensures |rows| == |cs|
  {
    seq(|cs|, i requires 0 <= i < |cs| => EncodedRow(all, cs[i]))
  }

  /** What the first loop's dictionaries hold. */
  ghost predicate Gathered(
      all: seq<GateResult>, ids: seq<string>, meta: map<string, GateResult>, thresholds: map<string, seq<Json>>)
  {
    && ids == Ids(all)
    && (forall g :: g in meta <==> g in ids) && (forall g :: g in thresholds <==> g in ids)
    && (forall g :: g in meta ==> FirstSeen(all, g) == Some(meta[g]))
    && (forall g :: g in thresholds ==> thresholds[g] == ThresholdsOf(all, g))
  }

  /** setdefault(id, []).append(threshold) */
  function Filed(thresholds: map<string, seq<Json>>, r: GateResult): map<string, seq<Json>> {
    thresholds[r.gateId := (if r.gateId in thresholds then thresholds[r.gateId] else []) + [r.threshold]]
  }

  lemma SnocSeen(all: seq<GateResult>, r: GateResult, g: string)
    ensures FirstSeen(all + [r], g) == if FirstSeen(all, g).None? && r.gateId == g then Some(r) else FirstSeen(all, g)
    ensures ThresholdsOf(all + [r], g)
            == if r.gateId == g then ThresholdsOf(all, g) + [r.threshold] else ThresholdsOf(all, g)
    ensures Ids(all + [r]) == if r.gateId in Ids(all) then Ids(all) else Ids(all) + [r.gateId]
  {
    assert (all + [r])[..|all|] == all;
    assert ThresholdsOf(all, g) + [] == ThresholdsOf(all, g);
  }

  lemma GatherMeta(
      all: seq<GateResult>, ids: seq<string>, meta: map<string, GateResult>, thresholds: map<string, seq<Json>>,
      r: GateResult)
    requires Gathered(all, ids, meta, thresholds)
    ensures var ids' := if r.gateId in meta then ids else ids + [r.gateId];
            var meta' := if r.gateId in meta then meta else meta[r.gateId := r];
            && ids' == Ids(all + [r])
            && (forall g :: g in meta' <==> g in ids')
            && (forall g :: g in meta' ==> FirstSeen(all + [r], g) == Some(meta'[g]))
  {
    SnocSeen(all, r, r.gateId);
    IdsAreSeen(all, r.gateId);
    forall g | g in meta || g == r.gateId
      ensures FirstSeen(all + [r], g) == Some(if g in meta then meta[g] else r)
    {
      SnocSeen(all, r, g);
    }
  }

  lemma GatherThresholds(
      all: seq<GateResult>, ids: seq<string>, meta: map<string, GateResult>, thresholds: map<string, seq<Json>>,
      r: GateResult)
    requires Gathered(all, ids, meta, thresholds)
    ensures var thresholds' := Filed(thresholds, r);
            && (forall g :: g in thresholds' <==> g in Ids(all + [r]))
            && (forall g :: g in thresholds' ==> thresholds'[g] == ThresholdsOf(all + [r], g))
  {
    SnocSeen(all, r, r.gateId);
    if r.gateId !in thresholds { UnseenThresholds(all, r.gateId); }
    forall g | g in thresholds
      ensures ThresholdsOf(all + [r], g) == if g == r.gateId then thresholds[g] + [r.threshold] else thresholds[g]
    {
      SnocSeen(all, r, g);
    }
  }

  lemma GatherStep(
      all: seq<GateResult>, ids: seq<string>, meta: map<string, GateResult>, thresholds: map<string, seq<Json>>,
      r: GateResult)
    requires Gathered(all, ids, meta, thresholds)
    ensures Gathered(all + [r],
                     if r.gateId in meta then ids else ids + [r.gateId],
                     if r.gateId in meta then meta else meta[r.gateId := r],
                     Filed(thresholds, r))
  {
    GatherMeta(all, ids, meta, thresholds, r);
    GatherThresholds(all, ids, meta, thresholds, r);
  }

  lemma {:induction false} UnseenThresholds(all: seq<GateResult>, gid: string)
    requires gid !in Ids(all)
    ensures ThresholdsOf(all, gid) == []
  {
    if all != [] { UnseenThresholds(all[..|all| - 1], gid); }
  }

  lemma NamedStep(results: seq<GateResult>, j: nat)
    requires j < |results|
    ensures Named(results[..j + 1]) == Named(results[..j]) + (if results[j].gateId != "" then [results[j]] else [])
  {
    assert results[..j + 1][..j] == results[..j];
  }

  /** One candidate's results, added to what earlier ones gave. */
  method GatherResults(ghost before: seq<GateResult>, results: seq<GateResult>, ids0: seq<string>,
                       meta0: map<string, GateResult>, thresholds0: map<string, seq<Json>>)
    returns (ids: seq<string>, meta: map<string, GateResult>, thresholds: map<string, seq<Json>>)
    requires Gathered(before, ids0, meta0, thresholds0)
    ensures Gathered(before + Named(results), ids, meta, thresholds)
  {
    ids, meta, thresholds := ids0, meta0, thresholds0;
    ghost var all := before;
    NoneNamed(before, results);
    for j := 0 to |results|
      invariant all == before + Named(results[..j]) && Gathered(all, ids, meta, thresholds)
    {
      var r := results[j];
      NamedOne(before, results, j);
      if r.gateId != "" {
        GatherStep(all, ids, meta, thresholds, r);
        thresholds := Filed(thresholds, r);
        if r.gateId !in meta {
          ids, meta := ids + [r.gateId], meta[r.gateId := r];
        }
        all := all + [r];
      }
    }
    TakeAll(results);
  }

  lemma NoneNamed(before: seq<GateResult>, results: seq<GateResult>)
    ensures before + Named(results[..0]) == before
  {
  }

  lemma NamedOne(before: seq<GateResult>, results: seq<GateResult>, j: nat)
    requires j < |results|
    ensures before + Named(results[..j + 1])
            == if results[j].gateId != "" then before + Named(results[..j]) + [results[j]]
               else before + Named(results[..j])
  {
    NamedStep(results, j);
    assert before + (Named(results[..j]) + [results[j]]) == before + Named(results[..j]) + [results[j]];
    assert Named(results[..j]) + [] == Named(results[..j]);
  }

  lemma AllNamedStep(cs: seq<Candidate>, i: nat)
    requires i < |cs|
    ensures AllNamed(cs[..i + 1]) == AllNamed(cs[..i]) + Named(cs[i].results)
  {
    assert cs[..i + 1][..i] == cs[..i];
  }

  method Gather(cs: seq<Candidate>)
    returns (ids: seq<string>, meta: map<string, GateResult>, thresholds: map<string, seq<Json>>)
    ensures Gathered(AllNamed(cs), ids, meta, thresholds)
  {
    ids, meta, thresholds := [], map[], map[];
    ghost var all: seq<GateResult> := [];
    for i := 0 to |cs|
      invariant all == AllNamed(cs[..i]) && Gathered(all, ids, meta, thresholds)
    {
      AllNamedStep(cs, i);
      ids, meta, thresholds := GatherResults(all, cs[i].results, ids, meta, thresholds);
      all := all + Named(cs[i].results);
    }
    TakeAll(cs);
  }

  /** One candidate's positional row, filled cell by cell. */
  method FillCells(ghost all: seq<GateResult>, results: seq<GateResult>, order: seq<string>,
                   idx: map<string, nat>, varies: map<string, bool>) returns (cells: seq<Option<Cell>>)
    requires forall g :: g in idx <==> g in order
    requires forall g :: g in idx ==> idx[g] < |order| && order[idx[g]] == g
    requires Distinct(order) && VariesMatch(all, order, |order|, varies)
    ensures cells == CellsFor(all, results, order)
  {
    cells := seq(|order|, _ => None);
    for j := 0 to |results|
      invariant |cells| == |order|
      invariant forall k :: 0 <= k < |order| ==> cells[k] == CellFor(all, results[..j], order[k])
    {
      var r := results[j];
      assert results[..j + 1][..j] == results[..j];
      if r.gateId in idx {
        cells := cells[idx[r.gateId] := Some(CellOf(r, varies[r.gateId]))];
      }
    }
    TakeAll(results);
  }

  ghost predicate GatesMatch(all: seq<GateResult>, order: seq<string>, gates: seq<Gate>) {
    |gates| <= |order| &&
    forall i :: 0 <= i < |gates| ==> FirstSeen(all, order[i]).Some? && gates[i] == GateFor(all, order[i])
  }

  lemma MatchedGates(all: seq<GateResult>, gates: seq<Gate>)
    requires GatesMatch(all, Order(all), gates) && |gates| == |Order(all)|
    ensures gates == EncodedGates(all)
  {
  }

  method BuildGate(ghost all: seq<GateResult>, gid: string, first: GateResult, thresholds: seq<Json>) returns (g: Gate)
    requires gid in Order(all) && FirstSeen(all, gid) == Some(first) && thresholds == ThresholdsOf(all, gid)
    ensures g == GateFor(all, gid)
  {
    FirstThresholdOfOrdered(all, gid);
    var constant := Constant(thresholds);
    g := Gate(gid, first.level, first.authority, LabelOr(first.labelText, gid), first.direction,
              if constant then thresholds[0] else Null, !constant);
  }

  lemma GatesStep(all: seq<GateResult>, order: seq<string>, gates: seq<Gate>, g: Gate)
    requires GatesMatch(all, order, gates) && |gates| < |order|
    requires FirstSeen(all, order[|gates|]).Some? && g == GateFor(all, order[|gates|])
    ensures GatesMatch(all, order, gates + [g])
  {
  }

  ghost predicate VariesMatch(all: seq<GateResult>, order: seq<string>, k: nat, varies: map<string, bool>) {
    k <= |order| && forall i :: 0 <= i < k ==> order[i] in varies && varies[order[i]] == Varies(all, order[i])
  }

  lemma VariesStep(all: seq<GateResult>, order: seq<string>, k: nat, varies: map<string, bool>, varying: bool)
    requires k < |order| && VariesMatch(all, order, k, varies) && varying == Varies(all, order[k])
    ensures VariesMatch(all, order, k + 1, varies[order[k] := varying])
  {
  }

  lemma LookedUp(all: seq<GateResult>, meta: map<string, GateResult>, thresholds: map<string, seq<Json>>, gid: string)
    requires Gathered(all, Ids(all), meta, thresholds) && gid in Order(all)
    ensures gid in meta && FirstSeen(all, gid) == Some(meta[gid])
    ensures gid in thresholds && thresholds[gid] == ThresholdsOf(all, gid)
  {
    OrderIsStrict(all);
  }

  /** The manifest, one gate at a time in canonical order. */
  method BuildGates(
      ghost all: seq<GateResult>, order: seq<string>, meta: map<string, GateResult>, thresholds: map<string, seq<Json>>)
    returns (gates: seq<Gate>, varies: map<string, bool>)
    requires order == Order(all) && Gathered(all, Ids(all), meta, thresholds)
    ensures gates == EncodedGates(all) && VariesMatch(all, order, |order|, varies)
  {
    gates, varies := [], map[];
    for k := 0 to |order|
      invariant |gates| == k && GatesMatch(all, order, gates) && VariesMatch(all, order, k, varies)
    {
      var gid := order[k];
      LookedUp(all, meta, thresholds, gid);
      var g := BuildGate(all, gid, meta[gid], thresholds[gid]);
      GatesStep(all, order, gates, g);
      VariesStep(all, order, k, varies, g.thresholdVaries);
      varies := varies[gid := g.thresholdVaries];
      gates := gates + [g];
    }
    MatchedGates(all, gates);
  }

  method IndexOf(order: seq<string>) returns (idx: map<string, nat>)
    requires Distinct(order)
    ensures forall g :: g in idx <==> g in order
    ensures forall g :: g in idx ==> idx[g] < |order| && order[idx[g]] == g
  {
    idx := map[];
    for k := 0 to |order|
      invariant forall i :: 0 <= i < k ==> order[i] in idx
      invariant forall g :: g in idx ==> idx[g] < k && order[idx[g]] == g
    {
      idx := idx[order[k] := k];
    }
  }

  method FillRows(ghost all: seq<GateResult>, cs: seq<Candidate>, order: seq<string>, idx: map<string, nat>,
                  varies: map<string, bool>) returns (rows: seq<Row>)
    requires order == Order(all) && Distinct(order) && VariesMatch(all, order, |order|, varies)
    requires forall g :: g in idx <==> g in order
    requires forall g :: g in idx ==> idx[g] < |order| && order[idx[g]] == g
    ensures rows == EncodedRows(all, cs)
  {
    rows := [];
    ghost var spec := EncodedRows(all, cs);
    for i := 0 to |cs|
      invariant |rows| == i && rows == spec[..i]
    {
      var cells := FillCells(all, cs[i].results, order, idx, varies);
      assert spec[i] == EncodedRow(all, cs[i]);
      rows := rows + [Row(cs[i].symbol, cs[i].admitted, cells)];
    }
  }

  method EncodeRun(cs: seq<Candidate>) returns (gates: seq<Gate>, rows: seq<Row>)
    ensures Packed(gates, rows) == Encode(cs)
  {
    ghost var all := AllNamed(cs);
    var ids, meta, thresholds := Gather(cs);
    var order := SortedIds(all, ids, meta);
    OrderIsStrict(all);
    var varies;
    gates, varies := BuildGates(all, order, meta, thresholds);
    var idx := IndexOf(order);
    rows := FillRows(all, cs, order, idx, varies);
  }

  /** `sorted` by the level on record and then by id. */
  method SortedIds(ghost all: seq<GateResult>, ids: seq<string>, meta: map<string, GateResult>)
    returns (order: seq<string>)
    requires ids == Ids(all) && (forall g :: g in meta <==> g in ids)
    requires forall g :: g in meta ==> FirstSeen(all, g) == Some(meta[g])
    ensures order == Order(all)
  {
    var key: string -> real := (g: string) => if g in meta then LevelKey(meta[g].level) else 99.0;
    var le: (string, string) -> bool := (a: string, b: string) => key(a) < key(b) || (key(a) == key(b) && Le(a, b));
    forall g ensures key(g) == KeyOf(all, g) {
      IdsAreSeen(all, g);
    }
    order := Sort(ids, le);
    SortAgrees(ids, le, Canonical(all));
  }

  lemma {:induction false} FirstThreshold(all: seq<GateResult>, gid: string)
    requires FirstSeen(all, gid).Some?
    ensures ThresholdsOf(all, gid) != [] && ThresholdsOf(all, gid)[0] == FirstSeen(all, gid).value.threshold
  {
    var front := all[..|all| - 1];
    if FirstSeen(front, gid).Some? {
      FirstThreshold(front, gid);
    } else {
      IdsAreSeen(front, gid);
      UnseenThresholds(front, gid);
    }
  }

  lemma FirstThresholdOfOrdered(all: seq<GateResult>, gid: string)
    requires gid in Order(all)
    ensures FirstSeen(all, gid).Some? && ThresholdsOf(all, gid) != []
    ensures ThresholdsOf(all, gid)[0] == FirstSeen(all, gid).value.threshold
  {
    OrderIsStrict(all);
    IdsAreSeen(all, gid);
    FirstThreshold(all, gid);
  }

  // ---- The decoder -------------------------------------------------------------

  function DecodeCell(g: Gate, cell: Cell): GateResult {
    GateResult(g.gateId, g.level, g.authority, LabelOr(g.labelText, g.gateId), cell.passed, cell.value,
               if cell.own.Some? then cell.own.value else g.threshold, g.direction)
  }

  /** The results in the first k columns; a missing or null cell is an absent gate. */
  function DecodeCells(gates: seq<Gate>, cells: seq<Option<Cell>>, k: nat): seq<GateResult>
    requires k <= |gates|
  {
    if k == 0 then []
    else DecodeCells(gates, cells, k - 1)
         + (if k - 1 < |cells| && cells[k - 1].Some? then [DecodeCell(gates[k - 1], cells[k - 1].value)] else [])
  }

  function DecodeRow(gates: seq<Gate>, row: Row): Candidate {
    Candidate(row.symbol, row.admitted, DecodeCells(gates, row.cells, |gates|))
  }

  function Decode(run: Run): seq<Candidate> {
    match run
    case Inline(cs) => cs
    case Packed(gates, rows) => seq(|rows|, i requires 0 <= i < |rows| => DecodeRow(gates, rows[i]))
  }

  method DecodedCandidates(run: Run) returns (out: seq<Candidate>)
    ensures out == Decode(run)
  {
    if run.Inline? {
      return run.candidates;
    }
    out := [];
    for c := 0 to |run.rows|
      invariant |out| == c && forall k :: 0 <= k < c ==> out[k] == DecodeRow(run.gates, run.rows[k])
    {
      var cells := run.rows[c].cells;
      var results := [];
      for i := 0 to |run.gates|
        invariant results == DecodeCells(run.gates, cells, i)
      {
        var cell := if i < |cells| then cells[i] else None;
        if cell.Some? {
          results := results + [DecodeCell(run.gates[i], cell.value)];
        }
      }
      out := out + [Candidate(run.rows[c].symbol, run.rows[c].admitted, results)];
    }
  }
}
