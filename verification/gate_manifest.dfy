/** What a packed run says, in terms of the candidates it was packed from. */
module GateManifest {
  import opened Bags
  import opened Common
  import opened GateCodec
  import opened GateRoundTrip
  import opened Strings

  /** Result p of candidate c is of gate g, which has an id. */
  predicate Carries(cs: seq<Candidate>, c: int, p: int, g: string) {
    0 <= c < |cs| && 0 <= p < |cs[c].results| && cs[c].results[p].gateId == g && g != ""
  }

  /** No result of the gate is met earlier. */
  ghost predicate Earliest(cs: seq<Candidate>, c: int, p: int, g: string) {
    && Carries(cs, c, p, g)
    && forall d, q :: Carries(cs, d, q, g) ==> c < d || (c == d && p <= q)
  }

  /** Two results of the gate differ in threshold. */
  ghost predicate Differ(cs: seq<Candidate>, g: string) {
    exists c, p, d, q ::
      && Carries(cs, c, p, g) && Carries(cs, d, q, g)
      && cs[c].results[p].threshold != cs[d].results[q].threshold
  }

  // ---- The first and the last result of a gate ---------------------------------

  lemma {:induction false} FirstIn(rs: seq<GateResult>, g: string) returns (p: int)
    requires exists r :: r in rs && r.gateId == g
    ensures 0 <= p < |rs| && rs[p].gateId == g && FirstSeen(rs, g) == Some(rs[p])
    ensures forall q :: 0 <= q < p ==> rs[q].gateId != g
  {
    var front := rs[..|rs| - 1];
    FrontLast(rs);
    IdsAreSeen(front, g);
    if exists r :: r in front && r.gateId == g {
      p := FirstIn(front, g);
    } else {
      p := |front|;
    }
  }

  lemma {:induction false} LastIn(rs: seq<GateResult>, g: string) returns (p: int)
    requires exists r :: r in rs && r.gateId == g
    ensures 0 <= p < |rs| && rs[p].gateId == g && LastSeen(rs, g) == Some(rs[p])
    ensures forall q :: p < q < |rs| ==> rs[q].gateId != g
  {
    var front := rs[..|rs| - 1];
    FrontLast(rs);
    if rs[|rs| - 1].gateId == g {
      p := |rs| - 1;
    } else {
      p := LastIn(front, g);
    }
  }

  lemma {:induction false} FirstSeenJoin(a: seq<GateResult>, b: seq<GateResult>, g: string)
    ensures FirstSeen(a + b, g) == if FirstSeen(a, g).Some? then FirstSeen(a, g) else FirstSeen(b, g)
  {
    if b == [] {
      assert a + b == a;
    } else {
      FirstSeenJoin(a, b[..|b| - 1], g);
      assert (a + b)[..|a + b| - 1] == a + b[..|b| - 1];
    }
  }

  lemma {:induction false} FirstSeenNamed(rs: seq<GateResult>, g: string)
    requires g != ""
    ensures FirstSeen(Named(rs), g) == FirstSeen(rs, g)
  {
    if rs != [] {
      var front, last := rs[..|rs| - 1], rs[|rs| - 1];
      FirstSeenNamed(front, g);
      FirstSeenJoin(Named(front), [last], g);
      assert Named(front) + [] == Named(front);
    }
  }

  /** What the run's dictionary holds for a gate is the result first met. */
  lemma {:induction false} FirstOfRun(cs: seq<Candidate>, g: string) returns (c: int, p: int)
    requires g != "" && FirstSeen(AllNamed(cs), g).Some?
    ensures Earliest(cs, c, p, g) && FirstSeen(AllNamed(cs), g) == Some(cs[c].results[p])
  {
    var front, last := cs[..|cs| - 1], cs[|cs| - 1];
    FirstSeenJoin(AllNamed(front), Named(last.results), g);
    FirstSeenNamed(last.results, g);
    if FirstSeen(AllNamed(front), g).Some? {
      c, p := FirstOfRun(front, g);
      assert forall d, q :: Carries(cs, d, q, g) && d < |front| ==> Carries(front, d, q, g);
    } else {
      IdsAreSeen(last.results, g);
      p := FirstIn(last.results, g);
      c := |front|;
      forall d, q | Carries(cs, d, q, g) ensures d == c && p <= q {
        if d < c { NoneBefore(front, d, q, g); }
      }
    }
  }

  lemma NoneBefore(cs: seq<Candidate>, c: int, p: int, g: string)
    requires Carries(cs, c, p, g)
    ensures FirstSeen(AllNamed(cs), g).Some?
  {
    AllNamedMembers(cs);
    assert cs[c].results[p] in AllNamed(cs);
    IdsAreSeen(AllNamed(cs), g);
  }

  lemma {:induction false} GatheredAt(cs: seq<Candidate>, r: GateResult) returns (c: int, p: int)
    requires r in AllNamed(cs)
    ensures Carries(cs, c, p, r.gateId) && cs[c].results[p] == r
  {
    var front, last := cs[..|cs| - 1], cs[|cs| - 1];
    if r in AllNamed(front) {
      c, p := GatheredAt(front, r);
    } else {
      NamedMembers(last.results);
      c := |front|;
      p :| 0 <= p < |last.results| && last.results[p] == r;
    }
  }

  // ---- Thresholds --------------------------------------------------------------

  lemma {:induction false} ThresholdsHave(all: seq<GateResult>, g: string, v: Json)
    ensures v in ThresholdsOf(all, g) <==> exists r :: r in all && r.gateId == g && r.threshold == v
  {
    if all != [] {
      FrontLast(all);
      ThresholdsHave(all[..|all| - 1], g, v);
    }
  }

  /** The manifest leaves a threshold to the rows exactly when the run does not agree on it. */
  lemma VariesMeans(cs: seq<Candidate>, g: string)
    requires g != ""
    ensures Varies(AllNamed(cs), g) <==> Differ(cs, g)
  {
    if Varies(AllNamed(cs), g) { VaryingDiffer(cs, g); }
    if Differ(cs, g) { DifferingVary(cs, g); }
  }

  lemma VaryingDiffer(cs: seq<Candidate>, g: string)
    requires g != "" && Varies(AllNamed(cs), g)
    ensures Differ(cs, g)
  {
    var vals := ThresholdsOf(AllNamed(cs), g);
    var v :| v in vals && v != vals[0];
    var c, p := ThresholdAt(cs, g, v);
    var d, q := ThresholdAt(cs, g, vals[0]);
  }

  lemma ThresholdAt(cs: seq<Candidate>, g: string, v: Json) returns (c: int, p: int)
    requires g != "" && v in ThresholdsOf(AllNamed(cs), g)
    ensures Carries(cs, c, p, g) && cs[c].results[p].threshold == v
  {
    ThresholdsHave(AllNamed(cs), g, v);
    var r :| r in AllNamed(cs) && r.gateId == g && r.threshold == v;
    c, p := GatheredAt(cs, r);
  }

  lemma DifferingVary(cs: seq<Candidate>, g: string)
    requires Differ(cs, g)
    ensures Varies(AllNamed(cs), g)
  {
    var c, p, d, q :| Carries(cs, c, p, g) && Carries(cs, d, q, g)
                      && cs[c].results[p].threshold != cs[d].results[q].threshold;
    AllNamedMembers(cs);
    assert cs[c].results[p] in AllNamed(cs) && cs[d].results[q] in AllNamed(cs);
    ThresholdsHave(AllNamed(cs), g, cs[c].results[p].threshold);
    ThresholdsHave(AllNamed(cs), g, cs[d].results[q].threshold);
  }

  // ---- The manifest and the rows -----------------------------------------------

  /** The manifest has an entry for each gate id in the run and for no other. */
  lemma ManifestHas(cs: seq<Candidate>, g: string)
    ensures Encode(cs).Packed?
    ensures (exists c, p :: Carries(cs, c, p, g))
            <==> exists k :: 0 <= k < |Encode(cs).gates| && Encode(cs).gates[k].gateId == g
  {
    var all := AllNamed(cs);
    var gates, order := Encode(cs).gates, Order(all);
    OrderIsStrict(all);
    IdsAreSeen(all, g);
    AllNamedMembers(cs);
    if c, p :| Carries(cs, c, p, g) {
      NoneBefore(cs, c, p, g);
      var k :| 0 <= k < |order| && order[k] == g;
      assert gates[k].gateId == g;
    }
    if k :| 0 <= k < |gates| && gates[k].gateId == g {
      var r :| r in all && r.gateId == g;
      var c, p := GatheredAt(cs, r);
    }
  }

  /** An entry describes its gate as the result first met does, and has the threshold exactly
      when the whole run agrees on it. */
  lemma ManifestMeans(cs: seq<Candidate>, k: nat) returns (c: int, p: int)
    requires Encode(cs).Packed? && k < |Encode(cs).gates|
    ensures var gate := Encode(cs).gates[k];
            && Earliest(cs, c, p, gate.gateId)
            && var first := cs[c].results[p];
               && gate.level == first.level && gate.authority == first.authority && gate.direction == first.direction
               && gate.labelText == (if first.labelText != "" then first.labelText else gate.gateId)
               && gate.thresholdVaries == Differ(cs, gate.gateId)
               && gate.threshold == if gate.thresholdVaries then Null else first.threshold
  {
    var all := AllNamed(cs);
    var g := Order(all)[k];
    OrderIsStrict(all);
    IdsAreSeen(all, g);
    AllNamedMembers(cs);
    VariesMeans(cs, g);
    c, p := FirstOfRun(cs, g);
  }

  /** The entries are ascending by level, those without one at 99, and then by id. */
  lemma ManifestInOrder(cs: seq<Candidate>, k: nat, l: nat)
    requires Encode(cs).Packed? && k < l < |Encode(cs).gates|
    ensures var a, b := Encode(cs).gates[k], Encode(cs).gates[l];
            && a.gateId != b.gateId
            && (a.level.GetOr(99.0) < b.level.GetOr(99.0)
                || (a.level.GetOr(99.0) == b.level.GetOr(99.0) && Le(a.gateId, b.gateId)))
  {
    var all := AllNamed(cs);
    OrderIsStrict(all);
    IdsAreSeen(all, Order(all)[k]);
    IdsAreSeen(all, Order(all)[l]);
  }

  /** A row has a cell for a gate exactly when the candidate has a result of it, and it is
      the last one's; the threshold is there exactly when the manifest does not have it. */
  lemma CellMeans(cs: seq<Candidate>, i: nat, k: nat)
    requires i < |cs| && Encode(cs).Packed? && k < |Encode(cs).gates|
    ensures |Encode(cs).rows| == |cs| && |Encode(cs).rows[i].cells| == |Encode(cs).gates|
    ensures var row, g := Encode(cs).rows[i], Encode(cs).gates[k].gateId;
            && row.symbol == cs[i].symbol && row.admitted == cs[i].admitted
            && (row.cells[k].Some? <==> exists p :: Carries(cs, i, p, g))
            && forall p :: Carries(cs, i, p, g) && (forall q :: q > p ==> !Carries(cs, i, q, g)) ==>
                 row.cells[k] == Some(Cell(cs[i].results[p].passed, cs[i].results[p].value,
                                           if Differ(cs, g) then Some(cs[i].results[p].threshold) else None))
  {
    var all := AllNamed(cs);
    var g := Order(all)[k];
    OrderIsStrict(all);
    IdsAreSeen(all, g);
    IdsAreSeen(cs[i].results, g);
    AllNamedMembers(cs);
    VariesMeans(cs, g);
    var row := Encode(cs).rows[i];
    if row.cells[k].Some? {
      var last := LastIn(cs[i].results, g);
      assert Carries(cs, i, last, g);
      forall p | Carries(cs, i, p, g) && forall q :: q > p ==> !Carries(cs, i, q, g) ensures p == last {
      }
    }
    if p :| Carries(cs, i, p, g) { assert cs[i].results[p] in cs[i].results; }
  }
}
