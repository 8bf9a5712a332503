/** backend/history_audit.py: broker legs summed into rows, the audit report, and the
    stored copy of it that acknowledgements patch. */
module HistoryReport {
  import opened Bags
  import opened Common
  import opened HistoryAudit
  import opened Strings

  import MatchTheorems

  // ---- Findings ----------------------------------------------------------------

  datatype Kind = Phantom | Missing | Price | Quantity {
    function Name(): string {
      match this
      case Phantom => "PHANTOM_IN_BOOK"
      case Missing => "MISSING_IN_BOOK"
      case Price => "PRICE_MISMATCH"
      case Quantity => "QUANTITY_MISMATCH"
    }
  }

  datatype Ack = Ack(reason: string, at: string)

  datatype Finding = Finding(
    id: string, kind: Kind, book: Option<BookFill>, broker: Option<BrokerFill>, ack: Option<Ack>)

  predicate PricesDiffer(b: BookFill, s: BrokerFill) {
    b.price.Some? && s.price.Some? && Distance(b.price.value, s.price.value) > PRICE_TOLERANCE
  }

  function PhantomFinding(b: BookFill): Finding {
    Finding(Phantom.Name() + ":" + b.executionId, Phantom, Some(b), None, None)
  }

  /** A broker row always carries a transaction id, so the last branch is never reached. */
  function OrderReference(s: BrokerFill): string {
    if Truthy(s.orderId) then s.orderId.value
    else if s.transactionIds != [] then s.transactionIds[0] else ""
  }

  function MissingFinding(s: BrokerFill): Finding {
    Finding(Missing.Name() + ":" + OrderReference(s) + ":" + s.action + ":" + s.strikeText,
            Missing, None, Some(s), None)
  }

  function PairFindings(p: Pair): seq<Finding> {
    if p.0.qty != p.1.qty then
      [Finding(Quantity.Name() + ":" + p.0.executionId, Quantity, Some(p.0), Some(p.1), None)]
    else if PricesDiffer(p.0, p.1) then
      [Finding(Price.Name() + ":" + p.0.executionId, Price, Some(p.0), Some(p.1), None)]
    else []
  }

  function AllPairFindings(pairs: seq<Pair>): seq<Finding> {
    if pairs == [] then [] else PairFindings(pairs[0]) + AllPairFindings(pairs[1..])
  }

  function LeftoverFindings(m: Matched): seq<Finding> {
    seq(|m.rest|, i requires 0 <= i < |m.rest| => PhantomFinding(m.rest[i]))
    + seq(|m.free|, i requires 0 <= i < |m.free| => MissingFinding(m.free[i]))
  }

  function Findings(m: Matched): seq<Finding> {
    LeftoverFindings(m) + AllPairFindings(m.pairs)
  }

  function Stamp(fs: seq<Finding>, acks: map<string, Ack>): (r: seq<Finding>)
    ensures |r| == |fs|
  {
    seq(|fs|, i requires 0 <= i < |fs| => if fs[i].id in acks then fs[i].(ack := Some(acks[fs[i].id])) else fs[i])
  }

  // ---- Counting the open ones --------------------------------------------------

  function OpenCount(fs: seq<Finding>): nat {
    if fs == [] then 0 else (if fs[0].ack.None? then 1 else 0) + OpenCount(fs[1..])
  }

  function OpenOf(fs: seq<Finding>, k: Kind): nat {
    if fs == [] then 0
    else (if fs[0].ack.None? && fs[0].kind == k then 1 else 0) + OpenOf(fs[1..], k)
  }

  lemma {:induction false} NoneOpen(fs: seq<Finding>)
    ensures OpenCount(fs) == 0 <==> forall f :: f in fs ==> f.ack.Some?
  {
    if fs != [] {
      NoneOpen(fs[1..]);
      assert fs == [fs[0]] + fs[1..];
    }
  }

  const KINDS := {Phantom, Missing, Price, Quantity}

  function Counts(fs: seq<Finding>): map<Kind, nat> {
    map k | k in KINDS && OpenOf(fs, k) > 0 :: OpenOf(fs, k)
  }

  lemma {:induction false} OpenOfSnoc(fs: seq<Finding>, f: Finding, k: Kind)
    ensures OpenOf(fs + [f], k) == OpenOf(fs, k) + (if f.ack.None? && f.kind == k then 1 else 0)
    ensures OpenCount(fs + [f]) == OpenCount(fs) + (if f.ack.None? then 1 else 0)
  {
    if fs == [] {
      assert fs + [f] == [f] && [f][1..] == [];
    } else {
      OpenOfSnoc(fs[1..], f, k);
      assert (fs + [f])[1..] == fs[1..] + [f];
    }
  }

  predicate Tallies(counts: map<Kind, nat>, fs: seq<Finding>) {
    forall k :: (k in counts <==> OpenOf(fs, k) > 0) && (k in counts ==> counts[k] == OpenOf(fs, k))
  }

  function Bump(counts: map<Kind, nat>, f: Finding): map<Kind, nat> {
    if f.ack.Some? then counts
    else counts[f.kind := (if f.kind in counts then counts[f.kind] else 0) + 1]
  }

  lemma BumpTallies(counts: map<Kind, nat>, fs: seq<Finding>, f: Finding)
    requires Tallies(counts, fs)
    ensures Tallies(Bump(counts, f), fs + [f])
  {
    forall k
      ensures (k in Bump(counts, f) <==> OpenOf(fs + [f], k) > 0)
      ensures k in Bump(counts, f) ==> Bump(counts, f)[k] == OpenOf(fs + [f], k)
    {
      OpenOfSnoc(fs, f, k);
    }
  }

  lemma TalliesAreCounts(counts: map<Kind, nat>, fs: seq<Finding>)
    requires Tallies(counts, fs)
    ensures counts == Counts(fs)
  {
    forall k: Kind ensures k in KINDS {
      match k { case Phantom => case Missing => case Price => case Quantity => }
    }
  }

  /** The dictionary the report counts into, kind by kind. */
  method CountOpen(fs: seq<Finding>) returns (counts: map<Kind, nat>, open: nat)
    ensures counts == Counts(fs) && open == OpenCount(fs)
  {
    counts, open := map[], 0;
    for i := 0 to |fs|
      invariant Tallies(counts, fs[..i]) && open == OpenCount(fs[..i])
    {
      assert fs[..i + 1] == fs[..i] + [fs[i]];
      BumpTallies(counts, fs[..i], fs[i]);
      OpenOfSnoc(fs[..i], fs[i], Phantom);
      if fs[i].ack.None? {
        var k := fs[i].kind;
        counts := counts[k := (if k in counts then counts[k] else 0) + 1];
        open := open + 1;
      }
    }
    assert fs[..|fs|] == fs;
    TalliesAreCounts(counts, fs);
  }

  /** The four per-kind counts add up to the number of open findings. */
  lemma {:induction false} KindsCoverOpen(fs: seq<Finding>)
    ensures OpenOf(fs, Phantom) + OpenOf(fs, Missing) + OpenOf(fs, Price) + OpenOf(fs, Quantity) == OpenCount(fs)
  {
    if fs != [] { KindsCoverOpen(fs[1..]); }
  }

  // ---- The report --------------------------------------------------------------

  datatype Status = Clean | Dirty

  datatype Report = Report(
    asOf: string, since: string, until: string, status: Status, bookFills: nat, brokerFills: nat,
    matched: nat, counts: map<Kind, nat>, open: nat, findings: seq<Finding>)

  datatype Window = Window(asOf: string, since: string, until: string)

  function Audit(book: seq<BookFill>, broker: seq<BrokerFill>, acks: map<string, Ack>, w: Window): Report {
    var m := Match(book, broker);
    var fs := Stamp(Findings(m), acks);
    Report(w.asOf, w.since, w.until, if OpenCount(fs) == 0 then Clean else Dirty, |book|, |broker|,
           |m.pairs|, Counts(fs), OpenCount(fs), fs)
  }

  function MarkAcked(fs: seq<Finding>, id: string, rec: Ack): (r: seq<Finding>)
    ensures |r| == |fs|
  {
    seq(|fs|, i requires 0 <= i < |fs| => if fs[i].id == id then fs[i].(ack := Some(rec)) else fs[i])
  }

  /** What an acknowledgement does to a report that is already stored. */
  function Patch(r: Report, id: string, rec: Ack): Report {
    var fs := MarkAcked(r.findings, id, rec);
    r.(findings := fs, open := OpenCount(fs), counts := Counts(fs),
       status := if OpenCount(fs) == 0 then Clean else Dirty)
  }

  /** A run whose feed could not be fetched. */
  datatype Failure = Failure(w: Window, error: string)

  /** What is stored: the acknowledgements, the last good report, and the failure after it. */
  datatype Record = Record(acks: map<string, Ack>, last: Option<Report>, lastFailed: Option<Failure>)

  function Fetched(r: Record, book: seq<BookFill>, feed: Result<seq<BrokerFill>, string>, w: Window): Record {
    match feed
    case Ok(broker) => Record(r.acks, Some(Audit(book, broker, r.acks, w)), None)
    case Err(error) => r.(lastFailed := Some(Failure(w, error)))
  }

  function Acked(r: Record, id: string, rec: Ack): Record {
    r.(acks := r.acks[id := rec], last := if r.last.None? then None else Some(Patch(r.last.value, id, rec)))
  }

  /** The stored `history_audit` record of one book. */
  class AuditRecord {
    var acks: map<string, Ack>
    var last: Option<Report>
    var lastFailed: Option<Failure>

    constructor ()
      ensures View() == Record(map[], None, None)
    {
      acks, last, lastFailed := map[], None, None;
    }

    function View(): Record
      reads this
    {
      Record(acks, last, lastFailed)
    }

    /** A feed that could not be fetched leaves the last good report in place. */
    method RunAudit(book: seq<BookFill>, feed: Result<seq<BrokerFill>, string>, w: Window, persist: bool)
      returns (r: Result<Report, Failure>)
      modifies this
      ensures View() == if persist then Fetched(old(View()), book, feed, w) else old(View())
      ensures r == match feed
                   case Ok(broker) => Ok(Audit(book, broker, acks, w))
                   case Err(error) => Err(Failure(w, error))
    {
      if feed.Err? {
        var failure := Failure(w, feed.error);
        if persist {
          lastFailed := Some(failure);
        }
        return Err(failure);
      }
      var rep := AuditOf(book, feed.value, w);
      if persist {
        last, lastFailed := Some(rep), None;
      }
      return Ok(rep);
    }

    method AuditOf(book: seq<BookFill>, broker: seq<BrokerFill>, w: Window) returns (rep: Report)
      ensures rep == Audit(book, broker, acks, w)
    {
      var pairs, phantom, missing := MatchFills(book, broker);
      var fs := Findings(Matched(pairs, phantom, missing));
      ghost var plain := fs;
      for i := 0 to |fs|
        invariant |fs| == |plain|
        invariant forall j :: 0 <= j < i ==> fs[j] == Stamp(plain, acks)[j]
        invariant forall j :: i <= j < |fs| ==> fs[j] == plain[j]
      {
        if fs[i].id in acks {
          fs := fs[i := fs[i].(ack := Some(acks[fs[i].id]))];
        }
      }
      assert fs == Stamp(plain, acks);
      var counts, open := CountOpen(fs);
      rep := Report(w.asOf, w.since, w.until, if open == 0 then Clean else Dirty, |book|, |broker|,
                    |pairs|, counts, open, fs);
    }

    method Acknowledge(id: string, reason: string, at: string) returns (r: Result<Ack, string>)
      modifies this
      ensures Strip(reason) == "" ==> r.Err? && View() == old(View())
      ensures Strip(reason) != "" ==>
                var rec := Ack(Strip(reason), at); r == Ok(rec) && View() == Acked(old(View()), id, rec)
    {
      var typed := Strip(reason);
      if typed == "" {
        return Err("acknowledging a finding requires a typed reason");
      }
      var rec := Ack(typed, at);
      acks := acks[id := rec];
      if last.Some? {
        var fs := last.value.findings;
        for i := 0 to |fs|
          invariant |fs| == |last.value.findings| && last == old(last) && lastFailed == old(lastFailed)
          invariant forall j :: 0 <= j < i ==> fs[j] == MarkAcked(last.value.findings, id, rec)[j]
          invariant forall j :: i <= j < |fs| ==> fs[j] == last.value.findings[j]
          invariant acks == old(acks)[id := rec]
        {
          if fs[i].id == id {
            fs := fs[i := fs[i].(ack := Some(rec))];
          }
        }
        assert fs == MarkAcked(last.value.findings, id, rec);
        var counts, open := CountOpen(fs);
        last := Some(last.value.(findings := fs, open := open, counts := counts,
                                 status := if open == 0 then Clean else Dirty));
      }
      return Ok(rec);
    }
  }

  // ---- A patched report is the report a fresh audit would give -----------------

  lemma PatchIsReaudit(
      book: seq<BookFill>, broker: seq<BrokerFill>, acks: map<string, Ack>, w: Window, id: string, rec: Ack)
    ensures Patch(Audit(book, broker, acks, w), id, rec) == Audit(book, broker, acks[id := rec], w)
  {
    var fs := Findings(Match(book, broker));
    assert MarkAcked(Stamp(fs, acks), id, rec) == Stamp(fs, acks[id := rec]);
  }

  function AckAll(acks: map<string, Ack>, todo: seq<(string, Ack)>): map<string, Ack>
    decreases |todo|
  {
    if todo == [] then acks else AckAll(acks[todo[0].0 := todo[0].1], todo[1..])
  }

  function PatchAll(r: Report, todo: seq<(string, Ack)>): Report
    decreases |todo|
  {
    if todo == [] then r else PatchAll(Patch(r, todo[0].0, todo[0].1), todo[1..])
  }

  /** Any number of acknowledgements, of findings listed or not, once or repeatedly. */
  lemma {:induction false} PatchesAreReaudit(
    book: seq<BookFill>, broker: seq<BrokerFill>, acks: map<string, Ack>, w: Window, todo: seq<(string, Ack)>)
    ensures PatchAll(Audit(book, broker, acks, w), todo) == Audit(book, broker, AckAll(acks, todo), w)
    decreases |todo|
  {
    if todo != [] {
      PatchIsReaudit(book, broker, acks, w, todo[0].0, todo[0].1);
      PatchesAreReaudit(book, broker, acks[todo[0].0 := todo[0].1], w, todo[1..]);
    }
  }

  // ---- What is stored, after anything ------------------------------------------

  datatype Op =
    | Run(book: seq<BookFill>, feed: Result<seq<BrokerFill>, string>, w: Window)
    | Acknowledgement(id: string, rec: Ack)

  function Stored(ops: seq<Op>): Record {
    if ops == [] then Record(map[], None, None)
    else
      var r := Stored(ops[..|ops| - 1]);
      match ops[|ops| - 1]
      case Run(book, feed, w) => Fetched(r, book, feed, w)
      case Acknowledgement(id, rec) => Acked(r, id, rec)
  }

  /** The last run whose feed was fetched. */
  function LastGood(ops: seq<Op>): Option<Op> {
    if ops == [] then None
    else
      var op := ops[|ops| - 1];
      if op.Run? && op.feed.Ok? then Some(op) else LastGood(ops[..|ops| - 1])
  }

  /** Over any runs, failed or not, and any acknowledgements: the stored report is a fresh
      audit of the last feed that was fetched, under all the acknowledgements there are now. */
  lemma {:induction false} StoredIsAudit(ops: seq<Op>)
    ensures var r, good := Stored(ops), LastGood(ops);
            && (good.Some? ==> good.value.Run? && good.value.feed.Ok?)
            && r.last == if good.None? then None
                         else Some(Audit(good.value.book, good.value.feed.value, r.acks, good.value.w))
  {
    if ops != [] {
      var front, op := ops[..|ops| - 1], ops[|ops| - 1];
      StoredIsAudit(front);
      if op.Acknowledgement? && LastGood(front).Some? {
        var good := LastGood(front).value;
        PatchIsReaudit(good.book, good.feed.value, Stored(front).acks, good.w, op.id, op.rec);
      }
    }
  }

  /** Step k is the last run, whether its feed was fetched or not. */
  ghost predicate LastRunAt(ops: seq<Op>, k: int) {
    0 <= k < |ops| && ops[k].Run? && forall j :: k < j < |ops| ==> !ops[j].Run?
  }

  lemma FailureStep(ops: seq<Op>)
    requires ops != []
    ensures var op := ops[|ops| - 1];
            Stored(ops).lastFailed
            == if op.Acknowledgement? then Stored(ops[..|ops| - 1]).lastFailed
               else if op.feed.Ok? then None else Some(Failure(op.w, op.feed.error))
  {
  }

  /** The failure stored is that of the last run, if it failed. */
  lemma {:induction false} FailureMeans(ops: seq<Op>, k: int)
    requires LastRunAt(ops, k)
    ensures Stored(ops).lastFailed == if ops[k].feed.Ok? then None else Some(Failure(ops[k].w, ops[k].feed.error))
  {
    FailureStep(ops);
    if k < |ops| - 1 { FailureMeans(ops[..|ops| - 1], k); }
  }

  ghost predicate LastAckAt(ops: seq<Op>, k: int, id: string) {
    && 0 <= k < |ops| && ops[k].Acknowledgement? && ops[k].id == id
    && forall j :: k < j < |ops| && ops[j].Acknowledgement? ==> ops[j].id != id
  }

  /** The acknowledgement stored for an id is the last one given. */
  lemma {:induction false} AcksMean(ops: seq<Op>, id: string)
    ensures forall k :: LastAckAt(ops, k, id) ==> id in Stored(ops).acks && Stored(ops).acks[id] == ops[k].rec
    ensures id in Stored(ops).acks ==> exists k :: LastAckAt(ops, k, id)
  {
    if ops != [] {
      var front, n := ops[..|ops| - 1], |ops| - 1;
      AcksMean(front, id);
      assert forall k :: LastAckAt(ops, k, id) && k < n ==> LastAckAt(front, k, id);
      if ops[n].Acknowledgement? && ops[n].id == id {
        assert LastAckAt(ops, n, id);
      } else if id in Stored(front).acks {
        var k :| LastAckAt(front, k, id);
        assert LastAckAt(ops, k, id);
      }
    }
  }

  // ---- What the findings are ---------------------------------------------------

  predicate IsPhantom(f: Finding, b: BookFill) {
    f == Finding("PHANTOM_IN_BOOK:" + b.executionId, Phantom, Some(b), None, None)
  }

  /** The id refers to the row by its order, or else by its first transaction. */
  predicate IsMissing(f: Finding, s: BrokerFill) {
    var reference := if s.orderId.Some? && s.orderId.value != "" then s.orderId.value
                     else if s.transactionIds != [] then s.transactionIds[0] else "";
    f == Finding("MISSING_IN_BOOK:" + reference + ":" + s.action + ":" + s.strikeText, Missing, None, Some(s), None)
  }

  predicate PriceApart(p: Pair) {
    && p.0.price.Some? && p.1.price.Some?
    && (p.0.price.value - p.1.price.value > 0.01 || p.1.price.value - p.0.price.value > 0.01)
  }

  function Differing(): Pair -> bool {
    (p: Pair) => p.0.qty != p.1.qty || PriceApart(p)
  }

  /** Quantities come first: a pair that differs in them is not asked for its prices. */
  predicate IsMismatch(f: Finding, p: Pair) {
    if p.0.qty != p.1.qty
    then f == Finding("QUANTITY_MISMATCH:" + p.0.executionId, Quantity, Some(p.0), Some(p.1), None)
    else f == Finding("PRICE_MISMATCH:" + p.0.executionId, Price, Some(p.0), Some(p.1), None)
  }

  /** Which pair each of the findings about pairs is about. */
  ghost predicate About(fs: seq<Finding>, pairs: seq<Pair>, at: seq<int>)
    requires forall i :: 0 <= i < |at| ==> 0 <= at[i] < |pairs|
  {
    |at| == |fs| && forall i :: 0 <= i < |at| ==> IsMismatch(fs[i], pairs[at[i]])
  }

  lemma PairFinding(p: Pair)
    ensures |PairFindings(p)| == if Differing()(p) then 1 else 0
    ensures Differing()(p) ==> IsMismatch(PairFindings(p)[0], p)
  {
  }

  lemma AboutCons(pairs: seq<Pair>, fs: seq<Finding>, at: seq<int>, mine: seq<Finding>)
    requires pairs != [] && (forall i :: 0 <= i < |at| ==> 0 <= at[i] < |pairs| - 1) && About(fs, pairs[1..], at)
    requires |mine| <= 1 && (mine != [] ==> IsMismatch(mine[0], pairs[0]))
    ensures About(mine + fs, pairs, (if mine != [] then [0] else []) + Shifted(at))
  {
    var more := (if mine != [] then [0] else []) + Shifted(at);
    forall i | 0 <= i < |more| ensures IsMismatch((mine + fs)[i], pairs[more[i]]) {
      if i >= |mine| { assert IsMismatch(fs[i - |mine|], pairs[1..][at[i - |mine|]]); }
    }
  }

  lemma {:induction false} PairFindingsMean(pairs: seq<Pair>) returns (at: seq<int>)
    ensures Picks(at, pairs, Differing()) && About(AllPairFindings(pairs), pairs, at)
  {
    at := [];
    if pairs != [] {
      var later := PairFindingsMean(pairs[1..]);
      PairFinding(pairs[0]);
      AboutCons(pairs, AllPairFindings(pairs[1..]), later, PairFindings(pairs[0]));
      PicksCons(later, pairs[0], pairs[1..], Differing());
      assert pairs == [pairs[0]] + pairs[1..];
      at := (if Differing()(pairs[0]) then [0] else []) + Shifted(later);
    }
  }

  /** A PHANTOM for each of these, in order, then a MISSING for each of those. */
  ghost predicate Leftovers(fs: seq<Finding>, rest: seq<BookFill>, free: seq<BrokerFill>) {
    && |fs| == |rest| + |free|
    && (forall i :: 0 <= i < |rest| ==> IsPhantom(fs[i], rest[i]))
    && (forall i :: 0 <= i < |free| ==> IsMissing(fs[|rest| + i], free[i]))
  }

  lemma LeftoversMean(m: Matched)
    ensures Findings(m) == LeftoverFindings(m) + AllPairFindings(m.pairs)
    ensures Leftovers(LeftoverFindings(m), m.rest, m.free)
  {
    var fs := LeftoverFindings(m);
    forall i | 0 <= i < |m.rest| ensures IsPhantom(fs[i], m.rest[i]) {
      assert fs[i] == PhantomFinding(m.rest[i]);
    }
    forall i | 0 <= i < |m.free| ensures IsMissing(fs[|m.rest| + i], m.free[i]) {
      assert fs[|m.rest| + i] == MissingFinding(m.free[i]);
    }
  }

  /** The findings of a report, before they are stamped: first a PHANTOM for each book fill
      the pairing leaves, then a MISSING for each broker fill it leaves, then one for each
      pair whose figures disagree, and nothing else. */
  lemma FindingsMean(book: seq<BookFill>, broker: seq<BrokerFill>)
    returns (leftovers: seq<Finding>, mismatches: seq<Finding>, at: seq<int>)
    ensures var m := Match(book, broker);
            && Findings(m) == leftovers + mismatches && Leftovers(leftovers, m.rest, m.free)
            && Picks(at, m.pairs, Differing()) && About(mismatches, m.pairs, at)
  {
    var m := Match(book, broker);
    LeftoversMean(m);
    leftovers, mismatches := LeftoverFindings(m), AllPairFindings(m.pairs);
    at := PairFindingsMean(m.pairs);
  }

  /** The counts of a list of findings are numbers of them. */
  lemma CountsMean(fs: seq<Finding>)
    ensures OpenCount(fs) == |Unstamped(fs)|
    ensures forall k ::
              (k in Counts(fs) <==> OpenAt(fs, k) != {}) && (k in Counts(fs) ==> Counts(fs)[k] == |OpenAt(fs, k)|)
  {
    OpenIsACount(fs, Phantom);
    forall k
      ensures (k in Counts(fs) <==> OpenAt(fs, k) != {}) && (k in Counts(fs) ==> Counts(fs)[k] == |OpenAt(fs, k)|)
    {
      OpenIsACount(fs, k);
      match k { case Phantom => case Missing => case Price => case Quantity => }
    }
  }

  /** A finding bears the acknowledgement of its id, if there is one, and is otherwise as it was. */
  lemma StampMeans(book: seq<BookFill>, broker: seq<BrokerFill>, acks: map<string, Ack>)
    ensures var fs := Findings(Match(book, broker));
            forall i :: 0 <= i < |fs| ==>
              Stamp(fs, acks)[i] == fs[i].(ack := if fs[i].id in acks then Some(acks[fs[i].id]) else None)
  {
    var fs := Findings(Match(book, broker));
    FindingsAreNew(Match(book, broker));
    forall i | 0 <= i < |fs|
      ensures Stamp(fs, acks)[i] == fs[i].(ack := if fs[i].id in acks then Some(acks[fs[i].id]) else None)
    {
      assert fs[i] in fs;
    }
  }

  /** A report counts the findings that bear no acknowledgement, in all and kind by kind; it
      is CLEAN exactly when there are none, and it counts what was compared. */
  lemma ReportMeans(book: seq<BookFill>, broker: seq<BrokerFill>, acks: map<string, Ack>, w: Window)
    ensures var r := Audit(book, broker, acks, w);
            && r.findings == Stamp(Findings(Match(book, broker)), acks)
            && r.open == |Unstamped(r.findings)| && (r.status == Clean <==> Unstamped(r.findings) == {})
            && r.bookFills == |book| && r.brokerFills == |broker| && r.matched == |Match(book, broker).pairs|
            && (r.asOf, r.since, r.until) == (w.asOf, w.since, w.until)
            && forall k :: (k in r.counts <==> OpenAt(r.findings, k) != {})
                           && (k in r.counts ==> r.counts[k] == |OpenAt(r.findings, k)|)
  {
    CountsMean(Stamp(Findings(Match(book, broker)), acks));
  }

  /** The findings of a kind that bear no stamp. */
  ghost function OpenAt(fs: seq<Finding>, k: Kind): set<int> {
    set i | 0 <= i < |fs| && fs[i].ack.None? && fs[i].kind == k
  }

  /** All that bear no stamp. */
  ghost function Unstamped(fs: seq<Finding>): set<int> {
    set i | 0 <= i < |fs| && fs[i].ack.None?
  }

  lemma UnstampedSnoc(front: seq<Finding>, f: Finding, k: Kind)
    ensures Unstamped(front + [f]) == Unstamped(front) + (if f.ack.None? then {|front|} else {})
    ensures OpenAt(front + [f], k) == OpenAt(front, k) + (if f.ack.None? && f.kind == k then {|front|} else {})
  {
    assert forall i :: 0 <= i < |front| ==> (front + [f])[i] == front[i];
  }

  lemma {:induction false} OpenIsACount(fs: seq<Finding>, k: Kind)
    ensures OpenCount(fs) == |Unstamped(fs)| && OpenOf(fs, k) == |OpenAt(fs, k)|
  {
    if fs == [] {
      assert Unstamped(fs) == {} && OpenAt(fs, k) == {};
    } else {
      var front, f := fs[..|fs| - 1], fs[|fs| - 1];
      FrontLast(fs);
      OpenIsACount(front, k);
      OpenOfSnoc(front, f, k);
      UnstampedSnoc(front, f, k);
    }
  }

  // ---- What CLEAN means --------------------------------------------------------

  predicate Agrees(p: Pair) {
    && p.0.qty == p.1.qty
    && (p.0.price.Some? && p.1.price.Some? ==> Distance(p.0.price.value, p.1.price.value) <= PRICE_TOLERANCE)
  }

  lemma {:induction false} NoPairFindings(pairs: seq<Pair>)
    ensures AllPairFindings(pairs) == [] <==> forall p :: p in pairs ==> Agrees(p)
  {
    if pairs != [] {
      NoPairFindings(pairs[1..]);
      assert PairFindings(pairs[0]) == [] <==> Agrees(pairs[0]);
      assert pairs == [pairs[0]] + pairs[1..];
    }
  }

  lemma {:induction false} UnackedPairs(pairs: seq<Pair>)
    ensures forall f :: f in AllPairFindings(pairs) ==> f.ack.None?
  {
    if pairs != [] { UnackedPairs(pairs[1..]); }
  }

  /** A report is CLEAN exactly when every finding the pairing gives rise to has been explained. */
  lemma CleanMeansExplained(book: seq<BookFill>, broker: seq<BrokerFill>, acks: map<string, Ack>, w: Window)
    ensures Audit(book, broker, acks, w).status == Clean
            <==> forall f :: f in Findings(Match(book, broker)) ==> f.id in acks
  {
    FindingsAreNew(Match(book, broker));
    StampedOpen(Findings(Match(book, broker)), acks);
  }

  lemma FindingsAreNew(m: Matched)
    ensures forall f :: f in Findings(m) ==> f.ack.None?
  {
    UnackedPairs(m.pairs);
  }

  /** Of new findings, none is open once stamped exactly when each is acknowledged. */
  lemma StampedOpen(fs: seq<Finding>, acks: map<string, Ack>)
    requires forall f :: f in fs ==> f.ack.None?
    ensures OpenCount(Stamp(fs, acks)) == 0 <==> forall f :: f in fs ==> f.id in acks
  {
    var st := Stamp(fs, acks);
    NoneOpen(st);
    assert forall i :: 0 <= i < |fs| ==> fs[i] in fs && (st[i].ack.Some? <==> fs[i].id in acks);
    if OpenCount(st) == 0 {
      forall f | f in fs ensures f.id in acks {
        var i :| 0 <= i < |fs| && fs[i] == f;
        assert st[i] in st;
      }
    }
  }

  /** With nothing acknowledged: no leftovers on either side, and every pair agrees. */
  lemma CleanMeansAgreement(book: seq<BookFill>, broker: seq<BrokerFill>, w: Window)
    ensures var m := Match(book, broker);
            Audit(book, broker, map[], w).status == Clean
            <==> m.rest == [] && m.free == [] && forall p :: p in m.pairs ==> Agrees(p)
  {
    var m := Match(book, broker);
    CleanMeansExplained(book, broker, map[], w);
    NoPairFindings(m.pairs);
    if Findings(m) != [] {
      assert Findings(m)[0] in Findings(m);
    }
    assert |Findings(m)| == |m.rest| + |m.free| + |AllPairFindings(m.pairs)|;
  }

  /** What the audit takes two fills for one on. */
  predicate Evidence(p: Pair) {
    SharesTransaction(p.0, p.1) || SharesOrder(p.0, p.1) || SharesKey(p.0, p.1)
  }

  /** A clean book is the broker's own history: equal in number, and paired one to one, each
      pair on evidence, equal in quantity and, where both are known, in price to a cent. */
  lemma CleanBookIsTheFeed(book: seq<BookFill>, broker: seq<BrokerFill>, w: Window)
    requires Audit(book, broker, map[], w).status == Clean
    ensures exists pairs: seq<Pair> ::
              && Firsts(pairs) == multiset(book) && Seconds(pairs) == multiset(broker)
              && forall p :: p in pairs ==> Agrees(p) && Evidence(p)
  {
    var m := Match(book, broker);
    CleanMeansAgreement(book, broker, w);
    MatchTheorems.MatchPartitions(book, broker);
    PairsHaveEvidence(book, broker);
    assert Firsts(m.pairs) == multiset(book) && Seconds(m.pairs) == multiset(broker);
  }

  lemma PairsHaveEvidence(book: seq<BookFill>, broker: seq<BrokerFill>)
    ensures forall p :: p in Match(book, broker).pairs ==> Evidence(p)
  {
    MatchTheorems.StrongestEvidenceFirst(book, broker);
    forall p | p in Match(book, broker).pairs ensures Evidence(p) {
      var one := PassOne(book, broker);
      assert p in one.pairs || p in PassTwo(one.rest, one.free).pairs;
    }
  }
}
