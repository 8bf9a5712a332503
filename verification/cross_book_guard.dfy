/** Why the adoption guard is enough, and exactly enough, to keep books disjoint. */
module CrossBookGuard {
  import opened AccountIds
  import opened Accounts
  import opened Common
  import opened CrossBook

  // ---- One book, changed -------------------------------------------------------

  ghost predicate NotLive(b: Book, eid: string) {
    Latest(b.executions, eid).None?
  }

  /** Not live in the book, and not named by a receipt of it. */
  ghost predicate FreshId(b: Book, eid: string) {
    NotLive(b, eid) && forall k :: 0 <= k < |b.receipts| ==> eid !in b.receipts[k].executions
  }

  /** What the book comes to hold under e's id: e's own ids, and those of receipts that name it. */
  ghost predicate Gains(b: Book, e: Execution, key: Key)
    requires e.id.Some?
  {
    ByItself(e, key) || ByReceipts(b.receipts, key, e.id.value)
  }

  lemma FreshGains(b: Book, e: Execution, key: Key)
    requires e.id.Some? && FreshId(b, e.id.value)
    ensures Gains(b, e, key) <==> ByItself(e, key)
  {
  }

  function Booked(b: Book, e: Execution): Book {
    b.(executions := b.executions + [e])
  }

  /** Without the executions that have this id: voided, reversed or excluded. */
  function Without(es: seq<Execution>, eid: string): seq<Execution> {
    if es == [] then []
    else Without(es[..|es| - 1], eid) + (if es[|es| - 1].id == Some(eid) then [] else [es[|es| - 1]])
  }

  function Voided(b: Book, eid: string): Book {
    b.(executions := Without(b.executions, eid))
  }

  lemma {:induction false} WithoutLatest(es: seq<Execution>, gone: string, eid: string)
    ensures Latest(Without(es, gone), eid) == if eid == gone then None else Latest(es, eid)
  {
    if es != [] {
      var front, last := es[..|es| - 1], es[|es| - 1];
      WithoutLatest(front, gone, eid);
      if last.id != Some(gone) {
        LatestSnoc(Without(front, gone), last, eid);
      } else {
        assert Without(es, gone) == Without(front, gone);
      }
    }
  }

  lemma LatestSnoc(es: seq<Execution>, e: Execution, eid: string)
    ensures Latest(es + [e], eid) == if e.id == Some(eid) then Some(e) else Latest(es, eid)
  {
    assert (es + [e])[..|es|] == es;
  }

  /** Booking adds that execution under the ids it gains, and nothing else. */
  lemma BookedHolds(b: Book, e: Execution, key: Key, eid: string)
    requires e.id.Some? && NotLive(b, e.id.value)
    ensures Holds(Booked(b, e), key, eid) <==> Holds(b, key, eid) || (eid == e.id.value && Gains(b, e, key))
  {
    LatestSnoc(b.executions, e, eid);
  }

  lemma VoidedHolds(b: Book, gone: string, key: Key, eid: string)
    ensures Holds(Voided(b, gone), key, eid) <==> eid != gone && Holds(b, key, eid)
  {
    WithoutLatest(b.executions, gone, eid);
  }

  // ---- One step over all books -------------------------------------------------

  ghost predicate SameLine(before: Books, after: Books, key: Key) {
    forall i, eid :: Reported(after, key, i, eid) <==> Reported(before, key, i, eid)
  }

  /** Two sets of books that the check reports on alike. */
  ghost predicate SameReport(before: Books, after: Books) {
    forall key :: SameLine(before, after, key)
  }

  function Adopted(books: Books, m: nat, e: Execution): Books
    requires m < |books|
  {
    books[m := (books[m].0, Booked(books[m].1, e))]
  }

  lemma AdoptedCarries(books: Books, m: nat, e: Execution, i: nat, key: Key)
    requires m < |books| && i < |books| && e.id.Some? && NotLive(books[m].1, e.id.value)
    ensures Carries(Adopted(books, m, e)[i].1, key)
            <==> Carries(books[i].1, key) || (i == m && Gains(books[m].1, e, key))
  {
    if i == m {
      forall eid ensures Holds(Booked(books[m].1, e), key, eid)
                         <==> Holds(books[m].1, key, eid) || (eid == e.id.value && Gains(books[m].1, e, key)) {
        BookedHolds(books[m].1, e, key, eid);
      }
      if Carries(books[m].1, key) {
        var eid :| Holds(books[m].1, key, eid);
        assert Holds(Booked(books[m].1, e), key, eid);
      }
      if Gains(books[m].1, e, key) { assert Holds(Booked(books[m].1, e), key, e.id.value); }
    }
  }

  /** Another book than m carries the id. */
  ghost predicate CarriedApart(books: Books, m: nat, key: Key) {
    exists i :: 0 <= i < |books| && i != m && Carries(books[i].1, key)
  }

  lemma ApartIsDuplicated(books: Books, m: nat, key: Key)
    requires m < |books| && Carries(books[m].1, key)
    ensures CarriedApart(books, m, key) <==> Duplicated(books, key)
  {
    if CarriedApart(books, m, key) {
      var i :| 0 <= i < |books| && i != m && Carries(books[i].1, key);
      assert Carries(books[if i < m then i else m].1, key) && Carries(books[if i < m then m else i].1, key);
    }
    if Duplicated(books, key) { DuplicatedIsApart(books, m, key); }
  }

  lemma DuplicatedIsApart(books: Books, m: nat, key: Key)
    requires Duplicated(books, key)
    ensures CarriedApart(books, m, key)
  {
    var i, j :| 0 <= i < j < |books| && Carries(books[i].1, key) && Carries(books[j].1, key);
    assert Carries(books[if i == m then j else i].1, key);
  }

  lemma DuplicatedCarries(before: Books, after: Books, key: Key)
    requires |before| == |after| && forall i :: 0 <= i < |before| ==>
             (Carries(before[i].1, key) <==> Carries(after[i].1, key))
    ensures Duplicated(before, key) <==> Duplicated(after, key)
  {
    if Duplicated(before, key) {
      var i, j :| 0 <= i < j < |before| && Carries(before[i].1, key) && Carries(before[j].1, key);
      assert Carries(after[i].1, key) && Carries(after[j].1, key);
    }
    if Duplicated(after, key) {
      var i, j :| 0 <= i < j < |after| && Carries(after[i].1, key) && Carries(after[j].1, key);
      assert Carries(before[i].1, key) && Carries(before[j].1, key);
    }
  }

  /** What an adoption does to one line of the report. */
  lemma AdoptedReports(books: Books, m: nat, e: Execution, key: Key)
    requires m < |books| && e.id.Some? && NotLive(books[m].1, e.id.value)
    requires !(Gains(books[m].1, e, key) && CarriedApart(books, m, key))
    ensures SameLine(books, Adopted(books, m, e), key)
  {
    var after := Adopted(books, m, e);
    forall i | 0 <= i < |books|
      ensures Carries(after[i].1, key) <==> Carries(books[i].1, key) || (i == m && Gains(books[m].1, e, key))
    {
      AdoptedCarries(books, m, e, i, key);
    }
    if Gains(books[m].1, e, key) {
      ApartIsDuplicated(after, m, key);
      assert !CarriedApart(after, m, key);
      if Duplicated(books, key) { DuplicatedIsApart(books, m, key); }
    } else {
      DuplicatedCarries(books, after, key);
      forall i, eid | 0 <= i < |books| ensures Holds(after[i].1, key, eid) <==> Holds(books[i].1, key, eid) {
        if i == m { BookedHolds(books[m].1, e, key, eid); }
      }
    }
  }

  lemma AdoptedIsReported(books: Books, m: nat, e: Execution, key: Key)
    requires m < |books| && e.id.Some? && NotLive(books[m].1, e.id.value)
    requires Gains(books[m].1, e, key) && CarriedApart(books, m, key)
    ensures !Reported(books, key, m, e.id.value) && Reported(Adopted(books, m, e), key, m, e.id.value)
  {
    var after := Adopted(books, m, e);
    BookedHolds(books[m].1, e, key, e.id.value);
    AdoptedCarries(books, m, e, m, key);
    var i :| 0 <= i < |books| && i != m && Carries(books[i].1, key);
    assert after[i] == books[i] && CarriedApart(after, m, key);
    ApartIsDuplicated(after, m, key);
  }

  /** An adoption leaves the report as it was exactly when no other book carries one of
      the ids it gains: the execution's own, and those of any receipt that names it. */
  lemma GuardIsExact(books: Books, m: nat, e: Execution)
    requires m < |books| && e.id.Some? && NotLive(books[m].1, e.id.value)
    ensures SameReport(books, Adopted(books, m, e))
            <==> forall key :: Gains(books[m].1, e, key) ==> !CarriedApart(books, m, key)
  {
    if forall key :: Gains(books[m].1, e, key) ==> !CarriedApart(books, m, key) {
      forall key ensures SameLine(books, Adopted(books, m, e), key) {
        AdoptedReports(books, m, e, key);
      }
    } else {
      var key :| Gains(books[m].1, e, key) && CarriedApart(books, m, key);
      AdoptedIsReported(books, m, e, key);
      assert !SameLine(books, Adopted(books, m, e), key);
    }
  }

  /** A proposal's answer is about the ids its executions will carry. */
  ghost predicate Covered(e: Execution, txns: seq<string>, order: Option<string>) {
    (Truthy(e.txn) ==> e.txn.value in txns) && (Truthy(e.order) ==> e.order == order)
  }

  lemma ApartIsElsewhere(books: Books, m: nat, key: Key, keys: seq<Key>)
    requires m < |books| && DistinctAccounts(books) && CarriedApart(books, m, key) && key in keys
    ensures Elsewhere(books, books[m].0, keys)
  {
    var i :| 0 <= i < |books| && i != m && Carries(books[i].1, key);
    var k :| 0 <= k < |keys| && keys[k] == key;
    assert HeldBy(books[i].1, keys);
    assert books[if i < m then i else m].0 != books[if i < m then m else i].0;
  }

  /** When held_elsewhere has nothing to say, booking the proposal changes no report. */
  lemma GuardedAdoption(books: Books, m: nat, e: Execution, txns: seq<string>, order: Option<string>)
    requires m < |books| && DistinctAccounts(books) && e.id.Some? && FreshId(books[m].1, e.id.value)
    requires Covered(e, txns, order) && !Elsewhere(books, books[m].0, KeysOf(txns, order))
    ensures SameReport(books, Adopted(books, m, e))
  {
    var keys := KeysOf(txns, order);
    forall key | Gains(books[m].1, e, key) ensures !CarriedApart(books, m, key) {
      FreshGains(books[m].1, e, key);
      KeysOfHas(txns, order, key);
      assert key in keys;
      if CarriedApart(books, m, key) { ApartIsElsewhere(books, m, key, keys); }
    }
    GuardIsExact(books, m, e);
  }

  // ---- Why the receipts count --------------------------------------------------

  /** Book "a" has a receipt for order 7 that names execution x, which is not live; book
      "b" holds order 7. */
  function Stale(): Books {
    [("a", Book([], [Receipt(Some("7"), ["x"])])), ("b", Book([Execution(Some("y"), None, Some("7"))], []))]
  }

  function Unrelated(): Execution {
    Execution(Some("x"), Some("t"), None)
  }

  /** What the receipts add to GuardIsExact: booked under the id x, which is not live, a
      trade that no other book holds brings a duplicate in through the receipt. */
  lemma StaleReceiptDuplicates()
    ensures Latest(Stale()[0].1.executions, "x").None? && Covered(Unrelated(), ["t"], None)
    ensures !Elsewhere(Stale(), "a", KeysOf(["t"], None))
    ensures !Duplicated(Stale(), Order("7")) && Duplicated(Adopted(Stale(), 0, Unrelated()), Order("7"))
  {
    var books := Stale();
    var after := Adopted(books, 0, Unrelated());
    var y := Execution(Some("y"), None, Some("7"));
    LatestSnoc([], y, "y");
    LatestSnoc([], Unrelated(), "x");
    assert [] + [y] == [y] && [] + [Unrelated()] == [Unrelated()];
    assert ByReceipt(after[0].1.receipts[0], Order("7"), "x");
    assert Holds(after[0].1, Order("7"), "x");
    assert Holds(after[1].1, Order("7"), "y");
    assert Carries(after[0].1, Order("7")) && Carries(after[1].1, Order("7"));
    assert !Carries(books[0].1, Order("7"));
    if Elsewhere(books, "a", KeysOf(["t"], None)) {
      StaleHolds();
    }
  }

  lemma StaleHolds()
    ensures forall key, eid :: Holds(Stale()[1].1, key, eid) ==> key == Order("7")
    ensures !HeldBy(Stale()[1].1, KeysOf(["t"], None))
  {
    var y := Execution(Some("y"), None, Some("7"));
    forall key, eid | Holds(Stale()[1].1, key, eid) ensures key == Order("7") {
      LatestSnoc([], y, eid);
      assert [] + [y] == [y];
    }
    KeysOfHas(["t"], None, Order("7"));
  }

  // ---- Ids come from the length of the log -------------------------------------

  /** f"exec_{n:03d}" */
  function ExecId(n: nat): string {
    "exec_" + (if n < 10 then "00" else if n < 100 then "0" else "") + Digits(n)
  }

  lemma {:induction false} LeadingZero(s: string)
    ensures Value("0" + s) == Value(s)
  {
    var t := "0" + s;
    if s == "" {
      assert t[..0] == "";
    } else {
      LeadingZero(s[..|s| - 1]);
      assert t[..|t| - 1] == "0" + s[..|s| - 1];
    }
  }

  lemma PaddedValue(n: nat)
    ensures Value(ExecId(n)[5..]) == n
  {
    var d := Digits(n);
    DigitsValue(n);
    LeadingZero(d);
    LeadingZero("0" + d);
    assert "0" + ("0" + d) == "00" + d;
    assert ExecId(n)[5..] == (if n < 10 then "00" else if n < 100 then "0" else "") + d;
    assert "" + d == d;
  }

  /** One of the first n ids handed out. */
  ghost predicate Numbered(n: nat, eid: string) {
    exists k: nat :: 1 <= k <= n && eid == ExecId(k)
  }

  /** Every live execution, and every execution a receipt names, is one of the first n that
      were ever logged: the log is only appended to, and voided executions stay on it. */
  ghost predicate FromLog(b: Book, n: nat) {
    && (forall eid :: Latest(b.executions, eid).Some? ==> Numbered(n, eid))
    && (forall k, eid :: 0 <= k < |b.receipts| && eid in b.receipts[k].executions ==> Numbered(n, eid))
  }

  lemma NextIsNew(n: nat)
    ensures !Numbered(n, ExecId(n + 1))
  {
    PaddedValue(n + 1);
    forall k: nat | 1 <= k <= n ensures ExecId(k) != ExecId(n + 1) {
      PaddedValue(k);
    }
  }

  /** So the next id is fresh for the receipts too, and the guard is enough. */
  lemma NextIdIsFresh(b: Book, n: nat)
    requires FromLog(b, n)
    ensures FreshId(b, ExecId(n + 1))
  {
    NextIsNew(n);
  }

  // ---- Whole runs --------------------------------------------------------------

  /** One execution of a proposal, booked under the guard; one execution taken out; or one
      that was taken out brought back, which asks no guard. */
  datatype Op =
    | Adopt(book: nat, execution: Execution, txns: seq<string>, order: Option<string>)
    | Void(book: nat, id: string)
    | Restore(book: nat, execution: Execution)

  /** The books, and what has been voided in each and not restored. */
  datatype World = World(books: Books, out: set<(nat, Execution)>)

  ghost predicate Allowed(w: World, op: Op) {
    && op.book < |w.books|
    && (op.Adopt? ==> op.execution.id.Some? && FreshId(w.books[op.book].1, op.execution.id.value)
                      && Covered(op.execution, op.txns, op.order)
                      && !Elsewhere(w.books, w.books[op.book].0, KeysOf(op.txns, op.order)))
    && (op.Restore? ==> (op.book, op.execution) in w.out && op.execution.id.Some?
                        && NotLive(w.books[op.book].1, op.execution.id.value))
  }

  function VoidedIn(books: Books, m: nat, id: string): Books
    requires m < |books|
  {
    books[m := (books[m].0, Voided(books[m].1, id))]
  }

  /** The executions of book m with this id. */
  function Taken(books: Books, m: nat, id: string): set<(nat, Execution)>
    requires m < |books|
  {
    set k | 0 <= k < |books[m].1.executions| && books[m].1.executions[k].id == Some(id) ::
      (m, books[m].1.executions[k])
  }

  ghost function Step(w: World, op: Op): (after: World)
    ensures |after.books| == |w.books| && forall i :: 0 <= i < |w.books| ==> after.books[i].0 == w.books[i].0
  {
    if !Allowed(w, op) then w
    else
      match op
      case Adopt(m, e, _, _) => w.(books := Adopted(w.books, m, e))
      case Void(m, id) => World(VoidedIn(w.books, m, id), w.out + Taken(w.books, m, id))
      case Restore(m, e) => World(Adopted(w.books, m, e), w.out - {(m, e)})
  }

  ghost function Run(books: Books, ops: seq<Op>): (after: World)
    ensures |after.books| == |books| && forall i :: 0 <= i < |books| ==> after.books[i].0 == books[i].0
  {
    if ops == [] then World(books, {}) else Step(Run(books, ops[..|ops| - 1]), ops[|ops| - 1])
  }

  /** No other book carries an id that the restored execution brings back. */
  ghost predicate Clear(w: World, op: Op) {
    op.Restore? && Allowed(w, op) ==>
      forall key :: Gains(w.books[op.book].1, op.execution, key) ==> !CarriedApart(w.books, op.book, key)
  }

  ghost predicate ClearRun(books: Books, ops: seq<Op>) {
    forall n :: 0 <= n < |ops| ==> Clear(Run(books, ops[..n]), ops[n])
  }

  /** No clear step reports an execution that was not reported before. */
  lemma StepReports(w: World, op: Op, key: Key, i: int, eid: string)
    requires DistinctAccounts(w.books) && Clear(w, op) && Reported(Step(w, op).books, key, i, eid)
    ensures Reported(w.books, key, i, eid)
  {
    if Allowed(w, op) {
      match op
      case Adopt(m, e, txns, order) =>
        GuardedAdoption(w.books, m, e, txns, order);
        assert SameLine(w.books, Step(w, op).books, key);
      case Void(m, id) => VoidReports(w.books, m, id, key, i, eid);
      case Restore(m, e) =>
        GuardIsExact(w.books, m, e);
        assert SameLine(w.books, Step(w, op).books, key);
    }
  }

  lemma VoidReports(books: Books, m: nat, gone: string, key: Key, i: int, eid: string)
    requires m < |books| && Reported(VoidedIn(books, m, gone), key, i, eid)
    ensures Reported(books, key, i, eid)
  {
    var after := VoidedIn(books, m, gone);
    forall j | 0 <= j < |books| && Carries(after[j].1, key) ensures Carries(books[j].1, key) {
      var x :| Holds(after[j].1, key, x);
      VoidedHolds(books[m].1, gone, key, x);
      assert Holds(books[j].1, key, x);
    }
    VoidedHolds(books[m].1, gone, key, eid);
    var j, k :| 0 <= j < k < |after| && Carries(after[j].1, key) && Carries(after[k].1, key);
    assert Carries(books[j].1, key) && Carries(books[k].1, key);
  }

  lemma ClearFront(books: Books, ops: seq<Op>)
    requires ops != [] && ClearRun(books, ops)
    ensures ClearRun(books, ops[..|ops| - 1]) && Clear(Run(books, ops[..|ops| - 1]), ops[|ops| - 1])
  {
    var front := ops[..|ops| - 1];
    forall n | 0 <= n < |front| ensures Clear(Run(books, front[..n]), front[n]) {
      assert front[..n] == ops[..n] && front[n] == ops[n];
    }
  }

  /** Whatever the books hold to begin with, no sequence of guarded adoptions, voids and
      clear restores ever makes the check report anything it did not report at the start. */
  lemma {:induction false} RunReportsNothingNew(books: Books, ops: seq<Op>, key: Key, i: int, eid: string)
    requires DistinctAccounts(books) && ClearRun(books, ops) && Reported(Run(books, ops).books, key, i, eid)
    ensures Reported(books, key, i, eid)
  {
    if ops != [] {
      ClearFront(books, ops);
      StepReports(Run(books, ops[..|ops| - 1]), ops[|ops| - 1], key, i, eid);
      RunReportsNothingNew(books, ops[..|ops| - 1], key, i, eid);
    }
  }

  ghost predicate Disjoint(books: Books) {
    forall key :: !Duplicated(books, key)
  }

  lemma DuplicatedIsReported(books: Books, key: Key)
    requires Duplicated(books, key)
    ensures exists i, eid :: Reported(books, key, i, eid)
  {
    var i, j :| 0 <= i < j < |books| && Carries(books[i].1, key) && Carries(books[j].1, key);
    var eid :| Holds(books[i].1, key, eid);
    assert Reported(books, key, i, eid);
  }

  /** One broker fill, one book: kept by every such run. */
  lemma RunStaysDisjoint(books: Books, ops: seq<Op>)
    requires DistinctAccounts(books) && Disjoint(books) && ClearRun(books, ops)
    ensures Disjoint(Run(books, ops).books)
  {
    var after := Run(books, ops).books;
    forall key ensures !Duplicated(after, key) {
      if Duplicated(after, key) {
        DuplicatedIsReported(after, key);
        var i, eid :| Reported(after, key, i, eid);
        RunReportsNothingNew(books, ops, key, i, eid);
      }
    }
  }

  /** A restore that is not clear brings a duplicate in. */
  lemma UnclearDuplicates(w: World, op: Op)
    requires !Clear(w, op)
    ensures !Disjoint(Step(w, op).books)
  {
    var key :| Gains(w.books[op.book].1, op.execution, key) && CarriedApart(w.books, op.book, key);
    AdoptedIsReported(w.books, op.book, op.execution, key);
    assert Duplicated(Step(w, op).books, key);
  }

  /** All the way through the run, the books are free of duplicates. */
  ghost predicate DisjointThroughout(books: Books, ops: seq<Op>) {
    forall n :: 0 <= n <= |ops| ==> Disjoint(Run(books, ops[..n]).books)
  }

  lemma ClearIsEnough(books: Books, ops: seq<Op>)
    requires DistinctAccounts(books) && Disjoint(books) && ClearRun(books, ops)
    ensures DisjointThroughout(books, ops)
  {
    forall n | 0 <= n <= |ops| ensures Disjoint(Run(books, ops[..n]).books) {
      ClearPrefix(books, ops, n);
      RunStaysDisjoint(books, ops[..n]);
    }
  }

  lemma ClearIsNeeded(books: Books, ops: seq<Op>)
    requires !ClearRun(books, ops)
    ensures !DisjointThroughout(books, ops)
  {
    var n :| 0 <= n < |ops| && !Clear(Run(books, ops[..n]), ops[n]);
    UnclearDuplicates(Run(books, ops[..n]), ops[n]);
    RunStep(books, ops, n);
    assert !Disjoint(Run(books, ops[..n + 1]).books);
  }

  lemma RunStep(books: Books, ops: seq<Op>, n: nat)
    requires n < |ops|
    ensures Run(books, ops[..n + 1]) == Step(Run(books, ops[..n]), ops[n])
  {
    assert ops[..n + 1][..n] == ops[..n];
  }

  /** Books that start out disjoint stay so, all the way through, exactly when every restore
      is clear when it is made. */
  lemma DisjointExactlyWhenClear(books: Books, ops: seq<Op>)
    requires DistinctAccounts(books) && Disjoint(books)
    ensures DisjointThroughout(books, ops) <==> ClearRun(books, ops)
  {
    if ClearRun(books, ops) {
      ClearIsEnough(books, ops);
    } else {
      ClearIsNeeded(books, ops);
    }
  }

  lemma ClearPrefix(books: Books, ops: seq<Op>, n: nat)
    requires n <= |ops| && ClearRun(books, ops)
    ensures ClearRun(books, ops[..n])
  {
    forall k | 0 <= k < n ensures Clear(Run(books, ops[..n][..k]), ops[..n][k]) {
      assert ops[..n][..k] == ops[..k] && ops[..n][k] == ops[k];
    }
  }

  // ---- A restore that is not clear ---------------------------------------------

  const VOIDED := Execution(Some("x"), None, Some("7"))
  const COPIED := Execution(Some("y"), None, Some("7"))

  /** Book "a" booked order 7. */
  function OneBooked(): Books {
    [("a", Book([VOIDED], [])), ("b", Book([], []))]
  }

  /** It is voided there, adopted into "b" with nothing to stop it, and restored in "a". */
  function VoidAdoptRestore(): seq<Op> {
    [Void(0, "x"), Adopt(1, COPIED, [], Some("7")), Restore(0, VOIDED)]
  }

  function NoneBooked(): Books {
    [("a", Book([], [])), ("b", Book([], []))]
  }

  function CopyBooked(): Books {
    [("a", Book([], [])), ("b", Book([COPIED], []))]
  }

  lemma AfterVoid()
    ensures Run(OneBooked(), VoidAdoptRestore()[..1]) == World(NoneBooked(), {(0, VOIDED)})
  {
    var books, ops := OneBooked(), VoidAdoptRestore();
    assert ops[..1][..0] == [] && Run(books, []) == World(books, {});
    assert [VOIDED][..0] == [] && Without([VOIDED], "x") == [];
    assert VoidedIn(books, 0, "x") == NoneBooked();
    assert books[0].1.executions[0] == VOIDED;
    assert Taken(books, 0, "x") == {(0, VOIDED)};
  }

  lemma AfterAdopt()
    ensures Run(OneBooked(), VoidAdoptRestore()[..2]) == World(CopyBooked(), {(0, VOIDED)})
  {
    var w, op := World(NoneBooked(), {(0, VOIDED)}), VoidAdoptRestore()[1];
    AfterVoid();
    assert VoidAdoptRestore()[..2][..1] == VoidAdoptRestore()[..1];
    assert !Elsewhere(w.books, "b", KeysOf([], Some("7")));
    assert Allowed(w, op);
    assert [] + [COPIED] == [COPIED];
    assert Adopted(w.books, 1, COPIED) == CopyBooked();
  }

  /** Three steps from books that share nothing, and both hold order 7. */
  lemma RestoreDuplicates()
    ensures DistinctAccounts(OneBooked()) && Disjoint(OneBooked())
    ensures Duplicated(Run(OneBooked(), VoidAdoptRestore()).books, Order("7"))
  {
    var w, op := World(CopyBooked(), {(0, VOIDED)}), VoidAdoptRestore()[2];
    AfterAdopt();
    assert VoidAdoptRestore()[..|VoidAdoptRestore()| - 1] == VoidAdoptRestore()[..2];
    assert Allowed(w, op);
    var after := Step(w, op).books;
    assert [] + [VOIDED] == [VOIDED];
    assert after[0].1 == Book([VOIDED], []) && after[1].1 == Book([COPIED], []);
    assert Holds(after[0].1, Order("7"), "x") && Holds(after[1].1, Order("7"), "y");
    assert Carries(after[0].1, Order("7")) && Carries(after[1].1, Order("7"));
  }

  // ---- The texts of the ids ----------------------------------------------------

  /** key.partition(":"), its first and last part. */
  function Partition(s: string): (string, string) {
    if s == "" then ("", "")
    else if s[0] == ':' then ("", s[1..])
    else ([s[0]] + Partition(s[1..]).0, Partition(s[1..]).1)
  }

  lemma {:induction false} PartitionOf(kind: string, rest: string)
    requires ':' !in kind
    ensures Partition(kind + ":" + rest) == (kind, rest)
  {
    var s := kind + ":" + rest;
    if kind == "" {
      assert s[1..] == rest;
    } else {
      assert s[1..] == kind[1..] + ":" + rest;
      PartitionOf(kind[1..], rest);
      assert [s[0]] + kind[1..] == kind;
    }
  }

  /** The report's kind and broker id are those of the key, so no two keys share a text. */
  lemma TextRoundTrip(key: Key)
    ensures Partition(key.Text()) == (if key.Txn? then "txn" else "order", key.id)
  {
    if key.Txn? {
      PartitionOf("txn", key.id);
      assert "txn" + ":" == "txn:";
    } else {
      PartitionOf("order", key.id);
      assert "order" + ":" == "order:";
    }
  }
}
