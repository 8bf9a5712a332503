/** backend/cross_book.py: one broker fill, one book. Which broker ids a book holds, which
    of them more than one book holds, and the guard on adopting a trade. The live
    executions, as the log derives them, are an input. */
module CrossBook {
  import opened Bags
  import opened Common
  import opened Sorting
  import opened Strings

  datatype Execution = Execution(id: Option<string>, txn: Option<string>, order: Option<string>)

  datatype Receipt = Receipt(order: Option<string>, executions: seq<string>)

  datatype Book = Book(executions: seq<Execution>, receipts: seq<Receipt>)

  /** A broker id: "txn:<id>" or "order:<id>". */
  datatype Key = Txn(id: string) | Order(id: string) {
    function Text(): string {
      match this
      case Txn(id) => "txn:" + id
      case Order(id) => "order:" + id
    }
  }

  // ---- What holding an id means ------------------------------------------------

  /** The live execution with this id: the last one, when an id is repeated. */
  function Latest(es: seq<Execution>, eid: string): Option<Execution> {
    if es == [] then None
    else if es[|es| - 1].id == Some(eid) then Some(es[|es| - 1])
    else Latest(es[..|es| - 1], eid)
  }

  /** Execution k is the last with its id. */
  predicate IsLatest(es: seq<Execution>, k: int, eid: string) {
    0 <= k < |es| && es[k].id == Some(eid) && forall j :: k < j < |es| ==> es[j].id != Some(eid)
  }

  lemma {:induction false} LatestMeans(es: seq<Execution>, eid: string)
    ensures Latest(es, eid).None? <==> forall k :: 0 <= k < |es| ==> es[k].id != Some(eid)
    ensures Latest(es, eid).Some? ==> exists k :: IsLatest(es, k, eid) && Latest(es, eid) == Some(es[k])
  {
    if es != [] {
      var front, last := es[..|es| - 1], |es| - 1;
      if es[last].id == Some(eid) {
        assert IsLatest(es, last, eid);
      } else {
        LatestMeans(front, eid);
        if k :| IsLatest(front, k, eid) && Latest(front, eid) == Some(front[k]) { assert IsLatest(es, k, eid); }
      }
    }
  }

  predicate ByItself(e: Execution, key: Key) {
    key.id != "" && (if key.Txn? then e.txn else e.order) == Some(key.id)
  }

  predicate ByReceipt(r: Receipt, key: Key, eid: string) {
    key.Order? && r.order == Some(key.id) && eid in r.executions
  }

  ghost predicate ByReceipts(rs: seq<Receipt>, key: Key, eid: string) {
    exists k :: 0 <= k < |rs| && ByReceipt(rs[k], key, eid)
  }

  ghost predicate Holds(b: Book, key: Key, eid: string) {
    var e := Latest(b.executions, eid);
    e.Some? && (ByItself(e.value, key) || ByReceipts(b.receipts, key, eid))
  }

  /** The last execution with the id has it on itself, or a receipt of that order names it. */
  lemma HoldsMeans(b: Book, key: Key, eid: string)
    ensures Holds(b, key, eid)
            <==> exists k ::
              && IsLatest(b.executions, k, eid)
              && (|| (match key
                      case Txn(id) => id != "" && b.executions[k].txn == Some(id)
                      case Order(id) => id != "" && b.executions[k].order == Some(id))
                  || exists n ::
                       && 0 <= n < |b.receipts| && key.Order?
                       && b.receipts[n].order == Some(key.id) && eid in b.receipts[n].executions)
  {
    LatestMeans(b.executions, eid);
    if Holds(b, key, eid) {
      var k :| IsLatest(b.executions, k, eid) && Latest(b.executions, eid) == Some(b.executions[k]);
      if ByReceipts(b.receipts, key, eid) {
        var n :| 0 <= n < |b.receipts| && ByReceipt(b.receipts[n], key, eid);
        assert b.receipts[n].order == Some(key.id);
      }
    }
    forall j, k | IsLatest(b.executions, j, eid) && IsLatest(b.executions, k, eid) ensures j == k {}
    forall n | 0 <= n < |b.receipts| && key.Order? && b.receipts[n].order == Some(key.id)
               && eid in b.receipts[n].executions
      ensures ByReceipts(b.receipts, key, eid)
    {
      assert ByReceipt(b.receipts[n], key, eid);
    }
  }

  ghost predicate Carries(b: Book, key: Key) {
    exists eid :: Holds(b, key, eid)
  }

  // ---- The index of one book ---------------------------------------------------

  predicate Has(out: map<Key, seq<string>>, key: Key, eid: string) {
    key in out && eid in out[key]
  }

  ghost predicate NoRepeat(s: seq<string>) {
    forall i, j :: 0 <= i < j < |s| ==> s[i] != s[j]
  }

  ghost predicate Proper(out: map<Key, seq<string>>) {
    forall key :: key in out ==> out[key] != [] && NoRepeat(out[key])
  }

  /** setdefault, and append when it is not there yet. */
  function Add(out: map<Key, seq<string>>, key: Key, eid: string): map<Key, seq<string>> {
    if key !in out then out[key := [eid]]
    else if eid in out[key] then out
    else out[key := out[key] + [eid]]
  }

  lemma AddHas(out: map<Key, seq<string>>, key: Key, eid: string)
    requires Proper(out)
    ensures Proper(Add(out, key, eid))
    ensures forall k, e :: Has(Add(out, key, eid), k, e) <==> Has(out, k, e) || (k == key && e == eid)
  {
  }

  /** The live executions by id: the keys in the order in which they first occur. */
  method LiveOf(es: seq<Execution>) returns (live: map<string, Execution>, ids: seq<string>)
    ensures forall eid :: eid in live <==> eid in ids
    ensures forall eid :: Latest(es, eid) == if eid in live then Some(live[eid]) else None
  {
    live, ids := map[], [];
    for i := 0 to |es|
      invariant forall eid :: eid in live <==> eid in ids
      invariant forall eid :: Latest(es[..i], eid) == if eid in live then Some(live[eid]) else None
    {
      assert es[..i + 1][..i] == es[..i];
      if es[i].id.Some? {
        var eid := es[i].id.value;
        if eid !in live {
          ids := ids + [eid];
        }
        live := live[eid := es[i]];
      }
    }
    assert es[..|es|] == es;
  }

  method FromExecutions(live: map<string, Execution>, ids: seq<string>) returns (out: map<Key, seq<string>>)
    requires forall eid :: eid in live <==> eid in ids
    ensures Proper(out)
    ensures forall key, eid :: Has(out, key, eid) <==> eid in live && ByItself(live[eid], key)
  {
    out := map[];
    for i := 0 to |ids|
      invariant Proper(out)
      invariant forall key, eid :: Has(out, key, eid) <==> eid in live && eid in ids[..i] && ByItself(live[eid], key)
    {
      var e := live[ids[i]];
      if Truthy(e.txn) {
        AddHas(out, Txn(e.txn.value), ids[i]);
        out := Add(out, Txn(e.txn.value), ids[i]);
      }
      if Truthy(e.order) {
        AddHas(out, Order(e.order.value), ids[i]);
        out := Add(out, Order(e.order.value), ids[i]);
      }
    }
    assert ids[..|ids|] == ids;
  }

  method FromReceipt(before: map<Key, seq<string>>, live: set<string>, r: Receipt) returns (out: map<Key, seq<string>>)
    requires Proper(before)
    ensures Proper(out)
    ensures forall key, eid :: Has(out, key, eid) <==> Has(before, key, eid) || (eid in live && ByReceipt(r, key, eid))
  {
    out := before;
    if r.order.None? {
      return;
    }
    for i := 0 to |r.executions|
      invariant Proper(out)
      invariant forall key, eid :: Has(out, key, eid) <==>
                  Has(before, key, eid) || (eid in live && ByReceipt(Receipt(r.order, r.executions[..i]), key, eid))
    {
      if r.executions[i] in live {
        AddHas(out, Order(r.order.value), r.executions[i]);
        out := Add(out, Order(r.order.value), r.executions[i]);
      }
    }
    assert r.executions[..|r.executions|] == r.executions;
  }

  /** Every id the book holds, with exactly the executions that hold it. */
  ghost predicate Indexes(out: map<Key, seq<string>>, b: Book) {
    Proper(out) && forall key, eid :: Has(out, key, eid) <==> Holds(b, key, eid)
  }

  method BrokerIds(b: Book) returns (out: map<Key, seq<string>>)
    ensures Indexes(out, b)
  {
    var live, ids := LiveOf(b.executions);
    out := FromExecutions(live, ids);
    for i := 0 to |b.receipts|
      invariant Proper(out)
      invariant forall key, eid :: Has(out, key, eid) <==>
                  eid in live && (ByItself(live[eid], key) || ByReceipts(b.receipts[..i], key, eid))
    {
      ReceiptsSnoc(b.receipts, i);
      out := FromReceipt(out, live.Keys, b.receipts[i]);
    }
    assert b.receipts[..|b.receipts|] == b.receipts;
  }

  lemma ReceiptsSnoc(rs: seq<Receipt>, n: nat)
    requires n < |rs|
    ensures forall key, eid :: ByReceipts(rs[..n + 1], key, eid) <==>
            ByReceipts(rs[..n], key, eid) || ByReceipt(rs[n], key, eid)
  {
    forall key, eid
      ensures ByReceipts(rs[..n + 1], key, eid) <==> ByReceipts(rs[..n], key, eid) || ByReceipt(rs[n], key, eid)
    {
      if ByReceipts(rs[..n], key, eid) {
        var k :| 0 <= k < n && ByReceipt(rs[..n][k], key, eid);
        assert ByReceipt(rs[..n + 1][k], key, eid);
      }
      if ByReceipt(rs[n], key, eid) { assert ByReceipt(rs[..n + 1][n], key, eid); }
      if ByReceipts(rs[..n + 1], key, eid) {
        var k :| 0 <= k < n + 1 && ByReceipt(rs[..n + 1][k], key, eid);
        if k < n { assert ByReceipt(rs[..n][k], key, eid); }
      }
    }
  }

  lemma CarriesIsKey(out: map<Key, seq<string>>, b: Book, key: Key)
    requires Indexes(out, b)
    ensures key in out <==> Carries(b, key)
  {
    if key in out { assert Has(out, key, out[key][0]); }
    if Carries(b, key) {
      var eid :| Holds(b, key, eid);
      assert Has(out, key, eid);
    }
  }

  // ---- Adopting: is the trade in another book? ---------------------------------

  type Books = seq<(string, Book)>

  ghost predicate DistinctAccounts(books: Books) {
    forall i, j :: 0 <= i < j < |books| ==> books[i].0 != books[j].0
  }

  datatype Held = Held(account: string, key: Key, executions: seq<string>)

  /** The keys of a proposal: its transaction ids and its order id, those that are set. */
  function KeysOf(txns: seq<string>, order: Option<string>): seq<Key> {
    if txns == [] then (if Truthy(order) then [Order(order.value)] else [])
    else (if txns[0] != "" then [Txn(txns[0])] else []) + KeysOf(txns[1..], order)
  }

  lemma {:induction false} KeysOfHas(txns: seq<string>, order: Option<string>, key: Key)
    ensures key in KeysOf(txns, order)
            <==> key.id != "" && (if key.Txn? then key.id in txns else order == Some(key.id))
  {
    if txns != [] {
      KeysOfHas(txns[1..], order, key);
      assert txns == [txns[0]] + txns[1..];
    }
  }

  /** The first key that a book holds. */
  method FirstHeld(account: string, ids: map<Key, seq<string>>, keys: seq<Key>) returns (r: Option<Held>)
    ensures r.None? <==> forall k :: 0 <= k < |keys| ==> keys[k] !in ids
    ensures r.Some? ==> r.value.account == account && r.value.key in keys && r.value.key in ids
                        && r.value.executions == ids[r.value.key]
  {
    for k := 0 to |keys|
      invariant forall j :: 0 <= j < k ==> keys[j] !in ids
    {
      if keys[k] in ids {
        return Some(Held(account, keys[k], ids[keys[k]]));
      }
    }
    return None;
  }

  ghost predicate HeldBy(b: Book, keys: seq<Key>) {
    exists k :: 0 <= k < |keys| && Carries(b, keys[k])
  }

  /** Some other book carries one of the keys. */
  ghost predicate Elsewhere(books: Books, me: string, keys: seq<Key>) {
    exists i :: 0 <= i < |books| && books[i].0 != me && HeldBy(books[i].1, keys)
  }

  ghost predicate HeldRight(books: Books, me: string, keys: seq<Key>, h: Held) {
    exists i :: 0 <= i < |books| && books[i].0 == h.account && h.account != me && h.key in keys
                && h.executions != [] && forall eid :: eid in h.executions <==> Holds(books[i].1, h.key, eid)
  }

  method HeldElsewhere(books: Books, me: string, txns: seq<string>, order: Option<string>) returns (r: Option<Held>)
    ensures r.Some? <==> Elsewhere(books, me, KeysOf(txns, order))
    ensures r.Some? ==> HeldRight(books, me, KeysOf(txns, order), r.value)
  {
    var keys := KeysOf(txns, order);
    if keys == [] {
      return None;
    }
    for i := 0 to |books|
      invariant forall j :: 0 <= j < i && books[j].0 != me ==> !HeldBy(books[j].1, keys)
    {
      if books[i].0 != me {
        var ids := BrokerIds(books[i].1);
        forall k | 0 <= k < |keys| ensures keys[k] in ids <==> Carries(books[i].1, keys[k]) {
          CarriesIsKey(ids, books[i].1, keys[k]);
        }
        var found := FirstHeld(books[i].0, ids, keys);
        if found.Some? {
          ghost var h := found.value;
          forall eid ensures eid in h.executions <==> Holds(books[i].1, h.key, eid) {
            assert Has(ids, h.key, eid) <==> Holds(books[i].1, h.key, eid);
          }
          ghost var k :| 0 <= k < |keys| && keys[k] == h.key;
          assert HeldBy(books[i].1, keys);
          return found;
        }
      }
    }
    return None;
  }

  // ---- The cross-book check ----------------------------------------------------

  /** More than one book carries the id. */
  ghost predicate Duplicated(books: Books, key: Key) {
    exists i, j :: 0 <= i < j < |books| && Carries(books[i].1, key) && Carries(books[j].1, key)
  }

  /** What the report says of execution eid of book i under an id. */
  ghost predicate Reported(books: Books, key: Key, i: int, eid: string) {
    Duplicated(books, key) && 0 <= i < |books| && Holds(books[i].1, key, eid)
  }

  type Where = map<string, seq<string>>

  /** The executions a book is listed with are those that hold the id. */
  ghost predicate Listing(eids: seq<string>, b: Book, key: Key) {
    forall eid :: eid in eids <==> Holds(b, key, eid)
  }

  /** One id of the report: exactly the books that carry it, each with its executions. */
  ghost predicate Located(books: Books, key: Key, at: Where) {
    && (forall a :: a in at ==> exists i :: 0 <= i < |books| && books[i].0 == a)
    && forall i :: 0 <= i < |books| ==>
         (books[i].0 in at <==> Carries(books[i].1, key))
         && (books[i].0 in at ==> Listing(at[books[i].0], books[i].1, key))
  }

  /** After some books, every id one of them carries is located among them. */
  ghost predicate Seen(books: Books, seen: map<Key, Where>) {
    && (forall key :: key in seen <==> SomeCarries(books, key))
    && (forall key :: key in seen ==> Located(books, key, seen[key]))
  }

  function With<K, A, V>(seen: map<K, map<A, V>>, key: K, account: A, v: V): map<A, V> {
    (if key in seen then seen[key] else map[])[account := v]
  }

  /** seen.setdefault(key, {})[account] = executions, for every key of the book. */
  function Note<K, A, V>(seen: map<K, map<A, V>>, account: A, out: map<K, V>): map<K, map<A, V>> {
    map key | key in seen.Keys + out.Keys :: if key in out then With(seen, key, account, out[key]) else seen[key]
  }

  lemma NoteIs<K, A, V>(seen: map<K, map<A, V>>, account: A, out: map<K, V>, r: map<K, map<A, V>>)
    requires forall key :: key in r <==> key in seen || key in out
    requires forall key :: key in r ==> r[key] == if key in out then With(seen, key, account, out[key]) else seen[key]
    ensures r == Note(seen, account, out)
  {
  }

  method NoteBook<K(==), A(==), V>(seen: map<K, map<A, V>>, account: A, out: map<K, V>) returns (r: map<K, map<A, V>>)
    ensures r == Note(seen, account, out)
  {
    r := seen;
    var todo := out.Keys;
    while todo != {}
      invariant forall key :: key in todo ==> key in out
      invariant forall key :: key in r <==> key in seen || (key in out && key !in todo)
      invariant forall key :: key in r ==>
                r[key] == if key in out && key !in todo then With(seen, key, account, out[key]) else seen[key]
      decreases |todo|
    {
      var key :| key in todo;
      r := r[key := With(r, key, account, out[key])];
      todo := todo - {key};
    }
    NoteIs(seen, account, out, r);
  }

  lemma LocatedStep(books: Books, n: nat, key: Key, before: Where, out: map<Key, seq<string>>)
    requires DistinctAccounts(books) && n < |books| && Indexes(out, books[n].1)
    requires Located(books[..n], key, before)
    ensures Located(books[..n + 1], key, if key in out then before[books[n].0 := out[key]] else before)
  {
    var now := books[..n + 1];
    var at := if key in out then before[books[n].0 := out[key]] else before;
    CarriesIsKey(out, books[n].1, key);
    assert forall i :: 0 <= i < n ==> now[i] == books[..n][i];
    assert now[n] == books[n];
    forall i | 0 <= i < |now|
      ensures now[i].0 in at <==> Carries(now[i].1, key)
      ensures now[i].0 in at ==> Listing(at[now[i].0], now[i].1, key)
    {
      if i == n && key in out {
        assert forall eid :: eid in out[key] <==> Has(out, key, eid);
      } else if i == n {
        assert books[n].0 !in before;
      }
    }
    forall a | a in at ensures exists i :: 0 <= i < |now| && now[i].0 == a {
      if a in before {
        var i :| 0 <= i < n && books[..n][i].0 == a;
        assert now[i].0 == a;
      }
    }
  }

  lemma NothingLocated(books: Books, key: Key)
    requires forall i :: 0 <= i < |books| ==> !Carries(books[i].1, key)
    ensures Located(books, key, map[])
  {
  }

  ghost predicate SomeCarries(books: Books, key: Key) {
    exists i :: 0 <= i < |books| && Carries(books[i].1, key)
  }

  lemma SomeCarriesSnoc(books: Books, n: nat, key: Key)
    requires n < |books|
    ensures SomeCarries(books[..n + 1], key) <==> SomeCarries(books[..n], key) || Carries(books[n].1, key)
  {
    assert forall i :: 0 <= i < n ==> books[..n + 1][i] == books[..n][i];
    assert books[..n + 1][n] == books[n];
    if SomeCarries(books[..n], key) {
      var i :| 0 <= i < n && Carries(books[..n][i].1, key);
      assert Carries(books[..n + 1][i].1, key);
    }
  }

  lemma SeenStep(books: Books, n: nat, seen: map<Key, Where>, out: map<Key, seq<string>>)
    requires DistinctAccounts(books) && n < |books| && Indexes(out, books[n].1) && Seen(books[..n], seen)
    ensures Seen(books[..n + 1], Note(seen, books[n].0, out))
  {
    var next, now := Note(seen, books[n].0, out), books[..n + 1];
    forall key
      ensures key in next <==> SomeCarries(now, key)
      ensures key in next ==> Located(now, key, next[key])
    {
      CarriesIsKey(out, books[n].1, key);
      SomeCarriesSnoc(books, n, key);
      if key !in seen { NothingLocated(books[..n], key); }
      LocatedStep(books, n, key, if key in seen then seen[key] else map[], out);
    }
  }

  datatype Duplicate = Duplicate(key: Key, books: Where)

  predicate KeyLe(a: Key, b: Key) {
    Le(a.Text(), b.Text())
  }

  /** The ids in the order of their texts. */
  method InOrder(keys: set<Key>) returns (order: seq<Key>)
    ensures forall k :: k in order <==> k in keys
    ensures forall i, j :: 0 <= i < j < |order| ==> order[i] != order[j] && KeyLe(order[i], order[j])
  {
    var all := Listed(keys);
    order := Sort(all, KeyLe);
    KeyLeIsOrder();
    SortSorted(all, KeyLe);
    SortBag(all, KeyLe);
    SameBagSameMembers(all, order);
    DistinctBag(all);
    BagDistinct(order);
  }

  lemma KeyLeIsOrder()
    ensures TotalPreorder(KeyLe)
  {
    forall a, b ensures KeyLe(a, b) || KeyLe(b, a) {
      LeTotal(a.Text(), b.Text());
    }
    forall a, b, c | KeyLe(a, b) && KeyLe(b, c) ensures KeyLe(a, c) {
      LeTransitive(a.Text(), b.Text(), c.Text());
    }
  }

  lemma TwoPlaces(books: Books, key: Key, at: Where)
    requires DistinctAccounts(books) && Located(books, key, at)
    ensures |at| >= 2 <==> Duplicated(books, key)
  {
    if Duplicated(books, key) {
      var i, j :| 0 <= i < j < |books| && Carries(books[i].1, key) && Carries(books[j].1, key);
      AtLeastTwo(at.Keys, books[i].0, books[j].0);
    }
    if |at| >= 2 { TwoAreDuplicated(books, key, at); }
  }

  lemma TwoAreDuplicated(books: Books, key: Key, at: Where)
    requires Located(books, key, at) && |at| >= 2
    ensures Duplicated(books, key)
  {
    var a :| a in at;
    assert |at.Keys - {a}| >= 1;
    var b :| b in at.Keys - {a};
    var i :| 0 <= i < |books| && books[i].0 == a;
    var j :| 0 <= j < |books| && books[j].0 == b;
    assert Carries(books[i].1, key) && Carries(books[j].1, key);
    assert i != j;
    assert Duplicated(books, key);
  }

  /** sorted(executions), book by book. */
  function SortedLists(at: Where): Where {
    map a | a in at :: Sort(at[a], Le)
  }

  lemma SortedListsLocated(books: Books, key: Key, at: Where)
    requires Located(books, key, at)
    ensures Located(books, key, SortedLists(at))
  {
    forall i | 0 <= i < |books| && books[i].0 in at
      ensures Listing(SortedLists(at)[books[i].0], books[i].1, key)
    {
      SortBag(at[books[i].0], Le);
      SameBagSameMembers(at[books[i].0], Sort(at[books[i].0], Le));
    }
  }

  ghost predicate Right(books: Books, d: Duplicate) {
    Duplicated(books, d.key) && Located(books, d.key, d.books)
  }

  ghost predicate Mentions(dups: seq<Duplicate>, key: Key) {
    exists i :: 0 <= i < |dups| && dups[i].key == key
  }

  /** Every id once, in order. */
  ghost predicate Ascending(dups: seq<Duplicate>) {
    forall i, j :: 0 <= i < j < |dups| ==> dups[i].key != dups[j].key && KeyLe(dups[i].key, dups[j].key)
  }

  lemma DuplicateSnoc(dups: seq<Duplicate>, d: Duplicate)
    ensures forall k :: Mentions(dups + [d], k) <==> Mentions(dups, k) || k == d.key
    ensures Ascending(dups) && (forall i :: 0 <= i < |dups| ==> dups[i].key != d.key && KeyLe(dups[i].key, d.key))
            ==> Ascending(dups + [d])
  {
    assert (dups + [d])[|dups|] == d && forall i :: 0 <= i < |dups| ==> (dups + [d])[i] == dups[i];
    forall k ensures Mentions(dups + [d], k) <==> Mentions(dups, k) || k == d.key {
      if Mentions(dups, k) {
        var i :| 0 <= i < |dups| && dups[i].key == k;
        assert (dups + [d])[i].key == k;
      }
    }
  }

  method Entry(books: Books, key: Key, at: Where) returns (d: Option<Duplicate>)
    requires DistinctAccounts(books) && Located(books, key, at)
    ensures d.Some? <==> Duplicated(books, key)
    ensures d.Some? ==> d.value.key == key && Right(books, d.value)
  {
    TwoPlaces(books, key, at);
    if |at| < 2 {
      return None;
    }
    SortedListsLocated(books, key, at);
    return Some(Duplicate(key, SortedLists(at)));
  }

  /** The entries are right, in order, and no duplicated id among the first n is left out. */
  ghost predicate Covers(books: Books, order: seq<Key>, n: nat, dups: seq<Duplicate>) {
    && n <= |order| && Ascending(dups)
    && (forall i :: 0 <= i < |dups| ==> Right(books, dups[i]))
    && (forall k :: 0 <= k < n && Duplicated(books, order[k]) ==> Mentions(dups, order[k]))
  }

  /** Every entry comes before the ids still to be looked at. */
  ghost predicate Before(dups: seq<Duplicate>, order: seq<Key>, n: nat) {
    forall i, k :: 0 <= i < |dups| && n <= k < |order| ==> dups[i].key != order[k] && KeyLe(dups[i].key, order[k])
  }

  lemma CoversNone(books: Books, order: seq<Key>, n: nat, dups: seq<Duplicate>)
    requires n < |order| && Covers(books, order, n, dups) && !Duplicated(books, order[n])
    ensures Covers(books, order, n + 1, dups)
  {
  }

  lemma CoversSome(books: Books, order: seq<Key>, n: nat, dups: seq<Duplicate>, d: Duplicate)
    requires n < |order| && Covers(books, order, n, dups) && Before(dups, order, n)
    requires d.key == order[n] && Right(books, d)
    ensures Covers(books, order, n + 1, dups + [d])
  {
    DuplicateSnoc(dups, d);
    forall i | 0 <= i < |dups + [d]| ensures Right(books, (dups + [d])[i]) {
      assert i < |dups| ==> (dups + [d])[i] == dups[i];
    }
  }

  lemma BeforeSnoc(dups: seq<Duplicate>, order: seq<Key>, n: nat, d: Duplicate)
    requires n < |order| && Before(dups, order, n) && d.key == order[n]
    requires forall i, j :: 0 <= i < j < |order| ==> order[i] != order[j] && KeyLe(order[i], order[j])
    ensures Before(dups + [d], order, n + 1)
  {
    forall i, k | 0 <= i < |dups + [d]| && n + 1 <= k < |order|
      ensures (dups + [d])[i].key != order[k] && KeyLe((dups + [d])[i].key, order[k])
    {
      assert i < |dups| ==> (dups + [d])[i] == dups[i];
    }
  }

  method Repeated(books: Books, seen: map<Key, Where>, order: seq<Key>) returns (dups: seq<Duplicate>)
    requires DistinctAccounts(books) && Seen(books, seen) && forall k :: k in order ==> k in seen
    requires forall i, j :: 0 <= i < j < |order| ==> order[i] != order[j] && KeyLe(order[i], order[j])
    ensures Covers(books, order, |order|, dups)
  {
    dups := [];
    for n := 0 to |order|
      invariant Covers(books, order, n, dups) && Before(dups, order, n)
    {
      assert order[n] in seen;
      var d := Entry(books, order[n], seen[order[n]]);
      if d.Some? {
        CoversSome(books, order, n, dups, d.value);
        BeforeSnoc(dups, order, n, d.value);
        dups := dups + [d.value];
      } else {
        CoversNone(books, order, n, dups);
      }
    }
  }

  /** Every id that more than one book carries, once, in order, and nothing else. */
  method FindDuplicates(books: Books) returns (dups: seq<Duplicate>)
    requires DistinctAccounts(books)
    ensures forall i :: 0 <= i < |dups| ==> Right(books, dups[i])
    ensures forall key :: Duplicated(books, key) <==> Mentions(dups, key)
    ensures Ascending(dups)
  {
    var seen: map<Key, Where> := map[];
    for i := 0 to |books|
      invariant Seen(books[..i], seen)
    {
      var ids := BrokerIds(books[i].1);
      SeenStep(books, i, seen, ids);
      seen := NoteBook(seen, books[i].0, ids);
    }
    assert books[..|books|] == books;
    var order := InOrder(seen.Keys);
    dups := Repeated(books, seen, order);
    forall key ensures Duplicated(books, key) <==> Mentions(dups, key) {
      if Duplicated(books, key) { assert SomeCarries(books, key) && key in order; }
    }
  }
}
