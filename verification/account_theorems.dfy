/** What the registry keeps over every sequence of its operations. */
module AccountTheorems {
  import opened Accounts
  import opened Common
  import opened Strings

  // ---- The invariant -----------------------------------------------------------

  predicate NumberOk(a: Account) {
    a.number.Some? ==> a.number.value != "" && Strip(a.number.value) == a.number.value
  }

  predicate IdOk(a: Account) {
    ValidId(a.id) && !Reserved(a.id)
  }

  ghost predicate DistinctIds(accts: seq<Account>) {
    forall i, j :: 0 <= i < j < |accts| ==> accts[i].id != accts[j].id
  }

  /** The primary is first, and ids are valid, unreserved and distinct. */
  ghost predicate Shape(accts: seq<Account>) {
    && accts != [] && accts[0].id == DEFAULT_ID && !accts[0].archived
    && (forall i :: 0 <= i < |accts| ==> IdOk(accts[i]))
    && DistinctIds(accts)
  }

  /** The active id names a registered book that is not archived. */
  ghost predicate ActiveOk(r: Registry) {
    exists i :: 0 <= i < |r.accounts| && r.accounts[i].id == r.active && !r.accounts[i].archived
  }

  ghost predicate Inv(r: Registry) {
    && Shape(r.accounts) && ActiveOk(r)
    && (forall i :: 0 <= i < |r.accounts| ==> NumberOk(r.accounts[i]))
    && |r.accounts| <= MAX_ACCOUNTS
  }

  /** Two books that could trade the same brokerage account. */
  predicate Clash(a: Account, b: Account) {
    !a.archived && !b.archived && Truthy(a.number) && a.number == b.number
  }

  ghost predicate DistinctNumbers(accts: seq<Account>) {
    forall i, j :: 0 <= i < j < |accts| ==> !Clash(accts[i], accts[j])
  }

  // ---- Normalizing a well-shaped registry changes no id, number or archive flag ---

  lemma ValidIsClean(id: string)
    requires ValidId(id)
    ensures CleanId(id) == id
  {
    assert !IsSpace(id[0]) && !IsSpace(id[|id| - 1]);
    assert Strip(id) == id;
    assert forall k :: 0 <= k < |id| ==> LowerChar(id[k]) == id[k];
  }

  function CleanAll(accts: seq<Account>): (r: seq<Account>)
    ensures |r| == |accts|
  {
    seq(|accts|, i requires 0 <= i < |accts| => CleanAccount(accts[i]))
  }

  lemma IdsHas(accts: seq<Account>, id: string)
    ensures id in Ids(accts) <==> exists i :: 0 <= i < |accts| && accts[i].id == id
  {
  }

  lemma CleanAllSnoc(accts: seq<Account>, a: Account)
    ensures CleanAll(accts + [a]) == CleanAll(accts) + [CleanAccount(a)]
  {
  }

  lemma CleanedSnoc(accts: seq<Account>, a: Account)
    requires ValidId(CleanAccount(a).id) && CleanAccount(a).id !in Ids(Cleaned(accts))
    ensures Cleaned(accts + [a]) == Cleaned(accts) + [CleanAccount(a)]
  {
    assert (accts + [a])[..|accts|] == accts;
  }

  lemma CleanKeepsId(a: Account)
    requires ValidId(a.id)
    ensures CleanAccount(a).id == a.id
  {
    ValidIsClean(a.id);
  }

  lemma FreshAmong(front: seq<Account>, last: Account)
    requires ValidId(last.id) && forall i :: 0 <= i < |front| ==> ValidId(front[i].id) && front[i].id != last.id
    ensures last.id !in Ids(CleanAll(front))
  {
    forall i | 0 <= i < |front| ensures CleanAll(front)[i].id != last.id {
      CleanKeepsId(front[i]);
    }
  }

  lemma CleanedStep(front: seq<Account>, last: Account)
    requires ValidId(last.id) && forall i :: 0 <= i < |front| ==> ValidId(front[i].id) && front[i].id != last.id
    requires Cleaned(front) == CleanAll(front)
    ensures Cleaned(front + [last]) == CleanAll(front + [last])
  {
    FreshAmong(front, last);
    CleanKeepsId(last);
    CleanedSnoc(front, last);
    CleanAllSnoc(front, last);
  }

  lemma ApartFromEarlier(accts: seq<Account>, n: nat)
    requires DistinctIds(accts) && n < |accts| && forall i :: 0 <= i < |accts| ==> ValidId(accts[i].id)
    ensures var front := accts[..n];
            forall i :: 0 <= i < |front| ==> ValidId(front[i].id) && front[i].id != accts[n].id
  {
    assert forall i :: 0 <= i < n ==> accts[..n][i] == accts[i];
  }

  lemma CleanedStepAt(accts: seq<Account>, n: nat)
    requires DistinctIds(accts) && n < |accts| && forall i :: 0 <= i < |accts| ==> ValidId(accts[i].id)
    requires Cleaned(accts[..n]) == CleanAll(accts[..n])
    ensures Cleaned(accts[..n + 1]) == CleanAll(accts[..n + 1])
  {
    TakeSnoc(accts, n + 1);
    ApartFromEarlier(accts, n);
    CleanedStep(accts[..n], accts[n]);
  }

  /** The first n entries, cleaned, are the first n entries of the cleaned list. */
  lemma {:induction false} CleanedPrefix(accts: seq<Account>, n: nat)
    requires DistinctIds(accts) && n <= |accts| && forall i :: 0 <= i < |accts| ==> ValidId(accts[i].id)
    ensures Cleaned(accts[..n]) == CleanAll(accts[..n])
  {
    if n > 0 {
      CleanedPrefix(accts, n - 1);
      CleanedStepAt(accts, n - 1);
    }
  }

  lemma {:induction false} PrimaryThenOthers(accts: seq<Account>)
    requires accts != [] && accts[0].id == DEFAULT_ID && DistinctIds(accts)
    ensures Primaries(accts) == [accts[0]] && Others(accts) == accts[1..]
  {
    var front, last := accts[..|accts| - 1], accts[|accts| - 1];
    if |accts| == 1 {
      assert front == [];
    } else {
      assert forall i :: 0 <= i < |front| ==> front[i] == accts[i];
      PrimaryThenOthers(front);
      assert accts[1..] == front[1..] + [last];
    }
  }

  /** b is a as a write and a load leave it, but for the texts. */
  predicate SameBook(a: Account, b: Account) {
    a.id == b.id && a.archived == b.archived && b.number == (if a.number == Some("") then None else a.number)
  }

  /** A number as the operations build it: stripped, or empty. */
  predicate NumberClean(a: Account) {
    NumberOk(a) || a.number == Some("")
  }

  ghost predicate SameBooks(xs: seq<Account>, ys: seq<Account>) {
    |xs| == |ys| && forall i :: 0 <= i < |xs| ==> SameBook(xs[i], ys[i])
  }

  lemma CleanIsSame(a: Account)
    requires ValidId(a.id) && NumberClean(a)
    ensures SameBook(a, CleanAccount(a)) && NumberOk(CleanAccount(a))
  {
    CleanKeepsId(a);
  }

  lemma PrimaryStaysFirst(accts: seq<Account>)
    requires accts != [] && accts[0].id == DEFAULT_ID && DistinctIds(accts)
    ensures PrimaryFirst(accts) == accts
  {
    PrimaryThenOthers(accts);
    IdsHas(accts, DEFAULT_ID);
    assert accts == [accts[0]] + accts[1..];
  }

  lemma ActiveStays(r: Registry, c: seq<Account>)
    requires Cleaned(r.accounts) == c && PrimaryFirst(c) == c && ValidId(r.active) && r.active in Ids(c)
    ensures Normalize(r) == Registry(r.active, c)
  {
    ValidIsClean(r.active);
  }

  lemma CleanAllIds(accts: seq<Account>)
    requires Shape(accts)
    ensures var c := CleanAll(accts); c[0].id == DEFAULT_ID && DistinctIds(c)
    ensures forall i :: 0 <= i < |accts| ==> accts[i].id in Ids(CleanAll(accts))
  {
    var c := CleanAll(accts);
    forall i | 0 <= i < |accts| ensures c[i].id == accts[i].id && accts[i].id in Ids(c) {
      assert IdOk(accts[i]);
      CleanKeepsId(accts[i]);
      assert c[i].id in Ids(c);
    }
  }

  lemma ShapeIsAll(accts: seq<Account>)
    requires Shape(accts)
    ensures Cleaned(accts) == CleanAll(accts)
  {
    TakeAll(accts);
    forall i | 0 <= i < |accts| ensures ValidId(accts[i].id) {
      assert IdOk(accts[i]);
    }
    CleanedPrefix(accts, |accts|);
  }

  lemma NormalizeKeeps(r: Registry)
    requires Shape(r.accounts) && ActiveOk(r)
    ensures Normalize(r) == Registry(r.active, CleanAll(r.accounts))
  {
    ShapeIsAll(r.accounts);
    CleanAllIds(r.accounts);
    PrimaryStaysFirst(CleanAll(r.accounts));
    var k :| 0 <= k < |r.accounts| && r.accounts[k].id == r.active && !r.accounts[k].archived;
    assert IdOk(r.accounts[k]);
    ActiveStays(r, CleanAll(r.accounts));
  }

  lemma SameBooksShape(xs: seq<Account>, ys: seq<Account>)
    requires SameBooks(xs, ys) && Shape(xs)
    ensures Shape(ys)
  {
    forall i | 0 <= i < |ys| ensures IdOk(ys[i]) {
      assert SameBook(xs[i], ys[i]);
    }
    forall i, j | 0 <= i < j < |ys| ensures ys[i].id != ys[j].id {
      assert SameBook(xs[i], ys[i]) && SameBook(xs[j], ys[j]);
    }
    assert SameBook(xs[0], ys[0]);
  }

  lemma SameBooksNumbers(xs: seq<Account>, ys: seq<Account>)
    requires SameBooks(xs, ys)
    ensures DistinctNumbers(xs) <==> DistinctNumbers(ys)
  {
    forall i, j | 0 <= i < j < |ys| ensures Clash(ys[i], ys[j]) <==> Clash(xs[i], xs[j]) {
      assert SameBook(xs[i], ys[i]) && SameBook(xs[j], ys[j]);
    }
  }

  lemma SameBooksActive(r: Registry, n: Registry)
    requires SameBooks(r.accounts, n.accounts) && ActiveOk(r) && n.active == r.active
    ensures ActiveOk(n)
  {
    var k :| 0 <= k < |r.accounts| && r.accounts[k].id == r.active && !r.accounts[k].archived;
    assert SameBook(r.accounts[k], n.accounts[k]);
  }

  lemma NormalizeInv(r: Registry)
    requires Shape(r.accounts) && ActiveOk(r) && |r.accounts| <= MAX_ACCOUNTS
    requires forall i :: 0 <= i < |r.accounts| ==> NumberClean(r.accounts[i])
    ensures Inv(Normalize(r))
    ensures DistinctNumbers(Normalize(r).accounts) <==> DistinctNumbers(r.accounts)
  {
    NormalizeKeeps(r);
    var accts := CleanAll(r.accounts);
    forall i | 0 <= i < |accts| ensures SameBook(r.accounts[i], accts[i]) && NumberOk(accts[i]) {
      CleanIsSame(r.accounts[i]);
    }
    SameBooksShape(r.accounts, accts);
    SameBooksNumbers(r.accounts, accts);
    SameBooksActive(r, Registry(r.active, accts));
  }

  // ---- Creating ----------------------------------------------------------------

  lemma {:induction false} FirstFreeIsFree(stem: string, taken: set<string>, n: nat)
    ensures FirstFree(stem, taken, n).Some? ==> FirstFree(stem, taken, n).value !in taken
    decreases 100 - n
  {
    if n < 100 { FirstFreeIsFree(stem, taken, n + 1); }
  }

  predicate FreshId(id: string, ids: set<string>) {
    ValidId(id) && !Reserved(id) && id !in ids
  }

  lemma DerivedIdIsFresh(ids: set<string>, slug: string)
    ensures DerivedId(ids, slug).Ok? ==> FreshId(DerivedId(ids, slug).value, ids)
  {
    FirstFreeIsFree(NonEmptyOr(slug, "account"), ids + {"demo"}, 2);
  }

  lemma GivenIdIsFresh(ids: set<string>, wanted: string)
    ensures GivenId(ids, wanted).Ok? ==> FreshId(GivenId(ids, wanted).value, ids)
  {
  }

  /** A new book's id is valid, not reserved and not in use, whoever chose it. */
  lemma ChosenIdIsFree(accts: seq<Account>, name: string, wanted: Option<string>)
    ensures var id := ChosenId(accts, name, wanted); id.Ok? ==> FreshId(id.value, Ids(accts))
  {
    if Truthy(wanted) {
      GivenIdIsFresh(Ids(accts), wanted.value);
    } else {
      DerivedIdIsFresh(Ids(accts), Slugify(name));
    }
  }

  lemma NumberTakenMeans(accts: seq<Account>, number: Option<string>, id: string)
    requires forall i :: 0 <= i < |accts| ==> NumberOk(accts[i])
    ensures NumberTaken(accts, number, id) <==>
            && Truthy(number)
            && exists i :: 0 <= i < |accts| && accts[i].id != id && !accts[i].archived && accts[i].number == number
  {
    if NumberTaken(accts, number, id) {
      var o :| o in accts && o.id != id && !o.archived && Strip(o.number.GetOr("")) == number.value;
      var i :| 0 <= i < |accts| && accts[i] == o;
      assert accts[i].number == number;
    }
    if Truthy(number)
       && exists i :: 0 <= i < |accts| && accts[i].id != id && !accts[i].archived && accts[i].number == number {
      var i :| 0 <= i < |accts| && accts[i].id != id && !accts[i].archived && accts[i].number == number;
      assert accts[i] in accts && Strip(accts[i].number.GetOr("")) == number.value;
    }
  }

  lemma AppendShape(accts: seq<Account>, a: Account)
    requires Shape(accts) && IdOk(a) && a.id !in Ids(accts)
    ensures Shape(accts + [a])
  {
    IdsHas(accts, a.id);
    assert forall i :: 0 <= i < |accts| ==> (accts + [a])[i] == accts[i];
  }

  /** The guard on numbers is enough for a new book. */
  lemma AppendNumbers(accts: seq<Account>, a: Account)
    requires DistinctNumbers(accts) && a.id !in Ids(accts) && !NumberTaken(accts, a.number, a.id)
    requires forall i :: 0 <= i < |accts| ==> NumberOk(accts[i])
    ensures DistinctNumbers(accts + [a])
  {
    IdsHas(accts, a.id);
    NumberTakenMeans(accts, a.number, a.id);
    forall i | 0 <= i < |accts| ensures !Clash(accts[i], a) {
      assert accts[i].id != a.id;
    }
    assert forall i :: 0 <= i < |accts| ==> (accts + [a])[i] == accts[i];
  }

  lemma CreateKeeps(r: Registry, name: string, number: Option<string>, wanted: Option<string>, note: string)
    requires Inv(r)
    ensures var c := Create(r, name, number, wanted, note);
            c.Ok? ==> Inv(c.value) && (DistinctNumbers(r.accounts) ==> DistinctNumbers(c.value.accounts))
  {
    var c := Create(r, name, number, wanted, note);
    if c.Ok? {
      var id := ChosenId(r.accounts, LabelOf(name), wanted).value;
      ChosenIdIsFree(r.accounts, LabelOf(name), wanted);
      var num := if Truthy(number) then Some(Strip(number.value)) else None;
      var a := Account(id, LabelOf(name), num, false, false, Clip(note, 200));
      if Truthy(number) { StripIdempotent(number.value); }
      assert c.value == Normalize(r.(accounts := r.accounts + [a]));
      AppendKeeps(r, a);
    }
  }

  lemma AppendKeeps(r: Registry, a: Account)
    requires Inv(r) && |r.accounts| < MAX_ACCOUNTS
    requires IdOk(a) && NumberClean(a) && a.id !in Ids(r.accounts) && !NumberTaken(r.accounts, a.number, a.id)
    ensures var n := Normalize(r.(accounts := r.accounts + [a]));
            Inv(n) && (DistinctNumbers(r.accounts) ==> DistinctNumbers(n.accounts))
  {
    var next := r.(accounts := r.accounts + [a]);
    assert forall i :: 0 <= i < |r.accounts| ==> next.accounts[i] == r.accounts[i];
    AppendShape(r.accounts, a);
    ActiveCarries(r, next);
    if DistinctNumbers(r.accounts) { AppendNumbers(r.accounts, a); }
    NormalizeInv(next);
  }

  lemma ActiveCarries(r: Registry, next: Registry)
    requires ActiveOk(r) && next.active == r.active && |next.accounts| >= |r.accounts|
    requires forall i :: 0 <= i < |r.accounts| ==> next.accounts[i] == r.accounts[i]
    ensures ActiveOk(next)
  {
    var k :| 0 <= k < |r.accounts| && r.accounts[k].id == r.active && !r.accounts[k].archived;
    assert next.accounts[k].id == next.active;
  }

  // ---- Updating ----------------------------------------------------------------

  /** The patch brings an archived book back while another live book holds its number. */
  predicate UnarchivesIntoUse(r: Registry, id: string, p: Patch) {
    var k := Find(r.accounts, CleanId(id));
    && k.Some? && p.archived == Some(false) && p.number.None?
    && r.accounts[k.value].archived && NumberTaken(r.accounts, r.accounts[k.value].number, r.accounts[k.value].id)
  }

  lemma UpdateKeeps(r: Registry, id: string, p: Patch)
    requires Inv(r)
    ensures Update(r, id, p).Ok? ==> Inv(Update(r, id, p).value)
  {
    var k := Find(r.accounts, CleanId(id));
    if Update(r, id, p).Ok? {
      var a := Patched(r, r.accounts[k.value], p).value;
      var next := Updated(r, k.value, a, p);
      UpdatedShape(r, k.value, p);
      NormalizeInv(next);
    }
  }

  function Updated(r: Registry, k: nat, a: Account, p: Patch): Registry
    requires k < |r.accounts|
  {
    Registry(if p.archived == Some(true) && r.active == a.id then DEFAULT_ID else r.active, r.accounts[k := a])
  }

  lemma UpdatedShape(r: Registry, k: nat, p: Patch)
    requires Inv(r) && k < |r.accounts| && Patched(r, r.accounts[k], p).Ok?
    ensures var a := Patched(r, r.accounts[k], p).value;
            var next := Updated(r, k, a, p);
            && Shape(next.accounts) && ActiveOk(next) && NumberOk(a)
            && (forall i :: 0 <= i < |next.accounts| ==> NumberOk(next.accounts[i]))
  {
    var a := Patched(r, r.accounts[k], p).value;
    var next := Updated(r, k, a, p);
    if p.number.Some? { StripIdempotent(p.number.value); }
    var j :| 0 <= j < |r.accounts| && r.accounts[j].id == r.active && !r.accounts[j].archived;
    if p.archived == Some(true) && r.active == a.id {
      assert next.accounts[0].id == next.active;
    } else {
      assert next.accounts[j].id == next.active && !next.accounts[j].archived;
    }
  }

  lemma UnarchivedClashes(r: Registry, k: nat, id: string, p: Patch)
    requires Inv(r) && Find(r.accounts, CleanId(id)) == Some(k) && Patched(r, r.accounts[k], p).Ok?
    requires UnarchivesIntoUse(r, id, p)
    ensures !DistinctNumbers(r.accounts[k := Patched(r, r.accounts[k], p).value])
  {
    var was := r.accounts[k];
    var next := r.accounts[k := Patched(r, was, p).value];
    NumberTakenMeans(r.accounts, was.number, was.id);
    var i :| 0 <= i < |r.accounts| && r.accounts[i].id != was.id && !r.accounts[i].archived
        && r.accounts[i].number == was.number;
    ClashAt(next, i, k);
  }

  lemma ClashAt(accts: seq<Account>, i: nat, k: nat)
    requires i < |accts| && k < |accts| && i != k && Clash(accts[i], accts[k])
    ensures !DistinctNumbers(accts)
  {
    assert Clash(accts[if i < k then i else k], accts[if i < k then k else i]);
  }

  lemma PatchedStaysDistinct(r: Registry, k: nat, id: string, p: Patch)
    requires Inv(r) && Find(r.accounts, CleanId(id)) == Some(k) && Patched(r, r.accounts[k], p).Ok?
    requires DistinctNumbers(r.accounts) && !UnarchivesIntoUse(r, id, p)
    ensures DistinctNumbers(r.accounts[k := Patched(r, r.accounts[k], p).value])
  {
    var next := r.accounts[k := Patched(r, r.accounts[k], p).value];
    forall o | 0 <= o < |r.accounts| && o != k ensures !Clash(next[k], next[o]) && !Clash(next[o], next[k]) {
      PatchedClash(r, k, o, id, p);
    }
    forall i, j | 0 <= i < j < |next| ensures !Clash(next[i], next[j]) {
      if i != k && j != k { assert !Clash(r.accounts[i], r.accounts[j]); }
    }
  }

  /** An update keeps numbers distinct exactly when it does not unarchive a book into a
      number that is in use. Every other update is checked. */
  lemma UpdateKeepsNumbersExactly(r: Registry, id: string, p: Patch)
    requires Inv(r) && DistinctNumbers(r.accounts) && Update(r, id, p).Ok?
    ensures DistinctNumbers(Update(r, id, p).value.accounts) <==> !UnarchivesIntoUse(r, id, p)
  {
    var k := Find(r.accounts, CleanId(id)).value;
    UpdatedShape(r, k, p);
    NormalizeInv(Updated(r, k, Patched(r, r.accounts[k], p).value, p));
    if UnarchivesIntoUse(r, id, p) {
      UnarchivedClashes(r, k, id, p);
    } else {
      PatchedStaysDistinct(r, k, id, p);
    }
  }

  /** The patch that only clears the archive flag. */
  const UNARCHIVE := Patch(None, None, Some(false), None, None)

  /** A retired book whose number a new book took over. */
  function Reused(): Registry {
    Registry("primary", [DefaultAccount(),
                         Account("ira", "IRA", Some("1"), false, true, ""),
                         Account("new", "New", Some("1"), false, false, "")])
  }

  lemma ReusedIds()
    ensures IdOk(Reused().accounts[1]) && IdOk(Reused().accounts[2]) && IdOk(DefaultAccount())
    ensures DistinctIds(Reused().accounts)
  {
    var a := Reused().accounts;
    assert a[0].id[0] == 'p' && a[1].id[0] == 'i' && a[2].id[0] == 'n' && "demo"[0] == 'd';
  }

  lemma ReusedIsKept()
    ensures Inv(Reused()) && DistinctNumbers(Reused().accounts)
  {
    ReusedIds();
    var r := Reused();
    assert r.accounts[0] == DefaultAccount() && r.accounts[0].id == r.active;
    assert forall i :: 0 <= i < 3 ==> NumberOk(r.accounts[i]);
  }

  lemma ReusedUnarchives()
    ensures UnarchivesIntoUse(Reused(), "ira", UNARCHIVE) && Update(Reused(), "ira", UNARCHIVE).Ok?
  {
    ReusedIsKept();
    var r := Reused();
    ValidIsClean("ira");
    assert DEFAULT_ID != "ira" by { assert DEFAULT_ID[0] == 'p'; }
    assert r.accounts[1..][0] == r.accounts[1];
    assert Find(r.accounts, "ira") == Some(1);
    NumberTakenMeans(r.accounts, r.accounts[1].number, "ira");
    assert r.accounts[2].id[0] == 'n' && r.accounts[2].id != "ira";
  }

  /** Bringing the retired book back leaves two books on one brokerage account. */
  lemma UnarchivingCollides()
    ensures DistinctNumbers(Reused().accounts) && Update(Reused(), "ira", UNARCHIVE).Ok?
    ensures !DistinctNumbers(Update(Reused(), "ira", UNARCHIVE).value.accounts)
  {
    ReusedIsKept();
    ReusedUnarchives();
    UpdateKeepsNumbersExactly(Reused(), "ira", UNARCHIVE);
  }

  lemma PatchedClash(r: Registry, k: nat, o: nat, id: string, p: Patch)
    requires Inv(r) && DistinctNumbers(r.accounts) && k < |r.accounts| && o < |r.accounts| && o != k
    requires Find(r.accounts, CleanId(id)) == Some(k) && Patched(r, r.accounts[k], p).Ok?
    requires !UnarchivesIntoUse(r, id, p)
    ensures var a := Patched(r, r.accounts[k], p).value; !Clash(a, r.accounts[o]) && !Clash(r.accounts[o], a)
  {
    var was := r.accounts[k];
    var a := Patched(r, was, p).value;
    assert r.accounts[o].id != was.id;
    assert !Clash(if o < k then r.accounts[o] else was, if o < k then was else r.accounts[o]);
    NumberTakenMeans(r.accounts, a.number, a.id);
    NumberTakenMeans(r.accounts, was.number, was.id);
    if p.number.Some? { NumberTakenMeans(r.accounts, Some(Strip(p.number.value)), a.id); }
  }

  // ---- Activating and deleting -------------------------------------------------

  lemma SetActiveKeeps(r: Registry, id: string)
    requires Inv(r) && SetActive(r, id).Ok?
    ensures Inv(SetActive(r, id).value)
    ensures DistinctNumbers(r.accounts) ==> DistinctNumbers(SetActive(r, id).value.accounts)
  {
    var k := Find(r.accounts, CleanId(id)).value;
    var next := r.(active := r.accounts[k].id);
    assert next.accounts[k].id == next.active;
    NormalizeInv(next);
  }

  /** The accounts that stay, in order, and no others. */
  lemma {:induction false} DropMembers(accts: seq<Account>, id: string, a: Account)
    ensures a in Drop(accts, id) <==> a in accts && a.id != id
  {
    if accts != [] {
      FrontLast(accts);
      DropMembers(accts[..|accts| - 1], id, a);
    }
  }

  lemma {:induction false} DropShape(accts: seq<Account>, id: string)
    requires DistinctIds(accts)
    ensures |Drop(accts, id)| <= |accts| && DistinctIds(Drop(accts, id))
    ensures accts != [] && accts[0].id != id ==> Drop(accts, id) != [] && Drop(accts, id)[0] == accts[0]
  {
    if accts != [] {
      var front, last := accts[..|accts| - 1], accts[|accts| - 1];
      FrontLast(accts);
      DropShape(front, id);
      var d := Drop(front, id);
      forall i | 0 <= i < |d| ensures d[i].id != last.id {
        DropMembers(front, id, d[i]);
      }
    }
  }

  lemma SubsetKeepsNumbers(accts: seq<Account>, d: seq<Account>)
    requires DistinctNumbers(accts) && DistinctIds(d) && forall i :: 0 <= i < |d| ==> d[i] in accts
    ensures DistinctNumbers(d)
  {
    forall i, j | 0 <= i < j < |d| ensures !Clash(d[i], d[j]) {
      var x :| 0 <= x < |accts| && accts[x] == d[i];
      var y :| 0 <= y < |accts| && accts[y] == d[j];
      assert x != y;
      assert !Clash(accts[if x < y then x else y], accts[if x < y then y else x]);
    }
  }

  lemma DropActive(r: Registry, gone: string)
    requires Inv(r) && gone != DEFAULT_ID
    ensures var d := Drop(r.accounts, gone);
            Shape(d) && ActiveOk(Registry(if r.active == gone then DEFAULT_ID else r.active, d))
  {
    var d := Drop(r.accounts, gone);
    DropShape(r.accounts, gone);
    forall i | 0 <= i < |d| ensures IdOk(d[i]) {
      DropMembers(r.accounts, gone, d[i]);
    }
    var next := Registry(if r.active == gone then DEFAULT_ID else r.active, d);
    if r.active == gone {
      assert d[0].id == next.active;
    } else {
      var j :| 0 <= j < |r.accounts| && r.accounts[j].id == r.active && !r.accounts[j].archived;
      DropMembers(r.accounts, gone, r.accounts[j]);
      var i :| 0 <= i < |d| && d[i] == r.accounts[j];
      assert d[i].id == next.active;
    }
  }

  lemma DeleteKeeps(r: Registry, id: string, purge: bool, inUse: bool)
    requires Inv(r) && Delete(r, id, purge, inUse).Ok?
    ensures Inv(Delete(r, id, purge, inUse).value)
    ensures DistinctNumbers(r.accounts) ==> DistinctNumbers(Delete(r, id, purge, inUse).value.accounts)
  {
    var gone := CleanId(id);
    var d := Drop(r.accounts, gone);
    DropShape(r.accounts, gone);
    DropActive(r, gone);
    forall i | 0 <= i < |d| ensures NumberOk(d[i]) && d[i] in r.accounts {
      DropMembers(r.accounts, gone, d[i]);
    }
    if DistinctNumbers(r.accounts) { SubsetKeepsNumbers(r.accounts, d); }
    NormalizeInv(Registry(if r.active == gone then DEFAULT_ID else r.active, d));
  }

  // ---- Every sequence of operations --------------------------------------------

  datatype Op =
    | CreateOp(name: string, number: Option<string>, wanted: Option<string>, note: string)
    | UpdateOp(id: string, patch: Patch)
    | SetActiveOp(id: string)
    | DeleteOp(id: string, purge: bool, inUse: bool)

  function Result(r: Registry, op: Op): Common.Result<Registry, Error> {
    match op
    case CreateOp(name, number, wanted, note) => Create(r, name, number, wanted, note)
    case UpdateOp(id, patch) => Update(r, id, patch)
    case SetActiveOp(id) => SetActive(r, id)
    case DeleteOp(id, purge, inUse) => Delete(r, id, purge, inUse)
  }

  /** The registry on file after one operation: loaded, changed, written; or left alone. */
  function Step(stored: Registry, op: Op): Registry {
    var done := Result(Normalize(stored), op);
    if done.Ok? then done.value else stored
  }

  function Run(ops: seq<Op>): Registry {
    if ops == [] then DefaultRegistry() else Step(Run(ops[..|ops| - 1]), ops[|ops| - 1])
  }

  lemma LoadKeeps(stored: Registry)
    requires Inv(stored)
    ensures Inv(Normalize(stored))
    ensures DistinctNumbers(stored.accounts) ==> DistinctNumbers(Normalize(stored).accounts)
  {
    NormalizeInv(stored);
  }

  lemma StepKeeps(stored: Registry, op: Op)
    requires Inv(stored)
    ensures Inv(Step(stored, op))
    ensures DistinctNumbers(stored.accounts) && !(op.UpdateOp? && UnarchivesIntoUse(Normalize(stored), op.id, op.patch))
            ==> DistinctNumbers(Step(stored, op).accounts)
  {
    LoadKeeps(stored);
    var r := Normalize(stored);
    match op
    case CreateOp(name, number, wanted, note) => CreateKeeps(r, name, number, wanted, note);
    case UpdateOp(id, patch) =>
      UpdateKeeps(r, id, patch);
      if DistinctNumbers(r.accounts) && Update(r, id, patch).Ok? { UpdateKeepsNumbersExactly(r, id, patch); }
    case SetActiveOp(id) => if SetActive(r, id).Ok? { SetActiveKeeps(r, id); }
    case DeleteOp(id, purge, inUse) => if Delete(r, id, purge, inUse).Ok? { DeleteKeeps(r, id, purge, inUse); }
  }

  lemma DefaultInv()
    ensures Inv(DefaultRegistry()) && DistinctNumbers(DefaultRegistry().accounts)
  {
    var r := DefaultRegistry();
    assert r.accounts[0].id == r.active;
    assert |DEFAULT_ID| == 7 && DEFAULT_ID[0] == 'p' && "demo"[0] == 'd';
  }

  /** From a fresh install, whatever is asked for and whatever is refused. */
  lemma {:induction false} RegistryInvariant(ops: seq<Op>)
    ensures Inv(Run(ops))
  {
    if ops == [] {
      DefaultInv();
    } else {
      RegistryInvariant(ops[..|ops| - 1]);
      StepKeeps(Run(ops[..|ops| - 1]), ops[|ops| - 1]);
    }
  }

  /** At no step is a book unarchived while its number is in use elsewhere. */
  ghost predicate NoClashingUnarchive(ops: seq<Op>) {
    forall i :: 0 <= i < |ops| && ops[i].UpdateOp? ==>
      !UnarchivesIntoUse(Normalize(Run(ops[..i])), ops[i].id, ops[i].patch)
  }

  /** One brokerage account, one live book. */
  lemma {:induction false} OneNumberOneBook(ops: seq<Op>)
    requires NoClashingUnarchive(ops)
    ensures DistinctNumbers(Run(ops).accounts)
  {
    if ops == [] {
      DefaultInv();
    } else {
      var front := ops[..|ops| - 1];
      forall i | 0 <= i < |front| && front[i].UpdateOp?
        ensures !UnarchivesIntoUse(Normalize(Run(front[..i])), front[i].id, front[i].patch)
      {
        assert front[..i] == ops[..i] && front[i] == ops[i];
      }
      OneNumberOneBook(front);
      RegistryInvariant(front);
      StepKeeps(Run(front), ops[|ops| - 1]);
    }
  }
}
