/** A run of operations, from a fresh install, that leaves two live books on one number. */
module AccountRuns {
  import opened Accounts
  import opened AccountTheorems
  import opened Common
  import opened Strings

  /** What the invariant speaks of, of one account: id, number and archive flag. */
  type View = (string, Option<string>, bool)

  predicate LooksLike(a: Account, v: View) {
    a.id == v.0 && a.number == v.1 && a.archived == v.2
  }

  /** The primary is active, and the accounts look like this. */
  ghost predicate Looks(r: Registry, vs: seq<View>) {
    r.active == DEFAULT_ID && |r.accounts| == |vs| && forall i :: 0 <= i < |vs| ==> LooksLike(r.accounts[i], vs[i])
  }

  lemma NormalizeLooks(r: Registry, vs: seq<View>)
    requires Shape(r.accounts) && ActiveOk(r) && Looks(r, vs)
    requires forall i :: 0 <= i < |r.accounts| ==> NumberOk(r.accounts[i])
    ensures Looks(Normalize(r), vs)
  {
    NormalizeKeeps(r);
    forall i | 0 <= i < |vs| ensures LooksLike(CleanAll(r.accounts)[i], vs[i]) {
      assert IdOk(r.accounts[i]);
      CleanIsSame(r.accounts[i]);
    }
  }

  lemma LoadLooks(stored: Registry, vs: seq<View>)
    requires Inv(stored) && Looks(stored, vs)
    ensures Inv(Normalize(stored)) && Looks(Normalize(stored), vs)
  {
    LoadKeeps(stored);
    NormalizeLooks(stored, vs);
  }

  // ---- Creating ----------------------------------------------------------------

  /** A number as a caller may give it. */
  predicate PlainNumber(n: string) {
    n != "" && Strip(n) == n
  }

  /** The id is new, and the number free. */
  ghost predicate Takeable(vs: seq<View>, id: string, n: string) {
    && ValidId(id) && !Reserved(id) && PlainNumber(n)
    && forall i :: 0 <= i < |vs| ==> vs[i].0 != id && (vs[i].1 == Some(n) ==> vs[i].2)
  }

  function NewAccount(name: string, id: string, n: string): Account {
    Account(id, LabelOf(name), Some(n), false, false, Clip("", 200))
  }

  lemma TakeableIsFree(r: Registry, vs: seq<View>, id: string, n: string)
    requires Looks(r, vs) && Takeable(vs, id, n)
    ensures forall i :: 0 <= i < |r.accounts| ==>
              r.accounts[i].id != id && (r.accounts[i].number == Some(n) ==> r.accounts[i].archived)
  {
    forall i | 0 <= i < |r.accounts|
      ensures r.accounts[i].id != id && (r.accounts[i].number == Some(n) ==> r.accounts[i].archived)
    {
      assert LooksLike(r.accounts[i], vs[i]);
    }
  }

  lemma CreateIs(r: Registry, vs: seq<View>, name: string, id: string, n: string)
    requires Inv(r) && Looks(r, vs) && |vs| < MAX_ACCOUNTS && Takeable(vs, id, n)
    ensures id !in Ids(r.accounts)
    ensures Create(r, name, Some(n), Some(id), "")
            == Ok(Normalize(r.(accounts := r.accounts + [NewAccount(name, id, n)])))
  {
    ValidIsClean(id);
    TakeableIsFree(r, vs, id, n);
    IdsHas(r.accounts, id);
    NumberTakenMeans(r.accounts, Some(n), id);
  }

  lemma AppendLooks(r: Registry, vs: seq<View>, a: Account, v: View)
    requires Inv(r) && Looks(r, vs) && LooksLike(a, v) && NumberOk(a) && IdOk(a) && a.id !in Ids(r.accounts)
    ensures Looks(Normalize(r.(accounts := r.accounts + [a])), vs + [v])
  {
    var next := r.(accounts := r.accounts + [a]);
    AppendShape(r.accounts, a);
    ActiveCarries(r, next);
    NormalizeLooks(next, vs + [v]);
  }

  lemma CreateLooks(stored: Registry, vs: seq<View>, name: string, id: string, n: string)
    requires Inv(stored) && Looks(stored, vs) && |vs| < MAX_ACCOUNTS && Takeable(vs, id, n)
    ensures var next := Step(stored, CreateOp(name, Some(n), Some(id), ""));
            Inv(next) && Looks(next, vs + [(id, Some(n), false)])
  {
    var r := Normalize(stored);
    LoadLooks(stored, vs);
    CreateIs(r, vs, name, id, n);
    StepKeeps(stored, CreateOp(name, Some(n), Some(id), ""));
    AppendLooks(r, vs, NewAccount(name, id, n), (id, Some(n), false));
  }

  // ---- Archiving and bringing back ---------------------------------------------

  function Flag(archived: bool): Patch {
    Patch(None, None, Some(archived), None, None)
  }

  lemma FindsView(r: Registry, vs: seq<View>, k: nat)
    requires Inv(r) && Looks(r, vs) && k < |vs|
    ensures Find(r.accounts, CleanId(vs[k].0)) == Some(k)
  {
    assert LooksLike(r.accounts[k], vs[k]) && IdOk(r.accounts[k]);
    ValidIsClean(vs[k].0);
    SameIdSamePlace(r.accounts, Find(r.accounts, vs[k].0).value, k);
  }

  lemma SameIdSamePlace(accts: seq<Account>, i: nat, j: nat)
    requires DistinctIds(accts) && i < |accts| && j < |accts| && accts[i].id == accts[j].id
    ensures i == j
  {
  }

  lemma PatchLooks(r: Registry, vs: seq<View>, k: nat, archived: bool)
    requires Inv(r) && Looks(r, vs) && 0 < k < |vs|
    ensures r.accounts[k].id != DEFAULT_ID && Patched(r, r.accounts[k], Flag(archived)).Ok?
    ensures Looks(Normalize(Updated(r, k, Patched(r, r.accounts[k], Flag(archived)).value, Flag(archived))),
                  vs[k := (vs[k].0, vs[k].1, archived)])
  {
    assert r.accounts[0].id != r.accounts[k].id;
    UpdatedShape(r, k, Flag(archived));
    assert LooksLike(r.accounts[k], vs[k]);
    NormalizeLooks(Updated(r, k, Patched(r, r.accounts[k], Flag(archived)).value, Flag(archived)),
                   vs[k := (vs[k].0, vs[k].1, archived)]);
  }

  lemma FlagIs(r: Registry, vs: seq<View>, k: nat, archived: bool)
    requires Inv(r) && Looks(r, vs) && 0 < k < |vs|
    requires Patched(r, r.accounts[k], Flag(archived)).Ok?
    ensures Update(r, vs[k].0, Flag(archived))
            == Ok(Normalize(Updated(r, k, Patched(r, r.accounts[k], Flag(archived)).value, Flag(archived))))
  {
    FindsView(r, vs, k);
  }

  lemma FlagLooks(stored: Registry, vs: seq<View>, k: nat, archived: bool)
    requires Inv(stored) && Looks(stored, vs) && 0 < k < |vs|
    ensures var next := Step(stored, UpdateOp(vs[k].0, Flag(archived)));
            Inv(next) && Looks(next, vs[k := (vs[k].0, vs[k].1, archived)])
  {
    var r := Normalize(stored);
    LoadLooks(stored, vs);
    PatchLooks(r, vs, k, archived);
    FlagIs(r, vs, k, archived);
    StepKeeps(stored, UpdateOp(vs[k].0, Flag(archived)));
  }

  // ---- The run -----------------------------------------------------------------

  /** What the operations lead to. */
  ghost predicate Reached(ops: seq<Op>, vs: seq<View>) {
    Inv(Run(ops)) && Looks(Run(ops), vs)
  }

  lemma RunStep(ops: seq<Op>, op: Op)
    ensures Run(ops + [op]) == Step(Run(ops), op)
  {
    assert (ops + [op])[..|ops|] == ops;
  }

  lemma ReachCreate(ops: seq<Op>, vs: seq<View>, name: string, id: string, n: string)
    requires Reached(ops, vs) && |vs| < MAX_ACCOUNTS && Takeable(vs, id, n)
    ensures Reached(ops + [CreateOp(name, Some(n), Some(id), "")], vs + [(id, Some(n), false)])
  {
    RunStep(ops, CreateOp(name, Some(n), Some(id), ""));
    CreateLooks(Run(ops), vs, name, id, n);
  }

  lemma ReachFlag(ops: seq<Op>, vs: seq<View>, k: nat, archived: bool)
    requires Reached(ops, vs) && 0 < k < |vs|
    ensures Reached(ops + [UpdateOp(vs[k].0, Flag(archived))], vs[k := (vs[k].0, vs[k].1, archived)])
  {
    RunStep(ops, UpdateOp(vs[k].0, Flag(archived)));
    FlagLooks(Run(ops), vs, k, archived);
  }

  const START: seq<View> := [(DEFAULT_ID, None, false)]

  lemma ReachStart()
    ensures Reached([], START)
  {
    DefaultInv();
  }

  function Registered(id: string, n: string): seq<Op> {
    [] + [CreateOp("IRA", Some(n), Some(id), "")]
  }

  function Retired(id: string, n: string): seq<Op> {
    Registered(id, n) + [UpdateOp(id, Flag(true))]
  }

  function Replaced(id: string, other: string, n: string): seq<Op> {
    Retired(id, n) + [CreateOp("New", Some(n), Some(other), "")]
  }

  /** Register a book, retire it, give its number to a new one, and bring it back. */
  function Reuse(id: string, other: string, n: string): seq<Op> {
    Replaced(id, other, n) + [UpdateOp(id, Flag(false))]
  }

  function TwoBooks(id: string, n: string, archived: bool): seq<View> {
    [(DEFAULT_ID, None, false), (id, Some(n), archived)]
  }

  function ThreeBooks(id: string, other: string, n: string, archived: bool): seq<View> {
    [(DEFAULT_ID, None, false), (id, Some(n), archived), (other, Some(n), false)]
  }

  predicate NewIds(id: string, other: string) {
    && ValidId(id) && ValidId(other) && !Reserved(id) && !Reserved(other)
    && id != other && id != DEFAULT_ID && other != DEFAULT_ID
  }

  lemma Names(id: string, other: string, n: string)
    requires NewIds(id, other) && PlainNumber(n)
    ensures Takeable(START, id, n) && Takeable(TwoBooks(id, n, true), other, n)
  {
  }

  lemma Shapes(id: string, other: string, n: string)
    ensures START + [(id, Some(n), false)] == TwoBooks(id, n, false)
    ensures TwoBooks(id, n, false)[1 := (id, Some(n), true)] == TwoBooks(id, n, true)
    ensures TwoBooks(id, n, true) + [(other, Some(n), false)] == ThreeBooks(id, other, n, true)
    ensures ThreeBooks(id, other, n, true)[1 := (id, Some(n), false)] == ThreeBooks(id, other, n, false)
  {
  }

  lemma ReachRetired(id: string, other: string, n: string)
    requires NewIds(id, other) && PlainNumber(n)
    ensures Reached(Retired(id, n), TwoBooks(id, n, true))
  {
    Names(id, other, n);
    Shapes(id, other, n);
    ReachStart();
    ReachCreate([], START, "IRA", id, n);
    ReachFlag(Registered(id, n), TwoBooks(id, n, false), 1, true);
  }

  lemma ReachReplaced(id: string, other: string, n: string)
    requires NewIds(id, other) && PlainNumber(n)
    ensures Reached(Replaced(id, other, n), ThreeBooks(id, other, n, true))
  {
    Names(id, other, n);
    Shapes(id, other, n);
    ReachRetired(id, other, n);
    ReachCreate(Retired(id, n), TwoBooks(id, n, true), "New", other, n);
  }

  lemma ReachReuse(id: string, other: string, n: string)
    requires NewIds(id, other) && PlainNumber(n)
    ensures Reached(Reuse(id, other, n), ThreeBooks(id, other, n, false))
  {
    Shapes(id, other, n);
    ReachReplaced(id, other, n);
    ReachFlag(Replaced(id, other, n), ThreeBooks(id, other, n, true), 1, false);
  }

  /** Four operations, none of them refused, and two live books trade one brokerage account. */
  lemma ReuseCollides(id: string, other: string, n: string)
    requires NewIds(id, other) && PlainNumber(n)
    ensures Inv(Run(Reuse(id, other, n))) && !DistinctNumbers(Run(Reuse(id, other, n)).accounts)
  {
    ReachReuse(id, other, n);
    TwoLive(Run(Reuse(id, other, n)), ThreeBooks(id, other, n, false), n);
  }

  lemma TwoLive(r: Registry, vs: seq<View>, n: string)
    requires Looks(r, vs) && |vs| == 3 && vs[1].1 == Some(n) == vs[2].1 && !vs[1].2 && !vs[2].2 && n != ""
    ensures !DistinctNumbers(r.accounts)
  {
    assert LooksLike(r.accounts[1], vs[1]) && LooksLike(r.accounts[2], vs[2]);
    assert Clash(r.accounts[1], r.accounts[2]);
  }

  /** There are such ids and numbers, so such a run. */
  lemma ReuseHappens()
    ensures exists id, other, n ::
              NewIds(id, other) && PlainNumber(n) && !DistinctNumbers(Run(Reuse(id, other, n)).accounts)
  {
    assert DEFAULT_ID[0] == 'p' && "ira"[0] == 'i' && "new"[0] == 'n' && "demo"[0] == 'd';
    assert NewIds("ira", "new") && PlainNumber("1");
    ReuseCollides("ira", "new", "1");
  }
}
