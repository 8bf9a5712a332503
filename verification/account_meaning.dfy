/** What each operation on the registry does, field by field, and when it is refused. The
    registry is as it was loaded. */
module AccountMeaning {
  import opened Accounts
  import opened AccountTheorems
  import opened Common
  import opened Strings

  // ---- What a write and a load leave of an account -----------------------------

  /** The first n characters. */
  predicate Clipped(s: string, out: string, n: nat) {
    if |s| <= n then out == s else |out| == n && out <= s
  }

  /** b is a, but for a name that has spaces about it or is too long, and a note that is. */
  predicate Kept(a: Account, b: Account) {
    && b.id == a.id && b.number == a.number && b.ownConnection == a.ownConnection && b.archived == a.archived
    && Clipped(a.note, b.note, 200)
    && (Strip(a.name) == a.name && 0 < |a.name| <= 40 ==> b.name == a.name)
  }

  ghost predicate AllKept(xs: seq<Account>, ys: seq<Account>) {
    |ys| == |xs| && forall i :: 0 <= i < |xs| ==> Kept(xs[i], ys[i])
  }

  lemma CleanIsKept(a: Account)
    requires ValidId(a.id) && NumberOk(a)
    ensures Kept(a, CleanAccount(a))
  {
    CleanKeepsId(a);
  }

  lemma NormalizeIsKept(r: Registry)
    requires Shape(r.accounts) && ActiveOk(r)
    requires forall i :: 0 <= i < |r.accounts| ==> NumberOk(r.accounts[i])
    ensures Normalize(r).active == r.active && AllKept(r.accounts, Normalize(r).accounts)
  {
    NormalizeKeeps(r);
    forall i | 0 <= i < |r.accounts| ensures Kept(r.accounts[i], CleanAll(r.accounts)[i]) {
      assert IdOk(r.accounts[i]);
      CleanIsKept(r.accounts[i]);
    }
  }

  lemma FindIs(accts: seq<Account>, k: nat)
    requires DistinctIds(accts) && k < |accts|
    ensures Find(accts, accts[k].id) == Some(k)
  {
  }

  // ---- Reading a file that anyone may have edited -------------------------------

  function GivenId(a: Account): string {
    Lower(Strip(a.id))
  }

  /** The entry has a proper id, and none before it has the same. */
  ghost predicate Proper(raws: seq<Account>, k: int) {
    && 0 <= k < |raws| && ValidId(GivenId(raws[k]))
    && forall j :: 0 <= j < k ==> GivenId(raws[j]) != GivenId(raws[k])
  }

  /** What is read of an entry. */
  predicate IsRead(raw: Account, a: Account) {
    && a.id == GivenId(raw) && a.ownConnection == raw.ownConnection && a.archived == raw.archived
    && a.number == (if raw.number.None? || raw.number.value == "" then None else Some(Strip(raw.number.value)))
    && Clipped(raw.note, a.note, 200)
    && Clipped(if Strip(raw.name) != "" then Strip(raw.name) else GivenId(raw), a.name, 40)
  }

  /** The proper entries, cleaned, in the order of the file. */
  ghost predicate Reads(accts: seq<Account>, raws: seq<Account>, at: seq<int>) {
    && |at| == |accts| && (forall i, j :: 0 <= i < j < |at| ==> at[i] < at[j])
    && (forall k :: k in at <==> Proper(raws, k))
    && (forall i :: 0 <= i < |at| && 0 <= at[i] < |raws| ==> accts[i] == CleanAccount(raws[at[i]]))
  }

  lemma CleanIsRead(raw: Account)
    requires ValidId(GivenId(raw))
    ensures IsRead(raw, CleanAccount(raw))
  {
    ValidIsClean(GivenId(raw));
  }

  lemma IdWasGiven(accts: seq<Account>, raws: seq<Account>, at: seq<int>, i: nat)
    requires Reads(accts, raws, at) && i < |accts|
    ensures Proper(raws, at[i]) && GivenId(raws[at[i]]) == accts[i].id
  {
    assert at[i] in at;
  }

  lemma GivenIdIsRead(accts: seq<Account>, raws: seq<Account>, at: seq<int>, j: nat) returns (i: nat)
    requires Reads(accts, raws, at) && j < |raws| && ValidId(GivenId(raws[j]))
    ensures i < |accts| && accts[i].id == GivenId(raws[j])
  {
    var k := FirstGiven(raws, j);
    i :| 0 <= i < |at| && at[i] == k;
  }

  lemma IdAmong(accts: seq<Account>, raws: seq<Account>, at: seq<int>, id: string)
    requires Reads(accts, raws, at) && ValidId(id)
    ensures id in Ids(accts) <==> exists j :: 0 <= j < |raws| && GivenId(raws[j]) == id
  {
    IdsHas(accts, id);
    if i :| 0 <= i < |accts| && accts[i].id == id { IdWasGiven(accts, raws, at, i); }
    if j :| 0 <= j < |raws| && GivenId(raws[j]) == id { var i := GivenIdIsRead(accts, raws, at, j); }
  }

  lemma ProperLast(front: seq<Account>, raw: Account)
    ensures Proper(front + [raw], |front|)
            <==> ValidId(GivenId(raw)) && !exists j :: 0 <= j < |front| && GivenId(front[j]) == GivenId(raw)
  {
    assert forall j :: 0 <= j < |front| ==> (front + [raw])[j] == front[j];
  }

  lemma {:induction false} FirstGiven(raws: seq<Account>, j: int) returns (k: int)
    requires 0 <= j < |raws| && ValidId(GivenId(raws[j]))
    ensures Proper(raws, k) && GivenId(raws[k]) == GivenId(raws[j])
    decreases j
  {
    if i :| 0 <= i < j && GivenId(raws[i]) == GivenId(raws[j]) {
      k := FirstGiven(raws, i);
    } else {
      k := j;
    }
  }

  lemma ReadsSnoc(accts: seq<Account>, front: seq<Account>, at: seq<int>, raw: Account)
    requires Reads(accts, front, at)
    ensures var raws, more := front + [raw], at + (if Proper(front + [raw], |front|) then [|front|] else []);
            && (forall k :: k in more <==> Proper(raws, k))
            && (forall i, j :: 0 <= i < j < |more| ==> more[i] < more[j])
  {
    var raws, isNew := front + [raw], Proper(front + [raw], |front|);
    var more := at + (if isNew then [|front|] else []);
    forall k ensures k in more <==> Proper(raws, k) {
      assert Proper(front, k) <==> k != |front| && Proper(raws, k) by {
        assert forall j :: 0 <= j < |front| ==> raws[j] == front[j];
      }
      if isNew && k == |front| { assert more[|at|] == k; }
    }
    forall i | 0 <= i < |at| ensures at[i] < |front| {
      assert at[i] in at;
    }
  }

  lemma ReadsStep(accts: seq<Account>, front: seq<Account>, at: seq<int>, raw: Account)
    requires Reads(accts, front, at)
    ensures var isNew := Proper(front + [raw], |front|);
            Reads(accts + (if isNew then [CleanAccount(raw)] else []), front + [raw],
                  at + (if isNew then [|front|] else []))
  {
    ReadsSnoc(accts, front, at, raw);
    forall i | 0 <= i < |at| ensures 0 <= at[i] < |front| && accts[i] == CleanAccount(front[at[i]]) {
      assert at[i] in at;
    }
  }

  lemma CleanedStepReads(front: seq<Account>, at: seq<int>, raw: Account)
    requires Reads(Cleaned(front), front, at)
    ensures Cleaned(front + [raw])
            == Cleaned(front) + (if Proper(front + [raw], |front|) then [CleanAccount(raw)] else [])
  {
    ProperLast(front, raw);
    if ValidId(GivenId(raw)) { IdAmong(Cleaned(front), front, at, GivenId(raw)); }
    CleanedIs(front, raw);
  }

  lemma CleanedIs(front: seq<Account>, raw: Account)
    ensures Cleaned(front + [raw])
            == Cleaned(front)
               + (if ValidId(GivenId(raw)) && GivenId(raw) !in Ids(Cleaned(front)) then [CleanAccount(raw)] else [])
  {
    assert (front + [raw])[..|front|] == front;
  }

  lemma {:induction false} CleanedReads(raws: seq<Account>) returns (at: seq<int>)
    ensures Reads(Cleaned(raws), raws, at)
  {
    at := [];
    if raws != [] {
      var front, raw := raws[..|raws| - 1], raws[|raws| - 1];
      var before := CleanedReads(front);
      FrontLast(raws);
      ReadsStep(Cleaned(front), front, before, raw);
      CleanedStepReads(front, before, raw);
      at := before + (if Proper(raws, |front|) then [|front|] else []);
    }
  }

  lemma ReadsAreDistinct(accts: seq<Account>, raws: seq<Account>, at: seq<int>)
    requires Reads(accts, raws, at)
    ensures DistinctIds(accts)
  {
    forall i, j | 0 <= i < j < |accts| ensures accts[i].id != accts[j].id {
      assert at[i] in at && at[j] in at;
      assert Proper(raws, at[i]) && Proper(raws, at[j]);
    }
  }

  lemma {:induction false} OthersAreDropped(accts: seq<Account>)
    ensures Others(accts) == Drop(accts, "primary")
  {
    if accts != [] { OthersAreDropped(accts[..|accts| - 1]); }
  }

  lemma {:induction false} OnePrimary(accts: seq<Account>, k: nat)
    requires DistinctIds(accts) && k < |accts| && accts[k].id == "primary"
    ensures Primaries(accts) == [accts[k]]
  {
    var front, n := accts[..|accts| - 1], |accts| - 1;
    if k < n {
      OnePrimary(front, k);
    } else {
      NoPrimary(front);
    }
  }

  lemma {:induction false} NoPrimary(accts: seq<Account>)
    requires forall i :: 0 <= i < |accts| ==> accts[i].id != "primary"
    ensures Primaries(accts) == [] && Others(accts) == accts
  {
    if accts != [] {
      NoPrimary(accts[..|accts| - 1]);
      FrontLast(accts);
    }
  }

  /** The primary, or the one made up when there is none. */
  ghost predicate Primary(first: Account, accts: seq<Account>) {
    && first.id == "primary"
    && (first in accts || ((forall i :: 0 <= i < |accts| ==> accts[i].id != "primary")
                           && first == Account("primary", "Main account", None, false, false, "")))
  }

  lemma PrimaryFirstIs(accts: seq<Account>)
    requires DistinctIds(accts)
    ensures PrimaryFirst(accts) != [] && PrimaryFirst(accts)[1..] == Others(accts)
    ensures Primary(PrimaryFirst(accts)[0], accts)
  {
    IdsHas(accts, "primary");
    if "primary" in Ids(accts) {
      var k :| 0 <= k < |accts| && accts[k].id == "primary";
      OnePrimary(accts, k);
    } else {
      NoPrimary(accts);
    }
  }

  /** Of distinct accounts: the primary first, and the others in their order. */
  lemma PrimaryFirstMeans(accts: seq<Account>) returns (at: seq<int>)
    requires DistinctIds(accts)
    ensures PrimaryFirst(accts) != [] && Primary(PrimaryFirst(accts)[0], accts)
    ensures Picks(at, accts, NotCalled("primary")) && |PrimaryFirst(accts)| == |at| + 1
    ensures forall i :: 0 <= i < |at| ==> PrimaryFirst(accts)[i + 1] == accts[at[i]]
  {
    PrimaryFirstIs(accts);
    OthersAreDropped(accts);
    at := DropPicks(accts, "primary");
    assert forall i :: 0 <= i < |at| ==> PrimaryFirst(accts)[1..][i] == accts[at[i]];
  }

  /** Whatever the file holds: the first entry of each proper id is read, in the order of the
      file but for the primary, which comes first and is made up when it is missing; and the
      active book is the one the file names if that was read, and the primary otherwise. */
  lemma NormalizeMeans(r: Registry) returns (read: seq<Account>, from: seq<int>, at: seq<int>)
    ensures Reads(read, r.accounts, from) && DistinctIds(read)
    ensures forall k :: Proper(r.accounts, k) ==> IsRead(r.accounts[k], CleanAccount(r.accounts[k]))
    ensures Normalize(r).accounts != [] && Primary(Normalize(r).accounts[0], read)
    ensures Picks(at, read, NotCalled("primary")) && |Normalize(r).accounts| == |at| + 1
    ensures forall i :: 0 <= i < |at| ==> Normalize(r).accounts[i + 1] == read[at[i]]
    ensures var named := Lower(Strip(if r.active != "" then r.active else "primary"));
            Normalize(r).active
            == if exists i :: 0 <= i < |Normalize(r).accounts| && Normalize(r).accounts[i].id == named then named
               else "primary"
  {
    read := Cleaned(r.accounts);
    from := CleanedReads(r.accounts);
    ReadsAreDistinct(read, r.accounts, from);
    at := PrimaryFirstMeans(read);
    forall k | Proper(r.accounts, k) ensures IsRead(r.accounts[k], CleanAccount(r.accounts[k])) {
      CleanIsRead(r.accounts[k]);
    }
    IdsHas(Normalize(r).accounts, Lower(Strip(if r.active != "" then r.active else "primary")));
  }

  // ---- Choosing the active book ------------------------------------------------

  /** The chosen book is the active one afterwards, and nothing else changes. */
  lemma SetActiveMeans(r: Registry, id: string, k: nat)
    requires Inv(r) && k < |r.accounts| && r.accounts[k].id == Lower(Strip(id))
    ensures r.accounts[k].archived ==> SetActive(r, id) == Err(Refused("account is archived"))
    ensures !r.accounts[k].archived ==>
              var done := SetActive(r, id);
              done.Ok? && done.value.active == Lower(Strip(id)) && AllKept(r.accounts, done.value.accounts)
  {
    FindIs(r.accounts, k);
    if !r.accounts[k].archived {
      var next := r.(active := r.accounts[k].id);
      assert next.accounts[k].id == next.active;
      NormalizeIsKept(next);
    }
  }

  /** No other operation than creating can be asked of a book that is not registered. */
  lemma UnknownMeans(r: Registry, id: string, p: Patch, purge: bool, inUse: bool)
    requires Inv(r) && forall k :: 0 <= k < |r.accounts| ==> r.accounts[k].id != Lower(Strip(id))
    ensures SetActive(r, id) == Update(r, id, p) == Delete(r, id, purge, inUse) == Err(UnknownAccount)
  {
    assert r.accounts[0].id == "primary";
  }

  // ---- Deleting ----------------------------------------------------------------

  function NotCalled(id: string): Account -> bool {
    (a: Account) => a.id != id
  }

  lemma {:induction false} DropPicks(accts: seq<Account>, id: string) returns (at: seq<int>)
    ensures Picks(at, accts, NotCalled(id)) && |Drop(accts, id)| == |at|
    ensures forall i :: 0 <= i < |at| ==> Drop(accts, id)[i] == accts[at[i]]
  {
    at := [];
    if accts != [] {
      var front, last := accts[..|accts| - 1], accts[|accts| - 1];
      var before := DropPicks(front, id);
      FrontLast(accts);
      PicksSnoc(before, front, last, NotCalled(id));
      at := before + (if last.id != id then [|front|] else []);
    }
  }

  /** The primary stays, and so does a book with executions unless it is purged; otherwise
      that one book goes, the others stay in their order, and the primary is active if the
      deleted one was. */
  lemma DeleteMeans(r: Registry, id: string, purge: bool, inUse: bool, k: nat) returns (at: seq<int>)
    requires Inv(r) && k < |r.accounts| && r.accounts[k].id == Lower(Strip(id))
    ensures Picks(at, r.accounts, NotCalled(Lower(Strip(id))))
    ensures var done := Delete(r, id, purge, inUse);
            if r.accounts[k].id == "primary" then done == Err(Refused("the primary cannot be deleted"))
            else if inUse && !purge then done == Err(Refused("account still has executions"))
            else
              && done.Ok? && done.value.active == (if r.active == r.accounts[k].id then "primary" else r.active)
              && |done.value.accounts| == |at|
              && forall i :: 0 <= i < |at| ==> Kept(r.accounts[at[i]], done.value.accounts[i])
  {
    var gone := Lower(Strip(id));
    at := DropPicks(r.accounts, gone);
    if gone != "primary" && !(inUse && !purge) {
      FindIs(r.accounts, k);
      DropActive(r, gone);
      var next := Registry(if r.active == gone then "primary" else r.active, Drop(r.accounts, gone));
      forall i | 0 <= i < |next.accounts| ensures NumberOk(next.accounts[i]) {
        assert next.accounts[i] == r.accounts[at[i]];
      }
      NormalizeIsKept(next);
    }
  }

  // ---- Numbers -----------------------------------------------------------------

  /** A live book, other than this one, is bound to the number. */
  ghost predicate InUse(accts: seq<Account>, number: string, id: string) {
    exists i :: 0 <= i < |accts| && accts[i].id != id && !accts[i].archived && accts[i].number == Some(number)
  }

  lemma TakenMeans(r: Registry, given: string, id: string)
    requires Inv(r)
    ensures NumberTaken(r.accounts, Some(Strip(given)), id)
            <==> Strip(given) != "" && InUse(r.accounts, Strip(given), id)
  {
    NumberTakenMeans(r.accounts, Some(Strip(given)), id);
  }

  // ---- Creating ----------------------------------------------------------------

  /** One to 32 lower-case letters, digits and dashes, not beginning with a dash. */
  predicate Pattern(id: string) {
    && 1 <= |id| <= 32 && id[0] != '-'
    && forall c :: c in id ==> 'a' <= c <= 'z' || '0' <= c <= '9' || c == '-'
  }

  lemma PatternIs(id: string)
    ensures Pattern(id) <==> ValidId(id)
  {
    if Pattern(id) {
      forall k | 0 <= k < |id| ensures Alnum(id[k]) || id[k] == '-' { assert id[k] in id; }
    }
  }

  /** An id that was asked for is taken as it is, without spaces and in lower case, unless it
      is malformed, reserved or in use. */
  lemma WantedIdMeans(accts: seq<Account>, name: string, wanted: string)
    requires wanted != ""
    ensures var id, got := Lower(Strip(wanted)), ChosenId(accts, name, Some(wanted));
            if !Pattern(id) then got == Err(Refused("id must be lowercase letters, digits or dashes"))
            else if id == "demo" then got == Err(Refused("id is reserved"))
            else if exists i :: 0 <= i < |accts| && accts[i].id == id then got == Err(Refused("account already exists"))
            else got == Ok(id)
  {
    PatternIs(Lower(Strip(wanted)));
    IdsHas(accts, Lower(Strip(wanted)));
  }

  /** A new account: not archived, on the shared connection, bound to the number that was
      given, if any. */
  predicate IsNew(a: Account, id: string, name: string, number: Option<string>, note: string) {
    && a.id == id && !a.archived && !a.ownConnection && Clipped(note, a.note, 200)
    && a.number == (if number.None? || Strip(number.value) == "" then None else Some(Strip(number.value)))
    && (Strip(name) == "" ==> a.name == "Account")
    && (0 < |Strip(name)| <= 40 ==> a.name == Strip(name))
    && (|Strip(name)| > 40 ==> 0 < |a.name| <= 40 && a.name <= Strip(name))
  }

  function NumberOf(given: Option<string>): Option<string> {
    if Truthy(given) then Some(Strip(given.value)) else None
  }

  /** What a new book is before it is written. */
  function Drafted(id: string, name: string, number: Option<string>, note: string): Account {
    Account(id, LabelOf(name), NumberOf(number), false, false, Clip(note, 200))
  }

  lemma NewIsNew(id: string, name: string, number: Option<string>, note: string)
    requires ValidId(id)
    ensures IsNew(CleanAccount(Drafted(id, name, number, note)), id, name, number, note)
  {
    CleanKeepsId(Drafted(id, name, number, note));
    if Truthy(number) { StripIdempotent(number.value); }
    LabelStays(name);
  }

  lemma {:induction false} FirstStays(s: string)
    requires s != "" && !IsSpace(s[0])
    ensures StripRight(s) != ""
  {
    if IsSpace(s[|s| - 1]) { FirstStays(s[..|s| - 1]); }
  }

  /** Stripping a label that was cut takes off no more than spaces at its end. */
  lemma LabelStays(name: string)
    ensures var cut := Strip(LabelOf(name));
            && cut != "" && cut <= LabelOf(name) && |LabelOf(name)| <= 40
            && (|Strip(name)| <= 40 ==> cut == LabelOf(name))
  {
    var l := LabelOf(name);
    assert !IsSpace(l[0]) && StripLeft(l) == l;
    FirstStays(l);
  }

  lemma Appended(r: Registry, a: Account)
    requires Inv(r) && IdOk(a) && a.id !in Ids(r.accounts)
    ensures var n := Normalize(r.(accounts := r.accounts + [a]));
            && n.active == r.active && |n.accounts| == |r.accounts| + 1
            && (forall i :: 0 <= i < |r.accounts| ==> Kept(r.accounts[i], n.accounts[i]))
            && n.accounts[|r.accounts|] == CleanAccount(a)
  {
    var next := r.(accounts := r.accounts + [a]);
    AppendShape(r.accounts, a);
    ActiveCarries(r, next);
    NormalizeKeeps(next);
    forall i | 0 <= i < |r.accounts| ensures Kept(r.accounts[i], Normalize(next).accounts[i]) {
      assert IdOk(r.accounts[i]) && next.accounts[i] == r.accounts[i];
      CleanIsKept(r.accounts[i]);
    }
  }

  /** Another live book is bound to the number that was given. */
  ghost predicate NumberGone(r: Registry, number: Option<string>, id: string) {
    number.Some? && Strip(number.value) != "" && InUse(r.accounts, Strip(number.value), id)
  }

  lemma GoneIsTaken(r: Registry, number: Option<string>, id: string)
    requires Inv(r)
    ensures NumberGone(r, number, id) <==> NumberTaken(r.accounts, NumberOf(number), id)
  {
    if number.Some? { TakenMeans(r, number.value, id); }
  }

  /** A thirteenth book is refused, and one whose id or number cannot be had. */
  lemma CreateIs(r: Registry, name: string, number: Option<string>, wanted: Option<string>, note: string)
    requires Inv(r)
    ensures var done, id := Create(r, name, number, wanted, note), ChosenId(r.accounts, LabelOf(name), wanted);
            if |r.accounts| >= 12 then done == Err(Refused("too many accounts"))
            else if id.Err? then done == Err(id.error)
            else if NumberGone(r, number, id.value) then done == Err(Refused("number already bound"))
            else done == Ok(Normalize(r.(accounts := r.accounts + [Drafted(id.value, name, number, note)])))
  {
    var id := ChosenId(r.accounts, LabelOf(name), wanted);
    if id.Ok? { GoneIsTaken(r, number, id.value); }
  }

  /** Otherwise the new one comes last and nothing else changes. */
  lemma CreateMeans(r: Registry, name: string, number: Option<string>, wanted: Option<string>, note: string)
    requires Inv(r) && |r.accounts| < 12 && ChosenId(r.accounts, LabelOf(name), wanted).Ok?
    requires !NumberGone(r, number, ChosenId(r.accounts, LabelOf(name), wanted).value)
    ensures var done, id := Create(r, name, number, wanted, note), ChosenId(r.accounts, LabelOf(name), wanted).value;
            && done.Ok? && done.value.active == r.active && |done.value.accounts| == |r.accounts| + 1
            && (forall i :: 0 <= i < |r.accounts| ==> Kept(r.accounts[i], done.value.accounts[i]))
            && IsNew(done.value.accounts[|r.accounts|], id, name, number, note)
  {
    var id := ChosenId(r.accounts, LabelOf(name), wanted).value;
    CreateIs(r, name, number, wanted, note);
    ChosenIdIsFree(r.accounts, LabelOf(name), wanted);
    Appended(r, Drafted(id, name, number, note));
    NewIsNew(id, name, number, note);
  }

  // ---- Updating ----------------------------------------------------------------

  /** What a patch leaves of an account: what it names is set, and the rest kept. */
  predicate IsPatched(a: Account, p: Patch, b: Account) {
    && b.id == a.id
    && b.number == (if p.number.None? then a.number
                    else if Strip(p.number.value) == "" then None else Some(Strip(p.number.value)))
    && b.archived == (if p.archived.Some? then p.archived.value else a.archived)
    && b.ownConnection == (if p.ownConnection.Some? then p.ownConnection.value else a.ownConnection)
    && Clipped(if p.note.Some? then p.note.value else a.note, b.note, 200)
    && var name := if p.name.Some? && Strip(p.name.value) != "" then Strip(p.name.value) else a.name;
       Strip(name) == name && 0 < |name| <= 40 ==> b.name == name
  }

  lemma PatchedIsPatched(r: Registry, k: nat, p: Patch)
    requires Inv(r) && k < |r.accounts| && Patched(r, r.accounts[k], p).Ok?
    ensures IsPatched(r.accounts[k], p, CleanAccount(Patched(r, r.accounts[k], p).value))
  {
    var a := Patched(r, r.accounts[k], p).value;
    assert IdOk(r.accounts[k]) && NumberOk(r.accounts[k]);
    CleanKeepsId(a);
    if p.number.Some? { StripIdempotent(p.number.value); }
  }

  /** A patch is refused that binds another live book's number, or that would put the primary
      on a connection of its own or archive it. */
  lemma UpdateIs(r: Registry, id: string, p: Patch, k: nat)
    requires Inv(r) && k < |r.accounts| && r.accounts[k].id == Lower(Strip(id))
    ensures var done, me, patched := Update(r, id, p), r.accounts[k].id, Patched(r, r.accounts[k], p);
            if NumberGone(r, p.number, me) then done == Err(Refused("number already bound"))
            else if p.ownConnection == Some(true) && me == "primary"
            then done == Err(Refused("the primary uses the shared connection"))
            else if p.archived == Some(true) && me == "primary"
            then done == Err(Refused("the primary cannot be archived"))
            else patched.Ok? && done == Ok(Normalize(Updated(r, k, patched.value, p)))
  {
    FindIs(r.accounts, k);
    if p.number.Some? { TakenMeans(r, p.number.value, r.accounts[k].id); }
  }

  /** Otherwise that one book is patched, and the primary is active if the active one was
      archived. */
  lemma UpdateMeans(r: Registry, id: string, p: Patch, k: nat)
    requires Inv(r) && k < |r.accounts| && r.accounts[k].id == Lower(Strip(id))
    requires !NumberGone(r, p.number, r.accounts[k].id)
    requires p.ownConnection == Some(true) || p.archived == Some(true) ==> r.accounts[k].id != "primary"
    ensures var done, me := Update(r, id, p), r.accounts[k].id;
            && done.Ok? && |done.value.accounts| == |r.accounts|
            && done.value.active == (if p.archived == Some(true) && r.active == me then "primary" else r.active)
            && IsPatched(r.accounts[k], p, done.value.accounts[k])
            && forall i :: 0 <= i < |r.accounts| && i != k ==> Kept(r.accounts[i], done.value.accounts[i])
  {
    UpdateIs(r, id, p, k);
    var next := Updated(r, k, Patched(r, r.accounts[k], p).value, p);
    UpdatedShape(r, k, p);
    NormalizeKeeps(next);
    PatchedIsPatched(r, k, p);
    forall i | 0 <= i < |r.accounts| && i != k ensures Kept(r.accounts[i], Normalize(next).accounts[i]) {
      assert IdOk(r.accounts[i]) && next.accounts[i] == r.accounts[i];
      CleanIsKept(r.accounts[i]);
    }
  }
}
