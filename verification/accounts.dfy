/** backend/accounts.py: the account registry, its normal form, and the operations that
    rewrite it. */
module Accounts {
  import opened Bags
  import opened Common
  import opened Strings

  const DEFAULT_ID := "primary"
  const MAX_ACCOUNTS := 12
  const LABEL_MAX := 40

  datatype Account = Account(
      id: string, name: string, number: Option<string>, ownConnection: bool, archived: bool, note: string)

  datatype Registry = Registry(active: string, accounts: seq<Account>)

  datatype Error = UnknownAccount | Refused(why: string)

  // ---- Ids ---------------------------------------------------------------------

  predicate Alnum(c: char) {
    'a' <= c <= 'z' || '0' <= c <= '9'
  }

  /** ^[a-z0-9][a-z0-9-]{0,31}$ */
  predicate ValidId(id: string) {
    && 1 <= |id| <= 32 && Alnum(id[0])
    && forall k :: 0 <= k < |id| ==> Alnum(id[k]) || id[k] == '-'
  }

  predicate Reserved(id: string) {
    id == "demo"
  }

  function CleanId(id: string): string {
    Lower(Strip(id))
  }

  function Clip(s: string, n: nat): string {
    if |s| <= n then s else s[..n]
  }

  function DefaultAccount(): Account {
    Account(DEFAULT_ID, "Main account", None, false, false, "")
  }

  function DefaultRegistry(): Registry {
    Registry(DEFAULT_ID, [DefaultAccount()])
  }

  // ---- Normal form -------------------------------------------------------------

  function NonEmptyOr(s: string, other: string): string {
    if s != "" then s else other
  }

  function CleanAccount(raw: Account): Account {
    var id := CleanId(raw.id);
    Account(id, Clip(NonEmptyOr(Strip(NonEmptyOr(raw.name, id)), id), LABEL_MAX),
            if Truthy(raw.number) then Some(Strip(raw.number.value)) else None,
            raw.ownConnection, raw.archived, Clip(raw.note, 200))
  }

  function Ids(accts: seq<Account>): set<string> {
    set i | 0 <= i < |accts| :: accts[i].id
  }

  /** Entries with a bad or a repeated id are dropped. */
  function Cleaned(raws: seq<Account>): seq<Account> {
    if raws == [] then []
    else
      var before, last := Cleaned(raws[..|raws| - 1]), CleanAccount(raws[|raws| - 1]);
      if ValidId(last.id) && last.id !in Ids(before) then before + [last] else before
  }

  function Primaries(accts: seq<Account>): seq<Account> {
    if accts == [] then []
    else Primaries(accts[..|accts| - 1]) + (if accts[|accts| - 1].id == DEFAULT_ID then [accts[|accts| - 1]] else [])
  }

  function Others(accts: seq<Account>): seq<Account> {
    if accts == [] then []
    else Others(accts[..|accts| - 1]) + (if accts[|accts| - 1].id != DEFAULT_ID then [accts[|accts| - 1]] else [])
  }

  /** The primary first, the rest in their order: a stable sort on "is not the primary". */
  function PrimaryFirst(accts: seq<Account>): seq<Account> {
    if DEFAULT_ID in Ids(accts) then Primaries(accts) + Others(accts) else [DefaultAccount()] + accts
  }

  function Normalize(r: Registry): Registry {
    var accts := PrimaryFirst(Cleaned(r.accounts));
    var active := CleanId(NonEmptyOr(r.active, DEFAULT_ID));
    Registry(if active in Ids(accts) then active else DEFAULT_ID, accts)
  }

  method NormalizeRegistry(r: Registry) returns (out: Registry)
    ensures out == Normalize(r)
  {
    var accts: seq<Account>, seen: set<string> := [], {};
    for i := 0 to |r.accounts|
      invariant accts == Cleaned(r.accounts[..i]) && seen == Ids(accts)
    {
      assert r.accounts[..i + 1][..i] == r.accounts[..i];
      var a := CleanAccount(r.accounts[i]);
      if ValidId(a.id) && a.id !in seen {
        IdsSnoc(accts, a);
        accts, seen := accts + [a], seen + {a.id};
      }
    }
    assert r.accounts[..|r.accounts|] == r.accounts;
    if DEFAULT_ID !in seen {
      accts := [DefaultAccount()] + accts;
    } else {
      accts := Primaries(accts) + Others(accts);
    }
    var active := CleanId(NonEmptyOr(r.active, DEFAULT_ID));
    out := Registry(if active in Ids(accts) then active else DEFAULT_ID, accts);
  }

  lemma IdsSnoc(accts: seq<Account>, a: Account)
    ensures Ids(accts + [a]) == Ids(accts) + {a.id}
  {
    assert (accts + [a])[|accts|] == a;
    assert forall i :: 0 <= i < |accts| ==> (accts + [a])[i] == accts[i];
  }

  // ---- Finding and refusing ----------------------------------------------------

  function Find(accts: seq<Account>, id: string): (k: Option<nat>)
    ensures k.Some? ==> k.value < |accts| && accts[k.value].id == id
    ensures k.None? ==> forall i :: 0 <= i < |accts| ==> accts[i].id != id
  {
    if accts == [] then None
    else if accts[0].id == id then Some(0)
    else
      var later := Find(accts[1..], id);
      if later.Some? then Some(later.value + 1) else None
  }

  /** Another book that is not archived is bound to this number. */
  predicate NumberTaken(accts: seq<Account>, number: Option<string>, id: string) {
    Truthy(number) && exists o :: o in accts && o.id != id && !o.archived
                                  && Strip(o.number.GetOr("")) == number.value
  }

  /** The accounts the scheduler visits: every one that is not archived. */
  function ScheduledIds(accts: seq<Account>): seq<string> {
    if accts == [] then []
    else ScheduledIds(accts[..|accts| - 1]) + (if accts[|accts| - 1].archived then [] else [accts[|accts| - 1].id])
  }

  // ---- Slugs and derived ids ---------------------------------------------------

  /** Runs of other characters become one dash. */
  function Dashed(s: string): string {
    if s == "" then ""
    else
      var before, c := Dashed(s[..|s| - 1]), s[|s| - 1];
      if Alnum(c) then before + [c]
      else if before != "" && before[|before| - 1] == '-' && !Alnum(s[|s| - 2]) then before
      else before + ['-']
  }

  function TrimDashesLeft(s: string): string {
    if s != "" && s[0] == '-' then TrimDashesLeft(s[1..]) else s
  }

  function TrimDashesRight(s: string): string {
    if s != "" && s[|s| - 1] == '-' then TrimDashesRight(s[..|s| - 1]) else s
  }

  function TrimDashes(s: string): string {
    TrimDashesRight(TrimDashesLeft(s))
  }

  function Slugify(name: string): string {
    TrimDashes(Clip(TrimDashes(Dashed(Lower(Strip(name)))), 32))
  }

  function Digits(n: nat): string {
    if n < 10 then [('0' as int + n) as char] else Digits(n / 10) + [('0' as int + n % 10) as char]
  }

  function Numbered(stem: string, n: nat): string {
    TrimDashes(Clip(stem + "-" + Digits(n), 32))
  }

  function FirstFree(stem: string, taken: set<string>, n: nat): Option<string>
    decreases 100 - n
  {
    if n >= 100 then None
    else if Numbered(stem, n) !in taken then Some(Numbered(stem, n))
    else FirstFree(stem, taken, n + 1)
  }

  function UniqueId(base: string, ids: set<string>): Option<string> {
    var taken := ids + {"demo"};
    if base != "" && base !in taken then Some(base)
    else FirstFree(NonEmptyOr(base, "account"), taken, 2)
  }

  method DeriveId(base: string, ids: set<string>) returns (r: Option<string>)
    ensures r == UniqueId(base, ids)
  {
    var taken := ids + {"demo"};
    if base != "" && base !in taken {
      return Some(base);
    }
    var stem := NonEmptyOr(base, "account");
    for n := 2 to 100
      invariant FirstFree(stem, taken, 2) == FirstFree(stem, taken, n)
    {
      if Numbered(stem, n) !in taken {
        return Some(Numbered(stem, n));
      }
    }
    return None;
  }

  // ---- The operations, on values -----------------------------------------------

  datatype Patch = Patch(
    name: Option<string>, number: Option<string>, archived: Option<bool>, note: Option<string>,
    ownConnection: Option<bool>)

  function GivenId(ids: set<string>, wanted: string): Result<string, Error> {
    var id := CleanId(wanted);
    if !ValidId(id) then Err(Refused("id must be lowercase letters, digits or dashes"))
    else if Reserved(id) then Err(Refused("id is reserved"))
    else if id in ids then Err(Refused("account already exists"))
    else Ok(id)
  }

  function DerivedId(ids: set<string>, slug: string): Result<string, Error> {
    var derived := UniqueId(slug, ids);
    if derived.None? then Err(Refused("could not derive a unique account id"))
    else if !ValidId(derived.value) then Err(Refused("could not derive an account id from that name"))
    else Ok(derived.value)
  }

  function ChosenId(accts: seq<Account>, name: string, wanted: Option<string>): Result<string, Error> {
    if Truthy(wanted) then GivenId(Ids(accts), wanted.value) else DerivedId(Ids(accts), Slugify(name))
  }

  method ChooseId(accts: seq<Account>, name: string, wanted: Option<string>) returns (r: Result<string, Error>)
    ensures r == ChosenId(accts, name, wanted)
  {
    if Truthy(wanted) {
      var id := CleanId(wanted.value);
      if !ValidId(id) { return Err(Refused("id must be lowercase letters, digits or dashes")); }
      if Reserved(id) { return Err(Refused("id is reserved")); }
      if id in Ids(accts) { return Err(Refused("account already exists")); }
      return Ok(id);
    }
    var derived := DeriveId(Slugify(name), Ids(accts));
    if derived.None? { return Err(Refused("could not derive a unique account id")); }
    if !ValidId(derived.value) { return Err(Refused("could not derive an account id from that name")); }
    return Ok(derived.value);
  }

  function LabelOf(name: string): string {
    Clip(NonEmptyOr(Strip(name), "Account"), LABEL_MAX)
  }

  function Create(
      r: Registry, name: string, number: Option<string>, wanted: Option<string>, note: string): Result<Registry, Error>
  {
    if |r.accounts| >= MAX_ACCOUNTS then Err(Refused("too many accounts"))
    else
      var id := ChosenId(r.accounts, LabelOf(name), wanted);
      var num := if Truthy(number) then Some(Strip(number.value)) else None;
      if id.Err? then Err(id.error)
      else if NumberTaken(r.accounts, num, id.value) then Err(Refused("number already bound"))
      else
        var acct := Account(id.value, LabelOf(name), num, false, false, Clip(note, 200));
        Ok(Normalize(r.(accounts := r.accounts + [acct])))
  }

  /** The patched account, unless the patch is refused. */
  function Patched(r: Registry, a: Account, p: Patch): Result<Account, Error> {
    var num := if p.number.Some? then Some(Strip(p.number.value)) else None;
    if p.number.Some? && NumberTaken(r.accounts, num, a.id) then Err(Refused("number already bound"))
    else if p.ownConnection == Some(true) && a.id == DEFAULT_ID then
      Err(Refused("the primary uses the shared connection"))
    else if p.archived == Some(true) && a.id == DEFAULT_ID then Err(Refused("the primary cannot be archived"))
    else
      Ok(Account(a.id,
                 if p.name.Some? then Clip(NonEmptyOr(Strip(p.name.value), a.name), LABEL_MAX) else a.name,
                 if p.number.Some? then (if Truthy(num) then num else None) else a.number,
                 p.ownConnection.GetOr(a.ownConnection), p.archived.GetOr(a.archived),
                 if p.note.Some? then Clip(p.note.value, 200) else a.note))
  }

  function Update(r: Registry, id: string, p: Patch): Result<Registry, Error> {
    var k := Find(r.accounts, CleanId(id));
    if k.None? then Err(UnknownAccount)
    else
      var a := Patched(r, r.accounts[k.value], p);
      if a.Err? then Err(a.error)
      else Ok(Normalize(Registry(if p.archived == Some(true) && r.active == a.value.id then DEFAULT_ID else r.active,
                                 r.accounts[k.value := a.value])))
  }

  function SetActive(r: Registry, id: string): Result<Registry, Error> {
    var k := Find(r.accounts, CleanId(id));
    if k.None? then Err(UnknownAccount)
    else if r.accounts[k.value].archived then Err(Refused("account is archived"))
    else Ok(Normalize(r.(active := r.accounts[k.value].id)))
  }

  function Drop(accts: seq<Account>, id: string): seq<Account> {
    if accts == [] then []
    else Drop(accts[..|accts| - 1], id) + (if accts[|accts| - 1].id != id then [accts[|accts| - 1]] else [])
  }

  /** `inUse` says that the account's book still has executions. */
  function Delete(r: Registry, id: string, purge: bool, inUse: bool): Result<Registry, Error> {
    var gone := CleanId(id);
    if gone == DEFAULT_ID then Err(Refused("the primary cannot be deleted"))
    else if Find(r.accounts, gone).None? then Err(UnknownAccount)
    else if inUse && !purge then Err(Refused("account still has executions"))
    else Ok(Normalize(Registry(if r.active == gone then DEFAULT_ID else r.active, Drop(r.accounts, gone))))
  }

  // ---- The registry file -------------------------------------------------------

  class RegistryFile {
    var stored: Option<Registry>

    constructor ()
      ensures stored == None
    {
      stored := None;
    }

    /** What load_registry gives: the implicit one-account registry when there is no file. */
    function Loaded(): Registry
      reads this
    {
      if stored.None? then DefaultRegistry() else Normalize(stored.value)
    }

    method Load() returns (r: Registry)
      ensures r == Loaded()
    {
      if stored.None? {
        return DefaultRegistry();
      }
      r := NormalizeRegistry(stored.value);
    }

    method Write(r: Registry)
      modifies this
      ensures stored == Some(Normalize(r))
    {
      var n := NormalizeRegistry(r);
      stored := Some(n);
    }

    method CreateAccount(name: string, number: Option<string>, wanted: Option<string>, note: string)
      returns (e: Option<Error>)
      modifies this
      ensures match Create(old(Loaded()), name, number, wanted, note)
              case Ok(r) => e == None && stored == Some(r)
              case Err(why) => e == Some(why) && stored == old(stored)
    {
      var r := Load();
      if |r.accounts| >= MAX_ACCOUNTS {
        return Some(Refused("too many accounts"));
      }
      var id := ChooseId(r.accounts, LabelOf(name), wanted);
      if id.Err? {
        return Some(id.error);
      }
      var num := if Truthy(number) then Some(Strip(number.value)) else None;
      if NumberTaken(r.accounts, num, id.value) {
        return Some(Refused("number already bound"));
      }
      Write(r.(accounts := r.accounts + [Account(id.value, LabelOf(name), num, false, false, Clip(note, 200))]));
      return None;
    }

    method UpdateAccount(id: string, p: Patch) returns (e: Option<Error>)
      modifies this
      ensures match Update(old(Loaded()), id, p)
              case Ok(r) => e == None && stored == Some(r)
              case Err(why) => e == Some(why) && stored == old(stored)
    {
      var r := Load();
      var k := Find(r.accounts, CleanId(id));
      if k.None? {
        return Some(UnknownAccount);
      }
      var a := Patched(r, r.accounts[k.value], p);
      if a.Err? {
        return Some(a.error);
      }
      var active := if p.archived == Some(true) && r.active == a.value.id then DEFAULT_ID else r.active;
      Write(Registry(active, r.accounts[k.value := a.value]));
      return None;
    }

    method SetActiveAccount(id: string) returns (e: Option<Error>)
      modifies this
      ensures match SetActive(old(Loaded()), id)
              case Ok(r) => e == None && stored == Some(r)
              case Err(why) => e == Some(why) && stored == old(stored)
    {
      var r := Load();
      var k := Find(r.accounts, CleanId(id));
      if k.None? {
        return Some(UnknownAccount);
      }
      if r.accounts[k.value].archived {
        return Some(Refused("account is archived"));
      }
      Write(r.(active := r.accounts[k.value].id));
      return None;
    }

    method DeleteAccount(id: string, purge: bool, inUse: bool) returns (e: Option<Error>)
      modifies this
      ensures match Delete(old(Loaded()), id, purge, inUse)
              case Ok(r) => e == None && stored == Some(r)
              case Err(why) => e == Some(why) && stored == old(stored)
    {
      var gone := CleanId(id);
      if gone == DEFAULT_ID {
        return Some(Refused("the primary cannot be deleted"));
      }
      var r := Load();
      if Find(r.accounts, gone).None? {
        return Some(UnknownAccount);
      }
      if inUse && !purge {
        return Some(Refused("account still has executions"));
      }
      Write(Registry(if r.active == gone then DEFAULT_ID else r.active, Drop(r.accounts, gone)));
      return None;
    }
  }
}
