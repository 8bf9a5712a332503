/** backend/accounts.py:280-296 and backend/backups.py:114-124: which file a book lives in,
    and which book a file belongs to. `dir` is the data directory. */
module StorePaths {
  import opened Accounts
  import opened Common
  import opened Strings

  // ---- Splitting off the extension ---------------------------------------------

  /** The last position of c, or -1. */
  function RFind(s: string, c: char): int {
    if s == "" then -1
    else if s[|s| - 1] == c then |s| - 1
    else RFind(s[..|s| - 1], c)
  }

  lemma {:induction false} RFindOf(a: string, c: char, b: string)
    requires c !in b
    ensures RFind(a + [c] + b, c) == |a|
  {
    var s := a + [c] + b;
    if b != "" {
      assert s[..|s| - 1] == a + [c] + b[..|b| - 1];
      RFindOf(a, c, b[..|b| - 1]);
    }
  }

  /** os.path.splitext: the last dot of the file name, unless only dots stand before it. */
  function SplitExt(p: string): (string, string) {
    var slash, dot := RFind(p, '/'), RFind(p, '.');
    if dot > slash && slash >= -1 && dot < |p| && exists k :: slash < k < dot && p[k] != '.' then (p[..dot], p[dot..])
    else (p, "")
  }

  function Sibling(base: string, id: string): string {
    var (root, ext) := SplitExt(base);
    root + "." + id + ext
  }

  // ---- The state file of a book ------------------------------------------------

  function LivePath(dir: string): string {
    dir + "/state" + ".json"
  }

  function DemoPath(dir: string): string {
    dir + "/state.demo" + ".json"
  }

  function StatePath(dir: string, active: string, id: string, demo: bool): string {
    var book := CleanId(NonEmptyOr(id, active));
    var base := if demo then DemoPath(dir) else LivePath(dir);
    if book == DEFAULT_ID then base else Sibling(base, book)
  }

  lemma SplitJson(dir: string, name: string)
    requires name != "" && name[0] != '.' && '/' !in name
    ensures SplitExt(dir + "/" + name + ".json") == (dir + "/" + name, ".json")
  {
    var p := dir + "/" + name + ".json";
    assert p == (dir + "/" + name) + ['.'] + "json";
    RFindOf(dir + "/" + name, '.', "json");
    assert p == dir + ['/'] + (name + ".json");
    RFindOf(dir, '/', name + ".json");
    assert p[|dir| + 1] == name[0];
  }

  /** What the book adds to the file name. */
  function Middle(id: string, demo: bool): string {
    (if demo then ".demo" else "") + (if id == DEFAULT_ID then "" else "." + id)
  }

  lemma ValidIsSelf(id: string, active: string)
    requires ValidId(id)
    ensures CleanId(NonEmptyOr(id, active)) == id
  {
    assert !IsSpace(id[0]) && !IsSpace(id[|id| - 1]);
    assert Strip(id) == id;
    assert forall k :: 0 <= k < |id| ==> LowerChar(id[k]) == id[k];
  }

  lemma SiblingIs(dir: string, name: string, id: string)
    requires name != "" && name[0] != '.' && '/' !in name
    ensures Sibling(dir + "/" + name + ".json", id) == dir + "/" + name + "." + id + ".json"
  {
    SplitJson(dir, name);
  }

  lemma BaseIs(dir: string)
    ensures LivePath(dir) == dir + "/" + "state" + ".json" && DemoPath(dir) == dir + "/" + "state.demo" + ".json"
  {
  }

  lemma Regroup(dir: string, id: string)
    ensures dir + "/" + "state" + "." + id + ".json" == dir + "/state" + ("" + ("." + id)) + ".json"
    ensures dir + "/" + "state.demo" + "." + id + ".json" == dir + "/state" + (".demo" + ("." + id)) + ".json"
    ensures dir + "/" + "state.demo" + ".json" == dir + "/state" + (".demo" + "") + ".json"
  {
    assert "/" + "state" == "/state" && "/" + "state.demo" == "/state" + ".demo";
    assert dir + "/" + "state.demo" == dir + "/state" + ".demo";
    assert dir + "/" + "state.demo" + "." + id == dir + "/state" + (".demo" + ("." + id));
  }

  lemma StatePathIs(dir: string, active: string, id: string, demo: bool)
    requires ValidId(id)
    ensures StatePath(dir, active, id, demo) == dir + "/state" + Middle(id, demo) + ".json"
  {
    ValidIsSelf(id, active);
    BaseIs(dir);
    Regroup(dir, id);
    SiblingIs(dir, if demo then "state.demo" else "state", id);
  }

  lemma Cancel(front: string, a: string, b: string, back: string)
    requires front + a + back == front + b + back
    ensures a == b
  {
    var x, y := front + a + back, front + b + back;
    assert |x| == |front| + |a| + |back| && |y| == |front| + |b| + |back|;
    assert x[|front|..|front| + |a|] == a && y[|front|..|front| + |b|] == b;
  }

  lemma NoDot(id: string, k: nat)
    requires ValidId(id) && k < |id|
    ensures id[k] != '.'
  {
    assert Alnum(id[k]) || id[k] == '-';
  }

  lemma MiddleExactly(a: string, x: bool, b: string, y: bool)
    requires ValidId(a) && ValidId(b) && (a != b || x != y)
    ensures Middle(a, x) == Middle(b, y) <==> Collides(a, x, b, y) || Collides(b, y, a, x)
  {
    var s, t := Middle(a, x), Middle(b, y);
    if x == y {
      SameMode(a, b, x);
    } else if x {
      LiveAndDemo(b, a);
    } else {
      LiveAndDemo(a, b);
    }
  }

  /** A book called "demo" and the demo-mode book of the primary. */
  predicate Collides(a: string, x: bool, b: string, y: bool) {
    a == "demo" && !x && b == DEFAULT_ID && y
  }

  lemma SameMode(a: string, b: string, demo: bool)
    requires ValidId(a) && ValidId(b) && a != b
    ensures Middle(a, demo) != Middle(b, demo)
  {
    var front := if demo then ".demo" else "";
    assert Middle(a, demo)[|front|..] == (if a == DEFAULT_ID then "" else "." + a);
    assert Middle(b, demo)[|front|..] == (if b == DEFAULT_ID then "" else "." + b);
    assert ("." + a)[1..] == a && ("." + b)[1..] == b;
  }

  lemma LiveAndDemo(a: string, b: string)
    requires ValidId(a) && ValidId(b)
    ensures Middle(a, false) == Middle(b, true) <==> a == "demo" && b == DEFAULT_ID
  {
    var s, t := Middle(a, false), Middle(b, true);
    assert DEFAULT_ID[0] == 'p' && "demo"[0] == 'd';
    if s == t {
      assert |t| >= 5 && a != DEFAULT_ID && s == "." + a;
      assert s[1..] == a;
      if b != DEFAULT_ID {
        assert t == ".demo" + ("." + b);
        assert t[5] == '.' && a[4] == '.';
        NoDot(a, 4);
      } else {
        assert t == ".demo" && t[1..] == "demo";
      }
    }
  }

  /** Two books share a file exactly when one is a book called "demo" and the other the
      primary in demo mode, which is why that id is reserved. */
  lemma PathsCollideExactly(dir: string, active: string, a: string, x: bool, b: string, y: bool)
    requires ValidId(a) && ValidId(b)
    ensures StatePath(dir, active, a, x) == StatePath(dir, active, b, y)
            <==> (a == b && x == y) || Collides(a, x, b, y) || Collides(b, y, a, x)
  {
    StatePathIs(dir, active, a, x);
    StatePathIs(dir, active, b, y);
    if a != b || x != y {
      MiddleExactly(a, x, b, y);
      if StatePath(dir, active, a, x) == StatePath(dir, active, b, y) {
        Cancel(dir + "/state", Middle(a, x), Middle(b, y), ".json");
      }
    }
  }

  lemma PathsAreInjective(dir: string, active: string, a: string, x: bool, b: string, y: bool)
    requires ValidId(a) && ValidId(b) && !Reserved(a) && !Reserved(b)
    requires StatePath(dir, active, a, x) == StatePath(dir, active, b, y)
    ensures a == b && x == y
  {
    PathsCollideExactly(dir, active, a, x, b, y);
  }

  // ---- The book of a state file ------------------------------------------------

  predicate Owns(dir: string, active: string, id: string, path: string) {
    StatePath(dir, active, id, false) == path || StatePath(dir, active, id, true) == path
  }

  method IsOwner(dir: string, active: string, id: string, path: string) returns (r: bool)
    ensures r == Owns(dir, active, id, path)
  {
    var modes := [false, true];
    for m := 0 to 2
      invariant forall n :: 0 <= n < m ==> StatePath(dir, active, id, modes[n]) != path
    {
      if StatePath(dir, active, id, modes[m]) == path {
        return true;
      }
    }
    assert StatePath(dir, active, id, modes[0]) != path && StatePath(dir, active, id, modes[1]) != path;
    return false;
  }

  /** The first registered book that lives there, and the active one when none does. */
  function Owner(dir: string, active: string, ids: seq<string>, path: string): string {
    if ids == [] then active
    else if Owns(dir, active, ids[0], path) then ids[0]
    else Owner(dir, active, ids[1..], path)
  }

  method AccountForPath(dir: string, active: string, ids: seq<string>, path: string) returns (r: string)
    ensures r == Owner(dir, active, ids, path)
  {
    for i := 0 to |ids|
      invariant Owner(dir, active, ids, path) == Owner(dir, active, ids[i..], path)
    {
      var here := IsOwner(dir, active, ids[i], path);
      if here {
        return ids[i];
      }
      assert ids[i..][1..] == ids[i + 1..];
    }
    return active;
  }

  lemma {:induction false} OwnerIsFirst(dir: string, active: string, ids: seq<string>, path: string, k: nat)
    requires k < |ids| && Owns(dir, active, ids[k], path)
    requires forall j :: 0 <= j < k ==> !Owns(dir, active, ids[j], path)
    ensures Owner(dir, active, ids, path) == ids[k]
  {
    if k > 0 {
      assert !Owns(dir, active, ids[0], path);
      OwnerIsFirst(dir, active, ids[1..], path, k - 1);
    }
  }

  lemma OwnsExactly(dir: string, active: string, id: string, b: string, demo: bool)
    requires ValidId(id) && ValidId(b)
    ensures Owns(dir, active, id, StatePath(dir, active, b, demo))
            <==> id == b || Collides(id, false, b, demo) || Collides(b, demo, id, true)
  {
    PathsCollideExactly(dir, active, id, false, b, demo);
    PathsCollideExactly(dir, active, id, true, b, demo);
  }

  ghost predicate Registered(ids: seq<string>) {
    && ids != [] && ids[0] == DEFAULT_ID && (forall i :: 0 <= i < |ids| ==> ValidId(ids[i]))
    && forall i, j :: 0 <= i < j < |ids| ==> ids[i] != ids[j]
  }

  /** Among registered books a file is given back to its book, except the live file of a
      book called "demo": that one goes to the primary. */
  lemma OwnerExactly(dir: string, active: string, ids: seq<string>, k: nat, demo: bool)
    requires Registered(ids) && k < |ids|
    ensures Owner(dir, active, ids, StatePath(dir, active, ids[k], demo)) == ids[k] <==> !(ids[k] == "demo" && !demo)
  {
    var path := StatePath(dir, active, ids[k], demo);
    assert DEFAULT_ID[0] == 'p' && "demo"[0] == 'd';
    forall i | 0 <= i < |ids|
      ensures Owns(dir, active, ids[i], path)
              <==> i == k || Collides(ids[i], false, ids[k], demo) || Collides(ids[k], demo, ids[i], true)
    {
      OwnsExactly(dir, active, ids[i], ids[k], demo);
    }
    OwnerIsFirst(dir, active, ids, path, if ids[k] == "demo" && !demo then 0 else k);
  }

  /** The inverse of the file naming: every registered book, live and demo. */
  lemma OwnerRoundTrip(dir: string, active: string, ids: seq<string>, k: nat, demo: bool)
    requires Registered(ids) && k < |ids| && !Reserved(ids[k])
    ensures Owner(dir, active, ids, StatePath(dir, active, ids[k], demo)) == ids[k]
  {
    OwnerExactly(dir, active, ids, k, demo);
  }
}
