/** Failure and absence, shared by every model. `None` stands for Python's None. */
module Common {
  datatype Option<+T> = None | Some(value: T) {
    function GetOr(default: T): T {
      match this
      case Some(v) => v
      case None => default
    }
  }

  datatype Result<+T, +E> = Ok(value: T) | Err(error: E)

  /** A string that Python would treat as true. */
  predicate Truthy(s: Option<string>) {
    s.Some? && s.value != ""
  }

  lemma TakeSnoc<T>(s: seq<T>, n: nat)
    requires 0 < n <= |s|
    ensures s[..n] == s[..n - 1] + [s[n - 1]]
  {
  }

  lemma TakeAll<T>(s: seq<T>)
    ensures s[..|s|] == s
  {
  }

  lemma AppendTake<T>(front: seq<T>, s: seq<T>, n: nat)
    requires n < |s|
    ensures front + s[..n + 1] == front + s[..n] + [s[n]]
  {
  }

  lemma FrontLast<T>(s: seq<T>)
    requires s != []
    ensures s == s[..|s| - 1] + [s[|s| - 1]]
  {
  }

  // ---- Some elements of a sequence, in order -----------------------------------

  /** The places of the elements that pass the test, in order. */
  ghost predicate Picks<T>(at: seq<int>, s: seq<T>, test: T -> bool) {
    && (forall i :: 0 <= i < |at| ==> 0 <= at[i] < |s|)
    && (forall i, j :: 0 <= i < j < |at| ==> at[i] < at[j])
    && (forall k :: 0 <= k < |s| ==> (k in at <==> test(s[k])))
  }

  function Shifted(at: seq<int>): (r: seq<int>)
    ensures |r| == |at|
  {
    seq(|at|, i requires 0 <= i < |at| => at[i] + 1)
  }

  lemma ShiftedHas(at: seq<int>, k: int)
    ensures k + 1 in Shifted(at) <==> k in at
  {
    if k in at {
      var i :| 0 <= i < |at| && at[i] == k;
      assert Shifted(at)[i] == k + 1;
    }
  }

  lemma PicksCons<T>(at: seq<int>, x: T, s: seq<T>, test: T -> bool)
    requires Picks(at, s, test)
    ensures Picks((if test(x) then [0] else []) + Shifted(at), [x] + s, test)
  {
    var all, more := [x] + s, (if test(x) then [0] else []) + Shifted(at);
    forall k | 0 <= k < |all| ensures k in more <==> test(all[k]) {
      if k > 0 {
        ShiftedHas(at, k - 1);
        assert all[k] == s[k - 1];
      }
    }
  }

  lemma PicksSnoc<T>(at: seq<int>, s: seq<T>, x: T, test: T -> bool)
    requires Picks(at, s, test)
    ensures Picks(at + (if test(x) then [|s|] else []), s + [x], test)
  {
    var all, more := s + [x], at + (if test(x) then [|s|] else []);
    forall k | 0 <= k < |all| ensures k in more <==> test(all[k]) {
      if k < |s| {
        assert all[k] == s[k];
      } else if test(x) {
        assert more[|at|] == k;
      }
    }
  }

  /** Where those are. */
  ghost function Where<T>(s: seq<T>, test: T -> bool): set<int> {
    set i | 0 <= i < |s| && test(s[i])
  }

  lemma WhereSnoc<T>(s: seq<T>, x: T, test: T -> bool)
    ensures |Where(s + [x], test)| == |Where(s, test)| + (if test(x) then 1 else 0)
  {
    assert forall i :: 0 <= i < |s| ==> (s + [x])[i] == s[i];
    assert Where(s + [x], test) == Where(s, test) + (if test(x) then {|s|} else {});
  }
}
