/** Elements grouped by a tag, as a dictionary keyed by it groups them: the groups in the
    order in which they begin, and each in the order of its elements. */
module Groups {
  import opened Common

  /** The elements tagged k. */
  function Sift<T, K(==)>(s: seq<T>, tag: T -> Option<K>, k: K): seq<T> {
    if s == [] then []
    else Sift(s[..|s| - 1], tag, k) + (if tag(s[|s| - 1]) == Some(k) then [s[|s| - 1]] else [])
  }

  /** The tags in the order in which they first occur. */
  function Heads<T, K(==)>(s: seq<T>, tag: T -> Option<K>): seq<K> {
    if s == [] then []
    else
      var before, t := Heads(s[..|s| - 1], tag), tag(s[|s| - 1]);
      if t.Some? && t.value !in before then before + [t.value] else before
  }

  lemma SiftSnoc<T, K>(s: seq<T>, x: T, tag: T -> Option<K>, k: K)
    ensures Sift(s + [x], tag, k) == if tag(x) == Some(k) then Sift(s, tag, k) + [x] else Sift(s, tag, k)
  {
    assert (s + [x])[..|s|] == s;
    assert Sift(s, tag, k) + [] == Sift(s, tag, k);
  }

  lemma HeadsSnoc<T, K>(s: seq<T>, x: T, tag: T -> Option<K>)
    ensures Heads(s + [x], tag)
            == if tag(x).Some? && tag(x).value !in Heads(s, tag) then Heads(s, tag) + [tag(x).value] else Heads(s, tag)
  {
    assert (s + [x])[..|s|] == s;
  }

  lemma {:induction false} HeadsHave<T, K>(s: seq<T>, tag: T -> Option<K>, k: K)
    ensures k in Heads(s, tag) <==> Sift(s, tag, k) != []
  {
    if s != [] { HeadsHave(s[..|s| - 1], tag, k); }
  }

  lemma {:induction false} HeadsAreDistinct<T, K>(s: seq<T>, tag: T -> Option<K>)
    ensures forall i, j :: 0 <= i < j < |Heads(s, tag)| ==> Heads(s, tag)[i] != Heads(s, tag)[j]
  {
    if s != [] { HeadsAreDistinct(s[..|s| - 1], tag); }
  }

  function Tagged<T, K(==)>(tag: T -> Option<K>, k: K): T -> bool {
    x => tag(x) == Some(k)
  }

  /** The elements at these places. */
  function At<T>(s: seq<T>, at: seq<int>): (r: seq<T>)
    requires forall i :: 0 <= i < |at| ==> 0 <= at[i] < |s|
    ensures |r| == |at|
  {
    seq(|at|, i requires 0 <= i < |at| => s[at[i]])
  }

  lemma {:induction false} SiftPicks<T, K>(s: seq<T>, tag: T -> Option<K>, k: K) returns (at: seq<int>)
    ensures Picks(at, s, Tagged(tag, k)) && At(s, at) == Sift(s, tag, k)
  {
    at := [];
    if s != [] {
      var front, x := s[..|s| - 1], s[|s| - 1];
      var before := SiftPicks(front, tag, k);
      FrontLast(s);
      PicksSnoc(before, front, x, Tagged(tag, k));
      at := before + (if Tagged(tag, k)(x) then [|front|] else []);
      assert At(s, before) == At(front, before);
      SiftSnoc(front, x, tag, k);
    }
  }

  lemma SomeTagged<T, K>(s: seq<T>, tag: T -> Option<K>, k: K) returns (a: int)
    requires k in Heads(s, tag)
    ensures 0 <= a < |s| && tag(s[a]) == Some(k)
  {
    HeadsHave(s, tag, k);
    var at := SiftPicks(s, tag, k);
    a := at[0];
    assert a in at && Tagged(tag, k)(s[a]);
  }

  lemma NoneTagged<T, K>(s: seq<T>, tag: T -> Option<K>, k: K)
    requires k !in Heads(s, tag)
    ensures forall c :: 0 <= c < |s| ==> tag(s[c]) != Some(k)
  {
    HeadsHave(s, tag, k);
    var at := SiftPicks(s, tag, k);
    forall c | 0 <= c < |s| ensures tag(s[c]) != Some(k) {
      assert c !in at && !Tagged(tag, k)(s[c]);
    }
  }

  /** The first place of a group's tag is after some place of each earlier group's. */
  ghost predicate Begins<T, K>(s: seq<T>, tag: T -> Option<K>, earlier: K, k: K, a: int, b: int) {
    && 0 <= a < b < |s| && tag(s[a]) == Some(earlier) && tag(s[b]) == Some(k)
    && forall c :: 0 <= c < b ==> tag(s[c]) != Some(k)
  }

  lemma {:induction false} HeadsInOrder<T, K>(s: seq<T>, tag: T -> Option<K>, i: nat, j: nat) returns (a: int, b: int)
    requires i < j < |Heads(s, tag)|
    ensures Begins(s, tag, Heads(s, tag)[i], Heads(s, tag)[j], a, b)
  {
    var front, x := s[..|s| - 1], s[|s| - 1];
    var before := Heads(front, tag);
    if j < |before| {
      a, b := HeadsInOrder(front, tag, i, j);
      assert Begins(s, tag, before[i], before[j], a, b);
    } else {
      b := |front|;
      a := SomeTagged(front, tag, before[i]);
      NoneTagged(front, tag, tag(x).value);
      assert Begins(s, tag, before[i], tag(x).value, a, b);
    }
  }
}
