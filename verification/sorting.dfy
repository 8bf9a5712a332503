/** A stable sort on an arbitrary total preorder: what Python's `sorted` promises. */
module Sorting {

  ghost predicate TotalPreorder<T(!new)>(le: (T, T) -> bool) {
    && (forall a, b :: le(a, b) || le(b, a))
    && (forall a, b, c :: le(a, b) && le(b, c) ==> le(a, c))
  }

  ghost predicate Sorted<T>(s: seq<T>, le: (T, T) -> bool) {
    forall i, j :: 0 <= i < j < |s| ==> le(s[i], s[j])
  }

  function Insert<T>(x: T, s: seq<T>, le: (T, T) -> bool): seq<T> {
    if s == [] || le(x, s[0]) then [x] + s else [s[0]] + Insert(x, s[1..], le)
  }

  function Sort<T>(s: seq<T>, le: (T, T) -> bool): seq<T> {
    if s == [] then [] else Insert(s[0], Sort(s[1..], le), le)
  }

  lemma {:induction false} InsertBag<T>(x: T, s: seq<T>, le: (T, T) -> bool)
    ensures multiset(Insert(x, s, le)) == multiset{x} + multiset(s)
  {
    if s != [] && !le(x, s[0]) {
      InsertBag(x, s[1..], le);
      assert s == [s[0]] + s[1..];
    }
  }

  lemma {:induction false} SortBag<T>(s: seq<T>, le: (T, T) -> bool)
    ensures multiset(Sort(s, le)) == multiset(s)
  {
    if s != [] {
      SortBag(s[1..], le);
      InsertBag(s[0], Sort(s[1..], le), le);
      assert s == [s[0]] + s[1..];
    }
  }

  lemma {:induction false} InsertSorted<T(!new)>(x: T, s: seq<T>, le: (T, T) -> bool)
    requires TotalPreorder(le) && Sorted(s, le)
    ensures Sorted(Insert(x, s, le), le)
  {
    if s != [] && !le(x, s[0]) {
      InsertSorted(x, s[1..], le);
      InsertBag(x, s[1..], le);
      var r := Insert(x, s[1..], le);
      forall k | 0 <= k < |r| ensures le(s[0], r[k]) {
        assert r[k] in multiset(r);
        assert r[k] == x || r[k] in s[1..];
      }
    } else if s != [] {
      assert forall k :: 0 <= k < |s| ==> le(s[0], s[k]) by {
        assert le(s[0], s[0]);
      }
    }
  }

  lemma {:induction false} SortSorted<T(!new)>(s: seq<T>, le: (T, T) -> bool)
    requires TotalPreorder(le)
    ensures Sorted(Sort(s, le), le)
  {
    if s != [] {
      SortSorted(s[1..], le);
      InsertSorted(s[0], Sort(s[1..], le), le);
    }
  }

  function Tied<T>(x: T, p: T, le: (T, T) -> bool): seq<T> {
    if le(x, p) && le(p, x) then [x] else []
  }

  /** The elements that tie with p, in order. */
  function Ties<T>(s: seq<T>, p: T, le: (T, T) -> bool): seq<T> {
    if s == [] then [] else Tied(s[0], p, le) + Ties(s[1..], p, le)
  }

  lemma TiesCons<T>(x: T, s: seq<T>, p: T, le: (T, T) -> bool)
    ensures Ties([x] + s, p, le) == Tied(x, p, le) + Ties(s, p, le)
  {
    assert ([x] + s)[1..] == s;
  }

  lemma NotBothTie<T(!new)>(x: T, y: T, p: T, le: (T, T) -> bool)
    requires TotalPreorder(le) && !le(x, y)
    ensures Tied(y, p, le) == [] || Tied(x, p, le) == []
  {
  }

  lemma PastNothing<T>(a: seq<T>, b: seq<T>, s: seq<T>)
    requires a == [] || b == []
    ensures a + (b + s) == b + (a + s)
  {
    if a == [] {
      assert a + s == s;
    }
  }

  lemma {:induction false} InsertStable<T(!new)>(x: T, s: seq<T>, p: T, le: (T, T) -> bool)
    requires TotalPreorder(le)
    ensures Ties(Insert(x, s, le), p, le) == Tied(x, p, le) + Ties(s, p, le)
  {
    if s == [] || le(x, s[0]) {
      TiesCons(x, s, p, le);
    } else {
      var rest := s[1..];
      InsertStable(x, rest, p, le);
      TiesCons(s[0], Insert(x, rest, le), p, le);
      NotBothTie(x, s[0], p, le);
      PastNothing(Tied(s[0], p, le), Tied(x, p, le), Ties(rest, p, le));
    }
  }

  /** Elements that tie keep the order they came in. */
  lemma {:induction false} SortStable<T(!new)>(s: seq<T>, p: T, le: (T, T) -> bool)
    requires TotalPreorder(le)
    ensures Ties(Sort(s, le), p, le) == Ties(s, p, le)
  {
    if s != [] {
      SortStable(s[1..], p, le);
      InsertStable(s[0], Sort(s[1..], le), p, le);
    }
  }

  lemma {:induction false} InsertAgrees<T(!new)>(x: T, s: seq<T>, le: (T, T) -> bool, le': (T, T) -> bool)
    requires forall a, b :: le(a, b) == le'(a, b)
    ensures Insert(x, s, le) == Insert(x, s, le')
  {
    if s != [] && !le(x, s[0]) { InsertAgrees(x, s[1..], le, le'); }
  }

  lemma {:induction false} SortAgrees<T(!new)>(s: seq<T>, le: (T, T) -> bool, le': (T, T) -> bool)
    requires forall a, b :: le(a, b) == le'(a, b)
    ensures Sort(s, le) == Sort(s, le')
  {
    if s != [] {
      SortAgrees(s[1..], le, le');
      InsertAgrees(s[0], Sort(s[1..], le), le, le');
    }
  }
}
