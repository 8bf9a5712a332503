/** Multisets of the elements of sequences and of the two sides of sequences of pairs. */
module Bags {

  function Lefts<A, B>(pairs: seq<(A, B)>): (s: seq<A>)
    ensures |s| == |pairs|
  {
    seq(|pairs|, i requires 0 <= i < |pairs| => pairs[i].0)
  }

  function Rights<A, B>(pairs: seq<(A, B)>): (s: seq<B>)
    ensures |s| == |pairs|
  {
    seq(|pairs|, i requires 0 <= i < |pairs| => pairs[i].1)
  }

  function Firsts<A, B>(pairs: seq<(A, B)>): multiset<A> {
    multiset(Lefts(pairs))
  }

  function Seconds<A, B>(pairs: seq<(A, B)>): multiset<B> {
    multiset(Rights(pairs))
  }

  lemma Cons<T>(s: seq<T>)
    requires s != []
    ensures multiset(s) == multiset{s[0]} + multiset(s[1..])
  {
    assert s == [s[0]] + s[1..];
  }

  lemma Swap<T>(x: multiset<T>, p: multiset<T>, r: multiset<T>)
    ensures x + (p + r) == (x + p) + r == p + (x + r)
  {
  }

  lemma TakeOut<T>(all: multiset<T>, x: T)
    requires x in all
    ensures multiset{x} + (all - multiset{x}) == all
  {
  }

  lemma SidesAppend<A, B>(p: seq<(A, B)>, q: seq<(A, B)>)
    ensures Firsts(p + q) == Firsts(p) + Firsts(q)
    ensures Seconds(p + q) == Seconds(p) + Seconds(q)
  {
    assert Lefts(p + q) == Lefts(p) + Lefts(q);
    assert Rights(p + q) == Rights(p) + Rights(q);
  }

  lemma SidesCons<A, B>(p: (A, B), q: seq<(A, B)>)
    ensures Firsts([p] + q) == multiset{p.0} + Firsts(q)
    ensures Seconds([p] + q) == multiset{p.1} + Seconds(q)
  {
    assert Lefts([p] + q) == [p.0] + Lefts(q);
    assert Rights([p] + q) == [p.1] + Rights(q);
  }

  function DropAt<T>(m: seq<T>, k: nat): seq<T>
    requires k < |m|
  {
    m[..k] + m[k + 1..]
  }

  lemma DropAtBag<T>(m: seq<T>, k: nat)
    requires k < |m|
    ensures multiset(DropAt(m, k)) == multiset(m) - multiset{m[k]}
  {
    assert m == m[..k] + [m[k]] + m[k + 1..];
  }

  lemma DropAtSides<A, B>(m: seq<(A, B)>, k: nat)
    requires k < |m|
    ensures Firsts(DropAt(m, k)) == Firsts(m) - multiset{m[k].0}
    ensures Seconds(DropAt(m, k)) == Seconds(m) - multiset{m[k].1}
  {
    assert Lefts(DropAt(m, k)) == DropAt(Lefts(m), k);
    assert Rights(DropAt(m, k)) == DropAt(Rights(m), k);
    DropAtBag(Lefts(m), k);
    DropAtBag(Rights(m), k);
  }

  lemma InSides<A, B>(m: seq<(A, B)>, k: nat)
    requires k < |m|
    ensures m[k].0 in Firsts(m) && m[k].1 in Seconds(m)
  {
    assert Lefts(m)[k] in Lefts(m) && Rights(m)[k] in Rights(m);
  }

  /** A pairing whose first sides fit in xs loses at most one pair to fit in xs less x. */
  lemma ReleaseFirst<A, B>(m: seq<(A, B)>, xs: multiset<A>, x: A) returns (r: seq<(A, B)>)
    requires x in xs && Firsts(m) <= xs
    ensures Firsts(r) <= xs - multiset{x} && Seconds(r) <= Seconds(m)
    ensures |m| <= |r| + 1 && forall p :: p in r ==> p in m
  {
    r := m;
    if x in Lefts(m) {
      var k :| 0 <= k < |m| && Lefts(m)[k] == x;
      DropAtSides(m, k);
      r := DropAt(m, k);
    }
  }

  lemma ReleaseSecond<A, B>(m: seq<(A, B)>, ys: multiset<B>, y: B) returns (r: seq<(A, B)>)
    requires y in ys && Seconds(m) <= ys
    ensures Seconds(r) <= ys - multiset{y} && Firsts(r) <= Firsts(m)
    ensures |m| <= |r| + 1 && forall p :: p in r ==> p in m
  {
    r := m;
    if y in Rights(m) {
      var k :| 0 <= k < |m| && Rights(m)[k] == y;
      DropAtSides(m, k);
      r := DropAt(m, k);
    }
  }

  /** r is m without x and y on its sides: every pair is one of m's, or pairs the partner
      that y had with the partner that x had. */
  ghost predicate Exchanged<A(!new), B(!new)>(m: seq<(A, B)>, r: seq<(A, B)>, x: A, y: B) {
    forall p :: p in r ==> p in m || ((x, p.1) in m && (p.0, y) in m)
  }

  lemma PutBack<T>(q: multiset<T>, a: T, c: T)
    requires a in q && a != c
    ensures multiset{a} + (q - multiset{a} - multiset{c}) == q - multiset{c}
  {
  }

  lemma LessBoth<T>(p: multiset<T>, q: multiset<T>, x: T)
    requires p <= q
    ensures p - multiset{x} <= q - multiset{x}
    ensures x !in p ==> p - multiset{x} == p
  {
  }

  /** The partners of the k-th first side and of the j-th second side among the others. */
  function Swapped<A, B>(m: seq<(A, B)>, k: nat, j: nat): seq<(A, B)>
    requires k < |m| && j < |DropAt(m, k)|
  {
    [(DropAt(m, k)[j].0, m[k].1)] + DropAt(DropAt(m, k), j)
  }

  lemma SwappedSides<A, B>(m: seq<(A, B)>, k: nat, j: nat)
    requires k < |m| && j < |DropAt(m, k)| && m[k].1 != DropAt(m, k)[j].1
    ensures Firsts(Swapped(m, k, j)) == Firsts(m) - multiset{m[k].0}
    ensures Seconds(Swapped(m, k, j)) == Seconds(m) - multiset{DropAt(m, k)[j].1}
  {
    var most := DropAt(m, k);
    DropAtSides(m, k);
    DropAtSides(most, j);
    InSides(m, k);
    InSides(most, j);
    SidesCons((most[j].0, m[k].1), DropAt(most, j));
    TakeOut(Firsts(most), most[j].0);
    PutBack(Seconds(m), m[k].1, most[j].1);
  }

  lemma DropAtMembers<T>(m: seq<T>, k: nat, p: T)
    requires k < |m| && p in DropAt(m, k)
    ensures p in m
  {
  }

  lemma SwappedPairs<A(!new), B(!new)>(m: seq<(A, B)>, k: nat, j: nat)
    requires k < |m| && j < |DropAt(m, k)|
    ensures Exchanged(m, Swapped(m, k, j), m[k].0, DropAt(m, k)[j].1)
  {
    var most := DropAt(m, k);
    DropAtMembers(m, k, most[j]);
    assert (most[j].0, most[j].1) == most[j] && (m[k].0, m[k].1) == m[k] && m[k] in m;
    forall p | p in DropAt(most, j) ensures p in m {
      DropAtMembers(most, j, p);
      DropAtMembers(m, k, p);
    }
  }

  /** A pairing that fits in xs and ys loses at most one pair to fit in xs less x and ys less y. */
  lemma Exchange<A(!new), B(!new)>(m: seq<(A, B)>, xs: multiset<A>, ys: multiset<B>, x: A, y: B)
    returns (r: seq<(A, B)>)
    requires x in xs && y in ys && Firsts(m) <= xs && Seconds(m) <= ys
    ensures Firsts(r) <= xs - multiset{x} && Seconds(r) <= ys - multiset{y}
    ensures |m| <= |r| + 1 && Exchanged(m, r, x, y)
  {
    LessBoth(Firsts(m), xs, x);
    LessBoth(Seconds(m), ys, y);
    if x !in Lefts(m) {
      assert x !in Firsts(m);
      r := ReleaseSecond(m, ys, y);
    } else if y !in Rights(m) {
      assert y !in Seconds(m);
      r := ReleaseFirst(m, xs, x);
    } else {
      r := ExchangeBoth(m, x, y);
    }
  }

  lemma ExchangeBoth<A(!new), B(!new)>(m: seq<(A, B)>, x: A, y: B) returns (r: seq<(A, B)>)
    requires x in Lefts(m) && y in Rights(m)
    ensures Firsts(r) <= Firsts(m) - multiset{x} && Seconds(r) <= Seconds(m) - multiset{y}
    ensures |m| <= |r| + 1 && Exchanged(m, r, x, y)
  {
    var k :| 0 <= k < |m| && Lefts(m)[k] == x;
    if m[k].1 == y {
      DropAtSides(m, k);
      r := DropAt(m, k);
    } else {
      var i :| 0 <= i < |m| && Rights(m)[i] == y;
      var j := if i < k then i else i - 1;
      assert DropAt(m, k)[j] == m[i];
      SwappedSides(m, k, j);
      SwappedPairs(m, k, j);
      r := Swapped(m, k, j);
    }
  }

  lemma TwoPairs<A, B>(p: (A, B), q: (A, B))
    ensures Firsts([p, q]) == multiset([p.0, q.0])
    ensures Seconds([p, q]) == multiset([q.1, p.1])
  {
    assert Lefts([p, q]) == [p.0, q.0];
    assert Rights([p, q]) == [p.1, q.1];
    assert multiset([p.1, q.1]) == multiset{p.1, q.1} == multiset([q.1, p.1]);
  }

  lemma SameBagSameMembers<T>(s: seq<T>, t: seq<T>)
    requires multiset(s) == multiset(t)
    ensures forall x :: x in s <==> x in t
    ensures |s| == |t|
  {
    forall x ensures x in s <==> x in t {
      assert x in s <==> x in multiset(s);
      assert x in t <==> x in multiset(t);
    }
    assert |s| == |multiset(s)| && |t| == |multiset(t)|;
  }

  predicate Distinct<T(==)>(s: seq<T>) {
    forall i, j :: 0 <= i < j < |s| ==> s[i] != s[j]
  }

  lemma {:induction false} DistinctBag<T>(s: seq<T>)
    requires Distinct(s)
    ensures forall x :: multiset(s)[x] == if x in s then 1 else 0
  {
    if s != [] {
      DistinctBag(s[1..]);
      Cons(s);
    }
  }

  lemma {:induction false} BagDistinct<T>(s: seq<T>)
    requires forall x :: multiset(s)[x] <= 1
    ensures Distinct(s)
  {
    if s != [] {
      Cons(s);
      forall x ensures multiset(s[1..])[x] <= 1 {
        assert multiset(s)[x] <= 1;
      }
      BagDistinct(s[1..]);
      assert multiset(s)[s[0]] == 1 + multiset(s[1..])[s[0]];
      assert s[0] !in s[1..];
      forall j | 1 <= j < |s| ensures s[0] != s[j] {
        assert s[j] == s[1..][j - 1];
      }
    }
  }

  lemma SameMembersSameBag<T>(s: seq<T>, t: seq<T>)
    requires Distinct(s) && Distinct(t)
    requires forall x :: x in s <==> x in t
    ensures multiset(s) == multiset(t)
  {
    DistinctBag(s);
    DistinctBag(t);
  }

  lemma TwoCount<T>(a: T, b: T, x: T)
    requires a != b
    ensures multiset{a, b}[x] == if x == a || x == b then 1 else 0
  {
  }

  lemma UnionCount<T>(p: multiset<T>, q: multiset<T>, x: T)
    ensures (p + q)[x] == p[x] + q[x]
  {
  }

  lemma AtLeastTwo<T>(s: set<T>, a: T, b: T)
    requires a in s && b in s && a != b
    ensures |s| >= 2
  {
    assert |s - {a}| >= 1 by { assert b in s - {a}; }
  }

  lemma TwoOf<T>(s: set<T>) returns (a: T, b: T)
    requires |s| >= 2
    ensures a in s && b in s && a != b
  {
    a :| a in s;
    assert |s - {a}| >= 1;
    b :| b in s - {a};
  }

  lemma {:induction false} SmallerSet<T>(a: set<T>, b: set<T>)
    requires a <= b
    ensures |a| <= |b|
  {
    if a != {} {
      var x :| x in a;
      SmallerSet(a - {x}, b - {x});
    }
  }

  /** The members of a set, each once, in some order. */
  method Listed<T(==)>(s: set<T>) returns (names: seq<T>)
    ensures Distinct(names) && forall x :: x in names <==> x in s
  {
    names := [];
    var todo := s;
    while todo != {}
      invariant todo <= s && forall x :: x in names <==> x in s && x !in todo
      invariant Distinct(names)
      decreases |todo|
    {
      var x :| x in todo;
      names, todo := names + [x], todo - {x};
    }
  }

  /** The map without some of its keys, removed one by one. */
  function Left<K, V>(m: map<K, V>, gone: seq<K>): map<K, V> {
    map k | k in m && k !in gone :: m[k]
  }

  lemma LeftSnoc<K, V>(m: map<K, V>, gone: seq<K>, g: K)
    requires g in m && g !in gone
    ensures Left(m, gone + [g]) == (map k | k in Left(m, gone) && k != g :: Left(m, gone)[k])
    ensures |Left(m, gone + [g])| == |Left(m, gone)| - 1
  {
    assert Left(m, gone + [g]).Keys == Left(m, gone).Keys - {g};
  }

  method Without<K(==), V>(m: map<K, V>, gone: seq<K>) returns (kept: map<K, V>)
    requires Distinct(gone) && forall k :: k in gone ==> k in m
    ensures kept == Left(m, gone) && |kept| == |m| - |gone|
  {
    kept := m;
    for i := 0 to |gone|
      invariant kept == Left(m, gone[..i]) && |kept| == |m| - i
    {
      assert gone[i] in gone && gone[i] !in gone[..i];
      LeftSnoc(m, gone[..i], gone[i]);
      assert gone[..i + 1] == gone[..i] + [gone[i]];
      kept := map k | k in kept && k != gone[i] :: kept[k];
    }
    assert gone[..|gone|] == gone;
  }
}
