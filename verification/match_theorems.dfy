/** What the pairing in HistoryAudit promises, for every book and every feed. */
module MatchTheorems {
  import opened Bags
  import opened Common
  import opened HistoryAudit

  // ---- Nothing is lost and nothing is used twice -------------------------------

  /** The pairs and the leftovers together hold exactly the fills that came in. */
  predicate Partitions(book: seq<BookFill>, broker: seq<BrokerFill>, m: Matched) {
    && Firsts(m.pairs) + multiset(m.rest) == multiset(book)
    && Seconds(m.pairs) + multiset(m.free) == multiset(broker)
  }

  /** Pairing b with s, or leaving b over, extends a partition of what remains. */
  lemma PairedStep(book: seq<BookFill>, broker: seq<BrokerFill>, s: BrokerFill, m: Matched)
    requires book != [] && s in broker
    requires Partitions(book[1..], Remove(broker, s), m)
    ensures Partitions(book, broker, m.(pairs := [(book[0], s)] + m.pairs))
  {
    SidesCons((book[0], s), m.pairs);
    Cons(book);
    Swap(multiset{book[0]}, Firsts(m.pairs), multiset(m.rest));
    TakeOut(multiset(broker), s);
    Swap(multiset{s}, Seconds(m.pairs), multiset(m.free));
  }

  lemma LeftOverStep(book: seq<BookFill>, broker: seq<BrokerFill>, m: Matched)
    requires book != []
    requires Partitions(book[1..], broker, m)
    ensures Partitions(book, broker, m.(rest := [book[0]] + m.rest))
  {
    Cons(book);
    Cons([book[0]] + m.rest);
    assert ([book[0]] + m.rest)[1..] == m.rest;
    Swap(multiset{book[0]}, Firsts(m.pairs), multiset(m.rest));
  }

  lemma {:induction false} PassOnePartitions(book: seq<BookFill>, free: seq<BrokerFill>)
    ensures Partitions(book, free, PassOne(book, free))
  {
    if book != [] {
      match DirectHit(book[0], free)
      case Some(s) =>
        PassOnePartitions(book[1..], Remove(free, s));
        PairedStep(book, free, s, PassOne(book[1..], Remove(free, s)));
      case None =>
        PassOnePartitions(book[1..], free);
        LeftOverStep(book, free, PassOne(book[1..], free));
    }
  }

  lemma {:induction false} PassTwoPartitions(book: seq<BookFill>, free: seq<BrokerFill>)
    ensures Partitions(book, free, PassTwo(book, free))
  {
    if book != [] {
      var cands := Candidates(book[0], free);
      if cands == [] {
        PassTwoPartitions(book[1..], free);
        LeftOverStep(book, free, PassTwo(book[1..], free));
      } else {
        var s := Nearest(book[0], cands);
        PassTwoPartitions(book[1..], Remove(free, s));
        PairedStep(book, free, s, PassTwo(book[1..], Remove(free, s)));
      }
    }
  }

  lemma MatchPartitions(book: seq<BookFill>, broker: seq<BrokerFill>)
    ensures Partitions(book, broker, Match(book, broker))
  {
    var one := PassOne(book, broker);
    var two := PassTwo(one.rest, one.free);
    PassOnePartitions(book, broker);
    PassTwoPartitions(one.rest, one.free);
    SidesAppend(one.pairs, two.pairs);
    Swap(Firsts(one.pairs), Firsts(two.pairs), multiset(two.rest));
    Swap(Seconds(one.pairs), Seconds(two.pairs), multiset(two.free));
  }

  // ---- Maximality --------------------------------------------------------------

  lemma {:induction false} PassOneExhausts(book: seq<BookFill>, free: seq<BrokerFill>)
    ensures var m := PassOne(book, free);
            && (forall s :: s in m.free ==> s in free)
            && (forall b, s :: b in m.rest && s in m.free ==> !SharesTransaction(b, s) && !SharesOrder(b, s))
  {
    if book != [] {
      match DirectHit(book[0], free)
      case Some(s) =>
        PassOneExhausts(book[1..], Remove(free, s));
        forall x | x in Remove(free, s) ensures x in free { assert x in multiset(Remove(free, s)); }
      case None =>
        PassOneExhausts(book[1..], free);
    }
  }

  lemma {:induction false} PassTwoExhausts(book: seq<BookFill>, free: seq<BrokerFill>)
    ensures var m := PassTwo(book, free);
            && (forall b :: b in m.rest ==> b in book)
            && (forall s :: s in m.free ==> s in free)
            && (forall b, s :: b in m.rest && s in m.free ==> !SharesKey(b, s))
  {
    if book != [] {
      assert book == [book[0]] + book[1..];
      var cands := Candidates(book[0], free);
      if cands == [] {
        PassTwoExhausts(book[1..], free);
      } else {
        var s := Nearest(book[0], cands);
        PassTwoExhausts(book[1..], Remove(free, s));
        forall x | x in Remove(free, s) ensures x in free { assert x in multiset(Remove(free, s)); }
      }
    }
  }

  /** No leftover book fill and leftover broker fill carry any evidence for each other. */
  lemma MatchIsMaximal(book: seq<BookFill>, broker: seq<BrokerFill>, b: BookFill, s: BrokerFill)
    requires b in Match(book, broker).rest && s in Match(book, broker).free
    ensures !SharesTransaction(b, s) && !SharesOrder(b, s) && !SharesKey(b, s)
  {
    var one := PassOne(book, broker);
    PassOneExhausts(book, broker);
    PassTwoExhausts(one.rest, one.free);
  }

  // ---- Strongest evidence first ------------------------------------------------

  lemma {:induction false} PassOneJustified(book: seq<BookFill>, free: seq<BrokerFill>)
    ensures forall p :: p in PassOne(book, free).pairs ==> SharesTransaction(p.0, p.1) || SharesOrder(p.0, p.1)
  {
    if book != [] {
      match DirectHit(book[0], free)
      case Some(s) => PassOneJustified(book[1..], Remove(free, s));
      case None => PassOneJustified(book[1..], free);
    }
  }

  lemma {:induction false} PassTwoJustified(book: seq<BookFill>, free: seq<BrokerFill>)
    ensures forall p :: p in PassTwo(book, free).pairs ==> SharesKey(p.0, p.1) && p.0 in book && p.1 in free
  {
    if book != [] {
      assert book == [book[0]] + book[1..];
      var cands := Candidates(book[0], free);
      if cands == [] {
        PassTwoJustified(book[1..], free);
      } else {
        var s := Nearest(book[0], cands);
        PassTwoJustified(book[1..], Remove(free, s));
        forall x | x in Remove(free, s) ensures x in free { assert x in multiset(Remove(free, s)); }
      }
    }
  }

  /** Every pair rests on evidence, and a pair that rests on the key alone was made
      only when its book fill had no direct evidence for any fill then unpaired:
      neither its own partner, nor any other key-paired fill, nor any leftover. */
  lemma StrongestEvidenceFirst(book: seq<BookFill>, broker: seq<BrokerFill>)
    ensures var one := PassOne(book, broker);
            var two := PassTwo(one.rest, one.free);
            && Match(book, broker).pairs == one.pairs + two.pairs
            && (forall p :: p in one.pairs ==> SharesTransaction(p.0, p.1) || SharesOrder(p.0, p.1))
            && (forall p :: p in two.pairs ==> SharesKey(p.0, p.1))
            && (forall p, q :: p in two.pairs && q in two.pairs ==>
                  !SharesTransaction(p.0, q.1) && !SharesOrder(p.0, q.1))
            && (forall p, s :: p in two.pairs && s in two.free ==>
                  !SharesTransaction(p.0, s) && !SharesOrder(p.0, s))
  {
    var one := PassOne(book, broker);
    PassOneJustified(book, broker);
    PassTwoJustified(one.rest, one.free);
    PassOneExhausts(book, broker);
    PassTwoExhausts(one.rest, one.free);
  }

  /** A pair of pass one that rests on the order id alone was made only when its book fill
      shared its transaction with no fill that was free: none still free, and none of a
      later pair. */
  lemma {:induction false} TransactionFirst(book: seq<BookFill>, free: seq<BrokerFill>, i: nat)
    requires i < |PassOne(book, free).pairs|
    requires var p := PassOne(book, free).pairs[i]; !SharesTransaction(p.0, p.1)
    ensures var m := PassOne(book, free);
            && (forall s :: s in m.free ==> !SharesTransaction(m.pairs[i].0, s))
            && (forall j :: i < j < |m.pairs| ==> !SharesTransaction(m.pairs[i].0, m.pairs[j].1))
  {
    match DirectHit(book[0], free)
    case Some(s) =>
      var rest := PassOne(book[1..], Remove(free, s));
      if i == 0 {
        PassOneTakes(book[1..], Remove(free, s));
        forall x | x in Remove(free, s) ensures x in free { RemovedWasThere(free, s, x); }
      } else {
        TransactionFirst(book[1..], Remove(free, s), i - 1);
      }
    case None => TransactionFirst(book[1..], free, i);
  }

  lemma RemovedWasThere(free: seq<BrokerFill>, s: BrokerFill, x: BrokerFill)
    requires s in free && x in Remove(free, s)
    ensures x in free
  {
    assert x in multiset(Remove(free, s));
  }

  /** What a pass leaves, and what it pairs, is from these. */
  ghost predicate From(m: Matched, free: seq<BrokerFill>) {
    (forall s :: s in m.free ==> s in free) && (forall j :: 0 <= j < |m.pairs| ==> m.pairs[j].1 in free)
  }

  lemma FromCons(m: Matched, free: seq<BrokerFill>, b: BookFill, s: BrokerFill)
    requires s in free && From(m, Remove(free, s))
    ensures From(m.(pairs := [(b, s)] + m.pairs), free)
  {
    var pairs := [(b, s)] + m.pairs;
    forall x | x in m.free ensures x in free { RemovedWasThere(free, s, x); }
    forall j | 0 <= j < |pairs| ensures pairs[j].1 in free {
      if j > 0 { RemovedWasThere(free, s, m.pairs[j - 1].1); }
    }
  }

  lemma {:induction false} PassOneTakes(book: seq<BookFill>, free: seq<BrokerFill>)
    ensures From(PassOne(book, free), free)
  {
    if book != [] {
      match DirectHit(book[0], free)
      case Some(s) =>
        PassOneTakes(book[1..], Remove(free, s));
        FromCons(PassOne(book[1..], Remove(free, s)), free, book[0], s);
      case None => PassOneTakes(book[1..], free);
    }
  }

  /** In a whole match: transaction, then order, then key. Of a pair without a shared
      transaction, the book fill shares one with no leftover, and with no fill of a later pair. */
  lemma TransactionFirstInMatch(book: seq<BookFill>, broker: seq<BrokerFill>, i: nat)
    requires i < |Match(book, broker).pairs|
    requires var p := Match(book, broker).pairs[i]; !SharesTransaction(p.0, p.1)
    ensures var m := Match(book, broker);
            && (forall s :: s in m.free ==> !SharesTransaction(m.pairs[i].0, s))
            && (forall j :: i < j < |m.pairs| ==> !SharesTransaction(m.pairs[i].0, m.pairs[j].1))
  {
    var m, one := Match(book, broker), PassOne(book, broker);
    var two := PassTwo(one.rest, one.free);
    StrongestEvidenceFirst(book, broker);
    PassTwoExhausts(one.rest, one.free);
    PassTwoJustified(one.rest, one.free);
    assert m.pairs == one.pairs + two.pairs;
    if i < |one.pairs| {
      TransactionFirst(book, broker, i);
      forall j | i < j < |m.pairs| ensures !SharesTransaction(m.pairs[i].0, m.pairs[j].1) {
        if j >= |one.pairs| { assert m.pairs[j] in two.pairs; }
      }
    } else {
      assert m.pairs[i] in two.pairs;
      forall j | i < j < |m.pairs| ensures !SharesTransaction(m.pairs[i].0, m.pairs[j].1) {
        assert m.pairs[j] in two.pairs;
      }
    }
  }

  // ---- Fills are decided in book order -----------------------------------------

  /** What a further book fill adds to pass one: its own direct hit among the fills still
      free, or itself as a leftover. Nothing decided before changes. */
  lemma {:induction false} PassOneInOrder(book: seq<BookFill>, b: BookFill, free: seq<BrokerFill>)
    ensures var m, hit := PassOne(book, free), DirectHit(b, PassOne(book, free).free);
            PassOne(book + [b], free)
            == if hit.Some? then Matched(m.pairs + [(b, hit.value)], m.rest, Remove(m.free, hit.value))
               else Matched(m.pairs, m.rest + [b], m.free)
  {
    if book == [] {
      assert (book + [b])[1..] == [];
    } else {
      assert (book + [b])[1..] == book[1..] + [b] && (book + [b])[0] == book[0];
      match DirectHit(book[0], free)
      case Some(s) =>
        PassOneInOrder(book[1..], b, Remove(free, s));
        ConsSnoc((book[0], s), PassOne(book[1..], Remove(free, s)).pairs);
      case None =>
        PassOneInOrder(book[1..], b, free);
        ConsSnoc(book[0], PassOne(book[1..], free).rest);
    }
  }

  lemma ConsSnoc<T(!new)>(x: T, s: seq<T>)
    ensures forall y :: [x] + (s + [y]) == [x] + s + [y]
  {
  }

  /** And to pass two: the first of the nearest fills that share its key and are still free. */
  lemma {:induction false} PassTwoInOrder(book: seq<BookFill>, b: BookFill, free: seq<BrokerFill>)
    ensures var m, cands := PassTwo(book, free), Candidates(b, PassTwo(book, free).free);
            PassTwo(book + [b], free)
            == if cands == [] then Matched(m.pairs, m.rest + [b], m.free)
               else
                 var s := Nearest(b, cands);
                 Matched(m.pairs + [(b, s)], m.rest, Remove(m.free, s))
  {
    if book == [] {
      assert (book + [b])[1..] == [];
    } else {
      assert (book + [b])[1..] == book[1..] + [b] && (book + [b])[0] == book[0];
      PassTwoStep(book + [b], free);
      PassTwoStep(book, free);
      var cands := Candidates(book[0], free);
      if cands == [] {
        PassTwoInOrder(book[1..], b, free);
        ConsSnoc(book[0], PassTwo(book[1..], free).rest);
      } else {
        var s := Nearest(book[0], cands);
        PassTwoInOrder(book[1..], b, Remove(free, s));
        ConsSnoc((book[0], s), PassTwo(book[1..], Remove(free, s)).pairs);
      }
    }
  }

  // ---- The evidence, field by field --------------------------------------------

  /** Ticker and action agree, the strikes are both absent or within half a cent, and the
      expirations agree if both are known. */
  ghost predicate SameInstrument(b: BookFill, s: BrokerFill) {
    && b.ticker == s.ticker && b.action == s.action
    && (b.strike.None? <==> s.strike.None?)
    && (b.strike.Some? && s.strike.Some? ==> -0.005 < b.strike.value - s.strike.value < 0.005)
    && (b.expiration == s.expiration || b.expiration in {None, Some("")} || s.expiration in {None, Some("")})
  }

  /** Both dates are known and at most three days apart. */
  ghost predicate CloseInTime(b: BookFill, s: BrokerFill) {
    b.date.Some? && s.date.Some? && -3 <= b.date.value - s.date.value <= 3
  }

  ghost predicate OneTransaction(b: BookFill, s: BrokerFill) {
    exists k :: 0 <= k < |s.transactionIds| && b.transactionId == Some(s.transactionIds[k]) && s.transactionIds[k] != ""
  }

  ghost predicate OneOrder(b: BookFill, s: BrokerFill) {
    b.orderId == s.orderId && b.orderId !in {None, Some("")} && SameInstrument(b, s)
  }

  ghost predicate OneKey(b: BookFill, s: BrokerFill) {
    SameInstrument(b, s) && b.qty == s.qty && CloseInTime(b, s)
  }

  lemma EvidenceIs(b: BookFill, s: BrokerFill)
    ensures SharesTransaction(b, s) <==> OneTransaction(b, s)
    ensures SharesOrder(b, s) <==> OneOrder(b, s)
    ensures SharesKey(b, s) <==> OneKey(b, s)
  {
    if SharesTransaction(b, s) {
      var k :| 0 <= k < |s.transactionIds| && s.transactionIds[k] == b.transactionId.value;
      assert b.transactionId == Some(s.transactionIds[k]) && s.transactionIds[k] != "";
    }
  }

  /** What a match says, in terms of the fields: every pair is of one transaction, of one
      order and instrument, or of one instrument and quantity within three days; and no
      leftover on one side is any of these with a leftover on the other. */
  lemma MatchMeans(book: seq<BookFill>, broker: seq<BrokerFill>)
    ensures var m := Match(book, broker);
            && (forall p :: p in m.pairs ==> OneTransaction(p.0, p.1) || OneOrder(p.0, p.1) || OneKey(p.0, p.1))
            && (forall b, s :: b in m.rest && s in m.free ==>
                  !OneTransaction(b, s) && !OneOrder(b, s) && !OneKey(b, s))
  {
    var m, one := Match(book, broker), PassOne(book, broker);
    StrongestEvidenceFirst(book, broker);
    forall p | p in m.pairs ensures OneTransaction(p.0, p.1) || OneOrder(p.0, p.1) || OneKey(p.0, p.1) {
      EvidenceIs(p.0, p.1);
      assert p in one.pairs || p in PassTwo(one.rest, one.free).pairs;
    }
    forall b, s | b in m.rest && s in m.free ensures !OneTransaction(b, s) && !OneOrder(b, s) && !OneKey(b, s) {
      MatchIsMaximal(book, broker, b, s);
      EvidenceIs(b, s);
    }
  }

  // ---- How far the greedy second pass can be from the best ---------------------

  /** A one-to-one pairing of some of `book` with some of `free`, every pair on key evidence. */
  predicate KeyMatching(m: seq<Pair>, book: seq<BookFill>, free: seq<BrokerFill>) {
    && Firsts(m) <= multiset(book)
    && Seconds(m) <= multiset(free)
    && forall p :: p in m ==> SharesKey(p.0, p.1)
  }

  /** Pass two finds at least half as many pairs as any other key matching could. */
  lemma {:induction false} GreedyWithinTwo(book: seq<BookFill>, free: seq<BrokerFill>, m: seq<Pair>)
    requires KeyMatching(m, book, free)
    ensures |m| <= 2 * |PassTwo(book, free).pairs|
    decreases |book|
  {
    if m != [] { InSides(m, 0); }
    if book != [] {
      var cands := Candidates(book[0], free);
      if cands == [] {
        UnpairableIsUnused(book, free, m);
        GreedyWithinTwo(book[1..], free, m);
      } else {
        var s := Nearest(book[0], cands);
        Cons(book);
        var r := ReleaseFirst(m, multiset(book), book[0]);
        r := ReleaseSecond(r, multiset(free), s);
        GreedyWithinTwo(book[1..], Remove(free, s), r);
      }
    }
  }

  lemma UnpairableIsUnused(book: seq<BookFill>, free: seq<BrokerFill>, m: seq<Pair>)
    requires book != [] && KeyMatching(m, book, free) && Candidates(book[0], free) == []
    ensures KeyMatching(m, book[1..], free)
  {
    forall k | 0 <= k < |m| ensures m[k].0 != book[0] {
      InSides(m, k);
      assert m[k].1 in multiset(free);
      assert m[k].1 !in Candidates(book[0], free);
    }
    assert book[0] !in Lefts(m);
    Cons(book);
  }

  /** The same bound for the fills that pass one leaves behind in a whole match. */
  lemma MatchWithinTwo(book: seq<BookFill>, broker: seq<BrokerFill>, m: seq<Pair>)
    requires var one := PassOne(book, broker); KeyMatching(m, one.rest, one.free)
    ensures |m| <= 2 * (|Match(book, broker).pairs| - |PassOne(book, broker).pairs|)
  {
    var one := PassOne(book, broker);
    GreedyWithinTwo(one.rest, one.free, m);
  }

  function PlainBook(id: string, day: int): BookFill {
    BookFill(id, "SPCX", "buy_shares", None, None, 100, None, Some(day), None, None)
  }

  function PlainBroker(order: string, day: int): BrokerFill {
    BrokerFill(Some(order), [order], "SPCX", "buy_shares", None, "None", None, 100, None, Some(day))
  }

  lemma OneChance(e1: BookFill, s1: BrokerFill, s2: BrokerFill)
    requires SharesKey(e1, s1) && SharesKey(e1, s2) && DaysApart(e1.date, s1.date) <= DaysApart(e1.date, s2.date)
    ensures Candidates(e1, [s1, s2]) == [s1, s2] && Nearest(e1, [s1, s2]) == s1 && Remove([s1, s2], s1) == [s2]
  {
    assert [s2][1..] == [] && [s1, s2][1..] == [s2];
    assert Candidates(e1, [s2]) == [s2];
  }

  lemma NoChance(e2: BookFill, s2: BrokerFill)
    requires !SharesKey(e2, s2)
    ensures PassTwo([e2], [s2]) == Matched([], [e2], [s2])
  {
    assert [e2][1..] == [] && [s2][1..] == [];
    assert Candidates(e2, [s2]) == [];
    PassTwoStep([e2], [s2]);
    assert PassTwo([], [s2]) == Matched([], [], [s2]);
  }

  /** The factor two is reached: whenever e1 sits nearer to s1 than to s2 and e2 could
      only be s1, the nearest-date rule pairs one fill where two were possible. */
  lemma GreedyLosesOne(e1: BookFill, e2: BookFill, s1: BrokerFill, s2: BrokerFill)
    requires SharesKey(e1, s1) && SharesKey(e1, s2) && SharesKey(e2, s1) && !SharesKey(e2, s2)
    requires DaysApart(e1.date, s1.date) <= DaysApart(e1.date, s2.date)
    ensures KeyMatching([(e1, s2), (e2, s1)], [e1, e2], [s1, s2])
    ensures PassTwo([e1, e2], [s1, s2]) == Matched([(e1, s1)], [e2], [s2])
  {
    TwoPairs((e1, s2), (e2, s1));
    assert [e1, e2][1..] == [e2];
    OneChance(e1, s1, s2);
    NoChance(e2, s2);
    PassTwoStep([e1, e2], [s1, s2]);
  }

  lemma GreedyIsNotBest()
    ensures exists e1, e2, s1, s2 ::
              && KeyMatching([(e1, s2), (e2, s1)], [e1, e2], [s1, s2])
              && |PassTwo([e1, e2], [s1, s2]).pairs| == 1
  {
    var e1, e2 := PlainBook("e1", 4), PlainBook("e2", 0);
    var s1, s2 := PlainBroker("11", 3), PlainBroker("12", 6);
    GreedyLosesOne(e1, e2, s1, s2);
    assert KeyMatching([(e1, s2), (e2, s1)], [e1, e2], [s1, s2]);
  }

  // ---- Exactly when the greedy second pass is best -----------------------------

  /** b could be either fill and is no nearer to t, and b' could be s but not t. */
  predicate Rival(b: BookFill, b': BookFill, s: BrokerFill, t: BrokerFill) {
    SharesKey(b, s) && SharesKey(b, t) && SharesKey(b', s) && !SharesKey(b', t)
    && DaysApart(b.date, s.date) <= DaysApart(b.date, t.date)
  }

  /** No fill can take another's only chance for no better date. Fills of one key that all
      lie within the slack of each other are harmless, whatever their dates. */
  predicate Harmless(book: seq<BookFill>, free: seq<BrokerFill>) {
    forall b, b', s, t :: b in book && b' in book && s in free && t in free ==> !Rival(b, b', s, t)
  }

  lemma HarmlessPart(book: seq<BookFill>, free: seq<BrokerFill>, book': seq<BookFill>, free': seq<BrokerFill>)
    requires Harmless(book, free)
    requires (forall b :: b in book' ==> b in book) && (forall s :: s in free' ==> s in free)
    ensures Harmless(book', free')
  {
  }

  lemma RestIsPart(book: seq<BookFill>, free: seq<BrokerFill>, s: BrokerFill)
    requires book != [] && s in free && Harmless(book, free)
    ensures Harmless(book[1..], free) && Harmless(book[1..], Remove(free, s))
  {
    HarmlessPart(book, free, book[1..], free);
    forall x | x in Remove(free, s) ensures x in free { assert x in multiset(Remove(free, s)); }
    HarmlessPart(book, free, book[1..], Remove(free, s));
  }

  /** Taking the nearest fill away from any key matching costs it one pair at most. */
  lemma NearestCostsOne(book: seq<BookFill>, free: seq<BrokerFill>, m: seq<Pair>) returns (r: seq<Pair>)
    requires book != [] && Harmless(book, free) && KeyMatching(m, book, free) && Candidates(book[0], free) != []
    ensures var s := Nearest(book[0], Candidates(book[0], free));
            KeyMatching(r, book[1..], Remove(free, s)) && |m| <= |r| + 1
  {
    var cands := Candidates(book[0], free);
    var s := Nearest(book[0], cands);
    r := Exchange(m, multiset(book), multiset(free), book[0], s);
    Cons(book);
    forall p | p in r ensures SharesKey(p.0, p.1) {
      if p !in m {
        PartsOf(m, book, free, (book[0], p.1));
        PartsOf(m, book, free, (p.0, s));
        assert p.1 in cands;
        assert !Rival(book[0], p.0, s, p.1);
      }
    }
  }

  lemma PartsOf(m: seq<Pair>, book: seq<BookFill>, free: seq<BrokerFill>, p: Pair)
    requires KeyMatching(m, book, free) && p in m
    ensures p.0 in book && p.1 in free && SharesKey(p.0, p.1)
  {
    var k :| 0 <= k < |m| && m[k] == p;
    InSides(m, k);
    assert p.0 in multiset(book) && p.1 in multiset(free);
  }

  /** Among harmless fills no key matching has more pairs than pass two finds. */
  lemma {:induction false} GreedyIsBest(book: seq<BookFill>, free: seq<BrokerFill>, m: seq<Pair>)
    requires Harmless(book, free) && KeyMatching(m, book, free)
    ensures |m| <= |PassTwo(book, free).pairs|
    decreases |book|
  {
    if m != [] { InSides(m, 0); }
    if book != [] {
      var cands := Candidates(book[0], free);
      if cands == [] {
        UnpairableIsUnused(book, free, m);
        HarmlessPart(book, free, book[1..], free);
        GreedyIsBest(book[1..], free, m);
      } else {
        var r := NearestCostsOne(book, free, m);
        RestIsPart(book, free, Nearest(book[0], cands));
        GreedyIsBest(book[1..], Remove(free, Nearest(book[0], cands)), r);
      }
    }
  }

  /** Some of the fills, in some order, of which pass two pairs fewer than it could. */
  ghost predicate Outdone(
      book: seq<BookFill>, free: seq<BrokerFill>, bs: seq<BookFill>, ss: seq<BrokerFill>, m: seq<Pair>)
  {
    && (forall b :: b in bs ==> b in book) && (forall s :: s in ss ==> s in free)
    && KeyMatching(m, bs, ss) && |m| > |PassTwo(bs, ss).pairs|
  }

  ghost predicate NeverOutdone(book: seq<BookFill>, free: seq<BrokerFill>) {
    forall bs, ss, m :: !Outdone(book, free, bs, ss, m)
  }

  lemma HarmlessIsEnough(book: seq<BookFill>, free: seq<BrokerFill>)
    requires Harmless(book, free)
    ensures NeverOutdone(book, free)
  {
    forall bs, ss, m ensures !Outdone(book, free, bs, ss, m) {
      NotOutdone(book, free, bs, ss, m);
    }
  }

  lemma HarmlessIsNeeded(book: seq<BookFill>, free: seq<BrokerFill>)
    requires !Harmless(book, free)
    ensures !NeverOutdone(book, free)
  {
    var b, b', s, t :| b in book && b' in book && s in free && t in free && Rival(b, b', s, t);
    RivalOutdoes(book, free, b, b', s, t);
    OnceOutdone(book, free, [b, b'], [s, t], [(b, t), (b', s)]);
  }

  lemma OnceOutdone(book: seq<BookFill>, free: seq<BrokerFill>, bs: seq<BookFill>, ss: seq<BrokerFill>, m: seq<Pair>)
    requires Outdone(book, free, bs, ss, m)
    ensures !NeverOutdone(book, free)
  {
  }

  /** Pass two is best on everything drawn from these fills exactly when they are harmless. */
  lemma GreedyIsBestExactly(book: seq<BookFill>, free: seq<BrokerFill>)
    ensures Harmless(book, free) <==> NeverOutdone(book, free)
  {
    if Harmless(book, free) {
      HarmlessIsEnough(book, free);
    } else {
      HarmlessIsNeeded(book, free);
    }
  }

  lemma NotOutdone(book: seq<BookFill>, free: seq<BrokerFill>, bs: seq<BookFill>, ss: seq<BrokerFill>, m: seq<Pair>)
    requires Harmless(book, free)
    ensures !Outdone(book, free, bs, ss, m)
  {
    if Outdone(book, free, bs, ss, m) {
      HarmlessPart(book, free, bs, ss);
      GreedyIsBest(bs, ss, m);
    }
  }

  lemma RivalOutdoes(
      book: seq<BookFill>, free: seq<BrokerFill>, b: BookFill, b': BookFill, s: BrokerFill, t: BrokerFill)
    requires b in book && b' in book && s in free && t in free && Rival(b, b', s, t)
    ensures Outdone(book, free, [b, b'], [s, t], [(b, t), (b', s)])
  {
    GreedyLosesOne(b, b', s, t);
    var two := PassTwo([b, b'], [s, t]);
    assert |two.pairs| == 1;
  }

  /** Of four such fills pass two loses one, in some order, only if b is no nearer to the
      fill that is not b's only choice: otherwise it pairs both, whatever the order. */
  lemma NearerIsSafe(b: BookFill, b': BookFill, s: BrokerFill, t: BrokerFill, bs: seq<BookFill>, ss: seq<BrokerFill>)
    requires SharesKey(b, s) && SharesKey(b, t) && SharesKey(b', s) && !SharesKey(b', t)
    requires DaysApart(b.date, s.date) > DaysApart(b.date, t.date)
    requires multiset(bs) == multiset([b, b']) && multiset(ss) == multiset([s, t])
    ensures |PassTwo(bs, ss).pairs| >= 2
  {
    TwoPairs((b, t), (b', s));
    SameBagSameMembers(bs, [b, b']);
    SameBagSameMembers(ss, [s, t]);
    forall x, x', u, v | x in bs && x' in bs && u in ss && v in ss ensures !Rival(x, x', u, v) {
      assert (x == b || x == b') && (x' == b || x' == b') && (u == s || u == t) && (v == s || v == t);
    }
    GreedyIsBest(bs, ss, [(b, t), (b', s)]);
  }

  /** The fills that pass one leaves behind, in a whole match. */
  lemma MatchIsBest(book: seq<BookFill>, broker: seq<BrokerFill>, m: seq<Pair>)
    requires var one := PassOne(book, broker); Harmless(one.rest, one.free) && KeyMatching(m, one.rest, one.free)
    ensures |m| + |PassOne(book, broker).pairs| <= |Match(book, broker).pairs|
  {
    var one := PassOne(book, broker);
    GreedyIsBest(one.rest, one.free, m);
  }
}
