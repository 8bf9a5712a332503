/** backend/history_audit.py: the two-pass pairing of book fills with broker
    fills, the report built on it, and the patching of a stored report. */
module HistoryAudit {
  import opened Common
  import opened Strings

  const PRICE_TOLERANCE := 0.01
  const DATE_SLACK_DAYS := 3
  const UNPARSED_APART := 1_000_000

  /** `date` is a day number, or None for text that is not a date. */
  datatype BookFill = BookFill(
    executionId: string, ticker: string, action: string, strike: Option<real>, expiration: Option<string>,
    qty: int, price: Option<real>, date: Option<int>, transactionId: Option<string>, orderId: Option<string>)

  /** `strikeText` is the strike as Python prints it inside a finding id. */
  datatype BrokerFill = BrokerFill(
    orderId: Option<string>, transactionIds: seq<string>, ticker: string, action: string,
    strike: Option<real>, strikeText: string, expiration: Option<string>,
    qty: int, price: Option<real>, date: Option<int>)

  type Pair = (BookFill, BrokerFill)

  // ---- Evidence that two fills are the same trade ------------------------------

  function Distance(x: real, y: real): real {
    if x < y then y - x else x - y
  }

  predicate SameStrike(a: Option<real>, b: Option<real>) {
    match (a, b)
    case (None, None) => true
    case (Some(x), Some(y)) => Distance(x, y) < 0.005
    case _ => false
  }

  predicate Compatible(b: BookFill, s: BrokerFill) {
    && b.ticker == s.ticker && b.action == s.action
    && SameStrike(b.strike, s.strike)
    && (Truthy(b.expiration) && Truthy(s.expiration) ==> b.expiration == s.expiration)
  }

  function DaysApart(a: Option<int>, b: Option<int>): int {
    if a.Some? && b.Some? then
      if a.value < b.value then b.value - a.value else a.value - b.value
    else UNPARSED_APART
  }

  predicate SharesTransaction(b: BookFill, s: BrokerFill) {
    Truthy(b.transactionId) && b.transactionId.value in s.transactionIds
  }

  predicate SharesOrder(b: BookFill, s: BrokerFill) {
    Truthy(b.orderId) && s.orderId == b.orderId && Compatible(b, s)
  }

  predicate SharesKey(b: BookFill, s: BrokerFill) {
    Compatible(b, s) && s.qty == b.qty && DaysApart(b.date, s.date) <= DATE_SLACK_DAYS
  }

  // ---- The shrinking free list -------------------------------------------------

  /** Python's list.remove: drops the first element equal to x. */
  function Remove(free: seq<BrokerFill>, x: BrokerFill): (r: seq<BrokerFill>)
    ensures x in free ==> multiset(r) == multiset(free) - multiset{x}
    ensures x !in free ==> r == free
  {
    if free == [] then []
    else
      assert free == [free[0]] + free[1..];
      if free[0] == x then free[1..] else [free[0]] + Remove(free[1..], x)
  }

  predicate IsFirst(free: seq<BrokerFill>, test: BrokerFill -> bool, k: int) {
    0 <= k < |free| && test(free[k]) && forall j :: 0 <= j < k ==> !test(free[j])
  }

  /** The first free fill that passes the test, if any. */
  function First(free: seq<BrokerFill>, test: BrokerFill -> bool): (hit: Option<BrokerFill>)
    ensures hit.Some? ==> exists k :: IsFirst(free, test, k) && free[k] == hit.value
    ensures hit.None? ==> forall s :: s in free ==> !test(s)
  {
    if free == [] then None
    else if test(free[0]) then Some(free[0])
    else
      var later := First(free[1..], test);
      assert later.Some? ==>
          exists k :: IsFirst(free[1..], test, k) && free[1..][k] == later.value && IsFirst(free, test, k + 1);
      later
  }

  lemma {:induction false} FirstSkips(free: seq<BrokerFill>, test: BrokerFill -> bool, i: nat)
    requires i <= |free|
    requires forall k :: 0 <= k < i ==> !test(free[k])
    ensures First(free, test) == First(free[i..], test)
  {
    if i == 0 {
      assert free[0..] == free;
    } else {
      FirstSkips(free[1..], test, i - 1);
      assert free[1..][i - 1..] == free[i..];
    }
  }

  method Take(free: seq<BrokerFill>, test: BrokerFill -> bool)
    returns (hit: Option<BrokerFill>, left: seq<BrokerFill>)
    ensures hit == First(free, test)
    ensures left == if hit.Some? then Remove(free, hit.value) else free
  {
    for i := 0 to |free|
      invariant forall k :: 0 <= k < i ==> !test(free[k])
    {
      if test(free[i]) {
        FirstSkips(free, test, i);
        return Some(free[i]), Remove(free, free[i]);
      }
    }
    FirstSkips(free, test, |free|);
    return None, free;
  }

  function ByTransaction(b: BookFill): BrokerFill -> bool {
    (s: BrokerFill) => SharesTransaction(b, s)
  }

  function ByOrder(b: BookFill): BrokerFill -> bool {
    (s: BrokerFill) => SharesOrder(b, s)
  }

  /** Transaction id first, then order id; of several, the first one free. */
  function DirectHit(b: BookFill, free: seq<BrokerFill>): (hit: Option<BrokerFill>)
    ensures hit.Some? ==> hit.value in free && (SharesTransaction(b, hit.value) || SharesOrder(b, hit.value))
    ensures hit.Some? && !SharesTransaction(b, hit.value) ==> forall s :: s in free ==> !SharesTransaction(b, s)
    ensures hit.Some? ==>
              var test := if SharesTransaction(b, hit.value) then ByTransaction(b) else ByOrder(b);
              exists k :: IsFirst(free, test, k) && free[k] == hit.value
    ensures hit.None? ==> forall s :: s in free ==> !SharesTransaction(b, s) && !SharesOrder(b, s)
  {
    var byTransaction := First(free, ByTransaction(b));
    if byTransaction.Some? then byTransaction else First(free, ByOrder(b))
  }

  function Candidates(b: BookFill, free: seq<BrokerFill>): (cands: seq<BrokerFill>)
    ensures forall s :: s in cands <==> s in free && SharesKey(b, s)
  {
    if free == [] then []
    else (if SharesKey(b, free[0]) then [free[0]] else []) + Candidates(b, free[1..])
  }

  /** None is nearer, and every one before it is farther. */
  predicate IsNearest(b: BookFill, cands: seq<BrokerFill>, k: int) {
    && 0 <= k < |cands|
    && (forall j :: 0 <= j < |cands| ==> DaysApart(b.date, cands[k].date) <= DaysApart(b.date, cands[j].date))
    && (forall j :: 0 <= j < k ==> DaysApart(b.date, cands[k].date) < DaysApart(b.date, cands[j].date))
  }

  /** Python's min with a key: the first of the nearest. */
  function Nearest(b: BookFill, cands: seq<BrokerFill>): (s: BrokerFill)
    requires cands != []
    ensures s in cands
    ensures forall c :: c in cands ==> DaysApart(b.date, s.date) <= DaysApart(b.date, c.date)
  {
    if |cands| == 1 then cands[0]
    else
      var later := Nearest(b, cands[1..]);
      if DaysApart(b.date, cands[0].date) <= DaysApart(b.date, later.date) then cands[0] else later
  }

  lemma {:induction false} NearestIsFirst(b: BookFill, cands: seq<BrokerFill>) returns (k: nat)
    requires cands != []
    ensures IsNearest(b, cands, k) && cands[k] == Nearest(b, cands)
  {
    k := 0;
    if |cands| > 1 {
      var later := NearestIsFirst(b, cands[1..]);
      if DaysApart(b.date, cands[0].date) > DaysApart(b.date, cands[1..][later].date) { k := later + 1; }
      NearerFirst(b, cands, later, k);
    }
  }

  lemma NearerFirst(b: BookFill, cands: seq<BrokerFill>, later: nat, k: nat)
    requires |cands| > 1 && IsNearest(b, cands[1..], later)
    requires k == if DaysApart(b.date, cands[0].date) > DaysApart(b.date, cands[1..][later].date) then later + 1 else 0
    ensures IsNearest(b, cands, k)
  {
    forall j | 0 < j < |cands|
      ensures DaysApart(b.date, cands[1..][later].date) <= DaysApart(b.date, cands[j].date)
      ensures j <= later ==> DaysApart(b.date, cands[1..][later].date) < DaysApart(b.date, cands[j].date)
    {
      assert cands[j] == cands[1..][j - 1];
    }
  }

  // ---- The pairing -------------------------------------------------------------

  datatype Matched = Matched(pairs: seq<Pair>, rest: seq<BookFill>, free: seq<BrokerFill>)

  function PassOne(book: seq<BookFill>, free: seq<BrokerFill>): Matched {
    if book == [] then Matched([], [], free)
    else
      match DirectHit(book[0], free)
      case Some(s) =>
        var m := PassOne(book[1..], Remove(free, s));
        m.(pairs := [(book[0], s)] + m.pairs)
      case None =>
        var m := PassOne(book[1..], free);
        m.(rest := [book[0]] + m.rest)
  }

  function PassTwo(book: seq<BookFill>, free: seq<BrokerFill>): Matched {
    if book == [] then Matched([], [], free)
    else
      var cands := Candidates(book[0], free);
      if cands == [] then
        var m := PassTwo(book[1..], free);
        m.(rest := [book[0]] + m.rest)
      else
        var s := Nearest(book[0], cands);
        var m := PassTwo(book[1..], Remove(free, s));
        m.(pairs := [(book[0], s)] + m.pairs)
  }

  function Match(book: seq<BookFill>, broker: seq<BrokerFill>): Matched {
    var one := PassOne(book, broker);
    var two := PassTwo(one.rest, one.free);
    two.(pairs := one.pairs + two.pairs)
  }

  /** What the two passes do to results gathered so far. */
  function Prepend(pairs: seq<Pair>, rest: seq<BookFill>, m: Matched): Matched {
    Matched(pairs + m.pairs, rest + m.rest, m.free)
  }

  lemma PrependStep(pairs: seq<Pair>, rest: seq<BookFill>, p: seq<Pair>, r: seq<BookFill>, m: Matched)
    ensures Prepend(pairs, rest, Prepend(p, r, m)) == Prepend(pairs + p, rest + r, m)
  {
    assert pairs + (p + m.pairs) == (pairs + p) + m.pairs;
    assert rest + (r + m.rest) == (rest + r) + m.rest;
  }

  /** One turn of the first loop. */
  lemma PassOneStep(book: seq<BookFill>, free: seq<BrokerFill>)
    requires book != []
    ensures match DirectHit(book[0], free)
            case Some(s) => PassOne(book, free) == Prepend([(book[0], s)], [], PassOne(book[1..], Remove(free, s)))
            case None => PassOne(book, free) == Prepend([], [book[0]], PassOne(book[1..], free))
  {
  }

  /** One turn of the second loop. */
  lemma PassTwoStep(book: seq<BookFill>, free: seq<BrokerFill>)
    requires book != []
    ensures var cands := Candidates(book[0], free);
            if cands == [] then PassTwo(book, free) == Prepend([], [book[0]], PassTwo(book[1..], free))
            else
              var s := Nearest(book[0], cands);
              PassTwo(book, free) == Prepend([(book[0], s)], [], PassTwo(book[1..], Remove(free, s)))
  {
    var cands := Candidates(book[0], free);
    if cands == [] {
      var m := PassTwo(book[1..], free);
      assert [] + m.pairs == m.pairs;
    } else {
      var m := PassTwo(book[1..], Remove(free, Nearest(book[0], cands)));
      assert [] + m.rest == m.rest;
    }
  }

  method PairDirectly(book: seq<BookFill>, broker: seq<BrokerFill>)
    returns (pairs: seq<Pair>, rest: seq<BookFill>, free: seq<BrokerFill>)
    ensures Matched(pairs, rest, free) == PassOne(book, broker)
  {
    free, pairs, rest := broker, [], [];
    assert book[0..] == book;
    for i := 0 to |book|
      invariant PassOne(book, broker) == Prepend(pairs, rest, PassOne(book[i..], free))
    {
      var b := book[i];
      PassOneStep(book[i..], free);
      assert book[i..][0] == b && book[i..][1..] == book[i + 1..];
      ghost var others := if DirectHit(b, free).Some? then Remove(free, DirectHit(b, free).value) else free;
      ghost var onward := PassOne(book[i + 1..], others);
      var hit: Option<BrokerFill>, left := None, free;
      if Truthy(b.transactionId) {
        hit, left := Take(free, ByTransaction(b));
      }
      if hit.None? && Truthy(b.orderId) {
        hit, left := Take(free, ByOrder(b));
      }
      assert hit == DirectHit(b, free);
      if hit.None? {
        PrependStep(pairs, rest, [], [b], onward);
        assert pairs + [] == pairs;
        rest := rest + [b];
      } else {
        PrependStep(pairs, rest, [(b, hit.value)], [], onward);
        assert rest + [] == rest;
        pairs := pairs + [(b, hit.value)];
        free := left;
      }
    }
    assert book[|book|..] == [];
    assert pairs + [] == pairs && rest + [] == rest;
  }

  method MatchFills(book: seq<BookFill>, broker: seq<BrokerFill>)
    returns (pairs: seq<Pair>, unmatched: seq<BookFill>, free: seq<BrokerFill>)
    ensures Matched(pairs, unmatched, free) == Match(book, broker)
  {
    var rest;
    pairs, rest, free := PairDirectly(book, broker);
    ghost var found, open := pairs, free;
    unmatched := [];
    assert rest[0..] == rest && found + [] == found;
    for i := 0 to |rest|
      invariant Prepend(found, [], PassTwo(rest, open)) == Prepend(pairs, unmatched, PassTwo(rest[i..], free))
    {
      var b := rest[i];
      PassTwoStep(rest[i..], free);
      assert rest[i..][0] == b && rest[i..][1..] == rest[i + 1..];
      var cands := Candidates(b, free);
      if cands == [] {
        PrependStep(pairs, unmatched, [], [b], PassTwo(rest[i + 1..], free));
        assert pairs + [] == pairs;
        unmatched := unmatched + [b];
      } else {
        var s := Nearest(b, cands);
        PrependStep(pairs, unmatched, [(b, s)], [], PassTwo(rest[i + 1..], Remove(free, s)));
        assert unmatched + [] == unmatched;
        free := Remove(free, s);
        pairs := pairs + [(b, s)];
      }
    }
    assert rest[|rest|..] == [];
    assert pairs + [] == pairs && unmatched + [] == unmatched;
  }
}
