/** backend/history_audit.py, broker_fills: the broker's trade legs summed into one
    row per order and instrument, so that partial fills meet a single booked fill. */
module BrokerRows {
  import opened Common
  import opened Groups
  import opened HistoryAudit

  // ---- Rounding ----------------------------------------------------------------

  /** Python's round: a half goes to the even neighbour. */
  function RoundHalfEven(x: real): (n: int)
    ensures n as real - 0.5 <= x <= n as real + 0.5
  {
    var f := x.Floor;
    var d := x - f as real;
    if d < 0.5 || (d == 0.5 && f % 2 == 0) then f else f + 1
  }

  lemma TiesAreEven(x: real)
    ensures var n := RoundHalfEven(x); x == n as real - 0.5 || x == n as real + 0.5 ==> n % 2 == 0
  {
  }

  lemma RoundMonotone(x: real, y: real)
    requires x <= y
    ensures RoundHalfEven(x) <= RoundHalfEven(y)
  {
    assert x.Floor <= y.Floor;
  }

  lemma RoundWhole(n: int)
    ensures RoundHalfEven(n as real) == n
  {
  }

  /** round(x, 2), in cents. */
  function Cents(x: real): int {
    RoundHalfEven(x * 100.0)
  }

  /** round(x, 4) */
  function FourDigits(x: real): real {
    RoundHalfEven(x * 10000.0) as real / 10000.0
  }

  lemma FourDigitsMonotone(x: real, y: real)
    requires x <= y
    ensures FourDigits(x) <= FourDigits(y)
  {
    RoundMonotone(x * 10000.0, y * 10000.0);
  }

  /** One leg of a parsed transaction; `action` is None for a leg that is not a trade. */
  datatype Leg = Leg(
    orderId: Option<string>, transactionId: string, day: int, underlying: string, action: Option<string>,
    option: bool, put: bool, amount: Option<real>, strike: Option<real>, strikeText: string,
    expiry: Option<string>, price: Option<real>)
  {
    function Qty(): real {
      var q := amount.GetOr(0.0);
      if q < 0.0 then -q else q
    }

    predicate Audited(since: int, until: int) {
      since <= day < until && action.Some? && !(option && put) && Qty() > 0.0
    }

    function Key(): RowKey {
      RowKey(if Truthy(orderId) then orderId.value else "txn:" + transactionId,
             underlying, action.GetOr(""),
             if option then Some(Cents(strike.GetOr(0.0))) else None,
             if option && Truthy(expiry) then expiry else None)
    }
  }

  datatype RowKey = RowKey(
      reference: string, ticker: string, action: string, strikeCents: Option<int>, expiry: Option<string>)

  /** A row while it is being summed. */
  datatype Sum = Sum(first: Leg, transactionIds: seq<string>, qty: real, notional: real, priced: real, date: int)

  function Start(leg: Leg): Sum {
    Sum(leg, [], 0.0, 0.0, 0.0, leg.day)
  }

  function Add(row: Sum, leg: Leg): Sum {
    Sum(row.first, row.transactionIds + [leg.transactionId], row.qty + leg.Qty(),
        if leg.price.Some? then row.notional + leg.price.value * leg.Qty() else row.notional,
        if leg.price.Some? then row.priced + leg.Qty() else row.priced,
        if leg.day < row.date then leg.day else row.date)
  }

  function SumOf(legs: seq<Leg>): Sum
    requires legs != []
  {
    if |legs| == 1 then Add(Start(legs[0]), legs[0])
    else Add(SumOf(legs[..|legs| - 1]), legs[|legs| - 1])
  }

  function Finish(row: Sum): BrokerFill {
    BrokerFill(row.first.orderId, row.transactionIds, row.first.underlying, row.first.action.GetOr(""),
               if row.first.option then row.first.strike else None, row.first.strikeText, row.first.Key().expiry,
               RoundHalfEven(row.qty), if row.priced != 0.0 then Some(FourDigits(row.notional / row.priced)) else None,
               Some(row.date))
  }

  // ---- What the rows should be -------------------------------------------------

  /** The key of an audited leg. */
  function TagOf(since: int, until: int): Leg -> Option<RowKey> {
    (l: Leg) => if l.Audited(since, until) then Some(l.Key()) else None
  }

  /** Each of the keys has legs. */
  predicate Keyed(ks: seq<RowKey>, legs: seq<Leg>, tag: Leg -> Option<RowKey>) {
    forall i :: 0 <= i < |ks| ==> Sift(legs, tag, ks[i]) != []
  }

  lemma HeadsAreKeyed(legs: seq<Leg>, tag: Leg -> Option<RowKey>)
    ensures Keyed(Heads(legs, tag), legs, tag)
  {
    forall i | 0 <= i < |Heads(legs, tag)| ensures Sift(legs, tag, Heads(legs, tag)[i]) != [] {
      HeadsHave(legs, tag, Heads(legs, tag)[i]);
    }
  }

  /** The finished rows of these keys. */
  function RowsFor(ks: seq<RowKey>, legs: seq<Leg>, tag: Leg -> Option<RowKey>): (rows: seq<BrokerFill>)
    requires Keyed(ks, legs, tag)
    ensures |rows| == |ks|
  {
    seq(|ks|, i requires 0 <= i < |ks| => Finish(SumOf(Sift(legs, tag, ks[i]))))
  }

  /** One row for each key, in the order of their first legs. */
  function Rows(legs: seq<Leg>, since: int, until: int): (rows: seq<BrokerFill>)
    ensures |rows| == |Heads(legs, TagOf(since, until))|
  {
    HeadsAreKeyed(legs, TagOf(since, until));
    RowsFor(Heads(legs, TagOf(since, until)), legs, TagOf(since, until))
  }

  lemma SumOfSnoc(legs: seq<Leg>, leg: Leg)
    ensures SumOf(legs + [leg]) == Add(if legs == [] then Start(leg) else SumOf(legs), leg)
  {
    assert (legs + [leg])[..|legs|] == legs;
  }

  ghost predicate Holds(rows: map<RowKey, Sum>, legs: seq<Leg>, tag: Leg -> Option<RowKey>) {
    forall k :: (k in rows <==> Sift(legs, tag, k) != []) && (k in rows ==> rows[k] == SumOf(Sift(legs, tag, k)))
  }

  /** The rows after one more leg. */
  function WithLeg(rows: map<RowKey, Sum>, k: RowKey, leg: Leg): map<RowKey, Sum> {
    rows[k := Add(if k in rows then rows[k] else Start(leg), leg)]
  }

  lemma HoldsStep(rows: map<RowKey, Sum>, legs: seq<Leg>, leg: Leg, tag: Leg -> Option<RowKey>)
    requires Holds(rows, legs, tag)
    ensures Holds(if tag(leg).Some? then WithLeg(rows, tag(leg).value, leg) else rows, legs + [leg], tag)
  {
    var next := if tag(leg).Some? then WithLeg(rows, tag(leg).value, leg) else rows;
    forall k
      ensures k in next <==> Sift(legs + [leg], tag, k) != []
      ensures k in next ==> next[k] == SumOf(Sift(legs + [leg], tag, k))
    {
      SiftSnoc(legs, leg, tag, k);
      SumOfSnoc(Sift(legs, tag, k), leg);
    }
  }

  lemma SeenIsHead(rows: map<RowKey, Sum>, legs: seq<Leg>, tag: Leg -> Option<RowKey>, k: RowKey)
    requires Holds(rows, legs, tag)
    ensures k in rows <==> k in Heads(legs, tag)
  {
    HeadsHave(legs, tag, k);
  }

  /** The dictionary of rows, filled in one pass over the feed. */
  method SumRows(legs: seq<Leg>, since: int, until: int) returns (rows: map<RowKey, Sum>, order: seq<RowKey>)
    ensures order == Heads(legs, TagOf(since, until)) && Holds(rows, legs, TagOf(since, until))
  {
    rows, order := map[], [];
    ghost var tag := TagOf(since, until);
    for i := 0 to |legs|
      invariant order == Heads(legs[..i], tag) && Holds(rows, legs[..i], tag)
    {
      var leg := legs[i];
      HoldsStep(rows, legs[..i], leg, tag);
      HeadsSnoc(legs[..i], leg, tag);
      TakeSnoc(legs, i + 1);
      if leg.Audited(since, until) {
        var k := leg.Key();
        SeenIsHead(rows, legs[..i], tag, k);
        if k !in rows {
          order := order + [k];
        }
        rows := WithLeg(rows, k, leg);
      }
    }
    TakeAll(legs);
  }

  lemma RowAt(rows: map<RowKey, Sum>, legs: seq<Leg>, since: int, until: int, i: nat)
    requires Holds(rows, legs, TagOf(since, until)) && i < |Rows(legs, since, until)|
    ensures var k := Heads(legs, TagOf(since, until))[i]; k in rows && Finish(rows[k]) == Rows(legs, since, until)[i]
  {
    HeadsAreKeyed(legs, TagOf(since, until));
  }

  method BrokerFills(legs: seq<Leg>, since: int, until: int) returns (out: seq<BrokerFill>)
    ensures out == Rows(legs, since, until)
  {
    var rows, order := SumRows(legs, since, until);
    out := [];
    ghost var spec := Rows(legs, since, until);
    for i := 0 to |order|
      invariant |out| == i && out == spec[..i]
    {
      RowAt(rows, legs, since, until, i);
      TakeSnoc(spec, i + 1);
      out := out + [Finish(rows[order[i]])];
    }
    TakeAll(spec);
  }

  // ---- What a row means --------------------------------------------------------

  function TotalQty(legs: seq<Leg>): real {
    if legs == [] then 0.0 else TotalQty(legs[..|legs| - 1]) + legs[|legs| - 1].Qty()
  }

  predicate PricedWithin(legs: seq<Leg>, lo: real, hi: real) {
    forall i :: 0 <= i < |legs| && legs[i].price.Some? ==> lo <= legs[i].price.value <= hi
  }

  /** n lies between lo and hi times q. */
  predicate Within(lo: real, hi: real, n: real, q: real) {
    lo * q <= n <= hi * q
  }

  lemma AddWithin(lo: real, hi: real, n: real, q: real, x: real, r: real)
    requires Within(lo, hi, n, q) && lo <= x <= hi && r >= 0.0
    ensures Within(lo, hi, n + x * r, q + r)
  {
    assert lo * r <= x * r <= hi * r;
    assert lo * (q + r) == lo * q + lo * r;
    assert hi * (q + r) == hi * q + hi * r;
  }

  lemma DivideWithin(lo: real, hi: real, n: real, q: real)
    requires Within(lo, hi, n, q) && q > 0.0
    ensures lo <= n / q <= hi
  {
    var x := n / q;
    assert x * q == n;
    assert lo * q <= x * q <= hi * q;
    assert (x - lo) * q >= 0.0 && (hi - x) * q >= 0.0;
  }

  /** The broker's ids in feed order, the exact quantity, and the earliest day. */
  lemma {:induction false} SumMeans(legs: seq<Leg>)
    requires legs != []
    ensures var row := SumOf(legs);
            && row.first == legs[0] && row.qty == TotalQty(legs)
            && row.transactionIds == seq(|legs|, i requires 0 <= i < |legs| => legs[i].transactionId)
            && (forall l :: l in legs ==> row.date <= l.day) && (exists l :: l in legs && l.day == row.date)
  {
    var n := |legs| - 1;
    var last := legs[n];
    assert legs == legs[..n] + [last];
    assert last in legs;
    if n == 0 {
      assert legs[..0] == [];
    } else {
      SumMeans(legs[..n]);
      var l :| l in legs[..n] && l.day == SumOf(legs[..n]).date;
      assert l in legs;
    }
  }

  predicate RowWithin(lo: real, hi: real, row: Sum) {
    row.priced >= 0.0 && Within(lo, hi, row.notional, row.priced)
  }

  lemma AddKeeps(lo: real, hi: real, row: Sum, leg: Leg)
    requires RowWithin(lo, hi, row) && (leg.price.Some? ==> lo <= leg.price.value <= hi)
    ensures RowWithin(lo, hi, Add(row, leg))
  {
    if leg.price.Some? {
      AddWithin(lo, hi, row.notional, row.priced, leg.price.value, leg.Qty());
    }
  }

  lemma StartWithin(lo: real, hi: real, leg: Leg)
    ensures RowWithin(lo, hi, Start(leg))
  {
  }

  lemma {:induction false} PricesWithin(legs: seq<Leg>, lo: real, hi: real)
    requires legs != [] && PricedWithin(legs, lo, hi)
    ensures RowWithin(lo, hi, SumOf(legs))
  {
    var n := |legs| - 1;
    if n == 0 {
      StartWithin(lo, hi, legs[0]);
      AddKeeps(lo, hi, Start(legs[0]), legs[0]);
    } else {
      PricesWithin(legs[..n], lo, hi);
      AddKeeps(lo, hi, SumOf(legs[..n]), legs[n]);
    }
  }

  /** A row's price is an average: between the cheapest and the dearest partial fill, each
      rounded to four digits as the row is. */
  lemma PriceIsAnAverage(legs: seq<Leg>, lo: real, hi: real)
    requires legs != [] && PricedWithin(legs, lo, hi)
    ensures var px := Finish(SumOf(legs)).price; px.Some? ==> FourDigits(lo) <= px.value <= FourDigits(hi)
  {
    PricesWithin(legs, lo, hi);
    var row := SumOf(legs);
    if row.priced > 0.0 {
      DivideWithin(lo, hi, row.notional, row.priced);
      FourDigitsMonotone(lo, row.notional / row.priced);
      FourDigitsMonotone(row.notional / row.priced, hi);
    }
  }

  // ---- Which legs make which row -----------------------------------------------

  /** A trade of the window, of something, that is not in puts. */
  predicate InAudit(l: Leg, since: int, until: int) {
    && since <= l.day && l.day < until && l.action.Some? && (l.option ==> !l.put)
    && l.amount.Some? && l.amount.value != 0.0
  }

  /** The same order, or the same transaction when there is no order; the same action on the
      same name; and, of options, the same strike to the cent and the same expiration. */
  predicate SameRow(a: Leg, b: Leg) {
    && Reference(a) == Reference(b) && a.underlying == b.underlying && a.action == b.action
    && a.option == b.option
    && (a.option ==>
          && RoundHalfEven(a.strike.GetOr(0.0) * 100.0) == RoundHalfEven(b.strike.GetOr(0.0) * 100.0)
          && (if a.expiry in {None, Some("")} then b.expiry in {None, Some("")} else b.expiry == a.expiry))
  }

  function Reference(l: Leg): string {
    if l.orderId.Some? && l.orderId.value != "" then l.orderId.value else "txn:" + l.transactionId
  }

  function RowOf(first: Leg, since: int, until: int): Leg -> bool {
    (l: Leg) => InAudit(l, since, until) && SameRow(l, first)
  }

  /** What key a leg has decides its row. */
  lemma KeysDecide(a: Leg, b: Leg, since: int, until: int)
    requires InAudit(b, since, until)
    ensures a.Audited(since, until) && a.Key() == b.Key() <==> InAudit(a, since, until) && SameRow(a, b)
  {
  }

  lemma PicksAlike<T>(at: seq<int>, s: seq<T>, test: T -> bool, other: T -> bool)
    requires Picks(at, s, test) && forall k :: 0 <= k < |s| ==> test(s[k]) == other(s[k])
    ensures Picks(at, s, other)
  {
  }

  /** The places of the legs of one row. */
  lemma LegsOfHead(legs: seq<Leg>, since: int, until: int, i: nat) returns (at: seq<int>)
    requires i < |Rows(legs, since, until)|
    ensures at != [] && Picks(at, legs, Tagged(TagOf(since, until), Heads(legs, TagOf(since, until))[i]))
    ensures Rows(legs, since, until)[i] == Finish(SumOf(At(legs, at)))
  {
    HeadsAreKeyed(legs, TagOf(since, until));
    at := SiftPicks(legs, TagOf(since, until), Heads(legs, TagOf(since, until))[i]);
  }

  lemma TaggedAreLike(legs: seq<Leg>, since: int, until: int, k: RowKey, at: seq<int>)
    requires at != [] && Picks(at, legs, Tagged(TagOf(since, until), k))
    ensures InAudit(legs[at[0]], since, until) && Picks(at, legs, RowOf(legs[at[0]], since, until))
  {
    var test := Tagged(TagOf(since, until), k);
    assert test(legs[at[0]]) by { assert at[0] in at; }
    KeysDecide(legs[at[0]], legs[at[0]], since, until);
    forall j | 0 <= j < |legs| ensures test(legs[j]) == RowOf(legs[at[0]], since, until)(legs[j]) {
      KeysDecide(legs[j], legs[at[0]], since, until);
    }
    PicksAlike(at, legs, test, RowOf(legs[at[0]], since, until));
  }

  /** Each row is made of the legs like its first one, all of them, in feed order. */
  lemma RowLegs(legs: seq<Leg>, since: int, until: int, i: nat) returns (at: seq<int>)
    requires i < |Rows(legs, since, until)|
    ensures at != [] && 0 <= at[0] < |legs| && InAudit(legs[at[0]], since, until)
    ensures Picks(at, legs, RowOf(legs[at[0]], since, until))
    ensures Rows(legs, since, until)[i] == Finish(SumOf(At(legs, at)))
  {
    at := LegsOfHead(legs, since, until, i);
    TaggedAreLike(legs, since, until, Heads(legs, TagOf(since, until))[i], at);
  }

  function Notional(legs: seq<Leg>): real {
    if legs == [] then 0.0
    else
      var l := legs[|legs| - 1];
      Notional(legs[..|legs| - 1])
      + (if l.price.Some? && l.amount.Some? then
           l.price.value * (if l.amount.value < 0.0 then -l.amount.value else l.amount.value)
         else 0.0)
  }

  function Volume(legs: seq<Leg>, pricedOnly: bool): real {
    if legs == [] then 0.0
    else
      var l := legs[|legs| - 1];
      Volume(legs[..|legs| - 1], pricedOnly)
      + (if l.amount.Some? && (pricedOnly ==> l.price.Some?) then
           if l.amount.value < 0.0 then -l.amount.value else l.amount.value
         else 0.0)
  }

  lemma {:induction false} SumsMean(legs: seq<Leg>)
    requires legs != []
    ensures var row := SumOf(legs);
            row.qty == Volume(legs, false) && row.priced == Volume(legs, true) && row.notional == Notional(legs)
  {
    var n := |legs| - 1;
    FrontLast(legs);
    if n == 0 {
      assert legs[..0] == [];
    } else {
      SumsMean(legs[..n]);
    }
  }

  /** Its figures: the legs' amounts in all, to the nearest whole, and the average price to
      four digits over those that have one. */
  lemma RowFigures(legs: seq<Leg>)
    requires legs != []
    ensures var row := Finish(SumOf(legs));
            && row.qty == RoundHalfEven(Volume(legs, false))
            && row.price == (if Volume(legs, true) == 0.0 then None
                             else Some(RoundHalfEven(Notional(legs) / Volume(legs, true) * 10000.0) as real / 10000.0))
  {
    SumsMean(legs);
  }

  /** The rest of a row: its first leg's order and instrument, its legs' transactions, and
      their earliest day. */
  lemma RowMeans(legs: seq<Leg>)
    requires legs != [] && legs[0].action.Some?
    ensures var row, first := Finish(SumOf(legs)), legs[0];
            && row.orderId == first.orderId && row.ticker == first.underlying && Some(row.action) == first.action
            && row.strike == (if first.option then first.strike else None) && row.strikeText == first.strikeText
            && row.expiration == (if first.option && first.expiry != Some("") then first.expiry else None)
            && |row.transactionIds| == |legs|
            && (forall j :: 0 <= j < |legs| ==> row.transactionIds[j] == legs[j].transactionId)
            && row.date.Some?
            && (forall l :: l in legs ==> row.date.value <= l.day) && exists l :: l in legs && l.day == row.date.value
  {
    SumMeans(legs);
  }

  /** Where the first of some elements is, and nothing before it is one. */
  lemma FirstPicked<T>(at: seq<int>, s: seq<T>, test: T -> bool, c: int)
    requires at != [] && Picks(at, s, test) && 0 <= c < |s| && test(s[c])
    ensures test(s[at[0]]) && at[0] <= c
  {
    assert at[0] in at && c in at;
  }

  /** Rows come out in the order of their first legs. */
  lemma RowsInOrder(legs: seq<Leg>, since: int, until: int, i: nat, j: nat) returns (one: seq<int>, other: seq<int>)
    requires i < j < |Rows(legs, since, until)|
    ensures one != [] && other != [] && 0 <= one[0] < other[0] < |legs|
    ensures Picks(one, legs, RowOf(legs[one[0]], since, until))
    ensures Picks(other, legs, RowOf(legs[other[0]], since, until))
    ensures Rows(legs, since, until)[i] == Finish(SumOf(At(legs, one)))
    ensures Rows(legs, since, until)[j] == Finish(SumOf(At(legs, other)))
  {
    var tag := TagOf(since, until);
    var ks := Heads(legs, tag);
    one := LegsOfHead(legs, since, until, i);
    other := LegsOfHead(legs, since, until, j);
    TaggedAreLike(legs, since, until, ks[i], one);
    TaggedAreLike(legs, since, until, ks[j], other);
    var a, b := HeadsInOrder(legs, tag, i, j);
    FirstPicked(one, legs, Tagged(tag, ks[i]), a);
    FirstPicked(other, legs, Tagged(tag, ks[j]), b);
  }

  /** And every audited leg is in one. */
  lemma LegHasItsRow(legs: seq<Leg>, since: int, until: int, n: nat) returns (i: nat, at: seq<int>)
    requires n < |legs| && InAudit(legs[n], since, until)
    ensures i < |Rows(legs, since, until)| && n in at && Picks(at, legs, RowOf(legs[n], since, until))
    ensures Rows(legs, since, until)[i] == Finish(SumOf(At(legs, at)))
  {
    var tag := TagOf(since, until);
    var k := legs[n].Key();
    var mine := SiftPicks(legs, tag, k);
    assert n in mine by { assert Tagged(tag, k)(legs[n]); }
    HeadsHave(legs, tag, k);
    i :| 0 <= i < |Heads(legs, tag)| && Heads(legs, tag)[i] == k;
    at := LegsOfHead(legs, since, until, i);
    forall j | 0 <= j < |legs| ensures Tagged(tag, k)(legs[j]) == RowOf(legs[n], since, until)(legs[j]) {
      KeysDecide(legs[j], legs[n], since, until);
    }
    PicksAlike(at, legs, Tagged(tag, k), RowOf(legs[n], since, until));
  }

  // ---- No leg is lost or counted twice -----------------------------------------

  function Audited(legs: seq<Leg>, tag: Leg -> Option<RowKey>): seq<Leg> {
    if legs == [] then []
    else
      var l := legs[|legs| - 1];
      Audited(legs[..|legs| - 1], tag) + (if tag(l).Some? then [l] else [])
  }

  function QtyOver(ks: seq<RowKey>, legs: seq<Leg>, tag: Leg -> Option<RowKey>): real {
    if ks == [] then 0.0 else QtyOver(ks[..|ks| - 1], legs, tag) + TotalQty(Sift(legs, tag, ks[|ks| - 1]))
  }

  lemma TotalQtySnoc(legs: seq<Leg>, l: Leg)
    ensures TotalQty(legs + [l]) == TotalQty(legs) + l.Qty()
  {
    assert (legs + [l])[..|legs|] == legs;
  }

  /** Adding a leg changes the sum of exactly the row it belongs to. */
  lemma {:induction false} QtyOverStep(ks: seq<RowKey>, legs: seq<Leg>, l: Leg, tag: Leg -> Option<RowKey>)
    requires forall i, j :: 0 <= i < j < |ks| ==> ks[i] != ks[j]
    ensures QtyOver(ks, legs + [l], tag)
            == QtyOver(ks, legs, tag) + (if tag(l).Some? && tag(l).value in ks then l.Qty() else 0.0)
  {
    if ks != [] {
      var front, k := ks[..|ks| - 1], ks[|ks| - 1];
      FrontLast(ks);
      QtyOverStep(front, legs, l, tag);
      SiftSnoc(legs, l, tag, k);
      TotalQtySnoc(Sift(legs, tag, k), l);
    }
  }

  lemma HeadsOverStep(legs: seq<Leg>, l: Leg, tag: Leg -> Option<RowKey>)
    ensures QtyOver(Heads(legs + [l], tag), legs + [l], tag)
            == QtyOver(Heads(legs, tag), legs, tag) + (if tag(l).Some? then l.Qty() else 0.0)
  {
    var ks, ks' := Heads(legs, tag), Heads(legs + [l], tag);
    HeadsSnoc(legs, l, tag);
    HeadsAreDistinct(legs + [l], tag);
    QtyOverStep(ks', legs, l, tag);
    if ks' != ks {
      assert ks'[..|ks'| - 1] == ks;
      HeadsHave(legs, tag, tag(l).value);
    }
  }

  lemma AuditedSnoc(legs: seq<Leg>, l: Leg, tag: Leg -> Option<RowKey>)
    ensures TotalQty(Audited(legs + [l], tag))
            == TotalQty(Audited(legs, tag)) + (if tag(l).Some? then l.Qty() else 0.0)
  {
    assert (legs + [l])[..|legs|] == legs;
    TotalQtySnoc(Audited(legs, tag), l);
    assert Audited(legs, tag) + [] == Audited(legs, tag);
  }

  /** Before they are rounded, the rows together hold exactly the quantity of the audited legs. */
  lemma {:induction false} RowsConserveQuantity(legs: seq<Leg>, tag: Leg -> Option<RowKey>)
    ensures QtyOver(Heads(legs, tag), legs, tag) == TotalQty(Audited(legs, tag))
    decreases |legs|
  {
    if legs != [] {
      var before, l := legs[..|legs| - 1], legs[|legs| - 1];
      FrontLast(legs);
      RowsConserveQuantity(before, tag);
      HeadsOverStep(before, l, tag);
      AuditedSnoc(before, l, tag);
    }
  }

  // ---- Rounding the quantities -------------------------------------------------

  /** The quantities of the finished rows. */
  function FinishedQty(rows: seq<BrokerFill>): int {
    if rows == [] then 0 else FinishedQty(rows[..|rows| - 1]) + rows[|rows| - 1].qty
  }

  predicate WholeLegs(legs: seq<Leg>) {
    forall i :: 0 <= i < |legs| ==> legs[i].Qty() == legs[i].Qty().Floor as real
  }

  lemma {:induction false} WholeTotal(legs: seq<Leg>)
    requires WholeLegs(legs)
    ensures TotalQty(legs) == TotalQty(legs).Floor as real
  {
    if legs != [] {
      var front := legs[..|legs| - 1];
      WholeTotal(front);
      assert TotalQty(legs) == (TotalQty(front).Floor + legs[|legs| - 1].Qty().Floor) as real;
    }
  }

  lemma WholeOf(legs: seq<Leg>, tag: Leg -> Option<RowKey>, k: RowKey)
    requires WholeLegs(legs)
    ensures WholeLegs(Sift(legs, tag, k))
  {
    var at := SiftPicks(legs, tag, k);
  }

  /** A finished row is within half of its legs' total, and equal to it when they are whole. */
  lemma FinishedRow(legs: seq<Leg>)
    requires legs != []
    ensures var q := Finish(SumOf(legs)).qty as real;
            q - 0.5 <= TotalQty(legs) <= q + 0.5 && (WholeLegs(legs) ==> q == TotalQty(legs))
  {
    SumMeans(legs);
    if WholeLegs(legs) {
      WholeTotal(legs);
      RoundWhole(TotalQty(legs).Floor);
    }
  }

  /** n numbers that sum to `total` were each rounded, and sum to q now. */
  predicate Near(q: int, total: real, n: nat) {
    q as real - 0.5 * n as real <= total <= q as real + 0.5 * n as real
  }

  lemma NearSnoc(q: int, total: real, n: nat, r: int, x: real)
    requires Near(q, total, n) && Near(r, x, 1)
    ensures Near(q + r, total + x, n + 1)
  {
  }

  lemma FinishedQtyAdds(rows: seq<BrokerFill>, row: BrokerFill)
    ensures FinishedQty(rows + [row]) == FinishedQty(rows) + row.qty
  {
    assert (rows + [row])[..|rows|] == rows;
  }

  lemma RowsForSnoc(front: seq<RowKey>, k: RowKey, legs: seq<Leg>, tag: Leg -> Option<RowKey>)
    requires Keyed(front + [k], legs, tag)
    ensures Sift(legs, tag, k) != [] && Keyed(front, legs, tag)
    ensures RowsFor(front + [k], legs, tag) == RowsFor(front, legs, tag) + [Finish(SumOf(Sift(legs, tag, k)))]
  {
    assert (front + [k])[|front|] == k;
    assert forall i :: 0 <= i < |front| ==> (front + [k])[i] == front[i];
  }

  lemma {:induction false} FinishedOver(ks: seq<RowKey>, legs: seq<Leg>, tag: Leg -> Option<RowKey>)
    requires Keyed(ks, legs, tag)
    ensures var q := FinishedQty(RowsFor(ks, legs, tag));
            Near(q, QtyOver(ks, legs, tag), |ks|) && (WholeLegs(legs) ==> q as real == QtyOver(ks, legs, tag))
  {
    if ks != [] {
      var front, k := ks[..|ks| - 1], ks[|ks| - 1];
      var mine := Sift(legs, tag, k);
      FrontLast(ks);
      RowsForSnoc(front, k, legs, tag);
      FinishedOver(front, legs, tag);
      FinishedQtyAdds(RowsFor(front, legs, tag), Finish(SumOf(mine)));
      FinishedRow(mine);
      if WholeLegs(legs) { WholeOf(legs, tag, k); }
      NearSnoc(FinishedQty(RowsFor(front, legs, tag)), QtyOver(front, legs, tag), |front|,
               Finish(SumOf(mine)).qty, TotalQty(mine));
    }
  }

  /** The rows that broker_fills returns hold the quantity of the audited legs: exactly, when
      every leg is for a whole number, and within half a share or contract a row otherwise. */
  lemma FinishedRowsConserveQuantity(legs: seq<Leg>, since: int, until: int)
    ensures var rows, total := Rows(legs, since, until), TotalQty(Audited(legs, TagOf(since, until)));
            var q := FinishedQty(rows) as real;
            && q - 0.5 * |rows| as real <= total <= q + 0.5 * |rows| as real
            && (WholeLegs(legs) ==> q == total)
  {
    var tag := TagOf(since, until);
    HeadsAreKeyed(legs, tag);
    RowsConserveQuantity(legs, tag);
    FinishedOver(Heads(legs, tag), legs, tag);
  }
}
