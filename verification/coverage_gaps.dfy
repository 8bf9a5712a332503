/** backend/coverage_gaps.py: the walk over one ticker's executions that reports the
    stretches in which owned lots had no call against them. */
module CoverageGaps {
  import opened Common
  import opened Runs
  import opened Sorting

  const SHARES_PER_LOT := 100

  datatype Action = BuyShares | SellShares | CloseSharesAssigned | SellShort | CloseShort | Other(name: string) {
    predicate AddsShares() { BuyShares? }
    predicate ReducesShares() { SellShares? || CloseSharesAssigned? }
    predicate OpensShort() { SellShort? }
    predicate ClosesShort() { CloseShort? || CloseSharesAssigned? }
    predicate Relevant() { AddsShares() || ReducesShares() || OpensShort() || ClosesShort() }
  }

  /** Times are microseconds and prices are ten-thousandths of a dollar. `timestamped`
      says that the booked time carries a time of day and not only a date. */
  datatype Exec = Exec(
    id: string, action: Action, time: Option<int>, timestamped: bool, qty: Option<int>, contracts: Option<int>,
    pricePerShare: Option<int>, priceAtFill: Option<int>, stockPrice: Option<int>,
    coveredGroup: Option<string>, rollGroup: Option<string>, rollId: Option<string>, expiredWorthless: bool)
  {
    function ShareQty(): int {
      if qty.None? && action.CloseSharesAssigned? then contracts.GetOr(0) * SHARES_PER_LOT else qty.GetOr(0)
    }

    /** A share fill's own price, else the price captured at the fill, else the booked one. */
    function Px(): Option<int> {
      if (action.BuyShares? || action.SellShares?) && pricePerShare.Some? then pricePerShare
      else if priceAtFill.Some? then priceAtFill
      else stockPrice
    }
  }

  predicate SameGroup(a: Option<string>, b: Option<string>) {
    Truthy(a) && a == b
  }

  predicate OneTicket(a: Exec, b: Exec) {
    || SameGroup(a.coveredGroup, b.coveredGroup)
    || SameGroup(a.rollGroup, b.rollGroup)
    || SameGroup(a.rollId, b.rollId)
    || (a.timestamped && b.timestamped && a.time.Some? && a.time == b.time)
  }

  // ---- Holdings after each row -------------------------------------------------

  datatype Holding = Holding(shares: int, shorts: int) {
    /** Only whole lots can be covered; Python's // floors. */
    function Uncovered(): (u: nat)
      ensures u % SHARES_PER_LOT == 0
    {
      var lots := shares / SHARES_PER_LOT - shorts;
      if lots > 0 then lots * SHARES_PER_LOT else 0
    }

    function Apply(e: Exec): Holding {
      var bought := if e.action.AddsShares() then shares + e.ShareQty() else shares;
      var held := if e.action.ReducesShares() then AtLeastZero(bought - e.ShareQty()) else bought;
      var written := if e.action.OpensShort() then shorts + e.contracts.GetOr(0) else shorts;
      var short := if e.action.ClosesShort() then AtLeastZero(written - e.contracts.GetOr(0)) else written;
      Holding(held, short)
    }
  }

  function AtLeastZero(n: int): int {
    if n < 0 then 0 else n
  }

  function After(rows: seq<Exec>, k: nat): Holding
    requires k <= |rows|
  {
    if k == 0 then Holding(0, 0) else After(rows, k - 1).Apply(rows[k - 1])
  }

  // ---- What the holdings are, as a ledger --------------------------------------

  /** Shares that come in or go out; an assignment without a quantity is of whole lots. */
  function ShareMove(e: Exec): int {
    match e.action
    case BuyShares => e.qty.GetOr(0)
    case SellShares => -e.qty.GetOr(0)
    case CloseSharesAssigned => if e.qty.Some? then -e.qty.value else -100 * e.contracts.GetOr(0)
    case _ => 0
  }

  /** Calls that are opened or closed; an assignment closes its calls. */
  function CallMove(e: Exec): int {
    match e.action
    case SellShort => e.contracts.GetOr(0)
    case CloseShort => -e.contracts.GetOr(0)
    case CloseSharesAssigned => -e.contracts.GetOr(0)
    case _ => 0
  }

  /** What k rows come to when nothing is floored. */
  function Net(rows: seq<Exec>, k: nat, move: Exec -> int): int
    requires k <= |rows|
  {
    if k == 0 then 0 else Net(rows, k - 1, move) + move(rows[k - 1])
  }

  /** The lowest that ledger has been. */
  function Lowest(rows: seq<Exec>, k: nat, move: Exec -> int): int
    requires k <= |rows|
  {
    if k == 0 then 0
    else
      var before, now := Lowest(rows, k - 1, move), Net(rows, k, move);
      if now < before then now else before
  }

  lemma {:induction false} LowestIsLeast(rows: seq<Exec>, k: nat, move: Exec -> int) returns (at: nat)
    requires k <= |rows|
    ensures forall j :: 0 <= j <= k ==> Lowest(rows, k, move) <= Net(rows, j, move)
    ensures at <= k && Lowest(rows, k, move) == Net(rows, at, move)
  {
    if k == 0 {
      at := 0;
    } else {
      at := LowestIsLeast(rows, k - 1, move);
      if Net(rows, k, move) < Lowest(rows, k - 1, move) { at := k; }
    }
  }

  /** Quantities and contract counts are not negative. */
  ghost predicate Counted(rows: seq<Exec>) {
    forall i :: 0 <= i < |rows| ==> rows[i].qty.GetOr(0) >= 0 && rows[i].contracts.GetOr(0) >= 0
  }

  /** The walk holds what the ledger nets to, raised by the most it was ever oversold; so
      shares and calls are never negative, and with nothing oversold they are the ledger. */
  lemma {:induction false} HoldingIsReflected(rows: seq<Exec>, k: nat)
    requires k <= |rows| && Counted(rows)
    ensures After(rows, k).shares == Net(rows, k, ShareMove) - Lowest(rows, k, ShareMove) >= 0
    ensures After(rows, k).shorts == Net(rows, k, CallMove) - Lowest(rows, k, CallMove) >= 0
  {
    if k > 0 { HoldingIsReflected(rows, k - 1); }
  }

  /** The uncovered shares once k rows have traded, for every k. */
  function Profile(rows: seq<Exec>): (u: seq<nat>)
    ensures |u| == |rows| + 1 && u[0] == 0
  {
    seq(|rows| + 1, k requires 0 <= k <= |rows| => After(rows, k).Uncovered())
  }

  lemma ProfileAt(rows: seq<Exec>, k: nat)
    requires k <= |rows|
    ensures Profile(rows)[k] == After(rows, k).Uncovered()
  {
  }

  // ---- Windows -----------------------------------------------------------------

  datatype Kind = Entry | Exit | Expiry | Roll | OtherKind

  function KindOf(start: Exec, end: Option<Exec>): Kind {
    if start.action.AddsShares() then Entry
    else if end.Some? && end.value.action.ReducesShares() then Exit
    else if start.action.CloseShort? && start.expiredWorthless then Expiry
    else if start.action.CloseShort? && (end.None? || end.value.action.OpensShort()) then Roll
    else OtherKind
  }

  /** `gapCents` is exact: uncovered shares come in hundreds and prices in ten-thousandths. */
  datatype Window = Window(
    kind: Kind, open: bool, uncovered: nat, start: Exec, end: Option<Exec>, startTime: Option<int>,
    endTime: Option<int>,
    seconds: Option<int>, startPrice: Option<int>, endPrice: Option<int>, move: Option<int>, gapCents: Option<int>)

  /** Python's round: a half goes to the even neighbour. */
  function RoundSeconds(micros: int): (s: int)
    ensures s * 1_000_000 - 500_000 <= micros <= s * 1_000_000 + 500_000
  {
    var q, r := micros / 1_000_000, micros % 1_000_000;
    if r < 500_000 || (r == 500_000 && q % 2 == 0) then q else q + 1
  }

  function Minus(a: Option<int>, b: Option<int>): Option<int> {
    if a.Some? && b.Some? then Some(a.value - b.value) else None
  }

  function CloseWindow(start: Exec, end: Option<Exec>, uncovered: nat, now: int, live: Option<int>): Window {
    var t1 := if end.None? then Some(now) else end.value.time;
    var p1 := if end.None? then live else end.value.Px();
    var elapsed := Minus(t1, start.time);
    var move := Minus(p1, start.Px());
    Window(KindOf(start, end), end.None?, uncovered, start, end, start.time, t1,
           if elapsed.Some? then Some(RoundSeconds(elapsed.value)) else None,
           start.Px(), p1, move,
           if move.Some? then Some(uncovered / SHARES_PER_LOT * move.value) else None)
  }

  predicate Shows(w: Window) {
    w.seconds.None? || w.seconds.value > 0 || w.move.GetOr(0) != 0
  }

  /** A run that ended is reported unless one ticket opened and closed it, or it took no
      time and the price did not move. A run still open is always reported. */
  predicate Reported(start: Exec, end: Option<Exec>, now: int, live: Option<int>) {
    end.None? || (!OneTicket(start, end.value) && Shows(CloseWindow(start, end, 0, now, live)))
  }

  // ---- The input to the walk ---------------------------------------------------

  function Earlier(a: Exec, b: Exec): bool {
    a.time.GetOr(0) <= b.time.GetOr(0)
  }

  function ByTime(): (Exec, Exec) -> bool {
    (a: Exec, b: Exec) => Earlier(a, b)
  }

  function Usable(execs: seq<Exec>): seq<Exec> {
    if execs == [] then []
    else (if execs[0].action.Relevant() && execs[0].time.Some? then [execs[0]] else []) + Usable(execs[1..])
  }

  function RowsOf(execs: seq<Exec>): seq<Exec> {
    Sort(Usable(execs), ByTime())
  }

  // ---- Which runs are reported -------------------------------------------------

  function EndRow(rows: seq<Exec>, j: nat): Option<Exec>
    requires j <= |rows|
  {
    if j < |rows| then Some(rows[j]) else None
  }

  function WindowOf(rows: seq<Exec>, u: seq<nat>, sp: Span, now: int, live: Option<int>): Window
    requires sp.0 < sp.1 <= |rows| && |u| == |rows| + 1
  {
    CloseWindow(rows[sp.0], EndRow(rows, sp.1), u[sp.0 + 1], now, live)
  }

  predicate Kept(rows: seq<Exec>, i: nat, j: nat, now: int, live: Option<int>) {
    i < j <= |rows| && Reported(rows[i], EndRow(rows, j), now, live)
  }

  function Keep(rows: seq<Exec>, now: int, live: Option<int>): (nat, nat) -> bool {
    (i: nat, j: nat) => Kept(rows, i, j, now, live)
  }

  predicate InRange(rows: seq<Exec>, sps: seq<Span>) {
    forall p :: 0 <= p < |sps| ==> sps[p].0 < sps[p].1 <= |rows|
  }

  /** The reported runs among those that open before row i. */
  function SpansTo(rows: seq<Exec>, u: seq<nat>, i: nat, now: int, live: Option<int>): (sps: seq<Span>)
    requires i <= |rows| && |u| == |rows| + 1
    ensures InRange(rows, sps)
  {
    SpansApart(u, i, Keep(rows, now, live));
    Spans(u, i, Keep(rows, now, live))
  }

  function Report(rows: seq<Exec>, u: seq<nat>, sps: seq<Span>, now: int, live: Option<int>): seq<Window>
    requires InRange(rows, sps) && |u| == |rows| + 1
  {
    seq(|sps|, k requires 0 <= k < |sps| => WindowOf(rows, u, sps[k], now, live))
  }

  /** The windows of the runs that open before row i. */
  function WindowsTo(rows: seq<Exec>, u: seq<nat>, i: nat, now: int, live: Option<int>): seq<Window>
    requires i <= |rows| && |u| == |rows| + 1
  {
    Report(rows, u, SpansTo(rows, u, i, now, live), now, live)
  }

  function Windows(rows: seq<Exec>, now: int, live: Option<int>): seq<Window> {
    WindowsTo(rows, Profile(rows), |rows|, now, live)
  }

  // ---- The walk ----------------------------------------------------------------

  /** What the walk holds after k rows. */
  ghost predicate Walked(rows: seq<Exec>, u: seq<nat>, k: nat, start: Option<Exec>,
                         out: seq<Window>, now: int, live: Option<int>)
    requires k <= |rows| && |u| == |rows| + 1
  {
    && start == (if Running(u, k).Some? then Some(rows[Running(u, k).value]) else None)
    && out == WindowsTo(rows, u, Settled(u, k), now, live)
  }

  lemma WalkedFromTheStart(rows: seq<Exec>, u: seq<nat>, now: int, live: Option<int>)
    requires |u| == |rows| + 1
    ensures Walked(rows, u, 0, None, [], now, live)
  {
  }

  /** What is reported when row `end`, or the end of the rows, ends the run in progress. */
  function Ending(start: Option<Exec>, end: Option<Exec>, uncovered: nat, now: int, live: Option<int>): seq<Window> {
    if start.Some? && Reported(start.value, end, now, live)
    then [CloseWindow(start.value, end, uncovered, now, live)] else []
  }

  lemma ReportAppend(rows: seq<Exec>, u: seq<nat>, sps: seq<Span>, sp: Span, now: int, live: Option<int>)
    requires InRange(rows, sps) && sp.0 < sp.1 <= |rows| && |u| == |rows| + 1
    ensures InRange(rows, sps + [sp])
    ensures Report(rows, u, sps + [sp], now, live)
            == Report(rows, u, sps, now, live) + [WindowOf(rows, u, sp, now, live)]
  {
  }

  lemma WalkedToChange(
      rows: seq<Exec>, u: seq<nat>, k: nat, start: Option<Exec>, out: seq<Window>, now: int, live: Option<int>)
    requires k <= |rows| && |u| == |rows| + 1 && Walked(rows, u, k, start, out, now, live)
    requires k < |rows| ==> u[k + 1] != u[k]
    ensures out + Ending(start, EndRow(rows, k), u[k], now, live) == WindowsTo(rows, u, k, now, live)
  {
    if start.Some? {
      var s := Running(u, k).value;
      RunCloses(u, k, Keep(rows, now, live));
      var before := SpansTo(rows, u, s, now, live);
      if Kept(rows, s, k, now, live) {
        ReportAppend(rows, u, before, (s, k), now, live);
      } else {
        assert SpansTo(rows, u, k, now, live) == before;
      }
    }
  }

  lemma SettledStep(rows: seq<Exec>, u: seq<nat>, k: nat, now: int, live: Option<int>)
    requires k < |rows| && |u| == |rows| + 1 && u[0] == 0
    ensures SpansTo(rows, u, Settled(u, k + 1), now, live)
            == if u[k + 1] == u[k] then SpansTo(rows, u, Settled(u, k), now, live) else SpansTo(rows, u, k, now, live)
  {
    if Running(u, k + 1).None? {
      QuietSpans(u, k, k + 1, Keep(rows, now, live));
    }
  }

  /** One turn of the walk, from (was, before) to (start, out). */
  lemma WalkedStep(rows: seq<Exec>, u: seq<nat>, k: nat, was: Option<Exec>, before: seq<Window>,
                   start: Option<Exec>, out: seq<Window>, now: int, live: Option<int>)
    requires k < |rows| && |u| == |rows| + 1 && u[0] == 0 && Walked(rows, u, k, was, before, now, live)
    requires u[k + 1] == u[k] ==> start == was && out == before
    requires u[k + 1] != u[k] ==> start == (if u[k + 1] > 0 then Some(rows[k]) else None)
                                  && out == before + Ending(was, Some(rows[k]), u[k], now, live)
    ensures Walked(rows, u, k + 1, start, out, now, live)
  {
    SettledStep(rows, u, k, now, live);
    if u[k + 1] != u[k] {
      WalkedToChange(rows, u, k, was, before, now, live);
    }
  }

  lemma StartMeansUncovered(
      rows: seq<Exec>, u: seq<nat>, k: nat, start: Option<Exec>, out: seq<Window>, now: int, live: Option<int>)
    requires k <= |rows| && |u| == |rows| + 1 && u[0] == 0 && Walked(rows, u, k, start, out, now, live)
    ensures start.Some? <==> u[k] != 0
  {
  }

  /** The uncovered count does not decide whether a window shows. */
  lemma ShowsAnyway(start: Exec, end: Option<Exec>, uncovered: nat, now: int, live: Option<int>)
    ensures Shows(CloseWindow(start, end, uncovered, now, live)) == Shows(CloseWindow(start, end, 0, now, live))
  {
  }

  method Trade(shares0: int, shorts0: int, e: Exec) returns (shares: int, shorts: int)
    ensures Holding(shares, shorts) == Holding(shares0, shorts0).Apply(e)
  {
    shares, shorts := shares0, shorts0;
    if e.action.AddsShares() { shares := shares + e.ShareQty(); }
    if e.action.ReducesShares() { shares := AtLeastZero(shares - e.ShareQty()); }
    if e.action.OpensShort() { shorts := shorts + e.contracts.GetOr(0); }
    if e.action.ClosesShort() { shorts := AtLeastZero(shorts - e.contracts.GetOr(0)); }
  }

  method CloseRun(start: Option<Exec>, e: Exec, uncovered: nat, now: int, live: Option<int>) returns (ws: seq<Window>)
    requires start.Some? <==> uncovered != 0
    ensures ws == Ending(start, Some(e), uncovered, now, live)
  {
    ws := [];
    if uncovered != 0 && start.Some? && !OneTicket(start.value, e) {
      var w := CloseWindow(start.value, Some(e), uncovered, now, live);
      ShowsAnyway(start.value, Some(e), uncovered, now, live);
      if Shows(w) {
        ws := [w];
      }
    }
  }

  /** One turn: the change of level at row k, if there is one. */
  method Turn(rows: seq<Exec>, ghost u: seq<nat>, k: nat, was: Option<Exec>, uncovered: nat, nowUncovered: nat,
              before: seq<Window>, now: int, live: Option<int>) returns (start: Option<Exec>, out: seq<Window>)
    requires k < |rows| && |u| == |rows| + 1 && u[0] == 0 && Walked(rows, u, k, was, before, now, live)
    requires uncovered == u[k] && nowUncovered == u[k + 1]
    ensures Walked(rows, u, k + 1, start, out, now, live)
  {
    StartMeansUncovered(rows, u, k, was, before, now, live);
    start, out := was, before;
    if nowUncovered != uncovered {
      var closed := CloseRun(was, rows[k], uncovered, now, live);
      out := before + closed;
      start := if nowUncovered != 0 then Some(rows[k]) else None;
    }
    WalkedStep(rows, u, k, was, before, start, out, now, live);
  }

  method Walk(rows: seq<Exec>, now: int, live: Option<int>)
    returns (start: Option<Exec>, uncovered: nat, out: seq<Window>)
    ensures Walked(rows, Profile(rows), |rows|, start, out, now, live) && uncovered == Profile(rows)[|rows|]
  {
    ghost var u := Profile(rows);
    var shares, shorts := 0, 0;
    uncovered, start, out := 0, None, [];
    WalkedFromTheStart(rows, u, now, live);
    for k := 0 to |rows|
      invariant Holding(shares, shorts) == After(rows, k) && uncovered == u[k]
      invariant Walked(rows, u, k, start, out, now, live)
    {
      ProfileAt(rows, k + 1);
      shares, shorts := Trade(shares, shorts, rows[k]);
      var nowUncovered := Holding(shares, shorts).Uncovered();
      start, out := Turn(rows, u, k, start, uncovered, nowUncovered, out, now, live);
      uncovered := nowUncovered;
    }
  }

  method WindowsFor(execs: seq<Exec>, now: int, live: Option<int>) returns (out: seq<Window>)
    ensures out == Windows(RowsOf(execs), now, live)
  {
    var rows := RowsOf(execs);
    var start, uncovered;
    start, uncovered, out := Walk(rows, now, live);
    WalkedToChange(rows, Profile(rows), |rows|, start, out, now, live);
    if uncovered != 0 && start.Some? {
      out := out + [CloseWindow(start.value, None, uncovered, now, live)];
    }
  }

  // ---- The windows are the maximal runs, in order and apart --------------------

  /** The windows are the kept maximal runs, each once, oldest first, none overlapping. */
  lemma WindowsAreTheMaximalRuns(rows: seq<Exec>, now: int, live: Option<int>)
    ensures var u := Profile(rows);
            var sps := SpansTo(rows, u, |rows|, now, live);
            && (forall i: nat, j: nat :: (i, j) in sps <==> MaximalRun(u, i, j) && Kept(rows, i, j, now, live))
            && Ordered(sps, |rows|, |u|)
            && Windows(rows, now, live) == Report(rows, u, sps, now, live)
  {
    var u := Profile(rows);
    forall i: nat, j: nat
      ensures (i, j) in SpansTo(rows, u, |rows|, now, live) <==> MaximalRun(u, i, j) && Kept(rows, i, j, now, live)
    {
      SpansExact(u, |rows|, i, j, Keep(rows, now, live));
    }
    SpansApart(u, |rows|, Keep(rows, now, live));
  }

  /** The rows walked are the usable executions, oldest first, ties in log order. */
  lemma RowsAreStablySorted(execs: seq<Exec>, p: Exec)
    ensures multiset(RowsOf(execs)) == multiset(Usable(execs))
    ensures forall i, j :: 0 <= i < j < |RowsOf(execs)| ==> Earlier(RowsOf(execs)[i], RowsOf(execs)[j])
    ensures Ties(RowsOf(execs), p, ByTime()) == Ties(Usable(execs), p, ByTime())
  {
    SortBag(Usable(execs), ByTime());
    SortSorted(Usable(execs), ByTime());
    SortStable(Usable(execs), p, ByTime());
  }

  // ---- Profit and loss ---------------------------------------------------------

  function GapSum(ws: seq<Window>): int {
    if ws == [] then 0 else GapSum(ws[..|ws| - 1]) + ws[|ws| - 1].gapCents.GetOr(0)
  }

  ghost predicate AllPriced(rows: seq<Exec>) {
    forall k :: 0 <= k < |rows| ==> rows[k].Px().Some?
  }

  /** The price at each row, and the live price at the end. */
  function Prices(rows: seq<Exec>, live: int): (p: seq<int>)
    ensures |p| == |rows| + 1
  {
    seq(|rows| + 1, k requires 0 <= k <= |rows| => if k < |rows| then rows[k].Px().GetOr(0) else live)
  }

  /** The gains of the runs that one ticket both opened and closed. */
  function TicketSum(rows: seq<Exec>, u: seq<nat>, p: seq<int>, i: nat): int
    requires i <= |rows| && |u| == |p| == |rows| + 1
  {
    if i == 0 then 0
    else
      var j := NextChange(u, i);
      TicketSum(rows, u, p, i - 1)
      + (if Opens(u, i - 1) && j < |rows| && OneTicket(rows[i - 1], rows[j]) then RunGain(u, p, i - 1, j) else 0)
  }

  /** Every level is a whole number of lots. */
  ghost predicate WholeLots(u: seq<nat>) {
    forall k :: 0 <= k < |u| ==> 100 * (u[k] / SHARES_PER_LOT) == u[k]
  }

  lemma ProfileIsWholeLots(rows: seq<Exec>)
    ensures WholeLots(Profile(rows))
  {
    forall k | 0 <= k <= |rows| ensures 100 * (Profile(rows)[k] / SHARES_PER_LOT) == Profile(rows)[k] {
      ProfileAt(rows, k);
      LotsDivide(After(rows, k).Uncovered());
    }
  }

  lemma LotsDivide(n: nat)
    requires n % SHARES_PER_LOT == 0
    ensures 100 * (n / SHARES_PER_LOT) == n
  {
  }

  lemma Regroup(lots: int, level: int, move: int)
    requires 100 * lots == level
    ensures 100 * (lots * move) == level * move
  {
    assert 100 * (lots * move) == (100 * lots) * move;
  }

  lemma WindowGain(rows: seq<Exec>, u: seq<nat>, i: nat, j: nat, now: int, live: int)
    requires i < j <= |rows| && |u| == |rows| + 1 && AllPriced(rows) && WholeLots(u)
    ensures var w := WindowOf(rows, u, (i, j), now, Some(live));
            && 100 * w.gapCents.GetOr(0) == RunGain(u, Prices(rows, live), i, j)
            && w.move == Some(Prices(rows, live)[j] - Prices(rows, live)[i])
  {
    var p := Prices(rows, live);
    assert rows[i].Px() == Some(p[i]);
    Regroup(u[i + 1] / SHARES_PER_LOT, u[i + 1], p[j] - p[i]);
  }

  lemma GapSumSnoc(ws: seq<Window>, w: Window)
    ensures GapSum(ws + [w]) == GapSum(ws) + w.gapCents.GetOr(0)
  {
    assert (ws + [w])[..|ws|] == ws;
  }

  /** A run that ended unreported either was one ticket or gained nothing. */
  lemma DroppedGain(rows: seq<Exec>, u: seq<nat>, i: nat, j: nat, now: int, live: int)
    requires i < j <= |rows| && |u| == |rows| + 1 && AllPriced(rows) && WholeLots(u)
    requires !Kept(rows, i, j, now, Some(live)) && !OneTicket(rows[i], EndRow(rows, j).GetOr(rows[i]))
    ensures RunGain(u, Prices(rows, live), i, j) == 0
  {
    WindowGain(rows, u, i, j, now, live);
    ShowsAnyway(rows[i], EndRow(rows, j), u[i + 1], now, Some(live));
  }

  /** One more row: whatever run opens there is reported, or was one ticket, or gained nothing. */
  lemma GapsStep(rows: seq<Exec>, u: seq<nat>, now: int, live: int, i: nat)
    requires i < |rows| && |u| == |rows| + 1 && AllPriced(rows) && WholeLots(u)
    ensures var p := Prices(rows, live);
            100 * (GapSum(WindowsTo(rows, u, i + 1, now, Some(live))) - GapSum(WindowsTo(rows, u, i, now, Some(live))))
            + TicketSum(rows, u, p, i + 1) - TicketSum(rows, u, p, i) == RunSum(u, p, i + 1) - RunSum(u, p, i)
  {
    if Opens(u, i) {
      var j := NextChange(u, i + 1);
      var before := SpansTo(rows, u, i, now, Some(live));
      if Kept(rows, i, j, now, Some(live)) {
        WindowGain(rows, u, i, j, now, live);
        ReportAppend(rows, u, before, (i, j), now, Some(live));
        GapSumSnoc(WindowsTo(rows, u, i, now, Some(live)), WindowOf(rows, u, (i, j), now, Some(live)));
      } else if !OneTicket(rows[i], rows[j]) {
        DroppedGain(rows, u, i, j, now, live);
      }
    }
  }

  lemma {:induction false} GapsAreRuns(rows: seq<Exec>, u: seq<nat>, now: int, live: int, i: nat)
    requires i <= |rows| && |u| == |rows| + 1 && AllPriced(rows) && WholeLots(u)
    ensures 100 * GapSum(WindowsTo(rows, u, i, now, Some(live))) + TicketSum(rows, u, Prices(rows, live), i)
            == RunSum(u, Prices(rows, live), i)
  {
    if i > 0 {
      var k: nat := i - 1;
      GapsAreRuns(rows, u, now, live, k);
      GapsStep(rows, u, now, live, k);
      assert i == k + 1;
    }
  }

  /** With every row priced, the reported profit is the row-by-row profit on the shares
      then uncovered, less what one-ticket runs made. Windows that were dropped for
      taking no time cost nothing, because their price did not move. */
  lemma GapProfitIsRowProfit(rows: seq<Exec>, now: int, live: int)
    requires AllPriced(rows)
    ensures var u, p := Profile(rows), Prices(rows, live);
            100 * GapSum(Windows(rows, now, Some(live))) == RowSum(u, p, 0, |rows|) - TicketSum(rows, u, p, |rows|)
  {
    ProfileIsWholeLots(rows);
    GapsAreRuns(rows, Profile(rows), now, live, |rows|);
    AllRunsAreAllRows(Profile(rows), Prices(rows, live));
  }

  // ---- The report, in the fills' own terms -------------------------------------

  /** u is the shares of the whole lots that no call is left for. */
  ghost predicate LotsLeft(u: nat, shares: int, calls: int) {
    && u % 100 == 0
    && (u > 0 ==> u + 100 * calls <= shares < u + 100 * calls + 100)
    && (u == 0 ==> shares < 100 * (calls + 1))
  }

  /** The level after k rows: full lots only, less one for each open call, by the ledgers
      of shares and calls. */
  lemma LevelMeans(rows: seq<Exec>, k: nat)
    requires k <= |rows| && Counted(rows)
    ensures LotsLeft(Profile(rows)[k], Net(rows, k, ShareMove) - Lowest(rows, k, ShareMove),
                     Net(rows, k, CallMove) - Lowest(rows, k, CallMove))
  {
    HoldingIsReflected(rows, k);
    UncoveredMeans(After(rows, k));
  }

  lemma UncoveredMeans(h: Holding)
    ensures LotsLeft(h.Uncovered(), h.shares, h.shorts)
  {
  }

  /** The rows are the fills of the four kinds that have a time, as often as they occur. */
  lemma RowsMean(execs: seq<Exec>, e: Exec)
    ensures multiset(RowsOf(execs))[e] == if e.time.Some? && !e.action.Other? then multiset(execs)[e] else 0
    ensures forall i, j :: 0 <= i < j < |RowsOf(execs)| ==>
              RowsOf(execs)[i].time.Some? && RowsOf(execs)[j].time.Some?
              && RowsOf(execs)[i].time.value <= RowsOf(execs)[j].time.value
  {
    RowsAreStablySorted(execs, e);
    UsableMeans(execs, e);
    forall i | 0 <= i < |RowsOf(execs)| ensures RowsOf(execs)[i].time.Some? {
      UsableMeans(execs, RowsOf(execs)[i]);
      assert RowsOf(execs)[i] in multiset(RowsOf(execs));
    }
  }

  lemma {:induction false} UsableMeans(execs: seq<Exec>, e: Exec)
    ensures multiset(Usable(execs))[e] == if e.time.Some? && !e.action.Other? then multiset(execs)[e] else 0
  {
    if execs != [] {
      UsableMeans(execs[1..], e);
      assert execs == [execs[0]] + execs[1..];
    }
  }

  /** A share trade's own price, failing that the captured one, failing that the booked one. */
  ghost predicate PricedAt(e: Exec, p: Option<int>) {
    && (e.action in {BuyShares, SellShares} && e.pricePerShare.Some? ==> p == e.pricePerShare)
    && (e.action !in {BuyShares, SellShares} || e.pricePerShare.None? ==>
          && (e.priceAtFill.Some? ==> p == e.priceAtFill)
          && (e.priceAtFill.None? ==> p == e.stockPrice))
  }

  /** Why the run began and ended, in the order the documentation lists the kinds. */
  ghost predicate KindMeans(kind: Kind, start: Action, expired: bool, end: Option<Action>) {
    && (kind == Entry <==> start == BuyShares)
    && (kind == Exit <==> start != BuyShares && end in {Some(SellShares), Some(CloseSharesAssigned)})
    && (kind == Expiry <==> start == CloseShort && expired && end !in {Some(SellShares), Some(CloseSharesAssigned)})
    && (kind == Roll <==> start == CloseShort && !expired && end in {None, Some(SellShort)})
  }

  ghost predicate Nearest(seconds: int, micros: int) {
    micros - 500_000 <= 1_000_000 * seconds <= micros + 500_000
  }

  /** What a window says of the run from `start` to `end`, with u shares uncovered. */
  ghost predicate Tells(w: Window, start: Exec, end: Option<Exec>, u: nat, now: int, live: Option<int>) {
    && w.uncovered == u && w.start == start && w.end == end && (w.open <==> end.None?)
    && w.startTime == start.time && w.endTime == (if end.None? then Some(now) else end.value.time)
    && PricedAt(start, w.startPrice)
    && (end.None? ==> w.endPrice == live) && (end.Some? ==> PricedAt(end.value, w.endPrice))
    && (w.seconds.Some? <==> w.startTime.Some? && w.endTime.Some?)
    && (w.seconds.Some? && w.startTime.Some? && w.endTime.Some? ==>
          Nearest(w.seconds.value, w.endTime.value - w.startTime.value))
    && (w.startPrice.Some? && w.endPrice.Some? ==>
          w.move == Some(w.endPrice.value - w.startPrice.value)
          && w.gapCents.Some? && 100 * w.gapCents.value == u * (w.endPrice.value - w.startPrice.value))
    && (w.startPrice.None? || w.endPrice.None? ==> w.move.None? && w.gapCents.None?)
    && KindMeans(w.kind, start.action, start.expiredWorthless, if end.Some? then Some(end.value.action) else None)
  }

  lemma WindowTells(start: Exec, end: Option<Exec>, u: nat, now: int, live: Option<int>)
    requires u % 100 == 0
    ensures Tells(CloseWindow(start, end, u, now, live), start, end, u, now, live)
  {
    var w := CloseWindow(start, end, u, now, live);
    if w.move.Some? { Regroup(u / SHARES_PER_LOT, u, w.move.value); }
  }

  /** Every window of the report tells of a maximal run of its level. */
  lemma WindowsTell(rows: seq<Exec>, now: int, live: Option<int>, k: nat) returns (i: nat, j: nat)
    requires k < |Windows(rows, now, live)|
    ensures MaximalRun(Profile(rows), i, j) && j <= |rows|
    ensures Tells(Windows(rows, now, live)[k], rows[i], if j < |rows| then Some(rows[j]) else None,
                  Profile(rows)[i + 1], now, live)
  {
    var u := Profile(rows);
    var sps := SpansTo(rows, u, |rows|, now, live);
    i, j := sps[k].0, sps[k].1;
    WindowsAreTheMaximalRuns(rows, now, live);
    assert (i, j) in sps;
    ProfileAt(rows, i + 1);
    WindowTells(rows[i], EndRow(rows, j), u[i + 1], now, live);
  }

  /** Two fills of one ticket: a group or roll id in common, or the very same instant. */
  ghost predicate SameTicket(a: Exec, b: Exec) {
    || (a.coveredGroup == b.coveredGroup && a.coveredGroup !in {None, Some("")})
    || (a.rollGroup == b.rollGroup && a.rollGroup !in {None, Some("")})
    || (a.rollId == b.rollId && a.rollId !in {None, Some("")})
    || (a.time == b.time && a.time != None && a.timestamped && b.timestamped)
  }

  /** Less than half a second, and no known change of price. */
  ghost predicate NothingHappened(start: Exec, end: Exec) {
    && start.time.Some? && end.time.Some? && end.time.value - start.time.value <= 500_000
    && forall p, q :: PricedAt(start, Some(p)) && PricedAt(end, Some(q)) ==> p == q
  }

  /** A run is reported unless it ended in the ticket it began with, or nothing happened. */
  lemma ReportedMeans(rows: seq<Exec>, i: nat, j: nat, now: int, live: Option<int>)
    requires i < j <= |rows|
    ensures (i, j) in SpansTo(rows, Profile(rows), |rows|, now, live)
            <==> MaximalRun(Profile(rows), i, j)
                 && (j == |rows| || !(SameTicket(rows[i], rows[j]) || NothingHappened(rows[i], rows[j])))
  {
    WindowsAreTheMaximalRuns(rows, now, live);
    if j < |rows| { DroppedMeans(rows[i], rows[j], now, live); }
  }

  lemma DroppedMeans(start: Exec, end: Exec, now: int, live: Option<int>)
    ensures Reported(start, Some(end), now, live) <==> !(SameTicket(start, end) || NothingHappened(start, end))
  {
    TicketMeans(start, end);
    PriceMeans(start);
    PriceMeans(end);
    if start.time.Some? && end.time.Some? { SecondsMean(end.time.value - start.time.value); }
  }

  lemma TicketMeans(a: Exec, b: Exec)
    ensures OneTicket(a, b) <==> SameTicket(a, b)
  {
  }

  lemma PriceMeans(e: Exec)
    ensures forall p :: PricedAt(e, p) <==> p == e.Px()
  {
  }

  lemma SecondsMean(micros: int)
    ensures RoundSeconds(micros) > 0 <==> micros > 500_000
    ensures var over := micros - RoundSeconds(micros) * 1_000_000;
            -500_000 <= over <= 500_000 && (over in {-500_000, 500_000} ==> RoundSeconds(micros) % 2 == 0)
  {
  }
}
