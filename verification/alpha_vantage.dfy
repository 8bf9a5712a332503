/** backend/alpha_vantage.py:54-102: the retry loop of _get, under the caller's budget. The
    provider is a list of answers, each with the time it would take. */
module AlphaVantage {
  import opened Common
  import opened FetchBudget

  /** A payload without a complaint, a payload with one of the three complaint keys, a
      payload that is not an object, or a failure to get one. */
  datatype Reply = Payload(body: string) | Soft(key: string) | NotAnObject | Transport

  datatype Answer = Answer(reply: Reply, takes: real)

  datatype Outcome =
    | Got(body: string)
    | Raised(key: string)
    | DeadlineReached(tries: nat)
    | GaveUp(last: Reply)
    | NotConfigured

  /** What the call gives, when it ends, and every reply it saw. */
  datatype Call = Call(outcome: Outcome, finish: real, seen: seq<Reply>)

  /** Saying no again cannot change: any key but the per-minute throttle. */
  predicate Terminal(r: Reply) {
    r.Soft? && r.key != "Note"
  }

  /** Ends the call at once. */
  predicate Final(r: Reply) {
    r.Payload? || Terminal(r)
  }

  function Attempts(b: Budget): int {
    if b.kind == Interactive then (if b.attempts < 3 then b.attempts else 3) else 3
  }

  // ---- One attempt -------------------------------------------------------------

  /** An attempt ends within the timeout it was given. */
  function Took(b: Budget, now: real, timeout: real, a: Answer): (t: real)
    ensures t >= 0.0
  {
    Max(0.0, Min(a.takes, CapTimeout(b, now, Some(timeout)).GetOr(a.takes)))
  }

  /** What it saw: a reply that would come too late is a transport failure. */
  function Saw(b: Budget, now: real, timeout: real, a: Answer): Reply {
    if a.takes > CapTimeout(b, now, Some(timeout)).GetOr(a.takes) then Transport else a.reply
  }

  function BackOff(attempt: nat): real {
    2.0 * (attempt + 1) as real
  }

  /** A transport failure on the last attempt is not slept on. A throttle is. */
  function Slept(b: Budget, now: real, attempt: nat, attempts: int, r: Reply): real {
    if Final(r) || (r == Transport && attempt >= attempts - 1) then 0.0
    else SleepFor(b, now, BackOff(attempt))
  }

  /** What one pass of the loop comes to: the call ends, or it goes on from an instant. */
  datatype Pass = End(outcome: Outcome, finish: real, seen: seq<Reply>) | Again(reply: Reply, at: real)

  function PassOf(b: Budget, timeout: real, a: Answer, attempt: nat, now: real): Pass {
    if attempt > 0 && Expired(b, now) then End(DeadlineReached(attempt), now, [])
    else
      var r, done := Saw(b, now, timeout, a), now + Took(b, now, timeout, a);
      if r.Payload? then End(Got(r.body), done, [r])
      else if Terminal(r) then End(Raised(r.key), done, [r])
      else Again(r, done + Slept(b, done, attempt, Attempts(b), r))
  }

  /** The body of the loop, as written. */
  method Attempt(b: Budget, timeout: real, a: Answer, attempt: nat, now: real) returns (p: Pass)
    ensures p == PassOf(b, timeout, a, attempt, now)
  {
    if attempt > 0 && Expired(b, now) {
      return End(DeadlineReached(attempt), now, []);
    }
    var r, clock := Saw(b, now, timeout, a), now + Took(b, now, timeout, a);
    match r {
      case Payload(body) =>
        return End(Got(body), clock, [r]);
      case Soft(key) =>
        if key != "Note" {
          return End(Raised(key), clock, [r]);
        }
        clock := clock + SleepFor(b, clock, BackOff(attempt));
      case NotAnObject =>
        clock := clock + SleepFor(b, clock, BackOff(attempt));
      case Transport =>
        if attempt < Attempts(b) - 1 {
          clock := clock + SleepFor(b, clock, BackOff(attempt));
        }
    }
    return Again(r, clock);
  }

  /** What is left before the deadline, when there is one. */
  function LeftAt(b: Budget, now: real): Option<real> {
    if b.deadline.None? then None else if b.deadline.value > now then Some(b.deadline.value - now) else Some(0.0)
  }

  /** The least of the call's own timeout, the budget's and what is left. */
  predicate IsLimit(b: Budget, timeout: real, now: real, limit: real) {
    && limit <= timeout && (b.timeout.Some? ==> limit <= b.timeout.value)
    && (LeftAt(b, now).Some? ==> limit <= LeftAt(b, now).value)
    && (limit == timeout || Some(limit) == b.timeout || Some(limit) == LeftAt(b, now))
  }

  /** A try is made unless an earlier one was and the deadline has passed. A reply that takes
      longer than the limit is a transport failure at the limit. A payload ends the call, and
      so does a complaint other than the throttle; after anything else the call waits two
      seconds, four or six, or as long as is left, but not after a transport failure of the
      last of its tries, three or as few as an interactive budget has. */
  lemma PassMeans(b: Budget, timeout: real, a: Answer, attempt: nat, now: real, limit: real)
    requires IsLimit(b, timeout, now, limit) && a.takes >= 0.0 && limit >= 0.0
    ensures var p := PassOf(b, timeout, a, attempt, now);
            var last := attempt + 1 >= (if b.kind == Interactive && b.attempts < 3 then b.attempts else 3);
            var reply := if a.takes > limit then Transport else a.reply;
            var done := now + (if a.takes > limit then limit else a.takes);
            var wait := 2.0 * (attempt + 1) as real;
            if attempt > 0 && b.deadline.Some? && now >= b.deadline.value then
              p == End(DeadlineReached(attempt), now, [])
            else if reply.Payload? then p == End(Got(reply.body), done, [reply])
            else if reply.Soft? && reply.key != "Note" then p == End(Raised(reply.key), done, [reply])
            else if reply == Transport && last then p == Again(reply, done)
            else
              p == Again(reply, done + (if LeftAt(b, done).Some? && LeftAt(b, done).value < wait
                                        then LeftAt(b, done).value else wait))
  {
    CapIsLeast(b, now, Some(timeout));
  }

  // ---- The loop ----------------------------------------------------------------

  function Prefixed(r: Reply, c: Call): Call {
    Call(c.outcome, c.finish, [r] + c.seen)
  }

  /** The loop from an attempt on: `last` is the reply of the attempt before. */
  function From(b: Budget, timeout: real, net: nat -> Answer, attempt: nat, now: real, last: Reply): Call
    decreases Attempts(b) - attempt
  {
    if attempt >= Attempts(b) then Call(GaveUp(last), now, [])
    else
      match PassOf(b, timeout, net(attempt), attempt, now)
      case End(outcome, finish, seen) => Call(outcome, finish, seen)
      case Again(r, at) => Prefixed(r, From(b, timeout, net, attempt + 1, at, r))
  }

  function Get(b: Budget, timeout: real, net: nat -> Answer, start: real, configured: bool): Call {
    if !configured then Call(NotConfigured, start, []) else From(b, timeout, net, 0, start, Transport)
  }

  /** The replies seen so far, before those of the rest of the call. */
  function SeenFirst(seen: seq<Reply>, c: Call): Call {
    Call(c.outcome, c.finish, seen + c.seen)
  }

  lemma SeenAssociates(seen: seq<Reply>, r: Reply, c: Call)
    ensures SeenFirst(seen, Prefixed(r, c)) == SeenFirst(seen + [r], c)
  {
    assert seen + ([r] + c.seen) == seen + [r] + c.seen;
  }

  method Fetch(b: Budget, timeout: real, net: nat -> Answer, start: real, configured: bool) returns (c: Call)
    ensures c == Get(b, timeout, net, start, configured)
  {
    if !configured {
      return Call(NotConfigured, start, []);
    }
    var clock, lastErr, attempt := start, Transport, 0;
    var seen: seq<Reply> := [];
    ghost var call := From(b, timeout, net, 0, start, Transport);
    assert [] + call.seen == call.seen;
    while attempt < Attempts(b)
      invariant 0 <= attempt
      invariant call == SeenFirst(seen, From(b, timeout, net, attempt, clock, lastErr))
      decreases Attempts(b) - attempt
    {
      var p := Attempt(b, timeout, net(attempt), attempt, clock);
      if p.End? {
        return Call(p.outcome, p.finish, seen + p.seen);
      }
      SeenAssociates(seen, p.reply, From(b, timeout, net, attempt + 1, p.at, p.reply));
      clock, lastErr, seen, attempt := p.at, p.reply, seen + [p.reply], attempt + 1;
    }
    assert seen + [] == seen;
    return Call(GaveUp(lastErr), clock, seen);
  }

  // ---- Replies: what is retried and what is not --------------------------------

  /** How the replies a call saw decide what it gives. */
  ghost predicate Explains(b: Budget, attempt: nat, last: Reply, c: Call) {
    var n := |c.seen|;
    && attempt + n <= (if Attempts(b) > attempt then Attempts(b) else attempt)
    && (forall i :: 0 <= i < n - 1 ==> !Final(c.seen[i]))
    && (n > 0 && Final(c.seen[n - 1]) ==>
          c.outcome == if c.seen[n - 1].Payload? then Got(c.seen[n - 1].body) else Raised(c.seen[n - 1].key))
    && (n == 0 || !Final(c.seen[n - 1]) ==>
          || (c.outcome == DeadlineReached(attempt + n) && attempt + n > 0 && Expired(b, c.finish)
             && attempt + n < Attempts(b))
          || (c.outcome == GaveUp(if n == 0 then last else c.seen[n - 1]) && attempt + n >= Attempts(b)))
  }

  lemma ExplainsPrefixed(b: Budget, attempt: nat, r: Reply, last: Reply, c: Call)
    requires attempt < Attempts(b) && !Final(r) && Explains(b, attempt + 1, r, c)
    ensures Explains(b, attempt, last, Prefixed(r, c))
  {
    var seen := Prefixed(r, c).seen;
    forall i | 0 <= i < |seen| - 1 ensures !Final(seen[i]) {
      if i > 0 { assert seen[i] == c.seen[i - 1]; }
    }
    if c.seen != [] { assert seen[|seen| - 1] == c.seen[|c.seen| - 1]; }
  }

  lemma {:induction false} FromExplains(
      b: Budget, timeout: real, net: nat -> Answer, attempt: nat, now: real, last: Reply)
    ensures Explains(b, attempt, last, From(b, timeout, net, attempt, now, last))
    decreases Attempts(b) - attempt
  {
    if attempt < Attempts(b) {
      match PassOf(b, timeout, net(attempt), attempt, now)
      case End(_, _, _) =>
      case Again(r, at) =>
        FromExplains(b, timeout, net, attempt + 1, at, r);
        ExplainsPrefixed(b, attempt, r, last, From(b, timeout, net, attempt + 1, at, r));
    }
  }

  /** A payload or a terminal complaint ends the call, and nothing else is tried after it;
      any other reply is retried while attempts and the deadline last. */
  lemma FinalRepliesEndTheCall(b: Budget, timeout: real, net: nat -> Answer, start: real)
    requires b.attempts >= 1
    ensures var c, most := Get(b, timeout, net, start, true), Attempts(b);
            && most == (if b.kind == Interactive && b.attempts < 3 then b.attempts else 3)
            && 1 <= |c.seen| <= most
            && (forall i :: 0 <= i < |c.seen| - 1 ==> c.seen[i] in {Soft("Note"), NotAnObject, Transport})
            && var r := c.seen[|c.seen| - 1];
               c.outcome == if r.Payload? then Got(r.body)
                            else if r.Soft? && r.key != "Note" then Raised(r.key)
                            else if |c.seen| == most then GaveUp(r)
                            else DeadlineReached(|c.seen|)
  {
    FromExplains(b, timeout, net, 0, start, Transport);
    assert From(b, timeout, net, 0, start, Transport).seen != [];
  }

  // ---- Time --------------------------------------------------------------------

  lemma PassInTime(b: Budget, timeout: real, a: Answer, attempt: nat, now: real)
    requires b.deadline.Some?
    ensures var p := PassOf(b, timeout, a, attempt, now);
            now <= (if p.End? then p.finish else p.at) <= Max(now, b.deadline.value)
  {
    var took := Took(b, now, timeout, a);
    var done := now + took;
    NothingPassesTheDeadline(b, now, Some(timeout), took, 0.0);
    NothingPassesTheDeadline(b, done, Some(timeout), 0.0, BackOff(attempt));
  }

  lemma {:induction false} FromInTime(
      b: Budget, timeout: real, net: nat -> Answer, attempt: nat, now: real, last: Reply)
    requires b.deadline.Some?
    ensures now <= From(b, timeout, net, attempt, now, last).finish <= Max(now, b.deadline.value)
    decreases Attempts(b) - attempt
  {
    if attempt < Attempts(b) {
      PassInTime(b, timeout, net(attempt), attempt, now);
      match PassOf(b, timeout, net(attempt), attempt, now)
      case End(_, _, _) =>
      case Again(r, at) => FromInTime(b, timeout, net, attempt + 1, at, r);
    }
  }

  /** Under an interactive budget the call ends by the deadline, or at once when that has
      passed already, whatever the provider does, within min(3, attempts) tries. */
  lemma InteractiveIsBounded(b: Budget, timeout: real, net: nat -> Answer, start: real, configured: bool)
    requires b.deadline.Some? && b.attempts >= 1
    ensures var c := Get(b, timeout, net, start, configured);
            && start <= c.finish <= Max(start, b.deadline.value)
            && |c.seen| <= Attempts(b) <= 3 && (b.kind == Interactive ==> |c.seen| <= b.attempts)
  {
    if configured {
      FromInTime(b, timeout, net, 0, start, Transport);
      FinalRepliesEndTheCall(b, timeout, net, start);
    }
  }

  /** Past the deadline a call makes one try, which takes no time. */
  lemma ExpiredTriesOnce(b: Budget, timeout: real, net: nat -> Answer, start: real)
    requires Expired(b, start) && b.attempts >= 1
    ensures var c := Get(b, timeout, net, start, true); |c.seen| == 1 && c.finish == start
  {
    FromInTime(b, timeout, net, 0, start, Transport);
    match PassOf(b, timeout, net(0), 0, start)
    case End(_, _, _) =>
    case Again(r, at) =>
      PassInTime(b, timeout, net(0), 0, start);
      assert at == start;
      var rest := From(b, timeout, net, 1, at, r);
      assert rest.seen == [];
      assert [r] + rest.seen == [r];
  }

  /** Calls one after the other under one budget: the last one's finish. */
  function Sequence(b: Budget, timeout: real, nets: seq<nat -> Answer>, start: real): real {
    if nets == [] then start
    else Get(b, timeout, nets[|nets| - 1], Sequence(b, timeout, nets[..|nets| - 1], start), true).finish
  }

  /** A whole request, however many fetches it fans out to, ends by the deadline. */
  lemma {:induction false} RequestIsBounded(b: Budget, timeout: real, nets: seq<nat -> Answer>, start: real)
    requires b.deadline.Some?
    ensures start <= Sequence(b, timeout, nets, start) <= Max(start, b.deadline.value)
  {
    if nets != [] {
      RequestIsBounded(b, timeout, nets[..|nets| - 1], start);
      FromInTime(b, timeout, nets[|nets| - 1], 0, Sequence(b, timeout, nets[..|nets| - 1], start), Transport);
    }
  }

  /** How often the i-th of the calls in a request tried. */
  function Tries(b: Budget, timeout: real, nets: seq<nat -> Answer>, start: real, i: nat): nat
    requires i < |nets|
  {
    |Get(b, timeout, nets[i], Sequence(b, timeout, nets[..i], start), true).seen|
  }

  /** A budget made at `now` for a number of seconds: every fetch of the request makes at
      most min(3, retries) tries, and the last of them ends in that time, whatever the
      providers do and however many fetches there are. */
  lemma RequestFitsItsSeconds(now: real, retries: int, base: real, longest: real, limit: real, seconds: real,
                              timeout: real, nets: seq<nat -> Answer>, start: real)
    requires now <= start
    ensures var b := InteractiveBudget(now, retries, base, longest, limit, seconds);
            && start <= Sequence(b, timeout, nets, start) <= Max(start, now + seconds)
            && forall i :: 0 <= i < |nets| ==>
                 1 <= Tries(b, timeout, nets, start, i) <= 3
                 && Tries(b, timeout, nets, start, i) <= (if retries >= 1 then retries else 1)
  {
    var b := InteractiveBudget(now, retries, base, longest, limit, seconds);
    RequestIsBounded(b, timeout, nets, start);
    forall i | 0 <= i < |nets| ensures 1 <= Tries(b, timeout, nets, start, i) <= Attempts(b) {
      FinalRepliesEndTheCall(b, timeout, nets[i], Sequence(b, timeout, nets[..i], start));
    }
  }

  /** What the tries from an attempt on can cost when nothing narrows them. */
  function PatientCost(timeout: real, attempt: nat, quick: bool): real
    requires attempt <= 3
    decreases 3 - attempt
  {
    if attempt == 3 then 0.0
    else timeout + (if quick && attempt == 2 then 0.0 else BackOff(attempt)) + PatientCost(timeout, attempt + 1, quick)
  }

  lemma {:induction false} FromIsPatient(
      b: Budget, timeout: real, net: nat -> Answer, attempt: nat, now: real, last: Reply, quick: bool)
    requires b.kind == Patient && b.deadline.None? && b.timeout.None? && timeout >= 0.0 && attempt <= 3
    requires quick ==> forall i :: net(i).reply == Transport || Final(net(i).reply)
    ensures now <= From(b, timeout, net, attempt, now, last).finish <= now + PatientCost(timeout, attempt, quick)
    decreases 3 - attempt
  {
    if attempt < 3 {
      var a := net(attempt);
      assert 0.0 <= Took(b, now, timeout, a) <= timeout;
      assert BackOff(attempt) >= 0.0;
      CostIsPositive(timeout, attempt + 1, quick);
      match PassOf(b, timeout, a, attempt, now)
      case End(_, _, _) =>
      case Again(r, at) => FromIsPatient(b, timeout, net, attempt + 1, at, r, quick);
    }
  }

  lemma {:induction false} CostIsPositive(timeout: real, attempt: nat, quick: bool)
    requires attempt <= 3 && timeout >= 0.0
    ensures PatientCost(timeout, attempt, quick) >= 0.0
    decreases 3 - attempt
  {
    if attempt < 3 {
      CostIsPositive(timeout, attempt + 1, quick);
      assert BackOff(attempt) >= 0.0;
    }
  }

  /** Under the patient budget a call ends within three timeouts and twelve seconds of
      back-off; six seconds when no throttle or odd payload is slept on at the last try. */
  lemma PatientIsBounded(b: Budget, timeout: real, net: nat -> Answer, start: real, quick: bool)
    requires b.kind == Patient && b.deadline.None? && b.timeout.None? && timeout >= 0.0
    requires quick ==> forall i :: net(i).reply == Transport || Final(net(i).reply)
    ensures Get(b, timeout, net, start, true).finish <= start + 3.0 * timeout + (if quick then 6.0 else 12.0)
  {
    FromIsPatient(b, timeout, net, 0, start, Transport, quick);
    assert PatientCost(timeout, 3, quick) == 0.0;
    assert PatientCost(timeout, 2, quick) == timeout + if quick then 0.0 else 6.0;
    assert PatientCost(timeout, 1, quick) == timeout + 4.0 + PatientCost(timeout, 2, quick);
    assert PatientCost(timeout, 0, quick) == timeout + 2.0 + PatientCost(timeout, 1, quick);
  }

  // ---- Sleeping for nothing ----------------------------------------------------

  /** When the reply of an attempt is in. */
  function Done(b: Budget, timeout: real, a: Answer, now: real): real {
    now + Took(b, now, timeout, a)
  }

  /** When the last reply is in, from an attempt on; now, when none comes. */
  function LastReplyAt(b: Budget, timeout: real, net: nat -> Answer, attempt: nat, now: real): real
    decreases Attempts(b) - attempt
  {
    if attempt >= Attempts(b) then now
    else
      match PassOf(b, timeout, net(attempt), attempt, now)
      case End(_, finish, _) => finish
      case Again(r, at) =>
        if From(b, timeout, net, attempt + 1, at, r).seen == [] then Done(b, timeout, net(attempt), now)
        else LastReplyAt(b, timeout, net, attempt + 1, at)
  }

  /** A back-off, or the lack of one on a last transport failure, is followed by another try
      exactly when a try is left and the back-off in full would end before the deadline. */
  lemma BackOffIsUsedExactly(b: Budget, timeout: real, net: nat -> Answer, attempt: nat, now: real)
    requires attempt < Attempts(b) && PassOf(b, timeout, net(attempt), attempt, now).Again?
    ensures var p, done := PassOf(b, timeout, net(attempt), attempt, now), Done(b, timeout, net(attempt), now);
            From(b, timeout, net, attempt + 1, p.at, p.reply).seen != []
            <==> attempt + 1 < Attempts(b) && (b.deadline.None? || done + BackOff(attempt) < b.deadline.value)
  {
    var p := PassOf(b, timeout, net(attempt), attempt, now);
    if attempt + 1 < Attempts(b) {
      BackOffReaches(b, timeout, net(attempt), attempt, now);
      TrySees(b, timeout, net, attempt + 1, p.at, p.reply);
    }
  }

  /** With a try left, the clamped back-off ends past the deadline exactly when it is clamped. */
  lemma BackOffReaches(b: Budget, timeout: real, a: Answer, attempt: nat, now: real)
    requires attempt + 1 < Attempts(b) && PassOf(b, timeout, a, attempt, now).Again?
    ensures Expired(b, PassOf(b, timeout, a, attempt, now).at)
            <==> b.deadline.Some? && Done(b, timeout, a, now) + BackOff(attempt) >= b.deadline.value
  {
    assert BackOff(attempt) > 0.0;
  }

  /** A try sees a reply unless the deadline has passed before it. */
  lemma TrySees(b: Budget, timeout: real, net: nat -> Answer, attempt: nat, now: real, last: Reply)
    requires 0 < attempt < Attempts(b)
    ensures From(b, timeout, net, attempt, now, last).seen != [] <==> !Expired(b, now)
  {
  }

  /** A call ended with a wait for nothing: its last reply was not its end. */
  predicate Waited(b: Budget, last: Reply, tries: nat, at: real) {
    && !Final(last)
    && (tries < Attempts(b) || last != Transport)
    && (b.deadline.None? || at < b.deadline.value)
  }

  /** The last reply of a call came at this instant, and the call outlived it by a wait. */
  predicate EndsWaiting(b: Budget, c: Call, attempt: nat, at: real)
    requires c.seen != []
  {
    at <= c.finish && (at < c.finish <==> Waited(b, c.seen[|c.seen| - 1], attempt + |c.seen|, at))
  }

  lemma WaitsPrefixed(b: Budget, r: Reply, rest: Call, attempt: nat, at: real)
    requires rest.seen != [] && EndsWaiting(b, rest, attempt + 1, at)
    ensures EndsWaiting(b, Prefixed(r, rest), attempt, at)
  {
    assert ([r] + rest.seen)[|rest.seen|] == rest.seen[|rest.seen| - 1];
  }

  lemma {:induction false} FromWaits(b: Budget, timeout: real, net: nat -> Answer, attempt: nat, now: real, last: Reply)
    requires attempt < Attempts(b)
    requires From(b, timeout, net, attempt, now, last).seen != []
    ensures EndsWaiting(b, From(b, timeout, net, attempt, now, last), attempt,
                        LastReplyAt(b, timeout, net, attempt, now))
    decreases Attempts(b) - attempt
  {
    match PassOf(b, timeout, net(attempt), attempt, now)
    case End(_, _, _) =>
    case Again(r, at) =>
      var rest := From(b, timeout, net, attempt + 1, at, r);
      if rest.seen == [] {
        LastPassWaits(b, timeout, net, attempt, now);
        assert [r] + rest.seen == [r];
      } else {
        FromWaits(b, timeout, net, attempt + 1, at, r);
        WaitsPrefixed(b, r, rest, attempt, LastReplyAt(b, timeout, net, attempt + 1, at));
      }
  }

  /** After the last reply the call ends when the back-off does. */
  lemma LastPassWaits(b: Budget, timeout: real, net: nat -> Answer, attempt: nat, now: real)
    requires attempt < Attempts(b)
    requires var p := PassOf(b, timeout, net(attempt), attempt, now);
             p.Again? && From(b, timeout, net, attempt + 1, p.at, p.reply).seen == []
    ensures var p, done := PassOf(b, timeout, net(attempt), attempt, now), Done(b, timeout, net(attempt), now);
            && From(b, timeout, net, attempt + 1, p.at, p.reply).finish == p.at >= done
            && (p.at > done <==> Waited(b, p.reply, attempt + 1, done))
  {
    BackOffIsUsedExactly(b, timeout, net, attempt, now);
    assert BackOff(attempt) > 0.0;
  }

  /** A call outlives its last reply exactly when that reply is one to be waited on, that is,
      neither a payload nor a terminal complaint nor the transport failure of the last try,
      and comes before the deadline. Nothing is asked after that wait. */
  lemma WaitsForNothingExactly(b: Budget, timeout: real, net: nat -> Answer, start: real)
    requires b.attempts >= 1
    ensures var c, at := Get(b, timeout, net, start, true), LastReplyAt(b, timeout, net, 0, start);
            && c.seen != [] && at <= c.finish
            && (at < c.finish <==> Waited(b, c.seen[|c.seen| - 1], |c.seen|, at))
  {
    FinalRepliesEndTheCall(b, timeout, net, start);
    FromWaits(b, timeout, net, 0, start, Transport);
  }

  /** With no deadline: exactly when every try was used and the last gave a throttle or a
      payload that is not an object. */
  lemma PatientWaitsExactly(b: Budget, timeout: real, net: nat -> Answer, start: real)
    requires b.attempts >= 1 && b.deadline.None?
    ensures var c := Get(b, timeout, net, start, true);
            c.seen != [] && (c.finish > LastReplyAt(b, timeout, net, 0, start)
                             <==> |c.seen| == Attempts(b) && c.seen[|c.seen| - 1] in {Soft("Note"), NotAnObject})
  {
    FinalRepliesEndTheCall(b, timeout, net, start);
    WaitsForNothingExactly(b, timeout, net, start);
  }

  /** With one: when a reply to be waited on comes so late that the back-off is clamped, the
      call sleeps up to the deadline and then raises, with tries left and no further try. */
  lemma ClampedBackOffEndsTheCall(b: Budget, timeout: real, net: nat -> Answer, attempt: nat, now: real)
    requires b.deadline.Some? && attempt + 1 < Attempts(b) && PassOf(b, timeout, net(attempt), attempt, now).Again?
    requires Done(b, timeout, net(attempt), now) < b.deadline.value
    requires b.deadline.value <= Done(b, timeout, net(attempt), now) + BackOff(attempt)
    ensures var p := PassOf(b, timeout, net(attempt), attempt, now);
            From(b, timeout, net, attempt + 1, p.at, p.reply)
            == Call(DeadlineReached(attempt + 1), b.deadline.value, [])
  {
  }

  function Throttling(takes: real): nat -> Answer {
    i => Answer(Soft("Note"), takes)
  }

  /** Such a call, under the shipped interactive settings: two tries of ten seconds and 45
      in all. It is reached with one second left, is throttled at once, and sleeps out that
      second with a try to spare. */
  lemma LastSecondIsSlept(base: real, longest: real)
    ensures var b := InteractiveBudget(0.0, 2, base, longest, 10.0, 45.0);
            && LastReplyAt(b, 20.0, Throttling(0.0), 0, 44.0) == 44.0
            && Get(b, 20.0, Throttling(0.0), 44.0, true) == Call(DeadlineReached(1), 45.0, [Soft("Note")])
            && Attempts(b) == 2
  {
    var b := InteractiveBudget(0.0, 2, base, longest, 10.0, 45.0);
    var net, note := Throttling(0.0), Soft("Note");
    assert PassOf(b, 20.0, net(0), 0, 44.0) == Again(note, 45.0);
    ClampedBackOffEndsTheCall(b, 20.0, net, 0, 44.0);
    assert [note] + [] == [note];
  }

  /** The bound is reached: a throttle that answers just in time, three times over. The last
      six seconds are slept after the last try, with nothing left to wait for. */
  lemma ThrottleSleepsForNothing(b: Budget, timeout: real, start: real)
    requires b.kind == Patient && b.deadline.None? && b.timeout.None? && timeout >= 0.0
    ensures Get(b, timeout, Throttling(timeout), start, true).finish == start + 3.0 * timeout + 12.0
    ensures Get(b, timeout, Throttling(timeout), start, true).outcome == GaveUp(Soft("Note"))
  {
    var net, note := Throttling(timeout), Soft("Note");
    var t1 := start + timeout + 2.0;
    var t2 := t1 + timeout + 4.0;
    var t3 := t2 + timeout + 6.0;
    assert PassOf(b, timeout, net(0), 0, start) == Again(note, t1);
    assert PassOf(b, timeout, net(1), 1, t1) == Again(note, t2);
    assert PassOf(b, timeout, net(2), 2, t2) == Again(note, t3);
    assert From(b, timeout, net, 3, t3, note) == Call(GaveUp(note), t3, []);
    assert From(b, timeout, net, 2, t2, note) == Prefixed(note, From(b, timeout, net, 3, t3, note));
    assert From(b, timeout, net, 1, t1, note) == Prefixed(note, From(b, timeout, net, 2, t2, note));
  }
}
