/** What the alert engine promises over every run of its operations. */
module AlertTheorems {
  import opened Alerts
  import opened Bags
  import opened Common

  datatype Op =
    | Pass(cands: seq<Candidate>, now: int)
    | OneOff(candidate: Candidate, at: int)
    | Ack(id: nat)
    | AckAll

  function Untrimmed(st: State, op: Op): State {
    match op
    case Pass(cands, now) => PassUntrimmed(st, cands, now)
    case OneOff(c, at) => EventUntrimmed(st, c, at)
    case Ack(id) => if Known(st, id) then AcknowledgeOne(st, id) else st
    case AckAll => AcknowledgeEvery(st)
  }

  function Step(st: State, op: Op, cap: nat): State {
    var next := Untrimmed(st, op);
    if op.Pass? || op.OneOff? then next.(log := Trim(next.log, cap)) else next
  }

  function Run(ops: seq<Op>, cap: nat): State {
    if ops == [] then EMPTY else Step(Run(ops[..|ops| - 1], cap), ops[|ops| - 1], cap)
  }

  /** Fingerprints fired by the last operation. */
  function FiredBy(st: State, op: Op): seq<string> {
    if op.Pass? then ConsiderAll(st, op.cands, op.now).order else []
  }

  // ---- One pass fires what was absent, once each -------------------------------

  lemma {:induction false} ConsideredKeys(st: State, cands: seq<Candidate>, now: int)
    ensures ConsiderAll(st, cands, now).active.Keys == st.active.Keys + Fingerprints(cands)
  {
    if cands == [] {
      assert Fingerprints(cands) == {};
    } else {
      var front, c := cands[..|cands| - 1], cands[|cands| - 1];
      assert cands == front + [c];
      ConsideredKeys(st, front, now);
      FingerprintsSnoc(front, c);
    }
  }

  lemma {:induction false} ConsideredOrder(st: State, cands: seq<Candidate>, now: int)
    ensures var p := ConsiderAll(st, cands, now);
            && Distinct(p.order)
            && (forall fp :: fp in p.order ==> fp in p.active)
            && (forall fp :: fp in p.order <==> fp in Fingerprints(cands) && fp !in st.active)
  {
    if cands != [] {
      var front, c := cands[..|cands| - 1], cands[|cands| - 1];
      assert cands == front + [c];
      ConsideredOrder(st, front, now);
      ConsideredKeys(st, front, now);
      FingerprintsSnoc(front, c);
    }
  }

  /** A record that was active keeps its birth; one that was not is born now. */
  lemma {:induction false} ConsideredBirth(st: State, cands: seq<Candidate>, now: int, fp: string)
    requires fp in ConsiderAll(st, cands, now).active
    ensures ConsiderAll(st, cands, now).active[fp].firstSeen == if fp in st.active then st.active[fp].firstSeen else now
  {
    if cands != [] {
      var front := cands[..|cands| - 1];
      ConsideredKeys(st, front, now);
      if fp in ConsiderAll(st, front, now).active {
        ConsideredBirth(st, front, now, fp);
      }
    }
  }

  lemma FingerprintsSnoc(cands: seq<Candidate>, c: Candidate)
    ensures Fingerprints(cands + [c]) == Fingerprints(cands) + {c.fingerprint}
  {
    assert (cands + [c])[|cands|] == c;
    assert forall i :: 0 <= i < |cands| ==> (cands + [c])[i] == cands[i];
  }

  lemma PassKeys(st: State, cands: seq<Candidate>, now: int)
    ensures PassUntrimmed(st, cands, now).active.Keys == Fingerprints(cands)
  {
    ConsideredKeys(st, cands, now);
  }

  // ---- One fire per episode ----------------------------------------------------

  /** The last pass, if any, saw this fingerprint. */
  predicate Present(ops: seq<Op>, fp: string) {
    if ops == [] then false
    else
      var op := ops[|ops| - 1];
      if op.Pass? then fp in Fingerprints(op.cands) else Present(ops[..|ops| - 1], fp)
  }

  /** How many passes saw it when the pass before did not. */
  function Onsets(ops: seq<Op>, fp: string): nat {
    if ops == [] then 0
    else
      var front, op := ops[..|ops| - 1], ops[|ops| - 1];
      Onsets(front, fp) + (if op.Pass? && fp in Fingerprints(op.cands) && !Present(front, fp) then 1 else 0)
  }

  /** When the episode that is going on began. */
  function Began(ops: seq<Op>, fp: string): int {
    if ops == [] then 0
    else
      var front, op := ops[..|ops| - 1], ops[|ops| - 1];
      if op.Pass? && !Present(front, fp) then op.now else Began(front, fp)
  }

  /** How many times it was fired. */
  function Fires(ops: seq<Op>, fp: string, cap: nat): nat {
    if ops == [] then 0
    else
      var front, op := ops[..|ops| - 1], ops[|ops| - 1];
      Fires(front, fp, cap) + multiset(FiredBy(Run(front, cap), op))[fp]
  }

  /** After any run the active keys are the last pass's fingerprints, a fingerprint has
      fired exactly once per episode, and a record dates from the start of its episode. */
  lemma {:induction false} OneFirePerEpisode(ops: seq<Op>, fp: string, cap: nat)
    ensures var st := Run(ops, cap);
            && (fp in st.active <==> Present(ops, fp))
            && Fires(ops, fp, cap) == Onsets(ops, fp)
            && (fp in st.active ==> st.active[fp].firstSeen == Began(ops, fp))
  {
    if ops != [] {
      var front, op := ops[..|ops| - 1], ops[|ops| - 1];
      OneFirePerEpisode(front, fp, cap);
      EpisodeStep(Run(front, cap), op, fp, cap);
    }
  }

  lemma EpisodeStep(st: State, op: Op, fp: string, cap: nat)
    ensures var next := Step(st, op, cap);
            && (fp in next.active <==> if op.Pass? then fp in Fingerprints(op.cands) else fp in st.active)
            && (fp in next.active && fp in st.active ==> next.active[fp].firstSeen == st.active[fp].firstSeen)
            && (op.Pass? && fp in next.active && fp !in st.active ==> next.active[fp].firstSeen == op.now)
            && multiset(FiredBy(st, op))[fp]
               == (if op.Pass? && fp in Fingerprints(op.cands) && fp !in st.active then 1 else 0)
  {
    if op.Pass? {
      PassKeys(st, op.cands, op.now);
      FiredOnce(st, op.cands, op.now, fp);
      if fp in Fingerprints(op.cands) { PassBirth(st, op.cands, op.now, fp); }
    }
  }

  lemma FiredOnce(st: State, cands: seq<Candidate>, now: int, fp: string)
    ensures multiset(ConsiderAll(st, cands, now).order)[fp]
            == if fp in Fingerprints(cands) && fp !in st.active then 1 else 0
  {
    ConsideredOrder(st, cands, now);
    DistinctBag(ConsiderAll(st, cands, now).order);
  }

  lemma PassBirth(st: State, cands: seq<Candidate>, now: int, fp: string)
    requires fp in PassUntrimmed(st, cands, now).active
    ensures PassUntrimmed(st, cands, now).active[fp].firstSeen
            == if fp in st.active then st.active[fp].firstSeen else now
  {
    var p := ConsiderAll(st, cands, now);
    var log := Mirror(p.log, IdsOf(p.active, p.active.Keys - Fingerprints(cands)), now);
    ConsideredBirth(st, cands, now, fp);
    if fp in p.fired { assert log[p.fired[fp]].firstSeen == p.log[p.fired[fp]].firstSeen; }
  }

  // ---- What a pass leaves ------------------------------------------------------

  /** The last candidate with this fingerprint. */
  ghost predicate LastOf(cands: seq<Candidate>, fp: string, k: int) {
    0 <= k < |cands| && cands[k].fingerprint == fp && forall j :: k < j < |cands| ==> cands[j].fingerprint != fp
  }

  lemma ConsiderOwn(p: Progress, c: Candidate, now: int)
    requires Shared(p)
    ensures var active := Consider(p, c, now).active;
            && c.fingerprint in active
            && active[c.fingerprint].lastSeen == now && active[c.fingerprint].data == c.data
  {
  }

  lemma ConsiderOther(p: Progress, c: Candidate, now: int, fp: string)
    requires Shared(p) && fp in p.active && fp != c.fingerprint
    ensures fp in Consider(p, c, now).active && Consider(p, c, now).active[fp] == p.active[fp]
  {
  }

  lemma {:induction false} ConsideredData(st: State, cands: seq<Candidate>, now: int, fp: string, k: int)
    requires LastOf(cands, fp, k)
    ensures fp in ConsiderAll(st, cands, now).active
    ensures var rec := ConsiderAll(st, cands, now).active[fp]; rec.lastSeen == now && rec.data == cands[k].data
  {
    var front, last := cands[..|cands| - 1], cands[|cands| - 1];
    if k < |front| {
      assert LastOf(front, fp, k);
      ConsideredData(st, front, now, fp, k);
      ConsiderOther(ConsiderAll(st, front, now), last, now, fp);
    } else {
      ConsiderOwn(ConsiderAll(st, front, now), last, now);
    }
  }

  /** Every condition a pass sees is active afterwards, last seen then, with the data of its
      last candidate. */
  lemma PassRefreshes(st: State, cands: seq<Candidate>, now: int, fp: string, k: int)
    requires LastOf(cands, fp, k)
    ensures fp in PassUntrimmed(st, cands, now).active
    ensures var rec := PassUntrimmed(st, cands, now).active[fp]; rec.lastSeen == now && rec.data == cands[k].data
  {
    var p := ConsiderAll(st, cands, now);
    var log := Mirror(p.log, IdsOf(p.active, p.active.Keys - Fingerprints(cands)), now);
    PassKeys(st, cands, now);
    assert cands[k].fingerprint in Fingerprints(cands);
    ConsideredData(st, cands, now, fp, k);
    if fp in p.fired {
      var i := p.fired[fp];
      assert log[i].lastSeen == p.log[i].lastSeen && log[i].data == p.log[i].data;
    }
  }

  /** Where a fingerprint is first seen. */
  ghost predicate FirstOf(cands: seq<Candidate>, fp: string, k: int) {
    0 <= k < |cands| && cands[k].fingerprint == fp && forall j :: 0 <= j < k ==> cands[j].fingerprint != fp
  }

  lemma FrontHas(cands: seq<Candidate>, fp: string, k: int)
    requires FirstOf(cands, fp, k)
    ensures k < |cands| - 1 ==> fp in Fingerprints(cands[..|cands| - 1])
  {
    if k < |cands| - 1 { assert cands[..|cands| - 1][k].fingerprint == fp; }
  }

  /** What is fired comes in the order in which it is first seen. */
  lemma {:induction false} FiredInOrder(st: State, cands: seq<Candidate>, now: int, i: nat, j: nat, a: int, b: int)
    requires i < j < |ConsiderAll(st, cands, now).order|
    requires FirstOf(cands, ConsiderAll(st, cands, now).order[i], a)
    requires FirstOf(cands, ConsiderAll(st, cands, now).order[j], b)
    ensures a < b
  {
    var front := cands[..|cands| - 1];
    var order, before := ConsiderAll(st, cands, now).order, ConsiderAll(st, front, now).order;
    ConsideredOrder(st, front, now);
    assert i < |before| && order[i] == before[i] && before[i] in Fingerprints(front);
    assert a < |front|;
    if j < |before| {
      assert order[j] == before[j] && before[j] in Fingerprints(front);
      assert b < |front|;
      FiredInOrder(st, front, now, i, j, a, b);
    } else {
      ConsideredKeys(st, front, now);
      FrontHas(cands, order[j], b);
    }
  }

  // ---- Acknowledging -----------------------------------------------------------

  /** The same record but for the flag, which is set when it was or when `now` says so. */
  ghost predicate Flagged(before: Alert, after: Alert, now: bool) {
    && (after.acknowledged <==> before.acknowledged || now)
    && after.fingerprint == before.fingerprint && after.data == before.data && after.id == before.id
    && after.firstSeen == before.firstSeen && after.lastSeen == before.lastSeen
    && after.status == before.status && after.resolvedAt == before.resolvedAt
  }

  /** Acknowledging an id flags the records and entries that have it, and nothing else. */
  lemma AcknowledgeMeans(st: State, id: nat)
    ensures var after := AcknowledgeOne(st, id);
            && after.active.Keys == st.active.Keys && |after.log| == |st.log|
            && (forall fp :: fp in st.active ==> Flagged(st.active[fp], after.active[fp], st.active[fp].id == id))
            && (forall i :: 0 <= i < |st.log| ==> Flagged(st.log[i], after.log[i], st.log[i].id == id))
  {
  }

  /** Acknowledging all leaves no active record unread; the entries flagged are those whose
      id an unread record had. */
  lemma AcknowledgeAllMeans(st: State)
    ensures var after := AcknowledgeEvery(st);
            && after.active.Keys == st.active.Keys && |after.log| == |st.log|
            && (forall fp :: fp in st.active ==> Flagged(st.active[fp], after.active[fp], true))
            && (forall i :: 0 <= i < |st.log| ==>
                  Flagged(st.log[i], after.log[i],
                          exists fp :: fp in st.active && !st.active[fp].acknowledged
                                       && st.active[fp].id == st.log[i].id))
            && Unread(after.active) == {}
  {
    var after := AcknowledgeEvery(st);
    forall i | 0 <= i < |st.log|
      ensures Flagged(st.log[i], after.log[i],
                      exists fp :: fp in st.active && !st.active[fp].acknowledged && st.active[fp].id == st.log[i].id)
    {
      UnreadIs(st.active, st.log[i].id);
    }
  }

  lemma UnreadIs(active: map<string, Alert>, id: nat)
    ensures id in Unread(active) <==> exists fp :: fp in active && !active[fp].acknowledged && active[fp].id == id
  {
  }

  /** Since the episode that is going on began, its id was acknowledged, or everything was. */
  function Heard(ops: seq<Op>, fp: string, cap: nat): bool {
    if ops == [] then false
    else
      var front := ops[..|ops| - 1];
      match ops[|ops| - 1]
      case Pass(cands, _) => Present(front, fp) && Heard(front, fp, cap)
      case OneOff(_, _) => Heard(front, fp, cap)
      case Ack(id) => Heard(front, fp, cap) || (Present(front, fp) && HasId(Run(front, cap), fp, id))
      case AckAll => Heard(front, fp, cap) || Present(front, fp)
  }

  predicate HasId(st: State, fp: string, id: nat) {
    fp in st.active && st.active[fp].id == id
  }

  /** Over any run, past the cap or not: an active record is acknowledged exactly when an
      acknowledgement of its id, or of everything, came after its episode began. */
  lemma {:induction false} AcknowledgedExactly(ops: seq<Op>, fp: string, cap: nat)
    requires fp in Run(ops, cap).active
    ensures Run(ops, cap).active[fp].acknowledged <==> Heard(ops, fp, cap)
  {
    if ops != [] {
      var front, op := ops[..|ops| - 1], ops[|ops| - 1];
      var st := Run(front, cap);
      OneFirePerEpisode(front, fp, cap);
      if fp in st.active { AcknowledgedExactly(front, fp, cap); }
      match op
      case Pass(cands, now) => PassKeepsFlag(st, cands, now, fp);
      case OneOff(_, _) =>
      case Ack(id) => AcknowledgeMeans(st, id);
      case AckAll => AcknowledgeAllMeans(st);
    }
  }

  /** A pass leaves the flag of what was active, and fires the rest unread. */
  lemma PassKeepsFlag(st: State, cands: seq<Candidate>, now: int, fp: string)
    requires fp in PassUntrimmed(st, cands, now).active
    ensures PassUntrimmed(st, cands, now).active[fp].acknowledged <==> fp in st.active && st.active[fp].acknowledged
  {
    var p := ConsiderAll(st, cands, now);
    var log := Mirror(p.log, IdsOf(p.active, p.active.Keys - Fingerprints(cands)), now);
    ConsideredFlag(st, cands, now, fp);
    if fp in p.fired { assert log[p.fired[fp]].acknowledged == p.log[p.fired[fp]].acknowledged; }
  }

  lemma {:induction false} ConsideredFlag(st: State, cands: seq<Candidate>, now: int, fp: string)
    requires fp in ConsiderAll(st, cands, now).active
    ensures ConsiderAll(st, cands, now).active[fp].acknowledged <==> fp in st.active && st.active[fp].acknowledged
  {
    if cands != [] {
      var front := cands[..|cands| - 1];
      ConsideredKeys(st, front, now);
      if fp in ConsiderAll(st, front, now).active {
        ConsideredFlag(st, front, now, fp);
      }
    }
  }

  /** A one-off event is logged as such, unread, under the next id, and is never active. */
  lemma EventMeans(st: State, c: Candidate, at: int)
    ensures var after := EventUntrimmed(st, c, at);
            && after.active == st.active && |after.log| == |st.log| + 1 && after.log[..|st.log|] == st.log
            && after.log[|st.log|] == Alert(c.fingerprint, c.data, |st.log| + 1, at, at, Event, false, None)
  {
  }

  // ---- The log and the active set agree ----------------------------------------

  /** The entry that stands for an active record. */
  predicate Matches(a: Alert, e: Alert) {
    e.fingerprint == a.fingerprint && e.status == a.status == Active && e.acknowledged == a.acknowledged
    && e.firstSeen == a.firstSeen && e.id == a.id
  }

  predicate RecordOk(st: State, fp: string)
    requires fp in st.active
  {
    var a := st.active[fp];
    a.fingerprint == fp && 1 <= a.id <= |st.log| && Matches(a, st.log[a.id - 1])
  }

  predicate EntryOk(st: State, i: nat)
    requires i < |st.log|
  {
    var e := st.log[i];
    e.id == i + 1 && (e.status == Active ==> e.fingerprint in st.active && st.active[e.fingerprint].id == i + 1)
  }

  /** Ids count up from 1; every active record has its entry, and every entry that reads
      active has its record. */
  ghost predicate Agree(st: State) {
    && (forall fp :: fp in st.active ==> RecordOk(st, fp))
    && (forall i :: 0 <= i < |st.log| ==> EntryOk(st, i))
  }

  /** Under agreement, an active record and the entry with its id determine each other. */
  lemma IdOwner(st: State, fp: string, i: nat)
    requires Agree(st) && fp in st.active && i < |st.log|
    ensures st.active[fp].id == i + 1 <==> st.log[i].status == Active && st.log[i].fingerprint == fp
  {
    assert RecordOk(st, fp) && EntryOk(st, i);
  }

  lemma RefreshAgrees(p: Progress, c: Candidate, now: int)
    requires Shared(p) && Agree(State(p.active, p.log)) && c.fingerprint in p.active
    ensures var q := Consider(p, c, now); Agree(State(q.active, q.log)) && |q.log| == |p.log|
  {
    var st, q := State(p.active, p.log), Consider(p, c, now);
    var next, fp := State(q.active, q.log), c.fingerprint;
    var d := p.active[fp].id - 1;
    assert RecordOk(st, fp);
    if fp in p.fired {
      assert EntryOk(st, p.fired[fp]);
      assert p.fired[fp] == d;
    }
    forall x | x in next.active ensures RecordOk(next, x) {
      assert RecordOk(st, x);
    }
    forall i | 0 <= i < |next.log| ensures EntryOk(next, i) {
      assert EntryOk(st, i);
    }
  }

  lemma FireAgrees(p: Progress, c: Candidate, now: int)
    requires Shared(p) && Agree(State(p.active, p.log)) && c.fingerprint !in p.active
    ensures var q := Consider(p, c, now); Agree(State(q.active, q.log)) && |q.log| == |p.log| + 1
  {
    var st, q := State(p.active, p.log), Consider(p, c, now);
    var next := State(q.active, q.log);
    forall x | x in next.active ensures RecordOk(next, x) {
      if x in st.active { assert RecordOk(st, x); }
    }
    forall i | 0 <= i < |next.log| ensures EntryOk(next, i) {
      if i < |st.log| { assert EntryOk(st, i); }
    }
  }

  lemma {:induction false} ConsideredAgree(st: State, cands: seq<Candidate>, now: int)
    requires Agree(st)
    ensures var p := ConsiderAll(st, cands, now);
            Agree(State(p.active, p.log)) && |p.log| == |st.log| + |p.order|
  {
    if cands != [] {
      var front, c := cands[..|cands| - 1], cands[|cands| - 1];
      ConsideredAgree(st, front, now);
      var p := ConsiderAll(st, front, now);
      if c.fingerprint in p.active {
        RefreshAgrees(p, c, now);
      } else {
        FireAgrees(p, c, now);
      }
    }
  }

  /** Ids run in order, so an entry is the first with its id. */
  lemma EntryIsFirst(st: State, i: nat)
    requires Agree(st) && i < |st.log|
    ensures st.log[i].id == i + 1 && IsFirst(st.log, i)
  {
    assert EntryOk(st, i);
    forall k | 0 <= k < i ensures st.log[k].id != st.log[i].id { assert EntryOk(st, k); }
  }

  /** An id goes exactly when its entry is of an active condition that goes. */
  lemma IdGoes(st: State, gone: set<string>, i: nat)
    requires Agree(st) && gone <= st.active.Keys && i < |st.log|
    ensures i + 1 in IdsOf(st.active, gone) <==> st.log[i].status == Active && st.log[i].fingerprint in gone
  {
    assert EntryOk(st, i);
    if i + 1 in IdsOf(st.active, gone) {
      var fp :| fp in gone && fp in st.active && st.active[fp].id == i + 1;
      IdOwner(st, fp, i);
    }
  }

  /** Resolution marks exactly the entries of the records it removes. */
  lemma ResolveMarks(st: State, gone: set<string>, now: int, i: nat)
    requires Agree(st) && gone <= st.active.Keys && i < |st.log|
    ensures Mirror(st.log, IdsOf(st.active, gone), now)[i]
            == if st.log[i].status == Active && st.log[i].fingerprint in gone then Ended(st.log[i], now) else st.log[i]
  {
    EntryIsFirst(st, i);
    IdGoes(st, gone, i);
  }

  lemma ResolvedRecordOk(st: State, gone: set<string>, now: int, fp: string)
    requires Agree(st) && gone <= st.active.Keys && fp in st.active && fp !in gone
    ensures RecordOk(State(Keep(st.active, gone), Mirror(st.log, IdsOf(st.active, gone), now)), fp)
  {
    assert RecordOk(st, fp);
    ResolveMarks(st, gone, now, st.active[fp].id - 1);
  }

  lemma ResolvedEntryOk(st: State, gone: set<string>, now: int, i: nat)
    requires Agree(st) && gone <= st.active.Keys && i < |st.log|
    ensures EntryOk(State(Keep(st.active, gone), Mirror(st.log, IdsOf(st.active, gone), now)), i)
  {
    assert EntryOk(st, i);
    ResolveMarks(st, gone, now, i);
  }

  lemma ResolveAgrees(st: State, gone: set<string>, now: int)
    requires Agree(st) && gone <= st.active.Keys
    ensures Agree(State(Keep(st.active, gone), Mirror(st.log, IdsOf(st.active, gone), now)))
  {
    var next := State(Keep(st.active, gone), Mirror(st.log, IdsOf(st.active, gone), now));
    forall fp | fp in next.active ensures RecordOk(next, fp) { ResolvedRecordOk(st, gone, now, fp); }
    forall i | 0 <= i < |next.log| ensures EntryOk(next, i) { ResolvedEntryOk(st, gone, now, i); }
  }

  /** Under agreement no entry of a record that stays is marked. */
  lemma RelinkSame(p: Progress, gone: set<string>, now: int)
    requires Shared(p) && Agree(State(p.active, p.log)) && gone <= p.active.Keys
    ensures Relink(Keep(p.active, gone), p.fired, Mirror(p.log, IdsOf(p.active, gone), now)) == Keep(p.active, gone)
  {
    var st := State(p.active, p.log);
    forall fp | fp in Keep(p.active, gone) && fp in p.fired
      ensures Mirror(p.log, IdsOf(p.active, gone), now)[p.fired[fp]] == p.active[fp]
    {
      assert RecordOk(st, fp);
      ResolveMarks(st, gone, now, p.fired[fp]);
    }
  }

  lemma PassIs(st: State, cands: seq<Candidate>, now: int)
    requires Agree(st)
    ensures var p := ConsiderAll(st, cands, now);
            var gone := p.active.Keys - Fingerprints(cands);
            PassUntrimmed(st, cands, now) == State(Keep(p.active, gone), Mirror(p.log, IdsOf(p.active, gone), now))
  {
    ConsideredAgree(st, cands, now);
    var p := ConsiderAll(st, cands, now);
    RelinkSame(p, p.active.Keys - Fingerprints(cands), now);
  }

  lemma PassAgrees(st: State, cands: seq<Candidate>, now: int)
    requires Agree(st)
    ensures Agree(PassUntrimmed(st, cands, now))
  {
    ConsideredAgree(st, cands, now);
    PassIs(st, cands, now);
    var p := ConsiderAll(st, cands, now);
    ResolveAgrees(State(p.active, p.log), p.active.Keys - Fingerprints(cands), now);
  }

  lemma EventAgrees(st: State, c: Candidate, at: int)
    requires Agree(st)
    ensures Agree(EventUntrimmed(st, c, at))
  {
    var next := EventUntrimmed(st, c, at);
    forall fp | fp in next.active ensures RecordOk(next, fp) { assert RecordOk(st, fp); }
    forall i | 0 <= i < |next.log| ensures EntryOk(next, i) {
      if i < |st.log| { assert EntryOk(st, i); }
    }
  }

  lemma SeeAgrees(st: State, id: nat)
    requires Agree(st)
    ensures Agree(AcknowledgeOne(st, id))
  {
    var next := AcknowledgeOne(st, id);
    forall fp | fp in next.active ensures RecordOk(next, fp) { assert RecordOk(st, fp); }
    forall i | 0 <= i < |next.log| ensures EntryOk(next, i) { assert EntryOk(st, i); }
  }

  lemma SeeAllAgrees(st: State)
    requires Agree(st)
    ensures Agree(AcknowledgeEvery(st))
  {
    var next := AcknowledgeEvery(st);
    UnreadHas(st.active);
    forall fp | fp in next.active ensures RecordOk(next, fp) {
      assert RecordOk(st, fp);
      var d := st.active[fp].id - 1;
      if st.active[fp].id in Unread(st.active) {
        var other :| other in st.active && !st.active[other].acknowledged && st.active[other].id == st.active[fp].id;
        IdOwner(st, other, d);
        IdOwner(st, fp, d);
      }
    }
    forall i | 0 <= i < |next.log| ensures EntryOk(next, i) { assert EntryOk(st, i); }
  }

  lemma StepAgrees(st: State, op: Op)
    requires Agree(st)
    ensures Agree(Untrimmed(st, op))
  {
    match op
    case Pass(cands, now) => PassAgrees(st, cands, now);
    case OneOff(c, at) => EventAgrees(st, c, at);
    case Ack(id) => SeeAgrees(st, id);
    case AckAll => SeeAllAgrees(st);
  }

  // ---- While the log has never been full ---------------------------------------

  /** How many records one operation logs. */
  function Logs(st: State, op: Op): nat {
    if op.OneOff? then 1 else |FiredBy(st, op)|
  }

  /** How many records have ever been logged. */
  function EverLogged(ops: seq<Op>, cap: nat): nat {
    if ops == [] then 0
    else EverLogged(ops[..|ops| - 1], cap) + Logs(Run(ops[..|ops| - 1], cap), ops[|ops| - 1])
  }

  lemma RunSnoc(ops: seq<Op>, op: Op, cap: nat)
    ensures Run(ops + [op], cap) == Step(Run(ops, cap), op, cap)
    ensures EverLogged(ops + [op], cap) == EverLogged(ops, cap) + Logs(Run(ops, cap), op)
  {
    assert (ops + [op])[..|ops|] == ops;
  }

  lemma {:induction false} ConsideredLog(st: State, cands: seq<Candidate>, now: int)
    ensures Extends(st.log, ConsiderAll(st, cands, now))
  {
    if cands != [] {
      var front, c := cands[..|cands| - 1], cands[|cands| - 1];
      ConsideredLog(st, front, now);
      ConsiderExtends(st.log, ConsiderAll(st, front, now), c, now);
    }
  }

  /** The log so far is as it was, and is followed by the records fired, numbered on. */
  ghost predicate Extends(log: seq<Alert>, p: Progress)
    requires Shared(p)
  {
    && |p.log| == |log| + |p.order|
    && (forall i :: |log| <= i < |p.log| ==> p.log[i].id == i + 1)
    && (forall i :: 0 <= i < |log| ==> p.log[i] == log[i])
    && (forall fp :: fp in p.fired ==> p.fired[fp] >= |log| && p.active[fp].id == p.fired[fp] + 1)
  }

  lemma ConsiderExtends(log: seq<Alert>, p: Progress, c: Candidate, now: int)
    requires Shared(p) && Extends(log, p)
    ensures Extends(log, Consider(p, c, now))
  {
    if c.fingerprint in p.active { RefreshExtends(log, p, c, now); } else { FireExtends(log, p, c, now); }
  }

  lemma RefreshExtends(log: seq<Alert>, p: Progress, c: Candidate, now: int)
    requires Shared(p) && Extends(log, p) && c.fingerprint in p.active
    ensures Extends(log, Consider(p, c, now))
  {
  }

  lemma FireExtends(log: seq<Alert>, p: Progress, c: Candidate, now: int)
    requires Shared(p) && Extends(log, p) && c.fingerprint !in p.active
    ensures Extends(log, Consider(p, c, now))
  {
  }

  /** Every operation keeps the ids already in the log and numbers new entries by length. */
  lemma StepLog(st: State, op: Op)
    ensures var log := Untrimmed(st, op).log;
            && |log| == |st.log| + Logs(st, op)
            && (forall i :: 0 <= i < |st.log| ==> log[i].id == st.log[i].id)
            && (forall i :: |st.log| <= i < |log| ==> log[i].id == i + 1)
  {
    if op.Pass? { ConsideredLog(st, op.cands, op.now); }
  }

  lemma StepLength(st: State, op: Op, cap: nat)
    requires cap > 0 && |st.log| <= cap
    ensures var n := |st.log| + Logs(st, op);
            && |Step(st, op, cap).log| == (if n <= cap then n else cap)
            && (n > cap ==> Step(st, op, cap).log[cap - 1].id == n)
            && (Logs(st, op) == 0 && |st.log| == cap ==> Step(st, op, cap).log[cap - 1].id == st.log[cap - 1].id)
  {
    StepLog(st, op);
  }

  lemma {:induction false} LogLength(ops: seq<Op>, cap: nat)
    requires cap > 0
    ensures |Run(ops, cap).log| == if EverLogged(ops, cap) <= cap then EverLogged(ops, cap) else cap
    ensures EverLogged(ops, cap) > cap ==> Run(ops, cap).log[cap - 1].id > cap
  {
    if ops != [] {
      var front := ops[..|ops| - 1];
      LogLength(front, cap);
      StepLength(Run(front, cap), ops[|ops| - 1], cap);
    }
  }

  /** Until more than `cap` records have ever been logged, nothing has been dropped: ids
      run 1..n in order, and the log and the active set agree. */
  lemma {:induction false} LogAgreesWithActive(ops: seq<Op>, cap: nat)
    requires cap > 0 && EverLogged(ops, cap) <= cap
    ensures Agree(Run(ops, cap)) && |Run(ops, cap).log| == EverLogged(ops, cap)
  {
    if ops != [] {
      var front := ops[..|ops| - 1];
      LogAgreesWithActive(front, cap);
      StepAgrees(Run(front, cap), ops[|ops| - 1]);
      StepLog(Run(front, cap), ops[|ops| - 1]);
    }
  }

  /** The ids run 1..n exactly as long as the cap has never been passed. */
  lemma IdsRunExactlyUntilCap(ops: seq<Op>, cap: nat)
    requires cap > 0
    ensures (forall i :: 0 <= i < |Run(ops, cap).log| ==> Run(ops, cap).log[i].id == i + 1)
            <==> EverLogged(ops, cap) <= cap
  {
    LogLength(ops, cap);
    var st := Run(ops, cap);
    if EverLogged(ops, cap) <= cap {
      LogAgreesWithActive(ops, cap);
      forall i | 0 <= i < |st.log| ensures st.log[i].id == i + 1 { assert EntryOk(st, i); }
    }
  }

  /** A pass marks the entry of every record it resolves, while the log is whole. */
  lemma ResolvedEntriesAreMarked(ops: seq<Op>, cap: nat, cands: seq<Candidate>, now: int, fp: string)
    requires cap > 0 && EverLogged(ops + [Pass(cands, now)], cap) <= cap
    requires fp in Run(ops, cap).active && fp !in Fingerprints(cands)
    ensures var was, st := Run(ops, cap), Run(ops + [Pass(cands, now)], cap);
            var id := was.active[fp].id;
            && fp !in st.active && 1 <= id <= |st.log|
            && st.log[id - 1].fingerprint == fp && st.log[id - 1].status == Resolved
            && st.log[id - 1].resolvedAt == Some(now)
  {
    var was := Run(ops, cap);
    RunSnoc(ops, Pass(cands, now), cap);
    LogAgreesWithActive(ops, cap);
    StepLog(was, Pass(cands, now));
    PassMarks(was, cands, now, fp);
  }

  lemma PassMarks(was: State, cands: seq<Candidate>, now: int, fp: string)
    requires Agree(was) && fp in was.active && fp !in Fingerprints(cands)
    ensures var st, id := PassUntrimmed(was, cands, now), was.active[fp].id;
            && fp !in st.active && 1 <= id <= |st.log|
            && st.log[id - 1].fingerprint == fp && st.log[id - 1].status == Resolved
            && st.log[id - 1].resolvedAt == Some(now)
  {
    var p := ConsiderAll(was, cands, now);
    var mid := State(p.active, p.log);
    var gone := p.active.Keys - Fingerprints(cands);
    assert Agree(mid) by { ConsideredAgree(was, cands, now); }
    ConsideredOthers(was, cands, now, fp);
    GoneIsMarked(mid, gone, now, fp);
    PassIs(was, cands, now);
  }

  lemma GoneIsMarked(st: State, gone: set<string>, now: int, fp: string)
    requires Agree(st) && gone <= st.active.Keys && fp in gone
    ensures var id, log := st.active[fp].id, Mirror(st.log, IdsOf(st.active, gone), now);
            && fp !in Keep(st.active, gone) && 1 <= id <= |log|
            && log[id - 1].fingerprint == fp && log[id - 1].status == Resolved && log[id - 1].resolvedAt == Some(now)
  {
    assert RecordOk(st, fp);
    var i: nat := st.active[fp].id - 1;
    assert st.log[i].status == Active && st.log[i].fingerprint == fp;
    ResolveMarks(st, gone, now, i);
  }

  /** A pass leaves a record it does not see as it was. */
  lemma {:induction false} ConsideredOthers(st: State, cands: seq<Candidate>, now: int, fp: string)
    requires fp in st.active && fp !in Fingerprints(cands)
    ensures fp in ConsiderAll(st, cands, now).active && ConsiderAll(st, cands, now).active[fp] == st.active[fp]
  {
    if cands != [] {
      var front, c := cands[..|cands| - 1], cands[|cands| - 1];
      assert cands == front + [c];
      FingerprintsSnoc(front, c);
      ConsideredOthers(st, front, now, fp);
    }
  }

  // ---- Past the cap ------------------------------------------------------------

  /** With a full log, two one-off events in a row get the same id. */
  lemma IdsRepeatPastCap(st: State, c: Candidate, d: Candidate, now: int, cap: nat)
    requires cap >= 2 && |st.log| == cap
    ensures var log := Step(Step(st, OneOff(c, now), cap), OneOff(d, now), cap).log;
            |log| == cap && log[cap - 2].id == cap + 1 == log[cap - 1].id
  {
    var x := Fresh(c, cap + 1, now).(status := Event);
    var y := Fresh(d, cap + 1, now).(status := Event);
    TrimOne(st.log, x, cap);
    TrimOne(st.log[1..] + [x], y, cap);
  }

  lemma OneCandidate(st: State, a: Candidate, now: int)
    ensures Fingerprints([a]) == {a.fingerprint}
    ensures ConsiderAll(st, [a], now) == Consider(Progress(st.active, st.log, map[], []), a, now)
  {
    assert [a][0] == a && [a][..0] == [];
    assert ConsiderAll(st, [], now) == Progress(st.active, st.log, map[], []);
  }

  lemma TwoCandidates(st: State, a: Candidate, b: Candidate, now: int)
    ensures Fingerprints([a, b]) == {a.fingerprint, b.fingerprint}
    ensures ConsiderAll(st, [a, b], now) == Consider(ConsiderAll(st, [a], now), b, now)
  {
    assert [a, b][..1] == [a] && [a, b] == [a] + [b];
    OneCandidate(st, a, now);
    FingerprintsSnoc([a], b);
  }

  /** Nothing left the active set. */
  lemma NothingGone(st: State, cands: seq<Candidate>, now: int)
    requires ConsiderAll(st, cands, now).active.Keys <= Fingerprints(cands)
    ensures var p := ConsiderAll(st, cands, now); PassUntrimmed(st, cands, now) == State(p.active, p.log)
  {
    var p := ConsiderAll(st, cands, now);
    assert p.active.Keys - Fingerprints(cands) == {};
    NoneResolved(p.active, p.log, now);
    SharedIsLinked(p);
  }

  lemma SharedIsLinked(p: Progress)
    requires Shared(p)
    ensures Relink(p.active, p.fired, p.log) == p.active
  {
  }

  lemma TrimOne(log: seq<Alert>, rec: Alert, cap: nat)
    requires |log| == cap > 0
    ensures Trim(log + [rec], cap) == log[1..] + [rec]
  {
  }

  lemma FirstFires(st: State, a: Candidate, now: int, cap: nat)
    requires cap >= 2 && |st.log| == cap && st.active == map[]
    ensures Step(st, Pass([a], now), cap)
            == State(map[a.fingerprint := Fresh(a, cap + 1, now)], st.log[1..] + [Fresh(a, cap + 1, now)])
  {
    OneCandidate(st, a, now);
    var p := ConsiderAll(st, [a], now);
    assert p.active == map[a.fingerprint := Fresh(a, cap + 1, now)];
    assert p.log == st.log + [Fresh(a, cap + 1, now)];
    NothingGone(st, [a], now);
    TrimOne(st.log, Fresh(a, cap + 1, now), cap);
  }

  lemma SecondFires(one: State, a: Candidate, b: Candidate, now: int, cap: nat, recA: Alert)
    requires cap >= 2 && |one.log| == cap && a.fingerprint != b.fingerprint
    requires one.active == map[a.fingerprint := recA]
    ensures Step(one, Pass([a, b], now), cap)
            == State(map[a.fingerprint := recA.(lastSeen := now, data := a.data),
                         b.fingerprint := Fresh(b, cap + 1, now)],
                     one.log[1..] + [Fresh(b, cap + 1, now)])
  {
    OneCandidate(one, a, now);
    TwoCandidates(one, a, b, now);
    var p := ConsiderAll(one, [a, b], now);
    assert p.log == one.log + [Fresh(b, cap + 1, now)];
    assert p.active
           == map[a.fingerprint := recA.(lastSeen := now, data := a.data), b.fingerprint := Fresh(b, cap + 1, now)];
    NothingGone(one, [a, b], now);
    TrimOne(one.log, Fresh(b, cap + 1, now), cap);
  }

  lemma ThirdResolves(two: State, a: Candidate, b: Candidate, now: int, cap: nat, recA: Alert, recB: Alert)
    requires |two.log| == cap && a.fingerprint != b.fingerprint
    requires two.active == map[a.fingerprint := recA, b.fingerprint := recB]
    ensures Step(two, Pass([a], now), cap)
            == State(map[a.fingerprint := recA.(lastSeen := now, data := a.data)], Marked(two.log, recB.id, now))
  {
    var recA' := recA.(lastSeen := now, data := a.data);
    ThirdPass(two, a, b, now, recA, recB);
    WithinCap(two, [a], now, cap, State(map[a.fingerprint := recA'], Marked(two.log, recB.id, now)));
  }

  lemma MarkedAt(log: seq<Alert>, id: nat, now: int, i: nat)
    requires i < |log| && log[i].id == id && forall k :: 0 <= k < i ==> log[k].id != id
    ensures Marked(log, id, now) == log[i := Ended(log[i], now)]
  {
  }

  lemma WithinCap(st: State, cands: seq<Candidate>, now: int, cap: nat, next: State)
    requires PassUntrimmed(st, cands, now) == next && |next.log| <= cap
    ensures Step(st, Pass(cands, now), cap) == next
  {
  }

  lemma ThirdPass(two: State, a: Candidate, b: Candidate, now: int, recA: Alert, recB: Alert)
    requires a.fingerprint != b.fingerprint
    requires two.active == map[a.fingerprint := recA, b.fingerprint := recB]
    ensures PassUntrimmed(two, [a], now)
            == State(map[a.fingerprint := recA.(lastSeen := now, data := a.data)], Marked(two.log, recB.id, now))
  {
    var recA' := recA.(lastSeen := now, data := a.data);
    ThirdConsiders(two, a, b, now, recA, recB);
    OneLeaves(a.fingerprint, b.fingerprint, recA', recB, two.log, now);
    OneCandidate(two, a, now);
    assert {a.fingerprint, b.fingerprint} - {a.fingerprint} == {b.fingerprint};
    assert Relink(map[a.fingerprint := recA'], map[], Marked(two.log, recB.id, now)) == map[a.fingerprint := recA'];
  }

  lemma ThirdConsiders(two: State, a: Candidate, b: Candidate, now: int, recA: Alert, recB: Alert)
    requires a.fingerprint != b.fingerprint
    requires two.active == map[a.fingerprint := recA, b.fingerprint := recB]
    ensures ConsiderAll(two, [a], now)
            == Progress(map[a.fingerprint := recA.(lastSeen := now, data := a.data), b.fingerprint := recB],
                        two.log, map[], [])
  {
    OneCandidate(two, a, now);
  }

  lemma OneLeaves(x: string, y: string, recX: Alert, recY: Alert, log: seq<Alert>, now: int)
    requires x != y
    ensures var active := map[x := recX, y := recY];
            && active.Keys == {x, y} && Keep(active, {y}) == map[x := recX]
            && Mirror(log, IdsOf(active, {y}), now) == Marked(log, recY.id, now)
  {
    var active := map[x := recX, y := recY];
    NoneResolved(active, log, now);
    assert {} + {y} == {y};
    ResolveStep(active, log, {}, y, now);
  }

  /** With a full log, agreement breaks. Condition a fires, then b; both get the same id.
      When b clears, the log marks a's entry resolved while a is still active. */
  lemma AgreementBreaksPastCap(st: State, a: Candidate, b: Candidate, cap: nat)
    requires cap >= 2 && |st.log| == cap && st.active == map[] && a.fingerprint != b.fingerprint
    requires forall i :: 0 <= i < |st.log| ==> st.log[i].id <= cap
    ensures var three := Step(Step(Step(st, Pass([a], 1), cap), Pass([a, b], 2), cap), Pass([a], 3), cap);
            && |three.log| == cap && three.active.Keys == {a.fingerprint}
            && three.active[a.fingerprint].status == Active && three.active[a.fingerprint].id == cap + 1
            && three.log[cap - 2].id == cap + 1 && three.log[cap - 2].fingerprint == a.fingerprint
            && three.log[cap - 2].status == Resolved
            && three.log[cap - 1].fingerprint == b.fingerprint && three.log[cap - 1].status == Active
  {
    var recA, recB := Fresh(a, cap + 1, 1), Fresh(b, cap + 1, 2);
    FirstFires(st, a, 1, cap);
    var one := State(map[a.fingerprint := recA], st.log[1..] + [recA]);
    assert Step(st, Pass([a], 1), cap) == one && |one.log| == cap;
    SecondFires(one, a, b, 2, cap, recA);
    var recA' := recA.(lastSeen := 2, data := a.data);
    var two := State(map[a.fingerprint := recA', b.fingerprint := recB], one.log[1..] + [recB]);
    assert Step(one, Pass([a, b], 2), cap) == two && |two.log| == cap;
    ThirdResolves(two, a, b, 3, cap, recA', recB);
    TwoNewest(st.log, recA, recB, cap, 3);
  }

  /** Of two new entries with one id, the earlier is marked. */
  lemma TwoNewest(log: seq<Alert>, x: Alert, y: Alert, cap: nat, now: int)
    requires |log| == cap >= 2 && x.id == y.id && forall i :: 0 <= i < |log| ==> log[i].id != x.id
    ensures var r := (log[1..] + [x])[1..] + [y];
            && |r| == cap && r[cap - 2] == x && r[cap - 1] == y
            && Marked(r, y.id, now) == r[cap - 2 := Ended(x, now)]
  {
    var r := (log[1..] + [x])[1..] + [y];
    assert r == log[2..] + [x, y];
    MarkedAt(r, y.id, now, cap - 2);
  }

  // ---- A run that gets there ---------------------------------------------------

  /** n one-off events, one after the other. */
  function Events(c: Candidate, n: nat): seq<Op> {
    if n == 0 then [] else Events(c, n - 1) + [OneOff(c, 0)]
  }

  /** Nothing is active, and n records have been logged. */
  ghost predicate Quiet(ops: seq<Op>, cap: nat, n: nat) {
    Run(ops, cap).active == map[] && EverLogged(ops, cap) == n
  }

  lemma QuietSnoc(ops: seq<Op>, c: Candidate, cap: nat, n: nat)
    requires Quiet(ops, cap, n)
    ensures Quiet(ops + [OneOff(c, 0)], cap, n + 1)
  {
    RunSnoc(ops, OneOff(c, 0), cap);
    EventStep(Run(ops, cap), c, cap);
  }

  lemma EventStep(st: State, c: Candidate, cap: nat)
    ensures Step(st, OneOff(c, 0), cap).active == st.active && Logs(st, OneOff(c, 0)) == 1
  {
  }

  lemma {:induction false} EventsFill(c: Candidate, n: nat, cap: nat)
    requires n <= cap
    ensures Quiet(Events(c, n), cap, n)
  {
    if n > 0 {
      var m: nat := n - 1;
      var ops := Events(c, m);
      EventsFill(c, m, cap);
      QuietSnoc(ops, c, cap, m);
      assert n == m + 1 && Events(c, n) == ops + [OneOff(c, 0)];
    }
  }

  /** As many events as the cap fill the log, with ids 1 to the cap and nothing active. */
  lemma FullLog(c: Candidate, cap: nat)
    requires cap > 0
    ensures var st := Run(Events(c, cap), cap);
            st.active == map[] && |st.log| == cap && forall i :: 0 <= i < cap ==> st.log[i].id == i + 1
  {
    EventsFill(c, cap, cap);
    LogLength(Events(c, cap), cap);
    IdsRunExactlyUntilCap(Events(c, cap), cap);
  }

  /** From an empty store: a full log of events, a fires, b fires, b clears. The log says that
      a, which is still active, is resolved, and that b, which is not, is active. */
  lemma RunBreaksAgreement(c: Candidate, a: Candidate, b: Candidate, cap: nat)
    requires cap >= 2 && a.fingerprint != b.fingerprint
    ensures var st := Run(Events(c, cap) + [Pass([a], 1)] + [Pass([a, b], 2)] + [Pass([a], 3)], cap);
            && st.active.Keys == {a.fingerprint} && st.active[a.fingerprint].status == Active
            && |st.log| == cap && st.log[cap - 2].id == st.active[a.fingerprint].id
            && st.log[cap - 2].fingerprint == a.fingerprint && st.log[cap - 2].status == Resolved
            && st.log[cap - 1].fingerprint == b.fingerprint && st.log[cap - 1].status == Active
  {
    var ops := Events(c, cap);
    FullLog(c, cap);
    RunSnoc(ops, Pass([a], 1), cap);
    RunSnoc(ops + [Pass([a], 1)], Pass([a, b], 2), cap);
    RunSnoc(ops + [Pass([a], 1)] + [Pass([a, b], 2)], Pass([a], 3), cap);
    AgreementBreaksPastCap(Run(ops, cap), a, b, cap);
  }
}
