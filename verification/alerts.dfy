/** backend/alerts.py: the active set and the capped log of the alert engine, under
    evaluator passes, one-off events and acknowledgements. */
module Alerts {
  import opened Common

  datatype Status = Active | Resolved | Event

  /** `id` is the number inside "alert_NNNN". */
  datatype Alert = Alert(
    fingerprint: string, data: string, id: nat, firstSeen: int, lastSeen: int,
    status: Status, acknowledged: bool, resolvedAt: Option<int>)

  /** What an evaluator yields for one condition that holds now. */
  datatype Candidate = Candidate(fingerprint: string, data: string)

  datatype State = State(active: map<string, Alert>, log: seq<Alert>)

  const EMPTY := State(map[], [])

  // ---- One pass ----------------------------------------------------------------

  /** A pass in progress. A record fired in this pass is one object shared by the active
      set and the log; `fired` says where in the log it sits. */
  datatype Progress = Progress(active: map<string, Alert>, log: seq<Alert>, fired: map<string, nat>, order: seq<string>)

  ghost predicate Shared(p: Progress) {
    forall fp :: fp in p.fired ==>
      && fp in p.active && p.active[fp].fingerprint == fp
      && p.fired[fp] < |p.log| && p.log[p.fired[fp]] == p.active[fp]
  }

  function Fresh(c: Candidate, id: nat, now: int): Alert {
    Alert(c.fingerprint, c.data, id, now, now, Active, false, None)
  }

  function Consider(p: Progress, c: Candidate, now: int): (q: Progress)
    requires Shared(p)
    ensures Shared(q)
  {
    var fp := c.fingerprint;
    if fp in p.active then
      var rec := p.active[fp].(lastSeen := now, data := c.data);
      p.(active := p.active[fp := rec], log := if fp in p.fired then p.log[p.fired[fp] := rec] else p.log)
    else
      var rec := Fresh(c, |p.log| + 1, now);
      Progress(p.active[fp := rec], p.log + [rec], p.fired[fp := |p.log|], p.order + [fp])
  }

  function ConsiderAll(st: State, cands: seq<Candidate>, now: int): (p: Progress)
    ensures Shared(p)
  {
    if cands == [] then Progress(st.active, st.log, map[], [])
    else Consider(ConsiderAll(st, cands[..|cands| - 1], now), cands[|cands| - 1], now)
  }

  function Fingerprints(cands: seq<Candidate>): set<string> {
    set i | 0 <= i < |cands| :: cands[i].fingerprint
  }

  function Ended(a: Alert, now: int): Alert {
    a.(status := Resolved, resolvedAt := Some(now))
  }

  /** No entry before this one has its id. */
  predicate IsFirst(log: seq<Alert>, i: nat)
    requires i < |log|
  {
    forall k :: 0 <= k < i ==> log[k].id != log[i].id
  }

  /** Mark the first entry of each of these ids. */
  function Mirror(log: seq<Alert>, ids: set<nat>, now: int): (r: seq<Alert>)
    ensures |r| == |log|
  {
    seq(|log|, i requires 0 <= i < |log| => if log[i].id in ids && IsFirst(log, i) then Ended(log[i], now) else log[i])
  }

  /** The log after the first entry with this id is marked. */
  function Marked(log: seq<Alert>, id: nat, now: int): seq<Alert> {
    Mirror(log, {id}, now)
  }

  function IdsOf(active: map<string, Alert>, fps: set<string>): set<nat> {
    set fp | fp in fps && fp in active :: active[fp].id
  }

  function Trim(log: seq<Alert>, cap: nat): seq<Alert> {
    if |log| <= cap then log else log[|log| - cap..]
  }

  function Keep(active: map<string, Alert>, gone: set<string>): map<string, Alert> {
    map fp | fp in active && fp !in gone :: active[fp]
  }

  /** What is marked on the log entry of a record fired in this pass is marked on the record. */
  function Relink(active: map<string, Alert>, fired: map<string, nat>, log: seq<Alert>): map<string, Alert> {
    map fp | fp in active :: if fp in fired && fired[fp] < |log| then log[fired[fp]] else active[fp]
  }

  /** A whole pass before the log is trimmed. */
  function PassUntrimmed(st: State, cands: seq<Candidate>, now: int): State {
    var p := ConsiderAll(st, cands, now);
    var gone := p.active.Keys - Fingerprints(cands);
    var log := Mirror(p.log, IdsOf(p.active, gone), now);
    State(Relink(Keep(p.active, gone), p.fired, log), log)
  }

  // ---- The other operations ----------------------------------------------------

  function EventUntrimmed(st: State, c: Candidate, now: int): State {
    st.(log := st.log + [Fresh(c, |st.log| + 1, now).(status := Event)])
  }

  function Seen(a: Alert): Alert {
    a.(acknowledged := true)
  }

  function SeeActive(active: map<string, Alert>, ids: set<nat>): map<string, Alert> {
    map fp | fp in active :: if active[fp].id in ids then Seen(active[fp]) else active[fp]
  }

  function SeeLog(log: seq<Alert>, ids: set<nat>): (r: seq<Alert>)
    ensures |r| == |log|
  {
    seq(|log|, i requires 0 <= i < |log| => if log[i].id in ids then Seen(log[i]) else log[i])
  }

  function Unread(active: map<string, Alert>): set<nat> {
    set fp | fp in active && !active[fp].acknowledged :: active[fp].id
  }

  predicate Known(st: State, id: nat) {
    (exists fp :: fp in st.active && st.active[fp].id == id) || (exists a :: a in st.log && a.id == id)
  }

  /** Every id in the active set and the log. */
  function IdsHeld(st: State): set<nat> {
    (set fp | fp in st.active :: st.active[fp].id) + (set i | 0 <= i < |st.log| :: st.log[i].id)
  }

  lemma KnownIsHeld(st: State, id: nat)
    ensures Known(st, id) <==> id in IdsHeld(st)
  {
  }

  function AcknowledgeOne(st: State, id: nat): State {
    State(SeeActive(st.active, {id}), SeeLog(st.log, {id}))
  }

  function FlipUnread(active: map<string, Alert>): map<string, Alert> {
    map fp | fp in active :: if active[fp].acknowledged then active[fp] else Seen(active[fp])
  }

  function AcknowledgeEvery(st: State): State {
    State(FlipUnread(st.active), SeeLog(st.log, Unread(st.active)))
  }

  // ---- The stored state --------------------------------------------------------

  class AlertStore {
    var active: map<string, Alert>
    var log: seq<Alert>
    const cap: nat

    constructor (cap: nat)
      ensures this.cap == cap && active == map[] && log == []
    {
      this.cap := cap;
      active, log := map[], [];
    }

    function View(): State
      reads this
    {
      State(active, log)
    }

    /** Evaluate, deduplicate, resolve, cap. Returns the fingerprints fired, in order. */
    method RunPass(cands: seq<Candidate>, now: int) returns (newAlerts: seq<string>)
      modifies this
      ensures View() == var st := PassUntrimmed(old(View()), cands, now); st.(log := Trim(st.log, cap))
      ensures newAlerts == ConsiderAll(old(View()), cands, now).order
    {
      ghost var before := View();
      var fired: map<string, nat> := map[];
      newAlerts := [];
      for k := 0 to |cands|
        invariant Progress(active, log, fired, newAlerts) == ConsiderAll(before, cands[..k], now)
      {
        var c := cands[k];
        ghost var p := Progress(active, log, fired, newAlerts);
        assert cands[..k + 1][..k] == cands[..k];
        assert Shared(p);
        var fp := c.fingerprint;
        if fp in active {
          var rec := active[fp].(lastSeen := now, data := c.data);
          active := active[fp := rec];
          if fp in fired {
            log := log[fired[fp] := rec];
          }
        } else {
          var rec := Fresh(c, |log| + 1, now);
          fired := fired[fp := |log|];
          active := active[fp := rec];
          log := log + [rec];
          newAlerts := newAlerts + [fp];
        }
      }
      assert cands[..|cands|] == cands;
      active, log := ResolveGone(active, log, Fingerprints(cands), now);
      active := Relink(active, fired, log);
      log := Trim(log, cap);
    }

    method RecordEvent(c: Candidate, now: int)
      modifies this
      ensures View() == var st := EventUntrimmed(old(View()), c, now); st.(log := Trim(st.log, cap))
    {
      log := Trim(log + [Fresh(c, |log| + 1, now).(status := Event)], cap);
    }

    method MarkLog(ids: set<nat>)
      modifies this`log
      ensures log == SeeLog(old(log), ids)
    {
      ghost var was := log;
      var i := 0;
      while i < |log|
        invariant 0 <= i <= |log| == |was|
        invariant forall k :: 0 <= k < i ==> log[k] == SeeLog(was, ids)[k]
        invariant forall k :: i <= k < |log| ==> log[k] == was[k]
      {
        if log[i].id in ids {
          log := log[i := Seen(log[i])];
        }
        i := i + 1;
      }
    }

    method Acknowledge(id: nat) returns (r: Result<(), string>)
      modifies this
      ensures r.Ok? <==> id in IdsHeld(old(View()))
      ensures View() == if r.Ok? then AcknowledgeOne(old(View()), id) else old(View())
    {
      KnownIsHeld(View(), id);
      if !Known(View(), id) {
        return Err("unknown alert id");
      }
      active := SeeActive(active, {id});
      MarkLog({id});
      return Ok(());
    }

    /** Returns how many ids flipped; nothing is written when none did. */
    method AcknowledgeAll() returns (flipped: set<nat>)
      modifies this
      ensures flipped == Unread(old(active))
      ensures View() == AcknowledgeEvery(old(View()))
    {
      flipped := Unread(active);
      if flipped != {} {
        active := FlipUnread(active);
        MarkLog(flipped);
      } else {
        UnreadHas(active);
        assert active == FlipUnread(active);
        assert log == SeeLog(log, {});
      }
    }
  }

  method MarkFirst(log0: seq<Alert>, id: nat, now: int) returns (log: seq<Alert>)
    ensures log == Marked(log0, id, now)
  {
    for i := 0 to |log0|
      invariant forall k :: 0 <= k < i ==> log0[k].id != id
    {
      if log0[i].id == id {
        assert forall k :: i < k < |log0| && log0[k].id == id ==> !IsFirst(log0, k);
        return log0[i := Ended(log0[i], now)];
      }
    }
    return log0;
  }

  /** Conditions that stopped firing leave the active set, and their log entries are marked. */
  method ResolveGone(active0: map<string, Alert>, log0: seq<Alert>, current: set<string>, now: int)
    returns (active: map<string, Alert>, log: seq<Alert>)
    ensures var gone := active0.Keys - current;
            active == Keep(active0, gone) && log == Mirror(log0, IdsOf(active0, gone), now)
  {
    active, log := active0, log0;
    var todo := active0.Keys - current;
    ghost var done: set<string> := {};
    NoneResolved(active0, log0, now);
    while todo != {}
      invariant todo + done == active0.Keys - current && todo !! done
      invariant active == Keep(active0, done) && log == Mirror(log0, IdsOf(active0, done), now)
      decreases |todo|
    {
      var fp :| fp in todo;
      var id := active[fp].id;
      ResolveStep(active0, log0, done, fp, now);
      log := MarkFirst(log, id, now);
      active := active - {fp};
      todo, done := todo - {fp}, done + {fp};
    }
  }

  lemma KeepStep(active: map<string, Alert>, done: set<string>, fp: string)
    requires fp in active
    ensures Keep(active, done + {fp}) == Keep(active, done) - {fp}
  {
  }

  lemma UnreadHas(active: map<string, Alert>)
    ensures forall fp :: fp in active ==> active[fp].acknowledged || active[fp].id in Unread(active)
  {
  }

  lemma IdsOfStep(active: map<string, Alert>, done: set<string>, fp: string)
    requires fp in active
    ensures IdsOf(active, done + {fp}) == IdsOf(active, done) + {active[fp].id}
  {
  }

  /** Marking one more id after the others. */
  lemma MirrorStep(log: seq<Alert>, ids: set<nat>, id: nat, now: int)
    ensures Mirror(log, ids + {id}, now) == Marked(Mirror(log, ids, now), id, now)
  {
    forall k | 0 <= k < |log| ensures Mirror(log, ids + {id}, now)[k] == Marked(Mirror(log, ids, now), id, now)[k] {
      MirrorAt(log, ids, id, now, k);
    }
  }

  lemma MirrorAt(log: seq<Alert>, ids: set<nat>, id: nat, now: int, k: nat)
    requires k < |log|
    ensures Mirror(log, ids + {id}, now)[k] == Marked(Mirror(log, ids, now), id, now)[k]
  {
    var m := Mirror(log, ids, now);
    assert forall j :: 0 <= j < |log| ==> m[j].id == log[j].id;
    assert IsFirst(m, k) <==> IsFirst(log, k);
    assert Ended(m[k], now) == Ended(log[k], now);
  }

  /** One record leaves, and its entry is marked. */
  lemma ResolveStep(active: map<string, Alert>, log: seq<Alert>, done: set<string>, fp: string, now: int)
    requires fp in active
    ensures Keep(active, done + {fp}) == Keep(active, done) - {fp}
    ensures Mirror(log, IdsOf(active, done + {fp}), now)
            == Marked(Mirror(log, IdsOf(active, done), now), active[fp].id, now)
  {
    KeepStep(active, done, fp);
    IdsOfStep(active, done, fp);
    MirrorStep(log, IdsOf(active, done), active[fp].id, now);
  }

  lemma NoneResolved(active: map<string, Alert>, log: seq<Alert>, now: int)
    ensures IdsOf(active, {}) == {} && Keep(active, {}) == active && Mirror(log, {}, now) == log
  {
  }
}
