/** The alert states and the direct-mapped suppression cache of src/tsa_alert.c, with everything
    that happened to them. The stream's clock (STC) comes with each event. */
module Alerts {

  const IDS: nat := 14
  const SLOTS: nat := 4096
  const TIMEOUT: nat := 5_000_000_000

  // Alert numbers that the dependency rules name.
  const SYNC := 0
  const PAT := 1
  const PMT := 2
  const CC := 4
  const CRC := 5
  const PCR := 6
  const TRANSPORT := 7
  const PTS := 8
  const TSTD := 9
  const SDT := 11
  const NIT := 12

  datatype Alert = Alert(firing: bool, last: nat, count: nat, needsResolve: bool)
  datatype Entry = Entry(active: bool, id: nat, pid: nat, hits: nat, start: nat, lastHit: nat)

  // An error that was not suppressed by the dependency rules; a change of an alert's state with the
  // number of errors accepted until then; a firing notice that went out.
  datatype Accept = Accept(id: nat, at: nat)
  datatype Move = Move(id: nat, fired: bool, at: nat, seen: nat)
  datatype Notice = Notice(id: nat, pid: nat, at: nat)

  // `owner[k]` is the number of the notice that last took slot k, or -1.
  datatype State = State(alerts: seq<Alert>, entries: seq<Entry>, window: nat, now: nat,
                         accepted: seq<Accept>, moves: seq<Move>, notices: seq<Notice>, owner: seq<int>)

  datatype Event = Error(id: nat, pid: nat, now: nat) | Check(now: nat)

  // alert_aggregator_hash
  function Hash(id: nat, pid: nat): (k: nat) ensures k < SLOTS { (id * 31 + pid) % SLOTS }

  predicate Sized(s: State) { |s.alerts| == IDS && |s.entries| == SLOTS && |s.owner| == SLOTS }

  // The alerts that loss of sync, and a burst of continuity errors, explain.
  predicate DependsOn(id: nat, cause: nat) {
    || (cause == SYNC && id in {CC, PCR, TSTD, PAT, PMT, SDT, NIT, TRANSPORT, CRC, PTS})
    || (cause == CC && id in {PCR, TSTD})
  }

  // tsa_alert_is_suppressed_by_tree
  predicate Suppressed(alerts: seq<Alert>, id: nat)
    requires |alerts| == IDS
  {
    (alerts[SYNC].firing && DependsOn(id, SYNC)) || (alerts[CC].firing && DependsOn(id, CC))
  }

  // Whether the cache holds back a notice, tsa_alert_should_suppress's answer.
  predicate Held(e: Entry, id: nat, pid: nat, now: nat, window: nat) {
    window != 0 && e.active && e.id == id && e.pid == pid && now - e.start < window
  }

  // What happens to the cache and the notices when an alert fires.
  function Announce(s: State, id: nat, pid: nat, now: nat): (r: State)
    requires Sized(s)
    ensures Sized(r)
  {
    var k := Hash(id, pid);
    var e := s.entries[k];
    if Held(e, id, pid, now, s.window) then
      s.(entries := s.entries[k := e.(hits := e.hits + 1, lastHit := now)])
    else if s.window == 0 then
      s.(notices := s.notices + [Notice(id, pid, now)])
    else
      s.(entries := s.entries[k := Entry(true, id, pid, 1, now, now)],
         notices := s.notices + [Notice(id, pid, now)],
         owner := s.owner[k := |s.notices|])
  }

  // tsa_alert_update with an error
  function Raise(s: State, id: nat, pid: nat, now: nat): (r: State)
    requires Sized(s) && id < IDS
    ensures Sized(r)
  {
    if Suppressed(s.alerts, id) then s.(now := now)
    else
      var a := s.alerts[id];
      var t := s.(now := now, accepted := s.accepted + [Accept(id, now)],
                  alerts := s.alerts[id := a.(last := now, count := a.count + 1)]);
      if a.firing then t
      else
        Announce(t.(alerts := t.alerts[id := t.alerts[id].(firing := true, needsResolve := true)],
                    moves := t.moves + [Move(id, true, now, |t.accepted|)]), id, pid, now)
  }

  // The aggregation loop: entries whose window is over are released.
  function Expire(e: Entry, now: nat, window: nat): (r: Entry) {
    if e.active && now - e.start >= window then e.(active := false) else e
  }

  function ExpireAll(entries: seq<Entry>, now: nat, window: nat): (r: seq<Entry>)
    ensures |r| == |entries| && forall k :: 0 <= k < |r| ==> r[k] == Expire(entries[k], now, window)
  {
    seq(|entries|, k requires 0 <= k < |entries| => Expire(entries[k], now, window))
  }

  // The resolution loop, one alert and all from number i on.
  function ResolveOne(s: State, i: nat): (r: State)
    requires Sized(s) && i < IDS
    ensures Sized(r)
  {
    var a := s.alerts[i];
    if a.firing && s.now - a.last > TIMEOUT then
      s.(alerts := s.alerts[i := Alert(false, a.last, 0, false)], moves := s.moves + [Move(i, false, s.now, |s.accepted|)])
    else s
  }

  function ResolveFrom(s: State, i: nat): (r: State)
    requires Sized(s) && i <= IDS
    ensures Sized(r)
    decreases IDS - i
  {
    if i == IDS then s else ResolveFrom(ResolveOne(s, i), i + 1)
  }

  // The loops of tsa_alert_check_resolutions; its timeouts arrive as errors before it.
  function CheckAll(s: State, now: nat): (r: State)
    requires Sized(s)
    ensures Sized(r)
  {
    ResolveFrom(s.(now := now, entries := ExpireAll(s.entries, now, s.window)), 0)
  }

  function Step(s: State, ev: Event): (r: State)
    requires Sized(s) && (ev.Error? ==> ev.id < IDS)
    ensures Sized(r)
  {
    match ev
    case Error(id, pid, now) => Raise(s, id, pid, now)
    case Check(now) => CheckAll(s, now)
  }

  predicate Timely(events: seq<Event>, from: nat) {
    && (forall i :: 0 <= i < |events| ==> from <= events[i].now && (events[i].Error? ==> events[i].id < IDS))
    && (forall i, j :: 0 <= i < j < |events| ==> events[i].now <= events[j].now)
  }

  function Run(s: State, events: seq<Event>): (r: State)
    requires Sized(s) && forall i :: 0 <= i < |events| && events[i].Error? ==> events[i].id < IDS
    ensures Sized(r)
    decreases |events|
  {
    if events == [] then s else Run(Step(s, events[0]), events[1..])
  }

  function Start(window: nat): (s: State)
    ensures Sized(s)
  {
    State(seq(IDS, _ => Alert(false, 0, 0, false)), seq(SLOTS, _ => Entry(false, 0, 0, 0, 0, 0)), window, 0, [], [], [], seq(SLOTS, _ => -1))
  }

  // --- What holds of each alert ---

  // The transitions of one alert, oldest first: true for firing, false for resolved.
  function Transitions(moves: seq<Move>, id: nat): (t: seq<bool>) {
    if moves == [] then []
    else
      var m := moves[|moves| - 1];
      Transitions(moves[..|moves| - 1], id) + if m.id == id then [m.fired] else []
  }

  ghost predicate Alternates(t: seq<bool>) { forall k :: 0 <= k < |t| ==> t[k] == (k % 2 == 0) }

  lemma TransitionsNext(moves: seq<Move>, m: Move, id: nat)
    ensures Transitions(moves + [m], id) == Transitions(moves, id) + if m.id == id then [m.fired] else []
  {
    assert (moves + [m])[..|moves|] == moves;
  }

  // The state agrees with the transitions, and `last` with the accepted errors.
  ghost predicate AlertOk(s: State, id: nat)
    requires Sized(s) && id < IDS
  {
    var a := s.alerts[id];
    var t := Transitions(s.moves, id);
    && a.needsResolve == a.firing && a.last <= s.now
    && Alternates(t) && (a.firing <==> |t| % 2 == 1)
    && (forall k :: 0 <= k < |s.accepted| && s.accepted[k].id == id ==> s.accepted[k].at <= a.last)
    && (a.firing ==> exists k :: 0 <= k < |s.accepted| && s.accepted[k] == Accept(id, a.last))
  }

  // An alert fires on an accepted error, and resolves more than the timeout after every one before.
  ghost predicate MoveOk(m: Move, accepted: seq<Accept>) {
    && m.seen <= |accepted|
    && (m.fired ==> m.seen > 0 && accepted[m.seen - 1] == Accept(m.id, m.at))
    && (!m.fired ==> forall k :: 0 <= k < m.seen && accepted[k].id == m.id ==> m.at - accepted[k].at > TIMEOUT)
  }

  ghost predicate AlertsOk(s: State)
    requires Sized(s)
  {
    && (forall id :: 0 <= id < IDS ==> AlertOk(s, id))
    && (forall j :: 0 <= j < |s.moves| ==> MoveOk(s.moves[j], s.accepted))
  }

  // An accepted error refreshes its alert.
  lemma {:induction false} RefreshOk(s: State, now: nat, id: nat)
    requires Sized(s) && AlertsOk(s) && s.now <= now && id < IDS
    ensures var a := s.alerts[id];
      AlertsOk(s.(now := now, accepted := s.accepted + [Accept(id, now)], alerts := s.alerts[id := a.(last := now, count := a.count + 1)]))
  {
    hide Transitions;
    hide Alternates;
    var a := s.alerts[id];
    var t := s.(now := now, accepted := s.accepted + [Accept(id, now)], alerts := s.alerts[id := a.(last := now, count := a.count + 1)]);
    forall i | 0 <= i < IDS ensures AlertOk(t, i) {
      assert AlertOk(s, i);
      if i == id {
        assert t.accepted[|s.accepted|] == Accept(id, now);
      } else if s.alerts[i].firing {
        var k :| 0 <= k < |s.accepted| && s.accepted[k] == Accept(i, s.alerts[i].last);
        assert t.accepted[k] == s.accepted[k];
      }
    }
  }

  // A change of state that is recorded.
  lemma {:induction false} MoveKeeps(s: State, t: State, id: nat, m: Move)
    requires Sized(s) && AlertsOk(s) && Sized(t) && id < IDS
    requires t.accepted == s.accepted && t.now == s.now && t.moves == s.moves + [m]
    requires m.id == id && m.fired != s.alerts[id].firing && m.fired == t.alerts[id].firing == t.alerts[id].needsResolve
    requires t.alerts[id].last == s.alerts[id].last && t.alerts == s.alerts[id := t.alerts[id]] && MoveOk(m, s.accepted)
    requires m.fired ==> exists k :: 0 <= k < |s.accepted| && s.accepted[k] == Accept(id, s.alerts[id].last)
    ensures AlertsOk(t)
  {
    hide Transitions;
    forall i | 0 <= i < IDS ensures AlertOk(t, i) {
      assert AlertOk(s, i);
      TransitionsNext(s.moves, m, i);
    }
  }

  lemma {:induction false} AnnounceKeepsAlerts(s: State, id: nat, pid: nat, now: nat)
    requires Sized(s) && AlertsOk(s)
    ensures AlertsOk(Announce(s, id, pid, now))
  {
    hide Transitions;
    hide Alternates;
    hide MoveOk;
    hide Hash;
    var r := Announce(s, id, pid, now);
    forall i | 0 <= i < IDS ensures AlertOk(r, i) { assert AlertOk(s, i); }
  }

  lemma {:induction false} RaiseKeepsAlerts(s: State, id: nat, pid: nat, now: nat)
    requires Sized(s) && AlertsOk(s) && s.now <= now && id < IDS
    ensures AlertsOk(Raise(s, id, pid, now))
  {
    hide Announce;
    hide AlertOk;
    hide MoveOk;
    if Suppressed(s.alerts, id) {
      LaterKeepsAlerts(s, now);
    } else {
      RefreshOk(s, now, id);
      var a := s.alerts[id];
      var t := s.(now := now, accepted := s.accepted + [Accept(id, now)], alerts := s.alerts[id := a.(last := now, count := a.count + 1)]);
      if !a.firing { FireKeeps(t, id, pid); }
    }
  }

  lemma {:induction false} LaterKeepsAlerts(s: State, now: nat)
    requires Sized(s) && AlertsOk(s) && s.now <= now
    ensures AlertsOk(s.(now := now))
  {
    hide Transitions;
    hide Alternates;
    hide MoveOk;
    var t := s.(now := now);
    forall i | 0 <= i < IDS ensures AlertOk(t, i) { assert AlertOk(s, i); }
  }

  lemma {:induction false} FireKeeps(t: State, id: nat, pid: nat)
    requires Sized(t) && AlertsOk(t) && id < IDS && !t.alerts[id].firing
    requires t.accepted != [] && t.accepted[|t.accepted| - 1] == Accept(id, t.now) && t.alerts[id].last == t.now
    ensures AlertsOk(Announce(t.(alerts := t.alerts[id := t.alerts[id].(firing := true, needsResolve := true)],
                                 moves := t.moves + [Move(id, true, t.now, |t.accepted|)]), id, pid, t.now))
  {
    hide Announce;
    hide Transitions;
    hide Alternates;
    var m := Move(id, true, t.now, |t.accepted|);
    var u := t.(alerts := t.alerts[id := t.alerts[id].(firing := true, needsResolve := true)], moves := t.moves + [m]);
    MoveKeeps(t, u, id, m);
    AnnounceKeepsAlerts(u, id, pid, t.now);
  }

  lemma {:induction false} ResolveOneKeeps(s: State, i: nat)
    requires Sized(s) && AlertsOk(s) && i < IDS
    ensures AlertsOk(ResolveOne(s, i))
  {
    hide Transitions;
    hide Alternates;
    assert AlertOk(s, i);
    if s.alerts[i].firing && s.now - s.alerts[i].last > TIMEOUT {
      MoveKeeps(s, ResolveOne(s, i), i, Move(i, false, s.now, |s.accepted|));
    }
  }

  // After the loop no alert it passed is older than the timeout.
  lemma {:induction false} ResolveFromKeeps(s: State, i: nat)
    requires Sized(s) && AlertsOk(s) && i <= IDS
    ensures AlertsOk(ResolveFrom(s, i))
    ensures var r := ResolveFrom(s, i);
      && r.now == s.now && r.accepted == s.accepted && r.entries == s.entries && r.notices == s.notices
      && r.owner == s.owner && r.window == s.window
      && (forall k :: 0 <= k < i ==> r.alerts[k] == s.alerts[k])
      && (forall k :: i <= k < IDS && r.alerts[k].firing ==> r.now - r.alerts[k].last <= TIMEOUT)
    decreases IDS - i
  {
    hide AlertsOk;
    if i < IDS {
      ResolveOneKeeps(s, i);
      ResolveFromKeeps(ResolveOne(s, i), i + 1);
    }
  }

  lemma {:induction false} CheckKeepsAlerts(s: State, now: nat)
    requires Sized(s) && AlertsOk(s) && s.now <= now
    ensures AlertsOk(CheckAll(s, now))
  {
    hide ResolveFrom;
    hide Transitions;
    hide Alternates;
    hide MoveOk;
    var t := s.(now := now, entries := ExpireAll(s.entries, now, s.window));
    forall i | 0 <= i < IDS ensures AlertOk(t, i) { assert AlertOk(s, i); }
    ResolveFromKeeps(t, 0);
  }

  // --- The suppression cache ---

  function SlotOf(n: Notice): (k: nat) { Hash(n.id, n.pid) }
  predicate SameKey(a: Notice, b: Notice) { a.id == b.id && a.pid == b.pid }

  // An entry belongs to the last notice that took its slot, and stays active for its window.
  ghost predicate OwnerOk(s: State, k: nat)
    requires Sized(s) && k < SLOTS
  {
    var o, e := s.owner[k], s.entries[k];
    && -1 <= o < |s.notices|
    && (forall n :: o < n < |s.notices| ==> SlotOf(s.notices[n]) != k)
    && (o == -1 ==> !e.active)
    && (o >= 0 ==>
          && SlotOf(s.notices[o]) == k
          && s.notices[o] == Notice(e.id, e.pid, e.start)
          && (e.active || s.now - e.start >= s.window))
  }

  ghost predicate OwnersOk(s: State)
    requires Sized(s)
  {
    s.window != 0 ==> forall k :: 0 <= k < SLOTS ==> OwnerOk(s, k)
  }

  ghost predicate Ordered(s: State) {
    && (forall i :: 0 <= i < |s.notices| ==> s.notices[i].at <= s.now)
    && (forall i, j :: 0 <= i < j < |s.notices| ==> s.notices[i].at <= s.notices[j].at)
  }

  // Some notice between i and j took the slot for another key.
  ghost predicate Ousted(notices: seq<Notice>, i: nat, j: nat)
    requires j < |notices|
  {
    exists k :: i < k < j && SlotOf(notices[k]) == SlotOf(notices[j]) && !SameKey(notices[k], notices[j])
  }

  ghost predicate SpacedOut(notices: seq<Notice>, window: nat) {
    forall i, j :: 0 <= i < j < |notices| && SameKey(notices[i], notices[j]) && notices[j].at - notices[i].at < window ==>
      Ousted(notices, i, j)
  }

  ghost predicate CacheOk(s: State)
    requires Sized(s)
  {
    OwnersOk(s) && Ordered(s) && SpacedOut(s.notices, s.window)
  }

  // A notice that the cache let through repeats no key within its window, unless it was ousted.
  lemma {:induction false} NextOusted(s: State, n: Notice, i: nat)
    requires Sized(s) && CacheOk(s) && n.at == s.now && i < |s.notices|
    requires !Held(s.entries[SlotOf(n)], n.id, n.pid, n.at, s.window)
    requires SameKey(s.notices[i], n) && n.at - s.notices[i].at < s.window
    ensures Ousted(s.notices + [n], i, |s.notices|)
  {
    var k := SlotOf(n);
    hide Hash;
    hide SpacedOut;
    assert OwnerOk(s, k);
    var o := s.owner[k];
    assert SlotOf(s.notices[i]) == k && i <= o;
    var all := s.notices + [n];
    assert all[o] == s.notices[o] && all[|s.notices|] == n;
    assert !SameKey(all[o], n);
    assert i < o;
  }

  lemma {:induction false} NoticeKeepsSpacing(s: State, n: Notice)
    requires Sized(s) && CacheOk(s) && n.at == s.now
    requires !Held(s.entries[SlotOf(n)], n.id, n.pid, n.at, s.window)
    ensures SpacedOut(s.notices + [n], s.window)
  {
    hide Hash;
    hide OwnersOk;
    hide Held;
    var all := s.notices + [n];
    forall i, j | 0 <= i < j < |all| && SameKey(all[i], all[j]) && all[j].at - all[i].at < s.window
      ensures Ousted(all, i, j)
    {
      if j == |s.notices| {
        NextOusted(s, n, i);
      } else {
        assert Ousted(s.notices, i, j);
        var k :| i < k < j && SlotOf(s.notices[k]) == SlotOf(s.notices[j]) && !SameKey(s.notices[k], s.notices[j]);
        assert all[k] == s.notices[k];
      }
    }
  }

  // Taking a slot makes the new notice its owner.
  lemma {:induction false} TakeKeepsOwners(s: State, n: Notice)
    requires Sized(s) && OwnersOk(s) && n.at == s.now && s.window != 0
    ensures var k := SlotOf(n);
      OwnersOk(s.(entries := s.entries[k := Entry(true, n.id, n.pid, 1, n.at, n.at)], notices := s.notices + [n],
                  owner := s.owner[k := |s.notices|]))
  {
    hide Hash;
    var k := SlotOf(n);
    var t := s.(entries := s.entries[k := Entry(true, n.id, n.pid, 1, n.at, n.at)], notices := s.notices + [n],
                owner := s.owner[k := |s.notices|]);
    forall j | 0 <= j < SLOTS ensures OwnerOk(t, j) { assert OwnerOk(s, j); }
  }

  lemma {:induction false} HitKeepsOwners(s: State, k: nat, e: Entry)
    requires Sized(s) && OwnersOk(s) && k < SLOTS
    requires var d := s.entries[k]; e.active == d.active && e.id == d.id && e.pid == d.pid && e.start == d.start
    ensures OwnersOk(s.(entries := s.entries[k := e]))
  {
    hide Hash;
    var t := s.(entries := s.entries[k := e]);
    if s.window != 0 {
      forall j | 0 <= j < SLOTS ensures OwnerOk(t, j) { assert OwnerOk(s, j); }
    }
  }

  lemma {:induction false} AnnounceKeepsCache(s: State, id: nat, pid: nat)
    requires Sized(s) && CacheOk(s)
    ensures CacheOk(Announce(s, id, pid, s.now))
  {
    hide OwnerOk;
    hide Hash;
    var k := Hash(id, pid);
    var e := s.entries[k];
    var n := Notice(id, pid, s.now);
    if Held(e, id, pid, s.now, s.window) {
      hide SpacedOut;
      HitKeepsOwners(s, k, e.(hits := e.hits + 1, lastHit := s.now));
    } else {
      NoticeKeepsSpacing(s, n);
      hide SpacedOut;
      if s.window != 0 { TakeKeepsOwners(s, n); }
    }
  }

  // Anything that changes only the alerts and their history, and the clock forward.
  lemma {:induction false} CacheFrame(s: State, t: State)
    requires Sized(s) && CacheOk(s) && Sized(t) && s.now <= t.now
    requires t.entries == s.entries && t.window == s.window && t.notices == s.notices && t.owner == s.owner
    ensures CacheOk(t)
  {
    hide Hash;
    hide SpacedOut;
    if s.window != 0 {
      forall j | 0 <= j < SLOTS ensures OwnerOk(t, j) { assert OwnerOk(s, j); }
    }
  }

  lemma {:induction false} RaiseKeepsCache(s: State, id: nat, pid: nat, now: nat)
    requires Sized(s) && CacheOk(s) && s.now <= now && id < IDS
    ensures CacheOk(Raise(s, id, pid, now))
  {
    hide CacheOk;
    hide Announce;
    if Suppressed(s.alerts, id) {
      CacheFrame(s, s.(now := now));
    } else {
      var a := s.alerts[id];
      var t := s.(now := now, accepted := s.accepted + [Accept(id, now)], alerts := s.alerts[id := a.(last := now, count := a.count + 1)]);
      CacheFrame(s, t);
      if !a.firing {
        var u := t.(alerts := t.alerts[id := t.alerts[id].(firing := true, needsResolve := true)],
                    moves := t.moves + [Move(id, true, now, |t.accepted|)]);
        CacheFrame(t, u);
        AnnounceKeepsCache(u, id, pid);
      }
    }
  }

  lemma {:induction false} ExpireKeepsCache(s: State, now: nat)
    requires Sized(s) && CacheOk(s) && s.now <= now
    ensures CacheOk(s.(now := now, entries := ExpireAll(s.entries, now, s.window)))
  {
    hide Hash;
    hide SpacedOut;
    var t := s.(now := now, entries := ExpireAll(s.entries, now, s.window));
    if s.window != 0 {
      forall j | 0 <= j < SLOTS ensures OwnerOk(t, j) { assert OwnerOk(s, j); }
    }
  }

  lemma {:induction false} CheckKeepsCache(s: State, now: nat)
    requires Sized(s) && AlertsOk(s) && CacheOk(s) && s.now <= now
    ensures CacheOk(CheckAll(s, now))
  {
    hide CacheOk;
    hide ResolveFrom;
    hide AlertOk;
    hide MoveOk;
    var t := s.(now := now, entries := ExpireAll(s.entries, now, s.window));
    ExpireKeepsCache(s, now);
    EntriesKeepAlerts(s, t);
    ResolveFromKeeps(t, 0);
    CacheFrame(t, ResolveFrom(t, 0));
  }

  lemma {:induction false} EntriesKeepAlerts(s: State, t: State)
    requires Sized(s) && AlertsOk(s) && Sized(t) && s.now <= t.now
    requires t.alerts == s.alerts && t.accepted == s.accepted && t.moves == s.moves
    ensures AlertsOk(t)
  {
    hide Transitions;
    hide Alternates;
    hide MoveOk;
    forall i | 0 <= i < IDS ensures AlertOk(t, i) { assert AlertOk(s, i); }
  }

  // --- Every run ---

  ghost predicate Inv(s: State) { Sized(s) && AlertsOk(s) && CacheOk(s) }

  lemma {:induction false} StepInv(s: State, ev: Event)
    requires Inv(s) && s.now <= ev.now && (ev.Error? ==> ev.id < IDS)
    ensures Inv(Step(s, ev)) && Step(s, ev).now == ev.now && Step(s, ev).window == s.window
  {
    hide AlertsOk;
    hide CacheOk;
    if ev.Error? {
      RaiseKeepsAlerts(s, ev.id, ev.pid, ev.now);
      RaiseKeepsCache(s, ev.id, ev.pid, ev.now);
    } else {
      CheckKeepsAlerts(s, ev.now);
      CheckKeepsCache(s, ev.now);
      var t := s.(now := ev.now, entries := ExpireAll(s.entries, ev.now, s.window));
      EntriesKeepAlerts(s, t);
      ResolveFromKeeps(t, 0);
      hide ResolveFrom;
    }
  }

  lemma {:induction false} RunInv(s: State, events: seq<Event>)
    requires Inv(s) && Timely(events, s.now)
    ensures Inv(Run(s, events)) && Run(s, events).window == s.window
    ensures Run(s, events).now == if events == [] then s.now else events[|events| - 1].now
    decreases |events|
  {
    hide AlertsOk;
    hide CacheOk;
    hide Step;
    if events != [] {
      StepInv(s, events[0]);
      RunInv(Step(s, events[0]), events[1..]);
    }
  }

  lemma {:induction false} StartInv(window: nat)
    ensures Inv(Start(window))
  {
    var s := Start(window);
    forall i | 0 <= i < IDS ensures AlertOk(s, i) { assert Transitions([], i) == []; }
  }

  /** In every run with a clock that does not go back, the transitions of each alert alternate,
      firing first; the flag for a resolve message is set exactly while it fires; and a resolve
      comes more than five seconds after every error accepted for it before. */
  lemma {:induction false} FiringAndResolving(window: nat, events: seq<Event>, id: nat)
    requires Timely(events, 0) && id < IDS
    ensures var r := Run(Start(window), events); var t := Transitions(r.moves, id);
      && (forall k :: 0 <= k < |t| ==> t[k] == (k % 2 == 0))
      && (r.alerts[id].firing <==> |t| % 2 == 1) && r.alerts[id].needsResolve == r.alerts[id].firing
      && (forall j :: 0 <= j < |r.moves| ==> MoveOk(r.moves[j], r.accepted))
      && (forall j, k :: 0 <= j < |r.moves| && !r.moves[j].fired && 0 <= k < r.moves[j].seen && k < |r.accepted| && r.accepted[k].id == r.moves[j].id ==>
            r.moves[j].at - r.accepted[k].at > 5_000_000_000)
  {
    StartInv(window);
    RunInv(Start(window), events);
    assert AlertOk(Run(Start(window), events), id);
    hide Run;
    hide Start;
  }

  /** After a check the cache counts on, unchanged, exactly for the keys whose window is not over. */
  lemma {:induction false} CheckReleases(s: State, now: nat, k: nat)
    requires Sized(s) && k < 4096
    ensures var e, r := s.entries[k], CheckAll(s, now).entries[k];
      && (r.active <==> e.active && now - e.start < s.window) && r == e.(active := r.active)
  {
    ResolveKeepsEntries(s.(now := now, entries := ExpireAll(s.entries, now, s.window)), 0);
  }

  lemma {:induction false} ResolveKeepsEntries(s: State, i: nat)
    requires Sized(s) && i <= IDS
    ensures ResolveFrom(s, i).entries == s.entries
    decreases IDS - i
  {
    if i < IDS { ResolveKeepsEntries(ResolveOne(s, i), i + 1); }
  }

  /** An alert that still fires after a check had an error accepted in the last five seconds. */
  lemma {:induction false} StillFiring(window: nat, events: seq<Event>, now: nat, id: nat)
    requires Timely(events, 0) && id < IDS && (events != [] ==> events[|events| - 1].now <= now)
    ensures var r := Step(Run(Start(window), events), Check(now));
      r.alerts[id].firing ==>
        exists k :: 0 <= k < |r.accepted| && r.accepted[k].id == id && now - r.accepted[k].at <= 5_000_000_000
  {
    StartInv(window);
    RunInv(Start(window), events);
    var s := Run(Start(window), events);
    hide Run;
    hide Start;
    hide CacheOk;
    StepInv(s, Check(now));
    var t := s.(now := now, entries := ExpireAll(s.entries, now, s.window));
    EntriesKeepAlerts(s, t);
    ResolveFromKeeps(t, 0);
    hide ResolveFrom;
    hide Transitions;
    hide MoveOk;
    var r := ResolveFrom(t, 0);
    assert AlertOk(r, id);
  }

  // Different keys with 31 times the alert number plus the PID equal modulo 4096.
  predicate Collide(a: Notice, b: Notice) {
    (a.id != b.id || a.pid != b.pid) && (31 * a.id + a.pid - 31 * b.id - b.pid) % 4096 == 0
  }

  lemma SlotsCollide(a: Notice, b: Notice)
    ensures Collide(a, b) <==> SlotOf(a) == SlotOf(b) && !SameKey(a, b)
  {
  }

  /** Two firing notices for one alert and PID less than a window apart: in between, a notice for
      another key with the same hash took their cache slot. */
  lemma {:induction false} NoticesSpacedOut(window: nat, events: seq<Event>, i: nat, j: nat)
    requires Timely(events, 0)
    ensures var n := Run(Start(window), events).notices;
      i < j < |n| && n[i].id == n[j].id && n[i].pid == n[j].pid && n[j].at - n[i].at < window ==>
        exists k :: i < k < j && Collide(n[k], n[j])
  {
    StartInv(window);
    RunInv(Start(window), events);
    var r := Run(Start(window), events);
    hide Run;
    hide Start;
    hide AlertsOk;
    hide OwnersOk;
    hide Hash;
    var n := r.notices;
    if i < j < |n| && n[i].id == n[j].id && n[i].pid == n[j].pid && n[j].at - n[i].at < window {
      assert Ousted(n, i, j);
      var k :| i < k < j && SlotOf(n[k]) == SlotOf(n[j]) && !SameKey(n[k], n[j]);
      SlotsCollide(n[k], n[j]);
    }
  }

  // --- Root causes ---

  // Whenever an alert fired, none of its causes was firing.
  ghost predicate Rooted(moves: seq<Move>) {
    forall j, cause: nat {:trigger DependsOn(moves[j].id, cause)} :: 0 <= j < |moves| && moves[j].fired && DependsOn(moves[j].id, cause) ==>
      |Transitions(moves[..j], cause)| % 2 == 0
  }

  lemma {:induction false} RootedNext(moves: seq<Move>, m: Move)
    requires Rooted(moves)
    requires forall cause: nat :: m.fired && DependsOn(m.id, cause) ==> |Transitions(moves, cause)| % 2 == 0
    ensures Rooted(moves + [m])
  {
    hide Transitions;
    var all := moves + [m];
    forall j, cause: nat | 0 <= j < |all| && all[j].fired && DependsOn(all[j].id, cause)
      ensures |Transitions(all[..j], cause)| % 2 == 0
    {
      assert all[..j] == moves[..j];
      if j < |moves| { assert all[j] == moves[j]; } else { assert moves[..j] == moves; }
    }
  }

  lemma {:induction false} RaiseRooted(s: State, id: nat, pid: nat, now: nat)
    requires Sized(s) && AlertsOk(s) && Rooted(s.moves) && id < IDS
    ensures Rooted(Raise(s, id, pid, now).moves)
  {
    hide Rooted;
    hide Hash;
    hide Transitions;
    if !Suppressed(s.alerts, id) && !s.alerts[id].firing {
      assert AlertOk(s, SYNC) && AlertOk(s, CC);
      hide AlertOk;
      RootedNext(s.moves, Move(id, true, now, |s.accepted| + 1));
    }
  }

  lemma {:induction false} ResolveRooted(s: State, i: nat)
    requires Sized(s) && Rooted(s.moves) && i <= IDS
    ensures Rooted(ResolveFrom(s, i).moves)
    decreases IDS - i
  {
    hide Rooted;
    if i < IDS {
      if s.alerts[i].firing && s.now - s.alerts[i].last > TIMEOUT {
        RootedNext(s.moves, Move(i, false, s.now, |s.accepted|));
      }
      ResolveRooted(ResolveOne(s, i), i + 1);
    }
  }

  lemma {:induction false} RunRooted(s: State, events: seq<Event>)
    requires Inv(s) && Timely(events, s.now) && Rooted(s.moves)
    ensures Rooted(Run(s, events).moves)
    decreases |events|
  {
    hide AlertsOk;
    hide CacheOk;
    hide Rooted;
    if events != [] {
      var e := events[0];
      StepInv(s, e);
      if e.Error? {
        RaiseRooted(s, e.id, e.pid, e.now);
      } else {
        ResolveRooted(s.(now := e.now, entries := ExpireAll(s.entries, e.now, s.window)), 0);
      }
      hide Raise;
      hide CheckAll;
      RunRooted(Step(s, e), events[1..]);
    }
  }

  /** In every run an alert that loss of sync or continuity errors explain starts firing only while
      that cause is not firing itself. */
  lemma {:induction false} CausesFireAlone(window: nat, events: seq<Event>, j: nat, cause: nat)
    requires Timely(events, 0)
    ensures var moves := Run(Start(window), events).moves;
      j < |moves| && moves[j].fired && DependsOn(moves[j].id, cause) ==> |Transitions(moves[..j], cause)| % 2 == 0
  {
    StartInv(window);
    RunRooted(Start(window), events);
    hide Run;
    hide Start;
    hide Transitions;
  }

  // --- What must happen ---

  /** Loss of sync explains every alert but itself, missing PIDs, entropy and missing captions; a burst of
      continuity errors explains PCR and T-STD alerts; nothing else explains anything. */
  lemma Causes(id: nat, cause: nat)
    requires id < 14
    ensures DependsOn(id, cause) <==> (cause == 0 && id !in {0, 3, 10, 13}) || (cause == 4 && id in {6, 9})
  {
  }

  /** An error is accepted, and its alert fires or goes on firing, if and only if no cause of it is firing;
      otherwise nothing changes but the clock. */
  lemma {:induction false} AcceptedIff(s: State, id: nat, pid: nat, now: nat)
    requires Sized(s) && id < IDS
    ensures var r := Raise(s, id, pid, now);
      if exists cause :: 0 <= cause < IDS && DependsOn(id, cause) && s.alerts[cause].firing then r == s.(now := now)
      else
        && r.accepted == s.accepted + [Accept(id, now)] && r.alerts[id].firing && r.alerts[id].last == now
        && r.moves == s.moves + (if s.alerts[id].firing then [] else [Move(id, true, now, |s.accepted| + 1)])
        && (forall i :: 0 <= i < IDS && i != id ==> r.alerts[i] == s.alerts[i])
  {
    hide Hash;
    if Suppressed(s.alerts, id) {
      assert exists cause :: 0 <= cause < IDS && DependsOn(id, cause) && s.alerts[cause].firing by {
        if s.alerts[SYNC].firing && DependsOn(id, SYNC) { } else { assert DependsOn(id, CC) && s.alerts[CC].firing; }
      }
    }
  }

  /** In every run: when an alert starts firing, its notice is held back if and only if a notice for the
      same alert and PID went out less than a window ago and no other key has taken the slot since. */
  lemma {:induction false} HeldBackIff(window: nat, events: seq<Event>, id: nat, pid: nat, now: nat)
    requires Timely(events, 0) && id < IDS && (events != [] ==> events[|events| - 1].now <= now)
    ensures var s := Run(Start(window), events); var r := Raise(s, id, pid, now); var n := Notice(id, pid, now);
      |r.moves| > |s.moves| ==>
        if exists i :: 0 <= i < |s.notices| && Recent(s.notices, i, n, window) then r.notices == s.notices
        else r.notices == s.notices + [n]
  {
    StartInv(window);
    RunInv(Start(window), events);
    var s := Run(Start(window), events);
    hide Run;
    hide Start;
    hide AlertsOk;
    HeldAt(s, id, pid, now);
    hide Raise;
  }

  // Notice i is for the same key, within the window, and the last one in its slot.
  ghost predicate Recent(notices: seq<Notice>, i: nat, n: Notice, window: nat)
    requires i < |notices|
  {
    && SameKey(notices[i], n) && n.at - notices[i].at < window
    && forall j :: i < j < |notices| ==> SlotOf(notices[j]) != SlotOf(n)
  }

  lemma {:induction false} HeldIffRecent(s: State, n: Notice)
    requires Sized(s) && CacheOk(s) && s.now <= n.at
    ensures Held(s.entries[SlotOf(n)], n.id, n.pid, n.at, s.window) <==>
            exists i :: 0 <= i < |s.notices| && Recent(s.notices, i, n, s.window)
  {
    hide SpacedOut;
    var k := SlotOf(n);
    hide Hash;
    if s.window != 0 {
      assert OwnerOk(s, k);
      var o := s.owner[k];
      if Held(s.entries[k], n.id, n.pid, n.at, s.window) {
        assert Recent(s.notices, o, n, s.window);
      }
      if i :| 0 <= i < |s.notices| && Recent(s.notices, i, n, s.window) {
        assert SlotOf(s.notices[i]) == k;
        assert i == o;
      }
    }
  }

  lemma {:induction false} HeldAt(s: State, id: nat, pid: nat, now: nat)
    requires Sized(s) && CacheOk(s) && s.now <= now && id < IDS
    ensures var r := Raise(s, id, pid, now); var n := Notice(id, pid, now);
      |r.moves| > |s.moves| ==>
        if exists i :: 0 <= i < |s.notices| && Recent(s.notices, i, n, s.window) then r.notices == s.notices
        else r.notices == s.notices + [n]
  {
    HeldIffRecent(s, Notice(id, pid, now));
    hide CacheOk;
    hide Recent;
    hide Hash;
    hide Held;
  }
}
