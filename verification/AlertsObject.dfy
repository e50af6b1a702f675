/** The alert tables as src/tsa_alert.c updates them in place. */
module AlertsObject {
  import opened Alerts

  class Board {
    const alerts: array<Alert>
    const entries: array<Entry>
    const window: nat
    var now: nat

    // History.
    ghost var accepted: seq<Accept>
    ghost var moves: seq<Move>
    ghost var notices: seq<Notice>
    ghost var owner: seq<int>

    ghost predicate Valid()
      reads this
    {
      alerts.Length == IDS && entries.Length == SLOTS && |owner| == SLOTS
    }

    ghost function View(): (s: State)
      reads this, alerts, entries
    {
      State(alerts[..], entries[..], window, now, accepted, moves, notices, owner)
    }

    constructor (windowNs: nat)
      ensures Valid() && View() == Start(windowNs) && fresh(alerts) && fresh(entries)
    {
      alerts := new Alert[IDS](_ => Alert(false, 0, 0, false));
      entries := new Entry[SLOTS](_ => Entry(false, 0, 0, 0, 0, 0));
      window, now := windowNs, 0;
      accepted, moves, notices, owner := [], [], [], seq(SLOTS, _ => -1);
      new;
      assert alerts[..] == Start(windowNs).alerts && entries[..] == Start(windowNs).entries;
    }

    // tsa_alert_should_suppress: the answer is whether the firing notice is held back.
    method ShouldSuppress(id: nat, pid: nat) returns (held: bool)
      requires Valid()
      modifies entries, this`notices, this`owner
      ensures Valid() && View() == Announce(old(View()), id, pid, now)
      ensures held <==> notices == old(notices)
    {
      hide Hash;
      ghost var before := entries[..];
      if window == 0 {
        notices := notices + [Notice(id, pid, now)];
        return false;
      }
      var k := Hash(id, pid);
      var e := entries[k];
      if e.active && e.id == id && e.pid == pid && now - e.start < window {
        entries[k] := e.(hits := e.hits + 1, lastHit := now);
        assert entries[..] == before[k := entries[k]];
        return true;
      }
      entries[k] := Entry(true, id, pid, 1, now, now);
      assert entries[..] == before[k := entries[k]];
      owner := owner[k := |notices|];
      notices := notices + [Notice(id, pid, now)];
      held := false;
    }

    // tsa_alert_update
    method UpdateAlert(id: nat, hasError: bool, pid: nat, stc: nat) returns (notify: bool)
      requires Valid() && id < IDS
      modifies this, alerts, entries
      ensures Valid() && View() == if hasError then Raise(old(View()), id, pid, stc) else old(View()).(now := stc)
      ensures notify <==> notices != old(notices)
    {
      hide Hash;
      hide Announce;
      notify := false;
      now := stc;
      if !hasError || Suppressed(alerts[..], id) { return; }
      ghost var before := alerts[..];
      alerts[id] := alerts[id].(last := stc, count := alerts[id].count + 1);
      assert alerts[..] == before[id := alerts[id]];
      accepted := accepted + [Accept(id, stc)];
      if !alerts[id].firing {
        ghost var middle := alerts[..];
        alerts[id] := alerts[id].(firing := true, needsResolve := true);
        assert alerts[..] == middle[id := alerts[id]];
        moves := moves + [Move(id, true, stc, |accepted|)];
        var held := ShouldSuppress(id, pid);
        notify := !held;
      }
    }

    // The aggregation loop.
    method ExpireEntries()
      requires Valid()
      modifies entries
      ensures entries[..] == ExpireAll(old(entries[..]), now, window)
    {
      for i := 0 to entries.Length
        invariant forall k :: 0 <= k < i ==> entries[k] == Expire(old(entries[k]), now, window)
        invariant forall k :: i <= k < entries.Length ==> entries[k] == old(entries[k])
      {
        var e := entries[i];
        if e.active && now - e.start >= window { entries[i] := e.(active := false); }
      }
    }

    // The resolution loop.
    method Resolve()
      requires Valid()
      modifies alerts, this`moves
      ensures Valid() && View() == ResolveFrom(old(View()), 0)
    {
      for i := 0 to alerts.Length
        invariant Valid() && entries[..] == old(entries[..])
        invariant ResolveFrom(View(), i) == ResolveFrom(old(View()), 0)
      {
        var a := alerts[i];
        ghost var s := View();
        if a.firing && now - a.last > TIMEOUT {
          alerts[i] := Alert(false, a.last, 0, false);
          moves := moves + [Move(i, false, now, |accepted|)];
        }
        assert View().alerts == ResolveOne(s, i).alerts;
      }
    }

    // The loops of tsa_alert_check_resolutions.
    method CheckResolutions(stc: nat)
      requires Valid()
      modifies this, alerts, entries
      ensures Valid() && View() == CheckAll(old(View()), stc)
    {
      hide ResolveFrom;
      hide Expire;
      now := stc;
      ExpireEntries();
      Resolve();
    }
  }
}
