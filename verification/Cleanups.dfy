/** The trial's deferred cleanups, and the firewall gate among them (examples/disposable-dogfood/ci_smoke.py). */
module Cleanups {
  import opened Results
  import opened Firewall
  import opened GateCommands

  datatype Cleanup = Cleanup(name: string, onlyAfterClean: bool)

  /** What became of a deferred cleanup. */
  datatype Event = Done(cleanup: Cleanup) | Failed(cleanup: Cleanup) | Kept(cleanup: Cleanup)

  /** How many cleanups failed or were kept. */
  function NotDone(events: seq<Event>): nat {
    if events == [] then 0 else (if events[0].Done? then 0 else 1) + NotDone(events[1..])
  }

  /** What running `cleanups` can have done so far: each is met once, newest first, and one is kept exactly
      when it asks for a clean run and something before it was not done. */
  ghost predicate IsRun(cleanups: seq<Cleanup>, events: seq<Event>) {
    && |events| <= |cleanups|
    && forall i :: 0 <= i < |events| ==>
      var c := cleanups[|cleanups| - 1 - i];
      && events[i].cleanup == c
      && (events[i].Kept? <==> c.onlyAfterClean && NotDone(events[..i]) > 0)
  }

  lemma {:induction false} NotDoneNone(events: seq<Event>)
    ensures NotDone(events) == 0 <==> forall i :: 0 <= i < |events| ==> events[i].Done?
  {
    if events == [] {
    } else {
      NotDoneNone(events[1..]);
      assert forall i :: 1 <= i < |events| ==> events[i] == events[1..][i - 1];
    }
  }

  // --- the runtime's order of deferral -------------------------------------

  const GATE := Cleanup("remove the applied iptables rules (exact inverse, no flush)", true)

  /** The order in which the runtime stages defer: the gate before anything it must outlive. */
  const DEFERRED := [
    GATE,
    Cleanup("delete the ephemeral bootstrap credential file", false),
    Cleanup("remove the trial's containers and network by recorded ID", false),
    Cleanup("remove a lingering probe container", false),
    Cleanup("close the synthetic host listener on the bridge gateway", false),
    Cleanup("remove the temporary peer network by ID", false),
    Cleanup("remove the synthetic peer container by ID", false)]

  /** Wherever the runtime stopped, the gate is the last cleanup, and it is touched only if every other one
      succeeded. */
  lemma {:induction false} GateLast(k: nat, events: seq<Event>)
    requires 0 < k <= |DEFERRED| && IsRun(DEFERRED[..k], events) && |events| == k
    ensures events[k - 1].cleanup == GATE
    ensures !events[k - 1].Kept? <==> forall i :: 0 <= i < k - 1 ==> events[i].Done?
    ensures forall i :: 0 <= i < k - 1 ==> events[i].cleanup != GATE && !events[i].Kept?
  {
    NotDoneNone(events[..k - 1]);
    assert forall j :: 1 <= j < |DEFERRED| ==> !DEFERRED[j].onlyAfterClean;
    forall i | 0 <= i < k - 1 ensures events[i].cleanup == DEFERRED[k - 1 - i] {
    }
  }

  lemma PrefixNext<T>(s: seq<T>, n: nat)
    requires n < |s|
    ensures s[..n] + [s[n]] == s[..n + 1]
  {
  }

  class Trial {
    const net: string

    // Whether nothing raises. Nothing asks but the choices below.
    const reliable: bool

    var cleanups: seq<Cleanup>
    var notes: seq<Event>

    // The host's chains, and the rules this trial inserted.
    var table: Table
    var applied: seq<Command>

    constructor (net: string, table: Table, reliable: bool)
      ensures this.net == net && this.table == table && this.reliable == reliable && cleanups == [] && notes == []
      ensures applied == []
    {
      this.net, this.table, this.reliable := net, table, reliable;
      cleanups, notes, applied := [], [], [];
    }

    method Defer(cleanup: Cleanup)
      modifies this`cleanups
      ensures cleanups == old(cleanups) + [cleanup]
    {
      cleanups := cleanups + [cleanup];
    }

    /** The rules inserted so far are the first ones of the printed list, on top of `base`. */
    ghost predicate Applied(base: Table)
      reads this
    {
      && HasChains(base) && IsCidr(net) && |ApplyCommands(net)| == 5 && |applied| <= 5
      && applied == ApplyCommands(net)[..|applied|]
      && table == AppliedState(base, net, |applied|)
    }

    /** Inserts the next rule of the printed list; a command that fails changes nothing. */
    method InsertNextRule(command: Command, ghost base: Table) returns (ok: bool)
      requires Applied(base) && |applied| < 5 && command == ApplyCommands(net)[|applied|]
      modifies this`table, this`applied
      ensures Applied(base) && |applied| == old(|applied|) + (if ok then 1 else 0)
      ensures reliable ==> ok
    {
      var failure: bool := *;
      if failure && !reliable {
        return false;
      }
      AppliedStep(base, net, |applied|);
      PrefixNext(ApplyCommands(net), |applied|);
      table := Exec(table, command).value;
      applied := applied + [command];
      ok := true;
    }

    /** `iptables_with_sudo` from its deferral on. */
    method ApplyGate() returns (ok: bool)
      requires HasChains(table) && IsCidr(net) && applied == []
      modifies this
      ensures cleanups == old(cleanups) + [GATE] && notes == old(notes)
      ensures Applied(old(table)) && (ok <==> |applied| == 5) && (reliable ==> ok)
    {
      Defer(GATE);
      var apply := EnforcementApplyCommands(net);
      ApplyPrefix(table, net, 0);
      for i := 0 to 5
        invariant cleanups == old(cleanups) + [GATE] && notes == old(notes)
        invariant |applied| == i && Applied(old(table))
      {
        ok := InsertNextRule(apply[i], old(table));
        if !ok {
          return;
        }
      }
      ok := true;
    }

    /** `remove_applied`: the inserted rules, newest first. */
    method RemoveApplied(ghost base: Table) returns (ok: bool)
      requires Applied(base)
      modifies this`table
      ensures ok ==> table == base
      ensures reliable ==> ok
      ensures exists j :: 0 <= j <= |applied| && table == AppliedState(base, net, j)
    {
      for i := |applied| downto 0
        invariant table == AppliedState(base, net, i)
      {
        var parts := applied[i];
        AppliedStep(base, net, i);
        var failure: bool := *;
        if failure && !reliable {
          return false;
        }
        table := Exec(table, DeleteRule(parts.chain, parts.rule)).value;
      }
      GatedNone(base, net);
      ok := true;
    }

    /** Runs every deferred cleanup, newest first, whichever of them raise. */
    method RunCleanups(ghost base: Table) returns (failed: nat, ghost events: seq<Event>)
      requires GATE in cleanups ==> Applied(base)
      requires forall i :: 1 <= i < |cleanups| ==> cleanups[i] != GATE
      modifies this
      ensures cleanups == [] && applied == old(applied)
      ensures IsRun(old(cleanups), events) && |events| == |old(cleanups)|
      ensures notes == old(notes) + events && failed == NotDone(events)
      ensures Done(GATE) in events ==> table == base
      ensures Done(GATE) !in events && Failed(GATE) !in events ==> table == old(table)
      ensures reliable ==> failed == 0
    {
      failed, events := 0, [];
      ghost var all := cleanups;
      while cleanups != []
        invariant applied == old(applied) && |cleanups| + |events| == |all| && cleanups == all[..|cleanups|]
        invariant IsRun(all, events) && notes == old(notes) + events && failed == NotDone(events)
        invariant cleanups != [] ==> Done(GATE) !in events && Failed(GATE) !in events
        invariant Done(GATE) in events ==> table == base
        invariant Done(GATE) !in events && Failed(GATE) !in events ==> table == old(table)
        invariant reliable ==> failed == 0
        decreases |cleanups|
      {
        var cleanup := cleanups[|cleanups| - 1];
        cleanups := cleanups[..|cleanups| - 1];
        var event := Kept(cleanup);
        if cleanup.onlyAfterClean && failed > 0 {
          failed := failed + 1;
        } else {
          var worked: bool := *;
          worked := worked || reliable;
          if cleanup == GATE {
            worked := RemoveApplied(base);
          }
          event := if worked then Done(cleanup) else Failed(cleanup);
          failed := failed + (if worked then 0 else 1);
        }
        notes := notes + [event];
        NotDoneLast(events, event);
        RunNext(all, events, event);
        events := events + [event];
      }
    }

    /** `runtime_trial` as far as it defers: every stage may raise before and after each of its deferrals. */
    method RuntimeTrial()
      requires HasChains(table) && IsCidr(net) && applied == [] && cleanups == []
      modifies this
      ensures |cleanups| <= |DEFERRED| && cleanups == DEFERRED[..|cleanups|] && notes == old(notes)
      ensures Applied(old(table)) && (cleanups == [] ==> table == old(table))
      ensures reliable ==> cleanups == DEFERRED && |applied| == 5
    {
      ApplyPrefix(table, net, 0);
      GatedNone(table, net);
      var raised: bool := *;
      if raised && !reliable {
        return;
      }
      var ok := ApplyGate();
      if !ok {
        return;
      }
      for i := 1 to |DEFERRED|
        invariant cleanups == DEFERRED[..i] && notes == old(notes) && Applied(old(table)) && |applied| == 5
      {
        raised := *;
        if raised && !reliable {
          return;
        }
        Defer(DEFERRED[i]);
        assert DEFERRED[..i + 1] == DEFERRED[..i] + [DEFERRED[i]];
      }
    }

    /** The runtime and its cleanups, whatever raises: a run that reports no failed cleanup leaves the chains
        as it found them, and the gate is not touched unless every other cleanup succeeded. */
    method Run() returns (failed: nat, ghost inserted: Table, ghost events: seq<Event>)
      requires HasChains(table) && IsCidr(net) && applied == [] && cleanups == []
      modifies this
      ensures notes == old(notes) + events && failed == NotDone(events)
      ensures |applied| <= 5 && inserted == AppliedState(old(table), net, |applied|)
      ensures failed == 0 ==> table == old(table)
      ensures reliable ==> failed == 0 && |applied| == 5 && |events| == |DEFERRED|
      ensures table != inserted ==> forall event :: event in events && event.cleanup != GATE ==> event.Done?
    {
      RuntimeTrial();
      ghost var k := |cleanups|;
      inserted := table;
      failed, events := RunCleanups(old(table));
      NotDoneNone(events);
      if k > 0 {
        GateLast(k, events);
        assert events[k - 1] in events;
      }
    }
  }

  lemma {:induction false} NotDoneLast(events: seq<Event>, event: Event)
    ensures NotDone(events + [event]) == NotDone(events) + (if event.Done? then 0 else 1)
  {
    if events != [] {
      assert (events + [event])[1..] == events[1..] + [event];
      NotDoneLast(events[1..], event);
    } else {
      assert [event][1..] == [];
    }
  }

  lemma {:induction false} RunNext(cleanups: seq<Cleanup>, events: seq<Event>, event: Event)
    requires IsRun(cleanups, events) && |events| < |cleanups|
    requires event.cleanup == cleanups[|cleanups| - 1 - |events|]
    requires event.Kept? <==> event.cleanup.onlyAfterClean && NotDone(events) > 0
    ensures IsRun(cleanups, events + [event])
  {
    forall i | 0 <= i <= |events| ensures (events + [event])[..i] == events[..i] {
    }
    assert events[..|events|] == events;
  }
}
