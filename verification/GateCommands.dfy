/** Inserting and removing the gate, one rule at a time, and what a half-applied gate is called
    (examples/disposable-dogfood/dogfood.py, examples/disposable-dogfood/ci_smoke.py). */
module GateCommands {
  import opened Results
  import opened Firewall

  /** The rules of every chain, as written. */
  type Table = map<string, seq<Rule>>

  datatype Command =
    | InsertRule(chain: string, position: nat, rule: Rule)
    | DeleteRule(chain: string, rule: Rule)

  predicate HasChains(table: Table) {
    INPUT in table && DOCKER_USER in table
  }

  /** The position of the first rule equal to `rule`, or the length when there is none. */
  function FirstEqual(rules: seq<Rule>, rule: Rule): (n: nat)
    ensures n <= |rules| && (n < |rules| ==> rules[n] == rule)
    ensures forall i :: 0 <= i < n ==> rules[i] != rule
  {
    if rules == [] || rules[0] == rule then 0 else 1 + FirstEqual(rules[1..], rule)
  }

  /** What one iptables command does; it fails without a change. `-I` counts from one; `-D` deletes the
      first equal rule. */
  function Exec(table: Table, command: Command): Option<Table> {
    if command.chain !in table then None
    else
      var rules := table[command.chain];
      match command
      case InsertRule(chain, position, rule) =>
        if 1 <= position <= |rules| + 1
        then Some(table[chain := rules[..position - 1] + [rule] + rules[position - 1..]]) else None
      case DeleteRule(chain, rule) =>
        var n := FirstEqual(rules, rule);
        if n < |rules| then Some(table[chain := rules[..n] + rules[n + 1..]]) else None
  }

  function ExecAll(table: Table, commands: seq<Command>): Option<Table> {
    if commands == [] then Some(table)
    else
      match Exec(table, commands[0])
      case None => None
      case Some(next) => ExecAll(next, commands[1..])
  }

  // --- the printed lists ---------------------------------------------------

  /** `-I chain index rule` for each rule, counting from `from`. */
  function Inserts(chain: string, rules: seq<Rule>, from: nat): (r: seq<Command>)
    ensures |r| == |rules| && forall i :: 0 <= i < |r| ==> r[i] == InsertRule(chain, from + i, rules[i])
  {
    if rules == [] then [] else [InsertRule(chain, from, rules[0])] + Inserts(chain, rules[1..], from + 1)
  }

  /** `-D chain rule` for each rule, last first. */
  function Deletes(chain: string, rules: seq<Rule>): (r: seq<Command>)
    ensures |r| == |rules| && forall i :: 0 <= i < |r| ==> r[i] == DeleteRule(chain, rules[|rules| - 1 - i])
  {
    if rules == [] then [] else Deletes(chain, rules[1..]) + [DeleteRule(chain, rules[0])]
  }

  function ApplyCommands(net: string): seq<Command> {
    Inserts(INPUT, GateRules(INPUT, net), 1) + Inserts(DOCKER_USER, GateRules(DOCKER_USER, net), 1)
  }

  function RemoveCommands(net: string): seq<Command> {
    Deletes(INPUT, GateRules(INPUT, net)) + Deletes(DOCKER_USER, GateRules(DOCKER_USER, net))
  }

  method AppendInserts(before: seq<Command>, chain: string, rules: seq<Rule>) returns (commands: seq<Command>)
    ensures commands == before + Inserts(chain, rules, 1)
  {
    commands := before;
    for i := 0 to |rules|
      invariant commands == before + Inserts(chain, rules, 1)[..i]
    {
      commands := commands + [InsertRule(chain, i + 1, rules[i])];
    }
  }

  method AppendDeletes(before: seq<Command>, chain: string, rules: seq<Rule>) returns (commands: seq<Command>)
    ensures commands == before + Deletes(chain, rules)
  {
    commands := before;
    for i := |rules| downto 0
      invariant commands == before + Deletes(chain, rules)[..|rules| - i]
    {
      commands := commands + [DeleteRule(chain, rules[i])];
    }
  }

  /** `enforcement_apply_commands`. */
  method EnforcementApplyCommands(net: string) returns (commands: seq<Command>)
    ensures commands == ApplyCommands(net)
  {
    commands := [];
    for c := 0 to |CHAINS|
      invariant commands == (if c >= 1 then Inserts(INPUT, GateRules(INPUT, net), 1) else [])
                          + (if c >= 2 then Inserts(DOCKER_USER, GateRules(DOCKER_USER, net), 1) else [])
    {
      commands := AppendInserts(commands, CHAINS[c], GateRules(CHAINS[c], net));
    }
  }

  /** `enforcement_remove_commands`. */
  method EnforcementRemoveCommands(net: string) returns (commands: seq<Command>)
    ensures commands == RemoveCommands(net)
  {
    commands := [];
    for c := 0 to |CHAINS|
      invariant commands == (if c >= 1 then Deletes(INPUT, GateRules(INPUT, net)) else [])
                          + (if c >= 2 then Deletes(DOCKER_USER, GateRules(DOCKER_USER, net)) else [])
    {
      commands := AppendDeletes(commands, CHAINS[c], GateRules(CHAINS[c], net));
    }
  }

  // --- every state on the way in and out -----------------------------------

  /** The first `a` rules of the gate above INPUT's own rules, the first `b` above DOCKER-USER's. */
  function Gated(table: Table, net: string, a: nat, b: nat): (t: Table)
    requires HasChains(table) && a <= 2 && b <= 3
    ensures HasChains(t) && t.Keys == table.Keys
  {
    table[INPUT := GateRules(INPUT, net)[..a] + table[INPUT]]
      [DOCKER_USER := GateRules(DOCKER_USER, net)[..b] + table[DOCKER_USER]]
  }

  predicate Distinct(rules: seq<Rule>) {
    forall i, j :: 0 <= i < j < |rules| ==> rules[i] != rules[j]
  }

  lemma {:induction false} GateRulesDistinct(chain: string, net: string)
    requires IsCidr(net)
    ensures Distinct(GateRules(chain, net))
  {
    forall i: nat, j: nat | i < j < |GateRules(chain, net)|
      ensures GateRules(chain, net)[i] != GateRules(chain, net)[j]
    {
      GateDistinct(chain, net, i, j);
    }
  }

  /** Inserting the next rule below those already inserted, and deleting it again, whatever the chain held
      before: even an equal rule. */
  lemma {:induction false} InsertNext(table: Table, chain: string, rules: seq<Rule>, n: nat, below: seq<Rule>)
    requires n < |rules| && chain in table && table[chain] == rules[..n] + below
    ensures Exec(table, InsertRule(chain, n + 1, rules[n])) == Some(table[chain := rules[..n + 1] + below])
  {
    assert rules[..n] + [rules[n]] + below == rules[..n + 1] + below;
    assert table[chain][..n] == rules[..n] && table[chain][n..] == below;
  }

  lemma {:induction false} DeleteLast(table: Table, chain: string, rules: seq<Rule>, n: nat, below: seq<Rule>)
    requires n < |rules| && Distinct(rules) && chain in table && table[chain] == rules[..n + 1] + below
    ensures Exec(table, DeleteRule(chain, rules[n])) == Some(table[chain := rules[..n] + below])
  {
    var held := table[chain];
    var k := FirstEqual(held, rules[n]);
    assert held[n] == rules[n];
    assert forall i :: 0 <= i < n ==> held[i] == rules[i];
    assert k == n;
    assert held[..n] + held[n + 1..] == rules[..n] + below;
  }

  /** One more rule of either chain, and one fewer. */
  lemma {:induction false} GatedSteps(table: Table, net: string, a: nat, b: nat)
    requires HasChains(table) && IsCidr(net) && a <= 2 && b <= 3
    ensures a < 2 ==>
      && Exec(Gated(table, net, a, b), InsertRule(INPUT, a + 1, GateRules(INPUT, net)[a]))
           == Some(Gated(table, net, a + 1, b))
      && Exec(Gated(table, net, a + 1, b), DeleteRule(INPUT, GateRules(INPUT, net)[a])) == Some(Gated(table, net, a, b))
    ensures b < 3 ==>
      && Exec(Gated(table, net, a, b), InsertRule(DOCKER_USER, b + 1, GateRules(DOCKER_USER, net)[b]))
           == Some(Gated(table, net, a, b + 1))
      && Exec(Gated(table, net, a, b + 1), DeleteRule(DOCKER_USER, GateRules(DOCKER_USER, net)[b]))
           == Some(Gated(table, net, a, b))
  {
    assert INPUT != DOCKER_USER;
    GateRulesDistinct(INPUT, net);
    GateRulesDistinct(DOCKER_USER, net);
    if a < 2 {
      InsertNext(Gated(table, net, a, b), INPUT, GateRules(INPUT, net), a, table[INPUT]);
      DeleteLast(Gated(table, net, a + 1, b), INPUT, GateRules(INPUT, net), a, table[INPUT]);
      assert Gated(table, net, a, b)[INPUT := GateRules(INPUT, net)[..a + 1] + table[INPUT]]
          == Gated(table, net, a + 1, b);
      assert Gated(table, net, a + 1, b)[INPUT := GateRules(INPUT, net)[..a] + table[INPUT]] == Gated(table, net, a, b);
    }
    if b < 3 {
      InsertNext(Gated(table, net, a, b), DOCKER_USER, GateRules(DOCKER_USER, net), b, table[DOCKER_USER]);
      DeleteLast(Gated(table, net, a, b + 1), DOCKER_USER, GateRules(DOCKER_USER, net), b, table[DOCKER_USER]);
      assert Gated(table, net, a, b)[DOCKER_USER := GateRules(DOCKER_USER, net)[..b + 1] + table[DOCKER_USER]]
          == Gated(table, net, a, b + 1);
      assert Gated(table, net, a, b + 1)[DOCKER_USER := GateRules(DOCKER_USER, net)[..b] + table[DOCKER_USER]]
          == Gated(table, net, a, b);
    }
  }

  lemma {:induction false} GatedNone(table: Table, net: string)
    requires HasChains(table)
    ensures Gated(table, net, 0, 0) == table
  {
    assert GateRules(INPUT, net)[..0] + table[INPUT] == table[INPUT];
    assert GateRules(DOCKER_USER, net)[..0] + table[DOCKER_USER] == table[DOCKER_USER];
  }

  lemma {:induction false} ExecJoin(table: Table, a: seq<Command>, b: seq<Command>, mid: Table)
    requires ExecAll(table, a) == Some(mid)
    ensures ExecAll(table, a + b) == ExecAll(mid, b)
    decreases |a|
  {
    if a == [] {
      assert a + b == b;
    } else {
      assert (a + b)[1..] == a[1..] + b;
      ExecJoin(Exec(table, a[0]).value, a[1..], b, mid);
    }
  }

  lemma {:induction false} ExecOne(table: Table, command: Command)
    ensures ExecAll(table, [command]) == Exec(table, command)
  {
    assert [command][1..] == [];
  }

  /** The state after the first `k` apply commands. */
  function AppliedState(table: Table, net: string, k: nat): Table
    requires HasChains(table) && k <= 5
  {
    if k <= 2 then Gated(table, net, k, 0) else Gated(table, net, 2, k - 2)
  }

  lemma {:induction false} ApplyCommandAt(net: string, k: nat)
    requires k < 5
    ensures |ApplyCommands(net)| == 5
    ensures ApplyCommands(net)[k] ==
      if k < 2 then InsertRule(INPUT, k + 1, GateRules(INPUT, net)[k])
      else InsertRule(DOCKER_USER, k - 1, GateRules(DOCKER_USER, net)[k - 2])
  {
    assert INPUT != DOCKER_USER;
  }

  /** One apply command more, and its deletion. */
  lemma {:induction false} AppliedStep(table: Table, net: string, k: nat)
    requires HasChains(table) && IsCidr(net) && k < 5
    ensures |ApplyCommands(net)| == 5
    ensures var command := ApplyCommands(net)[k];
      && Exec(AppliedState(table, net, k), command) == Some(AppliedState(table, net, k + 1))
      && Exec(AppliedState(table, net, k + 1), DeleteRule(command.chain, command.rule))
           == Some(AppliedState(table, net, k))
  {
    ApplyCommandAt(net, k);
    if k < 2 {
      GatedSteps(table, net, k, 0);
    } else {
      GatedSteps(table, net, 2, k - 2);
    }
  }

  /** States that the commands lead through, one after another. */
  ghost predicate Trace(states: seq<Table>, commands: seq<Command>) {
    |states| == |commands| + 1 && forall k :: 0 <= k < |commands| ==>
      Exec(states[k], commands[k]) == Some(states[k + 1])
  }

  lemma {:induction false} TraceRuns(states: seq<Table>, commands: seq<Command>, k: nat)
    requires Trace(states, commands) && k <= |commands|
    ensures ExecAll(states[0], commands[..k]) == Some(states[k])
  {
    if k == 0 {
    } else {
      TraceRuns(states, commands, k - 1);
      ExecOne(states[k - 1], commands[k - 1]);
      ExecJoin(states[0], commands[..k - 1], [commands[k - 1]], states[k - 1]);
      assert commands[..k] == commands[..k - 1] + [commands[k - 1]];
    }
  }

  function AppliedStates(table: Table, net: string, n: nat): (states: seq<Table>)
    requires HasChains(table) && n <= 5
    ensures |states| == n + 1 && forall k :: 0 <= k <= n ==> states[k] == AppliedState(table, net, k)
  {
    (if n == 0 then [] else AppliedStates(table, net, n - 1)) + [AppliedState(table, net, n)]
  }

  lemma {:induction false} ApplyTrace(table: Table, net: string)
    requires HasChains(table) && IsCidr(net)
    ensures Trace(AppliedStates(table, net, 5), ApplyCommands(net)) && AppliedStates(table, net, 5)[0] == table
  {
    ApplyCommandAt(net, 0);
    GatedNone(table, net);
    forall k | 0 <= k < 5
      ensures Exec(AppliedStates(table, net, 5)[k], ApplyCommands(net)[k]) == Some(AppliedStates(table, net, 5)[k + 1])
    {
      AppliedStep(table, net, k);
    }
  }

  lemma {:induction false} ApplyPrefix(table: Table, net: string, k: nat)
    requires HasChains(table) && IsCidr(net) && k <= 5
    ensures |ApplyCommands(net)| == 5
    ensures ExecAll(table, ApplyCommands(net)[..k]) == Some(AppliedState(table, net, k))
  {
    ApplyTrace(table, net);
    TraceRuns(AppliedStates(table, net, 5), ApplyCommands(net), k);
  }

  /** The deletions of what was inserted, newest first (`remove_applied`). */
  function Undo(applied: seq<Command>): (r: seq<Command>)
    ensures |r| == |applied|
    ensures forall i :: 0 <= i < |r| ==>
      r[i] == DeleteRule(applied[|applied| - 1 - i].chain, applied[|applied| - 1 - i].rule)
  {
    if applied == [] then []
    else
      var last := applied[|applied| - 1];
      [DeleteRule(last.chain, last.rule)] + Undo(applied[..|applied| - 1])
  }

  lemma {:induction false} UndoFirst(applied: seq<Command>, state: Table, next: Table)
    requires applied != []
    requires var last := applied[|applied| - 1]; Exec(state, DeleteRule(last.chain, last.rule)) == Some(next)
    ensures ExecAll(state, Undo(applied)) == ExecAll(next, Undo(applied[..|applied| - 1]))
  {
    assert Undo(applied)[1..] == Undo(applied[..|applied| - 1]);
  }

  lemma {:induction false} UndoFrom(table: Table, net: string, k: nat)
    requires HasChains(table) && IsCidr(net) && k <= 5
    ensures |ApplyCommands(net)| == 5
    ensures ExecAll(AppliedState(table, net, k), Undo(ApplyCommands(net)[..k])) == Some(table)
  {
    ApplyCommandAt(net, 0);
    if k == 0 {
      GatedNone(table, net);
    } else {
      AppliedStep(table, net, k - 1);
      UndoFirst(ApplyCommands(net)[..k], AppliedState(table, net, k), AppliedState(table, net, k - 1));
      UndoFrom(table, net, k - 1);
      assert ApplyCommands(net)[..k][..k - 1] == ApplyCommands(net)[..k - 1];
    }
  }

  /** The commands can all be run, and deleting what they inserted, newest first, gives the chains back. */
  ghost predicate Restores(table: Table, applied: seq<Command>) {
    ExecAll(table, applied).Some? && ExecAll(ExecAll(table, applied).value, Undo(applied)) == Some(table)
  }

  /** From any chains, after any prefix of the apply commands, deleting what was inserted newest first
      restores both chains exactly. */
  lemma {:induction false} UndoRestores(table: Table, net: string, k: nat)
    requires HasChains(table) && IsCidr(net) && k <= 5
    ensures |ApplyCommands(net)| == 5
    ensures Restores(table, ApplyCommands(net)[..k])
  {
    ApplyPrefix(table, net, k);
    UndoFrom(table, net, k);
  }

  /** The state after the first `k` of the printed remove commands. */
  function RemovedState(table: Table, net: string, k: nat): Table
    requires HasChains(table) && k <= 5
  {
    if k <= 2 then Gated(table, net, 2 - k, 3) else Gated(table, net, 0, 5 - k)
  }

  lemma {:induction false} RemovedStep(table: Table, net: string, k: nat)
    requires HasChains(table) && IsCidr(net) && k < 5
    ensures |RemoveCommands(net)| == 5
    ensures Exec(RemovedState(table, net, k), RemoveCommands(net)[k]) == Some(RemovedState(table, net, k + 1))
  {
    assert INPUT != DOCKER_USER;
    if k < 2 {
      GatedSteps(table, net, 1 - k, 3);
    } else {
      GatedSteps(table, net, 0, 4 - k);
    }
  }

  function RemovedStates(table: Table, net: string, n: nat): (states: seq<Table>)
    requires HasChains(table) && n <= 5
    ensures |states| == n + 1 && forall k :: 0 <= k <= n ==> states[k] == RemovedState(table, net, k)
  {
    (if n == 0 then [] else RemovedStates(table, net, n - 1)) + [RemovedState(table, net, n)]
  }

  lemma {:induction false} RemoveTrace(table: Table, net: string)
    requires HasChains(table) && IsCidr(net)
    ensures Trace(RemovedStates(table, net, 5), RemoveCommands(net))
  {
    RemovedStep(table, net, 0);
    forall k | 0 <= k < 5
      ensures Exec(RemovedStates(table, net, 5)[k], RemoveCommands(net)[k]) == Some(RemovedStates(table, net, 5)[k + 1])
    {
      RemovedStep(table, net, k);
    }
  }

  lemma {:induction false} RemovePrefix(table: Table, net: string, k: nat)
    requires HasChains(table) && IsCidr(net) && k <= 5
    ensures |RemoveCommands(net)| == 5
    ensures ExecAll(Gated(table, net, 2, 3), RemoveCommands(net)[..k]) == Some(RemovedState(table, net, k))
  {
    RemoveTrace(table, net);
    TraceRuns(RemovedStates(table, net, 5), RemoveCommands(net), k);
  }

  /** The printed remove list undoes the printed apply list, though it deletes in another order. */
  lemma {:induction false} RemoveInvertsApply(table: Table, net: string)
    requires HasChains(table) && IsCidr(net)
    ensures ExecAll(table, ApplyCommands(net) + RemoveCommands(net)) == Some(table)
  {
    ApplyPrefix(table, net, 5);
    RemovePrefix(table, net, 5);
    GatedNone(table, net);
    assert ApplyCommands(net)[..5] == ApplyCommands(net) && RemoveCommands(net)[..5] == RemoveCommands(net);
    ExecJoin(table, ApplyCommands(net), RemoveCommands(net), Gated(table, net, 2, 3));
  }
}
