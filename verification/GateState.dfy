/** What a whole ruleset says of the gate: present, absent or partial, at every step of applying and
    removing it (examples/disposable-dogfood/dogfood.py). */
module GateState {
  import opened Results
  import opened Firewall
  import opened GateCommands

  datatype State = Present | Absent | Partial

  type Line = seq<string>

  predicate IsGrouped(line: Line) {
    |line| >= 2 && (line[0] == "-P" || line[0] == "-N" || line[0] == "-A")
  }

  /** The lines of a ruleset that belong to `chain`. */
  function LinesOf(ruleset: seq<Line>, chain: string): seq<Line> {
    if ruleset == [] then []
    else (if IsGrouped(ruleset[0]) && ruleset[0][1] == chain then [ruleset[0]] else []) + LinesOf(ruleset[1..], chain)
  }

  lemma {:induction false} LinesOfLast(ruleset: seq<Line>, line: Line, chain: string)
    ensures LinesOf(ruleset + [line], chain)
         == LinesOf(ruleset, chain) + (if IsGrouped(line) && line[1] == chain then [line] else [])
  {
    if ruleset == [] {
      assert [line][1..] == [];
    } else {
      assert (ruleset + [line])[1..] == ruleset[1..] + [line];
      LinesOfLast(ruleset[1..], line, chain);
    }
  }

  /** `split_iptables_ruleset`: the ruleset grouped by chain. */
  method SplitRuleset(ruleset: seq<Line>) returns (chains: Listings)
    ensures forall chain :: chain in chains <==> LinesOf(ruleset, chain) != []
    ensures forall chain :: chain in chains ==> chains[chain] == LinesOf(ruleset, chain)
  {
    chains := map[];
    for i := 0 to |ruleset|
      invariant forall chain :: chain in chains <==> LinesOf(ruleset[..i], chain) != []
      invariant forall chain :: chain in chains ==> chains[chain] == LinesOf(ruleset[..i], chain)
    {
      var line := ruleset[i];
      assert ruleset[..i + 1] == ruleset[..i] + [line];
      forall chain: string ensures LinesOf(ruleset[..i + 1], chain)
        == LinesOf(ruleset[..i], chain) + (if IsGrouped(line) && line[1] == chain then [line] else []) {
        LinesOfLast(ruleset[..i], line, chain);
      }
      if IsGrouped(line) {
        chains := chains[line[1] := (if line[1] in chains then chains[line[1]] else []) + [line]];
      }
    }
    assert ruleset[..|ruleset|] == ruleset;
  }

  lemma {:induction false} GroupedListing(ruleset: seq<Line>, chain: string)
    ensures Appended(LinesOf(ruleset, chain), chain) == Appended(ruleset, chain)
    ensures (exists line :: line in LinesOf(ruleset, chain) && IsHeader(line, chain))
        <==> exists line :: line in ruleset && IsHeader(line, chain)
  {
    if ruleset == [] {
    } else {
      GroupedListing(ruleset[1..], chain);
      var rest := LinesOf(ruleset[1..], chain);
      if IsGrouped(ruleset[0]) && ruleset[0][1] == chain {
        assert LinesOf(ruleset, chain) == [ruleset[0]] + rest;
        assert ([ruleset[0]] + rest)[1..] == rest;
      } else {
        assert LinesOf(ruleset, chain) == rest;
      }
      assert ruleset == [ruleset[0]] + ruleset[1..];
    }
  }

  /** The lines that name this sandbox. */
  function Left(ruleset: seq<Line>, net: string): (left: seq<Line>)
    ensures forall line :: line in left <==> line in ruleset && Names(line, net)
  {
    if ruleset == [] then []
    else (if Names(ruleset[0], net) then [ruleset[0]] else []) + Left(ruleset[1..], net)
  }

  /** Both chains exist in a ruleset and the gate heads each. */
  predicate RulesetHolds(ruleset: seq<Line>, net: string) {
    forall chain :: chain in CHAINS ==>
      && (exists line :: line in ruleset && IsHeader(line, chain))
      && GateFirst(NormalizeAll(Appended(ruleset, chain)), GateRules(chain, net))
  }

  function StateOf(ruleset: seq<Line>, net: string): State {
    if RulesetHolds(ruleset, net) then Present
    else if Left(ruleset, net) == [] then Absent
    else Partial
  }

  lemma {:induction false} SplitHolds(ruleset: seq<Line>, listings: Listings, net: string)
    requires forall chain :: chain in listings <==> LinesOf(ruleset, chain) != []
    requires forall chain :: chain in listings ==> listings[chain] == LinesOf(ruleset, chain)
    ensures GateHolds(listings, net) <==> RulesetHolds(ruleset, net)
  {
    GroupedListing(ruleset, INPUT);
    GroupedListing(ruleset, DOCKER_USER);
    assert INPUT in CHAINS && DOCKER_USER in CHAINS;
    assert ChainHolds(listings, INPUT, net) <==>
      && (exists line :: line in ruleset && IsHeader(line, INPUT))
      && GateFirst(NormalizeAll(Appended(ruleset, INPUT)), GateRules(INPUT, net));
    assert ChainHolds(listings, DOCKER_USER, net) <==>
      && (exists line :: line in ruleset && IsHeader(line, DOCKER_USER))
      && GateFirst(NormalizeAll(Appended(ruleset, DOCKER_USER)), GateRules(DOCKER_USER, net));
  }

  /** `evaluate_gate_state`. */
  method EvaluateGateState(ruleset: seq<Line>, net: string) returns (state: State, findings: seq<Line>)
    ensures state == StateOf(ruleset, net)
    ensures findings == if state == Partial then Left(ruleset, net) else []
  {
    var listings := SplitRuleset(ruleset);
    SplitHolds(ruleset, listings, net);
    var found := EvaluateIptables(listings, net);
    if found == [] {
      return Present, [];
    }
    var left := Left(ruleset, net);
    if left == [] {
      return Absent, [];
    }
    return Partial, left;
  }

  // --- rulesets as the table changes ---------------------------------------

  /** A ruleset printed while the table is `table`: both chains are announced, their rules are listed in
      order, and no line but those rules names the sandbox. */
  ghost predicate Prints(ruleset: seq<Line>, table: Table, net: string) {
    && HasChains(table)
    && (forall chain :: chain in CHAINS ==>
      && (exists line :: line in ruleset && IsHeader(line, chain))
      && Appended(ruleset, chain) == table[chain])
    && (forall line :: line in ruleset && Names(line, net) ==> IsAppended(line, INPUT) || IsAppended(line, DOCKER_USER))
  }

  predicate NamesNothing(table: Table, net: string)
    requires HasChains(table)
  {
    forall chain :: chain in CHAINS ==> forall rule :: rule in table[chain] ==> !Names(rule, net)
  }

  lemma {:induction false} AppendedLines(ruleset: seq<Line>, chain: string, rule: Rule)
    ensures rule in Appended(ruleset, chain) <==>
      exists line :: line in ruleset && IsAppended(line, chain) && line[2..] == rule
  {
    if ruleset == [] {
    } else {
      AppendedLines(ruleset[1..], chain, rule);
      assert ruleset == [ruleset[0]] + ruleset[1..];
    }
  }

  /** The gate heads a chain exactly when all of its rules have been inserted. */
  lemma {:induction false} HeadComplete(chain: string, net: string, n: nat, below: seq<Rule>)
    requires chain in CHAINS && IsCidr(net) && n <= |GateRules(chain, net)|
    requires forall rule :: rule in below ==> !Names(rule, net)
    ensures GateFirst(NormalizeAll(GateRules(chain, net)[..n] + below), GateRules(chain, net)) <==>
      n == |GateRules(chain, net)|
  {
    var rules, held := GateRules(chain, net), GateRules(chain, net)[..n] + below;
    var candidates := NormalizeAll(held);
    forall i | 0 <= i < |rules| && n <= |candidates|
      ensures forall j :: n <= j < |candidates| ==> candidates[j] != Normalize(rules[i])
    {
      forall j | n <= j < |candidates| ensures candidates[j] != Normalize(rules[i]) {
        assert held[j] in below;
        if candidates[j] == Normalize(rules[i]) {
          GateNames(chain, net, i, held[j]);
        }
      }
    }
    if n < |rules| {
      assert GateFirst(candidates, rules) ==> OnlyAt(candidates, Normalize(rules[n]), n);
    } else {
      forall i, j | 0 <= i < |rules| && 0 <= j < |rules| && i != j ensures candidates[j] != Normalize(rules[i]) {
        if i < j { GateDistinct(chain, net, i, j); } else { GateDistinct(chain, net, j, i); }
      }
      forall i | 0 <= i < |rules| ensures OnlyAt(candidates, Normalize(rules[i]), i) {
      }
    }
  }

  /** At every step of applying or removing the gate on rules that do not name the sandbox, the state is
      Present exactly when all five rules are in and Absent exactly when none is. */
  lemma {:induction false} StateAtEveryStep(ruleset: seq<Line>, table: Table, net: string, a: nat, b: nat)
    requires HasChains(table) && IsCidr(net) && a <= 2 && b <= 3
    requires NamesNothing(table, net) && Prints(ruleset, Gated(table, net, a, b), net)
    ensures StateOf(ruleset, net) == Present <==> a == 2 && b == 3
    ensures StateOf(ruleset, net) == Absent <==> a == 0 && b == 0
  {
    var now := Gated(table, net, a, b);
    assert CHAINS[0] == INPUT && CHAINS[1] == DOCKER_USER && INPUT != DOCKER_USER;
    assert INPUT in CHAINS && DOCKER_USER in CHAINS;
    HeadComplete(INPUT, net, a, table[INPUT]);
    HeadComplete(DOCKER_USER, net, b, table[DOCKER_USER]);
    if a > 0 || b > 0 {
      LeftWhenGated(ruleset, now, net, if a > 0 then INPUT else DOCKER_USER);
    } else {
      GatedNone(table, net);
      LeftWhenBare(ruleset, table, net);
    }
  }

  lemma {:induction false} LeftWhenGated(ruleset: seq<Line>, table: Table, net: string, chain: string)
    requires HasChains(table) && chain in CHAINS && Prints(ruleset, table, net)
    requires table[chain] != [] && table[chain][0] == ESTABLISHED
    ensures Left(ruleset, net) != []
  {
    AppendedLines(ruleset, chain, ESTABLISHED);
    var line :| line in ruleset && IsAppended(line, chain) && line[2..] == ESTABLISHED;
    assert line[3] == line[2..][1] == BRIDGE;
    assert line in Left(ruleset, net);
  }

  lemma {:induction false} LeftWhenBare(ruleset: seq<Line>, table: Table, net: string)
    requires HasChains(table) && IsCidr(net) && NamesNothing(table, net) && Prints(ruleset, table, net)
    ensures Left(ruleset, net) == []
  {
    assert INPUT in CHAINS && DOCKER_USER in CHAINS;
    forall line | line in ruleset ensures !Names(line, net) {
      if IsAppended(line, INPUT) || IsAppended(line, DOCKER_USER) {
        var chain := line[1];
        AppendedLines(ruleset, chain, line[2..]);
        assert line[2..] in table[chain];
        NoCidr(line[0], line[1], net);
        assert line == [line[0], line[1]] + line[2..];
      }
    }
    LeftNone(ruleset, net);
  }

  lemma {:induction false} LeftNone(ruleset: seq<Line>, net: string)
    requires forall line :: line in ruleset ==> !Names(line, net)
    ensures Left(ruleset, net) == []
  {
    if ruleset == [] {
    } else {
      assert ruleset[0] in ruleset;
      LeftNone(ruleset[1..], net);
    }
  }

  lemma NoCidr(option: string, chain: string, net: string)
    requires IsCidr(net) && option == "-A" && chain in CHAINS
    ensures option != net && chain != net && option != BRIDGE && chain != BRIDGE
  {
  }

  /** No step newly drops an established packet from the bridge: it is accepted, or decided by the rules
      that were there before. */
  lemma {:induction false} EstablishedNeverNewlyDropped(table: Table, net: string, a: nat, b: nat, chain: string,
                                                       meaning: Meaning, p: Packet)
    requires HasChains(table) && IsCidr(net) && a <= 2 && b <= 3
    requires chain in CHAINS && GateMeaning(meaning, net) && p.fromBridge && p.established
    ensures var verdict := Walk(NormalizeAll(Gated(table, net, a, b)[chain]), meaning, p);
      verdict == Some(Accept) || verdict == Walk(NormalizeAll(table[chain]), meaning, p)
  {
    assert INPUT != DOCKER_USER && (chain == INPUT || chain == DOCKER_USER);
    var n := if chain == INPUT then a else b;
    var head, below := GateRules(chain, net)[..n], table[chain];
    assert Gated(table, net, a, b)[chain] == head + below;
    assert NormalizeAll(head + below) == NormalizeAll(head) + NormalizeAll(below);
    WalkGate(chain, net, n, meaning, p);
    WalkHead(NormalizeAll(head), NormalizeAll(below), meaning, p);
  }
}
