/** The sandbox's host firewall gate: its rules, how they are inserted and deleted, and how a listing is
    judged (examples/disposable-dogfood/dogfood.py). A line of `iptables -S` is the list of its tokens. */
module Firewall {
  import opened Results
  import opened Text
  import opened Ordering
  import opened Sorting

  type Rule = seq<string>

  const BRIDGE := "fabric-dogfood0"
  const INPUT := "INPUT"
  const DOCKER_USER := "DOCKER-USER"
  const CHAINS := [INPUT, DOCKER_USER]

  /** A subnet in CIDR notation is written with a slash, which no other token of the gate has. */
  predicate IsCidr(net: string) { '/' in net }

  const ESTABLISHED: Rule :=
    ["-i", BRIDGE, "-m", "conntrack", "--ctstate", "RELATED,ESTABLISHED", "-j", "ACCEPT"]

  const FROM_BRIDGE: Rule := ["-i", BRIDGE, "-j", "DROP"]

  const OFF_BRIDGE: Rule := ["-i", BRIDGE, "!", "-o", BRIDGE, "-j", "DROP"]

  function OutOfSubnet(net: string): Rule { ["-s", net, "!", "-d", net, "-j", "DROP"] }

  /** `expected_iptables_rules`: the gate, top to bottom. */
  function GateRules(chain: string, net: string): seq<Rule> {
    if chain == INPUT then [ESTABLISHED, FROM_BRIDGE]
    else if chain == DOCKER_USER then [ESTABLISHED, OutOfSubnet(net), OFF_BRIDGE]
    else []
  }

  // --- normal forms --------------------------------------------------------

  /** The connection states of a match, sorted. */
  function SortStates(states: string): string {
    Join(Sort(Split(states, ','), StringLess), ',')
  }

  /** `normalize_rule`. */
  function Normalize(rule: Rule): (r: Rule)
    ensures |r| == |rule|
    ensures forall i :: 0 <= i < |r| ==>
      r[i] == if i > 0 && rule[i - 1] == "--ctstate" then SortStates(rule[i]) else rule[i]
  {
    seq(|rule|, i requires 0 <= i < |rule| =>
      if i > 0 && rule[i - 1] == "--ctstate" then SortStates(rule[i]) else rule[i])
  }

  /** Two matches have one normal form exactly when they name the same states, in whatever order. */
  lemma {:induction false} StatesInAnyOrder(a: string, b: string)
    ensures SortStates(a) == SortStates(b) <==> multiset(Split(a, ',')) == multiset(Split(b, ','))
  {
    StringOrder();
    TotalIsWeak(StringLess);
    if multiset(Split(a, ',')) == multiset(Split(b, ',')) {
      SortForgetsOrder(Split(a, ','), Split(b, ','), StringLess);
    }
    SortedStates(a);
    SortedStates(b);
  }

  /** Sorting the states loses none of them. */
  lemma {:induction false} SortedStates(states: string)
    ensures multiset(Split(SortStates(states), ',')) == multiset(Split(states, ','))
  {
    var parts := Split(states, ',');
    var sorted := Sort(parts, StringLess);
    SplitJoins(states, ',');
    SortSame(parts, StringLess);
    forall i | 0 <= i < |sorted| ensures ',' !in sorted[i] {
      assert sorted[i] in multiset(sorted);
      assert sorted[i] in parts;
    }
    assert |multiset(sorted)| == |sorted| && |multiset(parts)| == |parts|;
    JoinSplits(sorted, ',');
  }

  function NormalizeAll(rules: seq<Rule>): (r: seq<Rule>)
    ensures |r| == |rules| && forall i :: 0 <= i < |r| ==> r[i] == Normalize(rules[i])
  {
    seq(|rules|, i requires 0 <= i < |rules| => Normalize(rules[i]))
  }

  /** The rules of the gate have distinct normal forms, and a rule that names neither the bridge nor the
      subnet has none of them. */
  lemma {:induction false} GateDistinct(chain: string, net: string, i: nat, j: nat)
    requires chain in CHAINS && IsCidr(net) && i < j < |GateRules(chain, net)|
    ensures Normalize(GateRules(chain, net)[i]) != Normalize(GateRules(chain, net)[j])
  {
    var a, b := Normalize(GateRules(chain, net)[i]), Normalize(GateRules(chain, net)[j]);
    assert |a| != |b| || a[0] == "-s";
  }

  predicate Names(line: seq<string>, net: string) {
    BRIDGE in line || net in line
  }

  lemma {:induction false} GateNames(chain: string, net: string, i: nat, rule: Rule)
    requires chain in CHAINS && IsCidr(net) && i < |GateRules(chain, net)|
    requires Normalize(rule) == Normalize(GateRules(chain, net)[i])
    ensures Names(rule, net)
  {
    var wanted := GateRules(chain, net)[i];
    assert Normalize(wanted)[0] == wanted[0] == Normalize(rule)[0] == rule[0];
    assert Normalize(wanted)[1] == wanted[1] == Normalize(rule)[1] == rule[1];
  }

  // --- judging a listing ---------------------------------------------------

  predicate IsHeader(line: seq<string>, chain: string) {
    |line| >= 2 && (line[0] == "-N" || line[0] == "-P") && line[1] == chain
  }

  predicate IsAppended(line: seq<string>, chain: string) {
    |line| >= 2 && line[0] == "-A" && line[1] == chain
  }

  /** The rules a listing gives `chain`, in order, as written. */
  function Appended(lines: seq<seq<string>>, chain: string): seq<Rule> {
    if lines == [] then []
    else (if IsAppended(lines[0], chain) then [lines[0][2..]] else []) + Appended(lines[1..], chain)
  }

  /** The positions of the candidates equal to `wanted`. */
  function Hits(candidates: seq<Rule>, wanted: Rule, from: nat): seq<nat>
    requires from <= |candidates|
    decreases |candidates| - from
  {
    if from == |candidates| then []
    else (if candidates[from] == wanted then [from] else []) + Hits(candidates, wanted, from + 1)
  }

  datatype Finding =
    | ListingMissing(chain: string)
    | ChainMissing(chain: string)
    | NotOnce(chain: string, rule: Rule)
    | NotFirst(chain: string, positions: seq<nat>)

  type Listings = map<string, seq<seq<string>>>

  /** What the gate requires of one chain: each of its rules exactly once, and first, in order. */
  predicate GateFirst(candidates: seq<Rule>, rules: seq<Rule>) {
    && |rules| <= |candidates|
    && forall i :: 0 <= i < |rules| ==> OnlyAt(candidates, Normalize(rules[i]), i)
  }

  predicate OnlyAt(candidates: seq<Rule>, wanted: Rule, i: nat) {
    && i < |candidates| && candidates[i] == wanted
    && forall j :: 0 <= j < |candidates| && j != i ==> candidates[j] != wanted
  }

  predicate ChainHolds(listings: Listings, chain: string, net: string) {
    && chain in listings
    && (exists line :: line in listings[chain] && IsHeader(line, chain))
    && GateFirst(NormalizeAll(Appended(listings[chain], chain)), GateRules(chain, net))
  }

  predicate GateHolds(listings: Listings, net: string) {
    ChainHolds(listings, INPUT, net) && ChainHolds(listings, DOCKER_USER, net)
  }

  lemma {:induction false} HitsAre(candidates: seq<Rule>, wanted: Rule, from: nat)
    requires from <= |candidates|
    ensures forall k :: k in Hits(candidates, wanted, from) <==> from <= k < |candidates| && candidates[k] == wanted
    ensures |Hits(candidates, wanted, from)| == 1 ==>
      forall j :: from <= j < |candidates| && candidates[j] == wanted ==> j == Hits(candidates, wanted, from)[0]
    decreases |candidates| - from
  {
    if from < |candidates| {
      HitsAre(candidates, wanted, from + 1);
    }
  }

  lemma {:induction false} HitsOnce(candidates: seq<Rule>, wanted: Rule, from: nat, k: nat)
    requires from <= k < |candidates| && candidates[k] == wanted
    requires forall j :: from <= j < |candidates| && j != k ==> candidates[j] != wanted
    ensures Hits(candidates, wanted, from) == [k]
    decreases |candidates| - from
  {
    if from < k {
      HitsOnce(candidates, wanted, from + 1, k);
    } else {
      NoHits(candidates, wanted, from + 1);
    }
  }

  lemma {:induction false} NoHits(candidates: seq<Rule>, wanted: Rule, from: nat)
    requires from <= |candidates| && forall j :: from <= j < |candidates| ==> candidates[j] != wanted
    ensures Hits(candidates, wanted, from) == []
    decreases |candidates| - from
  {
    if from < |candidates| {
      NoHits(candidates, wanted, from + 1);
    }
  }

  function Range(n: nat): (r: seq<nat>)
    ensures |r| == n && forall i :: 0 <= i < n ==> r[i] == i
  {
    if n == 0 then [] else Range(n - 1) + [n - 1]
  }

  predicate FoundOnce(candidates: seq<Rule>, rule: Rule) { |Hits(candidates, Normalize(rule), 0)| == 1 }

  predicate FoundAt(candidates: seq<Rule>, rule: Rule, position: nat) {
    Hits(candidates, Normalize(rule), 0) == [position]
  }

  /** Each rule of the gate is looked for in the chain. */
  method Locate(chain: string, rules: seq<Rule>, candidates: seq<Rule>)
    returns (findings: seq<Finding>, positions: seq<nat>)
    ensures forall f :: f in findings ==> f.chain == chain
    ensures |positions| + |findings| == |rules|
    ensures findings == [] <==> forall k :: 0 <= k < |rules| ==> FoundOnce(candidates, rules[k])
    ensures findings == [] ==> forall k :: 0 <= k < |rules| ==> FoundAt(candidates, rules[k], positions[k])
  {
    findings, positions := [], [];
    for i := 0 to |rules|
      invariant forall f :: f in findings ==> f.chain == chain
      invariant |positions| + |findings| == i
      invariant findings != [] ==> exists k :: 0 <= k < i && !FoundOnce(candidates, rules[k])
      invariant findings == [] ==> forall k :: 0 <= k < i ==> FoundAt(candidates, rules[k], positions[k])
    {
      var hits := Hits(candidates, Normalize(rules[i]), 0);
      if |hits| != 1 {
        findings := findings + [NotOnce(chain, rules[i])];
      } else {
        positions := positions + [hits[0]];
      }
    }
    if findings == [] {
      forall k | 0 <= k < |rules| ensures FoundOnce(candidates, rules[k]) {
        assert FoundAt(candidates, rules[k], positions[k]);
      }
    }
  }

  /** The inner loop: one chain that exists. */
  method EvaluateChain(chain: string, rules: seq<Rule>, candidates: seq<Rule>) returns (findings: seq<Finding>)
    ensures findings == [] <==> GateFirst(candidates, rules)
    ensures forall f :: f in findings ==> f.chain == chain
  {
    var positions;
    findings, positions := Locate(chain, rules, candidates);
    OnceAndInOrder(candidates, rules, positions);
    if |positions| == |rules| && positions != Range(|rules|) {
      findings := findings + [NotFirst(chain, positions)];
    }
  }

  lemma {:induction false} OnceAndInOrder(candidates: seq<Rule>, rules: seq<Rule>, positions: seq<nat>)
    requires |positions| <= |rules|
    requires |positions| == |rules| ==> forall k :: 0 <= k < |rules| ==> FoundAt(candidates, rules[k], positions[k])
    requires |positions| < |rules| ==> !forall k :: 0 <= k < |rules| ==> FoundOnce(candidates, rules[k])
    ensures GateFirst(candidates, rules) <==> |positions| == |rules| && positions == Range(|rules|)
  {
    if GateFirst(candidates, rules) {
      forall k | 0 <= k < |rules| ensures Hits(candidates, Normalize(rules[k]), 0) == [k] {
        HitsOnce(candidates, Normalize(rules[k]), 0, k);
      }
    }
    if |positions| == |rules| && positions == Range(|rules|) {
      forall i | 0 <= i < |rules| ensures i < |candidates| && OnlyAt(candidates, Normalize(rules[i]), i) {
        HitsAre(candidates, Normalize(rules[i]), 0);
        assert positions[i] == Range(|rules|)[i] == i && i in [positions[i]];
      }
      if rules != [] {
        var last := |rules| - 1;
        assert OnlyAt(candidates, Normalize(rules[last]), last);
      }
    }
  }

  /** `evaluate_iptables`: no finding exactly when the whole gate heads both chains. */
  method EvaluateIptables(listings: Listings, net: string) returns (findings: seq<Finding>)
    ensures findings == [] <==> GateHolds(listings, net)
    ensures findings == [] && IsCidr(net) ==>
      && ListsGate(Appended(listings[INPUT], INPUT), INPUT, net)
      && ListsGate(Appended(listings[DOCKER_USER], DOCKER_USER), DOCKER_USER, net)
  {
    findings := [];
    for c := 0 to |CHAINS|
      invariant findings == [] <==> forall k :: 0 <= k < c ==> ChainHolds(listings, CHAINS[k], net)
    {
      var chain := CHAINS[c];
      if chain !in listings {
        findings := findings + [ListingMissing(chain)];
        continue;
      }
      var lines := listings[chain];
      if !exists line :: line in lines && IsHeader(line, chain) {
        findings := findings + [ChainMissing(chain)];
        continue;
      }
      var found := EvaluateChain(chain, GateRules(chain, net), NormalizeAll(Appended(lines, chain)));
      findings := findings + found;
    }
    assert CHAINS[0] == INPUT && CHAINS[1] == DOCKER_USER;
    if findings == [] && IsCidr(net) {
      CleanListsGate(listings, net, INPUT);
      CleanListsGate(listings, net, DOCKER_USER);
    }
  }

  /** The two ways of writing the states that the accept rule asks for. */
  const STATES := {"RELATED,ESTABLISHED", "ESTABLISHED,RELATED"}

  /** The gate as a clean listing has it: to the letter, but for the order of the two states. */
  ghost predicate ListsGate(listed: seq<Rule>, chain: string, net: string) {
    && |listed| >= |GateRules(chain, net)| >= 1
    && |listed[0]| == 8 && listed[0][5] in STATES && listed[0] == ESTABLISHED[5 := listed[0][5]]
    && forall i :: 1 <= i < |GateRules(chain, net)| ==> listed[i] == GateRules(chain, net)[i]
  }

  /** A rule with the normal form of `plain` is the same up to where `plain` first has a state match. */
  lemma {:induction false} PlainUpTo(rule: Rule, plain: Rule, n: nat)
    requires Normalize(rule) == Normalize(plain) && n <= |plain|
    requires forall i :: 0 <= i < n - 1 ==> plain[i] != "--ctstate"
    ensures |rule| == |plain| && forall i :: 0 <= i < n ==> rule[i] == plain[i]
  {
    assert |Normalize(rule)| == |Normalize(plain)|;
    if n == 0 {
    } else {
      PlainUpTo(rule, plain, n - 1);
      assert Normalize(rule)[n - 1] == Normalize(plain)[n - 1];
    }
  }

  lemma {:induction false} TwoStates(parts: seq<string>, a: string, b: string)
    ensures multiset(parts) == multiset([a, b]) <==> parts == [a, b] || parts == [b, a]
  {
    assert multiset([b, a]) == multiset([a, b]);
    if multiset(parts) == multiset([a, b]) {
      assert |multiset(parts)| == |parts| && |multiset([a, b])| == 2;
      assert parts == [parts[0], parts[1]] && multiset(parts) == multiset{parts[0], parts[1]};
      assert parts[0] in multiset([a, b]) && parts[1] in multiset([a, b]);
      assert multiset{parts[0], parts[1]}[a] == multiset{a, b}[a];
    }
  }

  lemma {:induction false} SplitPair(states: string, a: string, b: string)
    requires ',' !in a && ',' !in b
    ensures Split(states, ',') == [a, b] <==> states == a + "," + b
  {
    SplitJoins(states, ',');
    JoinSplits([a, b], ',');
    assert Join([a, b], ',') == a + "," + b;
  }

  const RELATED := "RELATED"
  const ESTABLISHED_STATE := "ESTABLISHED"

  /** Only the two states, in either order, are accepted as the states of the accept rule. */
  lemma {:induction false} StatesWanted(states: string)
    ensures SortStates(states) == SortStates("RELATED,ESTABLISHED") <==> states in STATES
  {
    assert RELATED + "," + ESTABLISHED_STATE == "RELATED,ESTABLISHED";
    assert ESTABLISHED_STATE + "," + RELATED == "ESTABLISHED,RELATED";
    StatesOfTwo(states, RELATED, ESTABLISHED_STATE);
  }

  lemma {:induction false} StatesOfTwo(states: string, a: string, b: string)
    requires ',' !in a && ',' !in b
    ensures SortStates(states) == SortStates(a + "," + b) <==> states == a + "," + b || states == b + "," + a
  {
    StatesInAnyOrder(states, a + "," + b);
    SplitPair(a + "," + b, a, b);
    SplitPair(states, a, b);
    SplitPair(states, b, a);
    TwoStates(Split(states, ','), a, b);
  }

  /** `plain` has one state match, whose states are at `k`. */
  predicate OneMatch(plain: Rule, k: nat) {
    1 <= k < |plain| && forall i :: 0 <= i < |plain| ==> (plain[i] == "--ctstate" <==> i == k - 1)
  }

  lemma {:induction false} MatchedStates(rule: Rule, plain: Rule, k: nat)
    requires OneMatch(plain, k) && Normalize(rule) == Normalize(plain)
    ensures |rule| == |plain| && SortStates(rule[k]) == SortStates(plain[k])
  {
    PlainUpTo(rule, plain, k);
    assert rule[k - 1] == plain[k - 1];
    assert Normalize(rule)[k] == Normalize(plain)[k];
  }

  lemma {:induction false} MatchedRest(rule: Rule, plain: Rule, k: nat, n: nat)
    requires OneMatch(plain, k) && Normalize(rule) == Normalize(plain) && |rule| == |plain|
    requires rule[k] != "--ctstate" && k < n <= |plain|
    ensures forall i :: 0 <= i < n && i != k ==> rule[i] == plain[i]
    decreases n
  {
    PlainUpTo(rule, plain, k);
    if n == k + 1 {
    } else {
      MatchedRest(rule, plain, k, n - 1);
      assert Normalize(rule)[n - 1] == Normalize(plain)[n - 1];
      assert rule[n - 2] != "--ctstate" && plain[n - 2] != "--ctstate";
    }
  }

  lemma {:induction false} AcceptRule(rule: Rule)
    requires Normalize(rule) == Normalize(ESTABLISHED)
    ensures |rule| == 8 && rule[5] in STATES && rule == ESTABLISHED[5 := rule[5]]
  {
    assert OneMatch(ESTABLISHED, 5);
    MatchedStates(rule, ESTABLISHED, 5);
    StatesWanted(rule[5]);
    NotAnOption(rule[5]);
    MatchedRest(rule, ESTABLISHED, 5, 8);
  }

  lemma NotAnOption(states: string)
    requires states in STATES
    ensures states != "--ctstate"
  {
  }

  /** What an accepted listing says of each chain. */
  lemma {:induction false} CleanListsGate(listings: Listings, net: string, chain: string)
    requires chain in CHAINS && IsCidr(net) && ChainHolds(listings, chain, net)
    ensures ListsGate(Appended(listings[chain], chain), chain, net)
  {
    var rules, listed := GateRules(chain, net), Appended(listings[chain], chain);
    assert OnlyAt(NormalizeAll(listed), Normalize(rules[0]), 0);
    AcceptRule(listed[0]);
    forall i | 1 <= i < |rules| ensures listed[i] == rules[i] {
      assert OnlyAt(NormalizeAll(listed), Normalize(rules[i]), i);
      PlainUpTo(listed[i], rules[i], |rules[i]|);
    }
  }

  // --- what the gate does to packets ---------------------------------------

  /** What the gate's rules look at; `rest` stands for everything else about a packet. */
  datatype Packet = Packet(fromBridge: bool, toBridge: bool, fromSubnet: bool, toSubnet: bool, established: bool,
                           rest: nat)

  datatype Verdict = Accept | Drop | Other(outcome: nat)

  /** What a rule in normal form decides about a packet; None when it does not end the walk. */
  type Meaning = (Rule, Packet) -> Option<Verdict>

  /** The gate's rules mean what iptables says they do; nothing is known of any other rule. */
  ghost predicate GateMeaning(meaning: Meaning, net: string) {
    forall p: Packet ::
      && meaning(Normalize(ESTABLISHED), p) == (if p.fromBridge && p.established then Some(Accept) else None)
      && meaning(Normalize(FROM_BRIDGE), p) == (if p.fromBridge then Some(Drop) else None)
      && meaning(Normalize(OutOfSubnet(net)), p) == (if p.fromSubnet && !p.toSubnet then Some(Drop) else None)
      && meaning(Normalize(OFF_BRIDGE), p) == (if p.fromBridge && !p.toBridge then Some(Drop) else None)
  }

  /** The first rule that decides; None leaves the packet to the chain's policy or its caller. */
  function Walk(rules: seq<Rule>, meaning: Meaning, p: Packet): Option<Verdict> {
    if rules == [] then None
    else
      match meaning(rules[0], p)
      case Some(verdict) => Some(verdict)
      case None => Walk(rules[1..], meaning, p)
  }

  lemma {:induction false} WalkHead(head: seq<Rule>, below: seq<Rule>, meaning: Meaning, p: Packet)
    ensures Walk(head + below, meaning, p)
         == match Walk(head, meaning, p) case Some(v) => Some(v) case None => Walk(below, meaning, p)
  {
    if head == [] {
      assert head + below == below;
    } else {
      assert (head + below)[1..] == head[1..] + below;
      WalkHead(head[1..], below, meaning, p);
    }
  }

  /** What the first `n` rules of a chain's gate decide. */
  function GateVerdict(chain: string, n: nat, p: Packet): Option<Verdict> {
    if n >= 1 && p.fromBridge && p.established then Some(Accept)
    else if chain == INPUT && n >= 2 && p.fromBridge then Some(Drop)
    else if chain == DOCKER_USER && n >= 2 && p.fromSubnet && !p.toSubnet then Some(Drop)
    else if chain == DOCKER_USER && n >= 3 && p.fromBridge && !p.toBridge then Some(Drop)
    else None
  }

  lemma {:induction false} WalkGate(chain: string, net: string, n: nat, meaning: Meaning, p: Packet)
    requires chain in CHAINS && n <= |GateRules(chain, net)| && GateMeaning(meaning, net)
    ensures Walk(NormalizeAll(GateRules(chain, net)[..n]), meaning, p) == GateVerdict(chain, n, p)
  {
    if n == 0 {
    } else {
      var rules, last := GateRules(chain, net), Normalize(GateRules(chain, net)[n - 1]);
      WalkGate(chain, net, n - 1, meaning, p);
      WalkHead(NormalizeAll(rules[..n - 1]), [last], meaning, p);
      assert NormalizeAll(rules[..n]) == NormalizeAll(rules[..n - 1]) + [last];
      assert Walk([last], meaning, p) == meaning(last, p);
      assert INPUT != DOCKER_USER;
    }
  }

  /** A chain's rules as a listing gives them, in normal form. */
  function Listed(listings: Listings, chain: string): seq<Rule>
    requires chain in listings
  {
    NormalizeAll(Appended(listings[chain], chain))
  }

  lemma {:induction false} GateHeads(candidates: seq<Rule>, rules: seq<Rule>)
    requires GateFirst(candidates, rules)
    ensures candidates == NormalizeAll(rules) + candidates[|rules|..]
  {
    forall i | 0 <= i < |rules| ensures candidates[i] == NormalizeAll(rules)[i] {
      assert OnlyAt(candidates, Normalize(rules[i]), i);
    }
  }

  lemma {:induction false} WalkListed(rules: seq<Rule>, chain: string, net: string, meaning: Meaning, p: Packet)
    requires chain in CHAINS && GateFirst(rules, GateRules(chain, net)) && GateMeaning(meaning, net)
    ensures var n := |GateRules(chain, net)|;
      Walk(rules, meaning, p) ==
        match GateVerdict(chain, n, p) case Some(v) => Some(v) case None => Walk(rules[n..], meaning, p)
  {
    var gate := GateRules(chain, net);
    GateHeads(rules, gate);
    WalkGate(chain, net, |gate|, meaning, p);
    assert gate[..|gate|] == gate;
    WalkHead(NormalizeAll(gate), rules[|gate|..], meaning, p);
  }

  /** A listing without findings decides about packets as follows, whatever stands below the gate: every packet
      is decided by some clause of each chain. */
  lemma {:induction false} CleanListingConfines(listings: Listings, net: string, meaning: Meaning, p: Packet)
    requires GateHolds(listings, net) && GateMeaning(meaning, net)
    ensures var input := Listed(listings, INPUT);
      && |input| >= 2
      && (p.fromBridge && !p.established ==> Walk(input, meaning, p) == Some(Drop))
      && (p.fromBridge && p.established ==> Walk(input, meaning, p) == Some(Accept))
      && (!p.fromBridge ==> Walk(input, meaning, p) == Walk(input[2..], meaning, p))
    ensures var user := Listed(listings, DOCKER_USER);
      && |user| >= 3
      && (p.fromBridge && p.established ==> Walk(user, meaning, p) == Some(Accept))
      && (!p.established && p.fromBridge && !p.toBridge ==> Walk(user, meaning, p) == Some(Drop))
      && (LeavesSubnet(p) && !(p.fromBridge && p.established) ==> Walk(user, meaning, p) == Some(Drop))
      && (!(p.fromBridge && (p.established || !p.toBridge)) && !LeavesSubnet(p)
          ==> Walk(user, meaning, p) == Walk(user[3..], meaning, p))
  {
    assert CHAINS[0] == INPUT && CHAINS[1] == DOCKER_USER;
    assert INPUT != DOCKER_USER;
    WalkListed(Listed(listings, INPUT), INPUT, net, meaning, p);
    WalkListed(Listed(listings, DOCKER_USER), DOCKER_USER, net, meaning, p);
  }

  /** The packet carries an address of the subnet to one outside it. */
  predicate LeavesSubnet(p: Packet) { p.fromSubnet && !p.toSubnet }

  // --- what passes to the rules below --------------------------------------

  /** The packets the gate is not there for: not new ones out of the sandbox, which it drops, nor established
      ones from the bridge, which it accepts. */
  predicate Unmentioned(p: Packet) {
    && !(p.established && p.fromBridge)
    && !(!p.established && ((p.fromBridge && !p.toBridge) || LeavesSubnet(p)))
  }

  /** Where the listing is clean, DOCKER-USER decides the packet as its rules below the gate do. */
  ghost predicate PassesBelow(listings: Listings, net: string, meaning: Meaning, p: Packet) {
    GateHolds(listings, net) && GateMeaning(meaning, net) ==>
      var user := Listed(listings, DOCKER_USER);
      |user| >= 3 && Walk(user, meaning, p) == Walk(user[3..], meaning, p)
  }

  /** An unmentioned packet is left to the rules below, whichever they are, exactly when it does not carry an
      address of the subnet out of it: the rule about that asks neither for the bridge nor for a new
      connection. */
  lemma {:induction false} UnmentionedPassThrough(net: string, p: Packet)
    requires IsCidr(net) && Unmentioned(p)
    ensures (forall listings: Listings, meaning: Meaning :: PassesBelow(listings, net, meaning, p)) <==>
      !LeavesSubnet(p)
  {
    if LeavesSubnet(p) {
      var listings, meaning := DroppedThoughAcceptedBelow(net, p);
      assert !PassesBelow(listings, net, meaning, p);
    } else {
      forall listings: Listings, meaning: Meaning ensures PassesBelow(listings, net, meaning, p) {
        if GateHolds(listings, net) && GateMeaning(meaning, net) {
          CleanListingConfines(listings, net, meaning, p);
        }
      }
    }
  }

  /** An established packet that carries an address of the subnet out of it, but did not arrive on the bridge,
      is dropped under a clean listing whose rules below the gate accept it. */
  lemma {:induction false} EstablishedButDropped(net: string)
    returns (listings: Listings, meaning: Meaning, p: Packet)
    requires IsCidr(net)
    ensures GateHolds(listings, net) && GateMeaning(meaning, net) && p.established && Unmentioned(p)
    ensures var user := Listed(listings, DOCKER_USER);
      && |user| >= 3
      && Walk(user[3..], meaning, p) == Some(Accept) && Walk(user, meaning, p) == Some(Drop)
  {
    p := Packet(false, false, true, false, true, 0);
    listings, meaning := DroppedThoughAcceptedBelow(net, p);
  }

  /** Any packet that leaves the subnet without being accepted has such a listing. */
  lemma {:induction false} DroppedThoughAcceptedBelow(net: string, p: Packet)
    returns (listings: Listings, meaning: Meaning)
    requires IsCidr(net) && LeavesSubnet(p) && !(p.fromBridge && p.established)
    ensures GateHolds(listings, net) && GateMeaning(meaning, net)
    ensures var user := Listed(listings, DOCKER_USER);
      && |user| >= 3
      && Walk(user[3..], meaning, p) == Some(Accept) && Walk(user, meaning, p) == Some(Drop)
  {
    listings, meaning := AcceptBelow(net), GateOnly(net);
    AcceptBelowHolds(net);
    GateOnlyMeans(net);
    CleanListingConfines(listings, net, meaning, p);
    WalkOne(Listed(listings, DOCKER_USER)[3..], Normalize(ACCEPT_ALL), meaning, p);
  }

  lemma {:induction false} WalkOne(rules: seq<Rule>, rule: Rule, meaning: Meaning, p: Packet)
    requires |rules| == 1 && rules[0] == rule && meaning(rule, p).Some?
    ensures Walk(rules, meaning, p) == meaning(rule, p)
  {
  }

  const ACCEPT_ALL: Rule := ["-j", "ACCEPT"]

  function Printed(rules: seq<Rule>, chain: string): seq<seq<string>> {
    if rules == [] then [] else [["-A", chain] + rules[0]] + Printed(rules[1..], chain)
  }

  /** A chain that holds the gate above one rule that accepts everything. */
  function GateListing(chain: string, net: string): seq<seq<string>> {
    Announced(GateRules(chain, net) + [ACCEPT_ALL], chain)
  }

  function Announced(rules: seq<Rule>, chain: string): seq<seq<string>> {
    [if chain == INPUT then ["-P", chain, "ACCEPT"] else ["-N", chain]] + Printed(rules, chain)
  }

  lemma {:induction false} AppendedAnnounced(rules: seq<Rule>, chain: string)
    ensures exists line :: line in Announced(rules, chain) && IsHeader(line, chain)
    ensures Appended(Announced(rules, chain), chain) == rules
  {
    var lines := Announced(rules, chain);
    assert IsHeader(lines[0], chain) && lines[0] in lines;
    assert lines[1..] == Printed(rules, chain);
    AppendedPrinted(rules, chain);
  }

  lemma {:induction false} AppendedPrinted(rules: seq<Rule>, chain: string)
    ensures Appended(Printed(rules, chain), chain) == rules
  {
    if rules == [] {
    } else {
      assert (["-A", chain] + rules[0])[2..] == rules[0];
      AppendedPrinted(rules[1..], chain);
    }
  }

  lemma {:induction false} GateOverAccept(chain: string, net: string)
    requires chain in CHAINS && IsCidr(net)
    ensures GateFirst(NormalizeAll(GateRules(chain, net) + [ACCEPT_ALL]), GateRules(chain, net))
  {
    var rules := GateRules(chain, net);
    var candidates := NormalizeAll(rules + [ACCEPT_ALL]);
    forall i | 0 <= i < |rules| ensures OnlyAt(candidates, Normalize(rules[i]), i) {
      forall j | 0 <= j < |candidates| && j != i ensures candidates[j] != Normalize(rules[i]) {
        if j < |rules| {
          GateDistinct(chain, net, if i < j then i else j, if i < j then j else i);
        } else {
          assert |candidates[j]| == 2 < |rules[i]|;
        }
      }
    }
  }

  lemma {:induction false} GateListingHolds(listings: Listings, chain: string, net: string)
    requires chain in CHAINS && IsCidr(net) && chain in listings && listings[chain] == GateListing(chain, net)
    ensures ChainHolds(listings, chain, net)
    ensures Listed(listings, chain) == NormalizeAll(GateRules(chain, net) + [ACCEPT_ALL])
  {
    AppendedAnnounced(GateRules(chain, net) + [ACCEPT_ALL], chain);
    GateOverAccept(chain, net);
  }

  function AcceptBelow(net: string): (listings: Listings)
    ensures listings.Keys == {INPUT, DOCKER_USER}
  {
    map[INPUT := GateListing(INPUT, net), DOCKER_USER := GateListing(DOCKER_USER, net)]
  }

  lemma {:induction false} AcceptBelowHolds(net: string)
    requires IsCidr(net)
    ensures GateHolds(AcceptBelow(net), net)
    ensures |Listed(AcceptBelow(net), DOCKER_USER)| == 4
    ensures Listed(AcceptBelow(net), DOCKER_USER)[3] == Normalize(ACCEPT_ALL)
  {
    assert CHAINS[0] == INPUT && CHAINS[1] == DOCKER_USER;
    assert INPUT != DOCKER_USER;
    GateListingHolds(AcceptBelow(net), INPUT, net);
    GateListingHolds(AcceptBelow(net), DOCKER_USER, net);
  }

  /** The gate's rules as iptables takes them, and every other rule accepting. */
  function GateOnly(net: string): Meaning {
    (rule: Rule, p: Packet) =>
      if rule == Normalize(ESTABLISHED) then if p.fromBridge && p.established then Some(Accept) else None
      else if rule == Normalize(FROM_BRIDGE) then if p.fromBridge then Some(Drop) else None
      else if rule == Normalize(OutOfSubnet(net)) then if LeavesSubnet(p) then Some(Drop) else None
      else if rule == Normalize(OFF_BRIDGE) then if p.fromBridge && !p.toBridge then Some(Drop) else None
      else Some(Accept)
  }

  lemma {:induction false} GateOnlyMeans(net: string)
    ensures GateMeaning(GateOnly(net), net)
    ensures forall p :: GateOnly(net)(Normalize(ACCEPT_ALL), p) == Some(Accept)
  {
    var a, b, c := Normalize(ESTABLISHED), Normalize(FROM_BRIDGE), Normalize(OutOfSubnet(net));
    var d, e := Normalize(OFF_BRIDGE), Normalize(ACCEPT_ALL);
    assert |a| == 8 && |b| == 4 && |c| == 7 && |d| == 7 && |e| == 2;
    assert c[0] == "-s" && d[0] == "-i";
  }
}
