/** `parse_subset` as it runs: dictionaries filled in place while a stack holds the open ones, each of
    which its parent already refers to (scripts/release_compatibility.py). */
module ParsedMappings {
  import opened Results
  import opened Text
  import opened CompatibilityFile

  datatype Cell<T> = Leaf(value: Value) | Child(of: T)

  datatype Slot<T> = Slot(key: string, cell: Cell<T>)

  /** One Python dictionary. */
  class Mapping {
    var slots: seq<Slot<Mapping>>

    constructor ()
      ensures slots == []
    {
      slots := [];
    }

    predicate Has(key: string)
      reads this
    {
      exists i :: 0 <= i < |slots| && slots[i].key == key
    }
  }

  /** What a dictionary holds, following its references among `made`. */
  ghost predicate Denotes(slots: seq<Slot<Mapping>>, es: seq<Entry>, made: set<Mapping>)
    reads made
    decreases es
  {
    && |slots| == |es|
    && forall k :: 0 <= k < |es| ==>
      && slots[k].key == es[k].key
      && match slots[k].cell
         case Leaf(value) => es[k].value == value
         case Child(child) =>
           child in made && es[k].value.Sub? && Denotes(child.slots, es[k].value.entries, made)
  }

  // --- the dictionaries, numbered in the order they were made ---------------

  type Arena = seq<seq<Slot<nat>>>

  /** `slots` hold `es`, and every dictionary reached from them is numbered in [lo, hi), those of
      earlier slots below those of later ones. */
  ghost predicate Shows(nodes: Arena, slots: seq<Slot<nat>>, lo: nat, hi: nat, es: seq<Entry>)
    requires hi <= |nodes|
    decreases es
  {
    && |slots| == |es|
    && (es == [] ||
        var n := |es| - 1;
        && slots[n].key == es[n].key
        && match slots[n].cell
           case Leaf(value) =>
             !value.Sub? && es[n].value == value && Shows(nodes, slots[..n], lo, hi, es[..n])
           case Child(c) =>
             && lo <= c < hi && es[n].value.Sub?
             && Shows(nodes, nodes[c], c + 1, hi, es[n].value.entries)
             && Shows(nodes, slots[..n], lo, c, es[..n]))
  }

  /** Dictionary `c` is the newest child of dictionary `i`. */
  ghost predicate Links(nodes: Arena, i: nat, c: nat) {
    i < c < |nodes| && nodes[i] != [] && nodes[i][|nodes[i]| - 1].cell == Child(c)
  }

  /** The numbers of the open dictionaries, each the newest child of the one before. */
  ghost predicate IsPath(nodes: Arena, path: seq<nat>) {
    && path != [] && path[0] < |nodes|
    && (|path| > 1 ==> Links(nodes, path[0], path[1]) && IsPath(nodes, path[1..]))
  }

  /** Writing a key into dictionary `t`; a new mapping gets the next number. */
  ghost function Grow(nodes: Arena, t: nat, key: string, value: Value): Arena
    requires t < |nodes|
  {
    if value.Sub? then nodes[t := nodes[t] + [Slot(key, Child(|nodes|))]] + [[]]
    else nodes[t := nodes[t] + [Slot(key, Leaf(value))]]
  }

  /** What is shown depends only on the dictionaries in the interval. */
  lemma {:induction false} ShowsFrame(nodes: Arena, nodes': Arena, slots: seq<Slot<nat>>, lo: nat, hi: nat,
                                      es: seq<Entry>)
    requires hi <= |nodes| && hi <= |nodes'|
    requires forall j :: lo <= j < hi ==> nodes[j] == nodes'[j]
    requires Shows(nodes, slots, lo, hi, es)
    ensures Shows(nodes', slots, lo, hi, es)
    decreases es
  {
    if es == [] {
    } else {
      var n := |es| - 1;
      match slots[n].cell
      case Leaf(_) =>
        ShowsFrame(nodes, nodes', slots[..n], lo, hi, es[..n]);
      case Child(c) =>
        ShowsFrame(nodes, nodes', nodes[c], c + 1, hi, es[n].value.entries);
        ShowsFrame(nodes, nodes', slots[..n], lo, c, es[..n]);
    }
  }

  /** Writing into the last dictionary of a path writes into the mapping open at that depth. */
  lemma {:induction false} ShowsGrown(nodes: Arena, nodes': Arena, i: nat, path: seq<nat>, depth: nat, t: nat,
                                      es: seq<Entry>, e: Entry)
    requires IsPath(nodes, path) && |path| == depth + 1 && path[0] == i && path[depth] == t < |nodes|
    requires Live(es, depth) && Shows(nodes, nodes[i], i + 1, |nodes|, es)
    requires e.value.Sub? ==> e.value.entries == []
    requires nodes' == Grow(nodes, t, e.key, e.value)
    ensures i < |nodes'| && Shows(nodes', nodes'[i], i + 1, |nodes'|, Extend(es, depth, [e]))
    decreases depth
  {
    if depth == 0 {
      ShowsAppended(nodes, i, es, e.key, e.value);
    } else {
      var c, inner := path[1], es[|es| - 1].value.entries;
      PathRises(nodes, path[1..]);
      ShowsChild(nodes, i, c, es);
      ShowsGrown(nodes, nodes', c, path[1..], depth - 1, t, inner, e);
      ShowsThrough(nodes, nodes', i, c, t, es, depth, e);
    }
  }

  lemma {:induction false} ShowsThrough(nodes: Arena, nodes': Arena, i: nat, c: nat, t: nat, es: seq<Entry>, depth: nat,
                                        e: Entry)
    requires Links(nodes, i, c) && c <= t < |nodes| && nodes' == Grow(nodes, t, e.key, e.value)
    requires depth > 0 && Live(es, depth) && Shows(nodes, nodes[i], i + 1, |nodes|, es)
    requires c < |nodes'|
    requires Shows(nodes', nodes'[c], c + 1, |nodes'|, Extend(es[|es| - 1].value.entries, depth - 1, [e]))
    ensures i < |nodes'| && Shows(nodes', nodes'[i], i + 1, |nodes'|, Extend(es, depth, [e]))
  {
    ShowsBelow(nodes, nodes', i, c, es, depth, e);
  }

  lemma {:induction false} ShowsChild(nodes: Arena, i: nat, c: nat, es: seq<Entry>)
    requires Links(nodes, i, c) && Shows(nodes, nodes[i], i + 1, |nodes|, es)
    ensures es != [] && es[|es| - 1].value.Sub? && Shows(nodes, nodes[c], c + 1, |nodes|, es[|es| - 1].value.entries)
  {
  }

  lemma {:induction false} ShowsAppended(nodes: Arena, i: nat, es: seq<Entry>, key: string, value: Value)
    requires i < |nodes| && Shows(nodes, nodes[i], i + 1, |nodes|, es)
    requires value.Sub? ==> value.entries == []
    ensures var nodes' := Grow(nodes, i, key, value);
      Shows(nodes', nodes'[i], i + 1, |nodes'|, es + [Entry(key, value)])
  {
    var nodes', es', n := Grow(nodes, i, key, value), es + [Entry(key, value)], |es|;
    ShowsFrame(nodes, nodes', nodes[i], i + 1, |nodes|, es);
    assert nodes'[i][..n] == nodes[i] && es'[..n] == es;
    if value.Sub? {
      assert Shows(nodes', nodes'[|nodes|], |nodes| + 1, |nodes'|, []);
    }
  }

  /** A change below the newest child of `i` shows through `i`. */
  lemma {:induction false} ShowsBelow(nodes: Arena, nodes': Arena, i: nat, c: nat, es: seq<Entry>, depth: nat, e: Entry)
    requires Links(nodes, i, c) && |nodes| <= |nodes'| && depth > 0 && Live(es, depth)
    requires forall j :: i <= j < c ==> nodes'[j] == nodes[j]
    requires Shows(nodes, nodes[i], i + 1, |nodes|, es)
    requires Shows(nodes', nodes'[c], c + 1, |nodes'|, Extend(es[|es| - 1].value.entries, depth - 1, [e]))
    ensures Shows(nodes', nodes'[i], i + 1, |nodes'|, Extend(es, depth, [e]))
  {
    var n, es' := |es| - 1, Extend(es, depth, [e]);
    ShowsFrame(nodes, nodes', nodes[i][..n], i + 1, c, es[..n]);
    assert es'[..n] == es[..n];
    assert es'[n] == Entry(es[n].key, Sub(Extend(es[n].value.entries, depth - 1, [e])));
  }

  lemma {:induction false} PathRises(nodes: Arena, path: seq<nat>)
    requires IsPath(nodes, path)
    ensures path[0] <= path[|path| - 1] < |nodes|
    ensures |path| > 1 ==> path[0] < path[|path| - 1]
    decreases |path|
  {
    if |path| > 1 {
      PathRises(nodes, path[1..]);
    }
  }

  lemma {:induction false} PathPrefix(nodes: Arena, path: seq<nat>, n: nat)
    requires IsPath(nodes, path) && 0 < n <= |path|
    ensures IsPath(nodes, path[..n])
    decreases n
  {
    if n > 1 {
      PathPrefix(nodes, path[1..], n - 1);
      assert path[..n][1..] == path[1..][..n - 1];
    }
  }

  /** The last dictionary of a path shows the mapping open at that depth. */
  lemma {:induction false} ShowsOpen(nodes: Arena, path: seq<nat>, es: seq<Entry>)
    requires IsPath(nodes, path) && path[|path| - 1] < |nodes| && Live(es, |path| - 1)
    requires Shows(nodes, nodes[path[0]], path[0] + 1, |nodes|, es)
    ensures var t := path[|path| - 1];
      Shows(nodes, nodes[t], t + 1, |nodes|, Open(es, |path| - 1))
    decreases |path|
  {
    if |path| > 1 {
      ShowsOpen(nodes, path[1..], es[|es| - 1].value.entries);
    }
  }

  /** Each slot shows its entry; `h` ends the interval of a nested one. */
  lemma {:induction false} ShowsEach(nodes: Arena, slots: seq<Slot<nat>>, lo: nat, hi: nat, es: seq<Entry>, k: nat)
    returns (h: nat)
    requires hi <= |nodes| && Shows(nodes, slots, lo, hi, es) && k < |es|
    ensures slots[k].key == es[k].key
    ensures match slots[k].cell
            case Leaf(value) => es[k].value == value
            case Child(c) =>
              c < h <= hi && es[k].value.Sub? && Shows(nodes, nodes[c], c + 1, h, es[k].value.entries)
    decreases |es|
  {
    var n := |es| - 1;
    h := hi;
    if k < n {
      match slots[n].cell
      case Leaf(_) => h := ShowsEach(nodes, slots[..n], lo, hi, es[..n], k);
      case Child(c) => h := ShowsEach(nodes, slots[..n], lo, c, es[..n], k);
    }
  }

  lemma {:induction false} PathGrown(nodes: Arena, nodes': Arena, path: seq<nat>, t: nat, key: string, value: Value)
    requires IsPath(nodes, path) && path[|path| - 1] == t < |nodes| && nodes' == Grow(nodes, t, key, value)
    ensures IsPath(nodes', path) && (value.Sub? ==> IsPath(nodes', path + [|nodes|]))
    decreases |path|
  {
    if |path| > 1 {
      PathRises(nodes, path);
      PathGrown(nodes, nodes', path[1..], t, key, value);
      assert (path + [|nodes|])[1..] == path[1..] + [|nodes|];
    } else {
      assert (path + [|nodes|])[1..] == [|nodes|];
    }
  }

  // --- the numbered dictionaries and the real ones ---------------------------

  ghost predicate Matches(slots: seq<Slot<Mapping>>, node: seq<Slot<nat>>, made: seq<Mapping>) {
    && |slots| == |node|
    && forall k :: 0 <= k < |node| ==>
      && slots[k].key == node[k].key
      && match node[k].cell
         case Leaf(value) => slots[k].cell == Leaf(value)
         case Child(c) => c < |made| && slots[k].cell == Child(made[c])
  }

  ghost predicate Simulates(made: seq<Mapping>, nodes: Arena)
    reads made
  {
    && |made| == |nodes|
    && (forall i, j :: 0 <= i < j < |made| ==> made[i] != made[j])
    && (forall i :: 0 <= i < |made| ==> Matches(made[i].slots, nodes[i], made))
  }

  lemma {:induction false} SimulatesDenotes(made: seq<Mapping>, nodes: Arena, i: nat, hi: nat, es: seq<Entry>)
    requires Simulates(made, nodes) && i < |nodes| && hi <= |nodes|
    requires Shows(nodes, nodes[i], i + 1, hi, es)
    ensures Denotes(made[i].slots, es, set m | m in made)
    decreases es
  {
    forall k | 0 <= k < |es|
      ensures made[i].slots[k].key == es[k].key
      ensures match made[i].slots[k].cell
              case Leaf(value) => es[k].value == value
              case Child(child) =>
                child in made && es[k].value.Sub? && Denotes(child.slots, es[k].value.entries, set m | m in made)
    {
      var h := ShowsEach(nodes, nodes[i], i + 1, hi, es, k);
      match nodes[i][k].cell
      case Leaf(_) =>
      case Child(c) =>
        SimulatesDenotes(made, nodes, c, h, es[k].value.entries);
    }
  }

  ghost predicate Follows(nodes: Arena, path: seq<nat>, st: State) {
    && IsPath(nodes, path) && path[0] == 0 && |path| == st.depth + 1
    && Live(st.root, st.depth) && Shows(nodes, nodes[0], 1, |nodes|, st.root)
  }

  lemma {:induction false} FollowsGrown(nodes: Arena, nodes': Arena, path: seq<nat>, t: nat, st: State, key: string,
                                        value: Value)
    requires Follows(nodes, path, st) && path[st.depth] == t < |nodes|
    requires (value.Sub? ==> value.entries == []) && nodes' == Grow(nodes, t, key, value)
    ensures Follows(nodes', if value.Sub? then path + [|nodes|] else path, Write(st, st.depth, key, value))
  {
    ShowsGrown(nodes, nodes', 0, path, st.depth, t, st.root, Entry(key, value));
    PathGrown(nodes, nodes', path, t, key, value);
  }

  /** The dictionaries made so far are what `st` says has been read, and `path` numbers the open ones. */
  ghost predicate Reading(made: seq<Mapping>, nodes: Arena, path: seq<nat>, st: State)
    reads made
  {
    Simulates(made, nodes) && Follows(nodes, path, st)
  }

  /** The stack holds the open dictionaries, indented by 0, 2, 4, ... */
  ghost predicate OnStack(stack: seq<(nat, Mapping)>, made: seq<Mapping>, path: seq<nat>) {
    && |stack| == |path|
    && forall k :: 0 <= k < |stack| ==> path[k] < |made| && stack[k] == (2 * k, made[path[k]])
  }

  lemma {:induction false} Finished(made: seq<Mapping>, nodes: Arena, path: seq<nat>, st: State)
    requires Reading(made, nodes, path, st) && made != []
    ensures Denotes(made[0].slots, st.root, set m | m in made)
  {
    SimulatesDenotes(made, nodes, 0, |nodes|, st.root);
  }

  lemma {:induction false} Popped(all: seq<(nat, Mapping)>, stack: seq<(nat, Mapping)>, made: seq<Mapping>,
                                  path: seq<nat>)
    requires OnStack(all, made, path) && stack <= all
    ensures OnStack(stack, made, path[..|stack|])
  {
  }

  lemma {:induction false} Pushed(stack: seq<(nat, Mapping)>, made: seq<Mapping>, path: seq<nat>, top: (nat, Mapping))
    requires OnStack(stack, made, path) && top.0 == 2 * |stack|
    ensures OnStack(stack + [top], made + [top.1], path + [|made|])
  {
  }

  /** Closing mappings keeps the rest open. */
  lemma {:induction false} Closed(made: seq<Mapping>, nodes: Arena, path: seq<nat>, st: State, depth: nat)
    requires Reading(made, nodes, path, st) && depth <= st.depth
    ensures Reading(made, nodes, path[..depth + 1], State(st.root, depth))
  {
    PathPrefix(nodes, path, depth + 1);
    LiveBelow(st.root, st.depth, depth);
  }

  /** The open dictionary has exactly the keys of the mapping open there. */
  lemma {:induction false} HasKey(made: seq<Mapping>, nodes: Arena, path: seq<nat>, st: State, key: string)
    requires Reading(made, nodes, path, st) && path[st.depth] < |made|
    ensures made[path[st.depth]].Has(key) <==> key in Keys(Open(st.root, st.depth))
  {
    var t, es := path[st.depth], Open(st.root, st.depth);
    ShowsOpen(nodes, path, st.root);
    forall k | 0 <= k < |es| ensures made[t].slots[k].key == es[k].key {
      var _ := ShowsEach(nodes, nodes[t], t + 1, |nodes|, es, k);
    }
  }

  /** Gives `key` a value in the newest open dictionary: a scalar, or a new empty dictionary. */
  method Put(mapping: Mapping, key: string, value: Value,
             ghost made: seq<Mapping>, ghost nodes: Arena, ghost path: seq<nat>, ghost st: State)
    returns (child: Mapping?, ghost made': seq<Mapping>, ghost nodes': Arena, ghost path': seq<nat>)
    requires Reading(made, nodes, path, st) && path[st.depth] < |made| && made[path[st.depth]] == mapping
    requires value.Sub? ==> value.entries == []
    modifies mapping
    ensures (child != null) == value.Sub?
    ensures child != null ==> fresh(child) && made' == made + [child] && path' == path + [|made|]
    ensures child == null ==> made' == made && path' == path
    ensures Reading(made', nodes', path', Write(st, st.depth, key, value))
  {
    ghost var t := path[st.depth];
    nodes' := Grow(nodes, t, key, value);
    FollowsGrown(nodes, nodes', path, t, st, key, value);
    child, made' := Store(mapping, key, value, made, nodes, t);
    path' := if value.Sub? then path + [|made|] else path;
  }

  lemma {:induction false} StepClosed(st: State, depth: nat, key: string, value: Result<Value, Reason>)
    requires Live(st.root, st.depth) && depth <= st.depth && Live(st.root, depth)
    requires ReadsShell(Keyed(2 * depth, key, value))
    ensures Step(st, Keyed(2 * depth, key, value)) == Step(State(st.root, depth), Keyed(2 * depth, key, value))
  {
  }

  /** Reads the rest of a line whose mapping is the newest open one. */
  method WriteKey(mapping: Mapping, key: string, text: string,
                  ghost made: seq<Mapping>, ghost nodes: Arena, ghost path: seq<nat>, ghost st: State)
    returns (failed: Option<Reason>, child: Mapping?,
             ghost made': seq<Mapping>, ghost nodes': Arena, ghost path': seq<nat>, ghost st': State)
    requires Reading(made, nodes, path, st) && path[st.depth] < |made| && made[path[st.depth]] == mapping
    modifies mapping
    ensures made' == if child != null then made + [child] else made
    ensures child != null ==> fresh(child) && path' == path + [|made|]
    ensures child == null ==> path' == path
    ensures match Step(st, Keyed(2 * st.depth, key, ReadValue(text)))
            case Failure(reason) => failed == Some(reason)
            case Success(next) => failed == None && st' == next && Reading(made', nodes', path', next)
  {
    failed, child, made', nodes', path', st' := None, null, made, nodes, path, st;
    HasKey(made, nodes, path, st, key);
    if mapping.Has(key) {
      failed := Some(DuplicateKey);
      return;
    }
    var value := ReadValue(text);
    if value.Failure? {
      failed := Some(value.error);
      return;
    }
    child, made', nodes', path' := Put(mapping, key, value.value, made, nodes, path, st);
    st' := Write(st, st.depth, key, value.value);
  }

  method Store(mapping: Mapping, key: string, value: Value, ghost made: seq<Mapping>, ghost nodes: Arena, ghost t: nat)
    returns (child: Mapping?, ghost made': seq<Mapping>)
    requires Simulates(made, nodes) && t < |made| && made[t] == mapping
    modifies mapping
    ensures (child != null) == value.Sub?
    ensures made' == if child != null then made + [child] else made
    ensures child != null ==> fresh(child)
    ensures Simulates(made', Grow(nodes, t, key, value))
  {
    if value.Sub? {
      var created := new Mapping();
      mapping.slots := mapping.slots + [Slot(key, Child(created))];
      child, made' := created, made + [created];
    } else {
      mapping.slots := mapping.slots + [Slot(key, Leaf(value))];
      child, made' := null, made;
    }
  }

  /** Pops every mapping but the root whose keys are indented deeper than `indent`. */
  method CloseDeeper(all: seq<(nat, Mapping)>, indent: nat) returns (stack: seq<(nat, Mapping)>)
    requires all != []
    requires forall k :: 0 <= k < |all| ==> all[k].0 == 2 * k
    ensures stack != [] && stack <= all
    ensures |stack| == if indent / 2 < |all| then indent / 2 + 1 else |all|
  {
    stack := all;
    while |stack| > 1 && stack[|stack| - 1].0 > indent
      invariant 1 <= |stack| <= |all| && stack == all[..|stack|]
      invariant |stack| < |all| ==> 2 * |stack| > indent
    {
      stack := stack[..|stack| - 1];
    }
  }

  /** Reads a key of the mapping that is open last. */
  method ReadKeyed(open: seq<(nat, Mapping)>, indent: nat, key: string, text: string,
                   ghost made: seq<Mapping>, ghost nodes: Arena, ghost path: seq<nat>, ghost st: State)
    returns (failed: Option<Reason>, stack: seq<(nat, Mapping)>,
             ghost made': seq<Mapping>, ghost nodes': Arena, ghost path': seq<nat>, ghost st': State)
    requires Reading(made, nodes, path, st) && OnStack(open, made, path) && indent == 2 * st.depth
    modifies made
    ensures made <= made' && fresh(set m | m in made'[|made|..])
    ensures match Step(st, Keyed(indent, key, ReadValue(text)))
            case Failure(reason) => failed == Some(reason)
            case Success(next) =>
              failed == None && st' == next && Reading(made', nodes', path', next) && OnStack(stack, made', path')
  {
    stack := open;
    var child;
    failed, child, made', nodes', path', st' := WriteKey(open[|open| - 1].1, key, text, made, nodes, path, st);
    if child != null {
      var top: (nat, Mapping) := (indent + 2, child);
      Pushed(open, made, path, top);
      stack := open + [top];
    }
  }

  /** Reads a line that is neither skipped nor tabbed: closes what is deeper than it, and writes its key
      into the mapping that leaves open. */
  method ReadContent(all: seq<(nat, Mapping)>, indent: nat, stripped: string,
                     ghost made: seq<Mapping>, ghost nodes: Arena, ghost path: seq<nat>, ghost st: State)
    returns (failed: Option<Reason>, stack: seq<(nat, Mapping)>,
             ghost made': seq<Mapping>, ghost nodes': Arena, ghost path': seq<nat>, ghost st': State)
    requires Reading(made, nodes, path, st) && OnStack(all, made, path)
    modifies made
    ensures made <= made' && fresh(set m | m in made'[|made|..])
    ensures match Step(st, ContentLine(indent, stripped))
            case Failure(reason) => failed == Some(reason)
            case Success(next) =>
              failed == None && st' == next && Reading(made', nodes', path', next) && OnStack(stack, made', path')
  {
    failed, made', nodes', path', st' := None, made, nodes, path, st;
    stack := CloseDeeper(all, indent);
    if stack[|stack| - 1].0 != indent {
      failed := Some(Indentation);
      return;
    }
    var parts := SplitKey(stripped);
    if parts.NoParts? {
      failed := Some(NotAKey);
      return;
    }
    ghost var depth := |stack| - 1;
    Popped(all, stack, made, path);
    Closed(made, nodes, path, st, depth);
    StepClosed(st, depth, parts.key, ReadValue(parts.value));
    failed, stack, made', nodes', path', st' :=
      ReadKeyed(stack, indent, parts.key, parts.value, made, nodes, path[..depth + 1], State(st.root, depth));
  }

  function ContentLine(indent: nat, stripped: string): (line: Line)
    ensures ReadsShell(line)
  {
    match SplitKey(stripped)
    case NoParts => Keyless(indent)
    case Parts(key, value) => Keyed(indent, key, ReadValue(value))
  }

  /** The empty root, and only it open. */
  method Begin()
    returns (root: Mapping, stack: seq<(nat, Mapping)>, ghost made: seq<Mapping>, ghost nodes: Arena,
             ghost path: seq<nat>)
    ensures fresh(root) && made == [root]
    ensures Reading(made, nodes, path, State([], 0)) && OnStack(stack, made, path)
  {
    root := new Mapping();
    made, nodes, path, stack := [root], [[]], [0], [(0, root)];
  }

  /** What the lines from index `number` on give. */
  ghost function Remaining(st: State, read: seq<Line>, number: nat): Result<State, Refusal>
    requires Live(st.root, st.depth) && number <= |read| && forall line :: line in read ==> ReadsShell(line)
  {
    Run(st, read[number..], number + 1)
  }

  lemma {:induction false} RunNext(st: State, read: seq<Line>, number: nat)
    requires Live(st.root, st.depth) && number < |read| && forall line :: line in read ==> ReadsShell(line)
    ensures Remaining(st, read, number) ==
            match Step(st, read[number])
            case Failure(reason) => Failure(Refusal(number + 1, reason))
            case Success(next) => Remaining(next, read, number + 1)
  {
    assert read[number..][1..] == read[number + 1..];
  }

  /** Reads one line. */
  method ReadOne(all: seq<(nat, Mapping)>, line: string,
                 ghost made: seq<Mapping>, ghost nodes: Arena, ghost path: seq<nat>, ghost st: State)
    returns (failed: Option<Reason>, stack: seq<(nat, Mapping)>,
             ghost made': seq<Mapping>, ghost nodes': Arena, ghost path': seq<nat>, ghost st': State)
    requires Reading(made, nodes, path, st) && OnStack(all, made, path)
    modifies made
    ensures made <= made' && fresh(set m | m in made'[|made|..])
    ensures match Step(st, ReadLine(line))
            case Failure(reason) => failed == Some(reason)
            case Success(next) =>
              failed == None && st' == next && Reading(made', nodes', path', next) && OnStack(stack, made', path')
  {
    failed, stack, made', nodes', path', st' := None, all, made, nodes, path, st;
    var stripped := Strip(line);
    if stripped == "" || stripped[0] == '#' {
      return;
    }
    if '\t' in line {
      failed := Some(Tabs);
      return;
    }
    failed, stack, made', nodes', path', st' := ReadContent(stack, IndentOf(line), stripped, made, nodes, path, st);
  }

  /** Reads the file line by line. The dictionary returned holds exactly the mapping that `Parse` reads,
      and the refusals are the same ones. */
  method ParseSubset(text: string) returns (r: Result<Mapping, Refusal>, ghost made: seq<Mapping>)
    ensures fresh(set m | m in made)
    ensures match Parse(text)
            case Failure(refusal) => r == Failure(refusal)
            case Success(es) => r.Success? && r.value in made && Denotes(r.value.slots, es, set m | m in made)
  {
    var root, stack;
    ghost var nodes, path;
    root, stack, made, nodes, path := Begin();
    ghost var st := State([], 0);
    var lines := SplitLines(text);
    ghost var read := ReadLines(lines);
    assert read[0..] == read;
    for number := 0 to |lines|
      invariant fresh(set m | m in made) && made != [] && made[0] == root
      invariant Reading(made, nodes, path, st) && OnStack(stack, made, path)
      invariant Run(State([], 0), read, 1) == Remaining(st, read, number)
    {
      RunNext(st, read, number);
      var failed;
      failed, stack, made, nodes, path, st := ReadOne(stack, lines[number], made, nodes, path, st);
      if failed.Some? {
        return Failure(Refusal(number + 1, failed.value)), made;
      }
    }
    r := Success(root);
    Finished(made, nodes, path, st);
  }
}
