/** The workspace dependency graph and the checks that follow it past one edge
    (scripts/check_architecture.py). */
module Architecture {
  import opened Results
  import opened Ordering
  import opened Sorting

  /** `Graph`: the workspace crates, and what each declares with and without development dependencies. */
  datatype Graph = Graph(members: set<string>, direct: map<string, set<string>>, nonDev: map<string, set<string>>) {

    /** `internal_non_dev_dependencies` or `internal_dependencies`. */
    function Edges(nonDevOnly: bool, crate: string): (deps: set<string>)
      ensures deps <= members
    {
      var table := if nonDevOnly then nonDev else direct;
      (if crate in table then table[crate] else {}) * members
    }
  }

  // --- paths ---------------------------------------------------------------

  predicate Declares(table: map<string, set<string>>, crate: string, dependency: string) {
    crate in table && dependency in table[crate]
  }

  /** A chain of workspace crates, each declared by the one before it. */
  predicate IsChain(members: set<string>, table: map<string, set<string>>, path: seq<string>) {
    path != [] && forall i :: 1 <= i < |path| ==> path[i] in members && Declares(table, path[i - 1], path[i])
  }

  /** A dependency path: development tables make no production path. */
  predicate IsPath(g: Graph, nonDevOnly: bool, path: seq<string>) {
    IsChain(g.members, if nonDevOnly then g.nonDev else g.direct, path)
  }

  predicate Joins(g: Graph, nonDevOnly: bool, path: seq<string>, from: string, to: string) {
    IsPath(g, nonDevOnly, path) && path[0] == from && path[|path| - 1] == to
  }

  ghost predicate Reachable(g: Graph, nonDevOnly: bool, from: string, to: string) {
    exists path :: Joins(g, nonDevOnly, path, from, to)
  }

  type Predecessors = map<string, Option<string>>

  /** A recorded crate was reached from a recorded one that depends on it, one step nearer the start. */
  ghost predicate Linked(g: Graph, nonDevOnly: bool, start: string, predecessor: Predecessors,
                         depth: map<string, nat>, name: string)
    requires predecessor.Keys == depth.Keys
  {
    name in predecessor && name != start ==>
      && predecessor[name].Some? && predecessor[name].value in predecessor
      && name in g.Edges(nonDevOnly, predecessor[name].value)
      && depth[name] == depth[predecessor[name].value] + 1
  }

  /** What breadth-first search has recorded; `depth` is how far away each crate was when first reached. */
  ghost predicate Recorded(g: Graph, nonDevOnly: bool, start: string, predecessor: Predecessors,
                           depth: map<string, nat>)
  {
    && predecessor.Keys == depth.Keys
    && start in predecessor && predecessor[start] == None && depth[start] == 0
    && forall name {:trigger Linked(g, nonDevOnly, start, predecessor, depth, name)} ::
      Linked(g, nonDevOnly, start, predecessor, depth, name)
  }

  /** Every dependency of `name` is recorded, at most one step further away. */
  ghost predicate Explored(g: Graph, nonDevOnly: bool, depth: map<string, nat>, name: string) {
    name in depth && forall dep :: dep in g.Edges(nonDevOnly, name) ==> dep in depth && depth[dep] <= depth[name] + 1
  }

  ghost predicate AllExplored(g: Graph, nonDevOnly: bool, depth: map<string, nat>, done: set<string>) {
    forall name {:trigger Explored(g, nonDevOnly, depth, name)} :: name in done ==> Explored(g, nonDevOnly, depth, name)
  }

  /** A finished search. */
  ghost predicate Closed(g: Graph, nonDevOnly: bool, start: string, predecessor: Predecessors, depth: map<string, nat>)
  {
    Recorded(g, nonDevOnly, start, predecessor, depth) && AllExplored(g, nonDevOnly, depth, depth.Keys)
  }

  /** Every path from the start ends at a recorded crate, no nearer than its recorded depth. */
  lemma {:induction false} PathsAreRecorded(g: Graph, nonDevOnly: bool, start: string, predecessor: Predecessors,
                                            depth: map<string, nat>, path: seq<string>)
    requires Closed(g, nonDevOnly, start, predecessor, depth)
    requires IsPath(g, nonDevOnly, path) && path[0] == start
    ensures path[|path| - 1] in depth && depth[path[|path| - 1]] <= |path| - 1
    decreases |path|
  {
    if |path| > 1 {
      var before := path[..|path| - 1];
      PathsAreRecorded(g, nonDevOnly, start, predecessor, depth, before);
      assert path[|path| - 1] in g.Edges(nonDevOnly, before[|before| - 1]);
      assert Explored(g, nonDevOnly, depth, before[|before| - 1]);
    }
  }

  /** Following predecessors back from a crate is a path to it, as long as its depth. */
  lemma {:induction false} PathTo(g: Graph, nonDevOnly: bool, start: string, predecessor: Predecessors,
                                  depth: map<string, nat>, name: string) returns (path: seq<string>)
    requires Recorded(g, nonDevOnly, start, predecessor, depth) && name in predecessor
    ensures Joins(g, nonDevOnly, path, start, name) && |path| == depth[name] + 1
    decreases depth[name]
  {
    if name == start {
      path := [start];
    } else {
      assert Linked(g, nonDevOnly, start, predecessor, depth, name);
      path := PathTo(g, nonDevOnly, start, predecessor, depth, predecessor[name].value);
      path := path + [name];
    }
  }

  /** A finished search has recorded exactly what can be reached. */
  lemma {:induction false} ClosedIsReachable(g: Graph, nonDevOnly: bool, start: string, predecessor: Predecessors,
                                             depth: map<string, nat>, name: string)
    requires Closed(g, nonDevOnly, start, predecessor, depth)
    ensures name in predecessor <==> Reachable(g, nonDevOnly, start, name)
  {
    if name in predecessor {
      var path := PathTo(g, nonDevOnly, start, predecessor, depth, name);
    }
    if path :| Joins(g, nonDevOnly, path, start, name) {
      PathsAreRecorded(g, nonDevOnly, start, predecessor, depth, path);
    }
  }

  /** The frontier is ordered by depth, and nothing is recorded more than one step beyond its head, whose
      depth is `d`. */
  ghost predicate ByDepth(frontier: seq<string>, depth: map<string, nat>, d: nat) {
    && (forall k :: 0 <= k < |frontier| ==> frontier[k] in depth && d <= depth[frontier[k]])
    && (forall j, k :: 0 <= j < k < |frontier| ==> depth[frontier[j]] <= depth[frontier[k]])
    && (forall name :: name in depth ==> depth[name] <= d + 1)
  }

  /** A crate just reached from `from` is recorded, one step further away. */
  lemma {:induction false} Reach(g: Graph, nonDevOnly: bool, start: string, predecessor: Predecessors,
                                 depth: map<string, nat>, frontier: seq<string>, done: set<string>, from: string,
                                 name: string)
    requires Recorded(g, nonDevOnly, start, predecessor, depth) && AllExplored(g, nonDevOnly, depth, done)
    requires from in depth && ByDepth(frontier, depth, depth[from])
    requires name in g.Edges(nonDevOnly, from) && name !in predecessor
    ensures var predecessor', depth' := predecessor[name := Some(from)], depth[name := depth[from] + 1];
      && Recorded(g, nonDevOnly, start, predecessor', depth') && AllExplored(g, nonDevOnly, depth', done)
      && ByDepth(frontier + [name], depth', depth'[from])
  {
    var predecessor', depth' := predecessor[name := Some(from)], depth[name := depth[from] + 1];
    forall other ensures Linked(g, nonDevOnly, start, predecessor', depth', other) {
      assert Linked(g, nonDevOnly, start, predecessor, depth, other);
    }
    forall other | other in done ensures Explored(g, nonDevOnly, depth', other) {
      assert Explored(g, nonDevOnly, depth, other);
    }
  }

  function Names(s: seq<string>): set<string> {
    set name | name in s
  }

  lemma {:induction false} NamesAdd(s: seq<string>, name: string)
    ensures Names(s + [name]) == Names(s) + {name}
  {
  }

  lemma {:induction false} NamesFirst(s: seq<string>)
    requires s != []
    ensures Names(s) == {s[0]} + Names(s[1..])
  {
    assert s == [s[0]] + s[1..];
  }

  /** What the inner loop keeps, while dependencies of `current` are being recorded. */
  ghost predicate Expanding(g: Graph, nonDevOnly: bool, start: string, predecessor: Predecessors,
                            depth: map<string, nat>,
                            frontier: seq<string>, current: string, done: set<string>) {
    && Recorded(g, nonDevOnly, start, predecessor, depth) && AllExplored(g, nonDevOnly, depth, done)
    && current in depth && ByDepth(frontier, depth, depth[current])
  }

  /** Where the inner loop is: the keys it has added, and where it has put them. */
  ghost predicate Added(order: seq<string>, before: set<string>, after: set<string>, tail: seq<string>,
                        frontier: seq<string>,
                        names: set<string>) {
    && Names(order) == after == before + names
    && Names(frontier) == Names(tail) + (after - before)
    && (after == before ==> frontier == tail)
  }

  lemma {:induction false} AddedOne(order: seq<string>, before: set<string>, after: set<string>, tail: seq<string>,
                                    frontier: seq<string>, names: set<string>, name: string)
    requires Added(order, before, after, tail, frontier, names)
    ensures if name in after then Added(order, before, after, tail, frontier, names + {name})
            else Added(order + [name], before, after + {name}, tail, frontier + [name], names + {name})
  {
    NamesAdd(order, name);
    NamesAdd(frontier, name);
  }

  /** The inner loop: every dependency of the crate just taken from the frontier. `order` is the order in
      which crates were recorded. */
  method Expand(g: Graph, ghost start: string, nonDevOnly: bool, order: seq<string>, predecessor: Predecessors,
                ghost depth: map<string, nat>, frontier: seq<string>, current: string, ghost done: set<string>)
    returns (order': seq<string>, predecessor': Predecessors, ghost depth': map<string, nat>, frontier': seq<string>)
    requires Expanding(g, nonDevOnly, start, predecessor, depth, frontier, current, done)
    requires Names(order) == predecessor.Keys
    ensures Expanding(g, nonDevOnly, start, predecessor', depth', frontier', current, done)
    ensures Added(order', predecessor.Keys, predecessor'.Keys, frontier, frontier', g.Edges(nonDevOnly, current))
  {
    order', predecessor', depth', frontier' := order, predecessor, depth, frontier;
    var dependencies := SortedSet(g.Edges(nonDevOnly, current));
    for d := 0 to |dependencies|
      invariant Expanding(g, nonDevOnly, start, predecessor', depth', frontier', current, done)
      invariant Added(order', predecessor.Keys, predecessor'.Keys, frontier, frontier', Names(dependencies[..d]))
    {
      var dependency := dependencies[d];
      assert dependencies[..d + 1] == dependencies[..d] + [dependency];
      NamesAdd(dependencies[..d], dependency);
      AddedOne(order', predecessor.Keys, predecessor'.Keys, frontier, frontier', Names(dependencies[..d]), dependency);
      assert dependency in g.Edges(nonDevOnly, current);
      if dependency !in predecessor' {
        Reach(g, nonDevOnly, start, predecessor', depth', frontier', done, current, dependency);
        predecessor' := predecessor'[dependency := Some(current)];
        depth' := depth'[dependency := depth'[current] + 1];
        order' := order' + [dependency];
        frontier' := frontier' + [dependency];
      }
    }
    assert Names(dependencies) == g.Edges(nonDevOnly, current) && dependencies[..|dependencies|] == dependencies;
  }

  /** What the outer loop keeps: everything recorded is either explored or waiting in the frontier. */
  ghost predicate Searching(g: Graph, nonDevOnly: bool, start: string, predecessor: Predecessors,
                            depth: map<string, nat>,
                            frontier: seq<string>, done: set<string>) {
    && Recorded(g, nonDevOnly, start, predecessor, depth) && AllExplored(g, nonDevOnly, depth, done)
    && (frontier != [] ==> frontier[0] in depth && ByDepth(frontier, depth, depth[frontier[0]]))
    && predecessor.Keys == done + Names(frontier)
    && predecessor.Keys <= g.members + {start}
  }

  lemma {:induction false} TakeFirst(g: Graph, nonDevOnly: bool, start: string, predecessor: Predecessors,
                                     depth: map<string, nat>,
                                     frontier: seq<string>, done: set<string>)
    requires frontier != [] && Searching(g, nonDevOnly, start, predecessor, depth, frontier, done)
    ensures Expanding(g, nonDevOnly, start, predecessor, depth, frontier[1..], frontier[0], done)
    ensures predecessor.Keys == done + {frontier[0]} + Names(frontier[1..])
  {
    NamesFirst(frontier);
  }

  /** The crate just expanded is explored, and either something was recorded or the frontier is shorter. */
  lemma {:induction false} Expanded(g: Graph, nonDevOnly: bool, start: string, before: set<string>,
                                    predecessor: Predecessors,
                                    depth: map<string, nat>, order: seq<string>, tail: seq<string>,
                                    frontier: seq<string>,
                                    current: string, done: set<string>)
    requires Expanding(g, nonDevOnly, start, predecessor, depth, frontier, current, done)
    requires Added(order, before, predecessor.Keys, tail, frontier, g.Edges(nonDevOnly, current))
    requires before == done + {current} + Names(tail) && before <= g.members + {start}
    ensures Searching(g, nonDevOnly, start, predecessor, depth, frontier, done + {current})
    ensures frontier == tail || g.members + {start} - predecessor.Keys < g.members + {start} - before
  {
    if predecessor.Keys != before {
      var name :| name in predecessor.Keys && name !in before;
      assert name in g.members + {start} - before;
    }
  }

  /** `_internal_closure`: every crate that can be reached, in the order it was first reached. */
  method InternalClosure(g: Graph, start: string, nonDevOnly: bool)
    returns (order: seq<string>, predecessor: Predecessors, ghost depth: map<string, nat>)
    ensures Closed(g, nonDevOnly, start, predecessor, depth) && Names(order) == predecessor.Keys
    ensures forall name :: name in predecessor <==> Reachable(g, nonDevOnly, start, name)
  {
    order, predecessor, depth := [start], map[start := None], map[start := 0];
    var frontier := [start];
    ghost var done: set<string> := {};
    while frontier != []
      invariant Searching(g, nonDevOnly, start, predecessor, depth, frontier, done) && Names(order) == predecessor.Keys
      decreases g.members + {start} - predecessor.Keys, |frontier|
    {
      var current, tail := frontier[0], frontier[1..];
      ghost var before := predecessor.Keys;
      TakeFirst(g, nonDevOnly, start, predecessor, depth, frontier, done);
      order, predecessor, depth, frontier :=
        Expand(g, start, nonDevOnly, order, predecessor, depth, tail, current, done);
      Expanded(g, nonDevOnly, start, before, predecessor, depth, order, tail, frontier, current, done);
      done := done + {current};
    }
    forall name ensures name in predecessor <==> Reachable(g, nonDevOnly, start, name) {
      ClosedIsReachable(g, nonDevOnly, start, predecessor, depth, name);
    }
  }

  function Reversed(s: seq<string>): (r: seq<string>)
    ensures |r| == |s| && forall i :: 0 <= i < |s| ==> r[i] == s[|s| - 1 - i]
  {
    if s == [] then [] else Reversed(s[1..]) + [s[0]]
  }

  lemma {:induction false} ReversedPath(g: Graph, nonDevOnly: bool, back: seq<string>)
    requires back != [] && forall i :: 1 <= i < |back| ==> back[i - 1] in g.Edges(nonDevOnly, back[i])
    ensures IsPath(g, nonDevOnly, Reversed(back))
  {
    var chain := Reversed(back);
    var table := if nonDevOnly then g.nonDev else g.direct;
    forall i | 1 <= i < |chain| ensures chain[i] in g.members && Declares(table, chain[i - 1], chain[i]) {
      var k := |back| - i;
      assert back[k - 1] in g.Edges(nonDevOnly, back[k]);
    }
  }

  /** `_chain_to`: a real dependency path from the start, and none is shorter. */
  method ChainTo(g: Graph, nonDevOnly: bool, ghost start: string, predecessor: Predecessors,
                 ghost depth: map<string, nat>, target: string)
    returns (chain: seq<string>)
    requires Closed(g, nonDevOnly, start, predecessor, depth) && target in predecessor
    ensures Joins(g, nonDevOnly, chain, start, target)
    ensures forall path :: Joins(g, nonDevOnly, path, start, target) ==> |chain| <= |path|
  {
    chain := [target];
    while predecessor[chain[|chain| - 1]] != None
      invariant chain != [] && chain[0] == target && chain[|chain| - 1] in predecessor
      invariant |chain| + depth[chain[|chain| - 1]] == depth[target] + 1
      invariant forall i :: 1 <= i < |chain| ==> chain[i - 1] in g.Edges(nonDevOnly, chain[i])
      decreases depth[chain[|chain| - 1]]
    {
      assert Linked(g, nonDevOnly, start, predecessor, depth, chain[|chain| - 1]);
      chain := chain + [predecessor[chain[|chain| - 1]].value];
    }
    assert Linked(g, nonDevOnly, start, predecessor, depth, chain[|chain| - 1]);
    ReversedPath(g, nonDevOnly, chain);
    chain := Reversed(chain);
    NoneShorter(g, nonDevOnly, start, predecessor, depth, target);
  }

  lemma {:induction false} NoneShorter(g: Graph, nonDevOnly: bool, start: string, predecessor: Predecessors,
                                       depth: map<string, nat>, target: string)
    requires Closed(g, nonDevOnly, start, predecessor, depth)
    ensures forall path :: Joins(g, nonDevOnly, path, start, target) ==> target in depth && depth[target] + 1 <= |path|
  {
    forall path | Joins(g, nonDevOnly, path, start, target) ensures target in depth && depth[target] + 1 <= |path| {
      PathsAreRecorded(g, nonDevOnly, start, predecessor, depth, path);
    }
  }

  // --- the planes ----------------------------------------------------------

  const RUNTIME_PLANE := {
    "fabric-identity", "fabric-tenant-runtime", "fabric-connector", "fabric-connector-ndc", "fabric-data-api",
    "fabric-api", "fabric-fga-auth", "fabric-fga-auth-api", "fabric-fga-check"}

  const CONTROL_PLANE := {
    "fabric-client-model", "fabric-reconciliation", "fabric-control-plane", "fabric-fga-model", "fabric-client-git",
    "fabric-keycloak", "fabric-openbao", "fabric-deployment-kubernetes", "fabric-publication-kubernetes",
    "fabric-control-plane-api"}

  const RUNTIME_PUBLICATION_CRATE := "fabric-runtime-publication"

  /** No crate is declared in both planes. */
  lemma PlanesDisjoint()
    ensures RUNTIME_PLANE !! CONTROL_PLANE
  {
  }

  /** The two planes; the checks take them as they are declared above. */
  datatype Planes = Planes(runtime: set<string>, control: set<string>)

  const PLANES := Planes(RUNTIME_PLANE, CONTROL_PLANE)

  /** Whether `crate`, counting itself and everything it reaches without development edges, meets `plane`. */
  ghost predicate Meets(g: Graph, crate: string, plane: set<string>) {
    exists name :: name in plane && Reachable(g, true, crate, name)
  }

  ghost predicate MeetsBoth(g: Graph, crate: string, planes: Planes) {
    Meets(g, crate, planes.runtime) && Meets(g, crate, planes.control)
  }

  datatype Bridge = Bridge(crate: string, runtimeChain: seq<string>, controlChain: seq<string>)

  /** A chain a failure reports: a real path from the crate into the plane. */
  ghost predicate LeadsInto(g: Graph, nonDevOnly: bool, crate: string, chain: seq<string>, plane: set<string>) {
    IsPath(g, nonDevOnly, chain) && chain[0] == crate && chain[|chain| - 1] in plane
  }

  /** The first crate of a plane among those reached, the start left out. */
  function FirstHit(order: seq<string>, start: string, plane: set<string>): (hit: Option<string>)
    ensures hit.Some? ==> hit.value in order && hit.value in plane && hit.value != start
    ensures hit.None? ==> forall name :: name in order && name in plane ==> name == start
  {
    if order == [] then None
    else if order[0] != start && order[0] in plane then Some(order[0])
    else FirstHit(order[1..], start, plane)
  }

  /** The chain to a plane from a crate that may itself be in it. */
  method ChainInto(g: Graph, nonDevOnly: bool, crate: string, order: seq<string>,
                   predecessor: Predecessors, ghost depth: map<string, nat>, plane: set<string>)
    returns (chain: Option<seq<string>>)
    requires Closed(g, nonDevOnly, crate, predecessor, depth) && Names(order) == predecessor.Keys
    ensures chain.Some? <==> exists name :: name in plane && name in predecessor
    ensures chain.Some? ==> LeadsInto(g, nonDevOnly, crate, chain.value, plane)
  {
    if crate in plane {
      return Some([crate]);
    }
    var hit := FirstHit(order, crate, plane);
    if hit.None? {
      return None;
    }
    var path := ChainTo(g, nonDevOnly, crate, predecessor, depth, hit.value);
    return Some(path);
  }

  /** What the check finds for one crate. */
  method CheckCrate(g: Graph, crate: string, planes: Planes) returns (found: seq<Bridge>)
    ensures MeetsBoth(g, crate, planes) <==> found != []
    ensures forall f :: f in found ==> IsBridge(g, f, planes) && f.crate == crate
  {
    var order, predecessor, depth := InternalClosure(g, crate, true);
    var runtime := ChainInto(g, true, crate, order, predecessor, depth, planes.runtime);
    var control := ChainInto(g, true, crate, order, predecessor, depth, planes.control);
    found := if runtime.Some? && control.Some? then [Bridge(crate, runtime.value, control.value)] else [];
  }

  /** A failure that shows a real path into each plane. */
  ghost predicate IsBridge(g: Graph, f: Bridge, planes: Planes) {
    && LeadsInto(g, true, f.crate, f.runtimeChain, planes.runtime)
    && LeadsInto(g, true, f.crate, f.controlChain, planes.control)
  }

  /** The crates some failure is about. */
  function Flagged(failures: seq<Bridge>): set<string> {
    set f | f in failures :: f.crate
  }

  /** `check_plane_reachability_is_transitive`: a failure for every crate that meets both planes, and no
      other; each failure shows a real path into each plane. */
  method CheckPlaneReachability(g: Graph, planes: Planes) returns (failures: seq<Bridge>)
    ensures forall crate :: crate in g.members ==> (MeetsBoth(g, crate, planes) <==> crate in Flagged(failures))
    ensures forall f :: f in failures ==> f.crate in g.members && IsBridge(g, f, planes)
  {
    failures := [];
    var crates := SortedSet(g.members);
    for i := 0 to |crates|
      invariant forall k :: 0 <= k < i ==> (MeetsBoth(g, crates[k], planes) <==> crates[k] in Flagged(failures))
      invariant forall f :: f in failures ==> f.crate in crates[..i] && IsBridge(g, f, planes)
    {
      var found := CheckCrate(g, crates[i], planes);
      FlaggedMore(failures, found);
      assert found != [] ==> found[0].crate in Flagged(found);
      failures := failures + found;
      assert crates[..i + 1] == crates[..i] + [crates[i]];
    }
  }

  lemma {:induction false} FlaggedMore(failures: seq<Bridge>, found: seq<Bridge>)
    ensures Flagged(failures + found) == Flagged(failures) + Flagged(found)
  {
  }

  /** A clean result rules out every path, of any length and through any crates, from one plane to the
      other. */
  lemma {:induction false} CleanPlanesDoNotMeet(g: Graph, planes: Planes, path: seq<string>)
    requires forall crate :: crate in g.members ==> !MeetsBoth(g, crate, planes)
    requires IsChain(g.members, g.nonDev, path) && path[0] in g.members
    ensures !(path[0] in planes.runtime && path[|path| - 1] in planes.control)
    ensures !(path[0] in planes.control && path[|path| - 1] in planes.runtime)
  {
    assert Joins(g, true, path, path[0], path[|path| - 1]);
    assert Joins(g, true, [path[0]], path[0], path[0]);
  }

  /** Nor can a crate of neither plane link both into one build: all that one crate reaches stays in one. */
  lemma {:induction false} CleanBridgesNothing(g: Graph, planes: Planes, a: seq<string>, b: seq<string>)
    requires forall crate :: crate in g.members ==> !MeetsBoth(g, crate, planes)
    requires IsChain(g.members, g.nonDev, a) && IsChain(g.members, g.nonDev, b) && a[0] == b[0] && a[0] in g.members
    ensures !(a[|a| - 1] in planes.runtime && b[|b| - 1] in planes.control)
  {
    assert Joins(g, true, a, a[0], a[|a| - 1]) && Joins(g, true, b, b[0], b[|b| - 1]);
  }

  /** Whether a crate is flagged does not depend on what is declared for development only. */
  lemma {:induction false} DevelopmentIgnored(g: Graph, direct: map<string, set<string>>, crate: string, planes: Planes)
    ensures MeetsBoth(g, crate, planes) <==> MeetsBoth(g.(direct := direct), crate, planes)
  {
    forall name ensures Reachable(g, true, crate, name) <==> Reachable(g.(direct := direct), true, crate, name) {
      assert forall path :: Joins(g, true, path, crate, name) <==> Joins(g.(direct := direct), true, path, crate, name);
    }
  }

  /** A chain of declarations of any kind that starts in the plane and ends at the publisher. */
  ghost predicate Leaks(g: Graph, runtime: set<string>, publisher: string, path: seq<string>) {
    && IsChain(g.members, g.direct, path)
    && path[0] in runtime && path[0] in g.members && path[|path| - 1] == publisher
  }

  datatype Leak = Leak(crate: string, chain: seq<string>)

  /** `check_runtime_plane_cannot_reach_the_publisher`: development edges count. */
  method CheckPublisherUnreachable(g: Graph, runtime: set<string>, publisher: string) returns (failures: seq<Leak>)
    ensures failures == [] <==> forall path :: !Leaks(g, runtime, publisher, path)
    ensures forall f :: f in failures ==> Leaks(g, runtime, publisher, f.chain) && f.chain[0] == f.crate
  {
    failures := [];
    if publisher !in g.members {
      return;
    }
    var crates := SortedSet(runtime);
    for i := 0 to |crates|
      invariant failures == [] <==> forall k :: 0 <= k < i && crates[k] in g.members ==>
        !Reachable(g, false, crates[k], publisher)
      invariant forall f :: f in failures ==> Leaks(g, runtime, publisher, f.chain) && f.chain[0] == f.crate
    {
      var crate := crates[i];
      if crate in g.members {
        var order, predecessor, depth := InternalClosure(g, crate, false);
        if publisher in predecessor {
          var chain := ChainTo(g, false, crate, predecessor, depth, publisher);
          assert crate in crates;
          failures := failures + [Leak(crate, chain)];
        }
      }
    }
    assert forall crate :: crate in runtime ==> crate in crates;
    LeaksAreReached(g, runtime, publisher);
  }

  lemma {:induction false} LeaksAreReached(g: Graph, runtime: set<string>, publisher: string)
    ensures (exists path :: Leaks(g, runtime, publisher, path)) <==>
      exists crate :: crate in runtime && crate in g.members && Reachable(g, false, crate, publisher)
  {
    if path :| Leaks(g, runtime, publisher, path) {
      assert Joins(g, false, path, path[0], publisher);
    }
    if crate :| crate in runtime && crate in g.members && Reachable(g, false, crate, publisher) {
      var path :| Joins(g, false, path, crate, publisher);
      assert Leaks(g, runtime, publisher, path);
    }
  }

  datatype Edge = Edge(crate: string, offenders: set<string>)

  /** `check_the_planes_do_not_meet`: direct edges only, of every kind. */
  method CheckPlanesDoNotMeet(g: Graph, planes: Planes) returns (failures: seq<Edge>)
    requires planes.runtime !! planes.control
    ensures failures == [] <==> forall crate :: crate in g.members ==> KeepsApart(g, crate, planes)
  {
    failures := [];
    var crates := SortedSet(g.members);
    for i := 0 to |crates|
      invariant failures == [] <==> forall k :: 0 <= k < i ==> KeepsApart(g, crates[k], planes)
    {
      var crate := crates[i];
      var offenders := {};
      if crate in planes.runtime {
        offenders := Direct(g, crate) * planes.control;
      } else if crate in planes.control {
        offenders := Direct(g, crate) * planes.runtime;
      }
      assert crate in planes.runtime ==> crate !in planes.control;
      DirectAcross(g, crate, planes);
      if offenders != {} {
        failures := failures + [Edge(crate, offenders)];
      }
    }
    assert forall crate :: crate in g.members ==> crate in crates;
  }

  /** The path does not lead from one declared plane into the other. */
  predicate StaysInPlane(path: seq<string>)
    requires path != []
  {
    && !(path[0] in RUNTIME_PLANE && path[|path| - 1] in CONTROL_PLANE)
    && !(path[0] in CONTROL_PLANE && path[|path| - 1] in RUNTIME_PLANE)
  }

  /** The three checks, on the planes and the publisher the script declares. */
  method CheckDeclaredPlanes(g: Graph) returns (clean: bool)
    ensures clean <==>
      && (forall crate :: crate in g.members ==> KeepsApart(g, crate, PLANES))
      && (forall crate :: crate in g.members ==> !MeetsBoth(g, crate, PLANES))
      && (forall path :: !Leaks(g, RUNTIME_PLANE, RUNTIME_PUBLICATION_CRATE, path))
    ensures clean ==> forall path :: IsChain(g.members, g.nonDev, path) && path[0] in g.members ==> StaysInPlane(path)
  {
    PlanesDisjoint();
    var edges := CheckPlanesDoNotMeet(g, PLANES);
    var bridges := CheckPlaneReachability(g, PLANES);
    var leaks := CheckPublisherUnreachable(g, RUNTIME_PLANE, RUNTIME_PUBLICATION_CRATE);
    clean := edges == [] && bridges == [] && leaks == [];
    NoneFlagged(g, bridges);
    if bridges == [] {
      forall path | IsChain(g.members, g.nonDev, path) && path[0] in g.members ensures StaysInPlane(path) {
        CleanPlanesDoNotMeet(g, PLANES, path);
      }
    }
  }

  lemma {:induction false} NoneFlagged(g: Graph, bridges: seq<Bridge>)
    requires forall crate :: crate in g.members ==> (MeetsBoth(g, crate, PLANES) <==> crate in Flagged(bridges))
    requires forall f :: f in bridges ==> f.crate in g.members
    ensures bridges == [] <==> forall crate :: crate in g.members ==> !MeetsBoth(g, crate, PLANES)
  {
    if bridges != [] {
      assert bridges[0] in bridges && bridges[0].crate in Flagged(bridges);
    }
  }

  /** No direct dependency of the crate is in the other plane. */
  ghost predicate KeepsApart(g: Graph, crate: string, planes: Planes) {
    forall other :: Declares(g.direct, crate, other) ==>
      && !(crate in planes.runtime && other in planes.control)
      && !(crate in planes.control && other in planes.runtime)
  }

  lemma {:induction false} DirectAcross(g: Graph, crate: string, planes: Planes)
    ensures KeepsApart(g, crate, planes) <==>
      && (crate in planes.runtime ==> Direct(g, crate) * planes.control == {})
      && (crate in planes.control ==> Direct(g, crate) * planes.runtime == {})
  {
    assert forall other :: other in Direct(g, crate) <==> Declares(g.direct, crate, other);
    NoneShared(Direct(g, crate), planes.control);
    NoneShared(Direct(g, crate), planes.runtime);
  }

  lemma {:induction false} NoneShared(a: set<string>, b: set<string>)
    ensures a * b == {} <==> forall name :: name in a ==> name !in b
  {
    assert forall name :: name in a * b <==> name in a && name in b;
  }

  /** `direct_dependencies`. */
  function Direct(g: Graph, crate: string): set<string> {
    if crate in g.direct then g.direct[crate] else {}
  }
}
