/** Rollout evidence: when a workload is healthy, and when a release may be named
    (crates/fabric-deployment-kubernetes/src/evaluate.rs, summary.rs and image.rs). */
module Rollout {
  import opened Results
  import opened Text
  import opened Sorting
  import SemVer

  // --- image.rs ------------------------------------------------------------

  const U64 := 0x1_0000_0000_0000_0000
  const U32 := 0x1_0000_0000

  predicate IsCoreNumber(s: string) { IsCanonicalNumber(s) && Number(s) < U64 }

  predicate NotDash(c: char) { c != '-' }

  predicate NotAt(c: char) { c != '@' }

  /** `Version::parse(text).is_some()` (crates/fabric-platform-management/src/version/parse.rs): no build
      metadata, three core numbers, and legal identifiers after the first dash. */
  predicate IsVersion(text: string) {
    var n := PrefixLength(text, NotDash);
    var core := Split(text[..n], '.');
    && '+' !in text
    && |core| == 3 && (forall i :: 0 <= i < 3 ==> IsCoreNumber(core[i]))
    && (n < |text| ==>
          var pre := Split(text[n + 1..], '.');
          forall i :: 0 <= i < |pre| ==> SemVer.IsIdentifier(pre[i]))
  }

  /** A version as it is written: three numbers between dots, and after a dash the prerelease identifiers. */
  function VersionText(v: SemVer.Version): string
    requires SemVer.Publishable(v)
  {
    Join(CoreText(v), '.') + if v.pre == [] then "" else "-" + Join(v.pre, '.')
  }

  function CoreText(v: SemVer.Version): (parts: seq<string>)
    requires SemVer.Publishable(v)
    ensures |parts| == 3 && forall i :: 0 <= i < 3 ==> IsCanonicalNumber(parts[i]) && Number(parts[i]) == v.core[i]
  {
    NumberOfDecimal(v.core[0]);
    NumberOfDecimal(v.core[1]);
    NumberOfDecimal(v.core[2]);
    [Decimal(v.core[0]), Decimal(v.core[1]), Decimal(v.core[2])]
  }

  /** A publishable version whose core numbers fit 64 bits. */
  predicate Fitting(v: SemVer.Version) {
    SemVer.Publishable(v) && forall i :: 0 <= i < 3 ==> v.core[i] < U64
  }

  lemma {:induction false} CoreWritten(v: SemVer.Version)
    requires Fitting(v)
    ensures var core := Join(CoreText(v), '.');
      '-' !in core && '+' !in core && Split(core, '.') == CoreText(v)
  {
    var parts := CoreText(v);
    forall i | 0 <= i < |parts| ensures '-' !in parts[i] && '+' !in parts[i] && '.' !in parts[i] {
      assert IsDigits(parts[i]);
    }
    JoinHolds(parts, '.', '-');
    JoinHolds(parts, '.', '+');
    JoinSplits(parts, '.');
  }

  lemma {:induction false} PreWritten(pre: seq<string>)
    requires pre != [] && forall i :: 0 <= i < |pre| ==> SemVer.IsIdentifier(pre[i])
    ensures '+' !in Join(pre, '.') && Split(Join(pre, '.'), '.') == pre
  {
    JoinHolds(pre, '.', '+');
    JoinSplits(pre, '.');
  }

  lemma {:induction false} WrittenIsVersion(v: SemVer.Version)
    requires Fitting(v)
    ensures IsVersion(VersionText(v))
  {
    var text, core := VersionText(v), Join(CoreText(v), '.');
    CoreWritten(v);
    PrefixLengthIs(text, NotDash, |core|);
    assert text[..|core|] == core;
    if v.pre != [] {
      PreWritten(v.pre);
      assert text[|core| + 1..] == Join(v.pre, '.');
    }
  }

  lemma {:induction false} CoreRead(core: seq<string>, pre: seq<string>) returns (v: SemVer.Version)
    requires |core| == 3 && forall i :: 0 <= i < 3 ==> IsCoreNumber(core[i])
    requires forall i :: 0 <= i < |pre| ==> SemVer.IsIdentifier(pre[i])
    ensures Fitting(v) && v.pre == pre && CoreText(v) == core
  {
    DecimalOfNumber(core[0]);
    DecimalOfNumber(core[1]);
    DecimalOfNumber(core[2]);
    v := SemVer.Version([Number(core[0]), Number(core[1]), Number(core[2])], pre);
  }

  lemma {:induction false} VersionIsWritten(text: string) returns (v: SemVer.Version)
    requires IsVersion(text)
    ensures Fitting(v) && text == VersionText(v)
  {
    var n := PrefixLength(text, NotDash);
    SplitJoins(text[..n], '.');
    if n < |text| {
      v := CoreRead(Split(text[..n], '.'), Split(text[n + 1..], '.'));
      SplitJoins(text[n + 1..], '.');
      assert text == text[..n] + [text[n]] + text[n + 1..];
    } else {
      v := CoreRead(Split(text[..n], '.'), []);
      assert text == text[..n];
    }
  }

  /** The versions the platform reads are exactly those that can be written so, with core numbers of 64 bits. */
  lemma {:induction false} VersionsExactly(text: string)
    ensures IsVersion(text) <==> exists v :: Fitting(v) && text == VersionText(v)
  {
    if IsVersion(text) {
      var v := VersionIsWritten(text);
    }
    if v :| Fitting(v) && text == VersionText(v) {
      WrittenIsVersion(v);
    }
  }

  predicate IsHexDigit(c: char) { IsDigit(c) || 'a' <= c <= 'f' || 'A' <= c <= 'F' }

  predicate IsSha256(digest: string) {
    "sha256:" <= digest && |digest| == 71 && forall i :: 7 <= i < 71 ==> IsHexDigit(digest[i])
  }

  /** `repository:version@sha256:...`, the version with an optional `v`. */
  datatype Pin = Pin(version: string, digest: string)

  /** A version as a tag writes it, without its optional `v`. */
  function Bare(version: string): string { if "v" <= version then version[1..] else version }

  /** `pinned`. */
  function Pinned(image: string, repository: string): (r: Option<Pin>)
    ensures r.Some? ==> image == repository + ":" + r.value.version + "@" + r.value.digest
    ensures r.Some? ==> IsSha256(r.value.digest) && IsVersion(Bare(r.value.version))
  {
    var n := PrefixLength(image, NotAt);
    if n == |image| then None
    else
      var tagged, digest := image[..n], image[n + 1..];
      if !(repository + ":" <= tagged) || !IsSha256(digest) then None
      else
        var version := tagged[|repository| + 1..];
        if !IsVersion(Bare(version)) then None
        else
          assert tagged == (repository + ":") + version;
          assert image == tagged + "@" + digest;
          Some(Pin(version, digest))
  }

  lemma {:induction false} SplitCovers(s: string, c: char, x: char)
    requires x in s && x != c
    ensures exists i :: 0 <= i < |Split(s, c)| && x in Split(s, c)[i]
  {
    var parts, rest := Split(s, c), Split(s[1..], c);
    if s[0] == x {
      assert x in parts[0];
    } else {
      SplitCovers(s[1..], c, x);
      var i :| 0 <= i < |rest| && x in rest[i];
      assert x in parts[if s[0] == c then i + 1 else i];
    }
  }

  lemma {:induction false} CoreHasNoAt(s: string)
    requires forall i :: 0 <= i < |Split(s, '.')| ==> IsCoreNumber(Split(s, '.')[i])
    ensures '@' !in s
  {
    if '@' in s {
      SplitCovers(s, '.', '@');
    }
  }

  lemma {:induction false} PreHasNoAt(s: string)
    requires forall i :: 0 <= i < |Split(s, '.')| ==> SemVer.IsIdentifier(Split(s, '.')[i])
    ensures '@' !in s
  {
    if '@' in s {
      SplitCovers(s, '.', '@');
    }
  }

  lemma {:induction false} VersionHasNoAt(text: string)
    requires IsVersion(text)
    ensures '@' !in text
  {
    var n := PrefixLength(text, NotDash);
    CoreHasNoAt(text[..n]);
    if n < |text| {
      PreHasNoAt(text[n + 1..]);
      assert text == text[..n] + [text[n]] + text[n + 1..];
    } else {
      assert text == text[..n];
    }
  }

  lemma {:induction false} ReadsPin(image: string, repository: string, pin: Pin)
    requires '@' !in repository && IsVersion(Bare(pin.version)) && IsSha256(pin.digest)
    requires image == repository + ":" + pin.version + "@" + pin.digest
    ensures Pinned(image, repository) == Some(pin)
  {
    var tagged := repository + ":" + pin.version;
    VersionHasNoAt(Bare(pin.version));
    assert '@' !in pin.version;
    PrefixLengthIs(image, NotAt, |tagged|);
    assert image[..|tagged|] == tagged && image[|tagged| + 1..] == pin.digest;
    assert repository + ":" <= tagged && tagged[|repository| + 1..] == pin.version;
  }

  /** The image is the repository, a colon, a legal version, an `@` and a SHA-256 digest. */
  predicate PinsTo(image: string, repository: string, pin: Pin) {
    && '@' !in repository && IsVersion(Bare(pin.version)) && IsSha256(pin.digest)
    && image == repository + ":" + pin.version + "@" + pin.digest
  }

  /** A pin is read exactly where the image has the pinned form; there is then only one way to read it. A
      repository that holds an `@` is never matched. */
  lemma {:induction false} PinnedExactly(image: string, repository: string, pin: Pin)
    ensures Pinned(image, repository) == Some(pin) <==> PinsTo(image, repository, pin)
  {
    if Pinned(image, repository) == Some(pin) {
      var tagged := repository + ":" + pin.version;
      assert image[..PrefixLength(image, NotAt)] == tagged;
      assert '@' !in tagged;
    } else if PinsTo(image, repository, pin) {
      ReadsPin(image, repository, pin);
    }
  }

  /** Where the last `@` is, if there is one. */
  function LastAt(s: string): (r: Option<nat>)
    ensures r.Some? ==> r.value < |s| && s[r.value] == '@' && forall i :: r.value < i < |s| ==> s[i] != '@'
    ensures r.None? ==> '@' !in s
  {
    if s == "" then None else if s[|s| - 1] == '@' then Some(|s| - 1) else LastAt(s[..|s| - 1])
  }

  /** `running_digest`. */
  predicate RunningDigest(imageId: string, digest: string) {
    imageId == digest || (LastAt(imageId).Some? && imageId[LastAt(imageId).value + 1..] == digest)
  }

  /** The digest a running image reports is the whole reference, or all that follows its last `@`. */
  lemma {:induction false} RunningDigestEnds(imageId: string, digest: string)
    requires '@' !in digest
    ensures RunningDigest(imageId, digest) <==>
      var at := |imageId| - |digest| - 1;
      imageId == digest || (0 <= at && imageId[at] == '@' && imageId[at + 1..] == digest)
  {
    var at := |imageId| - |digest| - 1;
    if 0 <= at && imageId[at] == '@' && imageId[at + 1..] == digest {
      forall i | at < i < |imageId| ensures imageId[i] != '@' {
        assert imageId[i] == digest[i - at - 1];
      }
      assert LastAt(imageId) == Some(at);
    }
  }

  // --- what is read from the cluster ---------------------------------------

  datatype Owner = Owner(uid: string, kind: string, controller: bool)

  datatype Metadata = Metadata(uid: string, generation: nat, deleting: bool, owners: seq<Owner>)

  datatype Container = Container(name: string, image: string)

  datatype ContainerStatus = ContainerStatus(name: string, ready: bool, imageId: string, running: bool)

  datatype Condition = Condition(kind: string, status: string)

  datatype ReplicaSet = ReplicaSet(metadata: Metadata)

  datatype Pod = Pod(metadata: Metadata, containers: seq<Container>, statuses: seq<ContainerStatus>,
                     conditions: seq<Condition>)

  type Count = n: nat | n < U32

  datatype Status = Status(observedGeneration: nat, replicas: Count, updated: Count, available: Count, ready: Count,
                           conditions: seq<Condition>)

  datatype Deployment = Deployment(metadata: Metadata, replicas: Count, template: seq<Container>, status: Status)

  datatype Target = Target(deployment: string, container: string, repository: string)

  datatype Health = Healthy | Progressing | Degraded | Unavailable | Stopped

  /** A row of the answer. Its version list is sorted and without repetition, so it is its set. */
  datatype Workload = Workload(name: string, health: Health, versions: set<string>, desired: Option<Count>,
                               ready: Count)

  // --- evaluate.rs ---------------------------------------------------------

  predicate ControlledBy(metadata: Metadata, kind: string, uids: set<string>) {
    exists owner :: owner in metadata.owners && owner.controller && owner.kind == kind && owner.uid in uids
  }

  /** The replica sets the deployment controls. */
  function OwnedSets(sets: seq<ReplicaSet>, deployment: Deployment): set<string> {
    set s | s in sets && ControlledBy(s.metadata, "Deployment", {deployment.metadata.uid}) :: s.metadata.uid
  }

  /** The pods those control. */
  function OwnedPods(pods: seq<Pod>, owned: set<string>): seq<Pod> {
    if pods == [] then []
    else (if ControlledBy(pods[0].metadata, "ReplicaSet", owned) then [pods[0]] else []) + OwnedPods(pods[1..], owned)
  }

  function FindContainer(containers: seq<Container>, name: string): Option<Container> {
    if containers == [] then None
    else if containers[0].name == name then Some(containers[0])
    else FindContainer(containers[1..], name)
  }

  function FindStatus(statuses: seq<ContainerStatus>, name: string): Option<ContainerStatus> {
    if statuses == [] then None
    else if statuses[0].name == name then Some(statuses[0])
    else FindStatus(statuses[1..], name)
  }

  /** The image the template asks for. */
  function Expected(target: Target, deployment: Deployment): Option<Pin> {
    match FindContainer(deployment.template, target.container)
    case None => None
    case Some(container) => Pinned(container.image, target.repository)
  }

  /** The pinned image a pod is observed to run. */
  function Runs(target: Target, pod: Pod): Option<Pin> {
    match (FindContainer(pod.containers, target.container), FindStatus(pod.statuses, target.container))
    case (Some(container), Some(status)) =>
      var pin := Pinned(container.image, target.repository);
      if pin.Some? && status.running && RunningDigest(status.imageId, pin.value.digest) then pin else None
    case _ => None
  }

  /** Running a pinned image, ready by its container and by its condition, and not terminating. */
  predicate Ready(target: Target, pod: Pod) {
    && Runs(target, pod).Some?
    && FindStatus(pod.statuses, target.container).Some? && FindStatus(pod.statuses, target.container).value.ready
    && (exists c :: c in pod.conditions && c.kind == "Ready" && c.status == "True")
    && !pod.metadata.deleting
  }

  predicate Matches(target: Target, expected: Option<Pin>, pod: Pod) {
    Ready(target, pod) && expected == Runs(target, pod)
  }

  /** The first container of a name. */
  predicate ContainerAt(containers: seq<Container>, name: string, i: int) {
    0 <= i < |containers| && containers[i].name == name && forall k :: 0 <= k < i ==> containers[k].name != name
  }

  predicate StatusAt(statuses: seq<ContainerStatus>, name: string, i: int) {
    0 <= i < |statuses| && statuses[i].name == name && forall k :: 0 <= k < i ==> statuses[k].name != name
  }

  lemma {:induction false} ContainerFound(containers: seq<Container>, name: string)
    ensures match FindContainer(containers, name)
            case None => forall x :: x in containers ==> x.name != name
            case Some(c) => exists i :: ContainerAt(containers, name, i) && containers[i] == c
  {
    if containers == [] {
    } else if containers[0].name == name {
      assert ContainerAt(containers, name, 0);
    } else {
      ContainerFound(containers[1..], name);
      if i :| ContainerAt(containers[1..], name, i) {
        assert ContainerAt(containers, name, i + 1);
      }
    }
  }

  lemma {:induction false} StatusFound(statuses: seq<ContainerStatus>, name: string)
    ensures match FindStatus(statuses, name)
            case None => forall x :: x in statuses ==> x.name != name
            case Some(s) => exists i :: StatusAt(statuses, name, i) && statuses[i] == s
  {
    if statuses == [] {
    } else if statuses[0].name == name {
      assert StatusAt(statuses, name, 0);
    } else {
      StatusFound(statuses[1..], name);
      if i :| StatusAt(statuses[1..], name, i) {
        assert StatusAt(statuses, name, i + 1);
      }
    }
  }

  /** The target's container, the first of its name, asks for the pinned image. */
  ghost predicate Asks(target: Target, containers: seq<Container>, pin: Pin) {
    exists i :: ContainerAt(containers, target.container, i) && PinsTo(containers[i].image, target.repository, pin)
  }

  /** A pod's container that runs, and whose reported image is the pinned digest or ends in an `@` and it. */
  ghost predicate RunsAt(target: Target, pod: Pod, pin: Pin, i: int) {
    && StatusAt(pod.statuses, target.container, i) && pod.statuses[i].running
    && var id := pod.statuses[i].imageId;
       id == pin.digest || exists before :: id == before + "@" + pin.digest
  }

  /** What a template asks for, in its own terms. */
  lemma {:induction false} AskedExactly(target: Target, containers: seq<Container>, pin: Pin)
    ensures Asks(target, containers, pin) <==>
      var found := FindContainer(containers, target.container);
      found.Some? && Pinned(found.value.image, target.repository) == Some(pin)
  {
    ContainerFound(containers, target.container);
    var found := FindContainer(containers, target.container);
    if found.Some? {
      PinnedExactly(found.value.image, target.repository, pin);
    }
  }

  lemma {:induction false} DigestReported(imageId: string, digest: string)
    requires IsSha256(digest)
    ensures RunningDigest(imageId, digest) <==>
      imageId == digest || exists before :: imageId == before + "@" + digest
  {
    forall i | 0 <= i < |digest| ensures digest[i] != '@' {
      assert i < 7 ==> digest[i] == "sha256:"[i];
    }
    RunningDigestEnds(imageId, digest);
    var at := |imageId| - |digest| - 1;
    if 0 <= at && imageId[at] == '@' && imageId[at + 1..] == digest {
      assert imageId == imageId[..at] + "@" + digest;
    }
    if before :| imageId == before + "@" + digest {
      assert imageId[at + 1..] == digest;
    }
  }

  /** A pod is observed to run an image exactly where its container asks for it and its status reports it, and is
      ready exactly where container and condition say so besides and the pod is not terminating. */
  lemma {:induction false} PodEvidence(target: Target, pod: Pod, pin: Pin)
    ensures Runs(target, pod) == Some(pin) <==>
      Asks(target, pod.containers, pin) && exists i :: RunsAt(target, pod, pin, i)
    ensures Ready(target, pod) && Runs(target, pod) == Some(pin) <==>
      && Asks(target, pod.containers, pin) && (exists i :: RunsAt(target, pod, pin, i) && pod.statuses[i].ready)
      && Condition("Ready", "True") in pod.conditions && !pod.metadata.deleting
  {
    AskedExactly(target, pod.containers, pin);
    StatusFound(pod.statuses, target.container);
    var status := FindStatus(pod.statuses, target.container);
    if status.Some? && IsSha256(pin.digest) {
      DigestReported(status.value.imageId, pin.digest);
      var i :| StatusAt(pod.statuses, target.container, i) && pod.statuses[i] == status.value;
      assert forall k :: StatusAt(pod.statuses, target.container, k) ==> k == i;
      assert RunsAt(target, pod, pin, i) <==> status.value.running && RunningDigest(status.value.imageId, pin.digest);
    }
  }

  function CountReady(target: Target, pods: seq<Pod>): (n: nat)
    ensures n <= |pods|
  {
    if pods == [] then 0 else (if Ready(target, pods[0]) then 1 else 0) + CountReady(target, pods[1..])
  }

  function CountMatching(target: Target, expected: Option<Pin>, pods: seq<Pod>): (n: nat)
    ensures n <= CountReady(target, pods)
  {
    if pods == [] then 0
    else (if Matches(target, expected, pods[0]) then 1 else 0) + CountMatching(target, expected, pods[1..])
  }

  function Versions(target: Target, pods: seq<Pod>): set<string> {
    set pod | pod in pods && Runs(target, pod).Some? :: Runs(target, pod).value.version
  }

  /** `+= 1`, in 32 bits. */
  function Next(n: Count): Count { if n + 1 == U32 then 0 else n + 1 }

  /** A counter that was incremented `n` times. */
  function Counter(n: nat): Count { if n == 0 then 0 else Next(Counter(n - 1)) }

  predicate HasFailed(status: Status) {
    exists c :: c in status.conditions &&
      ((c.kind == "Progressing" && c.status == "False") || (c.kind == "ReplicaFailure" && c.status == "True"))
  }

  /** The health decision, from the counters as they are kept: in 32 bits. */
  function Decide(deployment: Deployment, expected: Option<Pin>, podCount: nat, matching: Count): Health {
    var status, desired := deployment.status, deployment.replicas;
    var observed := status.observedGeneration >= deployment.metadata.generation && !deployment.metadata.deleting;
    if HasFailed(status) then Degraded
    else if desired == 0 && observed && podCount == 0 && status.replicas == 0 then Stopped
    else if expected.None? then Unavailable
    else if observed && desired > 0 && matching == desired && podCount == desired
      && status.replicas == desired && status.updated == desired && status.ready == desired
      && status.available == desired
    then Healthy
    else Progressing
  }

  /** What `evaluate` answers. */
  function Evaluation(target: Target, deployment: Deployment, sets: seq<ReplicaSet>, pods: seq<Pod>): Workload {
    var owned := OwnedPods(pods, OwnedSets(sets, deployment));
    var expected := Expected(target, deployment);
    Workload(target.deployment, Decide(deployment, expected, |owned|, Counter(CountMatching(target, expected, owned))),
             Versions(target, owned), Some(deployment.replicas), Counter(CountReady(target, owned)))
  }

  /** `evaluate`: the filters, then the loop over the owned pods with its three accumulators. */
  method Evaluate(target: Target, deployment: Deployment, sets: seq<ReplicaSet>, pods: seq<Pod>) returns (r: Workload)
    ensures r == Evaluation(target, deployment, sets, pods)
  {
    var owned := OwnedPods(pods, OwnedSets(sets, deployment));
    var expected := Expected(target, deployment);
    var versions: set<string>, ready: Count, matching: Count := {}, 0, 0;
    for i := 0 to |owned|
      invariant Tallied(target, expected, owned[..i], versions, ready, matching)
    {
      TalliedNext(target, expected, owned[..i], owned[i], versions, ready, matching);
      versions, ready, matching :=
        Tally(expected, Runs(target, owned[i]), Ready(target, owned[i]), versions, ready, matching);
      assert owned[..i + 1] == owned[..i] + [owned[i]];
    }
    assert owned[..|owned|] == owned;
    r := Workload(target.deployment, Decide(deployment, expected, |owned|, matching), versions,
                  Some(deployment.replicas), ready);
  }

  /** The accumulators after some pods. */
  ghost predicate Tallied(target: Target, expected: Option<Pin>, pods: seq<Pod>, versions: set<string>, ready: Count,
                          matching: Count)
  {
    && versions == Versions(target, pods)
    && ready == Counter(CountReady(target, pods))
    && matching == Counter(CountMatching(target, expected, pods))
  }

  /** One turn of the loop: `pin` is what the pod runs, and `isReady` whether it is ready besides. */
  method Tally(expected: Option<Pin>, pin: Option<Pin>, isReady: bool, versions: set<string>, ready: Count,
               matching: Count)
    returns (versions': set<string>, ready': Count, matching': Count)
    ensures versions' == versions + (if pin.Some? then {pin.value.version} else {})
    ensures ready' == if pin.Some? && isReady then Next(ready) else ready
    ensures matching' == if pin.Some? && isReady && expected == pin then Next(matching) else matching
  {
    versions', ready', matching' := versions, ready, matching;
    if pin.Some? {
      versions' := versions + {pin.value.version};
      if isReady {
        ready' := Next(ready);
        if expected == pin {
          matching' := Next(matching);
        }
      }
    }
  }

  lemma {:induction false} TalliedNext(target: Target, expected: Option<Pin>, seen: seq<Pod>, pod: Pod,
                                       versions: set<string>, ready: Count, matching: Count)
    requires Tallied(target, expected, seen, versions, ready, matching)
    ensures Tallied(target, expected, seen + [pod],
                    versions + (if Runs(target, pod).Some? then {Runs(target, pod).value.version} else {}),
                    if Ready(target, pod) then Next(ready) else ready,
                    if Matches(target, expected, pod) then Next(matching) else matching)
  {
    CountLast(target, expected, seen, pod);
    CounterAdds(CountReady(target, seen), Ready(target, pod), CountReady(target, seen + [pod]));
    CounterAdds(CountMatching(target, expected, seen), Matches(target, expected, pod),
                CountMatching(target, expected, seen + [pod]));
  }

  lemma CounterAdds(n: nat, more: bool, m: nat)
    requires m == n + (if more then 1 else 0)
    ensures Counter(m) == if more then Next(Counter(n)) else Counter(n)
  {
  }

  lemma {:induction false} CountLast(target: Target, expected: Option<Pin>, pods: seq<Pod>, pod: Pod)
    ensures CountReady(target, pods + [pod]) == CountReady(target, pods) + (if Ready(target, pod) then 1 else 0)
    ensures CountMatching(target, expected, pods + [pod])
         == CountMatching(target, expected, pods) + (if Matches(target, expected, pod) then 1 else 0)
    ensures Versions(target, pods + [pod])
         == Versions(target, pods) + (if Runs(target, pod).Some? then {Runs(target, pod).value.version} else {})
  {
    if pods == [] {
      assert [pod][1..] == [];
    } else {
      assert (pods + [pod])[1..] == pods[1..] + [pod];
      CountLast(target, expected, pods[1..], pod);
    }
    assert forall p :: p in pods + [pod] <==> p in pods || p == pod;
  }

  // --- what the totals imply -----------------------------------------------

  lemma {:induction false} AllMatch(target: Target, expected: Option<Pin>, pods: seq<Pod>)
    ensures CountMatching(target, expected, pods) == |pods| <==>
      forall pod :: pod in pods ==> Matches(target, expected, pod)
    ensures CountMatching(target, expected, pods) == |pods| ==> CountReady(target, pods) == |pods|
  {
    if pods == [] {
    } else {
      assert CountMatching(target, expected, pods[1..]) <= CountReady(target, pods[1..]) <= |pods[1..]|;
      AllMatch(target, expected, pods[1..]);
      assert forall pod :: pod in pods <==> pod == pods[0] || pod in pods[1..];
    }
  }

  /** What the controller says of a finished rollout. */
  predicate Settled(deployment: Deployment) {
    var status, desired := deployment.status, deployment.replicas;
    && !HasFailed(status)
    && status.observedGeneration >= deployment.metadata.generation && !deployment.metadata.deleting
    && desired == status.replicas == status.updated == status.ready == status.available
  }

  lemma {:induction false} DecidedHealthy(deployment: Deployment, expected: Option<Pin>, podCount: nat, matching: Count)
    ensures Decide(deployment, expected, podCount, matching) == Healthy <==>
      Settled(deployment) && expected.Some? && deployment.replicas == matching == podCount > 0
  {
  }

  /** Every pod is ready, not terminating and runs exactly `expected`. */
  ghost predicate AllRun(target: Target, expected: Option<Pin>, pods: seq<Pod>) {
    forall pod :: pod in pods ==> Matches(target, expected, pod)
  }

  lemma {:induction false} CountAll(target: Target, expected: Option<Pin>, pods: seq<Pod>)
    requires 0 < |pods| < U32
    ensures Counter(CountMatching(target, expected, pods)) == |pods| <==> AllRun(target, expected, pods)
    ensures AllRun(target, expected, pods) ==> expected.Some?
  {
    AllMatch(target, expected, pods);
    Fits(CountMatching(target, expected, pods));
    if AllRun(target, expected, pods) {
      MatchesPinned(target, expected, pods[0]);
    }
  }

  lemma {:induction false} Fits(n: nat)
    ensures n < U32 ==> Counter(n) == n
  {
    if 0 < n < U32 {
      Fits(n - 1);
    }
  }

  lemma MatchesPinned(target: Target, expected: Option<Pin>, pod: Pod)
    ensures Matches(target, expected, pod) ==> expected.Some?
  {
  }

  /** Healthy is about every owned pod: each is ready, is not terminating and runs exactly the image the
      template pins, and there are as many as desired, which is some; and the controller agrees. */
  lemma {:induction false} HealthyExactly(target: Target, deployment: Deployment, sets: seq<ReplicaSet>, pods: seq<Pod>)
    ensures var owned := OwnedPods(pods, OwnedSets(sets, deployment));
      Evaluation(target, deployment, sets, pods).health == Healthy <==>
        Settled(deployment) && |owned| == deployment.replicas > 0 && AllRun(target, Expected(target, deployment), owned)
  {
    var owned, expected := OwnedPods(pods, OwnedSets(sets, deployment)), Expected(target, deployment);
    DecidedHealthy(deployment, expected, |owned|, Counter(CountMatching(target, expected, owned)));
    if |owned| == deployment.replicas > 0 {
      CountAll(target, expected, owned);
    }
  }

  /** The controller has seen the last change, and the deployment is not being deleted. */
  predicate Observed(deployment: Deployment) {
    deployment.status.observedGeneration >= deployment.metadata.generation && !deployment.metadata.deleting
  }

  /** Scaled to nothing, and nothing is left. */
  predicate AtRest(deployment: Deployment, owned: seq<Pod>) {
    deployment.replicas == 0 && Observed(deployment) && owned == [] && deployment.status.replicas == 0
  }

  /** What each of the other answers means. */
  lemma {:induction false} HealthExactly(target: Target, deployment: Deployment, sets: seq<ReplicaSet>, pods: seq<Pod>)
    ensures var owned, health := OwnedPods(pods, OwnedSets(sets, deployment)),
                                 Evaluation(target, deployment, sets, pods).health;
      var failed := Condition("Progressing", "False") in deployment.status.conditions
        || Condition("ReplicaFailure", "True") in deployment.status.conditions;
      var pinned := exists pin :: Asks(target, deployment.template, pin);
      && (health == Degraded <==> failed)
      && (health == Stopped <==> !failed && AtRest(deployment, owned))
      && (health == Unavailable <==> !failed && !AtRest(deployment, owned) && !pinned)
      && (health == Progressing <==> !failed && !AtRest(deployment, owned) && pinned && health != Healthy)
  {
    forall pin ensures Asks(target, deployment.template, pin) <==> Expected(target, deployment) == Some(pin) {
      AskedExactly(target, deployment.template, pin);
    }
  }

  /** All of them are then counted ready, and the version list is the template's alone. */
  lemma {:induction false} HealthyReports(target: Target, deployment: Deployment, sets: seq<ReplicaSet>, pods: seq<Pod>)
    requires Evaluation(target, deployment, sets, pods).health == Healthy
    ensures var r := Evaluation(target, deployment, sets, pods);
      && Expected(target, deployment).Some?
      && r.desired == Some(r.ready) && r.versions == {Expected(target, deployment).value.version}
  {
    var owned, expected := OwnedPods(pods, OwnedSets(sets, deployment)), Expected(target, deployment);
    HealthyExactly(target, deployment, sets, pods);
    CountAll(target, expected, owned);
    AllMatch(target, expected, owned);
    assert owned[0] in owned;
  }

  function Places<T>(s: seq<T>, p: T -> bool): set<nat> {
    set i: nat | i < |s| && p(s[i])
  }

  /** Where the ready pods are. */
  function ReadyAt(target: Target, pods: seq<Pod>): set<nat> {
    Places(pods, pod => Ready(target, pod))
  }

  lemma {:induction false} CountedReady(target: Target, pods: seq<Pod>)
    ensures CountReady(target, pods) == |ReadyAt(target, pods)|
  {
    if pods == [] {
    } else {
      var before, last := pods[..|pods| - 1], pods[|pods| - 1];
      assert pods == before + [last];
      CountedReady(target, before);
      CountLast(target, None, before, last);
      PlacesLast(before, last, pod => Ready(target, pod));
    }
  }

  lemma {:induction false} PlacesLast<T>(s: seq<T>, x: T, p: T -> bool)
    ensures |Places(s + [x], p)| == |Places(s, p)| + if p(x) then 1 else 0
  {
    assert Places(s + [x], p) == Places(s, p) + if p(x) then {|s|} else {};
  }

  lemma NextRemainder(n: nat)
    ensures (n + 1) % U32 == if n % U32 + 1 == U32 then 0 else n % U32 + 1
  {
  }

  lemma {:induction false} Wraps(n: nat)
    ensures Counter(n) == n % U32
  {
    if n > 0 {
      Wraps(n - 1);
      NextRemainder(n - 1);
    }
  }

  /** What a row reports besides its health: the ready owned pods, as 32 bits count them, and every version some
      owned pod runs. */
  lemma {:induction false} RowReports(target: Target, deployment: Deployment, sets: seq<ReplicaSet>, pods: seq<Pod>,
                                      version: string)
    ensures var r, owned := Evaluation(target, deployment, sets, pods), OwnedPods(pods, OwnedSets(sets, deployment));
      && r.name == target.deployment && r.desired == Some(deployment.replicas)
      && r.ready == |ReadyAt(target, owned)| % U32
      && (version in r.versions <==>
        exists pod, digest :: pod in owned && Runs(target, pod) == Some(Pin(version, digest)))
  {
    var r, owned := Evaluation(target, deployment, sets, pods), OwnedPods(pods, OwnedSets(sets, deployment));
    CountedReady(target, owned);
    Wraps(CountReady(target, owned));
    if version in r.versions {
      var pod :| pod in owned && Runs(target, pod).Some? && Runs(target, pod).value.version == version;
      assert Runs(target, pod) == Some(Pin(version, Runs(target, pod).value.digest));
    }
  }

  // --- what does not matter ------------------------------------------------

  /** How often a pod is owned is how often it is listed, or never. */
  lemma {:induction false} OwnedPodsCount(pods: seq<Pod>, owned: set<string>, pod: Pod)
    ensures multiset(OwnedPods(pods, owned))[pod]
         == if ControlledBy(pod.metadata, "ReplicaSet", owned) then multiset(pods)[pod] else 0
  {
    if pods == [] {
    } else {
      OwnedPodsCount(pods[1..], owned, pod);
      assert pods == [pods[0]] + pods[1..];
      var head := if ControlledBy(pods[0].metadata, "ReplicaSet", owned) then [pods[0]] else [];
      assert OwnedPods(pods, owned) == head + OwnedPods(pods[1..], owned);
    }
  }

  /** A pod is owned if it names as its controlling ReplicaSet one that in turn names the deployment as its
      controlling Deployment. */
  ghost predicate Owns(deployment: Deployment, sets: seq<ReplicaSet>, pod: Pod) {
    exists s :: s in sets
      && Owner(deployment.metadata.uid, "Deployment", true) in s.metadata.owners
      && Owner(s.metadata.uid, "ReplicaSet", true) in pod.metadata.owners
  }

  /** Exactly the pods that are owned count, each as often as it is listed. */
  lemma {:induction false} OwnedExactly(deployment: Deployment, sets: seq<ReplicaSet>, pods: seq<Pod>, pod: Pod)
    ensures multiset(OwnedPods(pods, OwnedSets(sets, deployment)))[pod]
         == if Owns(deployment, sets, pod) then multiset(pods)[pod] else 0
  {
    var owned := OwnedSets(sets, deployment);
    OwnedPodsCount(pods, owned, pod);
    if Owns(deployment, sets, pod) {
      var s :| s in sets && Owner(deployment.metadata.uid, "Deployment", true) in s.metadata.owners
        && Owner(s.metadata.uid, "ReplicaSet", true) in pod.metadata.owners;
      assert ControlledBy(s.metadata, "Deployment", {deployment.metadata.uid});
      assert s.metadata.uid in owned;
    }
  }

  lemma {:induction false} CountsForgetOrder(target: Target, expected: Option<Pin>, a: seq<Pod>, b: seq<Pod>)
    requires multiset(a) == multiset(b)
    ensures |a| == |b| && Versions(target, a) == Versions(target, b)
    ensures CountReady(target, a) == CountReady(target, b)
    ensures CountMatching(target, expected, a) == CountMatching(target, expected, b)
  {
    assert |multiset(a)| == |a| && |multiset(b)| == |b|;
    if a == [] {
    } else {
      var k := FindFirst(a, b);
      CountsForgetOrder(target, expected, a[1..], Without(b, k));
      CountAt(target, expected, b, k);
    }
    assert forall pod :: pod in a <==> pod in multiset(a);
    assert forall pod :: pod in b <==> pod in multiset(b);
  }

  lemma {:induction false} CountAt(target: Target, expected: Option<Pin>, pods: seq<Pod>, k: nat)
    requires k < |pods|
    ensures CountReady(target, pods) == CountReady(target, Without(pods, k)) + (if Ready(target, pods[k]) then 1 else 0)
    ensures CountMatching(target, expected, pods)
         == CountMatching(target, expected, Without(pods, k)) + (if Matches(target, expected, pods[k]) then 1 else 0)
  {
    if k > 0 {
      CountAt(target, expected, pods[1..], k - 1);
      assert Without(pods, k) == [pods[0]] + Without(pods[1..], k - 1);
      assert Without(pods, k)[1..] == Without(pods[1..], k - 1);
    } else {
      assert Without(pods, 0) == pods[1..];
    }
  }

  /** The answer is unchanged by reordering pods and replica sets, and by any that the deployment does not
      control through a set it owns. */
  lemma {:induction false} OnlyOwnedMatter(target: Target, deployment: Deployment, sets: seq<ReplicaSet>,
                                           sets': seq<ReplicaSet>,
                                           pods: seq<Pod>, pods': seq<Pod>, otherSets: seq<ReplicaSet>,
                                           otherPods: seq<Pod>)
    requires multiset(sets') == multiset(sets) + multiset(otherSets)
    requires multiset(pods') == multiset(pods) + multiset(otherPods)
    requires forall s :: s in otherSets ==> !ControlledBy(s.metadata, "Deployment", {deployment.metadata.uid})
    requires forall pod :: pod in otherPods ==> !ControlledBy(pod.metadata, "ReplicaSet", OwnedSets(sets, deployment))
    ensures Evaluation(target, deployment, sets', pods') == Evaluation(target, deployment, sets, pods)
  {
    assert forall s :: s in sets' <==> s in multiset(sets');
    assert forall s :: s in sets <==> s in multiset(sets);
    assert OwnedSets(sets', deployment) == OwnedSets(sets, deployment);
    var owned := OwnedSets(sets, deployment);
    var a, b := OwnedPods(pods', owned), OwnedPods(pods, owned);
    forall pod ensures multiset(a)[pod] == multiset(b)[pod] {
      OwnedPodsCount(pods', owned, pod);
      OwnedPodsCount(pods, owned, pod);
      assert pod in otherPods <==> pod in multiset(otherPods);
    }
    assert multiset(a) == multiset(b);
    CountsForgetOrder(target, Expected(target, deployment), a, b);
  }

  // --- summary.rs ----------------------------------------------------------

  datatype Summary = Summary(health: Health, version: Option<string>)

  function Ranked(workloads: seq<Workload>): Health {
    if workloads == [] || (exists w :: w in workloads && w.health == Unavailable) then Unavailable
    else if exists w :: w in workloads && w.health == Degraded then Degraded
    else if exists w :: w in workloads && w.health == Progressing then Progressing
    else if forall w :: w in workloads ==> w.health == Stopped then Stopped
    else Healthy
  }

  /** The versions of the workloads that are not stopped. */
  function RunningVersions(workloads: seq<Workload>): set<string> {
    set w, v | w in workloads && w.health != Stopped && v in w.versions :: v
  }

  /** The one element of a set, if it has exactly one. */
  function Only(s: set<string>): (r: Option<string>)
    ensures r.Some? ==> s == {r.value}
    ensures r.None? ==> |s| != 1
  {
    if v :| v in s && s == {v} then Some(v) else NotOne(s); None
  }

  lemma {:induction false} NotOne(s: set<string>)
    requires !exists v :: v in s && s == {v}
    ensures |s| != 1
  {
    if v :| v in s {
      var w :| w in s && w != v;
      assert |{v, w}| == 2 && s == {v, w} + (s - {v, w});
    }
  }

  /** `summarize`. */
  function Summarize(workloads: seq<Workload>): Summary {
    var health := Ranked(workloads);
    var version := if health == Healthy then Only(RunningVersions(workloads)) else None;
    Summary(if health == Healthy && version.None? then Progressing else health, version)
  }

  /** How much an answer overrides others. */
  function Severity(health: Health): nat {
    match health
    case Stopped => 0
    case Healthy => 1
    case Progressing => 2
    case Degraded => 3
    case Unavailable => 4
  }

  /** The ranking takes the worst of the answers, and nothing at all for the worst there is. */
  lemma {:induction false} RankedIsWorst(workloads: seq<Workload>)
    ensures workloads == [] ==> Ranked(workloads) == Unavailable
    ensures workloads != [] ==> exists w :: w in workloads && w.health == Ranked(workloads)
    ensures forall w :: w in workloads ==> Severity(w.health) <= Severity(Ranked(workloads))
  {
    if workloads != [] {
      assert workloads[0] in workloads;
    }
  }

  /** Every workload that is not stopped is healthy and lists no other version, and one lists it. */
  ghost predicate AllOn(workloads: seq<Workload>, version: string) {
    && (forall w :: w in workloads ==> w.health == Stopped || (w.health == Healthy && w.versions <= {version}))
    && exists w :: w in workloads && w.health == Healthy && version in w.versions
  }

  /** A version is named exactly where all that runs is healthy on it; otherwise the answer is the worst of the
      workloads', or Progressing where healthy ones disagree. */
  lemma {:induction false} SummaryExactly(workloads: seq<Workload>, version: string)
    ensures Summarize(workloads).version == Some(version) <==> AllOn(workloads, version)
    ensures Ranked(workloads) != Healthy ==> Summarize(workloads).health == Ranked(workloads)
    ensures Ranked(workloads) == Healthy ==>
      Summarize(workloads).health == if exists v :: AllOn(workloads, v) then Healthy else Progressing
  {
    RankedIsWorst(workloads);
    forall v ensures Summarize(workloads).version == Some(v) <==> AllOn(workloads, v) {
      NamedExactly(workloads, v);
    }
  }

  lemma {:induction false} NamedExactly(workloads: seq<Workload>, version: string)
    ensures Summarize(workloads).version == Some(version) <==> AllOn(workloads, version)
  {
    var running := RunningVersions(workloads);
    if AllOn(workloads, version) {
      assert Ranked(workloads) == Healthy;
      assert running == {version};
    }
    if Summarize(workloads).version == Some(version) {
      assert running == {version};
      forall w | w in workloads && w.health != Stopped ensures w.health == Healthy && w.versions <= {version} {
        assert forall v :: v in w.versions ==> v in running;
      }
      assert version in running;
    }
  }

  /** What was read of one workload, or nothing. */
  datatype Reading =
    | Read(target: Target, deployment: Deployment, sets: seq<ReplicaSet>, pods: seq<Pod>)
    | Unread(target: Target)

  function Row(reading: Reading): Workload {
    match reading
    case Read(target, deployment, sets, pods) => Evaluation(target, deployment, sets, pods)
    case Unread(target) => Workload(target.deployment, Unavailable, {}, None, 0)
  }

  function Rows(readings: seq<Reading>): (rows: seq<Workload>)
    ensures |rows| == |readings| && forall i :: 0 <= i < |rows| ==> rows[i] == Row(readings[i])
  {
    if readings == [] then [] else [Row(readings[0])] + Rows(readings[1..])
  }

  /** A version is named exactly when the whole is Healthy. */
  lemma {:induction false} NamedWhenHealthy(workloads: seq<Workload>)
    ensures Summarize(workloads).version.Some? <==> Summarize(workloads).health == Healthy
  {
  }

  /** Every owned pod is ready and runs `version` at the digest its own template pins; with no pods, the
      workload was stopped on purpose. */
  ghost predicate RunsOnly(r: Reading, version: string) {
    && r.Read?
    && var owned := OwnedPods(r.pods, OwnedSets(r.sets, r.deployment));
       && (forall pod :: pod in owned ==>
         && Ready(r.target, pod) && Runs(r.target, pod) == Expected(r.target, r.deployment)
         && Runs(r.target, pod).value.version == version)
       && (owned == [] ==> Row(r).health == Stopped && r.deployment.replicas == 0)
  }

  /** A named version is what every pod of every workload runs. */
  lemma {:induction false} NamedVersionRunsEverywhere(readings: seq<Reading>, i: nat)
    requires i < |readings|
    ensures var named := Summarize(Rows(readings)).version;
      named.Some? ==> RunsOnly(readings[i], named.value)
  {
    var rows, r := Rows(readings), readings[i];
    if Summarize(rows).version.Some? {
      assert Ranked(rows) == Healthy && rows[i] in rows;
      if rows[i].health == Healthy {
        HealthyExactly(r.target, r.deployment, r.sets, r.pods);
        HealthyReports(r.target, r.deployment, r.sets, r.pods);
        var v := Expected(r.target, r.deployment).value.version;
        assert v in rows[i].versions && v in RunningVersions(rows);
      }
    }
  }
}
