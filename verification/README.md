# Verified model of the Fabric sandbox, release and rollout tooling

This project models, in Dafny, the parts of the repository whose promises span several functions or whole runs,
and proves those promises:

- **The sandbox host gate** (`Firewall`, `GateCommands`, `GateState`, `Cleanups`): the rules that confine the
  disposable sandbox, how a listing of them is judged, what every prefix of applying and removing them does to the
  host's own chains, and when the trial's cleanups may touch them.
- **The activation lifecycle** (`Sandbox`, `Activation`): creating, verifying, recording, rolling back and resetting
  Docker resources against a daemon whose every call can fail, with an ownership receipt that must outlive what it
  records.
- **The release gate** (`Text`, `CompatibilityFile`, `WrittenMappings`, `ParsedMappings`, `SemVer`, `Provenance`,
  `ReaderFloor`): the strict reader of `compatibility.yaml`, every way of writing what it reads and every line it
  refuses, Semantic Versioning precedence, the provenance writer and its acceptor, and the reader floor over a commit
  history.
- **The dependency checker** (`Architecture`): the breadth-first closure, the chains rebuilt from it, and what the
  per-crate checks say about paths of any length.
- **Rollout evidence** (`Rollout`): image pins, one workload's health from counting loops, and the summary over all
  workloads.
- **The audit trail** (`AuditChain`, `AuditTrail`): sealing and verifying a hash chain, and the durable append with
  failing writes, stops, losses of power and reopenings.
- **The record digest** (`RecordDigest`): its text form.

`Results`, `Ordering`, `Sorting` and `Json` hold what these share.

Code that computes a value is a function with lemmas about it. Code that works step by step is a method or a class
proved against a specification: the parser's stack of aliased dictionaries, the Docker daemon and the host's files,
the trial's deferred cleanups, the search frontier, the counting loops, the audit trail's heads and files, and the
digest's byte array. What may fail, and how far it gets before it fails, is either a nondeterministic choice inside
a method or an explicit outcome parameter, so each theorem holds for every combination. A constant `reliable`, which
no command can ask about, switches the nondeterministic failures off; under it the same methods are proved to succeed.

## Two properties that fail, and exactly when

- *A packet the gate is not there for is left to the rules below it.* The gate drops new connections out of the
  sandbox and accepts the return traffic of connections that the host opened, which arrives on the bridge
  (examples/disposable-dogfood/dogfood.py:1027-1043); its documentation says nothing of other packets. Some of them it
  drops all the same: an established packet that carries a subnet address out of the subnet, but did not arrive on the
  bridge, meets the subnet rule, which asks neither for an interface nor for a state. `Firewall.UnmentionedPassThrough`
  shows that a packet outside both descriptions passes to the rules below, for every clean listing and whatever those
  rules are, if and only if it does not carry a subnet source address out of the subnet;
  `Firewall.EstablishedButDropped` exhibits a clean listing that drops such a packet although the rules below accept it.
- *No head file names an entry past the last durable line.* This holds over every run of appends, stops and losses of
  power, and over reopenings too where every line starts durable and no append leaves one in doubt
  (`AuditTrail.Trail.Run`). It can fail when a trail is reopened, which catches head files up without flushing any log.
  A stream that is opened has its head files within the durable lines if and only if all its lines had been flushed
  before (`AuditTrail.Trail.Open`). For one attempt, whether the opening is then accepted or refused, head files stay
  within the durable lines however the attempt ends if and only if there is nothing to catch up or every line is
  durable beforehand (`AuditTrail.CatchUpSafe`). `AuditTrail.AdoptUnflushed` reaches the failure through an accepted
  opening and a line that was never flushed, `AuditTrail.RefuseAhead` through a refused one and a flushed line in a log
  whose name was not durable.

## Model

| member | source | states |
|---|---|---|
| Firewall.Normalize | examples/disposable-dogfood/dogfood.py:1107-1112 | keeps every token in place except the state list after `--ctstate`, which is sorted |
| Firewall.StatesInAnyOrder | examples/disposable-dogfood/dogfood.py:1107-1112 | two state lists normalise alike if and only if they name the same states, each as often, in whatever order |
| Firewall.GateDistinct | examples/disposable-dogfood/dogfood.py:1027-1043 | no two rules of a chain's gate have one normal form, for every subnet |
| Firewall.EvaluateChain | examples/disposable-dogfood/dogfood.py:1115-1141 | reports nothing exactly when each gate rule is in the chain exactly once and the gate heads the chain in order |
| Firewall.EvaluateIptables | examples/disposable-dogfood/dogfood.py:1115-1141 | reports nothing exactly when both chains are announced and headed by their whole gate |
| Firewall.CleanListsGate | examples/disposable-dogfood/dogfood.py:1107-1141 | in an accepted listing the gate's rules stand first in each chain to the letter, except that the accepting one may name RELATED and ESTABLISHED in either order, and no other states |
| Firewall.CleanListingConfines | examples/disposable-dogfood/dogfood.py:1027-1141 | for every meaning of the other rules, a clean listing decides every packet: new ones from the bridge to the host, new ones leaving the bridge, and all that leave the subnet without being accepted are dropped; established ones from the bridge are accepted; any other is left to the rules below |
| Firewall.UnmentionedPassThrough | examples/disposable-dogfood/dogfood.py:1027-1043 | a packet that is neither new out of the sandbox nor established from the bridge is decided as by the rules below, for every clean listing and meaning of those rules, if and only if it does not carry a subnet address out of the subnet |
| Firewall.EstablishedButDropped | examples/disposable-dogfood/dogfood.py:1027-1043 | a clean listing, a meaning and an established packet, not from the bridge, that the rules below accept and the chain drops |
| GateCommands.EnforcementApplyCommands | examples/disposable-dogfood/dogfood.py:1046-1051 | the loops print one numbered insertion for each rule of each chain, in order |
| GateCommands.EnforcementRemoveCommands | examples/disposable-dogfood/dogfood.py:1054-1060 | the loops print one deletion for each rule, last first within a chain |
| GateCommands.GatedSteps | examples/disposable-dogfood/dogfood.py:1046-1060 | inserting the next rule and deleting it again move between neighbouring half-applied states, even if the chain already held an equal rule |
| GateCommands.ApplyPrefix | examples/disposable-dogfood/dogfood.py:1046-1051 | the state after any prefix of the apply commands, from any chains |
| GateCommands.UndoRestores | examples/disposable-dogfood/ci_smoke.py:233-238 | after any prefix of the apply commands, deleting what was inserted newest first restores every chain exactly |
| GateCommands.RemovePrefix | examples/disposable-dogfood/dogfood.py:1054-1060 | the state after any prefix of the printed remove commands |
| GateCommands.RemoveInvertsApply | examples/disposable-dogfood/dogfood.py:1046-1060 | the whole remove list after the whole apply list gives back the chains as they were |
| GateState.SplitRuleset | examples/disposable-dogfood/dogfood.py:1300-1307 | groups exactly the rule and announcement lines by their chain, in order |
| GateState.EvaluateGateState | examples/disposable-dogfood/dogfood.py:1310-1323 | the state of a ruleset, with the lines that name the sandbox as findings when it is partial |
| GateState.StateAtEveryStep | examples/disposable-dogfood/dogfood.py:1300-1323 | at every step of applying or removing, present exactly when all five rules are in and absent exactly when none is |
| GateState.EstablishedNeverNewlyDropped | examples/disposable-dogfood/dogfood.py:1027-1060 | at every half-applied state an established packet from the bridge is accepted or decided as it was before |
| Cleanups.GateLast | examples/disposable-dogfood/ci_smoke.py:135-154 | wherever the runtime stopped after deferring the gate's removal, that removal is the last cleanup, and it is run if and only if every other one succeeded |
| Cleanups.Trial.ApplyGate | examples/disposable-dogfood/ci_smoke.py:215-247 | the removal is deferred before the first insertion, what was inserted is a prefix of the printed list, and it is the whole list exactly on success |
| Cleanups.Trial.RemoveApplied | examples/disposable-dogfood/ci_smoke.py:233-238 | success restores the chains, a failure leaves them at some earlier half-applied state, and without a failing command it succeeds |
| Cleanups.Trial.RunCleanups | examples/disposable-dogfood/ci_smoke.py:139-154 | every cleanup is met exactly once, newest first; a guarded one is kept exactly when an earlier one was not done; the count returned is exact, and zero when nothing raises |
| Cleanups.Trial.RuntimeTrial | examples/disposable-dogfood/ci_smoke.py:613-629 | however far the stages get, what is deferred is a prefix of one fixed order with the gate first |
| Cleanups.Trial.Run | examples/disposable-dogfood/ci_smoke.py:139-154 | a run with no failed cleanup leaves the chains as found, rules are removed only if every other cleanup succeeded, and a run in which nothing raises applies and removes the whole gate |
| Sandbox.Daemon.ContainerPresent | examples/disposable-dogfood/dogfood.py:1696-1713 | an answer is the truth about the listing; a failed listing is no answer |
| Sandbox.Daemon.InspectContainer | examples/disposable-dogfood/dogfood.py:1720-1738 | absent only if not listed; otherwise the container with that identifier, or failing that with that name |
| Sandbox.EvaluateOwnedContainer | examples/disposable-dogfood/dogfood.py:980-994 | each mismatch of identifier, name, project or image is a finding of its own, and there is none exactly for what the profile owns |
| Sandbox.Daemon.VerifyContainer | examples/disposable-dogfood/dogfood.py:2171-2183 | a recorded container that exists is handed over for removal only if it is the profile's own |
| Sandbox.Daemon.PlanRemoval | examples/disposable-dogfood/dogfood.py:2171-2198 | plans exactly the recorded containers that exist, only when nothing recorded is contested, and always does where no call fails and the record can be verified |
| Sandbox.Daemon.RemoveRecorded | examples/disposable-dogfood/dogfood.py:2169-2210 | nothing is removed if any recorded resource fails verification; success means exactly the record went away, and lists it; the network goes only after the recorded containers; only the profile's own resources are ever removed; and where no call fails, a record that can be verified is removed |
| Sandbox.Daemon.RemoveOwnedByName | examples/disposable-dogfood/dogfood.py:2154-2166 | nothing whose name, project or image is not the profile's is touched, and no network with an attached container is removed; success leaves none of the profile's containers and lists exactly what went away |
| Sandbox.Daemon.RemainingOwned | examples/disposable-dogfood/dogfood.py:2145-2151 | an answer says exactly whether some fixed name or recorded identifier is listed, and an empty one proves that none exists |
| Activation.SafeNext | examples/disposable-dogfood/dogfood.py:2213-2454 | creating a receipt where there is none, or deleting a whole one when nothing it records exists, keeps the file's history safe |
| Activation.ReceiptOutlivesResources | examples/disposable-dogfood/dogfood.py:2213-2454 | between two receipts ever written the first was whole and was deleted in a state where none of its container or network identifiers existed |
| Activation.Host.WriteReceipt | examples/disposable-dogfood/dogfood.py:1441-1452 | an existing receipt is never overwritten, whatever fails |
| Activation.Host.ReadReceipt | examples/disposable-dogfood/dogfood.py:1557-1569 | no file is no receipt, and only a whole receipt is returned |
| Activation.Host.Rollback | examples/disposable-dogfood/dogfood.py:2213-2245 | a verified rollback leaves no fixed name listed, no receipt and no credential; only the profile's own resources went away; where nothing fails, it is verified for a recorded start that can be recovered and, if all that holds a fixed name is the profile's own, for one that recorded nothing; and one that is not verified can be tried again |
| Activation.Host.StartAndBootstrap | examples/disposable-dogfood/dogfood.py:2342-2392 | on success a whole receipt records existing resources that are the profile's own; foreign resources and an existing receipt are kept; where no call of its own fails and the fixed names are held by the profile's own alone, it succeeds exactly when the start runs to its end, and what it leaves can be rolled back |
| Activation.Host.Activate | examples/disposable-dogfood/dogfood.py:2270-2339 | refuses with receipt and daemon untouched, as always when a receipt or credential exists; or ends activated with a verified receipt; or abandoned, with a verified rollback leaving nothing, and otherwise, unless the receipt was torn, with what a later rollback can start from; where no call of its own fails and the fixed names are held by the profile's own alone, it ends activated exactly when the start completes, and else abandoned with everything rolled back |
| Activation.Host.Reset | examples/disposable-dogfood/dogfood.py:2427-2454 | a receipt that cannot be validated stops it before anything is removed; success removes exactly the record and leaves neither receipt nor credential; and where nothing fails, a verifiable record is reset |
| Activation.Host.Run | examples/disposable-dogfood/dogfood.py:2213-2454 | over every run of commands, with the daemon changing freely in between, the receipt's history stays safe |
| Architecture.ClosedIsReachable | scripts/check_architecture.py:823-847 | a finished search has recorded a crate if and only if some chain of declared dependencies reaches it |
| Architecture.InternalClosure | scripts/check_architecture.py:823-847 | terminates with exactly the workspace crates that chains over the chosen tables reach: those without development tables, or all of them |
| Architecture.ChainTo | scripts/check_architecture.py:850-855 | a real dependency path from the start to the target, and none is shorter |
| Architecture.CheckPlaneReachability | scripts/check_architecture.py:858-907 | a failure for exactly the crates that meet both planes, each with a genuine path into each plane |
| Architecture.DevelopmentIgnored | scripts/check_architecture.py:282-303 | whether a crate meets both planes does not depend on what is declared for development only |
| Architecture.CleanPlanesDoNotMeet | scripts/check_architecture.py:858-907 | a clean result excludes every chain of production dependencies, of any length, from one plane to the other, in both directions |
| Architecture.CleanBridgesNothing | scripts/check_architecture.py:858-907 | nor does any crate have paths into both planes |
| Architecture.CheckPublisherUnreachable | scripts/check_architecture.py:910-953 | clean exactly when no chain of declarations of any kind leads from a runtime crate to the publisher, and each failure shows such a chain |
| Architecture.CheckPlanesDoNotMeet | scripts/check_architecture.py:793-820 | clean exactly when no crate declares a dependency across the planes, in any table |
| Architecture.PlanesDisjoint | scripts/check_architecture.py:59-86 | no crate is declared in both planes |
| Architecture.CheckDeclaredPlanes | scripts/check_architecture.py:1278-1319 | on the declared planes and publisher, the three checks are clean exactly when their conditions hold, and no chain of production dependencies then leads from one declared plane into the other |
| WrittenMappings.RoundTrip | scripts/release_compatibility.py:151-192 | for every mapping of the grammar whose texts can be spelt at all, parsing what was printed gives it back, key order included |
| WrittenMappings.AcceptedAgain | scripts/release_compatibility.py:151-192 | whatever text is accepted, its mapping has unique keys of the grammar and can be printed, and reading that again gives the same mapping |
| CompatibilityFile.Step | scripts/release_compatibility.py:161-192 | one line: after every accepted line each open mapping is the newest child of the one below it |
| WrittenMappings.ReadsMeaning | scripts/release_compatibility.py:151-192 | however a mapping is spelt, with plain, single- or double-quoted scalars, white space around them, comments and blank lines, reading it gives what the spelling means: plain text is itself unless it is a canonical number |
| WrittenMappings.RefusedExactly | scripts/release_compatibility.py:151-192 | after any lines that are read, the next is refused, by its number and reason and whatever follows, exactly for a tab, an indentation that names no open mapping, no key, a key already given, bad quoting, or a forbidden character in plain text |
| WrittenMappings.SplitKeyExactly | scripts/release_compatibility.py:179-182 | a line gives a key a value exactly when it is the key and a colon, with a space and the value or with nothing |
| Text.SplitLinesCover | scripts/release_compatibility.py:161 | the lines hold no break, and with their breaks they are the whole text |
| Text.StripCuts | scripts/release_compatibility.py:163 | stripping cuts all white space at both ends and nothing else |
| Text.SplitJoins | examples/disposable-dogfood/dogfood.py:1107-1112 | splitting leaves no separator in a part, and joining the parts gives the text back |
| Text.JoinSplits | examples/disposable-dogfood/dogfood.py:1107-1112 | splitting undoes joining |
| ParsedMappings.CloseDeeper | scripts/release_compatibility.py:175-176 | pops exactly the mappings indented deeper than the line, never the root |
| ParsedMappings.ReadContent | scripts/release_compatibility.py:174-191 | writing through the stack's aliases keeps the dictionaries in step with the mapping read so far, open at indents 0, 2, 4 and so on |
| ParsedMappings.ParseSubset | scripts/release_compatibility.py:161-192 | the dictionary returned holds exactly the mapping read line by line, with the same refusals at the same lines |
| SemVer.PrecedesTotal | scripts/release_compatibility.py:115-143 | of two distinct publishable versions exactly one precedes the other, and none precedes itself |
| SemVer.PrecedesTransitive | scripts/release_compatibility.py:134-143 | precedence is transitive |
| SemVer.PrecedesIsSemVer | scripts/release_compatibility.py:126-143 | precedence is that of section 11 of Semantic Versioning 2.0.0, said by positions of first difference |
| SemVer.AdmittedUpwards | scripts/release_compatibility.py:280-288 | what the floor admits is closed upwards |
| SemVer.AdmitsExactly | scripts/release_compatibility.py:280-288 | the floor admits itself and what it precedes, and nothing else |
| SemVer.CanonicalNumbers | crates/fabric-platform-management/src/version/ordering.rs:35-53 | comparing canonical numbers by digit count and then as text compares them as numbers, at any size |
| SemVer.PlatformAgrees | crates/fabric-platform-management/src/version/ordering.rs:35-66 | the platform's order and the release script's never disagree |
| Provenance.RenderForgetsOrder | scripts/release_compatibility.py:531-561 | the document, or the refusal, is the same for every ordering of the image arguments |
| Provenance.RenderExactly | scripts/release_compatibility.py:531-561 | rendered exactly for a version the floor admits, a full commit, a source, and readable images of distinct roles with the floor's repository among them; the document then says what was asked, the version included, with the images in the order of their roles |
| Provenance.ParseImageExactly | scripts/release_compatibility.py:517-528 | an argument is read as an image exactly when it is that image's role, an equals sign, its repository, an `@` and its digest, each of its own grammar |
| Provenance.ReadRoles | scripts/release_compatibility.py:307-320 | accepts exactly the files of distinct roles with their repositories, the publisher among them |
| Provenance.CheckFloorArtifact | scripts/release_compatibility.py:333-435 | accepts a proof if and only if identity, contracts, recorded roles, descriptor and registry all hold |
| Provenance.RenderedIsAccepted | scripts/release_compatibility.py:333-561 | a release rendered at any version its own floor admits, and completed, is accepted as a floor proof if and only if that version is then the floor and component, repository and contracts are unchanged |
| Provenance.AcceptedCoversRoles | scripts/release_compatibility.py:333-435 | any acceptance forces as many recorded images as published roles, each role bound at its published repository by one digest, that of the provenance, of the tag and of the descriptor |
| Provenance.AcceptedStates | scripts/release_compatibility.py:333-435 | any acceptance forces one component, version, source and commit; a compatibility file recorded by digest, at today's contracts and with a floor not above its own; and every published role's image labelled with that source, commit and version |
| ReaderFloor.Difference | scripts/check_reader_floor.py:141-148 | lists exactly the lines removed and added, a missing document counting as empty, and nothing if and only if the shape is the same |
| ReaderFloor.ParseLockExactly | scripts/check_reader_floor.py:57-71 | a lock is read exactly when its floor is a positive integer, not a flag, and its shapes are lists of text; the floor and every line, in order, are what is read |
| ReaderFloor.StatedExactly | scripts/check_reader_floor.py:130-133 | the text of a compatibility file states a floor exactly when it is accepted and nests that floor under `publication` under `spec` |
| ReaderFloor.FloorExactly | scripts/check_reader_floor.py:117-138 | a commit's floor is a number exactly when its source declares that number, once, and the text of its compatibility file states it |
| ReaderFloor.Check | scripts/check_reader_floor.py:151-195 | the guards in order, each with its reason |
| ReaderFloor.PassesExactly | scripts/check_reader_floor.py:117-195 | what passing means: one floor named by lock, source and compatibility file, not below the old one, and an equal shape or a higher floor |
| ReaderFloor.StepHolds | scripts/check_reader_floor.py:117-195 | what one passing step establishes about both commits |
| ReaderFloor.FloorNeverFalls | scripts/check_reader_floor.py:117-195 | along a passing history the floor never falls, every commit after the first is locked, and any two locked commits with one floor publish one shape |
| Rollout.RunningDigestEnds | crates/fabric-deployment-kubernetes/src/image.rs:15-20 | the reported image is the digest, or ends with an `@` and the digest |
| Rollout.Pinned | crates/fabric-deployment-kubernetes/src/image.rs:4-13 | a returned pin is the image without its repository: a legal version and a SHA-256 digest, none of it lost |
| Rollout.PinnedExactly | crates/fabric-deployment-kubernetes/src/image.rs:4-13 | a pin is read if and only if the image is the repository, a colon, a legal version with an optional `v`, an `@` and a SHA-256 digest, and then in one way only |
| Rollout.VersionsExactly | crates/fabric-platform-management/src/version/parse.rs:31-78 | the versions read are exactly those that can be written as three 64-bit numbers without leading zeros and, after a dash, legal prerelease identifiers |
| Rollout.PodEvidence | crates/fabric-deployment-kubernetes/src/evaluate.rs:41-69 | a pod runs an image exactly when its container asks for it by version and digest and its running status reports that digest, and is ready exactly when status and condition say so and it is not terminating |
| Rollout.Evaluate | crates/fabric-deployment-kubernetes/src/evaluate.rs:10-102 | the filters and the counting loop give the specified workload row |
| Rollout.HealthyExactly | crates/fabric-deployment-kubernetes/src/evaluate.rs:34-96 | healthy if and only if the controller has settled, there are as many owned pods as desired, at least one, and every one is ready, not terminating and runs the template's pinned image |
| Rollout.HealthExactly | crates/fabric-deployment-kubernetes/src/evaluate.rs:72-96 | the other answers, each by its own condition: degraded, stopped, unavailable, progressing |
| Rollout.HealthyReports | crates/fabric-deployment-kubernetes/src/evaluate.rs:34-102 | a healthy row counts every desired pod ready and lists the template's version alone |
| Rollout.RowReports | crates/fabric-deployment-kubernetes/src/evaluate.rs:36-102 | the row counts the ready owned pods as 32 bits do and lists a version exactly when some owned pod runs it |
| Rollout.OnlyOwnedMatter | crates/fabric-deployment-kubernetes/src/evaluate.rs:17-70 | the row is unchanged by reordering and by any replica sets or pods not controlled through an owned set |
| Rollout.OwnedExactly | crates/fabric-deployment-kubernetes/src/evaluate.rs:18-34 | a pod counts exactly when it names as controlling ReplicaSet one that names the deployment as its controlling Deployment, and as often as it is listed |
| Rollout.NamedWhenHealthy | crates/fabric-deployment-kubernetes/src/summary.rs:5-43 | a version is named exactly when the whole is healthy |
| Rollout.RankedIsWorst | crates/fabric-deployment-kubernetes/src/summary.rs:10-20 | the ranking is the worst of the workloads' answers, and Unavailable for none |
| Rollout.SummaryExactly | crates/fabric-deployment-kubernetes/src/summary.rs:10-35 | a version is named exactly when every workload that is not stopped is healthy and lists no other, and one does; otherwise the answer is the worst, or Progressing where healthy ones disagree |
| Rollout.NamedVersionRunsEverywhere | crates/fabric-deployment-kubernetes/src/summary.rs:5-43 | a named version is what every owned pod of every workload runs, at its template's digest; a workload without pods was stopped on purpose |
| AuditChain.SealExtends | crates/fabric-control-plane/src/audit_trail/entry.rs:46-68 | sealing onto a chain's last head extends the chain, and is refused exactly at the end of the numbers or over the size limit |
| AuditChain.SealsNext | crates/fabric-control-plane/src/audit_trail/entry.rs:46-68 | the one entry that continues a chain with a given record and time is what is sealed, and it is refused only when over the size limit |
| AuditChain.Verify | crates/fabric-control-plane/src/audit_trail/verify.rs:24-76 | accepts exactly the chains that hold their anchor, says where they end, and otherwise diagnoses the first wrong entry or how the anchor is missed |
| AuditChain.VerifyLink | crates/fabric-control-plane/src/audit_trail/verify.rs:32-58 | one entry's checks, each break told apart from the others |
| AuditChain.NoFork | crates/fabric-control-plane/src/audit_trail/verify.rs:24-76 | no two entries of a chain were sealed onto one head |
| AuditChain.AnchorFixesHistory | crates/fabric-control-plane/src/audit_trail/verify.rs:24-76 | where hashes do not collide, whatever verifies against a head a chain once had begins with that chain |
| AuditTrail.Trail.AppendLine | crates/fabric-control-plane-api/src/local_audit_trail/files.rs:32-52 | succeeds only for a durable line under a durable name; a failure leaves the line absent, torn or whole |
| AuditTrail.Trail.WriteHead | crates/fabric-control-plane-api/src/local_audit_trail/files.rs:59-72 | leaves the old head or the new one |
| AuditTrail.Trail.Append | crates/fabric-control-plane-api/src/local_audit_trail.rs:89-129 | a broken stream is refused untouched; otherwise the log grows by exactly the entry sealed on its last head, durably, or the stream is broken; a live stream answers with the one entry that continues it when that fits and its line is durable; every stream stays sound and head files within the durable lines stay there |
| AuditTrail.Trail.OpenStream | crates/fabric-control-plane-api/src/local_audit_trail/open.rs:63-81 | one stream is accepted exactly when it is whole, verifies and its head could be caught up; its files are what that attempt makes of them either way |
| AuditTrail.Trail.Open | crates/fabric-control-plane-api/src/local_audit_trail/open.rs:34-93 | opens exactly when every stream opens and all writes succeed; each stream then continues from its last line, its head files within the durable lines if and only if all lines had been flushed; and accepted or refused, they stay there where catching up was safe beforehand |
| AuditTrail.Trail.LosePower | crates/fabric-control-plane-api/src/local_audit_trail/durability.rs:1-7 | whatever a loss of power leaves is still a chain holding every acknowledged entry |
| AuditTrail.Trail.Crash | crates/fabric-control-plane-api/src/local_audit_trail/durability.rs:1-7 | losing power while running leaves every stream whose head files were within the durable lines readable, unless a line was cut in two |
| AuditTrail.ReadableAfter | crates/fabric-control-plane-api/src/local_audit_trail/durability.rs:1-7 | a stream is readable after every loss of power that cuts no line, if and only if no head file ran ahead of the durable lines |
| AuditTrail.Trail.Run | crates/fabric-control-plane-api/src/local_audit_trail.rs:89-129 | over every run of appends, stops, losses of power and reopenings, no acknowledged entry is lost and none shares its predecessor with another; head files stay within the durable lines without a reopening, and with them where no line is ever in doubt |
| AuditTrail.AppendedSound | crates/fabric-control-plane-api/src/local_audit_trail.rs:102-114 | an attempted append keeps its stream sound: extended if the line is durable, broken otherwise |
| AuditTrail.OpenedSound | crates/fabric-control-plane-api/src/local_audit_trail/open.rs:68-83 | an opened stream is in step with memory, and its head files are within the durable lines if and only if all its lines had been flushed |
| AuditTrail.CatchUpSafe | crates/fabric-control-plane-api/src/local_audit_trail/open.rs:75-79 | head files stay within the durable lines however catching one up ends, if and only if there is nothing to catch up or every line is durable beforehand |
| AuditTrail.LeftStored | crates/fabric-control-plane-api/src/local_audit_trail/durability.rs:1-7 | a cut log is still a sealed chain with every durable entry |
| AuditTrail.AdoptUnflushed | crates/fabric-control-plane-api/src/local_audit_trail/open.rs:68-81 | a run ending in an accepted opening after which a head file names a line that is not durable |
| AuditTrail.RefuseAhead | crates/fabric-control-plane-api/src/local_audit_trail/open.rs:68-81 | a run ending in a refused opening after which a head file names a flushed line of a log whose name is not durable |
| RecordDigest.Parse | crates/fabric-core/src/record_digest.rs:29-39 | succeeds exactly on 64 lower-case hexadecimal characters, with exactly the digest that is shown as that text |
| RecordDigest.PairsAreBytes | crates/fabric-core/src/record_digest.rs:42-48 | a byte is written as a pair of characters if and only if shifting and joining their values gives the byte |
| RecordDigest.HexDigitsInOrder | crates/fabric-core/src/record_digest.rs:42-48 | the sixteen digits increase with the values they stand for |
| RecordDigest.ShownIsDigestText | crates/fabric-core/src/record_digest.rs:64-68 | every digest is shown as digest text |
| RecordDigest.ShownOnce | crates/fabric-core/src/record_digest.rs:64-68 | different digests are shown differently |

## Left out

- Subprocesses, Docker, iptables, git, HTTP, the file system's permissions and symbolic links, and the terminal:
  only whether a call succeeds, how far it got and what it leaves are modelled.
- Regular expressions, JSON, TOML and SHA-256 as such: `Provenance` takes its grammars as predicates, documents are
  parsed values up to Python's equality, and hashes are an arbitrary function; collisions are excluded only where
  `AuditChain.AnchorFixesHistory` says so.
- Sandbox.Daemon.ContainerPresent: the listing's text is not modelled; malformed rows are failed listings, and several
  names of one container, or the early return at a match before a malformed row, do not arise.
- Sandbox.Daemon.NetworkPresent: as for containers.
- A rule or ruleset line is its list of tokens; splitting text into tokens is not modelled. An iptables command that
  fails changes nothing.
- No outside actor changes the profile's resources in the middle of a command; between commands anything may happen.
- Preflight checks, daemon verification and name collisions in `cmd_activate` are refusals that may happen at any
  time; their own conditions are not modelled. Rendering and validating the compose, proxy and configuration files is
  left out.
- Refusal messages are reduced to reason codes, and a sorted version list to its set.
- Python's `$` lets the version pattern accept one trailing newline; the facts about versions are about the matched
  core and identifiers.
- Provenance.Render: starts from a source that already agrees with the compatibility file, and takes that file's digest as given.
- Provenance.Record: refuses an image whose role is not text at once; the original refuses it when roles are compared, since it equals no published role.
- ReaderFloor.Contracts: the other contract checks are one given fact about the checked-out tree.
- A log line that was cut short spoils the rest of its log, since reading refuses all of it; which bytes are left of
  it is not modelled. A loss of power leaves a prefix of what was appended.
- Concurrency of audit appends: the lock makes each append one step, and that is how it is modelled; a poisoned lock
  is left out.
- AuditTrail.Trail.Open: takes the directory's lock and its readable streams as parameters; files that name no
  stream are left out.
- The 32-bit counters of `evaluate` wrap here, as they do in a release build; a debug build would stop.
- Tenant registry, publisher, reconciliation, query translation, routers, the console, lifecycle and paging helpers
  are left out: small checks or code outside these cores.
