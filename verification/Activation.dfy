/** Activating, rolling back and resetting the sandbox: what happens to the ownership receipt over any run
    (examples/disposable-dogfood/dogfood.py). */
module Activation {
  import opened Results
  import opened Text
  import opened Sandbox

  /** What the receipt's file holds: all of it, or the start of a write that did not finish. */
  datatype Content = Whole(receipt: Receipt) | Torn

  /** What happened to the receipt's file, and what existed when it was deleted. */
  datatype FileEvent =
    | Wrote(content: Content)
    | Deleted(content: Content, containers: Containers, networks: Networks)

  /** The file after these events, starting from none. */
  function Replay(history: seq<FileEvent>): Option<Content> {
    if history == [] then None
    else
      match history[|history| - 1]
      case Wrote(content) => Some(content)
      case Deleted(_, _, _) => None
  }

  /** The file is only ever created where there is none, and only deleted whole, when nothing it records
      exists any more. */
  ghost predicate Safe(history: seq<FileEvent>) {
    forall i :: 0 <= i < |history| ==> SafeEvent(history[..i], history[i])
  }

  ghost predicate SafeEvent(before: seq<FileEvent>, event: FileEvent) {
    match event
    case Wrote(_) => Replay(before) == None
    case Deleted(content, containers, networks) =>
      Replay(before) == Some(content) && content.Whole? && Gone(content.receipt, containers, networks)
  }

  lemma {:induction false} SafeNext(history: seq<FileEvent>, event: FileEvent)
    requires Safe(history) && SafeEvent(history, event)
    ensures Safe(history + [event])
  {
    var longer := history + [event];
    forall i | 0 <= i < |longer| ensures SafeEvent(longer[..i], longer[i]) {
      assert longer[..i] == if i < |history| then history[..i] else history;
    }
  }

  /** Between two receipts ever written, the first was whole and was deleted when nothing it recorded
      existed. */
  lemma {:induction false} ReceiptOutlivesResources(history: seq<FileEvent>, i: nat, j: nat) returns (k: nat)
    requires Safe(history) && i < j < |history| && history[i].Wrote? && history[j].Wrote?
    ensures i < k < j && history[k].Deleted? && history[k].content == history[i].content
    ensures history[i].content.Whole?
    ensures Gone(history[i].content.receipt, history[k].containers, history[k].networks)
  {
    k := i + 1;
    assert SafeEvent(history[..k], history[k]);
    assert history[..k][|history[..k]| - 1] == history[i];
  }

  datatype Failed = Failed

  /** How `cmd_activate` ends: refused before anything was started, started and abandoned, or activated. */
  datatype Ending = Refused | Abandoned(verified: bool) | Activated

  /** Only what is recorded has one of the fixed names. */
  ghost predicate OnlyHolders(receipt: Receipt, containers: Containers, networks: Networks) {
    && (forall id, service ::
         service in SERVICES && id in containers && containers[id].name == ContainerName(service) ==>
           IsRecorded(receipt, id))
    && (forall service :: service in SERVICES ==> ContainerName(service) !in containers)
    && (forall id :: id in networks && networks[id].name == NETWORK_NAME ==> id == receipt.network)
    && NETWORK_NAME !in networks
  }

  lemma {:induction false} NothingRemains(receipt: Receipt, before: Containers, after: Containers, nets: Networks,
                                          nets': Networks)
    requires NoneNamed(receipt, before, nets) && OnlyHolders(receipt, before, nets)
    requires RecordedRemoved(receipt, before, after, nets, nets')
    requires forall id :: id in after && id in before ==> after[id] == before[id]
    requires forall id :: id in nets' && id in nets ==> nets'[id] == nets[id]
    ensures !Remains(Some(receipt), after, nets')
  {
    forall service | service in SERVICES ensures !ServiceRemains(service, Some(receipt), after) {
      assert IsRecorded(receipt, receipt.containers(service));
    }
  }

  /** The profile's own resources, as they may be after a start that got anywhere: each fixed name has at most one
      holder, which is the profile's own, nothing foreign is attached to its network, and no resource is named
      like an identifier. */
  ghost predicate AllOwn(profile: Profile, containers: Containers, networks: Networks) {
    && NamesUnique(containers, networks)
    && (forall id :: id in containers ==> !IsFullId(containers[id].name))
    && (forall id :: id in networks ==> !IsFullId(networks[id].name))
    && (forall id, service ::
         service in SERVICES && id in containers && containers[id].name == ContainerName(service) ==>
           OwnsContainer(profile, service, id, containers[id]))
    && (forall id :: id in networks && networks[id].name == NETWORK_NAME ==>
         OwnsNetwork(profile, id, networks[id]) && AttachedTo(id, containers) <= NAMES)
  }

  /** Removing some of it leaves the rest the profile's own, */
  lemma {:induction false} StillOwn(profile: Profile, before: Containers, after: Containers, nets: Networks,
                                    nets': Networks)
    requires AllOwn(profile, before, nets) && OnlyOwnedRemoved(profile, before, after, nets, nets')
    ensures AllOwn(profile, after, nets')
  {
    forall id | id in nets' ensures AttachedTo(id, after) <= AttachedTo(id, before) {
    }
  }

  /** and what is left of a record can still be verified and removed. */
  lemma {:induction false} StillRemovable(profile: Profile, receipt: Receipt, before: Containers, after: Containers,
                                          nets: Networks, nets': Networks)
    requires Removable(profile, receipt, before, nets) && OnlyHolders(receipt, before, nets)
    requires OnlyOwnedRemoved(profile, before, after, nets, nets')
    ensures Removable(profile, receipt, after, nets') && OnlyHolders(receipt, after, nets')
  {
    assert AttachedTo(receipt.network, after) <= AttachedTo(receipt.network, before);
  }

  lemma {:induction false} RemovedTwice(profile: Profile, a: Containers, b: Containers, c: Containers, nets: Networks,
                                        nets': Networks, nets'': Networks)
    requires OnlyOwnedRemoved(profile, a, b, nets, nets') && OnlyOwnedRemoved(profile, b, c, nets', nets'')
    ensures OnlyOwnedRemoved(profile, a, c, nets, nets'')
  {
  }

  /** Every fixed name is held. */
  predicate AllHeld(containers: Containers, networks: Networks) {
    && (forall service :: service in SERVICES ==> ContainerListed(containers, ContainerName(service)))
    && NetworkListed(networks, NETWORK_NAME)
  }

  lemma {:induction false} FixedNames()
    ensures !IsFullId(NETWORK_NAME) && forall service :: service in SERVICES ==> !IsFullId(ContainerName(service))
    ensures NAMES == set service | service in SERVICES :: ContainerName(service)
  {
    assert ControlPlane in SERVICES && Console in SERVICES && Keycloak in SERVICES;
  }

  /** Removing all that is provably the profile's leaves nothing under the fixed names. */
  lemma {:induction false} OwnRemoved(profile: Profile, before: Containers, after: Containers, nets: Networks,
                                      nets': Networks)
    requires AllOwn(profile, before, nets) && OnlyOwnedRemoved(profile, before, after, nets, nets')
    requires forall id :: id in after ==> !Owned(profile, id, after[id])
    requires forall id :: id in nets' && OwnsNetwork(profile, id, nets'[id]) ==> AttachedTo(id, after) != {}
    ensures !Remains(None, after, nets')
  {
    FixedNames();
    forall id, service | id in after && service in SERVICES ensures after[id].name != ContainerName(service) {
      assert !OwnsContainer(profile, service, id, after[id]);
      assert after[id] == before[id];
    }
    forall id | id in nets' ensures nets'[id].name != NETWORK_NAME {
      assert AttachedTo(id, after) <= AttachedTo(id, before);
      assert AttachedTo(id, after) !! NAMES;
      assert AttachedTo(id, before) <= NAMES ==> AttachedTo(id, after) == {};
    }
    forall service | service in SERVICES ensures !ServiceRemains(service, None, after) {
      assert ContainerName(service) in after ==> IsFullId(ContainerName(service));
    }
  }

  /** What `docker compose up` starts and whether it succeeds, whether the network it made has the options asked
      for, and whether everything after the receipt succeeds. */
  datatype Start = Start(up: bool, containers: Containers, networks: Networks, fits: bool, bootstraps: bool)

  /** The start runs to its end. */
  predicate Completes(start: Start, containers: Containers, networks: Networks) {
    start.up && start.fits && start.bootstraps && AllHeld(containers, networks)
  }

  datatype Command = ActivateWith(refused: bool, start: Start) | ResetNow

  class Host {
    const daemon: Daemon
    const profile: Profile

    // Whether every file can be read, written and deleted, and no other check fails. Nothing asks but the
    // choices below.
    const reliable: bool
    var receipt: Option<Content>
    var credential: bool
    ghost var history: seq<FileEvent>

    constructor (daemon: Daemon, profile: Profile, reliable: bool)
      ensures this.daemon == daemon && this.profile == profile && this.reliable == reliable
      ensures Valid() && receipt == None && !credential && history == []
    {
      this.daemon, this.profile, this.reliable := daemon, profile, reliable;
      receipt, credential, history := None, false, [];
    }

    ghost predicate Valid()
      reads this
    {
      Safe(history) && receipt == Replay(history)
    }

    // --- the file system ---------------------------------------------------

    /** `write_regular_file(receipt, exclusive=True)`: refuses an existing file; a failure may leave nothing,
        a torn file or the whole one. */
    method WriteReceipt(recorded: Receipt) returns (ok: bool)
      requires Valid()
      modifies this`receipt, this`history
      ensures Valid() && old(history) <= history
      ensures old(receipt).Some? ==> !ok && receipt == old(receipt)
      ensures ok ==> receipt == Some(Whole(recorded))
      ensures old(receipt).None? ==> receipt in {None, Some(Torn), Some(Whole(recorded))}
      ensures reliable && old(receipt).None? ==> ok
    {
      if receipt.Some? {
        return false;
      }
      var failure: bool := *;
      failure := failure && !reliable;
      var written: bool := *;
      var torn: bool := *;
      if !failure || written {
        var content := if failure && torn then Torn else Whole(recorded);
        SafeNext(history, Wrote(content));
        receipt, history := Some(content), history + [Wrote(content)];
      }
      ok := !failure;
    }

    /** `receipt.unlink(missing_ok=True)`. */
    method DeleteReceipt() returns (ok: bool)
      requires Valid()
      requires receipt.Some? ==> receipt.value.Whole? && Gone(receipt.value.receipt, daemon.containers, daemon.networks)
      modifies this`receipt, this`history
      ensures Valid() && old(history) <= history
      ensures ok ==> receipt == None
      ensures !ok ==> receipt == old(receipt)
      ensures reliable ==> ok
    {
      var failure: bool := *;
      if failure && !reliable {
        return false;
      }
      if receipt.Some? {
        var content := receipt.value;
        SafeNext(history, Deleted(content, daemon.containers, daemon.networks));
        receipt, history := None, history + [Deleted(content, daemon.containers, daemon.networks)];
      }
      ok := true;
    }

    method DeleteCredential() returns (ok: bool)
      modifies this`credential
      ensures ok ==> !credential
      ensures !ok ==> credential == old(credential)
      ensures reliable ==> ok
    {
      var failure: bool := *;
      failure := failure && !reliable;
      credential := if failure then credential else false;
      ok := !failure;
    }

    /** `read_receipt`: no file is no receipt; a file that is torn, or that no longer matches what was
        rendered, is refused. */
    method ReadReceipt() returns (r: Result<Option<Receipt>, Failed>)
      ensures r == Success(None) ==> receipt == None
      ensures r.Success? && r.value.Some? ==> receipt == Some(Whole(r.value.value))
      ensures reliable && receipt != Some(Torn) ==> r.Success?
    {
      if receipt == None {
        return Success(None);
      }
      var failure: bool := *;
      if (failure && !reliable) || receipt.value.Torn? {
        return Failure(Failed.Failed);
      }
      return Success(Some(receipt.value.receipt));
    }

    // --- the commands ------------------------------------------------------

    /** A whole receipt whose record can be verified and seen to go. */
    ghost predicate Verifiable()
      reads this, daemon
    {
      && receipt.Some? && receipt.value.Whole?
      && Removable(profile, receipt.value.receipt, daemon.containers, daemon.networks)
    }

    /** And nothing else has one of the fixed names. */
    ghost predicate Recoverable()
      reads this, daemon
    {
      && Verifiable()
      && OnlyHolders(receipt.value.receipt, daemon.containers, daemon.networks)
    }

    ghost predicate OwnOnly()
      reads this, daemon
    {
      AllOwn(profile, daemon.containers, daemon.networks)
    }

    /** Neither receipt nor credential, and nothing with a fixed name. */
    ghost predicate NothingLeft()
      reads this, daemon
    {
      && receipt == None && !credential
      && (forall service :: service in SERVICES ==> !ContainerListed(daemon.containers, ContainerName(service)))
      && !NetworkListed(daemon.networks, NETWORK_NAME)
    }

    /** What a rollback can start from: a record that can be recovered, or none and nothing foreign. */
    ghost predicate Retriable()
      reads this, daemon
    {
      if receipt.None? then OwnOnly() else Recoverable()
    }

    /** `rollback_activation`: the receipt and the credential go only when removal is verified. */
    method Rollback() returns (verified: bool)
      requires Valid()
      modifies this, daemon
      ensures Valid() && old(history) <= history
      ensures OnlyOwnedRemoved(profile, old(daemon.containers), daemon.containers, old(daemon.networks),
                               daemon.networks)
      ensures verified ==> NothingLeft()
      ensures receipt == old(receipt) || (receipt == None && old(receipt) != Some(Torn))
      ensures old(Retriable()) && !verified ==> Retriable()
      ensures old(NothingLeft()) ==> NothingLeft()
      ensures reliable && daemon.reliable && old(Retriable()) ==> verified
    {
      var read := ReadReceipt();
      if read.Failure? {
        return false;
      }
      var removed;
      if read.value.Some? {
        removed := daemon.RemoveRecorded(profile, read.value.value);
      } else {
        removed := daemon.RemoveOwnedByName(profile);
      }
      if read.value.Some? && old(Recoverable()) {
        StillRemovable(profile, read.value.value, old(daemon.containers), daemon.containers, old(daemon.networks),
                       daemon.networks);
      } else if read.value.None? && old(OwnOnly()) {
        StillOwn(profile, old(daemon.containers), daemon.containers, old(daemon.networks), daemon.networks);
      }
      if removed.Failure? {
        return false;
      }
      if old(Recoverable()) {
        NothingRemains(read.value.value, old(daemon.containers), daemon.containers, old(daemon.networks),
                       daemon.networks);
      }
      if read.value.None? && old(OwnOnly()) {
        OwnRemoved(profile, old(daemon.containers), daemon.containers, old(daemon.networks), daemon.networks);
      }
      var left := daemon.RemainingOwned(read.value);
      if left != Success(false) {
        return false;
      }
      var gone := DeleteCredential();
      if !gone {
        return false;
      }
      verified := DeleteReceipt();
    }

    /** `abandon`: a rollback that is itself interrupted is tried once more. */
    method Abandon() returns (verified: bool)
      requires Valid()
      modifies this, daemon
      ensures Valid() && old(history) <= history
      ensures OnlyOwnedRemoved(profile, old(daemon.containers), daemon.containers, old(daemon.networks),
                               daemon.networks)
      ensures verified ==> NothingLeft()
      ensures receipt == old(receipt) || (receipt == None && old(receipt) != Some(Torn))
      ensures old(Retriable()) ==> Retriable() || NothingLeft()
      ensures reliable && daemon.reliable && old(Retriable()) ==> verified
    {
      verified := Rollback();
      var interrupted: bool := *;
      if interrupted && !reliable {
        ghost var containers, networks := daemon.containers, daemon.networks;
        verified := Rollback();
        RemovedTwice(profile, old(daemon.containers), containers, daemon.containers, old(daemon.networks), networks,
                     daemon.networks);
      }
    }

    /** `docker compose up`: whatever it starts is new; what was there stays as it was. */
    method ComposeUp(start: Start) returns (ok: bool)
      modifies daemon
      ensures daemon.containers == start.containers + old(daemon.containers)
      ensures daemon.networks == start.networks + old(daemon.networks)
      ensures ok == start.up
    {
      daemon.containers := start.containers + daemon.containers;
      daemon.networks := start.networks + daemon.networks;
      ok := start.up;
    }

    /** All of the fixed names are held, and by the profile's own resources. */
    ghost predicate OwnHeld()
      reads this, daemon
    {
      OwnOnly() && AllHeld(daemon.containers, daemon.networks)
    }

    /** The container with a service's fixed name, if it is the profile's own. */
    method FindOwned(service: Service) returns (r: Option<Id>)
      requires service in SERVICES
      ensures r.Some? ==>
        r.value in daemon.containers && OwnsContainer(profile, service, r.value, daemon.containers[r.value])
      ensures daemon.reliable && OwnHeld() ==> r.Some?
    {
      FixedNames();
      var document := daemon.InspectContainer(ContainerName(service));
      if document.Failure? || document.value.None?
         || EvaluateOwnedContainer(profile, service, document.value.value,
                                   daemon.containers[document.value.value]) != [] {
        return None;
      }
      r := document.value;
    }

    /** Looks up what was started by name; only the profile's own resources are recorded. */
    method Observe(fits: bool) returns (r: Option<Receipt>)
      ensures r.Some? ==> fits && Verifies(r.value)
      ensures r.Some? ==> AllHeld(daemon.containers, daemon.networks)
      ensures daemon.reliable && fits && OwnHeld() ==> r.Some?
    {
      var ids: seq<Id> := [];
      for i := 0 to |SERVICES|
        invariant |ids| == i
        invariant forall k :: 0 <= k < i ==>
          ids[k] in daemon.containers && OwnsContainer(profile, SERVICES[k], ids[k], daemon.containers[ids[k]])
      {
        var found := FindOwned(SERVICES[i]);
        if found.None? {
          return None;
        }
        ids := ids + [found.value];
      }
      FixedNames();
      var network := daemon.InspectNetwork(NETWORK_NAME);
      if network.Failure? || network.value.None? || !fits
         || EvaluateOwnedNetwork(profile, network.value.value, daemon.networks[network.value.value]) != [] {
        return None;
      }
      var recorded := map[SERVICES[0] := ids[0], SERVICES[1] := ids[1], SERVICES[2] := ids[2]];
      return Some(Receipt(service => if service in recorded then recorded[service] else "", network.value.value));
    }

    /** What was recorded after a start can be rolled back. */
    lemma {:induction false} OwnIsRecoverable(recorded: Receipt)
      requires receipt == Some(Whole(recorded)) && Verifies(recorded)
      requires OwnOnly()
      ensures Recoverable()
    {
      FixedNames();
      forall id, service |
        service in SERVICES && id in daemon.containers && daemon.containers[id].name == ContainerName(service)
        ensures IsRecorded(recorded, id)
      {
        assert OwnsContainer(profile, service, recorded.containers(service),
                             daemon.containers[recorded.containers(service)]);
      }
    }

    /** Everything recorded exists and is the profile's own. */
    ghost predicate Verifies(recorded: Receipt)
      reads this, daemon
    {
      && (forall service :: service in SERVICES ==>
        && recorded.containers(service) in daemon.containers
        && OwnsContainer(profile, service, recorded.containers(service),
                         daemon.containers[recorded.containers(service)]))
      && recorded.network in daemon.networks
      && OwnsNetwork(profile, recorded.network, daemon.networks[recorded.network])
    }

    /** Nothing that is not the profile's own was changed or removed. */
    ghost predicate ForeignKept(before: Containers, nets: Networks)
      reads this, daemon
    {
      && (forall id :: id in before && !Owned(profile, id, before[id]) ==>
        id in daemon.containers && daemon.containers[id] == before[id])
      && (forall id :: id in nets && !OwnsNetwork(profile, id, nets[id]) ==>
        id in daemon.networks && daemon.networks[id] == nets[id])
    }

    /** `start_and_bootstrap`: true only when it ran to its end; every other way out is abandoned. */
    method StartAndBootstrap(start: Start) returns (ok: bool)
      requires Valid()
      modifies this, daemon
      ensures Valid() && old(history) <= history
      ensures daemon.containers == start.containers + old(daemon.containers)
      ensures daemon.networks == start.networks + old(daemon.networks)
      ensures ok ==> receipt.Some? && receipt.value.Whole? && Verifies(receipt.value.receipt)
      ensures old(receipt).Some? ==> receipt == old(receipt)
      ensures old(receipt).None? && OwnOnly() ==> receipt == Some(Torn) || Retriable()
      ensures reliable && daemon.reliable && old(receipt).None? && OwnOnly() ==>
        && (ok <==> Completes(start, daemon.containers, daemon.networks)) && receipt != Some(Torn)
    {
      var up := ComposeUp(start);
      if !up {
        return false;
      }
      var recorded := Observe(start.fits);
      if recorded.None? {
        return false;
      }
      var written := WriteReceipt(recorded.value);
      if receipt == Some(Whole(recorded.value)) && OwnOnly() {
        OwnIsRecoverable(recorded.value);
      }
      if !written {
        return false;
      }
      // The published port, the wait, the bootstrap and the readiness checks touch neither the daemon's
      // resources nor these files; any of them may fail.
      ok := start.bootstraps;
    }

    /** Unless the receipt was torn, what could not be rolled back can be later. */
    ghost predicate StaysRetriable(containers: Containers, networks: Networks)
      reads this, daemon
    {
      AllOwn(profile, containers, networks) ==> receipt == Some(Torn) || Retriable() || NothingLeft()
    }

    /** How an activation ends where nothing but the start can fail. */
    ghost predicate StartEnds(start: Start, containers: Containers, networks: Networks, r: Ending)
      reads this
    {
      AllOwn(profile, containers, networks) ==>
        r == if Completes(start, containers, networks) then Activated else Abandoned(true)
    }

    /** `cmd_activate`. Where no call of its own fails and everything under the fixed names is the profile's own, it
        activates exactly when the start completes, and otherwise leaves nothing behind. */
    method Activate(refused: bool, start: Start) returns (r: Ending)
      requires Valid()
      modifies this, daemon
      ensures Valid() && old(history) <= history
      ensures refused || old(receipt).Some? || old(credential) ==> r == Refused && credential == old(credential)
      ensures r == Refused ==>
        && receipt == old(receipt) && history == old(history)
        && daemon.containers == old(daemon.containers) && daemon.networks == old(daemon.networks)
      ensures r == Activated ==> receipt.Some? && receipt.value.Whole? && Verifies(receipt.value.receipt)
      ensures r == Abandoned(true) ==> NothingLeft()
      ensures ForeignKept(old(daemon.containers), old(daemon.networks))
      ensures r == Abandoned(false) ==>
        StaysRetriable(start.containers + old(daemon.containers), start.networks + old(daemon.networks))
      ensures reliable && daemon.reliable && !refused && old(receipt).None? && !old(credential) ==>
        StartEnds(start, start.containers + old(daemon.containers), start.networks + old(daemon.networks), r)
    {
      if refused || credential || receipt.Some? {
        return Refused;
      }
      var prepared: bool := *;
      credential := *;
      if !prepared && !reliable {
        return Refused;
      }
      var up := StartAndBootstrap(start);
      if up {
        return Activated;
      }
      var verified := Abandon();
      return Abandoned(verified);
    }

    /** `cmd_reset`: a receipt that cannot be validated stops it before anything is removed. Where nothing
        fails, a record that can be verified is removed, exactly, and its receipt with it. */
    method Reset() returns (ok: bool)
      requires Valid()
      modifies this, daemon
      ensures Valid() && old(history) <= history
      ensures OnlyOwnedRemoved(profile, old(daemon.containers), daemon.containers, old(daemon.networks),
                               daemon.networks)
      ensures old(receipt) == None ==>
        daemon.containers == old(daemon.containers) && daemon.networks == old(daemon.networks)
      ensures old(receipt) == Some(Torn) ==>
        && !ok && receipt == Some(Torn)
        && daemon.containers == old(daemon.containers) && daemon.networks == old(daemon.networks)
      ensures ok ==> receipt == None && !credential
      ensures ok && old(receipt).Some? ==>
        RecordedRemoved(old(receipt).value.receipt, old(daemon.containers), daemon.containers,
        old(daemon.networks), daemon.networks)
      ensures reliable && daemon.reliable && old(receipt).None? ==> ok
      ensures reliable && daemon.reliable && old(Verifiable()) ==> ok
    {
      var locked: bool := *;
      locked := locked || reliable;
      var read: Result<Option<Receipt>, Failed> := Success(None);
      if locked {
        read := ReadReceipt();
      }
      if read.Failure? || (receipt.Some? && (!locked || read.value.None?)) {
        return false;
      }
      if read.value.Some? {
        var wrong: bool := *;
        if wrong && !reliable {
          return false;
        }
        var removed := daemon.RemoveRecorded(profile, read.value.value);
        if removed.Failure? {
          return false;
        }
      }
      var gone := DeleteCredential();
      if !gone {
        return false;
      }
      gone := DeleteReceipt();
      if !gone {
        return false;
      }
      var clean: bool := *;
      ok := clean || reliable;
    }

    /** Any run of commands, with anything at all happening on the daemon in between. */
    method Run(commands: seq<Command>)
      requires Valid()
      modifies this, daemon
      ensures Valid() && old(history) <= history
    {
      for i := 0 to |commands|
        invariant Valid() && old(history) <= history
      {
        match commands[i] {
          case ActivateWith(refused, start) =>
            var ending := Activate(refused, start);
          case ResetNow =>
            var ok := Reset();
        }
        daemon.containers := *;
        daemon.networks := *;
      }
    }
  }
}
