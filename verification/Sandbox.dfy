/** What the profile owns on the Docker daemon, and removing it (examples/disposable-dogfood/dogfood.py).
    Every call to the daemon may fail; one that answers tells the truth. */
module Sandbox {
  import opened Results
  import opened Text

  type Id = string

  datatype Service = ControlPlane | Console | Keycloak

  const SERVICES := [ControlPlane, Console, Keycloak]

  function ContainerName(service: Service): string {
    match service
    case ControlPlane => "fabric-dogfood-cp"
    case Console => "fabric-dogfood-console"
    case Keycloak => "fabric-dogfood-keycloak"
  }

  const NAMES := {"fabric-dogfood-cp", "fabric-dogfood-console", "fabric-dogfood-keycloak"}

  const NETWORK_NAME := "fabric-dogfood-internal"

  datatype Container = Container(name: string, project: string, image: string, attached: set<Id>)

  datatype Network = Network(name: string, project: string)

  type Containers = map<Id, Container>

  type Networks = map<Id, Network>

  /** `^[0-9a-f]{64}$`. */
  predicate IsFullId(id: Id) {
    |id| == 64 && forall c :: c in id ==> IsDigit(c) || 'a' <= c <= 'f'
  }

  /** The inputs of a command: the profile's project and the locked image of each service. */
  datatype Profile = Profile(project: string, images: Service -> string)

  /** A container is the profile's own only if identifier, name, project and image all are. */
  ghost predicate OwnsContainer(profile: Profile, service: Service, id: Id, c: Container) {
    && IsFullId(id)
    && c.name == ContainerName(service) && c.project == profile.project && c.image == profile.images(service)
  }

  ghost predicate Owned(profile: Profile, id: Id, c: Container) {
    exists service :: service in SERVICES && OwnsContainer(profile, service, id, c)
  }

  ghost predicate OwnsNetwork(profile: Profile, id: Id, n: Network) {
    IsFullId(id) && n.name == NETWORK_NAME && n.project == profile.project
  }

  datatype Mismatch = NoFullId | OtherName | OtherProject | OtherImage

  /** `evaluate_owned_container`: each finding by its own mismatch, and none exactly for what the profile owns. */
  function EvaluateOwnedContainer(profile: Profile, service: Service, id: Id, c: Container): (findings: seq<Mismatch>)
    ensures NoFullId in findings <==> !IsFullId(id)
    ensures OtherName in findings <==> c.name != ContainerName(service)
    ensures OtherProject in findings <==> c.project != profile.project
    ensures OtherImage in findings <==> c.image != profile.images(service)
    ensures findings == [] <==> OwnsContainer(profile, service, id, c)
  {
    (if !IsFullId(id) then [NoFullId] else [])
    + (if c.name != ContainerName(service) then [OtherName] else [])
    + (if c.project != profile.project then [OtherProject] else [])
    + (if c.image != profile.images(service) then [OtherImage] else [])
  }

  /** `evaluate_owned_network`. */
  function EvaluateOwnedNetwork(profile: Profile, id: Id, n: Network): (findings: seq<Mismatch>)
    ensures NoFullId in findings <==> !IsFullId(id)
    ensures OtherName in findings <==> n.name != NETWORK_NAME
    ensures OtherProject in findings <==> n.project != profile.project
    ensures findings == [] <==> OwnsNetwork(profile, id, n)
  {
    (if !IsFullId(id) then [NoFullId] else [])
    + (if n.name != NETWORK_NAME then [OtherName] else [])
    + (if n.project != profile.project then [OtherProject] else [])
  }

  /** What activation recorded. */
  datatype Receipt = Receipt(containers: Service -> Id, network: Id)

  datatype Problem = Unproven | Unverified | CommandFailed | StillListed

  predicate ContainerListed(containers: Containers, reference: string) {
    reference in containers || exists id :: id in containers && containers[id].name == reference
  }

  predicate NetworkListed(networks: Networks, reference: string) {
    reference in networks || exists id :: id in networks && networks[id].name == reference
  }

  /** None of the recorded resources exists. */
  predicate Gone(receipt: Receipt, containers: Containers, networks: Networks) {
    && (forall service :: service in SERVICES ==> receipt.containers(service) !in containers)
    && receipt.network !in networks
  }

  /** The names of the containers attached to a network. */
  function AttachedTo(network: Id, containers: Containers): set<string> {
    set id | id in containers && network in containers[id].attached :: containers[id].name
  }

  /** A recorded resource that exists but does not verify as the profile's own, or a network that something
      else is attached to. */
  ghost predicate Contested(profile: Profile, receipt: Receipt, containers: Containers, networks: Networks) {
    || !(forall service :: service in SERVICES && receipt.containers(service) in containers ==>
           OwnsContainer(profile, service, receipt.containers(service), containers[receipt.containers(service)]))
    || (receipt.network in networks &&
          !(OwnsNetwork(profile, receipt.network, networks[receipt.network])
            && AttachedTo(receipt.network, containers) <= NAMES))
  }

  /** Nothing was added or altered, and only the profile's own resources went away. */
  ghost predicate OnlyOwnedRemoved(profile: Profile, before: Containers, after: Containers, nets: Networks,
                                   nets': Networks)
  {
    && (forall id :: id in after ==> id in before && after[id] == before[id])
    && (forall id :: id in before && id !in after ==> Owned(profile, id, before[id]))
    && (forall id :: id in nets' ==> id in nets && nets'[id] == nets[id])
    && (forall id :: id in nets && id !in nets' ==> OwnsNetwork(profile, id, nets[id]))
  }

  /** Docker's own rule: a name has one holder, and no identifier is one of the profile's fixed names. */
  ghost predicate NamesUnique(containers: Containers, networks: Networks) {
    && (forall a, b :: a in containers && b in containers && containers[a].name == containers[b].name ==> a == b)
    && (forall a, b :: a in networks && b in networks && networks[a].name == networks[b].name ==> a == b)
    && (forall id :: id in containers || id in networks ==> IsFullId(id))
  }

  /** No resource has a recorded identifier for its name. */
  ghost predicate NoneNamed(receipt: Receipt, containers: Containers, networks: Networks) {
    && (forall id, service :: id in containers && service in SERVICES ==>
           containers[id].name != receipt.containers(service))
    && (forall id :: id in networks ==> networks[id].name != receipt.network)
  }

  /** What exists of a receipt's record can be verified and seen to go. */
  ghost predicate Removable(profile: Profile, receipt: Receipt, containers: Containers, networks: Networks) {
    !Contested(profile, receipt, containers, networks) && NoneNamed(receipt, containers, networks)
  }

  predicate IsRecorded(receipt: Receipt, id: Id) {
    exists service :: service in SERVICES && id == receipt.containers(service)
  }

  /** Exactly what was recorded went away. */
  ghost predicate RecordedRemoved(receipt: Receipt, before: Containers, after: Containers, nets: Networks,
                                  nets': Networks)
  {
    && (forall id :: id in after <==> id in before && !IsRecorded(receipt, id))
    && (forall id :: id in nets' <==> id in nets && id != receipt.network)
  }

  /** What is planned for removal is the profile's own. */
  lemma {:induction false} PlannedOwned(profile: Profile, receipt: Receipt, containers: Containers, networks: Networks,
                                        plan: seq<Id>)
    requires !Contested(profile, receipt, containers, networks)
    requires forall id :: id in plan ==> id in containers && IsRecorded(receipt, id)
    ensures forall id :: id in plan ==> Owned(profile, id, containers[id])
  {
  }

  class Daemon {
    var containers: Containers
    var networks: Networks

    // Whether every call succeeds. No command asks; only the choices below do.
    const reliable: bool

    // --- seams: each call may fail -----------------------------------------

    /** `docker_present` for containers. */
    method ContainerPresent(reference: string) returns (r: Result<bool, Problem>)
      ensures r.Success? ==> r.value == ContainerListed(containers, reference)
      ensures reliable ==> r.Success?
    {
      var failure: bool := *;
      r := if failure && !reliable then Failure(Unproven) else Success(ContainerListed(containers, reference));
    }

    /** `docker_present` for networks. */
    method NetworkPresent(reference: string) returns (r: Result<bool, Problem>)
      ensures r.Success? ==> r.value == NetworkListed(networks, reference)
      ensures reliable ==> r.Success?
    {
      var failure: bool := *;
      r := if failure && !reliable then Failure(Unproven) else Success(NetworkListed(networks, reference));
    }

    /** `docker_inspect` of a container: an identifier wins over a name. */
    method InspectContainer(reference: string) returns (r: Result<Option<Id>, Problem>)
      ensures reliable ==> r.Success?
      ensures r == Success(None) ==> !ContainerListed(containers, reference)
      ensures r.Success? && r.value.Some? ==>
        && r.value.value in containers
        && (reference in containers ==> r.value.value == reference)
        && (reference !in containers ==> containers[r.value.value].name == reference)
    {
      var present := ContainerPresent(reference);
      var failure: bool := *;
      if present.Failure? {
        return Failure(present.error);
      } else if !present.value {
        return Success(None);
      } else if failure && !reliable {
        return Failure(Unproven);
      } else if reference in containers {
        return Success(Some(reference));
      }
      var id :| id in containers && containers[id].name == reference;
      return Success(Some(id));
    }

    /** `docker_inspect` of a network. */
    method InspectNetwork(reference: string) returns (r: Result<Option<Id>, Problem>)
      ensures reliable ==> r.Success?
      ensures r == Success(None) ==> !NetworkListed(networks, reference)
      ensures r.Success? && r.value.Some? ==>
        && r.value.value in networks
        && (reference in networks ==> r.value.value == reference)
        && (reference !in networks ==> networks[r.value.value].name == reference)
    {
      var present := NetworkPresent(reference);
      var failure: bool := *;
      if present.Failure? {
        return Failure(present.error);
      } else if !present.value {
        return Success(None);
      } else if failure && !reliable {
        return Failure(Unproven);
      } else if reference in networks {
        return Success(Some(reference));
      }
      var id :| id in networks && networks[id].name == reference;
      return Success(Some(id));
    }

    /** `docker rm --force id`: a failure may come before or after the removal. */
    method RemoveContainer(id: Id) returns (ok: bool)
      modifies this`containers
      ensures containers == old(containers) || containers == old(containers) - {id}
      ensures ok ==> id !in containers
      ensures reliable ==> ok
    {
      var failure: bool := *;
      var removed: bool := *;
      failure := failure && !reliable;
      if !failure || removed {
        containers := containers - {id};
      }
      ok := !failure;
    }

    /** `docker network rm id`. */
    method RemoveNetwork(id: Id) returns (ok: bool)
      modifies this`networks
      ensures networks == old(networks) || networks == old(networks) - {id}
      ensures ok ==> id !in networks
      ensures reliable ==> ok
    {
      var failure: bool := *;
      var removed: bool := *;
      failure := failure && !reliable;
      if !failure || removed {
        networks := networks - {id};
      }
      ok := !failure;
    }

    // --- removal -----------------------------------------------------------

    /** Inspects one recorded container: what to remove, or a problem. */
    method VerifyContainer(profile: Profile, service: Service, recorded: Id) returns (r: Result<seq<Id>, Problem>)
      ensures r.Success? ==> r.value == (if recorded in containers then [recorded] else [])
      ensures r.Success? && recorded in containers ==> OwnsContainer(profile, service, recorded, containers[recorded])
      ensures r == Failure(Unverified) || r == Failure(Unproven) || r.Success?
      ensures reliable ==> r != Failure(Unproven)
      ensures r == Failure(Unverified) ==> ContainerListed(containers, recorded)
      ensures r == Failure(Unverified) && recorded in containers ==>
        !OwnsContainer(profile, service, recorded, containers[recorded])
    {
      var document := InspectContainer(recorded);
      if document.Failure? {
        return Failure(Unproven);
      } else if document.value.None? {
        return Success([]);
      }
      var id := document.value.value;
      if EvaluateOwnedContainer(profile, service, id, containers[id]) != [] || id != recorded {
        return Failure(Unverified);
      }
      return Success([recorded]);
    }

    /** Inspects the recorded network, which no foreign container may be attached to. */
    method VerifyNetwork(profile: Profile, recorded: Id) returns (r: Result<seq<Id>, Problem>)
      ensures r.Success? ==> r.value == (if recorded in networks then [recorded] else [])
      ensures r.Success? && recorded in networks ==> OwnsNetwork(profile, recorded, networks[recorded])
      ensures r.Success? && recorded in networks ==> AttachedTo(recorded, containers) <= NAMES
      ensures r == Failure(Unverified) || r == Failure(Unproven) || r.Success?
      ensures reliable ==> r != Failure(Unproven)
      ensures r == Failure(Unverified) ==> NetworkListed(networks, recorded)
      ensures r == Failure(Unverified) && recorded in networks ==>
        !OwnsNetwork(profile, recorded, networks[recorded]) || !(AttachedTo(recorded, containers) <= NAMES)
    {
      var document := InspectNetwork(recorded);
      if document.Failure? {
        return Failure(Unproven);
      } else if document.value.None? {
        return Success([]);
      }
      var id := document.value.value;
      var foreign := AttachedTo(id, containers) - NAMES;
      if EvaluateOwnedNetwork(profile, id, networks[id]) != [] || id != recorded || foreign != {} {
        return Failure(Unverified);
      }
      return Success([recorded]);
    }

    /** The first part of `remove_recorded`: what exists of the record, once all of it is verified. */
    method PlanRemoval(profile: Profile, receipt: Receipt) returns (r: Result<seq<Id>, Problem>, network: bool)
      ensures r.Success? ==> !Contested(profile, receipt, containers, networks)
      ensures r.Success? ==> forall id :: id in r.value <==> id in containers && IsRecorded(receipt, id)
      ensures r.Success? ==> network == (receipt.network in networks)
      ensures r.Failure? ==> r.error in {Unproven, Unverified}
      ensures reliable && Removable(profile, receipt, containers, networks) ==> r.Success?
    {
      var plan: seq<Id> := [];
      var problems := 0;
      for i := 0 to |SERVICES|
        invariant problems == 0 ==> forall k :: 0 <= k < i && receipt.containers(SERVICES[k]) in containers ==>
          OwnsContainer(profile, SERVICES[k], receipt.containers(SERVICES[k]),
                        containers[receipt.containers(SERVICES[k])])
        invariant problems == 0 ==>
          forall id :: id in plan <==>
            id in containers && exists k :: 0 <= k < i && id == receipt.containers(SERVICES[k])
        invariant reliable && Removable(profile, receipt, containers, networks) ==> problems == 0
      {
        var verified := VerifyContainer(profile, SERVICES[i], receipt.containers(SERVICES[i]));
        if verified == Failure(Unproven) {
          return Failure(Unproven), false;
        } else if verified.Failure? {
          problems := problems + 1;
        } else {
          plan := plan + verified.value;
        }
      }
      var verified := VerifyNetwork(profile, receipt.network);
      if verified == Failure(Unproven) {
        return Failure(Unproven), false;
      } else if verified.Failure? || problems > 0 {
        return Failure(Unverified), false;
      }
      return Success(plan), verified.value != [];
    }

    /** The planned containers, one after another. */
    method RemovePlanned(plan: seq<Id>) returns (ok: bool)
      modifies this`containers
      ensures forall id :: id in containers ==> id in old(containers) && containers[id] == old(containers)[id]
      ensures forall id :: id in old(containers) && id !in containers ==> id in plan
      ensures ok ==> forall id :: id in plan ==> id !in containers
      ensures reliable ==> ok
    {
      for i := 0 to |plan|
        invariant forall id :: id in containers ==> id in old(containers) && containers[id] == old(containers)[id]
        invariant forall id :: id in old(containers) && id !in containers ==> id in plan
        invariant forall k :: 0 <= k < i ==> plan[k] !in containers
      {
        ok := RemoveContainer(plan[i]);
        if !ok {
          return;
        }
      }
      ok := true;
    }

    /** The last part of `remove_recorded`: nothing recorded is listed any more. */
    method ConfirmGone(receipt: Receipt) returns (problem: Option<Problem>)
      ensures problem.None? ==> Gone(receipt, containers, networks)
      ensures problem.Some? ==> problem.value in {Unproven, StillListed}
      ensures reliable && NoneNamed(receipt, containers, networks) && Gone(receipt, containers, networks) ==>
        problem.None?
    {
      var still := 0;
      for i := 0 to |SERVICES|
        invariant still == 0 ==> forall k :: 0 <= k < i ==> receipt.containers(SERVICES[k]) !in containers
        invariant NoneNamed(receipt, containers, networks) && Gone(receipt, containers, networks) ==> still == 0
      {
        var present := ContainerPresent(receipt.containers(SERVICES[i]));
        if present.Failure? {
          return Some(Unproven);
        } else if present.value {
          still := still + 1;
        }
      }
      var present := NetworkPresent(receipt.network);
      if present.Failure? {
        return Some(Unproven);
      } else if present.value || still > 0 {
        return Some(StillListed);
      }
      return None;
    }

    /** `remove_recorded`: everything is verified before anything is removed, and success means that exactly
        the record went away; the network goes only after every recorded container has gone. Where no call
        fails, a record that can be verified is removed. */
    method RemoveRecorded(profile: Profile, receipt: Receipt) returns (r: Result<seq<Id>, Problem>)
      modifies this
      ensures OnlyOwnedRemoved(profile, old(containers), containers, old(networks), networks)
      ensures r.Success? ==> Gone(receipt, containers, networks)
      ensures r.Success? ==> RecordedRemoved(receipt, old(containers), containers, old(networks), networks)
      ensures r == Failure(Unverified) ==> containers == old(containers) && networks == old(networks)
      ensures old(Contested(profile, receipt, containers, networks)) ==>
        r.Failure? && containers == old(containers) && networks == old(networks)
      ensures r.Success? ==> forall id :: id in r.value <==>
        (id in old(containers) && IsRecorded(receipt, id)) || (id in old(networks) && id == receipt.network)
      ensures networks != old(networks) ==> forall id :: id in containers ==> !IsRecorded(receipt, id)
      ensures reliable && old(Removable(profile, receipt, containers, networks)) ==> r.Success?
    {
      var network;
      r, network := PlanRemoval(profile, receipt);
      if r.Failure? {
        return;
      }
      var plan := r.value;
      PlannedOwned(profile, receipt, containers, networks, plan);
      var ok := RemovePlanned(plan);
      if ok && network {
        ok := RemoveNetwork(receipt.network);
      }
      if !ok {
        return Failure(CommandFailed);
      }
      var problem := ConfirmGone(receipt);
      r := if problem.Some? then Failure(problem.value) else Success(plan + if network then [receipt.network] else []);
    }

    /** Removes the container that has `service`'s name, if it is provably the profile's own. */
    method RemoveNamed(profile: Profile, service: Service) returns (r: Result<seq<Id>, Problem>)
      requires service in SERVICES
      modifies this`containers
      ensures OnlyOwnedRemoved(profile, old(containers), containers, networks, networks)
      ensures r.Success? && NamesUnique(old(containers), networks) ==>
        forall id :: id in containers ==> !OwnsContainer(profile, service, id, containers[id])
      ensures r.Success? ==> forall id :: id in r.value <==> id in old(containers) && id !in containers
      ensures reliable ==> r.Success?
    {
      var document := InspectContainer(ContainerName(service));
      if document.Failure? {
        return Failure(document.error);
      } else if document.value.None? {
        return Success([]);
      }
      var id := document.value.value;
      if EvaluateOwnedContainer(profile, service, id, containers[id]) != [] {
        assert !IsFullId(ContainerName(service));
        return Success([]);
      }
      var ok := RemoveContainer(id);
      r := if ok then Success([id]) else Failure(CommandFailed);
    }

    /** `remove_owned_by_name`: after a start that recorded nothing, everything that is provably the
        profile's, and nothing else. */
    method RemoveOwnedByName(profile: Profile) returns (r: Result<seq<Id>, Problem>)
      modifies this
      ensures OnlyOwnedRemoved(profile, old(containers), containers, old(networks), networks)
      ensures forall id :: id in old(networks) && id !in networks ==> AttachedTo(id, containers) == {}
      ensures r.Success? && NamesUnique(old(containers), old(networks)) ==>
        && (forall id :: id in containers ==> !Owned(profile, id, containers[id]))
        && (forall id :: id in networks && OwnsNetwork(profile, id, networks[id]) ==> AttachedTo(id, containers) != {})
      ensures r.Success? ==> forall id :: id in r.value <==>
        (id in old(containers) && id !in containers) || (id in old(networks) && id !in networks)
      ensures reliable ==> r.Success?
    {
      var removed: seq<Id> := [];
      for i := 0 to |SERVICES|
        invariant OnlyOwnedRemoved(profile, old(containers), containers, old(networks), networks)
        invariant networks == old(networks)
        invariant forall id :: id in removed <==> id in old(containers) && id !in containers
        invariant NamesUnique(old(containers), old(networks)) ==>
          forall k, id :: 0 <= k < i && id in containers ==> !OwnsContainer(profile, SERVICES[k], id, containers[id])
        modifies this`containers
      {
        var done := RemoveNamed(profile, SERVICES[i]);
        if done.Failure? {
          return done;
        }
        removed := removed + done.value;
      }
      var document := InspectNetwork(NETWORK_NAME);
      if document.Failure? {
        return Failure(document.error);
      } else if document.value.None? {
        return Success(removed);
      }
      var id := document.value.value;
      assert !IsFullId(NETWORK_NAME);
      if EvaluateOwnedNetwork(profile, id, networks[id]) != [] || AttachedTo(id, containers) != {} {
        return Success(removed);
      }
      var ok := RemoveNetwork(id);
      r := if ok then Success(removed + [id]) else Failure(CommandFailed);
    }

    /** `remaining_owned`: whether anything still exists under the fixed names or the recorded identifiers. */
    method RemainingOwned(receipt: Option<Receipt>) returns (r: Result<bool, Problem>)
      ensures r == Success(false) ==>
        && (forall service :: service in SERVICES ==> !ContainerListed(containers, ContainerName(service)))
        && !NetworkListed(networks, NETWORK_NAME)
        && (receipt.Some? ==> Gone(receipt.value, containers, networks))
      ensures r.Success? ==> (r.value <==> Remains(receipt, containers, networks))
      ensures reliable ==> r.Success?
    {
      var left := false;
      for i := 0 to |SERVICES|
        invariant left <==> exists k :: 0 <= k < i && ServiceRemains(SERVICES[k], receipt, containers)
      {
        var named := ContainerPresent(ContainerName(SERVICES[i]));
        if named.Failure? {
          return Failure(named.error);
        }
        var recorded := Success(false);
        if receipt.Some? {
          recorded := ContainerPresent(receipt.value.containers(SERVICES[i]));
        }
        if recorded.Failure? {
          return Failure(recorded.error);
        }
        left := left || named.value || recorded.value;
      }
      var named := NetworkPresent(NETWORK_NAME);
      if named.Failure? {
        return Failure(named.error);
      }
      var recorded := Success(false);
      if receipt.Some? {
        recorded := NetworkPresent(receipt.value.network);
      }
      if recorded.Failure? {
        return Failure(recorded.error);
      }
      left := left || named.value || recorded.value;
      return Success(left);
    }
  }

  predicate ServiceRemains(service: Service, receipt: Option<Receipt>, containers: Containers) {
    || ContainerListed(containers, ContainerName(service))
    || (receipt.Some? && ContainerListed(containers, receipt.value.containers(service)))
  }

  /** Something is listed under a fixed name or a recorded identifier. */
  predicate Remains(receipt: Option<Receipt>, containers: Containers, networks: Networks) {
    || (exists service :: service in SERVICES && ServiceRemains(service, receipt, containers))
    || NetworkListed(networks, NETWORK_NAME)
    || (receipt.Some? && NetworkListed(networks, receipt.value.network))
  }
}
