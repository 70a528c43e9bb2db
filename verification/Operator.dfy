/**
  The reconcile protocol of one HimitsuSecret, as a machine over its cluster and API calls. Between any two of them
  the environments change, the spec is edited, others touch targets, and the operator can stop and start afresh.
 */
module Operator {
  import opened Wrappers
  import opened Strings
  import opened TargetSecret
  import opened RuntimeTag

  /** What the API serves for one environment; history holds what each version named so far. */
  datatype Server = Server(version: nat, secrets: Strs, history: map<nat, Strs>)

  datatype Status = Status(configVersion: nat, observedGeneration: nat, synced: bool)

  /** rv is the resource version that updates are checked against. */
  datatype Resource = Resource(spec: Spec, generation: nat, rv: nat, status: Status)

  /** The spec and version whose data a target holds; history that no step reads. */
  datatype Origin = Origin(spec: Spec, version: nat)

  datatype Stored = Stored(secret: KubeSecret, rv: nat, origin: Option<Origin>)

  /** Where a reconcile is, with what it has read so far. */
  datatype Flight =
    | Idle
    | Loaded(r: Resource)
    | Read(r: Resource, existing: Option<Stored>, known: nat)
    | Fetched(r: Resource, existing: Option<Stored>, version: nat, secrets: Strs)
    | Done(r: Resource, version: nat, target: Stored, conditional: bool)
    | Failed(r: Resource)

  /** trusted is the generation of the newest Synced report that followed a full fetch; history as well. */
  datatype State =
    State(name: Text, resource: Resource, targets: map<Text, Stored>, servers: map<Source, Server>,
          flight: Flight, clock: nat, trusted: nat)

  datatype Event =
    | ServerMoves(source: Source, version: nat, secrets: Strs)
    | EditSpec(spec: Spec)
    | Touch(target: Text, secret: Option<KubeSecret>)
    | Load
    | ReadTarget
    | Fetch
    | Write(managed: seq<Text>)
    | Report
    | Fail
    | ReportFailure
    | Crash

  // ---- the other parties ----

  /** The operator would take this Secret for its own, with readable data for the stamped version. */
  predicate Claims(secret: KubeSecret, name: Text) { OwnedBy(secret, name) && VersionStamp(secret) > 0 }

  /** Others may do anything to a target but present data that is not the operator's as the operator's. */
  predicate Harmless(before: Option<KubeSecret>, after: KubeSecret, name: Text) {
    Claims(after, name) ==>
      && before.Some? && Claims(before.value, name)
      && Managed(after) == Managed(before.value) && VersionStamp(after) == VersionStamp(before.value)
  }

  function SecretAt(targets: map<Text, Stored>, target: Text): Option<KubeSecret> {
    if target in targets then Some(targets[target].secret) else None
  }

  function TouchTarget(st: State, target: Text, secret: Option<KubeSecret>): Option<State> {
    if secret == None then Some(st.(targets := st.targets - {target}))
    else if !Harmless(SecretAt(st.targets, target), secret.value, st.name) then None
    else
      var origin := if target in st.targets then st.targets[target].origin else None;
      Some(st.(targets := st.targets[target := Stored(secret.value, st.clock, origin)], clock := st.clock + 1))
  }

  /** A committed change gives a version above all earlier ones; the database trigger is modelled elsewhere. */
  function MoveServer(st: State, source: Source, version: nat, secrets: Strs): Option<State> {
    if source in st.servers && version <= st.servers[source].version then None
    else
      var history := if source in st.servers then st.servers[source].history else map[];
      Some(st.(servers := st.servers[source := Server(version, secrets, history[version := secrets])]))
  }

  function Edit(st: State, spec: Spec): State {
    st.(resource := st.resource.(spec := spec, generation := st.resource.generation + 1, rv := st.clock),
        clock := st.clock + 1)
  }

  // ---- Reconcile ----

  /** The version sent as If-None-Match; 0 forces a full fetch. */
  function KnownVersion(r: Resource, existing: Option<Stored>): nat {
    if existing.Some? && r.status.configVersion > 0 && r.status.observedGeneration == r.generation
       && VersionStamp(existing.value.secret) == r.status.configVersion
    then r.status.configVersion
    else 0
  }

  function DoRead(st: State, r: Resource): Option<State> {
    var existing := if r.spec.target in st.targets then Some(st.targets[r.spec.target]) else None;
    if existing.Some? && !OwnedBy(existing.value.secret, st.name) then None
    else Some(st.(flight := Read(r, existing, KnownVersion(r, existing))))
  }

  /** The answer of the runtime endpoint; versions beyond the safe integers are an error. */
  function DoFetch(st: State, r: Resource, existing: Option<Stored>, known: nat): Option<State> {
    if r.spec.source !in st.servers || st.servers[r.spec.source].version > RuntimeTag.MAX_SAFE_INTEGER then None
    else
      var server := st.servers[r.spec.source];
      if AnswersNotModified(HeaderFor(known), server.version) && existing.Some? then
        Some(st.(flight := Done(r, server.version, existing.value, true)))
      else Some(st.(flight := Fetched(r, existing, server.version, server.secrets)))
  }

  /** A create or a compare-and-set update; the cluster refuses data keys it does not allow. */
  function DoWrite(st: State, f: Flight, managed: seq<Text>, docs: Documents): Option<State>
    requires f.Fetched?
  {
    var rendered, target := Render(f.r.spec, f.secrets, docs), f.r.spec.target;
    if rendered == None || !IsListing(managed, rendered.value.Keys) then None
    else if exists key | key in rendered.value :: !ValidDataKey(key) then None
    else if f.existing.Some? && (target !in st.targets || st.targets[target].rv != f.existing.value.rv) then None
    else if f.existing.None? && target in st.targets then None
    else
      var before := if f.existing == None then None else Some(f.existing.value.secret);
      var secret := Written(st.name, f.r.spec, before, rendered.value, managed, f.version);
      var stored := Stored(secret, st.clock, Some(Origin(f.r.spec, f.version)));
      Some(st.(targets := st.targets[target := stored], clock := st.clock + 1,
               flight := Done(f.r, f.version, stored, false)))
  }

  /** succeed: the status update lands only if the resource has not changed since it was loaded. */
  function DoReport(st: State, f: Flight): Option<State>
    requires f.Done?
  {
    if st.resource.rv != f.r.rv then None
    else
      var status := Status(f.version, f.r.generation, true);
      Some(st.(resource := f.r.(status := status, rv := st.clock), clock := st.clock + 1, flight := Idle,
               trusted := if f.conditional then st.trusted else f.r.generation))
  }

  /** fail: also records the observed generation, but no version. */
  function DoReportFailure(st: State, r: Resource): Option<State> {
    if st.resource.rv != r.rv then None
    else
      var status := r.status.(observedGeneration := r.generation, synced := false);
      Some(st.(resource := r.(status := status, rv := st.clock), clock := st.clock + 1, flight := Idle))
  }

  /** Every call before the report can fail, and so can a write that landed but whose answer was lost. */
  predicate CanFail(f: Flight) { f.Loaded? || f.Read? || f.Fetched? || (f.Done? && !f.conditional) }

  /** One step, if it can happen. Any call can fail, and a conflict ends a reconcile like a crash does. */
  function Step(st: State, event: Event, docs: Documents): Option<State> {
    match event
    case ServerMoves(source, version, secrets) => MoveServer(st, source, version, secrets)
    case EditSpec(spec) => Some(Edit(st, spec))
    case Touch(target, secret) => TouchTarget(st, target, secret)
    case Load => if st.flight.Idle? then Some(st.(flight := Loaded(st.resource))) else None
    case ReadTarget => if st.flight.Loaded? then DoRead(st, st.flight.r) else None
    case Fetch => if st.flight.Read? then DoFetch(st, st.flight.r, st.flight.existing, st.flight.known) else None
    case Write(managed) => if st.flight.Fetched? then DoWrite(st, st.flight, managed, docs) else None
    case Report => if st.flight.Done? then DoReport(st, st.flight) else None
    case Fail => if CanFail(st.flight) then Some(st.(flight := Failed(st.flight.r))) else None
    case ReportFailure => if st.flight.Failed? then DoReportFailure(st, st.flight.r) else None
    case Crash => Some(st.(flight := Idle))
  }

  /** A fresh resource, with no target that could be taken for the operator's own. */
  predicate IsInitial(st: State) {
    && st.resource.generation == 1 && st.resource.status == Status(0, 0, false) && st.resource.rv < st.clock
    && st.flight == Idle && st.trusted == 0
    && (forall target | target in st.targets :: !Claims(st.targets[target].secret, st.name))
    && forall source | source in st.servers :: ServerOk(st.servers[source])
  }

  predicate ServerOk(server: Server) {
    && server.version in server.history && server.history[server.version] == server.secrets
    && forall v | v in server.history :: v <= server.version
  }

  function Run(st: State, events: seq<Event>, docs: Documents): Option<State> {
    if events == [] then Some(st)
    else
      var before := Run(st, events[..|events| - 1], docs);
      if before == None then None else Step(before.value, events[|events| - 1], docs)
  }
}
