/** When a reconcile that reports Synced at a version left or found the target with that version's data. */
module OperatorSafety {
  import opened Wrappers
  import opened Strings
  import opened TargetSecret
  import opened RuntimeTag
  import opened Operator

  /** The data a spec asks for at a version of its environment. */
  function Rendering(servers: map<Source, Server>, spec: Spec, version: nat, docs: Documents): Option<Strs> {
    if spec.source in servers && version in servers[spec.source].history then
      Render(spec, servers[spec.source].history[version], docs)
    else None
  }

  /** What the claim "Synced at version" means for the target that the reconcile loaded or wrote. */
  predicate IsRight(st: State, docs: Documents)
    requires st.flight.Done?
  {
    Rendering(st.servers, st.flight.r.spec, st.flight.version, docs) == Some(Managed(st.flight.target.secret))
  }

  // ---- invariant ----

  /** A target that the operator would take for its own holds the rendering of its origin. */
  predicate Holds(servers: map<Source, Server>, t: Stored, name: Text, docs: Documents) {
    Claims(t.secret, name) ==>
      && t.origin.Some? && t.origin.value.version == VersionStamp(t.secret)
      && Rendering(servers, t.origin.value.spec, t.origin.value.version, docs) == Some(Managed(t.secret))
  }

  predicate ComesFrom(t: Stored, spec: Spec, name: Text) {
    Claims(t.secret, name) ==> t.origin.Some? && t.origin.value.spec == spec
  }

  predicate TargetMatches(targets: map<Text, Stored>, spec: Spec, name: Text) {
    spec.target in targets ==> ComesFrom(targets[spec.target], spec, name)
  }

  predicate ServersOk(servers: map<Source, Server>) { forall source | source in servers :: ServerOk(servers[source]) }

  predicate TargetsHold(st: State, docs: Documents) {
    forall target | target in st.targets :: Holds(st.servers, st.targets[target], st.name, docs)
  }

  predicate ResourceOk(r: Resource, st: State) {
    && 1 <= r.generation && r.status.observedGeneration <= r.generation && r.rv < st.clock
    && r.status.configVersion <= RuntimeTag.MAX_SAFE_INTEGER && (r.status.configVersion > 0 ==> st.trusted > 0)
    && st.trusted <= r.generation
  }

  /** The resource in hand is an earlier state of the stored one, and equal to it if the stored one has not changed. */
  predicate SnapshotOk(r: Resource, st: State) {
    && ResourceOk(r, st) && r.generation <= st.resource.generation
    && (r.rv == st.resource.rv ==> r == st.resource)
    && (r.generation == st.resource.generation ==> r.spec == st.resource.spec)
    && (st.trusted == r.generation ==> TargetMatches(st.targets, r.spec, st.name))
  }

  predicate ExistingOk(st: State, r: Resource, existing: Option<Stored>, docs: Documents) {
    existing.Some? ==>
      && OwnedBy(existing.value.secret, st.name) && Holds(st.servers, existing.value, st.name, docs)
      && (st.trusted == r.generation ==> ComesFrom(existing.value, r.spec, st.name))
  }

  predicate ServedOk(st: State, r: Resource, version: nat) {
    && version <= RuntimeTag.MAX_SAFE_INTEGER
    && r.spec.source in st.servers && version in st.servers[r.spec.source].history
  }

  predicate StageOk(st: State, docs: Documents) {
    match st.flight
    case Read(r, existing, known) => ExistingOk(st, r, existing, docs) && known == KnownVersion(r, existing)
    case Fetched(r, existing, version, secrets) =>
      ServedOk(st, r, version) && st.servers[r.spec.source].history[version] == secrets
    case Done(r, version, target, conditional) =>
      && ServedOk(st, r, version)
      && (conditional ==>
            && Claims(target.secret, st.name) && VersionStamp(target.secret) == version
            && ExistingOk(st, r, Some(target), docs)
            && version == r.status.configVersion && r.status.observedGeneration == r.generation)
      && (!conditional ==> IsRight(st, docs) && TargetMatches(st.targets, r.spec, st.name))
    case _ => true
  }

  predicate Inv(st: State, docs: Documents) {
    && ServersOk(st.servers) && TargetsHold(st, docs)
    && SnapshotOk(if st.flight.Idle? then st.resource else st.flight.r, st)
    && ResourceOk(st.resource, st)
    && StageOk(st, docs)
  }

  // ---- the other parties keep it ----

  lemma RenderingStays(servers: map<Source, Server>, servers': map<Source, Server>, docs: Documents)
    requires forall source | source in servers ::
               source in servers'
               && forall v | v in servers[source].history ::
                    v in servers'[source].history && servers'[source].history[v] == servers[source].history[v]
    ensures forall spec, v :: Rendering(servers, spec, v, docs).Some? ==>
                                Rendering(servers', spec, v, docs) == Rendering(servers, spec, v, docs)
  {
    hide Render;
  }

  lemma ServerKeeps(st: State, st': State, source: Source, version: nat, secrets: Strs, docs: Documents)
    requires Inv(st, docs) && MoveServer(st, source, version, secrets) == Some(st')
    ensures Inv(st', docs)
  {
    hide Rendering, Managed, VersionStamp, OwnedBy, KnownVersion, TargetsHold, StageOk;
    assert source in st.servers ==> ServerOk(st.servers[source]);
    RenderingStays(st.servers, st'.servers, docs);
    hide ServerOk;
    TargetsStillHold(st, st', docs);
    StageStays(st, st', docs);
  }

  lemma TargetsStillHold(st: State, st': State, docs: Documents)
    requires TargetsHold(st, docs) && st'.targets == st.targets && st'.name == st.name
    requires forall spec, v :: Rendering(st.servers, spec, v, docs).Some? ==>
                                 Rendering(st'.servers, spec, v, docs) == Rendering(st.servers, spec, v, docs)
    ensures TargetsHold(st', docs)
  {
    hide Rendering, Claims, Managed, VersionStamp;
    forall target | target in st'.targets
      ensures Holds(st'.servers, st'.targets[target], st'.name, docs)
    {
      assert Holds(st.servers, st.targets[target], st.name, docs);
    }
  }

  lemma StageStays(st: State, st': State, docs: Documents)
    requires StageOk(st, docs)
    requires st'.targets == st.targets && st'.name == st.name && st'.flight == st.flight && st'.trusted == st.trusted
    requires forall source | source in st.servers ::
               source in st'.servers
               && forall v | v in st.servers[source].history ::
                    v in st'.servers[source].history && st'.servers[source].history[v] == st.servers[source].history[v]
    requires forall spec, v :: Rendering(st.servers, spec, v, docs).Some? ==>
                                 Rendering(st'.servers, spec, v, docs) == Rendering(st.servers, spec, v, docs)
    ensures StageOk(st', docs)
  {
    hide Rendering, Managed, VersionStamp, OwnedBy, KnownVersion;
  }

  lemma EditKeeps(st: State, spec: Spec, docs: Documents)
    requires Inv(st, docs)
    ensures Inv(Edit(st, spec), docs)
  {
    hide Rendering, Managed, VersionStamp, OwnedBy, KnownVersion, ServerOk, Holds;
  }

  lemma TouchKeeps(st: State, st': State, target: Text, secret: Option<KubeSecret>, docs: Documents)
    requires Inv(st, docs) && TouchTarget(st, target, secret) == Some(st')
    ensures Inv(st', docs)
  {
    hide Rendering, Managed, VersionStamp, OwnedBy, KnownVersion, ServerOk;
    if secret.Some? && target in st.targets {
      assert Holds(st.servers, st.targets[target], st.name, docs);
    }
    assert TargetsHold(st', docs);
    hide Holds;
    var r := if st.flight.Idle? then st.resource else st.flight.r;
    assert TargetMatches(st.targets, r.spec, st.name) ==> TargetMatches(st'.targets, r.spec, st.name);
  }

  // ---- the steps of a reconcile keep it ----

  lemma ReadKeeps(st: State, st': State, docs: Documents)
    requires Inv(st, docs) && Step(st, ReadTarget, docs) == Some(st')
    ensures Inv(st', docs)
  {
    hide Rendering, Managed, VersionStamp, OwnedBy, KnownVersion, ServerOk, Holds;
  }

  lemma FetchKeeps(st: State, st': State, docs: Documents)
    requires Inv(st, docs) && Step(st, Fetch, docs) == Some(st')
    ensures Inv(st', docs)
  {
    hide Rendering, Managed, VersionStamp, OwnedBy, Holds, AnswersNotModified, HeaderFor;
    var r, existing, known := st.flight.r, st.flight.existing, st.flight.known;
    var server := st.servers[r.spec.source];
    assert ServerOk(server);
    NotModifiedIffCurrent(known, server.version);
  }

  lemma WriteKeeps(st: State, st': State, managed: seq<Text>, docs: Documents)
    requires Inv(st, docs) && Step(st, Write(managed), docs) == Some(st')
    ensures Inv(st', docs)
  {
    hide Managed, VersionStamp, OwnedBy, Render, Written, ServerOk, IsListing, ValidDataKey, KnownVersion;
    var f := st.flight;
    var rendered := Render(f.r.spec, f.secrets, docs).value;
    var before := if f.existing == None then None else Some(f.existing.value.secret);
    WrittenIsManaged(st.name, f.r.spec, before, rendered, managed, f.version);
    assert TargetsHold(st', docs);
  }

  lemma ReportKeeps(st: State, st': State, docs: Documents)
    requires Inv(st, docs) && Step(st, Report, docs) == Some(st')
    ensures Inv(st', docs)
  {
    hide Rendering, Managed, VersionStamp, OwnedBy, KnownVersion, ServerOk, Holds;
  }

  lemma ReportFailureKeeps(st: State, st': State, docs: Documents)
    requires Inv(st, docs) && Step(st, ReportFailure, docs) == Some(st')
    ensures Inv(st', docs)
  {
    hide Rendering, Managed, VersionStamp, OwnedBy, KnownVersion, ServerOk, Holds;
  }

  /** Loading, failing and crashing only change where the reconcile is. */
  lemma FlightKeeps(st: State, st': State, event: Event, docs: Documents)
    requires Inv(st, docs) && Step(st, event, docs) == Some(st') && (event.Load? || event.Fail? || event.Crash?)
    ensures Inv(st', docs)
  {
    hide Rendering, Managed, VersionStamp, OwnedBy, KnownVersion, ServerOk, Holds;
  }

  lemma StepKeeps(st: State, st': State, event: Event, docs: Documents)
    requires Inv(st, docs) && Step(st, event, docs) == Some(st')
    ensures Inv(st', docs)
  {
    match event {
      case ServerMoves(source, version, secrets) => ServerKeeps(st, st', source, version, secrets, docs);
      case EditSpec(spec) => EditKeeps(st, spec, docs);
      case Touch(target, secret) => TouchKeeps(st, st', target, secret, docs);
      case ReadTarget => ReadKeeps(st, st', docs);
      case Fetch => FetchKeeps(st, st', docs);
      case Write(managed) => WriteKeeps(st, st', managed, docs);
      case Report => ReportKeeps(st, st', docs);
      case ReportFailure => ReportFailureKeeps(st, st', docs);
      case _ => FlightKeeps(st, st', event, docs);
    }
  }

  lemma {:induction false} EveryRunKeeps(start: State, events: seq<Event>, docs: Documents)
    requires IsInitial(start) && Run(start, events, docs).Some?
    ensures Inv(Run(start, events, docs).value, docs)
  {
    if events == [] {
      hide Managed, VersionStamp, OwnedBy, Rendering;
    } else {
      EveryRunKeeps(start, events[..|events| - 1], docs);
      hide Inv, Step, IsInitial;
      StepKeeps(Run(start, events[..|events| - 1], docs).value, Run(start, events, docs).value,
                events[|events| - 1], docs);
    }
  }
}
