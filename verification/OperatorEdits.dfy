/**
  Which edits of a spec are safe for the operator's conditional polls, told from the spec alone: those that ask for the
  same data of the same environment. Every other edit has contents and a run that make a Synced report wrong.
 */
module OperatorEdits {
  import opened Wrappers
  import opened Strings
  import opened RuntimeTag
  import opened TargetSecret
  import opened Operator
  import opened OperatorSafety
  import opened OperatorTheorems

  /** The one data key of a document format. */
  function DocumentKeyOf(spec: Spec): Option<Text> {
    match FormatOf(spec)
    case Dotenv => Some(DocumentKey(spec, Ascii(".env")))
    case Json => Some(DocumentKey(spec, Ascii("config.json")))
    case _ => None
  }

  /** The same source, format and document key; target, kind, policy and metadata may differ. */
  predicate SameMeaning(a: Spec, b: Spec) {
    a.source == b.source && FormatOf(a) == FormatOf(b) && DocumentKeyOf(a) == DocumentKeyOf(b)
  }

  lemma SameMeaningRenders(a: Spec, b: Spec, servers: map<Source, Server>, version: nat, docs: Documents)
    requires SameMeaning(a, b)
    ensures Rendering(servers, a, version, docs) == Rendering(servers, b, version, docs)
  {
  }

  // ---- harmless edits ----

  /** Whatever the operator takes for its own was written for a spec of this meaning. */
  predicate FromLike(t: Stored, spec: Spec, name: Text) {
    Claims(t.secret, name) ==> t.origin.Some? && SameMeaning(t.origin.value.spec, spec)
  }

  predicate TargetsFromLike(targets: map<Text, Stored>, spec: Spec, name: Text) {
    forall target | target in targets :: FromLike(targets[target], spec, name)
  }

  predicate FlightLike(f: Flight, spec: Spec, name: Text) {
    && (!f.Idle? ==> SameMeaning(f.r.spec, spec))
    && (f.Read? || f.Fetched? ==> f.existing.Some? ==> FromLike(f.existing.value, spec, name))
    && (f.Done? ==> FromLike(f.target, spec, name))
  }

  predicate Alike(st: State, spec: Spec) {
    && SameMeaning(st.resource.spec, spec) && TargetsFromLike(st.targets, spec, st.name)
    && FlightLike(st.flight, spec, st.name)
  }

  lemma TouchAlike(st: State, st': State, target: Text, secret: Option<KubeSecret>, spec: Spec)
    requires Alike(st, spec) && TouchTarget(st, target, secret) == Some(st')
    ensures Alike(st', spec)
  {
    hide Managed, VersionStamp, OwnedBy, SameMeaning, FlightLike;
    assert target in st.targets ==> FromLike(st.targets[target], spec, st.name);
  }

  lemma StepAlike(st: State, st': State, event: Event, spec: Spec, docs: Documents)
    requires Alike(st, spec) && Step(st, event, docs) == Some(st')
    requires event.EditSpec? ==> SameMeaning(event.spec, spec)
    ensures Alike(st', spec)
  {
    hide Managed, VersionStamp, OwnedBy, SameMeaning, Render, Written, Harmless, Claims, AnswersNotModified,
      KnownVersion, ValidDataKey, IsListing, TouchTarget;
    if event.Touch? {
      TouchAlike(st, st', event.target, event.secret, spec);
    }
  }

  predicate KeepMeaning(events: seq<Event>, spec: Spec) {
    forall n :: 0 <= n < |events| && events[n].EditSpec? ==> SameMeaning(events[n].spec, spec)
  }

  lemma {:induction false} RunAlike(start: State, events: seq<Event>, docs: Documents)
    requires IsInitial(start) && Run(start, events, docs).Some? && KeepMeaning(events, start.resource.spec)
    ensures Alike(Run(start, events, docs).value, start.resource.spec)
  {
    if events != [] {
      hide Step, IsInitial, Alike, SameMeaning;
      var n := |events| - 1;
      RunAlike(start, events[..n], docs);
      StepAlike(Run(start, events[..n], docs).value, Run(start, events, docs).value, events[n], start.resource.spec,
                docs);
    }
  }

  lemma SameMeaningTwice(a: Spec, b: Spec, c: Spec)
    requires SameMeaning(a, b) && SameMeaning(c, b)
    ensures SameMeaning(a, c)
  {
  }

  /**
    If every edit keeps source, format and document key, every Synced report of every run is right, failed reports
    after edits included.
   */
  lemma EditsThatKeepTheMeaning(start: State, events: seq<Event>, docs: Documents)
    requires IsInitial(start) && Run(start, events, docs).Some? && KeepMeaning(events, start.resource.spec)
    requires Run(start, events, docs).value.flight.Done?
    ensures IsRight(Run(start, events, docs).value, docs)
  {
    hide IsInitial, Run, IsRight, KeepMeaning, SameMeaning, Rendering, TargetsFromLike;
    var st := Run(start, events, docs).value;
    RunAlike(start, events, docs);
    SyncedIsRight(start, events, docs);
    if st.flight.conditional {
      ConditionalIsRightIff(start, events, docs);
      ConditionalClaims(start, events, docs);
      var origin := st.flight.target.origin.value.spec;
      SameMeaningTwice(origin, start.resource.spec, st.flight.r.spec);
      SameMeaningRenders(origin, st.flight.r.spec, st.servers, st.flight.version, docs);
    }
  }

  lemma ConditionalClaims(start: State, events: seq<Event>, docs: Documents)
    requires IsInitial(start) && Run(start, events, docs).Some?
    requires Run(start, events, docs).value.flight.Done? && Run(start, events, docs).value.flight.conditional
    ensures Claims(Run(start, events, docs).value.flight.target.secret, Run(start, events, docs).value.name)
  {
    EveryRunKeeps(start, events, docs);
    hide Run, IsInitial, Claims, Managed, VersionStamp, OwnedBy, KnownVersion, TargetsHold, ServersOk;
  }

  // ---- all other edits ----

  /** The spec renders some environments to data that the cluster accepts. */
  predicate CanSync(spec: Spec) {
    && FormatOf(spec) != UnknownFormat
    && (DocumentKeyOf(spec).Some? ==> ValidDataKey(DocumentKeyOf(spec).value))
  }

  const NO_SECRETS: Strs := map[]
  const ONE_SECRET: Strs := map[Ascii("A") := []]

  /** The two document renderers tell these contents, and each other on no secrets, apart. */
  predicate TellApart(docs: Documents) {
    && docs.dotenv(NO_SECRETS) != docs.dotenv(ONE_SECRET) && docs.json(NO_SECRETS) != docs.json(ONE_SECRET)
    && docs.dotenv(NO_SECRETS) != docs.json(NO_SECRETS)
  }

  function EmptyData(spec: Spec, docs: Documents): Strs {
    match FormatOf(spec)
    case Dotenv => map[DocumentKey(spec, Ascii(".env")) := docs.dotenv(NO_SECRETS)]
    case Json => map[DocumentKey(spec, Ascii("config.json")) := docs.json(NO_SECRETS)]
    case _ => NO_SECRETS
  }

  function EmptyListing(spec: Spec): seq<Text> {
    if DocumentKeyOf(spec).Some? then [DocumentKeyOf(spec).value] else []
  }

  lemma EmptyRenders(spec: Spec, docs: Documents)
    requires CanSync(spec)
    ensures Render(spec, NO_SECRETS, docs) == Some(EmptyData(spec, docs))
    ensures IsListing(EmptyListing(spec), EmptyData(spec, docs).Keys)
    ensures forall key | key in EmptyData(spec, docs) :: ValidDataKey(key)
  {
  }

  lemma OneEntry(key: Text, x: Text, y: Text)
    requires x != y
    ensures map[key := x] != map[key := y]
  {
    assert map[key := x][key] != map[key := y][key];
  }

  lemma EmptyDataDiffers(a: Spec, b: Spec, docs: Documents)
    requires !SameMeaning(a, b) && a.source == b.source && CanSync(a) && TellApart(docs)
    ensures Render(b, NO_SECRETS, docs) != Some(EmptyData(a, docs))
  {
    var data := Render(b, NO_SECRETS, docs);
    if data.Some? {
      assert DocumentKeyOf(b).Some? ==> DocumentKeyOf(b).value in data.value;
      assert DocumentKeyOf(a).Some? ==> DocumentKeyOf(a).value in EmptyData(a, docs);
    }
  }

  /** Contents for the other spec that do not render to the data of the first one without secrets. */
  lemma OtherContents(a: Spec, b: Spec, docs: Documents) returns (secrets: Strs)
    requires !SameMeaning(a, b) && CanSync(a) && TellApart(docs)
    ensures Render(b, secrets, docs) != Some(EmptyData(a, docs))
    ensures a.source == b.source ==> secrets == NO_SECRETS
  {
    OneEntry(DocumentKey(b, Ascii(".env")), docs.dotenv(NO_SECRETS), docs.dotenv(ONE_SECRET));
    OneEntry(DocumentKey(b, Ascii("config.json")), docs.json(NO_SECRETS), docs.json(ONE_SECRET));
    assert Ascii("A") in ONE_SECRET;
    if a.source == b.source {
      EmptyDataDiffers(a, b, docs);
    }
    secrets := if a.source != b.source && Render(b, NO_SECRETS, docs) == Some(EmptyData(a, docs)) then ONE_SECRET
               else NO_SECRETS;
  }

  function Snapshot(secrets: Strs): Server { Server(1, secrets, map[1 := secrets]) }

  /** A fresh resource whose own environment is empty. */
  function Fresh(name: Text, a: Spec, b: Spec, secrets: Strs): State {
    var servers := map[b.source := Snapshot(secrets)];
    State(name, Resource(a, 1, 0, Status(0, 0, false)), map[], servers[a.source := Snapshot(NO_SECRETS)], Idle, 1, 0)
  }

  /** For every other edit that keeps the target, some contents and a failure right after it make a report wrong. */
  lemma AnyOtherEditCanHide(name: Text, a: Spec, b: Spec, docs: Documents)
    returns (start: State, events: seq<Event>, st: State)
    requires a.target == b.target && !SameMeaning(a, b) && CanSync(a) && TellApart(docs)
    ensures IsInitial(start) && start.resource.spec == a && Run(start, events, docs) == Some(st)
    ensures forall n :: 0 <= n < |events| && events[n].EditSpec? ==> events[n].spec == b
    ensures st.flight.Done? && st.resource.spec == b && Step(st, Report, docs).Some? && !IsRight(st, docs)
  {
    hide Render, ValidDataKey, IsListing, Run, Step, IsRight, CanSync, TellApart, EmptyData, SameMeaning;
    var secrets := OtherContents(a, b, docs);
    start := Fresh(name, a, b, secrets);
    EmptyRenders(a, docs);
    events := HidingRun(EmptyListing(a), b);
    st := FailureAfterEditHidesIt(start, a, b, 1, EmptyData(a, docs), EmptyListing(a), docs);
  }
}
