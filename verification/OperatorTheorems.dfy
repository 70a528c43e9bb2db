/** The 304 safety of the operator over whole runs, where it ends, and what one undisturbed reconcile achieves. */
module OperatorTheorems {
  import opened Wrappers
  import opened Strings
  import opened TargetSecret
  import opened RuntimeTag
  import opened Operator
  import opened OperatorSafety

  /** After a full fetch, and whenever the current generation was fully fetched before, a Synced report is right. */
  lemma SyncedIsRight(start: State, events: seq<Event>, docs: Documents)
    requires IsInitial(start) && Run(start, events, docs).Some? && Run(start, events, docs).value.flight.Done?
    ensures var st := Run(start, events, docs).value;
            (st.flight.conditional ==> st.trusted == st.flight.r.generation) ==> IsRight(st, docs)
  {
    EveryRunKeeps(start, events, docs);
    hide Run, IsInitial, Managed, VersionStamp, OwnedBy, Rendering, KnownVersion, TargetsHold, ServersOk;
  }

  /** In general, a report after 304 is right exactly when the target's own origin renders to the same data. */
  lemma ConditionalIsRightIff(start: State, events: seq<Event>, docs: Documents)
    requires IsInitial(start) && Run(start, events, docs).Some?
    requires Run(start, events, docs).value.flight.Done? && Run(start, events, docs).value.flight.conditional
    ensures var st := Run(start, events, docs).value;
            && st.flight.target.origin.Some?
            && (IsRight(st, docs) <==>
                Rendering(st.servers, st.flight.target.origin.value.spec, st.flight.version, docs)
                == Rendering(st.servers, st.flight.r.spec, st.flight.version, docs))
  {
    EveryRunKeeps(start, events, docs);
    hide Run, IsInitial, Managed, VersionStamp, OwnedBy, Rendering, KnownVersion, TargetsHold, ServersOk;
  }

  // ---- runs in which no failed report hides a spec edit ----

  /** A failed report may land while the recorded version belongs to the current generation, or there is none yet. */
  predicate MayReportFailure(st: State) {
    st.resource.status.configVersion > 0 ==> st.trusted == st.resource.generation
  }

  function After(start: State, events: seq<Event>, n: nat, docs: Documents): Option<State>
    requires n <= |events|
  {
    Run(start, events[..n], docs)
  }

  predicate Careful(start: State, events: seq<Event>, docs: Documents) {
    forall n :: 0 <= n < |events| && events[n].ReportFailure? ==>
      After(start, events, n, docs).Some? && MayReportFailure(After(start, events, n, docs).value)
  }

  predicate PollsAreTrusted(r: Resource, trusted: nat) {
    r.status.observedGeneration == r.generation && r.status.configVersion > 0 ==> trusted == r.generation
  }

  predicate Trusting(st: State) {
    PollsAreTrusted(st.resource, st.trusted) && (!st.flight.Idle? ==> PollsAreTrusted(st.flight.r, st.trusted))
  }

  lemma CarefulStep(st: State, st': State, event: Event, docs: Documents)
    requires Inv(st, docs) && Step(st, event, docs) == Some(st') && Trusting(st)
    requires event.ReportFailure? ==> MayReportFailure(st)
    ensures Trusting(st')
  {
    hide Managed, VersionStamp, OwnedBy, Rendering, TargetsHold, ServersOk, Render, Written, Harmless, Claims,
      AnswersNotModified, KnownVersion, ValidDataKey, IsListing;
  }

  lemma {:induction false} CarefulRuns(start: State, events: seq<Event>, docs: Documents)
    requires IsInitial(start) && Run(start, events, docs).Some? && Careful(start, events, docs)
    ensures Trusting(Run(start, events, docs).value)
  {
    if events != [] {
      var n := |events| - 1;
      assert Careful(start, events[..n], docs) by {
        forall i | 0 <= i < n && events[..n][i].ReportFailure?
          ensures After(start, events[..n], i, docs).Some? && MayReportFailure(After(start, events[..n], i, docs).value)
        {
          assert events[..n][..i] == events[..i] && events[i].ReportFailure?;
          assert After(start, events, i, docs).Some?;
        }
      }
      CarefulRuns(start, events[..n], docs);
      EveryRunKeeps(start, events[..n], docs);
      assert events[n].ReportFailure? ==> After(start, events, n, docs).Some?;
      hide Inv, Step, Trusting, IsInitial, MayReportFailure;
      CarefulStep(Run(start, events[..n], docs).value, Run(start, events, docs).value, events[n], docs);
    }
  }

  /**
    304 safety: if no failed report lands between a spec edit and the next full fetch, every Synced report names the
    version whose rendering the target held when the reconcile loaded or wrote it, whatever else happens.
   */
  lemma CarefulRunsAreSafe(start: State, events: seq<Event>, docs: Documents)
    requires IsInitial(start) && Run(start, events, docs).Some? && Careful(start, events, docs)
    requires Run(start, events, docs).value.flight.Done?
    ensures IsRight(Run(start, events, docs).value, docs)
  {
    CarefulRuns(start, events, docs);
    SyncedIsRight(start, events, docs);
    EveryRunKeeps(start, events, docs);
    hide Run, IsInitial, Careful, IsRight, VersionStamp, Holds, TargetsHold, ServersOk, KnownVersion;
  }

  lemma GenerationStays(st: State, st': State, event: Event, docs: Documents)
    requires Inv(st, docs) && Step(st, event, docs) == Some(st') && !event.EditSpec?
    ensures st'.resource.generation == st.resource.generation
  {
    hide Managed, VersionStamp, OwnedBy, Rendering, TargetsHold, ServersOk, Render, Written, Harmless, StageOk,
      AnswersNotModified, KnownVersion, ValidDataKey, IsListing;
  }

  lemma {:induction false} FixedSpec(start: State, events: seq<Event>, docs: Documents)
    requires IsInitial(start) && Run(start, events, docs).Some?
    requires forall n :: 0 <= n < |events| ==> !events[n].EditSpec?
    ensures Run(start, events, docs).value.resource.generation == 1
  {
    if events != [] {
      var before := Run(start, events[..|events| - 1], docs).value;
      FixedSpec(start, events[..|events| - 1], docs);
      EveryRunKeeps(start, events[..|events| - 1], docs);
      hide Step, Inv, IsInitial;
      GenerationStays(before, Run(start, events, docs).value, events[|events| - 1], docs);
    }
  }

  /** With a fixed spec every run is careful, so failures, crashes and deletions alone never make a report wrong. */
  lemma FixedSpecIsSafe(start: State, events: seq<Event>, docs: Documents)
    requires IsInitial(start) && Run(start, events, docs).Some?
    requires forall n :: 0 <= n < |events| ==> !events[n].EditSpec?
    requires Run(start, events, docs).value.flight.Done?
    ensures IsRight(Run(start, events, docs).value, docs)
  {
    forall n | 0 <= n < |events| && events[n].ReportFailure?
      ensures After(start, events, n, docs).Some? && MayReportFailure(After(start, events, n, docs).value)
    {
      PrefixRuns(start, events, n, docs);
      assert forall i :: 0 <= i < n ==> !events[..n][i].EditSpec?;
      FixedSpec(start, events[..n], docs);
      EveryRunKeeps(start, events[..n], docs);
      hide Run, IsInitial, StageOk, TargetsHold, ServersOk;
    }
    hide IsInitial, Run, IsRight;
    CarefulRunsAreSafe(start, events, docs);
  }

  lemma {:induction false} PrefixRuns(start: State, events: seq<Event>, n: nat, docs: Documents)
    requires n <= |events| && Run(start, events, docs).Some?
    ensures Run(start, events[..n], docs).Some?
  {
    if n < |events| {
      hide Step;
      PrefixRuns(start, events[..|events| - 1], n, docs);
      assert events[..|events| - 1][..n] == events[..n];
    } else {
      assert events[..n] == events;
    }
  }

  // ---- the failure: a failed report after an edit ----

  lemma RunOn(start: State, events: seq<Event>, event: Event, docs: Documents)
    requires Run(start, events, docs).Some?
    ensures Run(start, events + [event], docs) == Step(Run(start, events, docs).value, event, docs)
  {
    assert (events + [event])[..|events|] == events;
  }

  /** An environment at a version that renders for a spec to data that the cluster accepts. */
  predicate Serves(st: State, spec: Spec, version: nat, data: Strs, docs: Documents) {
    && spec.source in st.servers && st.servers[spec.source].version == version
    && 1 <= version <= RuntimeTag.MAX_SAFE_INTEGER
    && Render(spec, st.servers[spec.source].secrets, docs) == Some(data)
    && forall key | key in data :: ValidDataKey(key)
  }

  lemma KnownIsSafe(start: State, events: seq<Event>, st: State, docs: Documents)
    requires IsInitial(start) && Run(start, events, docs) == Some(st)
    ensures KnownVersion(st.resource, StoredTarget(st)) <= RuntimeTag.MAX_SAFE_INTEGER
  {
    EveryRunKeeps(start, events, docs);
    hide Run, IsInitial, TargetsHold, ServersOk, StageOk, VersionStamp;
  }

  /** The first half of an undisturbed reconcile that does not know the current version. */
  lemma FullFetch(start: State, events: seq<Event>, st: State, version: nat, data: Strs, docs: Documents)
    returns (st': State)
    requires IsInitial(start) && Run(start, events, docs) == Some(st) && st.flight.Idle?
    requires Serves(st, st.resource.spec, version, data, docs)
    requires OwnedTarget(st) && KnownVersion(st.resource, StoredTarget(st)) != version
    ensures Run(start, events + [Load] + [ReadTarget] + [Fetch], docs) == Some(st')
    ensures var secrets := st.servers[st.resource.spec.source].secrets;
            st' == st.(flight := Fetched(st.resource, StoredTarget(st), version, secrets))
  {
    RunOn(start, events, Load, docs);
    RunOn(start, events + [Load], ReadTarget, docs);
    RunOn(start, events + [Load] + [ReadTarget], Fetch, docs);
    KnownIsSafe(start, events, st, docs);
    NotModifiedIffCurrent(KnownVersion(st.resource, StoredTarget(st)), version);
    hide Run, IsInitial, OwnedBy, KnownVersion, ValidDataKey, Render, AnswersNotModified, HeaderFor;
    st' := Run(start, events + [Load] + [ReadTarget] + [Fetch], docs).value;
  }

  /** The second half: the current rendering is written and its version reported. */
  lemma WriteAndReport(start: State, events: seq<Event>, st: State, version: nat, data: Strs, managed: seq<Text>,
                       docs: Documents) returns (st': State)
    requires IsInitial(start) && Run(start, events, docs) == Some(st)
    requires Serves(st, st.resource.spec, version, data, docs) && IsListing(managed, data.Keys)
    requires st.flight ==
             Fetched(st.resource, StoredTarget(st), version, st.servers[st.resource.spec.source].secrets)
    ensures Run(start, events + [Write(managed)] + [Report], docs) == Some(st')
    ensures st'.resource == st.resource.(status := Status(version, st.resource.generation, true), rv := st'.resource.rv)
    ensures st'.flight.Idle? && st'.servers == st.servers && st'.name == st.name
    ensures st.resource.spec.target in st'.targets
    ensures var secret := st'.targets[st.resource.spec.target].secret;
            Managed(secret) == data && VersionStamp(secret) == version && OwnedBy(secret, st.name)
  {
    hide Managed, VersionStamp, OwnedBy, IsListing, ValidDataKey, Render, Written, Run, IsInitial;
    RunOn(start, events, Write(managed), docs);
    var before := if StoredTarget(st) == None then None else Some(StoredTarget(st).value.secret);
    WrittenIsManaged(st.name, st.resource.spec, before, data, managed, version);
    RunOn(start, events + [Write(managed)], Report, docs);
    st' := Run(start, events + [Write(managed)] + [Report], docs).value;
  }

  /**
    One undisturbed reconcile that does not know the current version: it writes the current rendering and reports
    its version.
   */
  lemma FullSync(start: State, events: seq<Event>, st: State, version: nat, data: Strs, managed: seq<Text>,
                 docs: Documents)
    returns (events': seq<Event>, st': State)
    requires IsInitial(start) && Run(start, events, docs) == Some(st) && st.flight.Idle?
    requires Serves(st, st.resource.spec, version, data, docs) && IsListing(managed, data.Keys)
    requires OwnedTarget(st) && KnownVersion(st.resource, StoredTarget(st)) != version
    ensures events' == events + [Load] + [ReadTarget] + [Fetch] + [Write(managed)] + [Report]
    ensures Run(start, events', docs) == Some(st')
    ensures st'.resource == st.resource.(status := Status(version, st.resource.generation, true), rv := st'.resource.rv)
    ensures st'.flight.Idle? && st'.servers == st.servers && st'.name == st.name
    ensures st.resource.spec.target in st'.targets
    ensures var secret := st'.targets[st.resource.spec.target].secret;
            Managed(secret) == data && VersionStamp(secret) == version && OwnedBy(secret, st.name)
  {
    hide Run, IsInitial, Managed, VersionStamp, OwnedBy, KnownVersion, IsListing, ValidDataKey, Render;
    var fetched := FullFetch(start, events, st, version, data, docs);
    st' := WriteAndReport(start, events + [Load] + [ReadTarget] + [Fetch], fetched, version, data, managed, docs);
    events' := events + [Load] + [ReadTarget] + [Fetch] + [Write(managed)] + [Report];
  }

  function StoredTarget(st: State): Option<Stored> {
    if st.resource.spec.target in st.targets then Some(st.targets[st.resource.spec.target]) else None
  }

  predicate OwnedTarget(st: State) {
    StoredTarget(st).Some? ==> OwnedBy(StoredTarget(st).value.secret, st.name)
  }

  /** One undisturbed reconcile that sends the current version: it loads the target and only reports. */
  lemma ConditionalSync(start: State, events: seq<Event>, st: State, docs: Documents)
    returns (st': State)
    requires IsInitial(start) && Run(start, events, docs) == Some(st) && st.flight.Idle? && OwnedTarget(st)
    requires st.resource.spec.source in st.servers
    requires st.servers[st.resource.spec.source].version == KnownVersion(st.resource, StoredTarget(st)) > 0
    ensures Run(start, events + [Load] + [ReadTarget] + [Fetch], docs) == Some(st')
    ensures st'.flight == Done(st.resource, KnownVersion(st.resource, StoredTarget(st)), StoredTarget(st).value, true)
    ensures st'.servers == st.servers && st'.resource == st.resource && st'.targets == st.targets
    ensures st'.trusted == st.trusted
  {
    var known := KnownVersion(st.resource, StoredTarget(st));
    KnownIsSafe(start, events, st, docs);
    NotModifiedIffCurrent(known, known);
    RunOn(start, events, Load, docs);
    RunOn(start, events + [Load], ReadTarget, docs);
    RunOn(start, events + [Load] + [ReadTarget], Fetch, docs);
    hide Run, IsInitial, OwnedBy, VersionStamp, AnswersNotModified, HeaderFor;
    st' := Run(start, events + [Load] + [ReadTarget] + [Fetch], docs).value;
  }

  /**
    Convergence: from any reachable idle state whose polls are trusted, one undisturbed reconcile ends with the
    resource Synced at the current version and the target holding its rendering, whatever happened to the target.
   */
  lemma OneReconcileConverges(start: State, events: seq<Event>, st: State, version: nat, data: Strs, managed: seq<Text>,
                              docs: Documents) returns (events': seq<Event>, st': State)
    requires IsInitial(start) && Run(start, events, docs) == Some(st) && st.flight.Idle? && Trusting(st)
    requires Serves(st, st.resource.spec, version, data, docs) && IsListing(managed, data.Keys) && OwnedTarget(st)
    ensures events <= events' && Run(start, events', docs) == Some(st') && st'.flight.Idle?
    ensures st'.resource == st.resource.(status := Status(version, st.resource.generation, true), rv := st'.resource.rv)
    ensures st.resource.spec.target in st'.targets
    ensures Managed(st'.targets[st.resource.spec.target].secret) == data
  {
    if KnownVersion(st.resource, StoredTarget(st)) != version {
      hide Run, IsInitial, Managed, VersionStamp, OwnedBy, KnownVersion, IsListing, ValidDataKey, Render, Trusting;
      events', st' := FullSync(start, events, st, version, data, managed, docs);
    } else {
      var loaded := ConditionalSync(start, events, st, docs);
      var before := events + [Load] + [ReadTarget] + [Fetch];
      assert loaded.trusted == st.trusted == st.resource.generation;
      SyncedIsRight(start, before, docs);
      WrongData(start, before, loaded, st.resource.spec, version, data, docs);
      RunOn(start, before, Report, docs);
      hide Run, IsInitial, Managed, VersionStamp, OwnedBy, IsListing, ValidDataKey, Render, Trusting, IsRight;
      events' := before + [Report];
      st' := Run(start, events', docs).value;
    }
  }

  /** An edit and a reconcile that fails right away: the new generation counts as observed, the version stays. */
  lemma EditThenFail(start: State, events: seq<Event>, st: State, spec: Spec, docs: Documents)
    returns (events': seq<Event>, st': State)
    requires Run(start, events, docs) == Some(st) && st.flight.Idle?
    ensures events' == events + [EditSpec(spec)] + [Load] + [Event.Fail] + [ReportFailure]
    ensures Run(start, events', docs) == Some(st')
    ensures var g := st.resource.generation + 1;
            && st'.resource == Resource(spec, g, st'.resource.rv, Status(st.resource.status.configVersion, g, false))
            && st'.flight.Idle? && st'.servers == st.servers && st'.targets == st.targets && st'.name == st.name
  {
    hide Run;
    RunOn(start, events, EditSpec(spec), docs);
    RunOn(start, events + [EditSpec(spec)], Load, docs);
    RunOn(start, events + [EditSpec(spec)] + [Load], Event.Fail, docs);
    RunOn(start, events + [EditSpec(spec)] + [Load] + [Event.Fail], ReportFailure, docs);
    events' := events + [EditSpec(spec)] + [Load] + [Event.Fail] + [ReportFailure];
    st' := Run(start, events', docs).value;
  }

  /** The first reconcile of a fresh resource without a target. */
  lemma FirstSync(start: State, version: nat, data: Strs, managed: seq<Text>, docs: Documents)
    returns (events: seq<Event>, st: State)
    requires IsInitial(start) && start.resource.spec.target !in start.targets
    requires Serves(start, start.resource.spec, version, data, docs) && IsListing(managed, data.Keys)
    ensures events == [] + [Load] + [ReadTarget] + [Fetch] + [Write(managed)] + [Report]
    ensures Run(start, events, docs) == Some(st) && st.flight.Idle? && st.servers == start.servers
    ensures st.name == start.name
    ensures st.resource == start.resource.(status := Status(version, 1, true), rv := st.resource.rv)
    ensures st.resource.generation == 1 && st.resource.spec.target in st.targets
    ensures var secret := st.targets[st.resource.spec.target].secret;
            Managed(secret) == data && VersionStamp(secret) == version && OwnedBy(secret, st.name)
  {
    hide Serves, Managed, VersionStamp, OwnedBy, IsListing, ValidDataKey, Render, Step;
    assert 1 <= version by { ServesPositive(start, start.resource.spec, version, data, docs); }
    assert Run(start, [], docs) == Some(start);
    hide Run;
    events, st := FullSync(start, [], start, version, data, managed, docs);
  }

  lemma ServesPositive(st: State, spec: Spec, version: nat, data: Strs, docs: Documents)
    requires Serves(st, spec, version, data, docs)
    ensures 1 <= version && spec.source in st.servers && st.servers[spec.source].version == version
  {
  }

  /** The other environment stands at the same version, and its rendering is not this data. */
  predicate ServesOther(st: State, spec: Spec, version: nat, data: Strs, docs: Documents) {
    && spec.source in st.servers && st.servers[spec.source].version == version
    && Render(spec, st.servers[spec.source].secrets, docs) != Some(data)
  }

  /** First sync, edit, failure, and a poll up to its report. */
  function HidingRun(managed: seq<Text>, b: Spec): seq<Event> {
    [] + [Load] + [ReadTarget] + [Fetch] + [Write(managed)] + [Report]
    + [EditSpec(b)] + [Load] + [Event.Fail] + [ReportFailure]
    + [Load] + [ReadTarget] + [Fetch]
  }

  /**
    Because a failed reconcile also records the observed generation, a failure right after an edit makes the next poll
    conditional on the version of the old environment. Two environments at the same version are enough: the target of
    one is then reported as Synced for the other.
   */
  lemma FailureAfterEditHidesIt(start: State, a: Spec, b: Spec, version: nat, data: Strs, managed: seq<Text>,
                                docs: Documents) returns (st: State)
    requires IsInitial(start) && start.resource.spec == a && a.target == b.target && a.target !in start.targets
    requires Serves(start, a, version, data, docs) && ServesOther(start, b, version, data, docs)
    requires IsListing(managed, data.Keys)
    ensures Run(start, HidingRun(managed, b), docs) == Some(st) && st.flight.Done? && st.resource.spec == b
    ensures Step(st, Report, docs).Some? && !IsRight(st, docs) && Managed(st.flight.target.secret) == data
  {
    hide Managed, VersionStamp, OwnedBy, IsListing, ValidDataKey, Render, Run, IsInitial, IsRight;
    var synced, s1 := FirstSync(start, version, data, managed, docs);
    var failed, s2 := EditThenFail(start, synced, s1, b, docs);
    assert KnownVersion(s2.resource, StoredTarget(s2)) == version;
    st := ConditionalSync(start, failed, s2, docs);
    OtherData(start, HidingRun(managed, b), st, b, version, data, docs);
  }

  /** A target that manages anything but the environment's rendering is not right for it. */
  lemma WrongData(start: State, events: seq<Event>, st: State, spec: Spec, version: nat, data: Strs, docs: Documents)
    requires IsInitial(start) && Run(start, events, docs) == Some(st) && st.flight.Done?
    requires st.flight.r.spec == spec && st.flight.version == version && Serves(st, spec, version, data, docs)
    ensures IsRight(st, docs) <==> Managed(st.flight.target.secret) == data
  {
    EveryRunKeeps(start, events, docs);
    hide Run, IsInitial, Managed, TargetsHold, Render, StageOk;
    assert ServerOk(st.servers[spec.source]);
  }

  lemma OtherData(start: State, events: seq<Event>, st: State, spec: Spec, version: nat, data: Strs, docs: Documents)
    requires IsInitial(start) && Run(start, events, docs) == Some(st) && st.flight.Done?
    requires st.flight.r.spec == spec && st.flight.version == version && ServesOther(st, spec, version, data, docs)
    requires Managed(st.flight.target.secret) == data
    ensures !IsRight(st, docs)
  {
    EveryRunKeeps(start, events, docs);
    hide Run, IsInitial, Managed, TargetsHold, Render, StageOk;
    assert ServerOk(st.servers[spec.source]);
  }
}
