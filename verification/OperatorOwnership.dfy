/** Two resources never fight over one Secret: the operator leaves a target alone that is annotated as another's. */
module OperatorOwnership {
  import opened Wrappers
  import opened Strings
  import opened RuntimeTag
  import opened TargetSecret
  import opened Operator

  /** Annotated as the target of another resource. */
  predicate IsForeign(secret: KubeSecret, name: Text) {
    && Ascii("himitsu.io/owned-by") in secret.annotations
    && secret.annotations[Ascii("himitsu.io/owned-by")] != []
    && secret.annotations[Ascii("himitsu.io/owned-by")] != name
  }

  /**
    A loaded reconcile goes on from its target exactly if there is none, or its owned-by annotation is absent, empty or
    the resource's own name; what goes on is the target as it is stored.
   */
  lemma ReadTargetIffNotForeign(st: State, docs: Documents)
    requires st.flight.Loaded?
    ensures var target := st.flight.r.spec.target;
            && (Step(st, ReadTarget, docs).Some? <==>
                  target !in st.targets || !IsForeign(st.targets[target].secret, st.name))
            && (Step(st, ReadTarget, docs).Some? ==>
                  && Step(st, ReadTarget, docs).value.flight.Read?
                  && Step(st, ReadTarget, docs).value.flight.existing
                     == if target in st.targets then Some(st.targets[target]) else None)
  {
  }

  /** The steps the operator takes itself, as opposed to servers, editors, others at the cluster, and crashes. */
  predicate IsOwnStep(event: Event) {
    || event.Load? || event.ReadTarget? || event.Fetch? || event.Write? || event.Report? || event.Fail?
    || event.ReportFailure?
  }

  // ---- what a reconcile knows of the target it is about to replace ----

  /** The cluster has given out no resource version that is still to come. */
  predicate VersionsArePast(st: State) { forall target | target in st.targets :: st.targets[target].rv < st.clock }

  predicate ReadsOwn(st: State, existing: Option<Stored>, target: Text) {
    existing.Some? ==>
      && !IsForeign(existing.value.secret, st.name) && existing.value.rv < st.clock
      && (target in st.targets && st.targets[target].rv == existing.value.rv ==> st.targets[target] == existing.value)
  }

  predicate Guarded(st: State) {
    && VersionsArePast(st)
    && (st.flight.Read? || st.flight.Fetched? ==> ReadsOwn(st, st.flight.existing, st.flight.r.spec.target))
  }

  lemma StepGuarded(st: State, st': State, event: Event, docs: Documents)
    requires Guarded(st) && Step(st, event, docs) == Some(st')
    ensures Guarded(st')
  {
    hide IsForeign, Render, Written, Harmless, AnswersNotModified, HeaderFor, KnownVersion, ValidDataKey, IsListing;
    if event.ReadTarget? {
      ReadTargetIffNotForeign(st, docs);
      hide OwnedBy;
    }
    hide OwnedBy;
  }

  lemma {:induction false} RunGuarded(start: State, events: seq<Event>, docs: Documents)
    requires IsInitial(start) && VersionsArePast(start) && Run(start, events, docs).Some?
    ensures Guarded(Run(start, events, docs).value)
  {
    if events != [] {
      hide Step, IsInitial, Guarded;
      var n := |events| - 1;
      RunGuarded(start, events[..n], docs);
      StepGuarded(Run(start, events[..n], docs).value, Run(start, events, docs).value, events[n], docs);
    }
  }

  lemma WriteSparesForeign(st: State, st': State, event: Event, docs: Documents)
    requires Guarded(st) && Step(st, event, docs) == Some(st') && IsOwnStep(event)
    ensures forall target | target in st.targets && IsForeign(st.targets[target].secret, st.name) ::
              target in st'.targets && st'.targets[target] == st.targets[target]
  {
    hide IsForeign, OwnedBy, Render, Written, AnswersNotModified, HeaderFor, KnownVersion, ValidDataKey, IsListing;
  }

  /**
    After any run, no step of the operator changes or deletes a stored target that is annotated as another's, whenever
    the annotation was set: a target that changes hands after it was read makes the write fail.
   */
  lemma ForeignTargetsAreSpared(start: State, events: seq<Event>, st: State, event: Event, st': State, docs: Documents)
    requires IsInitial(start) && VersionsArePast(start) && Run(start, events, docs) == Some(st)
    requires IsOwnStep(event) && Step(st, event, docs) == Some(st')
    ensures forall target | target in st.targets && IsForeign(st.targets[target].secret, st.name) ::
              target in st'.targets && st'.targets[target] == st.targets[target]
  {
    RunGuarded(start, events, docs);
    hide Run, IsInitial, Guarded, Step, IsForeign;
    WriteSparesForeign(st, st', event, docs);
  }

  /** What the operator wrote is annotated as its own, so other resources leave it alone. */
  lemma WrittenIsForeignToOthers(name: Text, other: Text, spec: Spec, existing: Option<KubeSecret>, rendered: Strs,
                                 managed: seq<Text>, version: nat)
    requires name != [] && other != name
    ensures IsForeign(Written(name, spec, existing, rendered, managed, version), other)
    ensures !IsForeign(Written(name, spec, existing, rendered, managed, version), name)
  {
    AnnotationNamesDiffer();
  }
}
