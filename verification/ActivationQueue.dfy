/**
  The promise-chain lock of InMemoryDataKeyStore for one organization, as a machine over the steps between which
  other calls can run. A call is numbered by the order in which it entered #locked.
 */
module ActivationQueue {
  import opened Wrappers

  datatype Status = Active | Retired

  datatype KeyRecord = KeyRecord(version: nat, status: Status)

  datatype Kind = EnsureActive | Rotate

  /** Where a call is: before its work, after getActive, awaiting the factory, or settled with a version or an error. */
  datatype Phase =
    | Waiting
    | Looked(existing: Option<nat>)
    | Making(version: nat, shared: bool)
    | Settled(result: Option<nat>)

  /** prev is the promise the call was chained to. */
  datatype Call = Call(kind: Kind, prev: Option<nat>, phase: Phase)

  /** The organization's entries in the two maps, all calls so far, and those whose finally clause has run. */
  datatype State = State(records: Option<seq<KeyRecord>>, lock: Option<nat>, calls: seq<Call>, left: set<nat>)

  const Initial := State(None, None, [], {})

  // ---- the work of a call ----

  function Listed(records: Option<seq<KeyRecord>>): seq<KeyRecord> { if records == None then [] else records.value }

  function Retire(records: seq<KeyRecord>): seq<KeyRecord> {
    seq(|records|, i requires 0 <= i < |records| => records[i].(status := Retired))
  }

  function MaxVersion(records: seq<KeyRecord>): nat {
    if records == [] then 0
    else
      var rest, last := MaxVersion(records[..|records| - 1]), records[|records| - 1].version;
      if rest < last then last else rest
  }

  /** The first active record's version. */
  function FindActive(records: seq<KeyRecord>): Option<nat> {
    if records == [] then None
    else if records[0].status == Active then Some(records[0].version)
    else FindActive(records[1..])
  }

  function SetPhase(st: State, i: nat, phase: Phase): State
    requires i < |st.calls|
  {
    st.(calls := st.calls[i := st.calls[i].(phase := phase)])
  }

  /** #activate up to its await: the version is chosen and active records are retired in the shared array. */
  function StartActivation(st: State, i: nat): State
    requires i < |st.calls|
  {
    SetPhase(st, i, Making(MaxVersion(Listed(st.records)) + 1, st.records.Some?))
    .(records := if st.records == None then None else Some(Retire(st.records.value)))
  }

  /** #activate after its await: the record is pushed to the array it started from, which becomes the stored one. */
  function EndActivation(st: State, i: nat): State
    requires i < |st.calls| && st.calls[i].phase.Making?
  {
    var made := st.calls[i].phase;
    var base := if made.shared then Listed(st.records) else [];
    SetPhase(st, i, Settled(Some(made.version))).(records := Some(base + [KeyRecord(made.version, Active)]))
  }

  datatype Event = Enter(kind: Kind) | Begin(i: nat) | Resume(i: nat) | Finish(i: nat) | Reject(i: nat) | Leave(i: nat)

  /** The work of a call may start once the promise it was chained to has settled, either way. */
  predicate Ready(st: State, i: nat)
    requires i < |st.calls|
  {
    var prev := st.calls[i].prev;
    prev == None || (prev.value < |st.calls| && st.calls[prev.value].phase.Settled?)
  }

  /** One step, if it can happen. */
  function Step(st: State, event: Event): Option<State> {
    match event
    case Enter(kind) =>
      Some(st.(lock := Some(|st.calls|), calls := st.calls + [Call(kind, st.lock, Waiting)]))
    case Begin(i) =>
      if i < |st.calls| && st.calls[i].phase.Waiting? && Ready(st, i) then
        if st.calls[i].kind == EnsureActive then Some(SetPhase(st, i, Looked(FindActive(Listed(st.records)))))
        else Some(StartActivation(st, i))
      else None
    case Resume(i) =>
      if i < |st.calls| && st.calls[i].phase.Looked? then
        if st.calls[i].phase.existing.Some? then Some(SetPhase(st, i, Settled(st.calls[i].phase.existing)))
        else Some(StartActivation(st, i))
      else None
    case Finish(i) =>
      if i < |st.calls| && st.calls[i].phase.Making? then Some(EndActivation(st, i)) else None
    case Reject(i) =>
      if i < |st.calls| && st.calls[i].phase.Making? then Some(SetPhase(st, i, Settled(None))) else None
    case Leave(i) =>
      if i < |st.calls| && st.calls[i].phase.Settled? && i !in st.left then
        Some(st.(lock := if st.lock == Some(i) then None else st.lock, left := st.left + {i}))
      else None
  }

  /** Where a run of steps leads from the empty store, if each of them can happen. */
  function After(events: seq<Event>): Option<State> {
    if events == [] then Some(Initial)
    else
      var before := After(events[..|events| - 1]);
      if before == None then None else Step(before.value, events[|events| - 1])
  }

  predicate Reaches(events: seq<Event>, st: State) { After(events) == Some(st) }

  // ---- the sequential meaning ----

  /** What one call leaves when it runs alone and its factory yields a key (ok) or fails. */
  function Alone(records: Option<seq<KeyRecord>>, kind: Kind, ok: bool): Option<seq<KeyRecord>> {
    if kind == EnsureActive && FindActive(Listed(records)).Some? then records
    else if ok then Some(Retire(Listed(records)) + [KeyRecord(MaxVersion(Listed(records)) + 1, Active)])
    else if records == None then None
    else Some(Retire(records.value))
  }

  /** What one call answers when it runs alone. */
  function ResultAlone(records: Option<seq<KeyRecord>>, kind: Kind, ok: bool): Option<nat> {
    if kind == EnsureActive && FindActive(Listed(records)).Some? then FindActive(Listed(records))
    else if ok then Some(MaxVersion(Listed(records)) + 1)
    else None
  }

  predicate Succeeded(call: Call) { call.phase.Settled? && call.phase.result.Some? }

  /** The calls one after another in call order, each with the outcome its factory had. */
  function InOrder(calls: seq<Call>): Option<seq<KeyRecord>> {
    if calls == [] then None
    else
      var last := calls[|calls| - 1];
      Alone(InOrder(calls[..|calls| - 1]), last.kind, Succeeded(last))
  }

  // ---- the invariant: k calls have settled ----

  /** The settled calls are the first k, and only the next one can have started. */
  predicate Ordered(st: State, k: nat) {
    && k <= |st.calls|
    && (forall i :: 0 <= i < k ==> st.calls[i].phase.Settled?)
    && (k < |st.calls| ==> !st.calls[k].phase.Settled?)
    && (forall i :: k < i < |st.calls| ==> st.calls[i].phase.Waiting?)
  }

  /** The lock is the newest call or absent, and absent only when every call has settled. */
  predicate Chained(st: State, k: nat) {
    && (st.lock == None ==> k == |st.calls|)
    && (st.lock.Some? ==> |st.calls| > 0 && st.lock.value == |st.calls| - 1)
    && forall i :: 0 <= i < |st.calls| ==>
         (st.calls[i].prev == None ==> i <= k) && (st.calls[i].prev.Some? ==> i > 0 && st.calls[i].prev.value == i - 1)
  }

  /** The running call has seen the records that the settled calls leave in call order. */
  predicate Working(st: State, k: nat)
    requires k <= |st.calls|
  {
    var before := InOrder(st.calls[..k]);
    if k == |st.calls| then st.records == before
    else match st.calls[k].phase
      case Waiting => st.records == before
      case Looked(existing) =>
        st.calls[k].kind == EnsureActive && existing == FindActive(Listed(before)) && st.records == before
      case Making(version, shared) =>
        && version == MaxVersion(Listed(before)) + 1
        && shared == before.Some?
        && st.records == (if before == None then None else Some(Retire(before.value)))
        && (st.calls[k].kind == EnsureActive ==> FindActive(Listed(before)) == None)
      case Settled(_) => false
  }

  predicate Answered(calls: seq<Call>, k: nat) {
    && k <= |calls|
    && forall i :: 0 <= i < k ==>
         calls[i].phase == Settled(ResultAlone(InOrder(calls[..i]), calls[i].kind, Succeeded(calls[i])))
  }

  ghost predicate Inv(st: State, k: nat) {
    Ordered(st, k) && Chained(st, k) && Working(st, k) && Answered(st.calls, k)
  }

  lemma InOrderSnoc(calls: seq<Call>, k: nat)
    requires k < |calls|
    ensures InOrder(calls[..k + 1]) == Alone(InOrder(calls[..k]), calls[k].kind, Succeeded(calls[k]))
  {
    assert calls[..k + 1][..k] == calls[..k];
  }

  /** Replacing call k leaves what the earlier calls did. */
  lemma PrefixStays(calls: seq<Call>, calls': seq<Call>, k: nat)
    requires k <= |calls| && k <= |calls'| && calls[..k] == calls'[..k]
    requires Answered(calls, k)
    ensures Answered(calls', k) && InOrder(calls'[..k]) == InOrder(calls[..k])
  {
    forall i | 0 <= i < k
      ensures calls'[i] == calls[i] && calls'[..i] == calls[..i]
    {
      assert calls'[..k][i] == calls[..k][i];
      assert calls'[..i] == calls'[..k][..i] == calls[..k][..i] == calls[..i];
    }
  }

  /** Settling call k extends the sequential history by it. */
  lemma SettleStays(st: State, st': State, k: nat, phase: Phase)
    requires Inv(st, k) && k < |st.calls| && phase.Settled?
    requires st'.calls == st.calls[k := st.calls[k].(phase := phase)] && st'.lock == st.lock
    requires phase.result == ResultAlone(InOrder(st.calls[..k]), st.calls[k].kind, phase.result.Some?)
    requires st'.records == Alone(InOrder(st.calls[..k]), st.calls[k].kind, phase.result.Some?)
    ensures Inv(st', k + 1)
  {
    hide InOrder, Alone, ResultAlone, FindActive, MaxVersion, Retire;
    PrefixStays(st.calls, st'.calls, k);
    InOrderSnoc(st'.calls, k);
  }

  /** Changing only the unsettled call k keeps the rest of the invariant. */
  lemma RunningStays(st: State, st': State, k: nat, phase: Phase)
    requires Inv(st, k) && k < |st.calls| && !phase.Settled?
    requires st'.calls == st.calls[k := st.calls[k].(phase := phase)] && st'.lock == st.lock
    ensures Ordered(st', k) && Chained(st', k) && Answered(st'.calls, k)
    ensures InOrder(st'.calls[..k]) == InOrder(st.calls[..k])
  {
    hide Alone, ResultAlone, InOrder, Working;
    PrefixStays(st.calls, st'.calls, k);
  }

  /** A call that can step is the first unsettled one. */
  lemma OnlyTheNextRuns(st: State, k: nat, i: nat)
    requires Ordered(st, k) && Chained(st, k)
    requires i < |st.calls| && !st.calls[i].phase.Settled? && (st.calls[i].phase.Waiting? ==> Ready(st, i))
    ensures i == k
  {
  }

  lemma EnterKeeps(st: State, k: nat, kind: Kind)
    requires Inv(st, k)
    ensures Inv(Step(st, Enter(kind)).value, k)
  {
    hide InOrder, Alone, ResultAlone, FindActive, MaxVersion, Retire;
    var st' := Step(st, Enter(kind)).value;
    assert st'.calls[..k] == st.calls[..k];
    PrefixStays(st.calls, st'.calls, k);
    if k < |st.calls| { assert st'.calls[k] == st.calls[k]; }
  }

  lemma LeaveKeeps(st: State, k: nat, i: nat)
    requires Inv(st, k) && Step(st, Leave(i)).Some?
    ensures Inv(Step(st, Leave(i)).value, k)
  {
    hide InOrder, Alone, ResultAlone, FindActive, MaxVersion, Retire;
  }

  lemma BeginKeeps(st: State, k: nat, i: nat)
    requires Inv(st, k) && Step(st, Begin(i)).Some?
    ensures Inv(Step(st, Begin(i)).value, k)
  {
    hide Alone, ResultAlone, InOrder, FindActive, MaxVersion, Retire, Answered;
    OnlyTheNextRuns(st, k, i);
    var st' := Step(st, Begin(i)).value;
    RunningStays(st, st', k, st'.calls[k].phase);
  }

  lemma ResumeKeeps(st: State, k: nat, i: nat)
    requires Inv(st, k) && Step(st, Resume(i)).Some?
    ensures exists k': nat :: Inv(Step(st, Resume(i)).value, k')
  {
    hide InOrder, FindActive, MaxVersion, Retire, Answered;
    OnlyTheNextRuns(st, k, i);
    var st' := Step(st, Resume(i)).value;
    if st.calls[i].phase.existing.Some? {
      SettleStays(st, st', k, st'.calls[k].phase);
    } else {
      RunningStays(st, st', k, st'.calls[k].phase);
      assert Inv(st', k);
    }
  }

  lemma FinishKeeps(st: State, k: nat, i: nat)
    requires Inv(st, k) && Step(st, Finish(i)).Some?
    ensures Inv(Step(st, Finish(i)).value, k + 1)
  {
    hide InOrder, FindActive, MaxVersion, Answered;
    OnlyTheNextRuns(st, k, i);
    var st' := Step(st, Finish(i)).value;
    assert Retire([]) == [];
    SettleStays(st, st', k, st'.calls[k].phase);
  }

  lemma RejectKeeps(st: State, k: nat, i: nat)
    requires Inv(st, k) && Step(st, Reject(i)).Some?
    ensures Inv(Step(st, Reject(i)).value, k + 1)
  {
    hide InOrder, FindActive, MaxVersion, Retire, Answered;
    OnlyTheNextRuns(st, k, i);
    var st' := Step(st, Reject(i)).value;
    SettleStays(st, st', k, st'.calls[k].phase);
  }

  lemma StepKeeps(st: State, k: nat, event: Event)
    requires Inv(st, k) && Step(st, event).Some?
    ensures exists k': nat :: Inv(Step(st, event).value, k')
  {
    hide Inv, Step;
    match event {
      case Enter(kind) => EnterKeeps(st, k, kind);
      case Begin(i) => BeginKeeps(st, k, i);
      case Resume(i) => ResumeKeeps(st, k, i);
      case Finish(i) => FinishKeeps(st, k, i);
      case Reject(i) => RejectKeeps(st, k, i);
      case Leave(i) => LeaveKeeps(st, k, i);
    }
  }

  /** The invariant holds after every run, under every interleaving. */
  lemma {:induction false} EveryRunIsOrdered(events: seq<Event>, st: State)
    requires Reaches(events, st)
    ensures exists k: nat :: Inv(st, k)
  {
    if events == [] {
      assert Inv(Initial, 0);
    } else {
      var before := After(events[..|events| - 1]).value;
      EveryRunIsOrdered(events[..|events| - 1], before);
      var k: nat :| Inv(before, k);
      StepKeeps(before, k, events[|events| - 1]);
    }
  }

  // ---- what callers see ----

  /** A call past Waiting has every earlier call settled: activations never overlap and run in call order. */
  lemma NoOverlap(events: seq<Event>, st: State, i: nat, j: nat)
    requires Reaches(events, st) && i < j < |st.calls| && !st.calls[j].phase.Waiting?
    ensures st.calls[i].phase.Settled?
  {
    EveryRunIsOrdered(events, st);
  }

  /** An absent lock entry means that nothing waits and nothing runs. */
  lemma AbsentLockMeansIdle(events: seq<Event>, st: State)
    requires Reaches(events, st) && st.lock == None
    ensures forall i :: 0 <= i < |st.calls| ==> st.calls[i].phase.Settled?
  {
    EveryRunIsOrdered(events, st);
  }

  /** An unsettled call always leaves some call able to move, so the chain never blocks. */
  lemma NeverStuck(events: seq<Event>, st: State, i: nat)
    requires Reaches(events, st) && i < |st.calls| && !st.calls[i].phase.Settled?
    ensures exists j: nat ::
              j <= i && (Step(st, Begin(j)).Some? || Step(st, Resume(j)).Some? || Step(st, Finish(j)).Some?)
  {
    EveryRunIsOrdered(events, st);
    var k: nat :| Inv(st, k);
    assert k <= i && Ready(st, k);
    assert Step(st, Begin(k)).Some? || Step(st, Resume(k)).Some? || Step(st, Finish(k)).Some?;
  }

  /**
    Linearizability: once nothing is unsettled, records and answers are those of the same calls run one at a time
    in call order with the same factory outcomes.
   */
  lemma RunsLikeInOrder(events: seq<Event>, st: State)
    requires Reaches(events, st) && forall i :: 0 <= i < |st.calls| ==> st.calls[i].phase.Settled?
    ensures st.records == InOrder(st.calls) && Answered(st.calls, |st.calls|)
  {
    hide Reaches, InOrder, Alone, ResultAlone, Chained;
    EveryRunIsOrdered(events, st);
    var k: nat :| Inv(st, k);
    assert k == |st.calls|;
    assert st.calls[..k] == st.calls;
  }

  // ---- the key ring ----

  /** Versions are 1..n and only the highest can be active. */
  predicate RingOk(records: seq<KeyRecord>) {
    forall i :: 0 <= i < |records| ==> records[i].version == i + 1 && (records[i].status == Active ==> i == |records| - 1)
  }

  lemma {:induction false} RingFacts(records: seq<KeyRecord>)
    requires forall i :: 0 <= i < |records| ==> records[i].version == i + 1
    ensures MaxVersion(records) == |records|
  {
    if records != [] {
      RingFacts(records[..|records| - 1]);
    }
  }

  lemma {:induction false} ActiveIsLast(records: seq<KeyRecord>)
    requires forall i :: 0 <= i < |records| ==> (records[i].status == Active ==> i == |records| - 1)
    ensures FindActive(records) ==
            if records != [] && records[|records| - 1].status
                  == Active then Some(records[|records| - 1].version) else None
  {
    if |records| > 1 {
      ActiveIsLast(records[1..]);
    }
  }

  lemma AloneRing(records: Option<seq<KeyRecord>>, kind: Kind, ok: bool)
    requires RingOk(Listed(records))
    ensures RingOk(Listed(Alone(records, kind, ok)))
    ensures FindActive(Listed(Alone(records, kind, ok))).Some? <==> ResultAlone(records, kind, ok).Some?
  {
    hide FindActive, MaxVersion;
    RingFacts(Listed(records));
    ActiveIsLast(Listed(records));
    ActiveIsLast(Listed(Alone(records, kind, ok)));
  }

  /** In call order, the ring stays well formed and has an active key exactly when the last call succeeded. */
  lemma {:induction false} InOrderRing(calls: seq<Call>, k: nat)
    requires Answered(calls, |calls|) && k <= |calls|
    ensures RingOk(Listed(InOrder(calls[..k])))
    ensures FindActive(Listed(InOrder(calls[..k]))).Some? <==> k > 0 && Succeeded(calls[k - 1])
  {
    if k > 0 {
      InOrderRing(calls, k - 1);
      assert calls[..k][..k - 1] == calls[..k - 1];
      hide RingOk, Alone, ResultAlone, FindActive;
      AloneRing(InOrder(calls[..k - 1]), calls[k - 1].kind, Succeeded(calls[k - 1]));
    }
  }

  /**
    Whenever nothing is unsettled: the ring is 1..n, only n can be active, and a failed last call leaves no
    active key.
   */
  lemma RingAfterEveryRun(events: seq<Event>, st: State)
    requires Reaches(events, st) && forall i :: 0 <= i < |st.calls| ==> st.calls[i].phase.Settled?
    ensures RingOk(Listed(st.records))
    ensures FindActive(Listed(st.records)).Some? <==> |st.calls| > 0 && Succeeded(st.calls[|st.calls| - 1])
  {
    RunsLikeInOrder(events, st);
    InOrderRing(st.calls, |st.calls|);
    assert st.calls[..|st.calls|] == st.calls;
  }

  /** One more ensureActive on an empty ring or on the single active key. */
  lemma OneEnsure(before: Option<seq<KeyRecord>>, call: Call, made: bool)
    requires Listed(before) == if made then [KeyRecord(1, Active)] else []
    requires call.phase == Settled(ResultAlone(before, EnsureActive, Succeeded(call)))
    ensures Listed(Alone(before, EnsureActive, Succeeded(call))) ==
            if made || Succeeded(call) then [KeyRecord(1, Active)] else []
    ensures Succeeded(call) ==> call.phase.result == Some(1)
    ensures made ==> Succeeded(call)
  {
    assert Retire([]) == [];
  }

  predicate SomeSucceeded(calls: seq<Call>, k: nat)
    requires k <= |calls|
  {
    exists i :: 0 <= i < k && Succeeded(calls[i])
  }

  lemma {:induction false} EnsuresInOrder(calls: seq<Call>, k: nat)
    requires Answered(calls, |calls|) && k <= |calls|
    requires forall i :: 0 <= i < |calls| ==> calls[i].kind == EnsureActive
    ensures Listed(InOrder(calls[..k])) ==
            if SomeSucceeded(calls, k) then [KeyRecord(1, Active)] else []
    ensures forall i :: 0 <= i < k && Succeeded(calls[i]) ==> calls[i].phase.result == Some(1)
  {
    if k == 0 {
      assert calls[..0] == [];
    } else {
      EnsuresInOrder(calls, k - 1);
      InOrderSnoc(calls, k - 1);
      var before, call := InOrder(calls[..k - 1]), calls[k - 1];
      hide InOrder, Alone, ResultAlone, FindActive, Retire, MaxVersion;
      OneEnsure(before, call, SomeSucceeded(calls, k - 1));
      assert SomeSucceeded(calls, k) == (SomeSucceeded(calls, k - 1) || Succeeded(call));
    }
  }

  /**
    Any number of concurrent ensureActive calls on an empty organization create exactly one key as soon as one
    factory succeeds, every successful call answers that key, and with no failing factory every call does.
   */
  lemma EnsureActiveCreatesOneKey(events: seq<Event>, st: State)
    requires Reaches(events, st) && forall i :: 0 <= i < |st.calls| ==> st.calls[i].phase.Settled?
    requires forall i :: 0 <= i < |st.calls| ==> st.calls[i].kind == EnsureActive
    ensures Listed(st.records) ==
            if SomeSucceeded(st.calls, |st.calls|) then [KeyRecord(1, Active)] else []
    ensures forall i :: 0 <= i < |st.calls| && Succeeded(st.calls[i]) ==> st.calls[i].phase.result == Some(1)
  {
    RunsLikeInOrder(events, st);
    EnsuresInOrder(st.calls, |st.calls|);
    assert st.calls[..|st.calls|] == st.calls;
  }

  lemma RunOn(events: seq<Event>, event: Event)
    requires After(events).Some?
    ensures After(events + [event]) == Step(After(events).value, event)
  {
    assert (events + [event])[..|events|] == events;
  }

  /** The first ensureActive on an empty organization, run to its end. */
  lemma AfterOneEnsure() returns (st: State)
    ensures Reaches([Enter(EnsureActive), Begin(0), Resume(0), Finish(0)], st)
    ensures st == State(Some([KeyRecord(1, Active)]), Some(0), [Call(EnsureActive, None, Settled(Some(1)))], {})
  {
    RunOn([], Enter(EnsureActive));
    RunOn([Enter(EnsureActive)], Begin(0));
    RunOn([Enter(EnsureActive)] + [Begin(0)], Resume(0));
    RunOn([Enter(EnsureActive)] + [Begin(0)] + [Resume(0)], Finish(0));
    assert [Enter(EnsureActive)] + [Begin(0)] + [Resume(0)] + [Finish(0)]
        == [Enter(EnsureActive), Begin(0), Resume(0), Finish(0)];
    assert [] + [Enter(EnsureActive)] == [Enter(EnsureActive)];
    st := After([Enter(EnsureActive), Begin(0), Resume(0), Finish(0)]).value;
    hide After;
    var s1 := Step(Initial, Enter(EnsureActive)).value;
    assert s1 == State(None, Some(0), [Call(EnsureActive, None, Waiting)], {});
    var s2 := Step(s1, Begin(0)).value;
    assert s2.calls == [Call(EnsureActive, None, Looked(None))];
    var s3 := Step(s2, Resume(0)).value;
    assert s3.calls == [Call(EnsureActive, None, Making(1, false))];
    assert st == Step(s3, Finish(0)).value;
    assert st.calls == [Call(EnsureActive, None, Settled(Some(1)))];
    assert st.records.value == [KeyRecord(1, Active)];
  }

  /** #activate retires before it awaits: a rotation whose factory fails leaves the organization without an active key. */
  lemma FailedRotationLosesTheActiveKey()
    ensures exists events, st ::
              && Reaches(events, st) && |st.calls| == 2 && Succeeded(st.calls[0]) && st.calls[1].phase == Settled(None)
              && st.records == Some([KeyRecord(1, Retired)])
  {
    var s3 := AfterOneEnsure();
    assert s3.records == Some([KeyRecord(1, Active)]);
    var s4 := Step(s3, Enter(Rotate)).value;
    var s5 := Step(s4, Begin(1)).value;
    var s6 := Step(s5, Reject(1)).value;
    assert Retire([KeyRecord(1, Active)]) == [KeyRecord(1, Retired)];
    var run := [Enter(EnsureActive), Begin(0), Resume(0), Finish(0)];
    RunOn(run, Enter(Rotate));
    RunOn(run + [Enter(Rotate)], Begin(1));
    RunOn(run + [Enter(Rotate)] + [Begin(1)], Reject(1));
    assert Reaches(run + [Enter(Rotate)] + [Begin(1)] + [Reject(1)], s6);
  }
}
