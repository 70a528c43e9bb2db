/** Wrapped data keys and the versioned ring each organization has, with an ideal authenticated cipher. */
module KeyRing {
  import opened Wrappers
  import opened Strings
  import opened AuthenticatedData
  import Queue = ActivationQueue

  const KEY_BYTES := 32

  /** A ciphertext with its tag: genuine, or anything else, which no key opens. */
  datatype Box = Sealed(key: Bytes, nonce: Bytes, aad: Text, plaintext: Bytes) | Forged

  function OpenBox(box: Box, key: Bytes, nonce: Bytes, aad: Text): Option<Bytes> {
    if box.Sealed? && box.key == key && box.nonce == nonce && box.aad == aad then Some(box.plaintext) else None
  }

  datatype WrappedKey = WrappedKey(kekId: Text, nonce: Bytes, box: Box)

  datatype MasterKey = MasterKey(id: Text, key: Bytes)

  /** The bytes that randomBytes gives for a new data key and for the nonce it is wrapped under. */
  datatype Material = Material(dek: Bytes, nonce: Bytes)

  function Wrap(m: MasterKey, orgId: Text, version: nat, material: Material): WrappedKey {
    WrappedKey(m.id, material.nonce, Sealed(m.key, material.nonce, DataKeyAad(orgId, version), material.dek))
  }

  function Unwrap(m: MasterKey, orgId: Text, version: nat, wrapped: WrappedKey): Option<Bytes> {
    if wrapped.kekId != m.id then None
    else
      var dek := OpenBox(wrapped.box, m.key, wrapped.nonce, DataKeyAad(orgId, version));
      if dek.Some? && |dek.value| == KEY_BYTES then dek else None
  }

  /** A wrapped key opens only as the version of the organization that it was made for. */
  lemma UnwrapOfWrap(m: MasterKey, orgId: Text, version: nat, material: Material, orgId': Text, version': nat)
    requires |material.dek| == KEY_BYTES
    ensures Unwrap(m, orgId', version', Wrap(m, orgId, version, material)) ==
            if orgId' == orgId && version' == version then Some(material.dek) else None
  {
    if DataKeyAad(orgId', version') == DataKeyAad(orgId, version) {
      DataKeyAadIsInjective(orgId', version', orgId, version);
    }
  }

  // ---- rings ----

  datatype DataKeyRecord = DataKeyRecord(orgId: Text, version: nat, status: Queue.Status, wrapped: WrappedKey)

  type Ring = seq<DataKeyRecord>
  type Rings = map<Text, Ring>

  function RingOf(rings: Rings, orgId: Text): Ring { if orgId in rings then rings[orgId] else [] }

  function ActiveOf(ring: Ring): Option<DataKeyRecord> {
    if ring == [] then None else if ring[0].status == Queue.Active then Some(ring[0]) else ActiveOf(ring[1..])
  }

  function VersionOf(ring: Ring, version: nat): Option<DataKeyRecord> {
    if ring == [] then None else if ring[0].version == version then Some(ring[0]) else VersionOf(ring[1..], version)
  }

  /** Versions and statuses, as the activation queue sees them. */
  function Summary(ring: Ring): seq<Queue.KeyRecord> {
    seq(|ring|, i requires 0 <= i < |ring| => Queue.KeyRecord(ring[i].version, ring[i].status))
  }

  function MaxVersion(ring: Ring): nat { Queue.MaxVersion(Summary(ring)) }

  function RetireAll(ring: Ring): (r: Ring) {
    seq(|ring|, i requires 0 <= i < |ring| => ring[i].(status := Queue.Retired))
  }

  /** The ring after a new key is activated. */
  function Activated(ring: Ring, orgId: Text, m: MasterKey, material: Material): Ring {
    var version := MaxVersion(ring) + 1;
    RetireAll(ring) + [DataKeyRecord(orgId, version, Queue.Active, Wrap(m, orgId, version, material))]
  }

  /** Activating retires the ring first, so a factory that fails leaves it without an active key. */
  function Activation(rings: Rings, orgId: Text, m: MasterKey, material: Option<Material>): Rings {
    if material.Some? then rings[orgId := Activated(RingOf(rings, orgId), orgId, m, material.value)]
    else if orgId in rings then rings[orgId := RetireAll(rings[orgId])]
    else rings
  }

  /** The key material of an activation, or None if its factory fails. */
  datatype Call =
    | EnsureActive(orgId: Text, material: Option<Material>)
    | Rotate(orgId: Text, material: Option<Material>)

  /** The effect of one activation call. */
  function Apply(rings: Rings, m: MasterKey, call: Call): Rings {
    if call.EnsureActive? && ActiveOf(RingOf(rings, call.orgId)).Some? then rings
    else Activation(rings, call.orgId, m, call.material)
  }

  function Run(rings: Rings, m: MasterKey, calls: seq<Call>): Rings {
    if calls == [] then rings else Apply(Run(rings, m, calls[..|calls| - 1]), m, calls[|calls| - 1])
  }

  // ---- invariant ----

  predicate RingOk(ring: Ring, orgId: Text) {
    forall i :: 0 <= i < |ring| ==>
      ring[i].orgId == orgId && ring[i].version == i + 1 && (ring[i].status == Queue.Active ==> i == |ring| - 1)
  }

  predicate RingsOk(rings: Rings) { forall orgId | orgId in rings :: RingOk(rings[orgId], orgId) }

  /** Records are never dropped and keep all but their status. */
  predicate Extends(ring: Ring, later: Ring) {
    && |ring| <= |later|
    && forall i :: 0 <= i < |ring| ==> later[i].(status := ring[i].status) == ring[i]
  }

  predicate AllExtend(rings: Rings, later: Rings) {
    forall orgId | orgId in rings :: orgId in later && Extends(rings[orgId], later[orgId])
  }

  lemma MaxOfRing(ring: Ring)
    requires forall i :: 0 <= i < |ring| ==> ring[i].version == i + 1
    ensures MaxVersion(ring) == |ring|
  {
    Queue.RingFacts(Summary(ring));
  }

  lemma {:induction false} ActiveOfRing(ring: Ring)
    requires forall i :: 0 <= i < |ring| ==> (ring[i].status == Queue.Active ==> i == |ring| - 1)
    ensures ActiveOf(ring) ==
            if ring != [] && ring[|ring| - 1].status == Queue.Active then Some(ring[|ring| - 1]) else None
  {
    if |ring| > 1 {
      ActiveOfRing(ring[1..]);
    }
  }

  lemma {:induction false} VersionOfRing(ring: Ring, offset: nat, version: nat)
    requires forall i :: 0 <= i < |ring| ==> ring[i].version == offset + i + 1
    ensures VersionOf(ring, version) ==
            if offset < version <= offset + |ring| then Some(ring[version - offset - 1]) else None
  {
    if ring != [] {
      VersionOfRing(ring[1..], offset + 1, version);
    }
  }

  /**
    Rings of only versions 1..n with at most the highest active stay so. A call leaves a key active exactly if its
    factory succeeds or it was not needed, and touches no other organization.
   */
  lemma ApplyKeeps(rings: Rings, m: MasterKey, call: Call)
    requires RingsOk(rings)
    ensures RingsOk(Apply(rings, m, call)) && AllExtend(rings, Apply(rings, m, call))
    ensures ActiveOf(RingOf(Apply(rings, m, call), call.orgId)).Some? <==>
              call.material.Some? || (call.EnsureActive? && ActiveOf(RingOf(rings, call.orgId)).Some?)
    ensures call.Rotate? ==>
              |RingOf(Apply(rings, m, call), call.orgId)|
              == |RingOf(rings, call.orgId)| + if call.material.Some? then 1 else 0
    ensures forall orgId :: orgId != call.orgId ==> RingOf(Apply(rings, m, call), orgId) == RingOf(rings, orgId)
  {
    hide RingOk, ActiveOf, Extends, Activated, RetireAll, AllExtend;
    var ring := RingOf(rings, call.orgId);
    AbsentRing(call.orgId);
    assert RingOk(ring, call.orgId);
    hide RingsOk;
    ExtendSelf(rings);
    RetiredRing(ring, call.orgId);
    if call.material.Some? {
      ActivatedRing(ring, call.orgId, m, call.material.value);
      ReplacedRing(rings, call.orgId, Activated(ring, call.orgId, m, call.material.value));
    } else {
      ReplacedRing(rings, call.orgId, RetireAll(ring));
    }
  }

  lemma ReplacedRing(rings: Rings, orgId: Text, ring: Ring)
    requires RingsOk(rings) && RingOk(ring, orgId) && Extends(RingOf(rings, orgId), ring)
    ensures RingsOk(rings[orgId := ring]) && AllExtend(rings, rings[orgId := ring])
  {
    hide RingOk;
  }

  lemma AbsentRing(orgId: Text)
    ensures RingOk([], orgId)
  {
  }

  lemma RetiredRing(ring: Ring, orgId: Text)
    requires RingOk(ring, orgId)
    ensures RingOk(RetireAll(ring), orgId) && Extends(ring, RetireAll(ring)) && |RetireAll(ring)| == |ring|
    ensures ActiveOf(RetireAll(ring)) == None && (ring == [] ==> ActiveOf(ring) == None)
  {
    ActiveOfRing(RetireAll(ring));
  }

  lemma ActivatedRing(ring: Ring, orgId: Text, m: MasterKey, material: Material)
    requires RingOk(ring, orgId)
    ensures var after := Activated(ring, orgId, m, material);
            RingOk(after, orgId) && Extends(ring, after) && |after| == |ring| + 1 && ActiveOf(after).Some?
  {
    MaxOfRing(ring);
    hide MaxVersion, ActiveOf, Wrap;
    ActiveOfRing(Activated(ring, orgId, m, material));
  }

  lemma ExtendSelf(rings: Rings)
    ensures AllExtend(rings, rings)
  {
  }

  /** The same over any run of activation calls of any organizations. */
  lemma {:induction false} RunKeeps(rings: Rings, m: MasterKey, calls: seq<Call>)
    requires RingsOk(rings)
    ensures RingsOk(Run(rings, m, calls)) && AllExtend(rings, Run(rings, m, calls))
  {
    if calls != [] {
      var before := Run(rings, m, calls[..|calls| - 1]);
      RunKeeps(rings, m, calls[..|calls| - 1]);
      hide Apply, RingsOk, RingOk;
      ApplyKeeps(before, m, calls[|calls| - 1]);
      forall orgId | orgId in rings
        ensures orgId in Run(rings, m, calls) && Extends(rings[orgId], Run(rings, m, calls)[orgId])
      {
        assert Extends(rings[orgId], before[orgId]) && Extends(before[orgId], Run(rings, m, calls)[orgId]);
      }
    }
  }

  /** Every stored key opens under the master key as the version it is stored under. */
  predicate Usable(rings: Rings, m: MasterKey) {
    forall orgId | orgId in rings :: forall i :: 0 <= i < |rings[orgId]| ==>
      Unwrap(m, orgId, rings[orgId][i].version, rings[orgId][i].wrapped).Some?
  }

  lemma ApplyKeepsUsable(rings: Rings, m: MasterKey, call: Call)
    requires Usable(rings, m) && (call.material.Some? ==> |call.material.value.dek| == KEY_BYTES)
    ensures Usable(Apply(rings, m, call), m)
  {
    var ring := RingOf(rings, call.orgId);
    var version := MaxVersion(ring) + 1;
    if call.material.Some? {
      UnwrapOfWrap(m, call.orgId, version, call.material.value, call.orgId, version);
    }
    hide Unwrap, Wrap, MaxVersion, ActiveOf;
    var after := RingOf(Apply(rings, m, call), call.orgId);
    forall i | 0 <= i < |after|
      ensures Unwrap(m, call.orgId, after[i].version, after[i].wrapped).Some?
    {
      if i < |ring| {
        assert after[i].wrapped == ring[i].wrapped && after[i].version == ring[i].version;
        assert Unwrap(m, call.orgId, ring[i].version, ring[i].wrapped).Some?;
      }
    }
  }

  /** From an empty store, keys of 32 random bytes stay usable over every run, so encryption never lacks a key. */
  lemma {:induction false} RunKeepsUsable(rings: Rings, m: MasterKey, calls: seq<Call>)
    requires Usable(rings, m)
    requires forall i :: 0 <= i < |calls| && calls[i].material.Some? ==> |calls[i].material.value.dek| == KEY_BYTES
    ensures Usable(Run(rings, m, calls), m)
  {
    hide Apply, Usable;
    if calls != [] {
      RunKeepsUsable(rings, m, calls[..|calls| - 1]);
      ApplyKeepsUsable(Run(rings, m, calls[..|calls| - 1]), m, calls[|calls| - 1]);
    }
  }

  // ---- the ring as the activation queue sees it ----

  function SummaryOf(rings: Rings, orgId: Text): Option<seq<Queue.KeyRecord>> {
    if orgId in rings then Some(Summary(rings[orgId])) else None
  }

  /** One call does to versions and statuses what one call of the promise chain does alone, failing factories included. */
  lemma ApplyIsAlone(rings: Rings, m: MasterKey, call: Call)
    requires RingsOk(rings)
    ensures SummaryOf(Apply(rings, m, call), call.orgId)
         == Queue.Alone(SummaryOf(rings, call.orgId), if call.Rotate? then Queue.Rotate else Queue.EnsureActive,
                        call.material.Some?)
  {
    var ring := RingOf(rings, call.orgId);
    assert RingOk(ring, call.orgId);
    MaxOfRing(ring);
    ActiveOfRing(ring);
    Queue.ActiveIsLast(Summary(ring));
    assert Queue.Listed(SummaryOf(rings, call.orgId)) == Summary(ring);
    hide MaxVersion, ActiveOf, Queue.MaxVersion, Queue.FindActive, Wrap;
    assert Summary(RetireAll(ring)) == Queue.Retire(Summary(ring));
    if call.material.Some? {
      assert Summary(Activated(ring, call.orgId, m, call.material.value))
          == Queue.Retire(Summary(ring)) + [Queue.KeyRecord(|ring| + 1, Queue.Active)];
    }
  }
}
