/** The store of data keys as an object, with the loops of InMemoryDataKeyStore. */
module KeyStore {
  import opened Wrappers
  import opened Strings
  import opened KeyRing
  import Queue = ActivationQueue

  class DataKeyStore {
    var rings: Rings

    constructor ()
      ensures rings == map[]
    {
      rings := map[];
    }

    method GetActive(orgId: Text) returns (record: Option<DataKeyRecord>)
      ensures record == ActiveOf(RingOf(rings, orgId))
    {
      var ring, i := RingOf(rings, orgId), 0;
      while i < |ring|
        invariant 0 <= i <= |ring| && ActiveOf(ring) == ActiveOf(ring[i..])
      {
        if ring[i].status == Queue.Active {
          return Some(ring[i]);
        }
        assert ring[i..][1..] == ring[i + 1..];
        i := i + 1;
      }
      return None;
    }

    method GetVersion(orgId: Text, version: nat) returns (record: Option<DataKeyRecord>)
      ensures record == VersionOf(RingOf(rings, orgId), version)
    {
      var ring, i := RingOf(rings, orgId), 0;
      while i < |ring|
        invariant 0 <= i <= |ring| && VersionOf(ring, version) == VersionOf(ring[i..], version)
      {
        if ring[i].version == version {
          return Some(ring[i]);
        }
        assert ring[i..][1..] == ring[i + 1..];
        i := i + 1;
      }
      return None;
    }

    /** Math.max over the versions. */
    method NextVersion(ring: Ring) returns (version: nat)
      ensures version == MaxVersion(ring) + 1
    {
      var highest, i := 0, 0;
      while i < |ring|
        invariant 0 <= i <= |ring| && highest == MaxVersion(ring[..i])
      {
        assert Summary(ring[..i + 1])[..i] == Summary(ring[..i]);
        if highest < ring[i].version {
          highest := ring[i].version;
        }
        i := i + 1;
      }
      assert ring[..|ring|] == ring;
      return highest + 1;
    }

    /** Retires the active records in place, and adds the new one unless its factory fails. */
    method Activate(orgId: Text, m: MasterKey, material: Option<Material>) returns (record: Option<DataKeyRecord>)
      modifies this
      ensures rings == Activation(old(rings), orgId, m, material)
      ensures record.Some? <==> material.Some?
      ensures record.Some? ==>
                RingOf(rings, orgId) == RingOf(rings, orgId)[..|RingOf(old(rings), orgId)|] + [record.value]
    {
      var before := RingOf(rings, orgId);
      var version := NextVersion(before);
      var records, index := before, 0;
      while index < |records|
        invariant 0 <= index <= |records| == |before|
        invariant forall i :: 0 <= i < |records| ==> records[i] == if i < index then RetireAll(before)[i] else before[i]
      {
        if records[index].status == Queue.Active {
          records := records[index := records[index].(status := Queue.Retired)];
        }
        index := index + 1;
      }
      assert records == RetireAll(before);
      if material == None {
        rings := if orgId in rings then rings[orgId := records] else rings;
        return None;
      }
      record := Some(DataKeyRecord(orgId, version, Queue.Active, Wrap(m, orgId, version, material.value)));
      rings := rings[orgId := records + [record.value]];
    }

    method EnsureActive(orgId: Text, m: MasterKey, material: Option<Material>) returns (record: Option<DataKeyRecord>)
      requires RingsOk(rings)
      modifies this
      ensures rings == Apply(old(rings), m, Call.EnsureActive(orgId, material))
      ensures record == ActiveOf(RingOf(rings, orgId))
    {
      record := GetActive(orgId);
      if record == None {
        record := Activate(orgId, m, material);
        AnswersActive(old(rings), m, Call.EnsureActive(orgId, material), record);
      }
    }

    method RotateKey(orgId: Text, m: MasterKey, material: Option<Material>) returns (record: Option<DataKeyRecord>)
      requires RingsOk(rings)
      modifies this
      ensures rings == Apply(old(rings), m, Call.Rotate(orgId, material))
      ensures record == ActiveOf(RingOf(rings, orgId))
      ensures record.Some? <==> material.Some?
      ensures record.Some? ==> record.value.version == |RingOf(old(rings), orgId)| + 1
    {
      record := Activate(orgId, m, material);
      AnswersActive(old(rings), m, Call.Rotate(orgId, material), record);
    }

    /** The answer of an activation is the active record it leaves, or none. */
    lemma AnswersActive(before: Rings, m: MasterKey, call: Call, record: Option<DataKeyRecord>)
      requires RingsOk(before) && rings == Apply(before, m, call) == Activation(before, call.orgId, m, call.material)
      requires call.EnsureActive? ==> ActiveOf(RingOf(before, call.orgId)) == None
      requires record.Some? <==> call.material.Some?
      requires record.Some? ==>
                 RingOf(rings, call.orgId) == RingOf(rings, call.orgId)[..|RingOf(before, call.orgId)|] + [record.value]
      ensures record == ActiveOf(RingOf(rings, call.orgId))
      ensures record.Some? ==> record.value.version == |RingOf(before, call.orgId)| + 1
    {
      ApplyKeeps(before, m, call);
      var ring := RingOf(rings, call.orgId);
      assert RingOk(ring, call.orgId) && RingOk(RingOf(before, call.orgId), call.orgId);
      ActiveOfRing(ring);
      hide ActiveOf;
    }
  }
}
