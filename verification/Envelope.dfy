/** EnvelopeEncryptionService: values sealed under data keys, with a bounded cache of unwrapped key buffers. */
module Envelope {
  import opened Wrappers
  import opened Strings
  import opened AuthenticatedData
  import opened KeyRing
  import opened KeyStore

  const ALGORITHM := "aes-256-gcm"
  const NONCE_BYTES := 12
  const TAG_BYTES := 16

  datatype EncryptedValue =
    EncryptedValue(algorithm: string, keyVersion: nat, nonce: Bytes, tagBytes: nat, box: Box)

  /** FactoryFailed stands for whatever the generation of a new data key fails with. */
  datatype CryptoError = InvalidContext | DecryptionFailed | FactoryFailed

  // ---- what encrypt and decrypt mean, without a cache ----

  function KeyOf(rings: Rings, m: MasterKey, orgId: Text, version: nat): Option<Bytes> {
    var record := VersionOf(RingOf(rings, orgId), version);
    if record == None then None else Unwrap(m, record.value.orgId, record.value.version, record.value.wrapped)
  }

  function Opened(rings: Rings, m: MasterKey, v: EncryptedValue, c: Context): Result<Bytes, CryptoError> {
    if v.algorithm != ALGORITHM || |v.nonce| != NONCE_BYTES || v.tagBytes != TAG_BYTES then Err(DecryptionFailed)
    else
      var key := KeyOf(rings, m, c.orgId, v.keyVersion);
      if key == None then Err(DecryptionFailed)
      else if SecretAad(c) == None then Err(InvalidContext)
      else
        var plaintext := OpenBox(v.box, key.value, v.nonce, SecretAad(c).value);
        if plaintext == None then Err(DecryptionFailed) else Ok(plaintext.value)
  }

  /** v is what encrypt gives for this plaintext and context when the organization's keys are in rings. */
  predicate Produced(rings: Rings, m: MasterKey, v: EncryptedValue, plaintext: Bytes, c: Context) {
    && SecretAad(c).Some?
    && v.algorithm == ALGORITHM && |v.nonce| == NONCE_BYTES && v.tagBytes == TAG_BYTES
    && var key := KeyOf(rings, m, c.orgId, v.keyVersion);
       key.Some? && v.box == Sealed(key.value, v.nonce, SecretAad(c).value, plaintext)
  }

  lemma KeysStay(rings: Rings, later: Rings, m: MasterKey, orgId: Text, version: nat)
    requires RingsOk(rings) && RingsOk(later) && AllExtend(rings, later)
    requires KeyOf(rings, m, orgId, version).Some?
    ensures KeyOf(later, m, orgId, version) == KeyOf(rings, m, orgId, version)
  {
    var ring, ring' := RingOf(rings, orgId), RingOf(later, orgId);
    assert RingOk(ring, orgId) && RingOk(ring', orgId);
    VersionOfRing(ring, 0, version);
    VersionOfRing(ring', 0, version);
    hide VersionOf, Unwrap;
    var i := version - 1;
    assert orgId in rings && Extends(rings[orgId], later[orgId]);
    assert ring'[i].(status := ring[i].status) == ring[i];
  }

  /**
    A value encrypted at any point decrypts, after any later activation calls of any organizations, to its plaintext
    under the same context, and under no other context at all.
   */
  lemma DecryptsForever(rings: Rings, m: MasterKey, calls: seq<Call>, v: EncryptedValue, plaintext: Bytes, c: Context,
                        d: Context)
    requires RingsOk(rings) && Produced(rings, m, v, plaintext, c)
    ensures Opened(Run(rings, m, calls), m, v, d) == Ok(plaintext) <==> d == c
    ensures d != c ==> Opened(Run(rings, m, calls), m, v, d).Err?
  {
    var later := Run(rings, m, calls);
    RunKeeps(rings, m, calls);
    KeysStay(rings, later, m, c.orgId, v.keyVersion);
    hide KeyOf, SecretAad, RingsOk, AllExtend, Run;
    if SecretAad(d).Some? && SecretAad(d) == SecretAad(c) {
      SecretAadIsComplete(c);
      SecretAadIsComplete(d);
      SecretAadIsInjective(c, d);
    }
  }

  lemma SecretAadIsComplete(c: Context)
    ensures SecretAad(c).Some? <==> IsComplete(c)
  {
  }

  /** Anything that is not a sealed value, or that was sealed for another purpose, fails to decrypt. */
  lemma ForgeriesFail(rings: Rings, m: MasterKey, v: EncryptedValue, c: Context, orgId: Text, version: nat)
    requires v.box == Forged || (v.box.Sealed? && v.box.aad == DataKeyAad(orgId, version))
    ensures Opened(rings, m, v, c).Err?
  {
    hide KeyOf, SecretAad, DataKeyAad;
    SecretAadIsComplete(c);
    if IsComplete(c) {
      PurposesAreSeparate(c, orgId, version);
    }
  }

  /** Decryption succeeds for exactly the values that encryption gives for that plaintext and context. */
  lemma OpensIffProduced(rings: Rings, m: MasterKey, v: EncryptedValue, plaintext: Bytes, c: Context)
    ensures Opened(rings, m, v, c) == Ok(plaintext) <==> Produced(rings, m, v, plaintext, c)
  {
    hide KeyOf, SecretAad;
  }

  // ---- the service ----

  /** One entry of the cache map, which keeps insertion order; the key is a buffer on the heap. */
  datatype CacheEntry = CacheEntry(name: Text, key: array<Byte>, expiresAt: int)

  predicate AllZero(key: array<Byte>)
    reads key
  {
    forall i :: 0 <= i < key.Length ==> key[i] == 0
  }

  method Fill(key: array<Byte>)
    modifies key
    ensures AllZero(key)
  {
    var i := 0;
    while i < key.Length
      invariant 0 <= i <= key.Length && forall j :: 0 <= j < i ==> key[j] == 0
    {
      key[i] := 0;
      i := i + 1;
    }
  }

  function Without(entries: seq<CacheEntry>, at: nat): seq<CacheEntry>
    requires at < |entries|
  {
    entries[..at] + entries[at + 1..]
  }

  function IndexOfName(entries: seq<CacheEntry>, name: Text): (i: nat)
    ensures i <= |entries| && (i < |entries| ==> entries[i].name == name)
    ensures forall j :: 0 <= j < i ==> entries[j].name != name
  {
    if entries == [] || entries[0].name == name then 0 else 1 + IndexOfName(entries[1..], name)
  }

  /** The entries that stay when name is loaded anew: an expired one goes first, then the oldest if there is no room. */
  function Dropped(entries: seq<CacheEntry>, name: Text): seq<CacheEntry> {
    var i := IndexOfName(entries, name);
    if i < |entries| then Without(entries, i) else entries
  }

  function MadeRoom(entries: seq<CacheEntry>, max: nat): seq<CacheEntry> {
    if |entries| >= max && entries != [] then entries[1..] else entries
  }

  /** The cache after a load that found no fresh entry; only a successful one adds an entry and evicts for it. */
  function Reloaded(entries: seq<CacheEntry>, name: Text, max: nat, key: Result<array<Byte>, CryptoError>,
                    expiresAt: int): seq<CacheEntry> {
    if key.Err? then Dropped(entries, name)
    else MadeRoom(Dropped(entries, name), max) + [CacheEntry(name, key.value, expiresAt)]
  }

  predicate IsFresh(entries: seq<CacheEntry>, name: Text, now: int) {
    var i := IndexOfName(entries, name);
    i < |entries| && entries[i].expiresAt > now
  }

  ghost predicate HaveDistinctNames(entries: seq<CacheEntry>) {
    forall i, j :: 0 <= i < j < |entries| ==> entries[i].name != entries[j].name
  }

  /** An entry of that name that has not expired. */
  ghost predicate IsUsable(entries: seq<CacheEntry>, name: Text, now: int) {
    exists e :: e in entries && e.name == name && now < e.expiresAt
  }

  lemma FreshIffUsable(entries: seq<CacheEntry>, name: Text, now: int)
    requires HaveDistinctNames(entries)
    ensures IsFresh(entries, name, now) <==> IsUsable(entries, name, now)
  {
    if e :| e in entries && e.name == name && now < e.expiresAt {
      var i :| 0 <= i < |entries| && entries[i] == e;
      assert IndexOfName(entries, name) == i;
    }
  }

  lemma DroppedEntries(entries: seq<CacheEntry>, name: Text)
    requires HaveDistinctNames(entries)
    ensures HaveDistinctNames(Dropped(entries, name))
    ensures forall e :: e in Dropped(entries, name) <==> e in entries && e.name != name
    ensures |Dropped(entries, name)| <= |entries|
    ensures if exists e :: e in entries && e.name == name then |Dropped(entries, name)| < |entries|
            else Dropped(entries, name) == entries
  {
    var i, d := IndexOfName(entries, name), Dropped(entries, name);
    if i < |entries| {
      assert forall j :: 0 <= j < |d| ==> d[j] == entries[if j < i then j else j + 1];
      forall e | e in entries && e.name != name ensures e in d {
        var k :| 0 <= k < |entries| && entries[k] == e;
        assert k != i && d[if k < i then k else k - 1] == e;
      }
    }
  }

  lemma ExtendedEntries(kept: seq<CacheEntry>, entry: CacheEntry)
    requires HaveDistinctNames(kept) && forall e :: e in kept ==> e.name != entry.name
    ensures HaveDistinctNames(kept + [entry])
    ensures forall e :: e in kept + [entry] <==> e in kept || e == entry
  {
  }

  lemma RoomyEntries(kept: seq<CacheEntry>, max: nat)
    requires HaveDistinctNames(kept)
    ensures HaveDistinctNames(MadeRoom(kept, max))
    ensures forall e :: e in MadeRoom(kept, max) <==>
              e in kept && !(|kept| >= max && kept != [] && e.name == kept[0].name)
  {
    var made := MadeRoom(kept, max);
    if |kept| >= max && kept != [] {
      assert kept == [kept[0]] + made;
      forall e | e in made ensures e.name != kept[0].name {
        var i :| 0 <= i < |made| && made[i] == e;
        assert made[i] == kept[i + 1];
      }
    }
  }

  /** A loaded key is used from the cache until its time is up. */
  lemma LoadedIsUsed(entries: seq<CacheEntry>, name: Text, max: nat, key: array<Byte>, expiresAt: int, now: int)
    requires HaveDistinctNames(entries)
    ensures IsFresh(Reloaded(entries, name, max, Ok(key), expiresAt), name, now) <==> now < expiresAt
  {
    hide HaveDistinctNames, IsFresh, IndexOfName;
    DroppedEntries(entries, name);
    RoomyEntries(Dropped(entries, name), max);
    var made, e := MadeRoom(Dropped(entries, name), max), CacheEntry(name, key, expiresAt);
    ExtendedEntries(made, e);
    FreshIffUsable(made + [e], name, now);
  }

  /** Loading one key ends the use of another only if that was the oldest entry of a cache without room. */
  lemma OthersStayInUse(entries: seq<CacheEntry>, name: Text, max: nat, key: Result<array<Byte>, CryptoError>,
                        expiresAt: int, other: Text, now: int)
    requires HaveDistinctNames(entries) && |entries| <= max && other != name
    ensures var evicts := key.Ok? && |entries| == max && forall e :: e in entries ==> e.name != name;
            IsFresh(Reloaded(entries, name, max, key, expiresAt), other, now) <==>
              IsFresh(entries, other, now) && !(evicts && entries != [] && entries[0].name == other)
  {
    hide HaveDistinctNames, IsFresh, IndexOfName;
    DroppedEntries(entries, name);
    FreshIffUsable(entries, other, now);
    var kept := Dropped(entries, name);
    if key.Err? {
      FreshIffUsable(kept, other, now);
    } else {
      RoomyEntries(kept, max);
      var made, entry := MadeRoom(kept, max), CacheEntry(name, key.value, expiresAt);
      ExtendedEntries(made, entry);
      FreshIffUsable(made + [entry], other, now);
    }
  }

  ghost function Buffers(entries: seq<CacheEntry>): set<array<Byte>> { set e | e in entries :: e.key }

  class EnvelopeEncryptionService {
    const store: DataKeyStore
    const master: MasterKey
    const ttl: int
    const max: nat
    var cache: seq<CacheEntry>

    constructor (store: DataKeyStore, master: MasterKey, ttl: nat, max: nat)
      requires RingsOk(store.rings) && 1 <= max
      ensures Valid() && cache == []
      ensures this.store == store && this.master == master && this.ttl == ttl && this.max == max
    {
      this.store, this.master, this.ttl, this.max, cache := store, master, ttl, max, [];
    }

    /** The cached key is the unwrapped key of a stored record, under that record's name. */
    ghost predicate Genuine(e: CacheEntry)
      reads store, e.key
    {
      exists orgId, version: nat ::
        e.name == CacheKey(orgId, version) && KeyOf(store.rings, master, orgId, version) == Some(e.key[..])
    }

    ghost predicate Distinct()
      reads this
    {
      forall i, j :: 0 <= i < j < |cache| ==> cache[i].name != cache[j].name && cache[i].key != cache[j].key
    }

    ghost predicate Valid()
      reads this, store, Buffers(cache)
    {
      && RingsOk(store.rings)
      && 1 <= max && |cache| <= max
      && (forall i :: 0 <= i < |cache| ==> cache[i].key in Buffers(cache) && Genuine(cache[i]))
      && Distinct()
    }

    method Find(name: Text) returns (at: nat)
      ensures at == IndexOfName(cache, name)
    {
      at := 0;
      while at < |cache|
        invariant 0 <= at <= |cache| && IndexOfName(cache, name) == at + IndexOfName(cache[at..], name)
      {
        if cache[at].name == name {
          return;
        }
        assert cache[at..][1..] == cache[at + 1..];
        at := at + 1;
      }
    }

    /** Zeroes one entry's buffer and deletes the entry. */
    method Drop(at: nat)
      requires Valid() && at < |cache|
      modifies this`cache, cache[at].key
      ensures Valid() && cache == Without(old(cache), at) && AllZero(old(cache[at].key))
    {
      hide KeyOf, CacheKey, RingsOk, Genuine;
      var key := cache[at].key;
      ghost var before := cache;
      Fill(key);
      cache := Without(cache, at);
      forall i | 0 <= i < |cache|
        ensures cache[i].key in Buffers(cache) && cache[i].key != key && Genuine(cache[i])
      {
        var j := if i < at then i else i + 1;
        assert cache[i] == before[j] && before[j].key != key;
        assert old(Genuine(before[j]));
      }
    }

    /** A stale entry found under the name is dropped. */
    method Expire(name: Text, at: nat)
      requires Valid() && at == IndexOfName(cache, name)
      modifies this`cache, Buffers(cache)
      ensures Valid() && cache == Dropped(old(cache), name)
      ensures forall e | e in cache :: e in old(cache) && e.name != name
      ensures forall e | e in old(cache) :: if e in cache then e.key[..] == old(e.key[..]) else AllZero(e.key)
    {
      hide KeyOf, CacheKey, RingsOk, Genuine;
      if at < |cache| {
        Drop(at);
      }
    }

    /** The oldest entry goes if the cache is full. */
    method MakeRoom()
      requires Valid()
      modifies this`cache, Buffers(cache)
      ensures Valid() && cache == MadeRoom(old(cache), max) && |cache| < max
      ensures forall e | e in cache :: e in old(cache)
      ensures forall e | e in old(cache) :: if e in cache then e.key[..] == old(e.key[..]) else AllZero(e.key)
    {
      hide KeyOf, CacheKey, RingsOk, Genuine;
      if |cache| >= max {
        Drop(0);
      }
    }

    method Insert(record: DataKeyRecord, bytes: Bytes, now: int) returns (buffer: array<Byte>)
      requires Valid() && |cache| < max
      requires KeyOf(store.rings, master, record.orgId, record.version) == Some(bytes)
      requires forall e | e in cache :: e.name != CacheKey(record.orgId, record.version)
      modifies this`cache
      ensures Valid() && fresh(buffer) && buffer[..] == bytes
      ensures cache == old(cache) + [CacheEntry(CacheKey(record.orgId, record.version), buffer, now + ttl)]
    {
      hide KeyOf, CacheKey, RingsOk;
      buffer := new Byte[|bytes|](i requires 0 <= i < |bytes| => bytes[i]);
      ghost var before := cache;
      cache := cache + [CacheEntry(CacheKey(record.orgId, record.version), buffer, now + ttl)];
      assert buffer[..] == bytes;
      assert Genuine(cache[|cache| - 1]);
      hide Genuine;
      forall i | 0 <= i < |before|
        ensures cache[i].key in Buffers(cache) && Genuine(cache[i]) && cache[i].key != buffer
      {
        assert cache[i] == before[i] && before[i].key in Buffers(before);
        assert old(Genuine(before[i]));
      }
    }

    /** The part of #loadKey after the cache gave no fresh entry. */
    method Reload(record: DataKeyRecord, at: nat, now: int) returns (key: Result<array<Byte>, CryptoError>)
      requires Valid() && VersionOf(RingOf(store.rings, record.orgId), record.version) == Some(record)
      requires at == IndexOfName(cache, CacheKey(record.orgId, record.version))
      modifies this`cache, Buffers(cache)
      ensures Valid()
      ensures match KeyOf(store.rings, master, record.orgId, record.version)
              case None => key == Err(DecryptionFailed)
              case Some(bytes) => key.Ok? && key.value[..] == bytes && fresh(key.value)
      ensures forall e | e in old(cache) :: if e in cache then e.key[..] == old(e.key[..]) else AllZero(e.key)
      ensures cache == Reloaded(old(cache), CacheKey(record.orgId, record.version), max, key, now + ttl)
    {
      hide KeyOf, VersionOf, Unwrap, CacheKey, Valid, IndexOfName, Dropped, MadeRoom, Genuine;
      Expire(CacheKey(record.orgId, record.version), at);
      var unwrapped := Unwrap(master, record.orgId, record.version, record.wrapped);
      UnwrapIsKeyOf(record);
      if unwrapped == None {
        return Err(DecryptionFailed);
      }
      ghost var expired := cache;
      label AfterExpire:
      MakeRoom();
      assert forall e | e in cache :: e in expired;
      assert forall e | e in expired :: if e in cache then e.key[..] == old@AfterExpire(e.key[..]) else AllZero(e.key);
      var buffer := Insert(record, unwrapped.value, now);
      key := Ok(buffer);
    }

    /**
      #loadKey at any time: the answer is what unwrapping the stored record gives, whether it was cached or not.
      Dropped buffers are zeroed, kept ones are untouched, and the oldest entry makes room for a new one.
     */
    method LoadKey(record: DataKeyRecord, now: int) returns (key: Result<array<Byte>, CryptoError>)
      requires Valid() && VersionOf(RingOf(store.rings, record.orgId), record.version) == Some(record)
      modifies this`cache, Buffers(cache)
      ensures Valid()
      ensures match KeyOf(store.rings, master, record.orgId, record.version)
              case None => key == Err(DecryptionFailed)
              case Some(bytes) => key.Ok? && key.value[..] == bytes
      ensures forall e | e in old(cache) :: if e in cache then e.key[..] == old(e.key[..]) else AllZero(e.key)
      ensures var name := CacheKey(record.orgId, record.version);
              if IsFresh(old(cache), name, now) then
                cache == old(cache) && key == Ok(cache[IndexOfName(cache, name)].key)
              else cache == Reloaded(old(cache), name, max, key, now + ttl)
    {
      var at := Find(CacheKey(record.orgId, record.version));
      if at < |cache| && cache[at].expiresAt > now {
        CachedIsRight(cache[at], record.orgId, record.version);
        return Ok(cache[at].key);
      }
      key := Reload(record, at, now);
    }

    lemma UnwrapIsKeyOf(record: DataKeyRecord)
      requires VersionOf(RingOf(store.rings, record.orgId), record.version) == Some(record)
      ensures KeyOf(store.rings, master, record.orgId, record.version)
           == Unwrap(master, record.orgId, record.version, record.wrapped)
    {
    }

    /** Names are injective, so an entry found by name holds that record's key. */
    lemma CachedIsRight(e: CacheEntry, orgId: Text, version: nat)
      requires Genuine(e) && e.name == CacheKey(orgId, version)
      ensures KeyOf(store.rings, master, orgId, version) == Some(e.key[..])
    {
      var orgId', version': nat :|
        e.name == CacheKey(orgId', version') && KeyOf(store.rings, master, orgId', version') == Some(e.key[..]);
      CacheKeyIsInjective(orgId, version, orgId', version');
    }

    /** Activations by anyone who shares the store leave every cached key right. */
    twostate lemma ValidDespiteOthers()
      requires old(Valid()) && cache == old(cache) && forall e | e in cache :: e.key[..] == old(e.key[..])
      requires RingsOk(store.rings) && AllExtend(old(store.rings), store.rings)
      ensures Valid()
    {
      forall i | 0 <= i < |cache|
        ensures cache[i].key in Buffers(cache) && Genuine(cache[i])
      {
        assert old(Genuine(cache[i]));
        var orgId, version: nat :|
          cache[i].name == CacheKey(orgId, version)
          && KeyOf(old(store.rings), master, orgId, version) == Some(old(cache[i].key[..]));
        hide KeyOf, RingsOk, AllExtend, CacheKey;
        KeysStay(old(store.rings), store.rings, master, orgId, version);
      }
    }

    /** ensureActive with generated key material; the answered record is the stored one of its version. */
    method EnsureKey(orgId: Text, material: Option<Material>) returns (record: Option<DataKeyRecord>)
      requires Valid()
      modifies store
      ensures Valid() && store.rings == Apply(old(store.rings), master, Call.EnsureActive(orgId, material))
      ensures record == ActiveOf(RingOf(store.rings, orgId)) && (material.Some? ==> record.Some?)
      ensures record.Some? ==>
                && record.value.orgId == orgId
                && VersionOf(RingOf(store.rings, orgId), record.value.version) == record
    {
      record := store.EnsureActive(orgId, master, material);
      ApplyKeeps(old(store.rings), master, Call.EnsureActive(orgId, material));
      ValidDespiteOthers();
      hide Valid, Apply, AllExtend;
      var ring := RingOf(store.rings, orgId);
      assert RingOk(ring, orgId);
      ActiveOfRing(ring);
      if record.Some? {
        VersionOfRing(ring, 0, record.value.version);
      }
    }

    /**
      encrypt, with the random bytes it draws. A context without authenticated data changes nothing; a factory that
      fails when a key is needed, or a stored key that does not open, is its error.
     */
    method Encrypt(plaintext: Bytes, c: Context, now: int, material: Option<Material>, nonce: Bytes)
      returns (result: Result<EncryptedValue, CryptoError>)
      requires Valid() && |nonce| == NONCE_BYTES
      modifies this`cache, Buffers(cache), store
      ensures Valid()
      ensures !IsComplete(c) ==>
                result == Err(InvalidContext) && store.rings == old(store.rings) && cache == old(cache)
      ensures IsComplete(c) ==> store.rings == Apply(old(store.rings), master, Call.EnsureActive(c.orgId, material))
      ensures IsComplete(c) ==>
                var active := ActiveOf(RingOf(store.rings, c.orgId));
                && (active == None ==> material == None && result == Err(FactoryFailed))
                && (active.Some? && KeyOf(store.rings, master, c.orgId, active.value.version) == None ==>
                      result == Err(DecryptionFailed))
                && (active.Some? && KeyOf(store.rings, master, c.orgId, active.value.version).Some? ==>
                      && result.Ok? && result.value.keyVersion == active.value.version
                      && Produced(store.rings, master, result.value, plaintext, c))
    {
      hide KeyOf, VersionOf, ActiveOf, Apply, Valid, Reloaded, IsFresh;
      if !IsComplete(c) {
        return Err(InvalidContext);
      }
      var record := EnsureKey(c.orgId, material);
      if record == None {
        return Err(FactoryFailed);
      }
      var key := LoadKey(record.value, now);
      if key.Err? {
        return Err(DecryptionFailed);
      }
      var box := Sealed(key.value[..], nonce, SecretAad(c).value, plaintext);
      result := Ok(EncryptedValue(ALGORITHM, record.value.version, nonce, TAG_BYTES, box));
    }

    /** decrypt answers what it would without a cache, at any time, in every error case too. */
    method Decrypt(v: EncryptedValue, c: Context, now: int) returns (result: Result<Bytes, CryptoError>)
      requires Valid()
      modifies this`cache, Buffers(cache)
      ensures Valid() && result == Opened(store.rings, master, v, c)
    {
      hide Valid, Reloaded, IsFresh, VersionOf;
      if v.algorithm != ALGORITHM || |v.nonce| != NONCE_BYTES || v.tagBytes != TAG_BYTES {
        return Err(DecryptionFailed);
      }
      var record := store.GetVersion(c.orgId, v.keyVersion);
      if record == None {
        return Err(DecryptionFailed);
      }
      StoredRecord(c.orgId, v.keyVersion);
      var key := LoadKey(record.value, now);
      hide KeyOf;
      if key.Err? {
        return Err(DecryptionFailed);
      }
      var aad := SecretAad(c);
      if aad == None {
        return Err(InvalidContext);
      }
      var plaintext := OpenBox(v.box, key.value[..], v.nonce, aad.value);
      if plaintext == None {
        return Err(DecryptionFailed);
      }
      return Ok(plaintext.value);
    }

    /** A record found by organization and version carries them. */
    lemma StoredRecord(orgId: Text, version: nat)
      requires Valid() && VersionOf(RingOf(store.rings, orgId), version).Some?
      ensures var record := VersionOf(RingOf(store.rings, orgId), version).value;
              record.orgId == orgId && record.version == version
    {
      hide Genuine;
      var ring := RingOf(store.rings, orgId);
      assert RingOk(ring, orgId);
      VersionOfRing(ring, 0, version);
    }

    /** The next version, or the factory's error; either way only this organization's ring moves. */
    method RotateDataKey(orgId: Text, material: Option<Material>) returns (version: Result<nat, CryptoError>)
      requires Valid()
      modifies store
      ensures Valid()
      ensures orgId == [] ==> version == Err(InvalidContext) && store.rings == old(store.rings)
      ensures orgId != [] ==>
                && version == (if material.Some? then Ok(|RingOf(old(store.rings), orgId)| + 1) else Err(FactoryFailed))
                && store.rings == Apply(old(store.rings), master, Call.Rotate(orgId, material))
    {
      if orgId == [] {
        return Err(InvalidContext);
      }
      var record := store.RotateKey(orgId, master, material);
      ApplyKeeps(old(store.rings), master, Call.Rotate(orgId, material));
      ValidDespiteOthers();
      version := if record.Some? then Ok(record.value.version) else Err(FactoryFailed);
    }

    method ClearKeyCache()
      requires Valid()
      modifies this`cache, Buffers(cache)
      ensures Valid() && cache == [] && forall b | b in old(Buffers(cache)) :: AllZero(b)
    {
      hide Genuine, KeyOf;
      var i := 0;
      while i < |cache|
        invariant 0 <= i <= |cache| && cache == old(cache)
        invariant forall j :: 0 <= j < i ==> AllZero(cache[j].key)
      {
        Fill(cache[i].key);
        i := i + 1;
      }
      cache := [];
    }
  }
}
