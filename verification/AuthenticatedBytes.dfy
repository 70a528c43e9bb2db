/** What the cipher authenticates are bytes: the UTF-8 of the arrays, which tell the arrays apart. */
module AuthenticatedBytes {
  import opened Wrappers
  import opened Strings
  import opened Decimal
  import opened JsonString
  import opened LineExport
  import opened Database
  import opened Utf8
  import opened AuthenticatedData

  /** Texts without lone surrogates have bytes of their own. */
  lemma EncodeIsInjective(v: Text, w: Text)
    requires IsWhole(v) && IsWhole(w) && Encode(v) == Encode(w)
    ensures v == w
  {
    hide Encode, Decode, StoredText, Utf8Length, IsWhole;
    StoredIsDecoded(v);
    StoredIsDecoded(w);
    StoredIsGivenIff(v);
    StoredIsGivenIff(w);
  }

  // ---- what JSON.stringify prints is whole ----

  lemma WholeConcat(v: Text, w: Text)
    requires IsWhole(v) && IsWhole(w)
    ensures IsWhole(v + w)
  {
    var t := v + w;
    forall i | 0 <= i < |t| ensures !IsLoneSurrogate(t, i) {
      if i < |v| {
        assert !IsLoneSurrogate(v, i) && t[i] == v[i];
      } else {
        assert !IsLoneSurrogate(w, i - |v|) && t[i] == w[i - |v|];
      }
    }
  }

  predicate HasNoSurrogates(t: Text) { forall i :: 0 <= i < |t| ==> !IsLead(t[i]) && !IsTrail(t[i]) }

  lemma PlainIsWhole(t: Text)
    requires HasNoSurrogates(t)
    ensures IsWhole(t)
  {
  }

  lemma EscapeIsWhole(u: Unit)
    ensures IsWhole(EscapeUnit(u))
  {
    hide HexDigit;
    assert HasNoSurrogates(UnicodeEscape(u)) by {
      HexIsPlain(u / 4096);
      HexIsPlain(u / 256 % 16);
      HexIsPlain(u / 16 % 16);
      HexIsPlain(u % 16);
    }
    PlainIsWhole(EscapeUnit(u));
  }

  lemma HexIsPlain(n: nat)
    requires n < 16
    ensures HexDigit(n) < 0x80
  {
  }

  /** Lone surrogates are escaped. */
  lemma {:induction false} QuoteBodyIsWhole(v: Text)
    ensures IsWhole(QuoteBody(v))
    decreases |v|
  {
    hide IsWhole, EscapeUnit;
    if v == [] {
      PlainIsWhole([]);
    } else if StartsWithPair(v) {
      QuoteBodyIsWhole(v[2..]);
      PairIsWhole(v[0], v[1]);
      assert v[..2] == [v[0], v[1]];
      WholeConcat(v[..2], QuoteBody(v[2..]));
    } else {
      QuoteBodyIsWhole(v[1..]);
      EscapeIsWhole(v[0]);
      WholeConcat(EscapeUnit(v[0]), QuoteBody(v[1..]));
    }
  }

  lemma PairIsWhole(lead: Unit, trail: Unit)
    requires IsLead(lead) && IsTrail(trail)
    ensures IsWhole([lead, trail])
  {
  }

  lemma {:induction false} ListIsWhole(parts: seq<Text>, version: nat)
    ensures IsWhole(ListOf(parts, version))
  {
    hide IsWhole, QuoteBody, Digits;
    if parts == [] {
      PlainIsWhole(ListOf([], version));
    } else {
      QuoteBodyIsWhole(parts[0]);
      PlainIsWhole([DQUOTE]);
      WholeConcat([DQUOTE], QuoteBody(parts[0]));
      WholeConcat([DQUOTE] + QuoteBody(parts[0]), [DQUOTE]);
      ListIsWhole(parts[1..], version);
      PlainIsWhole([COMMA]);
      WholeConcat(Quote(parts[0]), [COMMA]);
      WholeConcat(Quote(parts[0]) + [COMMA], ListOf(parts[1..], version));
    }
  }

  lemma ArraysAreWhole(c: Context, orgId: Text, version: nat)
    ensures SecretAad(c).Some? ==> IsWhole(SecretAad(c).value)
    ensures IsWhole(DataKeyAad(orgId, version))
  {
    hide IsWhole, ListOf;
    PlainIsWhole(Ascii(SECRET_TAG));
    PlainIsWhole(Ascii(DEK_TAG));
    ListIsWhole([orgId], version);
    WholeConcat(Ascii(DEK_TAG), ListOf([orgId], version));
    if IsComplete(c) {
      ListIsWhole(Ids(c), c.recordVersion);
      WholeConcat(Ascii(SECRET_TAG), ListOf(Ids(c), c.recordVersion));
    }
  }

  /** Equal authenticated bytes mean equal contexts, and no value shares its bytes with a wrapped key. */
  lemma BytesTellContexts(c: Context, d: Context, orgId: Text, version: nat, orgId': Text, version': nat)
    requires IsComplete(c) && IsComplete(d)
    ensures Encode(SecretAad(c).value) == Encode(SecretAad(d).value) <==> c == d
    ensures Encode(DataKeyAad(orgId, version)) == Encode(DataKeyAad(orgId', version'))
       <==> orgId == orgId' && version == version'
    ensures Encode(SecretAad(c).value) != Encode(DataKeyAad(orgId, version))
  {
    hide Encode, IsWhole, ListOf, DataKeyAad;
    ArraysAreWhole(c, orgId, version);
    ArraysAreWhole(d, orgId', version');
    if Encode(SecretAad(c).value) == Encode(SecretAad(d).value) {
      EncodeIsInjective(SecretAad(c).value, SecretAad(d).value);
      SecretAadIsInjective(c, d);
    }
    if Encode(DataKeyAad(orgId, version)) == Encode(DataKeyAad(orgId', version')) {
      EncodeIsInjective(DataKeyAad(orgId, version), DataKeyAad(orgId', version'));
      DataKeyAadIsInjective(orgId, version, orgId', version');
    }
    if Encode(SecretAad(c).value) == Encode(DataKeyAad(orgId, version)) {
      EncodeIsInjective(SecretAad(c).value, DataKeyAad(orgId, version));
      PurposesAreSeparate(c, orgId, version);
    }
  }
}
