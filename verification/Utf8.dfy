/** UTF-8 (section 3 of RFC 3629) as Buffer writes and reads it, and what storing a text does to it. */
module Utf8 {
  import opened Wrappers
  import opened Strings
  import opened JsonString
  import opened LineExport
  import opened Database

  // ---- Buffer.from(text, "utf8") ----

  /** The scalar value of a surrogate pair. */
  function Scalar(lead: Unit, trail: Unit): (r: int)
    requires IsLead(lead) && IsTrail(trail)
    ensures 0x10000 <= r < 0x110000
  {
    0x10000 + (lead - 0xD800) * 0x400 + (trail - 0xDC00)
  }

  function EncodeScalar(r: int): Bytes
    requires 0 <= r < 0x110000
  {
    if r < 0x80 then [r]
    else if r < 0x800 then [0xC0 + r / 0x40, 0x80 + r % 0x40]
    else if r < 0x10000 then [0xE0 + r / 0x1000, 0x80 + r / 0x40 % 0x40, 0x80 + r % 0x40]
    else [0xF0 + r / 0x40000, 0x80 + r / 0x1000 % 0x40, 0x80 + r / 0x40 % 0x40, 0x80 + r % 0x40]
  }

  /** Unpaired surrogates have no encoding; U+FFFD is written instead. */
  function Encode(v: Text): Bytes {
    if v == [] then []
    else if StartsWithPair(v) then EncodeScalar(Scalar(v[0], v[1])) + Encode(v[2..])
    else EncodeScalar(if IsLead(v[0]) || IsTrail(v[0]) then 0xFFFD else v[0]) + Encode(v[1..])
  }

  // ---- toString("utf8") of well-formed bytes ----

  function Utf16Of(r: int): Text
    requires 0 <= r < 0x110000
  {
    if r < 0x10000 then [r] else [0xD800 + (r - 0x10000) / 0x400, 0xDC00 + (r - 0x10000) % 0x400]
  }

  /** How many bytes the first one announces. */
  function Announced(b: Byte): nat { if b < 0x80 then 1 else if b < 0xE0 then 2 else if b < 0xF0 then 3 else 4 }

  function DecodeFirst(b: Bytes): Option<int>
    requires b != [] && Announced(b[0]) <= |b|
  {
    var r: int := match Announced(b[0])
      case 1 => b[0] as int
      case 2 => (b[0] as int - 0xC0) * 0x40 + (b[1] as int - 0x80)
      case 3 => (b[0] as int - 0xE0) * 0x1000 + (b[1] as int - 0x80) * 0x40 + (b[2] as int - 0x80)
      case _ =>
        (b[0] as int - 0xF0) * 0x40000 + (b[1] as int - 0x80) * 0x1000 + (b[2] as int - 0x80) * 0x40
        + (b[3] as int - 0x80);
    if 0 <= r < 0x110000 then Some(r) else None
  }

  function Decode(b: Bytes): Option<Text>
    decreases |b|
  {
    if b == [] then Some([])
    else if |b| < Announced(b[0]) then None
    else
      var first, rest := DecodeFirst(b), Decode(b[Announced(b[0])..]);
      if first == None || rest == None then None else Some(Utf16Of(first.value) + rest.value)
  }

  lemma FirstOfEncoded(r: int, rest: Bytes)
    requires 0 <= r < 0x110000
    ensures var b := EncodeScalar(r) + rest;
            && Announced(b[0]) == |EncodeScalar(r)| && DecodeFirst(b) == Some(r)
            && b[Announced(b[0])..] == rest
  {
    assert r / 0x40 == r / 0x1000 * 0x40 + r / 0x40 % 0x40;
    assert r / 0x1000 == r / 0x40000 * 0x40 + r / 0x1000 % 0x40;
  }

  lemma LengthOfScalar(r: int)
    requires 0 <= r < 0x110000
    ensures |EncodeScalar(r)| == if r < 0x80 then 1 else if r < 0x800 then 2 else if r < 0x10000 then 3 else 4
  {
  }

  lemma ScalarThen(r: int, rest: Bytes)
    requires 0 <= r < 0x110000 && Decode(rest).Some?
    ensures Decode(EncodeScalar(r) + rest) == Some(Utf16Of(r) + Decode(rest).value)
  {
    FirstOfEncoded(r, rest);
    hide EncodeScalar, DecodeFirst, Utf16Of, Announced;
  }

  /** What a stored value reads as is what its bytes decode to, and its length limit counts those bytes. */
  lemma {:induction false} StoredIsDecoded(v: Text)
    ensures Decode(Encode(v)) == Some(StoredText(v)) && |Encode(v)| == Utf8Length(v)
    decreases |v|
  {
    hide EncodeScalar, Decode;
    if v == [] {
      NothingDecodes();
    } else if StartsWithPair(v) {
      StoredIsDecoded(v[2..]);
      ScalarThen(Scalar(v[0], v[1]), Encode(v[2..]));
      assert Utf16Of(Scalar(v[0], v[1])) == v[..2];
      LengthOfScalar(Scalar(v[0], v[1]));
    } else {
      var r := if IsLead(v[0]) || IsTrail(v[0]) then 0xFFFD else v[0];
      StoredIsDecoded(v[1..]);
      ScalarThen(r, Encode(v[1..]));
      LengthOfScalar(r);
    }
  }

  lemma NothingDecodes()
    ensures Decode([]) == Some([])
  {
  }

  // ---- unit by unit ----

  /** Every surrogate is one half of a pair. */
  predicate IsWhole(v: Text) { forall i :: 0 <= i < |v| ==> !IsLoneSurrogate(v, i) }

  lemma LoneInTail(v: Text, n: nat, i: nat)
    requires v != [] && n == (if StartsWithPair(v) then 2 else 1) && i + n < |v|
    ensures IsLoneSurrogate(v[n..], i) <==> IsLoneSurrogate(v, i + n)
  {
    var w := v[n..];
    assert w[i] == v[i + n] && (i + 1 < |w| ==> w[i + 1] == v[i + n + 1]) && (i > 0 ==> w[i - 1] == v[i + n - 1]);
    assert n == 1 ==> !(IsLead(v[0]) && IsTrail(v[1]));
  }

  /** A stored text has every unit of the given one but for lone surrogates, each of which becomes U+FFFD. */
  lemma {:induction false} StoredUnits(v: Text)
    ensures |StoredText(v)| == |v|
    ensures forall i :: 0 <= i < |v| ==> StoredText(v)[i] == if IsLoneSurrogate(v, i) then 0xFFFD else v[i]
    decreases |v|
  {
    if v != [] {
      var n := if StartsWithPair(v) then 2 else 1;
      StoredUnits(v[n..]);
      assert |StoredText(v)| == |v|;
      assert StoredText(v)[n..] == StoredText(v[n..]);
      forall i | n <= i < |v| ensures StoredText(v)[i] == if IsLoneSurrogate(v, i) then 0xFFFD else v[i] {
        hide IsLoneSurrogate, StoredText;
        LoneInTail(v, n, i - n);
        assert StoredText(v)[i] == StoredText(v)[n..][i - n];
      }
      if n == 2 {
        assert StoredText(v)[0] == v[0] && StoredText(v)[1] == v[1];
      }
    }
  }

  /** Exactly the texts without lone surrogates are stored as they are. */
  lemma StoredIsGivenIff(v: Text)
    ensures StoredText(v) == v <==> IsWhole(v)
  {
    StoredUnits(v);
    if IsWhole(v) {
      assert forall i :: 0 <= i < |v| ==> StoredText(v)[i] == v[i];
    } else {
      var i :| 0 <= i < |v| && IsLoneSurrogate(v, i);
      assert StoredText(v)[i] != v[i];
    }
  }
}
