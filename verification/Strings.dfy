/** JavaScript strings as sequences of UTF-16 code units, with the library operations the codecs use. */
module Strings {
  type Unit = u: int | 0 <= u < 0x1_0000
  type Text = seq<Unit>

  type Byte = b: int | 0 <= b < 0x100
  type Bytes = seq<Byte>

  const NUL: Unit := 0x00
  const TAB: Unit := 0x09
  const LF: Unit := 0x0A
  const CR: Unit := 0x0D
  const SPACE: Unit := 0x20
  const DQUOTE: Unit := 0x22
  const HASH: Unit := 0x23
  const SQUOTE: Unit := 0x27
  const COMMA: Unit := 0x2C
  const EQUALS: Unit := 0x3D
  const BACKSLASH: Unit := 0x5C
  const BACKTICK: Unit := 0x60

  /** ASCII literals written as Dafny strings. */
  function Ascii(s: string): (t: Text)
    requires forall i :: 0 <= i < |s| ==> s[i] as int < 0x80
    ensures |t| == |s|
    ensures forall i :: 0 <= i < |s| ==> t[i] == s[i] as int
  {
    seq(|s|, i requires 0 <= i < |s| => s[i] as int)
  }

  /** White space and line terminators, as trim() and \s see them. */
  predicate IsSpace(u: Unit) {
    || 0x09 <= u <= 0x0D || u == 0x20 || u == 0xA0 || u == 0x1680 || 0x2000 <= u <= 0x200A
    || u == 0x2028 || u == 0x2029 || u == 0x202F || u == 0x205F || u == 0x3000 || u == 0xFEFF
  }

  predicate IsDigit(u: Unit) { 0x30 <= u <= 0x39 }

  predicate IsUpper(u: Unit) { 0x41 <= u <= 0x5A }

  predicate IsAlpha(u: Unit) { IsUpper(u) || 0x61 <= u <= 0x7A }

  /** The class [\s=\u0000-\u001f\u007f] that keys, delimiters and path segments may not contain. */
  predicate IsForbidden(u: Unit) { IsSpace(u) || u == EQUALS || u <= 0x1F || u == 0x7F }

  predicate NoForbidden(t: Text) { forall i :: 0 <= i < |t| ==> !IsForbidden(t[i]) }

  function TrimStart(t: Text): (r: Text)
    ensures |r| <= |t|
  {
    if t != [] && IsSpace(t[0]) then TrimStart(t[1..]) else t
  }

  function TrimEnd(t: Text): (r: Text)
    ensures |r| <= |t|
  {
    if t != [] && IsSpace(t[|t| - 1]) then TrimEnd(t[..|t| - 1]) else t
  }

  function Trim(t: Text): Text { TrimEnd(TrimStart(t)) }

  /** Position of the first occurrence of d in t, or -1. */
  function IndexOf(t: Text, d: Text): (i: int)
    ensures -1 <= i && (i >= 0 ==> i + |d| <= |t| && t[i..i + |d|] == d)
    decreases |t|
  {
    if |t| < |d| then -1
    else if t[..|d|] == d then 0
    else if t == [] then -1
    else
      var i := IndexOf(t[1..], d);
      if i < 0 then -1 else assert t[1..][i..i + |d|] == t[i + 1..i + 1 + |d|]; i + 1
  }

  /** String.prototype.split with a non-empty separator. */
  function Split(t: Text, d: Text): (parts: seq<Text>)
    requires d != []
    ensures |parts| >= 1
    decreases |t|
  {
    var i := IndexOf(t, d);
    if i < 0 then [t] else [t[..i]] + Split(t[i + |d|..], d)
  }

  function Join(parts: seq<Text>, d: Text): Text {
    if parts == [] then []
    else if |parts| == 1 then parts[0]
    else parts[0] + d + Join(parts[1..], d)
  }

  lemma Splice(t: Text, i: nat, n: nat)
    requires i + n <= |t|
    ensures t == t[..i] + t[i..i + n] + t[i + n..]
  {
  }

  lemma JoinCons(head: Text, parts: seq<Text>, d: Text)
    requires parts != []
    ensures Join([head] + parts, d) == head + d + Join(parts, d)
  {
    assert ([head] + parts)[1..] == parts;
  }

  /** Joining with the separator undoes the split, overlapping separators included. */
  lemma {:induction false} JoinOfSplit(t: Text, d: Text)
    requires d != []
    ensures Join(Split(t, d), d) == t
    decreases |t|
  {
    var i := IndexOf(t, d);
    if i >= 0 {
      var rest := t[i + |d|..];
      var parts := Split(rest, d);
      assert Join(parts, d) == rest by { JoinOfSplit(rest, d); }
      assert Join([t[..i]] + parts, d) == t[..i] + d + rest by { JoinCons(t[..i], parts, d); }
      Splice(t, i, |d|);
    }
  }

  lemma {:induction false} IndexOfUnit(head: Text, u: Unit, tail: Text)
    requires u !in head
    ensures IndexOf(head + [u] + tail, [u]) == |head|
  {
    var t := head + [u] + tail;
    if head == [] {
      assert t[..1] == [u];
    } else {
      assert t[..1] == [head[0]];
      assert t[1..] == head[1..] + [u] + tail;
      IndexOfUnit(head[1..], u, tail);
    }
  }

  lemma {:induction false} IndexOfAbsentUnit(t: Text, u: Unit)
    requires u !in t
    ensures IndexOf(t, [u]) == -1
  {
    if t != [] {
      assert t[..1] == [t[0]];
      IndexOfAbsentUnit(t[1..], u);
    }
  }

  /** Splitting on a single unit undoes the join of parts that do not contain it. */
  lemma {:induction false} SplitOfJoin(parts: seq<Text>, u: Unit)
    requires parts != []
    requires forall i :: 0 <= i < |parts| ==> u !in parts[i]
    ensures Split(Join(parts, [u]), [u]) == parts
  {
    if |parts| == 1 {
      IndexOfAbsentUnit(parts[0], u);
    } else {
      var rest := Join(parts[1..], [u]);
      var t := parts[0] + [u] + rest;
      IndexOfUnit(parts[0], u, rest);
      SplitOfJoin(parts[1..], u);
      assert t[..|parts[0]|] == parts[0];
      assert t[|parts[0]| + |[u]|..] == rest;
      assert [parts[0]] + parts[1..] == parts;
    }
  }

  /** Text made of units satisfying !IsSpace is left alone by the trims. */
  lemma {:induction false} TrimOfDense(t: Text)
    requires forall i :: 0 <= i < |t| ==> !IsSpace(t[i])
    ensures TrimStart(t) == t && TrimEnd(t) == t && Trim(t) == t
  {
    assert TrimStart(t) == t;
  }
}
