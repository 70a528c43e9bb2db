/** The forms of slugs, keys and notes, read off the texts and not off the functions that check them. */
module InputLaws {
  import opened Wrappers
  import opened Strings
  import opened Operations

  // ---- padding ----

  predicate AllSpace(t: Text) { forall i :: 0 <= i < |t| ==> IsSpace(t[i]) }

  /** Empty, or without white space at either end. */
  predicate IsTight(t: Text) { t != [] ==> !IsSpace(t[0]) && !IsSpace(t[|t| - 1]) }

  lemma {:induction false} TrimStartOfPadded(pad: Text, rest: Text)
    requires AllSpace(pad) && (rest != [] ==> !IsSpace(rest[0]))
    ensures TrimStart(pad + rest) == rest
  {
    if pad == [] {
      assert pad + rest == rest;
    } else {
      assert (pad + rest)[1..] == pad[1..] + rest;
      TrimStartOfPadded(pad[1..], rest);
    }
  }

  lemma {:induction false} TrimEndOfPadded(rest: Text, pad: Text)
    requires AllSpace(pad) && (rest != [] ==> !IsSpace(rest[|rest| - 1]))
    ensures TrimEnd(rest + pad) == rest
  {
    if pad == [] {
      assert rest + pad == rest;
    } else {
      var t := rest + pad;
      assert t[..|t| - 1] == rest + pad[..|pad| - 1];
      TrimEndOfPadded(rest, pad[..|pad| - 1]);
    }
  }

  lemma TrimOfPadded(before: Text, core: Text, after: Text)
    requires AllSpace(before) && AllSpace(after) && IsTight(core)
    ensures Trim(before + core + after) == core
  {
    if core == [] {
      assert before + core + after == before + after + [];
      TrimStartOfPadded(before + after, []);
    } else {
      assert before + core + after == before + (core + after);
      TrimStartOfPadded(before, core + after);
      TrimEndOfPadded(core, after);
    }
  }

  /** Every text is a tight one between white space, so the laws below speak of every input. */
  lemma {:induction false} PaddedForm(t: Text) returns (before: Text, core: Text, after: Text)
    ensures t == before + core + after && AllSpace(before) && AllSpace(after) && IsTight(core)
  {
    if t == [] || (!IsSpace(t[0]) && !IsSpace(t[|t| - 1])) {
      before, core, after := [], t, [];
    } else if IsSpace(t[0]) {
      before, core, after := PaddedForm(t[1..]);
      before := [t[0]] + before;
      assert t == [t[0]] + t[1..];
    } else {
      var last := t[|t| - 1];
      before, core, after := PaddedForm(t[..|t| - 1]);
      after := after + [last];
      assert t == t[..|t| - 1] + [last];
    }
  }

  // ---- words joined by single separators ----

  const UNDERSCORE: Unit := 0x5F
  const HYPHEN: Unit := 0x2D

  type Class = Unit -> bool

  predicate IsWord(word: Text, class_: Class) { word != [] && forall i :: 0 <= i < |word| ==> class_(word[i]) }

  predicate AreWords(words: seq<Text>, class_: Class) {
    words != [] && forall i :: 0 <= i < |words| ==> IsWord(words[i], class_)
  }

  predicate IsJoined(t: Text, words: seq<Text>, class_: Class, separator: Unit) {
    AreWords(words, class_) && t == Join(words, [separator])
  }

  /** Units of the class and separators, neither first nor last nor next to each other. */
  predicate IsSeparated(t: Text, class_: Class, separator: Unit) {
    && t != [] && (forall i :: 0 <= i < |t| ==> class_(t[i]) || t[i] == separator)
    && t[0] != separator && t[|t| - 1] != separator
    && forall i :: 0 < i < |t| ==> !IsDoubled(t, i, separator)
  }

  predicate IsDoubled(t: Text, i: nat, separator: Unit)
    requires 0 < i < |t|
  {
    t[i - 1] == separator && t[i] == separator
  }

  /** A word before a separated text. */
  lemma PrefixedIsSeparated(word: Text, rest: Text, class_: Class, separator: Unit)
    requires IsWord(word, class_) && !class_(separator) && IsSeparated(rest, class_, separator)
    ensures IsSeparated(word + [separator] + rest, class_, separator)
  {
    var t, n := word + [separator] + rest, |word| + 1;
    assert forall k :: 0 <= k < |rest| ==> t[n + k] == rest[k];
    forall i | 0 <= i < |t| ensures class_(t[i]) || t[i] == separator {
      if i >= n { assert t[i] == rest[i - n]; }
    }
    assert t[|t| - 1] == rest[|rest| - 1];
    forall i | 0 < i < |t| ensures !IsDoubled(t, i, separator) {
      if i > n {
        assert t[i] == rest[i - n] && t[i - 1] == rest[i - n - 1] && !IsDoubled(rest, i - n, separator);
      } else if i < n {
        assert class_(t[i - 1]);
      } else {
        assert t[i] == rest[0];
      }
    }
  }

  lemma WordIsSeparated(word: Text, class_: Class, separator: Unit)
    requires IsWord(word, class_) && !class_(separator)
    ensures IsSeparated(word, class_, separator)
  {
    forall i | 0 < i < |word| ensures !IsDoubled(word, i, separator) { assert class_(word[i]); }
  }

  lemma {:induction false} JoinedIsSeparated(words: seq<Text>, class_: Class, separator: Unit)
    requires AreWords(words, class_) && !class_(separator)
    ensures IsSeparated(Join(words, [separator]), class_, separator)
    ensures Join(words, [separator])[0] == words[0][0]
  {
    hide IsSeparated;
    assert IsWord(words[0], class_);
    if |words| == 1 {
      WordIsSeparated(words[0], class_, separator);
    } else {
      forall i | 0 <= i < |words[1..]| ensures IsWord(words[1..][i], class_) { assert IsWord(words[i + 1], class_); }
      JoinedIsSeparated(words[1..], class_, separator);
      PrefixedIsSeparated(words[0], Join(words[1..], [separator]), class_, separator);
    }
  }

  lemma {:induction false} SeparatedIsJoined(t: Text, class_: Class, separator: Unit) returns (words: seq<Text>)
    requires IsSeparated(t, class_, separator)
    ensures IsJoined(t, words, class_, separator)
    decreases |t|
  {
    if separator !in t {
      words := [t];
    } else {
      var i := FirstOf(t, separator);
      var rest := t[i + 1..];
      RestIsSeparated(t, i, class_, separator);
      hide IsSeparated;
      var more := SeparatedIsJoined(rest, class_, separator);
      words := [t[..i]] + more;
      JoinCons(t[..i], more, [separator]);
      assert t == t[..i] + [separator] + rest;
    }
  }

  /** What the first separator parts. */
  lemma RestIsSeparated(t: Text, i: nat, class_: Class, separator: Unit)
    requires IsSeparated(t, class_, separator) && i < |t| && t[i] == separator && separator !in t[..i]
    ensures IsWord(t[..i], class_) && IsSeparated(t[i + 1..], class_, separator)
  {
    var rest := t[i + 1..];
    assert i + 1 < |t| ==> !IsDoubled(t, i + 1, separator);
    assert forall k :: 0 <= k < |rest| ==> rest[k] == t[i + 1 + k];
    forall k | 0 < k < |rest| ensures !IsDoubled(rest, k, separator) {
      assert !IsDoubled(t, i + 1 + k, separator);
    }
    assert forall k :: 0 <= k < i ==> t[..i][k] == t[k] && t[k] in t[..i];
  }

  lemma {:induction false} FirstOf(t: Text, u: Unit) returns (i: nat)
    requires u in t
    ensures i < |t| && t[i] == u && u !in t[..i]
  {
    if t[0] == u {
      i := 0;
    } else {
      i := FirstOf(t[1..], u);
      assert t[..i + 1] == [t[0]] + t[1..][..i];
      i := i + 1;
    }
  }

  predicate IsUpperOrDigit(u: Unit) { 'A' as int <= u <= 'Z' as int || '0' as int <= u <= '9' as int }

  predicate IsLowerOrDigit(u: Unit) { 'a' as int <= u <= 'z' as int || '0' as int <= u <= '9' as int }

  /** Upper-case words of letters and digits joined by single underscores, with a letter first. */
  predicate AreConventionalWords(key: Text, words: seq<Text>) {
    IsJoined(key, words, IsUpperOrDigit, UNDERSCORE) && 'A' as int <= words[0][0] <= 'Z' as int
  }

  lemma ConventionalIsSeparated(key: Text)
    requires IsConventional(key)
    ensures IsSeparated(key, IsUpperOrDigit, UNDERSCORE) && IsUpper(key[0])
  {
    forall i | 0 <= i < |key| ensures IsUpperOrDigit(key[i]) || key[i] == UNDERSCORE {
      assert IsUpper(key[i]) || IsDigit(key[i]) || key[i] == 0x5F;
    }
    forall i | 0 < i < |key| ensures !IsDoubled(key, i, UNDERSCORE) {}
  }

  lemma SeparatedIsConventional(key: Text)
    requires IsSeparated(key, IsUpperOrDigit, UNDERSCORE) && IsUpper(key[0])
    ensures IsConventional(key)
  {
    forall i | 0 <= i < |key| ensures IsUpper(key[i]) || IsDigit(key[i]) || key[i] == 0x5F {
      assert IsUpperOrDigit(key[i]) || key[i] == UNDERSCORE;
    }
    forall i | 0 < i < |key| ensures !(key[i - 1] == 0x5F && key[i] == 0x5F) { assert !IsDoubled(key, i, UNDERSCORE); }
  }

  lemma SlugIsSeparated(t: Text)
    requires IsSlug(t)
    ensures IsSeparated(t, IsLowerOrDigit, HYPHEN)
  {
    forall i | 0 <= i < |t| ensures IsLowerOrDigit(t[i]) || t[i] == HYPHEN { assert IsSlugUnit(t[i]); }
    forall i | 0 < i < |t| ensures !IsDoubled(t, i, HYPHEN) {}
  }

  lemma SeparatedIsSlug(t: Text)
    requires IsSeparated(t, IsLowerOrDigit, HYPHEN) && |t| <= 80
    ensures IsSlug(t)
  {
    forall i | 0 <= i < |t| ensures IsSlugUnit(t[i]) { assert IsLowerOrDigit(t[i]) || t[i] == HYPHEN; }
    forall i | 0 < i < |t| ensures !(t[i - 1] == 0x2D && t[i] == 0x2D) { assert !IsDoubled(t, i, HYPHEN); }
  }

  lemma ConventionalIffWords(key: Text)
    ensures IsConventional(key) <==> exists words :: AreConventionalWords(key, words)
  {
    if IsConventional(key) {
      ConventionalIsSeparated(key);
      var words := SeparatedIsJoined(key, IsUpperOrDigit, UNDERSCORE);
      JoinedIsSeparated(words, IsUpperOrDigit, UNDERSCORE);
      assert AreConventionalWords(key, words);
    }
    if words :| AreConventionalWords(key, words) {
      JoinedIsSeparated(words, IsUpperOrDigit, UNDERSCORE);
      SeparatedIsConventional(key);
    }
  }

  predicate AreSlugWords(t: Text, words: seq<Text>) { IsJoined(t, words, IsLowerOrDigit, HYPHEN) }

  /** At most 80 units: lower-case words of letters and digits joined by single hyphens. */
  lemma SlugIffWords(t: Text)
    ensures IsSlug(t) <==> |t| <= 80 && exists words :: AreSlugWords(t, words)
  {
    if IsSlug(t) {
      SlugIsSeparated(t);
      var words := SeparatedIsJoined(t, IsLowerOrDigit, HYPHEN);
      assert AreSlugWords(t, words);
    }
    if words :| AreSlugWords(t, words) {
      JoinedIsSeparated(words, IsLowerOrDigit, HYPHEN);
      if |t| <= 80 {
        SeparatedIsSlug(t);
      }
    }
  }

  // ---- keys and notes ----

  /** White space, controls and equals, unit by unit. */
  predicate IsPlainUnit(u: Unit) { !IsSpace(u) && u != '=' as int && u > 0x1F && u != 0x7F }

  /**
    A key is taken without the white space around it. It is refused as input unless it has 1 to 255 plain units, and for
    the convention unless it is conventional words or the convention is waived.
   */
  lemma KeyIsValidated(before: Text, core: Text, after: Text, waived: bool)
    requires AllSpace(before) && AllSpace(after) && IsTight(core)
    ensures ValidateKey(before + core + after, waived) ==
            if !(1 <= |core| <= 255 && forall i :: 0 <= i < |core| ==> IsPlainUnit(core[i])) then Err(InvalidInput)
            else if !waived && !exists words :: AreConventionalWords(core, words) then Err(KeyConvention)
            else Ok(core)
  {
    TrimOfPadded(before, core, after);
    ConventionalIffWords(core);
    hide Trim, IsConventional, AreConventionalWords;
    assert NoForbidden(core) <==> forall i :: 0 <= i < |core| ==> IsPlainUnit(core[i]);
  }

  /** Notes are kept without the white space around them, blank ones not at all, and more than 4000 units are refused. */
  lemma NotesAreValidated(before: Text, core: Text, after: Text)
    requires AllSpace(before) && AllSpace(after) && IsTight(core)
    ensures ValidateNotes(Some(Some(before + core + after))) ==
            if core == [] then Ok(None) else if |core| > 4000 then Err(InvalidInput) else Ok(Some(core))
    ensures ValidateNotes(None) == Ok(None) && ValidateNotes(Some(None)) == Ok(None)
  {
    TrimOfPadded(before, core, after);
    hide Trim;
  }
}
