/** Exactly which findings a project gets, told from its secrets and environments alone. */
module ConsistencyLaws {
  import opened Strings
  import Operations
  import opened InputLaws
  import opened Consistency
  import opened ConsistencyProperties

  /** A secret of an environment of the project, with this key. */
  predicate HasKey(envs: set<Id>, s: SecretValue, key: Text) { s.environmentId in envs && s.key == key }

  /** One whose key is a case variant of n. */
  predicate IsVariant(rules: Rules, envs: set<Id>, s: SecretValue, n: Text) {
    s.environmentId in envs && rules.upper(s.key) == n
  }

  function Spellings(rules: Rules, envs: set<Id>, secrets: seq<SecretValue>, n: Text): set<Text> {
    set s | s in secrets && IsVariant(rules, envs, s, n) :: s.key
  }

  function Places(rules: Rules, envs: set<Id>, secrets: seq<SecretValue>, n: Text): set<Id> {
    set s | s in secrets && IsVariant(rules, envs, s, n) :: s.environmentId
  }

  /** The secrets with exactly this key in an environment, by position. */
  function Holders(secrets: seq<SecretValue>, key: Text, e: Id): set<nat> {
    set i: nat | i < |secrets| && secrets[i].key == key && secrets[i].environmentId == e
  }

  ghost predicate IsConventionalKey(key: Text) { exists words :: AreConventionalWords(key, words) }

  /** A blank value is all white space; a placeholder is one that its tight part matches. */
  predicate HasPlaceholder(rules: Rules, s: SecretValue) { !AllSpace(s.value) && rules.placeholder(Trim(s.value)) }

  /** Two variants of n that are spelt differently. */
  predicate AreTwoSpellings(rules: Rules, envs: set<Id>, secrets: seq<SecretValue>, n: Text, s: SecretValue,
                            t: SecretValue) {
    && s in secrets && t in secrets && s.key != t.key && IsVariant(rules, envs, s, n) && IsVariant(rules, envs, t, n)
  }

  /** What each kind of finding says, and its severity. */
  ghost predicate IsJustified(rules: Rules, envs: set<Id>, secrets: seq<SecretValue>, f: Finding) {
    match f.kind
    case MissingKey =>
      && f.severity == Error && Spellings(rules, envs, secrets, f.key) != {}
      && f.keys == Spellings(rules, envs, secrets, f.key)
      && f.environmentIds == multiset(Places(rules, envs, secrets, f.key))
      && f.missing == envs - Places(rules, envs, secrets, f.key) && f.missing != {}
    case CaseDuplicate =>
      && f.severity == Error
      && (exists s, t :: AreTwoSpellings(rules, envs, secrets, f.key, s, t))
      && f.keys == Spellings(rules, envs, secrets, f.key)
      && f.environmentIds == multiset(Places(rules, envs, secrets, f.key)) && f.missing == {}
    case NamingViolation =>
      && f.severity == Warning && (exists s :: s in secrets && HasKey(envs, s, f.key)) && !IsConventionalKey(f.key)
      && f.keys == {f.key} && f.missing == {}
      && forall e :: f.environmentIds[e] == if e in envs then |Holders(secrets, f.key, e)| else 0
    case EmptyValue =>
      && f.severity == Error && f.keys == {f.key} && f.missing == {}
      && exists s :: s in secrets && HasKey(envs, s, f.key) && AllSpace(s.value)
                     && f.environmentIds == multiset{s.environmentId}
    case PlaceholderValue =>
      && f.severity == Warning && f.keys == {f.key} && f.missing == {}
      && exists s :: s in secrets && HasKey(envs, s, f.key) && HasPlaceholder(rules, s)
                     && f.environmentIds == multiset{s.environmentId}
  }

  // ---- the groups and the values of the analysis in these terms ----

  lemma GroupTerms(rules: Rules, envs: set<Id>, secrets: seq<SecretValue>, n: Text)
    ensures KeysOf(rules, Active(envs, secrets), n) == Spellings(rules, envs, secrets, n)
    ensures PresentIn(rules, Active(envs, secrets), n) == Places(rules, envs, secrets, n)
    ensures n in NormalKeys(rules, Active(envs, secrets)) <==> Spellings(rules, envs, secrets, n) != {}
  {
    var active := Active(envs, secrets);
    assert KeysOf(rules, active, n) == Spellings(rules, envs, secrets, n);
    assert PresentIn(rules, active, n) == Places(rules, envs, secrets, n);
    if s :| s in active && rules.upper(s.key) == n {
      assert s.key in Spellings(rules, envs, secrets, n);
    }
  }

  lemma {:induction false} AffectedIsHolders(envs: set<Id>, secrets: seq<SecretValue>, key: Text, e: Id)
    ensures Affected(Active(envs, secrets), key)[e] == if e in envs then |Holders(secrets, key, e)| else 0
  {
    if secrets == [] {
      assert Holders(secrets, key, e) == {};
    } else {
      var n := |secrets| - 1;
      var before, s := secrets[..n], secrets[n];
      AffectedIsHolders(envs, before, key, e);
      HoldersSnoc(secrets, key, e);
      hide Holders;
      if s.environmentId in envs {
        var active := Active(envs, before) + [s];
        assert Active(envs, secrets) == active && active[..|active| - 1] == Active(envs, before);
      } else {
        assert Active(envs, secrets) == Active(envs, before);
      }
    }
  }

  lemma HoldersSnoc(secrets: seq<SecretValue>, key: Text, e: Id)
    requires secrets != []
    ensures var n := |secrets| - 1;
            |Holders(secrets, key, e)|
            == |Holders(secrets[..n], key, e)|
               + if secrets[n].key == key && secrets[n].environmentId == e then 1 else 0
  {
    var n := |secrets| - 1;
    assert Holders(secrets, key, e)
        == Holders(secrets[..n], key, e)
           + if secrets[n].key == key && secrets[n].environmentId == e then {n} else {};
  }

  lemma {:induction false} Pair(keys: set<Text>) returns (a: Text, b: Text)
    requires |keys| > 1
    ensures a in keys && b in keys && a != b
  {
    a :| a in keys;
    assert |keys - {a}| == |keys| - 1;
    b :| b in keys - {a};
  }

  lemma TwoOrMore(keys: set<Text>, a: Text, b: Text)
    requires a in keys && b in keys && a != b
    ensures |keys| > 1
  {
    assert {a, b} <= keys && |keys - {a, b}| == |keys| - 2;
  }

  lemma DuplicatesAreTwo(rules: Rules, envs: set<Id>, secrets: seq<SecretValue>, n: Text)
    ensures |Spellings(rules, envs, secrets, n)| > 1 <==>
              exists s, t :: AreTwoSpellings(rules, envs, secrets, n, s, t)
  {
    var keys := Spellings(rules, envs, secrets, n);
    if |keys| > 1 {
      var a, b := Pair(keys);
      var s :| s in secrets && IsVariant(rules, envs, s, n) && s.key == a;
      var t :| t in secrets && IsVariant(rules, envs, t, n) && t.key == b;
      assert AreTwoSpellings(rules, envs, secrets, n, s, t);
    }
    if s, t :| AreTwoSpellings(rules, envs, secrets, n, s, t) {
      TwoOrMore(keys, s.key, t.key);
    }
  }

  lemma BlankIsAllSpace(t: Text)
    ensures Trim(t) == [] <==> AllSpace(t)
  {
    var before, core, after := PaddedForm(t);
    TrimOfPadded(before, core, after);
    if core == [] {
      assert AllSpace(t);
    } else {
      assert t[|before|] == core[0];
    }
  }

  // ---- each kind ----

  ghost predicate IsGroupFinding(rules: Rules, envs: set<Id>, secrets: seq<SecretValue>, f: Finding) {
    f in GroupsFindings(rules, envs, Active(envs, secrets), NormalKeys(rules, Active(envs, secrets)))
  }

  lemma MissingIff(rules: Rules, envs: set<Id>, secrets: seq<SecretValue>, f: Finding)
    requires f.kind == MissingKey
    ensures IsGroupFinding(rules, envs, secrets, f) <==> IsJustified(rules, envs, secrets, f)
  {
    hide NormalKeys, Spellings, Places;
    GroupTerms(rules, envs, secrets, f.key);
    GroupFindingIff(rules, envs, secrets, f);
    hide KeysOf, PresentIn;
  }

  lemma DuplicateIff(rules: Rules, envs: set<Id>, secrets: seq<SecretValue>, f: Finding)
    requires f.kind == CaseDuplicate
    ensures IsGroupFinding(rules, envs, secrets, f) <==> IsJustified(rules, envs, secrets, f)
  {
    hide NormalKeys, Spellings, Places, AreTwoSpellings;
    GroupTerms(rules, envs, secrets, f.key);
    DuplicatesAreTwo(rules, envs, secrets, f.key);
    GroupFindingIff(rules, envs, secrets, f);
    hide KeysOf, PresentIn;
  }

  /** The one finding of its kind that a group of case variants can have. */
  lemma GroupFindingIff(rules: Rules, envs: set<Id>, secrets: seq<SecretValue>, f: Finding)
    requires f.kind == MissingKey || f.kind == CaseDuplicate
    ensures var active := Active(envs, secrets);
            IsGroupFinding(rules, envs, secrets, f) <==>
              && f.key in NormalKeys(rules, active)
              && if f.kind == MissingKey then
                   f == MissingFinding(rules, envs, active, f.key) && envs - PresentIn(rules, active, f.key) != {}
                 else f == DuplicateFinding(rules, active, f.key) && |KeysOf(rules, active, f.key)| > 1
  {
    hide KeysOf, PresentIn, NormalKeys, BadNames;
    var active := Active(envs, secrets);
    if IsGroupFinding(rules, envs, secrets, f) {
      var m :| m in NormalKeys(rules, active) && f in GroupFindings(rules, envs, active, m);
      assert m == f.key;
    }
    if f.key in NormalKeys(rules, active) && f in GroupFindings(rules, envs, active, f.key) {
      FindingOfGroup(rules, envs, active, f.key, f);
    }
  }

  lemma NamingIff(rules: Rules, envs: set<Id>, secrets: seq<SecretValue>, f: Finding)
    requires f.kind == NamingViolation
    ensures IsGroupFinding(rules, envs, secrets, f) <==> IsJustified(rules, envs, secrets, f)
  {
    if IsGroupFinding(rules, envs, secrets, f) {
      NamingIsJustified(rules, envs, secrets, f);
    }
    if IsJustified(rules, envs, secrets, f) {
      JustifiedNaming(rules, envs, secrets, f);
    }
    hide IsGroupFinding, IsJustified;
  }

  lemma NamingIsJustified(rules: Rules, envs: set<Id>, secrets: seq<SecretValue>, f: Finding)
    requires f.kind == NamingViolation && IsGroupFinding(rules, envs, secrets, f)
    ensures IsJustified(rules, envs, secrets, f)
  {
    FoundNaming(rules, envs, secrets, f);
    hide *;
    ConventionalIffWords(f.key);
    forall e ensures f.environmentIds[e] == if e in envs then |Holders(secrets, f.key, e)| else 0 {
      AffectedIsHolders(envs, secrets, f.key, e);
    }
    NamingParts(rules, envs, secrets, f);
  }

  lemma FoundNaming(rules: Rules, envs: set<Id>, secrets: seq<SecretValue>, f: Finding)
    requires f.kind == NamingViolation && IsGroupFinding(rules, envs, secrets, f)
    ensures f.severity == Warning && f.keys == {f.key} && f.missing == {}
    ensures f.environmentIds == Affected(Active(envs, secrets), f.key) && !Operations.IsConventional(f.key)
    ensures exists s :: s in secrets && HasKey(envs, s, f.key)
  {
    hide Affected, Holders, Operations.IsConventional, PresentIn, NormalKeys;
    var active := Active(envs, secrets);
    var m :| m in NormalKeys(rules, active) && f in GroupFindings(rules, envs, active, m);
    assert f == NamingFinding(active, f.key) && f.key in BadNames(rules, active, m);
    var s :| s in active && s.key == f.key;
    assert HasKey(envs, s, f.key);
  }

  lemma NamingParts(rules: Rules, envs: set<Id>, secrets: seq<SecretValue>, f: Finding)
    requires f.kind == NamingViolation && f.severity == Warning && f.keys == {f.key} && f.missing == {}
    requires (exists s :: s in secrets && HasKey(envs, s, f.key)) && !exists words :: AreConventionalWords(f.key, words)
    requires forall e :: f.environmentIds[e] == if e in envs then |Holders(secrets, f.key, e)| else 0
    ensures IsJustified(rules, envs, secrets, f)
  {
    hide HasKey, Holders, AreConventionalWords;
  }

  lemma JustifiedNaming(rules: Rules, envs: set<Id>, secrets: seq<SecretValue>, f: Finding)
    requires f.kind == NamingViolation && IsJustified(rules, envs, secrets, f)
    ensures IsGroupFinding(rules, envs, secrets, f)
  {
    hide Affected, Holders, AreConventionalWords, Operations.IsConventional, PresentIn, GroupsFindings;
    var active := Active(envs, secrets);
    var s :| s in secrets && HasKey(envs, s, f.key);
    var n := rules.upper(f.key);
    ConventionalIffWords(f.key);
    assert s in active && f.key in BadNames(rules, active, n);
    forall e ensures f.environmentIds[e] == Affected(active, f.key)[e] { AffectedIsHolders(envs, secrets, f.key, e); }
    assert f.environmentIds == Affected(active, f.key);
    assert f == NamingFinding(active, f.key);
    FindingOfGroup(rules, envs, active, n, f);
  }

  lemma ValueIff(rules: Rules, envs: set<Id>, secrets: seq<SecretValue>, f: Finding)
    requires f.kind == EmptyValue || f.kind == PlaceholderValue
    ensures f in ValueFindings(rules, Active(envs, secrets)) <==> IsJustified(rules, envs, secrets, f)
  {
    var active := Active(envs, secrets);
    ValueFindingsMembers(rules, active, f);
    hide ValueFindings, ValueFindingsOf, Trim, IsJustified;
    if f in ValueFindings(rules, active) {
      var s :| s in active && f in ValueFindingsOf(rules, s);
      FoundIsJustified(rules, envs, secrets, s, f);
    }
    if IsJustified(rules, envs, secrets, f) {
      var s := JustifiedIsFound(rules, envs, secrets, f);
    }
  }

  lemma FoundIsJustified(rules: Rules, envs: set<Id>, secrets: seq<SecretValue>, s: SecretValue, f: Finding)
    requires s in secrets && s.environmentId in envs && f in ValueFindingsOf(rules, s)
    ensures IsJustified(rules, envs, secrets, f)
  {
    BlankIsAllSpace(s.value);
    assert HasKey(envs, s, f.key);
    hide Trim, AllSpace;
  }

  lemma JustifiedIsFound(rules: Rules, envs: set<Id>, secrets: seq<SecretValue>, f: Finding) returns (s: SecretValue)
    requires (f.kind == EmptyValue || f.kind == PlaceholderValue) && IsJustified(rules, envs, secrets, f)
    ensures s in Active(envs, secrets) && f in ValueFindingsOf(rules, s)
  {
    hide Trim, AllSpace;
    s :| s in secrets && HasKey(envs, s, f.key) && f.environmentIds == multiset{s.environmentId}
         && if f.kind == EmptyValue then AllSpace(s.value) else HasPlaceholder(rules, s);
    BlankIsAllSpace(s.value);
  }

  lemma KindsArePartitioned(rules: Rules, envs: set<Id>, active: seq<SecretValue>, f: Finding)
    ensures f in ValueFindings(rules, active) ==> f.kind == EmptyValue || f.kind == PlaceholderValue
    ensures f in GroupsFindings(rules, envs, active, NormalKeys(rules, active)) ==>
              f.kind != EmptyValue && f.kind != PlaceholderValue
  {
    GroupKinds(rules, envs, active, f);
    ValueFindingsMembers(rules, active, f);
  }

  /** A finding is reported exactly if the secrets justify it, with that severity, those keys and those environments. */
  lemma ReportedIffJustified(rules: Rules, envs: set<Id>, secrets: seq<SecretValue>, findings: seq<Finding>, f: Finding)
    requires multiset(findings) == Analysis(rules, envs, secrets)
    ensures f in findings <==> IsJustified(rules, envs, secrets, f)
  {
    hide Analysis, IsJustified, GroupsFindings, ValueFindings, NormalKeys;
    AnalysisMembers(rules, envs, secrets, findings, f);
    KindsArePartitioned(rules, envs, Active(envs, secrets), f);
    match f.kind
    case MissingKey => MissingIff(rules, envs, secrets, f);
    case CaseDuplicate => DuplicateIff(rules, envs, secrets, f);
    case NamingViolation => NamingIff(rules, envs, secrets, f);
    case EmptyValue => ValueIff(rules, envs, secrets, f);
    case PlaceholderValue => ValueIff(rules, envs, secrets, f);
  }
}
