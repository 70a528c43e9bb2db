/** The analysis does not depend on the order of its input, and the matrix tells the same story as the findings. */
module ConsistencyProperties {
  import opened Strings
  import opened Consistency

  function Without<T>(s: seq<T>, i: nat): seq<T>
    requires i < |s|
  {
    s[..i] + s[i + 1..]
  }

  function AffectedByOne(s: SecretValue, key: Text): multiset<Id> {
    if s.key == key then multiset{s.environmentId} else multiset{}
  }

  lemma {:induction false} AffectedWithout(active: seq<SecretValue>, key: Text, i: nat)
    requires i < |active|
    ensures Affected(active, key) == Affected(Without(active, i), key) + AffectedByOne(active[i], key)
  {
    var m := |active| - 1;
    assert Affected(active, key) == Affected(active[..m], key) + AffectedByOne(active[m], key);
    if i == m {
      assert Without(active, i) == active[..m];
    } else {
      hide Affected, AffectedByOne;
      AffectedWithout(active[..m], key, i);
      var rest := Without(active[..m], i);
      assert Without(active, i) == rest + [active[m]] && active[..m][i] == active[i];
      AppendedIsAffected(rest, active[m], key);
      SwapLast(Affected(rest, key), AffectedByOne(active[i], key), AffectedByOne(active[m], key));
    }
  }

  lemma AppendedIsAffected(active: seq<SecretValue>, s: SecretValue, key: Text)
    ensures Affected(active + [s], key) == Affected(active, key) + AffectedByOne(s, key)
  {
    AffectedSnoc(active, s, key);
  }

  lemma ValueFindingsSnoc(rules: Rules, active: seq<SecretValue>, s: SecretValue)
    ensures ValueFindings(rules, active + [s]) == ValueFindings(rules, active) + ValueFindingsOf(rules, s)
  {
    hide ValueFindingsOf;
    assert (active + [s])[..|active|] == active;
  }

  lemma ValueFindingsLast(rules: Rules, active: seq<SecretValue>)
    requires active != []
    ensures ValueFindings(rules, active)
         == ValueFindings(rules, active[..|active| - 1]) + ValueFindingsOf(rules, active[|active| - 1])
  {
  }

  lemma {:induction false} ValueFindingsWithout(rules: Rules, active: seq<SecretValue>, i: nat)
    requires i < |active|
    ensures ValueFindings(rules, active) == ValueFindings(rules, Without(active, i)) + ValueFindingsOf(rules, active[i])
  {
    hide ValueFindings, ValueFindingsOf;
    var m := |active| - 1;
    ValueFindingsLast(rules, active);
    if i == m {
      assert Without(active, i) == active[..m];
    } else {
      ValueFindingsWithout(rules, active[..m], i);
      var rest := Without(active[..m], i);
      assert Without(active, i) == rest + [active[m]] && active[..m][i] == active[i];
      ValueFindingsSnoc(rules, rest, active[m]);
      SwapLast(ValueFindings(rules, rest), ValueFindingsOf(rules, active[i]), ValueFindingsOf(rules, active[m]));
    }
  }

  lemma SwapLast<T>(a: multiset<T>, b: multiset<T>, c: multiset<T>)
    ensures a + b + c == a + c + b
  {
  }

  /** A position in t of the last element of s, and the rest is still a rearrangement. */
  lemma LastElsewhere<T>(s: seq<T>, t: seq<T>) returns (i: nat)
    requires s != [] && multiset(s) == multiset(t)
    ensures i < |t| && t[i] == s[|s| - 1] && multiset(s[..|s| - 1]) == multiset(Without(t, i))
  {
    var m := |s| - 1;
    assert s == s[..m] + [s[m]];
    assert s[m] in multiset(s);
    assert s[m] in t;
    i :| 0 <= i < |t| && t[i] == s[m];
    assert t == t[..i] + [t[i]] + t[i + 1..];
    assert multiset(t) == multiset(Without(t, i)) + multiset{t[i]};
    assert multiset(s) == multiset(s[..m]) + multiset{s[m]};
    assert multiset(s[..m]) == multiset(s) - multiset{s[m]};
    assert multiset(Without(t, i)) == multiset(t) - multiset{t[i]};
  }

  lemma {:induction false} SumsAgree(rules: Rules, s: seq<SecretValue>, t: seq<SecretValue>, key: Text)
    requires multiset(s) == multiset(t)
    ensures Affected(s, key) == Affected(t, key) && ValueFindings(rules, s) == ValueFindings(rules, t)
  {
    if s == [] {
      assert |multiset(t)| == 0;
      assert t == [];
    } else {
      var m := |s| - 1;
      var i := LastElsewhere(s, t);
      SumsAgree(rules, s[..m], Without(t, i), key);
      AffectedWithout(t, key, i);
      ValueFindingsWithout(rules, t, i);
    }
  }

  lemma {:induction false} ActiveCounts(envs: set<Id>, secrets: seq<SecretValue>, x: SecretValue)
    ensures multiset(Active(envs, secrets))[x] == if x.environmentId in envs then multiset(secrets)[x] else 0
  {
    if secrets != [] {
      var m := |secrets| - 1;
      ActiveCounts(envs, secrets[..m], x);
      assert secrets == secrets[..m] + [secrets[m]];
    }
  }

  lemma SameMembers(s: seq<SecretValue>, t: seq<SecretValue>)
    requires multiset(s) == multiset(t)
    ensures forall x :: x in s <==> x in t
  {
    assert forall x :: x in s <==> x in multiset(s);
    assert forall x :: x in t <==> x in multiset(t);
  }

  lemma GroupsAgree(rules: Rules, envs: set<Id>, s: seq<SecretValue>, t: seq<SecretValue>, n: Text)
    requires multiset(s) == multiset(t)
    ensures GroupFindings(rules, envs, s, n) == GroupFindings(rules, envs, t, n)
  {
    SameMembers(s, t);
    assert KeysOf(rules, s, n) == KeysOf(rules, t, n) && PresentIn(rules, s, n) == PresentIn(rules, t, n);
    forall key ensures NamingFinding(s, key) == NamingFinding(t, key) { SumsAgree(rules, s, t, key); }
    NamesAgree(s, t, BadNames(rules, s, n));
  }

  lemma NamesAgree(s: seq<SecretValue>, t: seq<SecretValue>, keys: set<Text>)
    requires forall key :: NamingFinding(s, key) == NamingFinding(t, key)
    ensures NamingFindings(s, keys) == NamingFindings(t, keys)
  {
  }

  /** Rearranging the secrets changes no finding. */
  lemma OrderDoesNotMatter(rules: Rules, envs: set<Id>, secrets: seq<SecretValue>, rearranged: seq<SecretValue>)
    requires multiset(secrets) == multiset(rearranged)
    ensures Analysis(rules, envs, secrets) == Analysis(rules, envs, rearranged)
  {
    var s, t := Active(envs, secrets), Active(envs, rearranged);
    assert multiset(s) == multiset(t) by {
      forall x ensures multiset(s)[x] == multiset(t)[x] {
        ActiveCounts(envs, secrets, x);
        ActiveCounts(envs, rearranged, x);
      }
    }
    SameMembers(s, t);
    SumsAgree(rules, s, t, []);
    var ns := NormalKeys(rules, s);
    assert ns == NormalKeys(rules, t);
    assert GroupsFindings(rules, envs, s, ns) == GroupsFindings(rules, envs, t, ns) by {
      forall n ensures GroupFindings(rules, envs, s, n) == GroupFindings(rules, envs, t, n) {
        GroupsAgree(rules, envs, s, t, n);
      }
      hide GroupFindings;
    }
  }

  // ---- the matrix ----

  datatype CellState = Present | Missing | Empty

  /** emptyCells: normalized key and environment of each empty_value finding. */
  function EmptyCells(rules: Rules, findings: seq<Finding>): set<(Text, Id)> {
    set f, e | f in findings && f.kind == EmptyValue && e in f.environmentIds :: (rules.upper(f.key), e)
  }

  /** The cell of a normalized key and an environment. */
  function Cell(rules: Rules, secrets: seq<SecretValue>, findings: seq<Finding>, n: Text, e: Id): CellState {
    if !exists s :: s in secrets && rules.upper(s.key) == n && s.environmentId == e then Missing
    else if (n, e) in EmptyCells(rules, findings) then Empty
    else Present
  }

  ghost predicate ReportedMissing(findings: seq<Finding>, n: Text, e: Id) {
    exists f :: f in findings && f.kind == MissingKey && f.key == n && e in f.missing
  }

  /** Some case variant of the key has a blank value there. */
  ghost predicate BlankVariant(rules: Rules, secrets: seq<SecretValue>, n: Text, e: Id) {
    exists s :: s in secrets && rules.upper(s.key) == n && s.environmentId == e && Trim(s.value) == []
  }

  lemma {:induction false} ValueFindingsMembers(rules: Rules, active: seq<SecretValue>, f: Finding)
    ensures f in ValueFindings(rules, active) <==> exists s :: s in active && f in ValueFindingsOf(rules, s)
  {
    hide ValueFindingsOf;
    if active == [] {
    } else {
      var m := |active| - 1;
      ValueFindingsLast(rules, active);
      hide ValueFindings;
      ValueFindingsMembers(rules, active[..m], f);
      assert active == active[..m] + [active[m]];
    }
  }

  lemma AnalysisMembers(rules: Rules, envs: set<Id>, secrets: seq<SecretValue>, findings: seq<Finding>, f: Finding)
    requires multiset(findings) == Analysis(rules, envs, secrets)
    ensures var active := Active(envs, secrets);
            f in findings <==>
              f in GroupsFindings(rules, envs, active, NormalKeys(rules, active)) || f in ValueFindings(rules, active)
  {
    assert f in findings <==> f in multiset(findings);
  }

  lemma EmptyCellsAreBlank(rules: Rules, envs: set<Id>, secrets: seq<SecretValue>, findings: seq<Finding>, n: Text, e: Id)
    requires multiset(findings) == Analysis(rules, envs, secrets)
    ensures (n, e) in EmptyCells(rules, findings) <==> BlankVariant(rules, Active(envs, secrets), n, e)
  {
    var active := Active(envs, secrets);
    if (n, e) in EmptyCells(rules, findings) {
      var f :| f in findings && f.kind == EmptyValue && e in f.environmentIds && rules.upper(f.key) == n;
      AnalysisMembers(rules, envs, secrets, findings, f);
      ValueFindingsMembers(rules, active, f);
      GroupKinds(rules, envs, active, f);
      var s :| s in active && f in ValueFindingsOf(rules, s);
    }
    if BlankVariant(rules, active, n, e) {
      var s :| s in active && rules.upper(s.key) == n && s.environmentId == e && Trim(s.value) == [];
      var f := ValueFinding(EmptyValue, s);
      assert f in ValueFindingsOf(rules, s);
      ValueFindingsMembers(rules, active, f);
      AnalysisMembers(rules, envs, secrets, findings, f);
    }
  }

  lemma GroupKinds(rules: Rules, envs: set<Id>, active: seq<SecretValue>, f: Finding)
    ensures f in GroupsFindings(rules, envs, active, NormalKeys(rules, active)) ==>
              f.kind != EmptyValue && f.kind != PlaceholderValue
  {
  }

  lemma ReportedIsAbsent(rules: Rules, envs: set<Id>, active: seq<SecretValue>, f: Finding)
    requires f in GroupsFindings(rules, envs, active, NormalKeys(rules, active)) && f.kind == MissingKey
    ensures f == MissingFinding(rules, envs, active, f.key)
  {
    var m :| m in NormalKeys(rules, active) && f in GroupFindings(rules, envs, active, m);
  }

  lemma NoValueFindingIsMissing(rules: Rules, active: seq<SecretValue>, f: Finding)
    requires f in ValueFindings(rules, active)
    ensures f.kind != MissingKey
  {
    ValueFindingsMembers(rules, active, f);
  }

  lemma MissingIsReported(rules: Rules, envs: set<Id>, secrets: seq<SecretValue>, findings: seq<Finding>, n: Text, e: Id)
    requires multiset(findings) == Analysis(rules, envs, secrets) && e in envs
    requires n in NormalKeys(rules, Active(envs, secrets))
    ensures ReportedMissing(findings, n, e) <==> e !in PresentIn(rules, Active(envs, secrets), n)
  {
    hide Analysis, GroupsFindings, ValueFindings, PresentIn;
    var active := Active(envs, secrets);
    if ReportedMissing(findings, n, e) {
      var f :| f in findings && f.kind == MissingKey && f.key == n && e in f.missing;
      AnalysisMembers(rules, envs, secrets, findings, f);
      if f in ValueFindings(rules, active) {
        NoValueFindingIsMissing(rules, active, f);
      }
      ReportedIsAbsent(rules, envs, active, f);
    }
    if e !in PresentIn(rules, active, n) {
      var f := MissingFinding(rules, envs, active, n);
      assert e in envs - PresentIn(rules, active, n);
      FindingOfGroup(rules, envs, active, n, f);
      AnalysisMembers(rules, envs, secrets, findings, f);
    }
  }

  lemma FindingOfGroup(rules: Rules, envs: set<Id>, active: seq<SecretValue>, n: Text, f: Finding)
    requires n in NormalKeys(rules, active) && f in GroupFindings(rules, envs, active, n)
    ensures f in GroupsFindings(rules, envs, active, NormalKeys(rules, active))
  {
  }

  /**
    A cell is missing exactly when its environment is among those the key's missing_key finding names, and empty
    exactly when some case variant of the key has an empty_value finding there.
   */
  lemma MatrixAgreesWithFindings(
    rules: Rules, envs: set<Id>, secrets: seq<SecretValue>, findings: seq<Finding>, n: Text, e: Id)
    requires multiset(findings) == Analysis(rules, envs, secrets)
    requires e in envs && n in NormalKeys(rules, Active(envs, secrets))
    ensures var cell := Cell(rules, Active(envs, secrets), findings, n, e);
            && (cell == Missing <==> ReportedMissing(findings, n, e))
            && (cell == Empty <==> BlankVariant(rules, Active(envs, secrets), n, e))
  {
    var active := Active(envs, secrets);
    EmptyCellsAreBlank(rules, envs, secrets, findings, n, e);
    MissingIsReported(rules, envs, secrets, findings, n, e);
    hide Analysis, EmptyCells, ReportedMissing;
    assert e in PresentIn(rules, active, n) <==> exists s :: s in active && rules.upper(s.key) == n && s.environmentId == e;
  }

  // ---- the summary ----

  datatype Disposition = Acknowledged | Ignored | Undecided

  /** The part of #report that counts what is not ignored. */
  function ActiveFindings(findings: seq<Finding>, disposition: Finding -> Disposition): (active: seq<Finding>)
    ensures forall f :: f in active <==> f in findings && disposition(f) != Ignored
  {
    if findings == [] then []
    else
      (if disposition(findings[0]) != Ignored then [findings[0]] else []) + ActiveFindings(findings[1..], disposition)
  }

  function CountOf(findings: seq<Finding>, severity: Severity): (n: nat)
    ensures n <= |findings|
  {
    if findings == [] then 0
    else (if findings[0].severity == severity then 1 else 0) + CountOf(findings[1..], severity)
  }

  /** The report is healthy exactly when every finding is ignored, and its errors and warnings are all that is active. */
  lemma {:induction false} SummaryAddsUp(findings: seq<Finding>, disposition: Finding -> Disposition)
    ensures var active := ActiveFindings(findings, disposition);
            && (active == [] <==> forall f :: f in findings ==> disposition(f) == Ignored)
            && CountOf(active, Error) + CountOf(active, Warning) == |active|
  {
    var active := ActiveFindings(findings, disposition);
    if active != [] {
      assert active[0] in active;
    }
    SeveritiesPartition(active);
  }

  lemma {:induction false} SeveritiesPartition(findings: seq<Finding>)
    ensures CountOf(findings, Error) + CountOf(findings, Warning) == |findings|
  {
    if findings != [] {
      SeveritiesPartition(findings[1..]);
    }
  }
}
