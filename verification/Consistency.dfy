/** The consistency analysis of packages/consistency and its matrix. A sorted list is stated as the multiset it sorts. */
module Consistency {
  import opened Strings
  import Operations

  type Id = nat

  /**
    Library functions the analysis calls: toUpperCase, the placeholder pattern on trimmed values, and whether
    localeCompare puts one key before another.
   */
  datatype Rules = Rules(upper: Text -> Text, placeholder: Text -> bool, before: (Text, Text) -> bool)

  /** What sorting by a comparison takes for granted. */
  ghost predicate IsOrder(rules: Rules) {
    && (forall a :: !rules.before(a, a))
    && forall a, b, c :: rules.before(a, b) && rules.before(b, c) ==> rules.before(a, c)
  }

  datatype SecretValue = SecretValue(secretId: Id, environmentId: Id, key: Text, value: Text)

  datatype FindingType = MissingKey | EmptyValue | PlaceholderValue | NamingViolation | CaseDuplicate

  datatype Severity = Warning | Error

  /** The id of a finding is a hash of the project and of fields below. */
  datatype Finding = Finding(
    kind: FindingType, severity: Severity, key: Text, keys: set<Text>, environmentIds: multiset<Id>, missing: set<Id>)

  // ---- what the findings are ----

  function Active(envs: set<Id>, secrets: seq<SecretValue>): (active: seq<SecretValue>)
    ensures forall s :: s in active <==> s in secrets && s.environmentId in envs
  {
    if secrets == [] then []
    else
      var n := |secrets| - 1;
      assert secrets == secrets[..n] + [secrets[n]];
      Active(envs, secrets[..n]) + if secrets[n].environmentId in envs then [secrets[n]] else []
  }

  /** The distinct keys, and the environments, of the group of a normalized key. */
  function KeysOf(rules: Rules, active: seq<SecretValue>, n: Text): set<Text> {
    set s | s in active && rules.upper(s.key) == n :: s.key
  }

  function PresentIn(rules: Rules, active: seq<SecretValue>, n: Text): set<Id> {
    set s | s in active && rules.upper(s.key) == n :: s.environmentId
  }

  /** The environments of the secrets with exactly this key, with repetition. */
  function Affected(active: seq<SecretValue>, key: Text): multiset<Id> {
    if active == [] then multiset{}
    else
      var n := |active| - 1;
      Affected(active[..n], key) + if active[n].key == key then multiset{active[n].environmentId} else multiset{}
  }

  function NormalKeys(rules: Rules, active: seq<SecretValue>): set<Text> { set s | s in active :: rules.upper(s.key) }

  function MissingFinding(rules: Rules, envs: set<Id>, active: seq<SecretValue>, n: Text): Finding {
    var present := PresentIn(rules, active, n);
    Finding(MissingKey, Error, n, KeysOf(rules, active, n), multiset(present), envs - present)
  }

  function DuplicateFinding(rules: Rules, active: seq<SecretValue>, n: Text): Finding {
    Finding(CaseDuplicate, Error, n, KeysOf(rules, active, n), multiset(PresentIn(rules, active, n)), {})
  }

  function NamingFinding(active: seq<SecretValue>, key: Text): Finding {
    Finding(NamingViolation, Warning, key, {key}, Affected(active, key), {})
  }

  function BadNames(rules: Rules, active: seq<SecretValue>, n: Text): set<Text> {
    set key | key in KeysOf(rules, active, n) && !Operations.IsConventional(key)
  }

  /** The naming findings of some keys of a group. */
  function NamingFindings(active: seq<SecretValue>, keys: set<Text>): set<Finding> {
    set key | key in keys :: NamingFinding(active, key)
  }

  function GroupFindings(rules: Rules, envs: set<Id>, active: seq<SecretValue>, n: Text): set<Finding> {
    (if envs - PresentIn(rules, active, n) != {} then {MissingFinding(rules, envs, active, n)} else {})
    + (if |KeysOf(rules, active, n)| > 1 then {DuplicateFinding(rules, active, n)} else {})
    + NamingFindings(active, BadNames(rules, active, n))
  }

  function GroupsFindings(rules: Rules, envs: set<Id>, active: seq<SecretValue>, ns: set<Text>): set<Finding> {
    set n, f | n in ns && f in GroupFindings(rules, envs, active, n) :: f
  }

  function ValueFinding(kind: FindingType, s: SecretValue): Finding {
    Finding(kind, if kind == EmptyValue then Error else Warning, s.key, {s.key}, multiset{s.environmentId}, {})
  }

  function ValueFindingsOf(rules: Rules, s: SecretValue): multiset<Finding> {
    if Trim(s.value) == [] then multiset{ValueFinding(EmptyValue, s)}
    else if rules.placeholder(Trim(s.value)) then multiset{ValueFinding(PlaceholderValue, s)}
    else multiset{}
  }

  function ValueFindings(rules: Rules, active: seq<SecretValue>): multiset<Finding> {
    if active == [] then multiset{}
    else ValueFindings(rules, active[..|active| - 1]) + ValueFindingsOf(rules, active[|active| - 1])
  }

  /** All findings, with multiplicity. */
  function Analysis(rules: Rules, envs: set<Id>, secrets: seq<SecretValue>): multiset<Finding> {
    var active := Active(envs, secrets);
    multiset(GroupsFindings(rules, envs, active, NormalKeys(rules, active))) + ValueFindings(rules, active)
  }

  // ---- the loops ----

  /** byNormalizedKey. */
  ghost predicate IsGrouping(rules: Rules, groups: map<Text, seq<SecretValue>>, active: seq<SecretValue>) {
    && groups.Keys == NormalKeys(rules, active)
    && forall n :: n in groups ==> groups[n] == Group(rules, active, n)
  }

  function Group(rules: Rules, active: seq<SecretValue>, n: Text): seq<SecretValue> {
    if active == [] then []
    else
      var m := |active| - 1;
      Group(rules, active[..m], n) + if rules.upper(active[m].key) == n then [active[m]] else []
  }

  lemma {:induction false} GroupMembers(rules: Rules, active: seq<SecretValue>, n: Text)
    ensures forall s :: s in Group(rules, active, n) <==> s in active && rules.upper(s.key) == n
  {
    if active != [] {
      var m := |active| - 1;
      GroupMembers(rules, active[..m], n);
      assert active == active[..m] + [active[m]];
    }
  }

  function AddToGroup(rules: Rules, groups: map<Text, seq<SecretValue>>, s: SecretValue): map<Text, seq<SecretValue>> {
    var n := rules.upper(s.key);
    groups[n := (if n in groups then groups[n] else []) + [s]]
  }

  lemma GroupSnoc(rules: Rules, active: seq<SecretValue>, s: SecretValue, n: Text)
    ensures Group(rules, active + [s], n)
         == Group(rules, active, n) + if rules.upper(s.key) == n then [s] else []
    ensures NormalKeys(rules, active + [s]) == NormalKeys(rules, active) + {rules.upper(s.key)}
  {
    assert (active + [s])[..|active|] == active;
  }

  lemma GroupingSnoc(rules: Rules, groups: map<Text, seq<SecretValue>>, active: seq<SecretValue>, s: SecretValue)
    requires IsGrouping(rules, groups, active)
    ensures IsGrouping(rules, AddToGroup(rules, groups, s), active + [s])
  {
    hide Group, NormalKeys;
    var n, after := rules.upper(s.key), AddToGroup(rules, groups, s);
    GroupSnoc(rules, active, s, n);
    if n !in groups {
      NoGroup(rules, active, n);
    }
    forall m | m in after ensures after[m] == Group(rules, active + [s], m) {
      GroupSnoc(rules, active, s, m);
    }
  }

  lemma NoGroup(rules: Rules, active: seq<SecretValue>, n: Text)
    ensures Group(rules, active, n) != [] ==> n in NormalKeys(rules, active)
  {
    GroupMembers(rules, active, n);
    if Group(rules, active, n) != [] {
      var s := Group(rules, active, n)[0];
      assert s in Group(rules, active, n);
    }
  }

  method GroupByKey(rules: Rules, envs: set<Id>, secrets: seq<SecretValue>)
    returns (active: seq<SecretValue>, groups: map<Text, seq<SecretValue>>)
    ensures active == Active(envs, secrets) && IsGrouping(rules, groups, active)
  {
    active, groups := [], map[];
    for i := 0 to |secrets|
      invariant active == Active(envs, secrets[..i]) && IsGrouping(rules, groups, active)
    {
      hide IsGrouping;
      assert secrets[..i + 1][..i] == secrets[..i];
      if secrets[i].environmentId in envs {
        GroupingSnoc(rules, groups, active, secrets[i]);
        groups := AddToGroup(rules, groups, secrets[i]);
        active := active + [secrets[i]];
      }
    }
    assert secrets[..|secrets|] == secrets;
  }

  // ---- one group ----

  /** affected: the environments of the group's secrets with exactly this key. */
  method AffectedBy(group: seq<SecretValue>, key: Text) returns (affected: multiset<Id>)
    ensures affected == Affected(group, key)
  {
    affected := multiset{};
    for i := 0 to |group|
      invariant affected == Affected(group[..i], key)
    {
      assert group[..i + 1][..i] == group[..i];
      if group[i].key == key {
        affected := affected + multiset{group[i].environmentId};
      }
    }
    assert group[..|group|] == group;
  }

  lemma AffectedSnoc(active: seq<SecretValue>, s: SecretValue, key: Text)
    ensures Affected(active + [s], key)
         == Affected(active, key) + if s.key == key then multiset{s.environmentId} else multiset{}
  {
    assert (active + [s])[..|active|] == active;
  }

  /** A key's secrets are all in its group. */
  lemma {:induction false} AffectedInGroup(rules: Rules, active: seq<SecretValue>, key: Text)
    ensures Affected(Group(rules, active, rules.upper(key)), key) == Affected(active, key)
  {
    if active != [] {
      var m := |active| - 1;
      AffectedInGroup(rules, active[..m], key);
      var before := Group(rules, active[..m], rules.upper(key));
      AffectedSnoc(before, active[m], key);
      assert before + [] == before;
    }
  }

  method NamingLoop(rules: Rules, ghost active: seq<SecretValue>, n: Text, group: seq<SecretValue>, bad: set<Text>)
    returns (findings: seq<Finding>)
    requires group == Group(rules, active, n) && forall key :: key in bad ==> rules.upper(key) == n
    ensures multiset(findings) == multiset(NamingFindings(active, bad))
  {
    findings := [];
    var todo := bad;
    ghost var done: set<Text> := {};
    while todo != {}
      invariant todo == bad - done && done <= bad
      invariant multiset(findings) == multiset(NamingFindings(active, done))
      decreases |todo|
    {
      var key :| key in todo;
      AffectedInGroup(rules, active, key);
      var affected := AffectedBy(group, key);
      findings := findings + [Finding(NamingViolation, Warning, key, {key}, affected, {})];
      NamingSnoc(active, done, key);
      todo, done := todo - {key}, done + {key};
    }
    assert done == bad;
  }

  lemma NamingSnoc(active: seq<SecretValue>, keys: set<Text>, key: Text)
    requires key !in keys
    ensures multiset(NamingFindings(active, keys + {key}))
         == multiset(NamingFindings(active, keys)) + multiset{NamingFinding(active, key)}
  {
    assert NamingFindings(active, keys + {key}) == NamingFindings(active, keys) + {NamingFinding(active, key)};
    assert NamingFinding(active, key) !in NamingFindings(active, keys);
  }

  method FindInGroup(rules: Rules, envs: set<Id>, ghost active: seq<SecretValue>, n: Text, group: seq<SecretValue>)
    returns (findings: seq<Finding>)
    requires group == Group(rules, active, n)
    ensures multiset(findings) == multiset(GroupFindings(rules, envs, active, n))
  {
    var keys := set s | s in group :: s.key;
    var present := set s | s in group :: s.environmentId;
    GroupMembers(rules, active, n);
    assert keys == KeysOf(rules, active, n) && present == PresentIn(rules, active, n);
    var missing := envs - present;
    var first, second := [], [];
    if missing != {} {
      first := [Finding(MissingKey, Error, n, keys, multiset(present), missing)];
    }
    if |keys| > 1 {
      second := [Finding(CaseDuplicate, Error, n, keys, multiset(present), {})];
    }
    var bad := set key | key in keys && !Operations.IsConventional(key);
    var third := NamingLoop(rules, active, n, group, bad);
    GroupAddsUp(rules, envs, active, n);
    findings := first + second + third;
  }

  function WhenMissing(rules: Rules, envs: set<Id>, active: seq<SecretValue>, n: Text): multiset<Finding> {
    if envs - PresentIn(rules, active, n) != {} then multiset{MissingFinding(rules, envs, active, n)} else multiset{}
  }

  function WhenDuplicate(rules: Rules, active: seq<SecretValue>, n: Text): multiset<Finding> {
    if |KeysOf(rules, active, n)| > 1 then multiset{DuplicateFinding(rules, active, n)} else multiset{}
  }

  /** The three kinds of findings of a group never coincide. */
  lemma GroupAddsUp(rules: Rules, envs: set<Id>, active: seq<SecretValue>, n: Text)
    ensures multiset(GroupFindings(rules, envs, active, n))
         == WhenMissing(rules, envs, active, n) + WhenDuplicate(rules, active, n)
            + multiset(NamingFindings(active, BadNames(rules, active, n)))
  {
    var names := NamingFindings(active, BadNames(rules, active, n));
    assert forall f :: f in names ==> f.kind == NamingViolation;
    assert GroupFindings(rules, envs, active, n)
        == (if envs - PresentIn(rules, active, n) != {} then {MissingFinding(rules, envs, active, n)} else {})
           + (if |KeysOf(rules, active, n)| > 1 then {DuplicateFinding(rules, active, n)} else {}) + names;
  }

  // ---- all of them ----

  method FindInGroups(rules: Rules, envs: set<Id>, ghost active: seq<SecretValue>, groups: map<Text, seq<SecretValue>>)
    returns (findings: seq<Finding>)
    requires IsGrouping(rules, groups, active)
    ensures multiset(findings) == multiset(GroupsFindings(rules, envs, active, NormalKeys(rules, active)))
  {
    hide GroupsFindings, GroupFindings, Group, NormalKeys;
    findings := [];
    var todo := groups.Keys;
    ghost var done: set<Text> := {};
    NoGroups(rules, envs, active);
    while todo != {}
      invariant todo == groups.Keys - done && done <= groups.Keys
      invariant multiset(findings) == multiset(GroupsFindings(rules, envs, active, done))
      decreases |todo|
    {
      var n :| n in todo;
      var found := FindInGroup(rules, envs, active, n, groups[n]);
      findings := findings + found;
      GroupsSnoc(rules, envs, active, done, n);
      todo, done := todo - {n}, done + {n};
    }
    assert done == groups.Keys;
  }

  lemma NoGroups(rules: Rules, envs: set<Id>, active: seq<SecretValue>)
    ensures GroupsFindings(rules, envs, active, {}) == {}
  {
  }

  /** Findings of different groups differ. */
  lemma GroupsSnoc(rules: Rules, envs: set<Id>, active: seq<SecretValue>, ns: set<Text>, n: Text)
    requires n !in ns
    ensures multiset(GroupsFindings(rules, envs, active, ns + {n}))
         == multiset(GroupsFindings(rules, envs, active, ns)) + multiset(GroupFindings(rules, envs, active, n))
  {
    hide GroupFindings;
    var before, here := GroupsFindings(rules, envs, active, ns), GroupFindings(rules, envs, active, n);
    forall f | f in here ensures f !in before {
      if f in before {
        var m :| m in ns && f in GroupFindings(rules, envs, active, m);
        FindingNamesGroup(rules, envs, active, n, f);
        FindingNamesGroup(rules, envs, active, m, f);
      }
    }
    assert GroupsFindings(rules, envs, active, ns + {n}) == before + here;
  }

  lemma FindingNamesGroup(rules: Rules, envs: set<Id>, active: seq<SecretValue>, n: Text, f: Finding)
    requires f in GroupFindings(rules, envs, active, n)
    ensures n == if f.kind == NamingViolation then rules.upper(f.key) else f.key
  {
  }

  method FindInValues(rules: Rules, active: seq<SecretValue>) returns (findings: seq<Finding>)
    ensures multiset(findings) == ValueFindings(rules, active)
  {
    findings := [];
    for i := 0 to |active|
      invariant multiset(findings) == ValueFindings(rules, active[..i])
    {
      assert active[..i + 1][..i] == active[..i];
      var s := active[i];
      if Trim(s.value) == [] {
        findings := findings + [Finding(EmptyValue, Error, s.key, {s.key}, multiset{s.environmentId}, {})];
      } else if rules.placeholder(Trim(s.value)) {
        findings := findings + [Finding(PlaceholderValue, Warning, s.key, {s.key}, multiset{s.environmentId}, {})];
      }
    }
    assert active[..|active|] == active;
  }

  function Ids(environments: seq<Id>): set<Id> { set e | e in environments }

  /** analyzeConsistency, before its final sort. */
  method AnalyzeConsistency(rules: Rules, environments: seq<Id>,
        secrets: seq<SecretValue>) returns (findings: seq<Finding>)
    ensures multiset(findings) == Analysis(rules, Ids(environments), secrets)
  {
    var envs := Ids(environments);
    var active, groups := GroupByKey(rules, envs, secrets);
    var first := FindInGroups(rules, envs, active, groups);
    var second := FindInValues(rules, active);
    findings := first + second;
  }
}
