/** What the operator writes into a Kubernetes Secret, and what it reads back from one. */
module TargetSecret {
  import opened Wrappers
  import opened Strings
  import opened Decimal

  type Strs = map<Text, Text>

  datatype KubeSecret = KubeSecret(data: Strs, labels: Strs, annotations: Strs, kind: Text)

  datatype Policy = Owner | Merge

  datatype Format = KeyValue | Dotenv | Json | UnknownFormat

  datatype Template = Template(format: Format, key: Text, labels: Strs, annotations: Strs)

  /** An environment behind one API. */
  datatype Source = Source(apiUrl: Text, projectId: Text, environmentId: Text)

  datatype Spec = Spec(source: Source, target: Text, kind: Text, policy: Policy, template: Option<Template>)

  const MANAGED_KEYS := Ascii("himitsu.io/managed-keys")
  const OWNED_BY := Ascii("himitsu.io/owned-by")
  const CONFIG_VERSION := Ascii("himitsu.io/config-version")
  const PROJECT_ID := Ascii("himitsu.io/project-id")
  const ENVIRONMENT_ID := Ascii("himitsu.io/environment-id")
  const MANAGED_BY := Ascii("app.kubernetes.io/managed-by")
  const OPERATOR := Ascii("himitsu-operator")
  const OPAQUE := Ascii("Opaque")

  const MAX_INT64 := 0x7FFF_FFFF_FFFF_FFFF

  // ---- rendering ----

  predicate IsDataUnit(u: Unit) { IsAlpha(u) || IsDigit(u) || u == 0x2D || u == 0x5F || u == 0x2E }

  predicate ValidDataKey(key: Text) {
    && key != [] && key != Ascii(".") && key != Ascii("..")
    && forall i :: 0 <= i < |key| ==> IsDataUnit(key[i])
  }

  /** The document renderers of the Dotenv and Json formats. */
  datatype Documents = Documents(dotenv: Strs -> Text, json: Strs -> Text)

  function FormatOf(spec: Spec): Format { if spec.template == None then KeyValue else spec.template.value.format }

  function DocumentKey(spec: Spec, default: Text): Text {
    if spec.template == None || spec.template.value.key == [] then default else spec.template.value.key
  }

  /** The data for a target, or None when the secrets cannot be rendered. */
  function Render(spec: Spec, secrets: Strs, docs: Documents): Option<Strs> {
    match FormatOf(spec)
    case KeyValue => if forall key | key in secrets :: ValidDataKey(key) then Some(secrets) else None
    case Dotenv => Some(map[DocumentKey(spec, Ascii(".env")) := docs.dotenv(secrets)])
    case Json => Some(map[DocumentKey(spec, Ascii("config.json")) := docs.json(secrets)])
    case UnknownFormat => None
  }

  /** The KeyValue branch: keys are visited in any order, and the first bad one ends the rendering. */
  method RenderKeyValue(secrets: Strs) returns (data: Option<Strs>)
    ensures data == if forall key | key in secrets :: ValidDataKey(key) then Some(secrets) else None
  {
    var copied: Strs, left := map[], secrets.Keys;
    while left != {}
      invariant left <= secrets.Keys && copied.Keys == secrets.Keys - left
      invariant forall key | key in copied :: copied[key] == secrets[key] && ValidDataKey(key)
      decreases |left|
    {
      var key :| key in left;
      if !ValidDataKey(key) {
        return None;
      }
      copied := copied[key := secrets[key]];
      left := left - {key};
    }
    assert copied == secrets;
    return Some(copied);
  }

  // ---- annotations read back ----

  function Annotation(secret: KubeSecret, key: Text): Text {
    if key in secret.annotations then secret.annotations[key] else []
  }

  predicate OwnedBy(secret: KubeSecret, name: Text) {
    Annotation(secret, OWNED_BY) == [] || Annotation(secret, OWNED_BY) == name
  }

  /** strconv.ParseInt in base 10 for 64 bits. */
  function ParseInt(t: Text): Option<int> {
    var signed := t != [] && (t[0] == 0x2B || t[0] == 0x2D);
    var digits := if signed then t[1..] else t;
    if digits == [] || exists i :: 0 <= i < |digits| && !IsDigit(digits[i]) then None
    else
      var n := if signed && t[0] == 0x2D then -(ValueOf(digits) as int) else ValueOf(digits);
      if -MAX_INT64 - 1 <= n <= MAX_INT64 then Some(n) else None
  }

  /** The config version last stamped; anything unreadable counts as 0. */
  function VersionStamp(secret: KubeSecret): int {
    var version := ParseInt(Annotation(secret, CONFIG_VERSION));
    if version == None then 0 else version.value
  }

  function ListedKeys(raw: Text): seq<Text> { if raw == [] then [] else Split(raw, [COMMA]) }

  function PreviouslyManaged(secret: KubeSecret): seq<Text> { ListedKeys(Annotation(secret, MANAGED_KEYS)) }

  /** The part of the data that the annotation says the operator wrote. */
  function Managed(secret: KubeSecret): Strs {
    map key | key in secret.data && key in PreviouslyManaged(secret) :: secret.data[key]
  }

  lemma ParseOfDigits(n: nat)
    ensures ParseInt(Digits(n)) == if n <= MAX_INT64 then Some(n) else None
  {
    hide Digits;
    assert IsDigit(Digits(n)[0]);
    ValueOfDigits(n);
  }

  /** Signs are read, and a number that no 64 bits hold is none. */
  lemma ParseOfSigned(n: nat)
    ensures ParseInt(Ascii("-") + Digits(n)) == if n <= MAX_INT64 + 1 then Some(-(n as int)) else None
    ensures ParseInt(Ascii("+") + Digits(n)) == if n <= MAX_INT64 then Some(n) else None
  {
    hide Digits;
    assert (Ascii("-") + Digits(n))[1..] == Digits(n) && (Ascii("-") + Digits(n))[0] == 0x2D;
    assert (Ascii("+") + Digits(n))[1..] == Digits(n) && (Ascii("+") + Digits(n))[0] == 0x2B;
    ValueOfDigits(n);
  }

  // ---- the write ----

  predicate IsListing(keys: seq<Text>, s: set<Text>) {
    && (forall i, j :: 0 <= i < j < |keys| ==> keys[i] != keys[j])
    && (forall i :: 0 <= i < |keys| ==> keys[i] in s) && forall key | key in s :: key in keys
  }

  function TemplateAnnotations(spec: Spec): Strs {
    if spec.template == None then map[] else spec.template.value.annotations
  }

  function TemplateLabels(spec: Spec): Strs { if spec.template == None then map[] else spec.template.value.labels }

  /** The annotations before the keys are recorded; the template's are merged first. */
  function Annotated(before: Strs, name: Text, spec: Spec, version: nat): Strs {
    (before + TemplateAnnotations(spec))
    [OWNED_BY := name][CONFIG_VERSION := Digits(version)]
    [PROJECT_ID := spec.source.projectId][ENVIRONMENT_ID := spec.source.environmentId]
  }

  function Merged(data: Strs, stale: seq<Text>, rendered: Strs): Strs {
    (map key | key in data && (key !in stale || key in rendered) :: data[key]) + rendered
  }

  function KindAfter(spec: Spec, before: Text): Text {
    if spec.kind != [] then spec.kind else if before == [] then OPAQUE else before
  }

  const Blank := KubeSecret(map[], map[], map[], [])

  /** The Secret that a write produces; managed lists the rendered keys in the order sort.Strings gives. */
  function Written(name: Text, spec: Spec, existing: Option<KubeSecret>, rendered: Strs, managed: seq<Text>,
                   version: nat): KubeSecret {
    var base := if existing == None then Blank else existing.value;
    var annotations := Annotated(base.annotations, name, spec, version);
    var stale := PreviouslyManaged(base.(annotations := annotations));
    KubeSecret(
      if spec.policy == Merge then Merged(base.data, stale, rendered) else rendered,
      (base.labels + TemplateLabels(spec))[MANAGED_BY := OPERATOR],
      annotations[MANAGED_KEYS := Join(managed, [COMMA])],
      KindAfter(spec, base.kind))
  }

  lemma AnnotationNamesDiffer()
    ensures MANAGED_KEYS != OWNED_BY && MANAGED_KEYS != CONFIG_VERSION && MANAGED_KEYS != PROJECT_ID
    ensures MANAGED_KEYS != ENVIRONMENT_ID && OWNED_BY != CONFIG_VERSION && OWNED_BY != PROJECT_ID
    ensures OWNED_BY != ENVIRONMENT_ID && CONFIG_VERSION != PROJECT_ID && CONFIG_VERSION != ENVIRONMENT_ID
  {
    assert MANAGED_KEYS[11] == 'm' as int && OWNED_BY[11] == 'o' as int && CONFIG_VERSION[11] == 'c' as int;
    assert PROJECT_ID[11] == 'p' as int && ENVIRONMENT_ID[11] == 'e' as int;
  }

  /** The key list is read back from its annotation, the empty list included. */
  lemma ListReadsBack(keys: seq<Text>)
    requires forall i :: 0 <= i < |keys| ==> ValidDataKey(keys[i])
    ensures ListedKeys(Join(keys, [COMMA])) == keys
  {
    forall i | 0 <= i < |keys|
      ensures COMMA !in keys[i]
    {
      assert ValidDataKey(keys[i]);
    }
    if keys != [] {
      assert keys[0] != [];
      assert Join(keys, [COMMA]) != [];
      hide Join, Split;
      SplitOfJoin(keys, COMMA);
    }
  }

  /** After a write the managed data is exactly the rendered data, stamped with its version and its owner. */
  lemma WrittenIsManaged(name: Text, spec: Spec, existing: Option<KubeSecret>, rendered: Strs, managed: seq<Text>,
                         version: nat)
    requires IsListing(managed, rendered.Keys) && forall key | key in rendered :: ValidDataKey(key)
    requires version <= MAX_INT64
    ensures var secret := Written(name, spec, existing, rendered, managed, version);
            && PreviouslyManaged(secret) == managed && Managed(secret) == rendered
            && VersionStamp(secret) == version && OwnedBy(secret, name)
            && OWNED_BY in secret.annotations && secret.annotations[OWNED_BY] == name
            && CONFIG_VERSION in secret.annotations && secret.annotations[CONFIG_VERSION] == Digits(version)
  {
    var secret := Written(name, spec, existing, rendered, managed, version);
    hide ValidDataKey, Join, Split, Digits, ParseInt;
    AnnotationNamesDiffer();
    ListReadsBack(managed);
    ParseOfDigits(version);
    assert PreviouslyManaged(secret) == managed;
    assert Managed(secret) == rendered;
  }

  /** Which of its earlier keys a Merge write knows of: the template can replace the list before it is read. */
  function KnownStale(spec: Spec, base: KubeSecret): seq<Text> {
    if MANAGED_KEYS in TemplateAnnotations(spec) then ListedKeys(TemplateAnnotations(spec)[MANAGED_KEYS])
    else PreviouslyManaged(base)
  }

  /** A Merge write, key by key. */
  lemma MergeWritesKey(name: Text, spec: Spec, base: KubeSecret, rendered: Strs, managed: seq<Text>, version: nat,
                       key: Text)
    requires spec.policy == Merge
    ensures var data := Written(name, spec, Some(base), rendered, managed, version).data;
            if key in rendered then key in data && data[key] == rendered[key]
            else if key in KnownStale(spec, base) then key !in data
            else (key in data <==> key in base.data) && (key in data ==> data[key] == base.data[key])
  {
    hide Split, Digits;
    AnnotationNamesDiffer();
    var annotations := Annotated(base.annotations, name, spec, version);
    assert PreviouslyManaged(base.(annotations := annotations)) == KnownStale(spec, base);
  }

  /**
    A Merge write clears every key that was written before and is gone upstream, and keeps every other key, if and
    only if the template leaves the managed-keys annotation alone or lists there, of the keys the target holds and
    the source lacks, exactly the ones written before.
   */
  lemma MergeIsExactIff(name: Text, spec: Spec, base: KubeSecret, rendered: Strs, managed: seq<Text>, version: nat)
    requires spec.policy == Merge
    ensures var data := Written(name, spec, Some(base), rendered, managed, version).data;
            (forall key | key in base.data && key !in rendered ::
               (key in data <==> key !in PreviouslyManaged(base)) && (key in data ==> data[key] == base.data[key]))
            <==>
            (MANAGED_KEYS !in TemplateAnnotations(spec)
             || forall key | key in base.data && key !in rendered ::
                  key in ListedKeys(TemplateAnnotations(spec)[MANAGED_KEYS]) <==> key in PreviouslyManaged(base))
  {
    forall key | key in base.data && key !in rendered
      ensures var data := Written(name, spec, Some(base), rendered, managed, version).data;
              key in data <==> key !in KnownStale(spec, base)
      ensures var data := Written(name, spec, Some(base), rendered, managed, version).data;
              key in data ==> data[key] == base.data[key]
    {
      MergeWritesKey(name, spec, base, rendered, managed, version, key);
    }
    hide Written, PreviouslyManaged, ListedKeys;
  }

  /** Keys that the target holds and the operator has not written are still there with their values. */
  predicate ForeignIsKept(base: KubeSecret, data: Strs) {
    forall key | key in base.data && key !in PreviouslyManaged(base) :: key in data && data[key] == base.data[key]
  }

  /**
    The promise that foreign keys are never touched, exactly: a write keeps it if and only if a foreign key that the
    source also has carries the same value there, and one it lacks is not listed by the template as the operator's.
   */
  lemma ForeignIsKeptIff(name: Text, spec: Spec, base: KubeSecret, rendered: Strs, managed: seq<Text>, version: nat)
    requires spec.policy == Merge
    ensures ForeignIsKept(base, Written(name, spec, Some(base), rendered, managed, version).data)
       <==> forall key | key in base.data && key !in PreviouslyManaged(base) ::
              if key in rendered then rendered[key] == base.data[key] else key !in KnownStale(spec, base)
  {
    forall key | key in base.data && key !in PreviouslyManaged(base)
      ensures var data := Written(name, spec, Some(base), rendered, managed, version).data;
              (key in data && data[key] == base.data[key])
              <==> if key in rendered then rendered[key] == base.data[key] else key !in KnownStale(spec, base)
    {
      MergeWritesKey(name, spec, base, rendered, managed, version, key);
    }
    hide Written, PreviouslyManaged, KnownStale;
  }

  /**
    A foreign key with the name of a secret is overwritten by the first write and, once the secret is gone upstream,
    deleted by the next one, with no template at all.
   */
  lemma CollidingKeyIsLost(name: Text, spec: Spec, base: KubeSecret, key: Text, ours: Text, version: nat, next: nat)
    requires spec.policy == Merge && spec.template == None && ValidDataKey(key)
    requires key in base.data && base.data[key] != ours && key !in PreviouslyManaged(base)
    requires version <= MAX_INT64
    ensures var first := Written(name, spec, Some(base), map[key := ours], [key], version);
            && !ForeignIsKept(base, first.data) && first.data[key] == ours
            && key !in Written(name, spec, Some(first), map[], [], next).data
  {
    var first := Written(name, spec, Some(base), map[key := ours], [key], version);
    MergeWritesKey(name, spec, base, map[key := ours], [key], version, key);
    WrittenIsManaged(name, spec, Some(base), map[key := ours], [key], version);
    hide Written;
    assert key in [key] && KnownStale(spec, first) == [key];
    MergeWritesKey(name, spec, first, map[], [], next, key);
  }

  // ---- any run of Merge writes ----

  /** A sync with its rendered data, or somebody else changing keys that no sync of the run renders. */
  datatype Move = Sync(spec: Spec, rendered: Strs, managed: seq<Text>, version: nat) | Foreign(data: Strs)

  predicate SyncIsValid(move: Move) {
    move.Sync? ==>
      && move.spec.policy == Merge && MANAGED_KEYS !in TemplateAnnotations(move.spec)
      && IsListing(move.managed, move.rendered.Keys) && move.version <= MAX_INT64
      && forall key | key in move.rendered :: ValidDataKey(key)
  }

  function RenderedKeys(moves: seq<Move>): set<Text> {
    if moves == [] then {}
    else RenderedKeys(moves[..|moves| - 1]) + if moves[|moves| - 1].Sync? then moves[|moves| - 1].rendered.Keys else {}
  }

  /** A foreign edit keeps every key in ours, adds and changes other keys freely, and leaves annotations alone. */
  function Edited(secret: KubeSecret, data: Strs, ours: set<Text>): KubeSecret {
    secret.(data := (map key | key in data && key !in ours :: data[key])
                    + (map key | key in secret.data && key in ours :: secret.data[key]))
  }

  function AfterMoves(name: Text, start: KubeSecret, moves: seq<Move>, ours: set<Text>): KubeSecret {
    if moves == [] then start
    else
      var before, move := AfterMoves(name, start, moves[..|moves| - 1], ours), moves[|moves| - 1];
      if move.Sync? then Written(name, move.spec, Some(before), move.rendered, move.managed, move.version)
      else Edited(before, move.data, ours)
  }

  /** The rendered data of the newest sync. */
  function Synced(moves: seq<Move>): Strs {
    if moves == [] then map[]
    else if moves[|moves| - 1].Sync? then moves[|moves| - 1].rendered
    else Synced(moves[..|moves| - 1])
  }

  /** What the others left under a key that no sync renders: their newest edit, or the start. */
  function ForeignView(start: KubeSecret, moves: seq<Move>, ours: set<Text>): Strs {
    if moves == [] then start.data
    else if moves[|moves| - 1].Sync? then ForeignView(start, moves[..|moves| - 1], ours)
    else
      var data := moves[|moves| - 1].data;
      map key | key in data && key !in ours :: data[key]
  }

  /** What the target holds under one key after moves of which some sync has happened. */
  predicate KeyIsRight(data: Strs, synced: Strs, foreign: Strs, ours: set<Text>, key: Text) {
    if key in synced then key in data && data[key] == synced[key]
    else if key in ours then key !in data
    else (key in data <==> key in foreign) && (key in data ==> data[key] == foreign[key])
  }

  /** The state that every prefix of moves leaves. */
  predicate RunIsRight(secret: KubeSecret, synced: Strs, foreign: Strs, ours: set<Text>) {
    && synced.Keys <= ours
    && (forall key | key in synced :: key in PreviouslyManaged(secret))
    && (forall i :: 0 <= i < |PreviouslyManaged(secret)| ==> PreviouslyManaged(secret)[i] in synced)
    && forall key | key in ours + secret.data.Keys + foreign.Keys :: KeyIsRight(secret.data, synced, foreign, ours, key)
  }

  lemma SyncKeepsRight(name: Text, before: KubeSecret, move: Move, synced: Strs, foreign: Strs, ours: set<Text>)
    requires RunIsRight(before, synced, foreign, ours) && foreign.Keys !! ours
    requires move.Sync? && SyncIsValid(move) && move.rendered.Keys <= ours
    ensures RunIsRight(Written(name, move.spec, Some(before), move.rendered, move.managed, move.version), move.rendered,
                       foreign, ours)
  {
    var after := Written(name, move.spec, Some(before), move.rendered, move.managed, move.version);
    WrittenIsManaged(name, move.spec, Some(before), move.rendered, move.managed, move.version);
    forall key | key in ours + after.data.Keys + foreign.Keys
      ensures KeyIsRight(after.data, move.rendered, foreign, ours, key)
    {
      MergeWritesKey(name, move.spec, before, move.rendered, move.managed, move.version, key);
      hide Written, PreviouslyManaged;
      if key !in move.rendered {
        assert key in ours + before.data.Keys + foreign.Keys;
        assert KeyIsRight(before.data, synced, foreign, ours, key);
      }
    }
  }

  lemma EditKeepsRight(before: KubeSecret, data: Strs, synced: Strs, foreign: Strs, ours: set<Text>)
    requires RunIsRight(before, synced, foreign, ours)
    ensures RunIsRight(Edited(before, data, ours), synced, map key | key in data && key !in ours :: data[key], ours)
  {
    hide ListedKeys;
    var after := Edited(before, data, ours);
    assert PreviouslyManaged(after) == PreviouslyManaged(before);
    forall key | key in ours
      ensures KeyIsRight(before.data, synced, foreign, ours, key) && (key in after.data <==> key in before.data)
    {
    }
  }

  /**
    After any run of Merge writes and foreign edits that starts from a target without keys of ours: the newest
    rendered data is there exactly, keys dropped upstream are gone, and keys never rendered are as the others left them.
   */
  lemma {:induction false} MergeOverRuns(name: Text, start: KubeSecret, moves: seq<Move>, ours: set<Text>)
    requires RenderedKeys(moves) <= ours && start.data.Keys !! ours && PreviouslyManaged(start) == []
    requires forall i :: 0 <= i < |moves| ==> SyncIsValid(moves[i])
    ensures RunIsRight(AfterMoves(name, start, moves, ours), Synced(moves), ForeignView(start, moves, ours), ours)
    ensures ForeignView(start, moves, ours).Keys !! ours
  {
    hide RunIsRight, SyncIsValid, Written, Edited, PreviouslyManaged;
    if moves == [] {
      BlankIsRight(start, ours);
    } else {
      var prefix, move := moves[..|moves| - 1], moves[|moves| - 1];
      MergeOverRuns(name, start, prefix, ours);
      var before := AfterMoves(name, start, prefix, ours);
      if move.Sync? {
        SyncKeepsRight(name, before, move, Synced(prefix), ForeignView(start, prefix, ours), ours);
      } else {
        EditKeepsRight(before, move.data, Synced(prefix), ForeignView(start, prefix, ours), ours);
      }
    }
  }

  lemma BlankIsRight(start: KubeSecret, ours: set<Text>)
    requires start.data.Keys !! ours && PreviouslyManaged(start) == []
    ensures RunIsRight(start, map[], start.data, ours)
  {
  }

  // ---- the rest of what is written ----

  /** The units a data key may have, and the two names it may not be. */
  lemma DataKeyIff(key: Text)
    ensures ValidDataKey(key) <==>
              && key !in {[], Ascii("."), Ascii("..")}
              && forall i :: 0 <= i < |key| ==>
                   'a' as int <= key[i] <= 'z' as int || 'A' as int <= key[i] <= 'Z' as int
                   || '0' as int <= key[i] <= '9' as int || key[i] in {'-' as int, '_' as int, '.' as int}
  {
  }

  /** A format that the template may name, or an unknown one, and the data key of a document. */
  lemma RenderedForms(spec: Spec, secrets: Strs, docs: Documents)
    ensures var format := if spec.template == None then KeyValue else spec.template.value.format;
            var own := if spec.template == None then [] else spec.template.value.key;
            match format
            case KeyValue =>
              && (Render(spec, secrets, docs).Some? <==> forall key | key in secrets :: ValidDataKey(key))
              && (Render(spec, secrets, docs).Some? ==> Render(spec, secrets, docs).value == secrets)
            case Dotenv =>
              Render(spec, secrets, docs) == Some(map[(if own == [] then Ascii(".env") else own) := docs.dotenv(secrets)])
            case Json =>
              Render(spec, secrets, docs)
              == Some(map[(if own == [] then Ascii("config.json") else own) := docs.json(secrets)])
            case UnknownFormat => Render(spec, secrets, docs) == None
  {
  }

  /** Own texts come first, then the template's, then those that were there; there are no others. */
  ghost predicate IsLayered(before: Strs, given: Strs, own: Strs, after: Strs) {
    forall key :: && (key in after <==> key in own || key in given || key in before)
                  && (key in after ==> after[key] == if key in own then own[key] else if key in given then given[key]
                                                     else before[key])
  }

  function SourceAnnotations(source: Source): Strs {
    map[Ascii("himitsu.io/project-id") := source.projectId, Ascii("himitsu.io/environment-id") := source.environmentId]
  }

  /** The annotations that name the owner, the version, the keys and the source. */
  function OwnAnnotations(name: Text, source: Source, version: nat, managed: seq<Text>): Strs {
    map[Ascii("himitsu.io/owned-by") := name, Ascii("himitsu.io/config-version") := Digits(version),
        Ascii("himitsu.io/managed-keys") := Join(managed, [COMMA])]
    + SourceAnnotations(source)
  }

  function OwnLabels(): Strs { map[Ascii("app.kubernetes.io/managed-by") := Ascii("himitsu-operator")] }

  /**
    As the sole author the operator leaves exactly the rendered data, whatever was there. The type is that of the spec,
    or else the one that was there, or else Opaque.
   */
  lemma WrittenForm(name: Text, spec: Spec, existing: Option<KubeSecret>, rendered: Strs, managed: seq<Text>, version: nat)
    ensures spec.policy == Owner ==> Written(name, spec, existing, rendered, managed, version).data == rendered
    ensures Written(name, spec, existing, rendered, managed, version).kind
            == if spec.kind != [] then spec.kind
               else if existing.Some? && existing.value.kind != [] then existing.value.kind else Ascii("Opaque")
  {
    hide Annotated, PreviouslyManaged, Merged, Join, Ascii;
  }

  /** With either policy the marks of the operator win over the template, and the template over what was there. */
  lemma WrittenMarks(name: Text, spec: Spec, existing: Option<KubeSecret>, rendered: Strs, managed: seq<Text>,
                     version: nat)
    ensures IsLayered(if existing == None then map[] else existing.value.annotations,
                      if spec.template == None then map[] else spec.template.value.annotations,
                      OwnAnnotations(name, spec.source, version, managed),
                      Written(name, spec, existing, rendered, managed, version).annotations)
    ensures IsLayered(if existing == None then map[] else existing.value.labels,
                      if spec.template == None then map[] else spec.template.value.labels,
                      OwnLabels(), Written(name, spec, existing, rendered, managed, version).labels)
  {
    hide Split, Join, Digits, PreviouslyManaged, Merged, KindAfter, Ascii;
    AnnotationNamesDiffer();
  }
}
