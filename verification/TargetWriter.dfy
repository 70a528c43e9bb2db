/** The in-memory Kubernetes object that writeTarget prepares before it is sent. */
module TargetWriter {
  import opened Wrappers
  import opened Strings
  import opened Decimal
  import opened TargetSecret

  /** The entries of extra for the keys already visited. */
  function Only(extra: Strs, done: set<Text>): Strs { map key | key in extra && key in done :: extra[key] }

  class KubeObject {
    var data: Strs
    var labels: Strs
    var annotations: Strs
    var kind: Text

    function Contents(): KubeSecret
      reads this
    {
      KubeSecret(data, labels, annotations, kind)
    }

    /** A deep copy of what was read, or the blank object of a target that does not exist. */
    constructor (contents: KubeSecret)
      ensures Contents() == contents
    {
      data, labels, annotations, kind := contents.data, contents.labels, contents.annotations, contents.kind;
    }

    method Annotate(extra: Strs)
      modifies this`annotations
      ensures annotations == old(annotations) + extra
    {
      var left := extra.Keys;
      while left != {}
        invariant left <= extra.Keys && annotations == old(annotations) + Only(extra, extra.Keys - left)
        decreases |left|
      {
        var key :| key in left;
        annotations := annotations[key := extra[key]];
        left := left - {key};
      }
    }

    method Label(extra: Strs)
      modifies this`labels
      ensures labels == old(labels) + extra
    {
      var left := extra.Keys;
      while left != {}
        invariant left <= extra.Keys && labels == old(labels) + Only(extra, extra.Keys - left)
        decreases |left|
      {
        var key :| key in left;
        labels := labels[key := extra[key]];
        left := left - {key};
      }
    }

    /** Deletes the keys written earlier that the rendered data lacks. */
    method DropStale(stale: seq<Text>, rendered: Strs)
      modifies this`data
      ensures data == map key | key in old(data) && (key !in stale || key in rendered) :: old(data)[key]
    {
      var i := 0;
      while i < |stale|
        invariant 0 <= i <= |stale|
        invariant data == map key | key in old(data) && (key !in stale[..i] || key in rendered) :: old(data)[key]
      {
        assert stale[..i + 1] == stale[..i] + [stale[i]];
        if stale[i] !in rendered {
          data := data - {stale[i]};
        }
        i := i + 1;
      }
      assert stale[..|stale|] == stale;
    }

    method PutAll(rendered: Strs)
      modifies this`data
      ensures data == old(data) + rendered
    {
      var left := rendered.Keys;
      while left != {}
        invariant left <= rendered.Keys && data == old(data) + Only(rendered, rendered.Keys - left)
        decreases |left|
      {
        var key :| key in left;
        data := data[key := rendered[key]];
        left := left - {key};
      }
    }

    /** The annotations, labels and type of a write, in the order the code sets them. */
    method Stamp(name: Text, spec: Spec, version: nat)
      modifies this`annotations, this`labels, this`kind
      ensures annotations == Annotated(old(annotations), name, spec, version)
      ensures labels == (old(labels) + TemplateLabels(spec))[MANAGED_BY := OPERATOR]
      ensures kind == KindAfter(spec, old(kind))
    {
      hide Digits, Ascii;
      if spec.template.Some? {
        Annotate(spec.template.value.annotations);
        Label(spec.template.value.labels);
      } else {
        assert annotations == old(annotations) + TemplateAnnotations(spec);
        assert labels == old(labels) + TemplateLabels(spec);
      }
      annotations := annotations[OWNED_BY := name];
      annotations := annotations[CONFIG_VERSION := Digits(version)];
      annotations := annotations[PROJECT_ID := spec.source.projectId];
      annotations := annotations[ENVIRONMENT_ID := spec.source.environmentId];
      labels := labels[MANAGED_BY := OPERATOR];
      if spec.kind != [] {
        kind := spec.kind;
      } else if kind == [] {
        kind := OPAQUE;
      }
    }
  }

  /** The object that writeTarget sends; what was read is copied, never edited. */
  method PrepareTarget(name: Text, spec: Spec, existing: KubeObject?, rendered: Strs, managed: seq<Text>, version: nat)
    returns (secret: KubeObject)
    ensures fresh(secret)
    ensures secret.Contents() ==
            Written(name, spec, if existing == null then None else Some(existing.Contents()), rendered, managed, version)
  {
    secret := new KubeObject(if existing == null then Blank else existing.Contents());
    ghost var base := secret.Contents();
    hide Digits, Split, Join;
    secret.Stamp(name, spec, version);
    if spec.policy == Merge {
      var stale := PreviouslyManaged(secret.Contents());
      assert stale == PreviouslyManaged(base.(annotations := Annotated(base.annotations, name, spec, version)));
      secret.DropStale(stale, rendered);
      secret.PutAll(rendered);
    } else {
      secret.data := rendered;
    }
    secret.annotations := secret.annotations[MANAGED_KEYS := Join(managed, [COMMA])];
  }
}
