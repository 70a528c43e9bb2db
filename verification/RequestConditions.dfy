/** Exactly when the requests on projects, environments and batches are accepted, told from rows and texts alone. */
module RequestConditions {
  import opened Wrappers
  import opened Strings
  import opened Database
  import opened Operations
  import opened Hierarchy
  import opened InputLaws

  predicate IsActiveProject(db: Db, p: Id) { p in db.projects && db.projects[p].deletedAt.None? }

  /** A slug of an existing or deleted row cannot be given again. */
  ghost predicate IsNewSlug(slug: Text, taken: set<Text>) {
    |slug| <= 80 && (exists words :: AreSlugWords(slug, words)) && slug !in taken
  }

  function ProjectSlugs(db: Db): set<Text> { set p | p in db.projects :: db.projects[p].slug }

  function EnvironmentSlugs(db: Db, p: Id): set<Text> {
    set e | e in db.environments && db.environments[e].projectId == p :: db.environments[e].slug
  }

  lemma CreateProjectIff(db: Db, slug: Text, slugs: seq<Text>)
    ensures CreateProject(db, slug, slugs).Ok? <==>
              && IsNewSlug(slug, ProjectSlugs(db)) && 1 <= |slugs| <= 20
              && (forall i :: 0 <= i < |slugs| ==> IsNewSlug(slugs[i], {}))
              && forall i, j :: 0 <= i < j < |slugs| ==> slugs[i] != slugs[j]
  {
    SlugIffWords(slug);
    forall i | 0 <= i < |slugs| ensures IsSlug(slugs[i]) <==> IsNewSlug(slugs[i], {}) { SlugIffWords(slugs[i]); }
    hide IsSlug, AreSlugWords;
    assert ProjectSlugTaken(db, slug) <==> slug in ProjectSlugs(db);
  }

  /** Rows that were there are as before, and nothing else has been written. */
  predicate OnlyAdds(db: Db, b: Db) {
    && b.secrets == db.secrets && b.versions == db.versions
    && (forall p :: p in db.projects ==> p in b.projects && b.projects[p] == db.projects[p])
    && forall e :: e in db.environments ==> e in b.environments && b.environments[e] == db.environments[e]
  }

  lemma IdsArePast(db: Db)
    requires Valid(db)
    ensures forall p :: p in db.projects ==> p < db.nextId
    ensures forall e :: e in db.environments ==> e < db.nextId && db.environments[e].projectId in db.projects
  {
    assert forall e :: e in db.environments ==> EnvironmentOk(db, e);
    assert forall p :: p in db.projects ==> ProjectOk(db, p);
  }

  /** An environment of the project that is not deleted. */
  predicate IsActiveIn(db: Db, p: Id, e: Id) {
    e in db.environments && db.environments[e].projectId == p && db.environments[e].deletedAt.None?
  }

  /** A creation adds one active project of that slug, and to it one active environment of each slug. */
  lemma ProjectIsCreated(db: Db, slug: Text, slugs: seq<Text>)
    requires Valid(db) && CreateProject(db, slug, slugs).Ok?
    ensures var b, p := CreateProject(db, slug, slugs).value, db.nextId;
            && OnlyAdds(db, b) && b.projects.Keys == db.projects.Keys + {p} && p !in db.projects
            && IsActiveProject(b, p) && b.projects[p].slug == slug && EnvironmentSlugs(b, p) == (set t | t in slugs)
            && forall e :: e in b.environments && e !in db.environments ==> IsActiveIn(b, p, e)
  {
    hide Valid, IsSlug, ProjectSlugTaken, Distinct, DefaultEnvironments, EnvironmentSlugs;
    IdsArePast(db);
    var b, p := CreateProject(db, slug, slugs).value, db.nextId;
    assert b.environments == db.environments + DefaultEnvironments(p, slugs);
    hide CreateProject;
    SlugsOfDefaults(db, p, slugs);
    SameSlugs(b, db.(environments := db.environments + DefaultEnvironments(p, slugs)), p);
  }

  lemma SameSlugs(a: Db, b: Db, p: Id)
    requires a.environments == b.environments
    ensures EnvironmentSlugs(a, p) == EnvironmentSlugs(b, p)
  {
  }

  lemma SlugsOfDefaults(db: Db, p: Id, slugs: seq<Text>)
    requires forall e :: e in db.environments ==> e < p && db.environments[e].projectId != p
    ensures EnvironmentSlugs(db.(environments := db.environments + DefaultEnvironments(p, slugs)), p)
         == set t | t in slugs
  {
    hide DefaultEnvironments;
    var b := db.(environments := db.environments + DefaultEnvironments(p, slugs));
    forall i | 0 <= i < |slugs| ensures slugs[i] in EnvironmentSlugs(b, p) {
      assert b.environments[p + i + 1].slug == slugs[i];
    }
  }

  lemma CreateEnvironmentIff(db: Db, p: Id, slug: Text)
    ensures CreateEnvironment(db, p, slug).Ok? <==>
              && IsActiveProject(db, p) && IsNewSlug(slug, EnvironmentSlugs(db, p))
              && |set e | e in db.environments && db.environments[e].projectId == p && db.environments[e].deletedAt.None?| < 50
  {
    SlugIffWords(slug);
    hide IsSlug, AreSlugWords;
    assert SlugTaken(db, p, slug) <==> slug in EnvironmentSlugs(db, p);
    assert ActiveEnvironments(db, p)
        == set e | e in db.environments && db.environments[e].projectId == p && db.environments[e].deletedAt.None?;
  }

  /** A creation adds one active environment of that slug to the project. */
  lemma EnvironmentIsCreated(db: Db, p: Id, slug: Text)
    requires Valid(db) && CreateEnvironment(db, p, slug).Ok?
    ensures var b, e := CreateEnvironment(db, p, slug).value, db.nextId;
            && OnlyAdds(db, b) && b.projects == db.projects && b.environments.Keys == db.environments.Keys + {e}
            && e !in db.environments && IsActiveIn(b, p, e) && b.environments[e].slug == slug
  {
    hide Valid, IsSlug, SlugTaken, ActiveEnvironments;
    IdsArePast(db);
  }

  /** Another environment of the same project that stays. */
  predicate IsOther(db: Db, e: Id, d: Id)
    requires e in db.environments
  {
    && d in db.environments && d != e && db.environments[d].projectId == db.environments[e].projectId
    && db.environments[d].deletedAt.None?
  }

  /** Neither the last environment of its project nor, unless that is confirmed, one with active secrets. */
  ghost predicate CanDeleteEnvironment(db: Db, e: Id, confirm: bool) {
    && e in db.environments && db.environments[e].deletedAt.None? && (exists d :: IsOther(db, e, d))
    && (confirm || forall s :: s in db.secrets && db.secrets[s].environmentId == e ==> db.secrets[s].deletedAt.Some?)
  }

  lemma DeleteEnvironmentIff(db: Db, e: Id, confirm: bool, now: Time, recovery: Window)
    ensures DeleteEnvironment(db, e, confirm, now, recovery).Ok? <==> CanDeleteEnvironment(db, e, confirm)
  {
    if ActiveEnvironment(db, e) {
      OthersAreCounted(db, e);
      NoneActive(db, e);
    }
    hide ActiveEnvironments, ActiveSecrets, IsOther;
  }

  lemma OthersAreCounted(db: Db, e: Id)
    requires ActiveEnvironment(db, e)
    ensures |ActiveEnvironments(db, db.environments[e].projectId)| > 1 <==> exists d :: IsOther(db, e, d)
  {
    var active := ActiveEnvironments(db, db.environments[e].projectId);
    assert e in active;
    if d :| IsOther(db, e, d) {
      Fewer({d, e}, active);
    } else {
      forall d | d in active ensures d == e { assert !IsOther(db, e, d); }
      assert active == {e};
    }
  }

  lemma NoneActive(db: Db, e: Id)
    ensures ActiveSecrets(db, e) == {} <==>
              forall s :: s in db.secrets && db.secrets[s].environmentId == e ==> db.secrets[s].deletedAt.Some?
  {
    if s :| s in db.secrets && db.secrets[s].environmentId == e && db.secrets[s].deletedAt.None? {
      assert s in ActiveSecrets(db, e);
    }
  }

  lemma {:induction false} Fewer(a: set<Id>, b: set<Id>)
    requires a <= b
    ensures |a| <= |b|
  {
    if x :| x in a {
      Fewer(a - {x}, b - {x});
    }
  }

  /** Deleted for itself, not yet to be purged, and with a project to come back to. */
  predicate CanRestoreEnvironment(db: Db, e: Id, now: Time) {
    && e in db.environments && db.environments[e].deletedAt.Some? && db.environments[e].byProject.None?
    && db.environments[e].purgeAfter.Some? && now < db.environments[e].purgeAfter.value
    && IsActiveProject(db, db.environments[e].projectId)
  }

  lemma RestoreEnvironmentIff(db: Db, e: Id, now: Time)
    ensures RestoreEnvironment(db, e, now).Ok? <==> CanRestoreEnvironment(db, e, now)
  {
  }

  /** A deleted environment can be restored right up to the end of the window that its deletion opened. */
  lemma EnvironmentWindow(db: Db, e: Id, confirm: bool, now: Time, recovery: Window, later: Time)
    requires Valid(db) && DeleteEnvironment(db, e, confirm, now, recovery).Ok?
    ensures RestoreEnvironment(DeleteEnvironment(db, e, confirm, now, recovery).value, e, later).Ok?
       <==> later < now + recovery
  {
    var b := DeleteEnvironment(db, e, confirm, now, recovery).value;
    DeleteEnvironmentResult(db, b, e, confirm, now, recovery);
    assert EnvironmentOk(db, e);
    hide Valid, DeleteEnvironment, RestoreEnvironment;
    RestoreEnvironmentIff(b, e, later);
  }

  lemma DeleteProjectIff(db: Db, p: Id, now: Time, recovery: Window)
    ensures DeleteProject(db, p, now, recovery).Ok? <==> IsActiveProject(db, p)
  {
  }

  predicate CanRestoreProject(db: Db, p: Id, now: Time) {
    && p in db.projects && db.projects[p].deletedAt.Some?
    && db.projects[p].purgeAfter.Some? && now < db.projects[p].purgeAfter.value
  }

  lemma RestoreProjectIff(db: Db, p: Id, now: Time)
    ensures RestoreProject(db, p, now).Ok? <==> CanRestoreProject(db, p, now)
  {
  }
}
