/** Writing the permission catalogue and the role templates: what one locked
    transaction of `seedPermissionsAndRoles` does to the platform rows. */
module TemplateSeeding {
  import opened RoleTables

  /** A template as the code defines it; `permissions` is permissionsForRole. */
  datatype TemplateDef = TemplateDef(key: Key, name: string, permissions: seq<Key>)

  /** What one release of the code wants the platform rows to say. */
  datatype Release = Release(permissions: seq<Key>, templates: seq<TemplateDef>)

  predicate DistinctKeys(release: Release) {
    forall i, j | 0 <= i < j < |release.templates| :: release.templates[i].key != release.templates[j].key
  }

  predicate OnePerKey(t: Templates) {
    forall a, b | a in t.roles && b in t.roles :: t.roles[a].key == t.roles[b].key ==> a == b
  }

  /** No two permissions share an id. */
  predicate DistinctIds(catalogue: map<Key, PermissionId>) {
    forall j, k | j in catalogue && k in catalogue :: catalogue[j] == catalogue[k] ==> j == k
  }

  predicate TemplatesWellFormed(t: Templates) {
    && OnePerKey(t) && DistinctIds(t.catalogue)
    && (forall id | id in t.roles :: t.roles[id].isSystem)
    && (forall g | g in t.grants :: g.0 in t.roles)
  }

  predicate HasKey(t: Templates, key: Key) {
    exists id | id in t.roles :: t.roles[id].key == key
  }

  predicate Seeds(release: Release, done: nat, key: Key)
    requires done <= |release.templates|
  {
    exists i | 0 <= i < done :: release.templates[i].key == key
  }

  /** The catalogue ids of a list of permission keys, unknown keys dropped. */
  function IdsOf(catalogue: map<Key, PermissionId>, keys: seq<Key>): set<PermissionId> {
    set k | k in keys && k in catalogue :: catalogue[k]
  }

  /** `findFirst` either finds a row of this key or leaves a fresh id to create. */
  predicate Usable(t: Templates, key: Key, id: RoleId) {
    if HasKey(t, key) then id in t.roles && t.roles[id].key == key else id !in t.roles
  }

  /** Update or create the row, delete its grants, create them anew. */
  function SeedOne(t: Templates, d: TemplateDef, id: RoleId): Templates {
    var row := if id in t.roles then t.roles[id].(name := d.name) else TemplateRole(d.key, d.name, true);
    var kept := set g | g in t.grants && g.0 != id;
    var created := set p | p in IdsOf(t.catalogue, d.permissions) :: (id, p);
    Templates(t.catalogue, t.roles[id := row], kept + created)
  }

  /** The permission is one that some key of the list stands for. */
  ghost predicate Named(catalogue: map<Key, PermissionId>, keys: seq<Key>, p: PermissionId) {
    exists k | k in keys :: k in catalogue && catalogue[k] == p
  }

  lemma IdsOfMeans(catalogue: map<Key, PermissionId>, keys: seq<Key>, p: PermissionId)
    ensures p in IdsOf(catalogue, keys) <==> Named(catalogue, keys, p)
  {
  }

  /** Upserting the catalogue keeps every id there is and adds the missing keys
      under ids of their own. */
  predicate CatalogueUpserted(before: map<Key, PermissionId>, after: map<Key, PermissionId>, keys: seq<Key>) {
    && (forall k | k in before :: k in after && after[k] == before[k])
    && (forall k | k in after :: k in before || k in keys)
    && (forall k | k in keys :: k in after)
    && DistinctIds(after)
  }

  /** The template row of this definition is there, and holds the permissions that
      its keys stand for and no others. */
  ghost predicate Matches(t: Templates, d: TemplateDef) {
    exists id | id in t.roles ::
      && t.roles[id] == TemplateRole(d.key, d.name, true)
      && forall p: PermissionId :: (id, p) in t.grants <==> Named(t.catalogue, d.permissions, p)
  }

  /** Rows of keys not yet seeded are as they were; no row changes its key. */
  predicate RowsKept(release: Release, base: Templates, t: Templates, done: nat)
    requires done <= |release.templates|
  {
    forall id | id in base.roles ::
      && id in t.roles && t.roles[id].key == base.roles[id].key
      && (Seeds(release, done, base.roles[id].key) || t.roles[id] == base.roles[id])
  }

  /** A row is created only for a seeded key that had none. */
  predicate RowsAdded(release: Release, base: Templates, t: Templates, done: nat)
    requires done <= |release.templates|
  {
    forall id | id in t.roles && id !in base.roles ::
      Seeds(release, done, t.roles[id].key) && !HasKey(base, t.roles[id].key)
  }

  ghost predicate GrantsKept(release: Release, base: Templates, t: Templates, done: nat)
    requires done <= |release.templates|
  {
    forall id, p: PermissionId | id in base.roles && !Seeds(release, done, base.roles[id].key) ::
      (id, p) in t.grants <==> (id, p) in base.grants
  }

  /** How the platform rows stand after the catalogue and the first `done`
      templates of a release were written over `base`. */
  ghost predicate Seeded(release: Release, base: Templates, t: Templates, done: nat) {
    && done <= |release.templates|
    && TemplatesWellFormed(t)
    && CatalogueUpserted(base.catalogue, t.catalogue, release.permissions)
    && (forall i | 0 <= i < done :: Matches(t, release.templates[i]))
    && RowsKept(release, base, t, done)
    && RowsAdded(release, base, t, done)
    && GrantsKept(release, base, t, done)
  }

  lemma CatalogueStep(release: Release, base: Templates, catalogue: map<Key, PermissionId>)
    requires TemplatesWellFormed(base)
    requires CatalogueUpserted(base.catalogue, catalogue, release.permissions)
    ensures Seeded(release, base, base.(catalogue := catalogue), 0)
  {
  }

  lemma SeedOneMeans(t: Templates, d: TemplateDef, id: RoleId)
    requires TemplatesWellFormed(t) && Usable(t, d.key, id)
    ensures var u := SeedOne(t, d, id);
            && TemplatesWellFormed(u) && Matches(u, d) && u.catalogue == t.catalogue
            && u.roles.Keys == t.roles.Keys + {id}
            && u.roles[id] == TemplateRole(d.key, d.name, true)
            && (forall r | r in t.roles && r != id :: u.roles[r] == t.roles[r] && u.roles[r].key != d.key)
            && (forall r, p: PermissionId | r != id :: (r, p) in u.grants <==> (r, p) in t.grants)
  {
    var u := SeedOne(t, d, id);
    forall p: PermissionId
      ensures (id, p) in u.grants <==> Named(t.catalogue, d.permissions, p)
    {
      IdsOfMeans(t.catalogue, d.permissions, p);
    }
    assert u.roles[id] == TemplateRole(d.key, d.name, true);
  }

  lemma MatchesElsewhere(t: Templates, d: TemplateDef, id: RoleId, e: TemplateDef)
    requires TemplatesWellFormed(t) && Usable(t, d.key, id)
    requires Matches(t, e) && e.key != d.key
    ensures Matches(SeedOne(t, d, id), e)
  {
    SeedOneMeans(t, d, id);
    var u := SeedOne(t, d, id);
    var r :| && r in t.roles && t.roles[r] == TemplateRole(e.key, e.name, true)
             && forall p: PermissionId :: (r, p) in t.grants <==> Named(t.catalogue, e.permissions, p);
    assert r != id;
    assert u.roles[r] == TemplateRole(e.key, e.name, true);
    forall p: PermissionId
      ensures (r, p) in u.grants <==> Named(u.catalogue, e.permissions, p)
    {
    }
  }

  /** Writing the next template carries the whole relation one template on. */
  lemma SeedOneStep(release: Release, base: Templates, t: Templates, done: nat, id: RoleId)
    requires DistinctKeys(release) && Seeded(release, base, t, done) && done < |release.templates|
    requires Usable(t, release.templates[done].key, id)
    ensures Seeded(release, base, SeedOne(t, release.templates[done], id), done + 1)
  {
    hide SeedOne, Matches, TemplatesWellFormed, CatalogueUpserted, RowsKept, RowsAdded, GrantsKept, Usable;
    var d := release.templates[done];
    SeedOneMeans(t, d, id);
    RowsStay(release, base, t, done, id);
    RowsAddedStay(release, base, t, done, id);
    GrantsStay(release, base, t, done, id);
    forall i | 0 <= i < done
      ensures Matches(SeedOne(t, d, id), release.templates[i])
    {
      MatchesElsewhere(t, d, id, release.templates[i]);
    }
  }

  lemma OneMoreKey(release: Release, done: nat)
    requires done < |release.templates|
    ensures forall key ::
              Seeds(release, done + 1, key) <==> Seeds(release, done, key) || key == release.templates[done].key
  {
    forall key
      ensures Seeds(release, done + 1, key) <==> Seeds(release, done, key) || key == release.templates[done].key
    {
      assert release.templates[done].key == key ==> Seeds(release, done + 1, key);
    }
  }

  lemma RowsStay(release: Release, base: Templates, t: Templates, done: nat, id: RoleId)
    requires Seeded(release, base, t, done) && done < |release.templates|
    requires Usable(t, release.templates[done].key, id)
    ensures RowsKept(release, base, SeedOne(t, release.templates[done], id), done + 1)
  {
    SeedOneMeans(t, release.templates[done], id);
    OneMoreKey(release, done);
    hide SeedOne, Matches, TemplatesWellFormed, CatalogueUpserted, Seeds;
  }

  lemma RowsAddedStay(release: Release, base: Templates, t: Templates, done: nat, id: RoleId)
    requires Seeded(release, base, t, done) && done < |release.templates|
    requires Usable(t, release.templates[done].key, id)
    ensures RowsAdded(release, base, SeedOne(t, release.templates[done], id), done + 1)
  {
    SeedOneMeans(t, release.templates[done], id);
    OneMoreKey(release, done);
    hide SeedOne, Matches, TemplatesWellFormed, CatalogueUpserted, Seeds;
  }

  lemma GrantsStay(release: Release, base: Templates, t: Templates, done: nat, id: RoleId)
    requires Seeded(release, base, t, done) && done < |release.templates|
    requires Usable(t, release.templates[done].key, id)
    ensures GrantsKept(release, base, SeedOne(t, release.templates[done], id), done + 1)
  {
    SeedOneMeans(t, release.templates[done], id);
    OneMoreKey(release, done);
    hide SeedOne, Matches, TemplatesWellFormed, CatalogueUpserted, Seeds;
  }

  /** In a well-formed store a matching definition settles what its key holds:
      the permissions that its own keys stand for, unknown keys standing for none;
      told by key, those it names and no others. */
  lemma MatchedHoldings(t: Templates, d: TemplateDef, p: PermissionId)
    requires TemplatesWellFormed(t) && Matches(t, d)
    ensures TemplateHolds(t, d.key, p) <==> exists k | k in d.permissions :: k in t.catalogue && t.catalogue[k] == p
    ensures forall k | k in t.catalogue :: TemplateHolds(t, d.key, t.catalogue[k]) <==> k in d.permissions
  {
    var id :| && id in t.roles && t.roles[id] == TemplateRole(d.key, d.name, true)
              && forall p: PermissionId :: (id, p) in t.grants <==> Named(t.catalogue, d.permissions, p);
    forall q: PermissionId
      ensures TemplateHolds(t, d.key, q) <==> Named(t.catalogue, d.permissions, q)
    {
      assert (id, q) in t.grants <==> Named(t.catalogue, d.permissions, q);
    }
    forall k | k in t.catalogue
      ensures Named(t.catalogue, d.permissions, t.catalogue[k]) <==> k in d.permissions
    {
    }
  }

  /** What a seed leaves for each template of its release, with nothing left to
      unfold: one row, its name, and grants of exactly the permissions named. */
  lemma SeededHoldings(release: Release, base: Templates, t: Templates, i: nat, id: RoleId)
    requires Seeded(release, base, t, |release.templates|) && i < |release.templates|
    requires id in t.roles && t.roles[id].key == release.templates[i].key
    ensures t.roles[id].name == release.templates[i].name && t.roles[id].isSystem
    ensures forall p: PermissionId | (id, p) in t.grants :: p in t.catalogue.Values
    ensures forall k | k in t.catalogue :: (id, t.catalogue[k]) in t.grants <==> k in release.templates[i].permissions
  {
    var d := release.templates[i];
    assert Matches(t, d);
    var r :| && r in t.roles && t.roles[r] == TemplateRole(d.key, d.name, true)
             && forall p: PermissionId :: (r, p) in t.grants <==> Named(t.catalogue, d.permissions, p);
    assert r == id;
    forall k | k in t.catalogue
      ensures Named(t.catalogue, d.permissions, t.catalogue[k]) <==> k in d.permissions
    {
    }
  }

  /** A seed of a release over rows that release has already seeded changes
      nothing. */
  lemma ReseedingChangesNothing(release: Release, base: Templates, once: Templates, twice: Templates)
    requires Seeded(release, base, once, |release.templates|)
    requires Seeded(release, once, twice, |release.templates|)
    ensures twice == once
  {
    assert twice.catalogue.Keys == once.catalogue.Keys;
    assert twice.catalogue == once.catalogue;
    forall id | id in twice.roles
      ensures id in once.roles && twice.roles[id] == once.roles[id]
      ensures forall p: PermissionId :: (id, p) in twice.grants <==> (id, p) in once.grants
    {
      if Seeds(release, |release.templates|, twice.roles[id].key) {
        var i :| 0 <= i < |release.templates| && release.templates[i].key == twice.roles[id].key;
        SameMatch(once, twice, release.templates[i], id);
      }
    }
    assert twice.roles.Keys == once.roles.Keys;
    assert twice.roles == once.roles;
    forall g
      ensures g in twice.grants <==> g in once.grants
    {
      assert g == (g.0, g.1);
    }
    assert twice.grants == once.grants;
  }

  lemma SameMatch(once: Templates, twice: Templates, d: TemplateDef, id: RoleId)
    requires TemplatesWellFormed(once) && TemplatesWellFormed(twice)
    requires Matches(once, d) && Matches(twice, d) && once.catalogue == twice.catalogue
    requires id in twice.roles && twice.roles[id].key == d.key
    requires forall r | r in once.roles :: r in twice.roles && twice.roles[r].key == once.roles[r].key
    ensures id in once.roles && twice.roles[id] == once.roles[id]
    ensures forall p: PermissionId :: (id, p) in twice.grants <==> (id, p) in once.grants
  {
    var a :| && a in once.roles && once.roles[a] == TemplateRole(d.key, d.name, true)
             && forall p: PermissionId :: (a, p) in once.grants <==> Named(once.catalogue, d.permissions, p);
    var b :| && b in twice.roles && twice.roles[b] == TemplateRole(d.key, d.name, true)
             && forall p: PermissionId :: (b, p) in twice.grants <==> Named(twice.catalogue, d.permissions, p);
    assert a == id && b == id;
  }
}
