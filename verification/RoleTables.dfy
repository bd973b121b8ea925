/** The role tables and the statements that keep them in line
    (prisma/seed/permissions.ts). The `roles` table is held in two parts:
    templates, whose companyId is NULL, and the rows that belong to a company.
    `role_permissions` is a set of pairs, as its primary key makes it. */
module RoleTables {

  datatype Option<+T> = None | Some(value: T)

  type Key = string
  type CompanyId = nat
  type RoleId = nat
  type PermissionId = nat
  type Grant = (RoleId, PermissionId)

  datatype TemplateRole = TemplateRole(key: Key, name: string, isSystem: bool)
  datatype TenantRole = TenantRole(company: CompanyId, key: Key, isSystem: bool)

  /** The platform rows: the permission catalogue and the template roles. */
  datatype Templates = Templates(catalogue: map<Key, PermissionId>,
                                 roles: map<RoleId, TemplateRole>,
                                 grants: set<Grant>)

  /** The tenants' rows. */
  datatype Tenants = Tenants(roles: map<RoleId, TenantRole>, grants: set<Grant>)

  // ----- the two statements of syncCompanySystemRoles

  /** Some system template of this key holds the permission. */
  predicate TemplateHolds(t: Templates, key: Key, p: PermissionId) {
    exists id | id in t.roles :: t.roles[id].isSystem && t.roles[id].key == key && (id, p) in t.grants
  }

  /** A company's system role, of the given company or of any. */
  predicate InScope(r: TenantRole, scope: Option<CompanyId>) {
    r.isSystem && (scope == None || scope == Some(r.company))
  }

  /** The rows the INSERT selects. */
  function Selected(t: Templates, n: Tenants, scope: Option<CompanyId>): set<Grant> {
    set r, g | r in n.roles && InScope(n.roles[r], scope)
               && g in t.grants && g.0 in t.roles
               && t.roles[g.0].isSystem && t.roles[g.0].key == n.roles[r].key :: (r, g.1)
  }

  /** The rows the DELETE matches. */
  function Stale(t: Templates, n: Tenants, scope: Option<CompanyId>): set<Grant> {
    set g | g in n.grants && g.0 in n.roles && InScope(n.roles[g.0], scope)
            && !TemplateHolds(t, n.roles[g.0].key, g.1)
  }

  /** INSERT … ON CONFLICT DO NOTHING. */
  function AfterGrant(t: Templates, n: Tenants, scope: Option<CompanyId>): Tenants {
    n.(grants := n.grants + Selected(t, n, scope))
  }

  function AfterRevoke(t: Templates, n: Tenants, scope: Option<CompanyId>): Tenants {
    n.(grants := n.grants - Stale(t, n, scope))
  }

  function AfterSync(t: Templates, n: Tenants, scope: Option<CompanyId>): Tenants {
    AfterRevoke(t, AfterGrant(t, n, scope), scope)
  }

  /** The rows of a deleted company go with it. */
  function WithoutCompanies(n: Tenants, gone: set<CompanyId>): Tenants {
    var roles := map r | r in n.roles && n.roles[r].company !in gone :: n.roles[r];
    Tenants(roles, set g | g in n.grants && g.0 in roles)
  }

  // ----- what being in line means

  /** The role holds at least what its template holds. */
  ghost predicate Covers(t: Templates, n: Tenants, r: RoleId)
    requires r in n.roles
  {
    forall p: PermissionId :: TemplateHolds(t, n.roles[r].key, p) ==> (r, p) in n.grants
  }

  /** The role holds exactly what the system template of its key holds, which is
      nothing when there is none. */
  ghost predicate InLine(t: Templates, n: Tenants, r: RoleId)
    requires r in n.roles
  {
    forall p: PermissionId :: (r, p) in n.grants <==> TemplateHolds(t, n.roles[r].key, p)
  }

  ghost predicate CompanyInLine(t: Templates, n: Tenants, c: CompanyId) {
    forall r | r in n.roles && n.roles[r].isSystem && n.roles[r].company == c :: InLine(t, n, r)
  }

  ghost predicate CompanyCovered(t: Templates, n: Tenants, c: CompanyId) {
    forall r | r in n.roles && n.roles[r].isSystem && n.roles[r].company == c :: Covers(t, n, r)
  }

  /** No system role of the company holds more than its template does. */
  ghost predicate CompanyWithin(t: Templates, n: Tenants, c: CompanyId) {
    forall r, p: PermissionId | r in n.roles && n.roles[r].isSystem && n.roles[r].company == c && (r, p) in n.grants ::
      TemplateHolds(t, n.roles[r].key, p)
  }

  /** The company's system roles and what they hold are the same in both. */
  ghost predicate SameSystemRoles(n: Tenants, n': Tenants, c: CompanyId) {
    && (forall r | r in n'.roles && n'.roles[r].company == c :: r in n.roles && n.roles[r] == n'.roles[r])
    && (forall r | r in n.roles && n.roles[r].company == c :: r in n'.roles && n.roles[r] == n'.roles[r])
    && (forall r, p: PermissionId | r in n'.roles && n'.roles[r].company == c && n'.roles[r].isSystem ::
         (r, p) in n'.grants <==> (r, p) in n.grants)
  }

  lemma SameRolesSameStanding(t: Templates, n: Tenants, n': Tenants, c: CompanyId)
    requires SameSystemRoles(n, n', c)
    ensures CompanyInLine(t, n, c) <==> CompanyInLine(t, n', c)
    ensures CompanyCovered(t, n, c) <==> CompanyCovered(t, n', c)
    ensures CompanyWithin(t, n, c) <==> CompanyWithin(t, n', c)
  {
    forall r | r in n'.roles && n'.roles[r].isSystem && n'.roles[r].company == c
      ensures InLine(t, n, r) <==> InLine(t, n', r)
      ensures Covers(t, n, r) <==> Covers(t, n', r)
    {
    }
  }

  // ----- single statements

  lemma SelectedMeans(t: Templates, n: Tenants, scope: Option<CompanyId>, r: RoleId, p: PermissionId)
    requires r in n.roles
    ensures (r, p) in Selected(t, n, scope)
            <==> InScope(n.roles[r], scope) && TemplateHolds(t, n.roles[r].key, p)
  {
    if InScope(n.roles[r], scope) && TemplateHolds(t, n.roles[r].key, p) {
      var id :| id in t.roles && t.roles[id].isSystem && t.roles[id].key == n.roles[r].key && (id, p) in t.grants;
      var g := (id, p);
      assert g in t.grants && g.0 in t.roles;
      assert (r, g.1) in Selected(t, n, scope);
    }
  }

  /** What each statement does to one role, permission by permission. */
  lemma GrantMeans(t: Templates, n: Tenants, scope: Option<CompanyId>, r: RoleId, p: PermissionId)
    requires r in n.roles
    ensures (r, p) in AfterGrant(t, n, scope).grants
            <==> (r, p) in n.grants || (InScope(n.roles[r], scope) && TemplateHolds(t, n.roles[r].key, p))
  {
    SelectedMeans(t, n, scope, r, p);
  }

  lemma RevokeMeans(t: Templates, n: Tenants, scope: Option<CompanyId>, r: RoleId, p: PermissionId)
    requires r in n.roles
    ensures (r, p) in AfterRevoke(t, n, scope).grants
            <==> (r, p) in n.grants && (InScope(n.roles[r], scope) ==> TemplateHolds(t, n.roles[r].key, p))
  {
  }

  /** No grant statement, of whatever scope, disturbs a role that is covered or
      in line; one that reaches the role covers it. */
  lemma GrantKeeps(t: Templates, n: Tenants, scope: Option<CompanyId>, r: RoleId)
    requires r in n.roles
    ensures Covers(t, n, r) || InScope(n.roles[r], scope) ==> Covers(t, AfterGrant(t, n, scope), r)
    ensures InLine(t, n, r) ==> InLine(t, AfterGrant(t, n, scope), r)
  {
    forall p: PermissionId {
      GrantMeans(t, n, scope, r, p);
    }
  }

  /** No revoke statement does either; one that reaches a covered role brings it
      in line. */
  lemma RevokeKeeps(t: Templates, n: Tenants, scope: Option<CompanyId>, r: RoleId)
    requires r in n.roles
    ensures Covers(t, n, r) ==> Covers(t, AfterRevoke(t, n, scope), r)
    ensures InLine(t, n, r) || (Covers(t, n, r) && InScope(n.roles[r], scope))
            ==> InLine(t, AfterRevoke(t, n, scope), r)
  {
    forall p: PermissionId {
      RevokeMeans(t, n, scope, r, p);
    }
  }

  /** Custom roles, other companies' roles and the templates are out of reach:
      a statement changes grants of system roles in its scope only. */
  lemma StatementsStayInScope(t: Templates, n: Tenants, scope: Option<CompanyId>, g: Grant)
    requires g.0 in n.roles && !InScope(n.roles[g.0], scope)
    ensures g in AfterGrant(t, n, scope).grants <==> g in n.grants
    ensures g in AfterRevoke(t, n, scope).grants <==> g in n.grants
  {
    SelectedMeans(t, n, scope, g.0, g.1);
  }

  // ----- the pair of statements, run alone

  lemma SyncMeans(t: Templates, n: Tenants, scope: Option<CompanyId>, r: RoleId, p: PermissionId)
    requires r in n.roles
    ensures (r, p) in AfterSync(t, n, scope).grants
            <==> if InScope(n.roles[r], scope) then TemplateHolds(t, n.roles[r].key, p) else (r, p) in n.grants
  {
    GrantMeans(t, n, scope, r, p);
    RevokeMeans(t, AfterGrant(t, n, scope), scope, r, p);
  }

  /** What a role holds after a sync, column by column: a system role of a company
      in scope what some system template row of its key holds, any other role what
      it held before. */
  lemma SyncHoldsExactly(t: Templates, n: Tenants, scope: Option<CompanyId>, r: RoleId, p: PermissionId)
    requires r in n.roles
    ensures AfterSync(t, n, scope).roles == n.roles
    ensures n.roles[r].isSystem && (scope == None || scope == Some(n.roles[r].company)) ==>
              ((r, p) in AfterSync(t, n, scope).grants
               <==> exists id | id in t.roles ::
                      t.roles[id].isSystem && t.roles[id].key == n.roles[r].key && (id, p) in t.grants)
    ensures !n.roles[r].isSystem || (scope != None && scope != Some(n.roles[r].company)) ==>
              ((r, p) in AfterSync(t, n, scope).grants <==> (r, p) in n.grants)
  {
    SyncMeans(t, n, scope, r, p);
  }

  predicate WellFormed(n: Tenants) {
    forall g | g in n.grants :: g.0 in n.roles
  }

  lemma StatementsWellFormed(t: Templates, n: Tenants, scope: Option<CompanyId>)
    requires WellFormed(n)
    ensures WellFormed(AfterGrant(t, n, scope)) && WellFormed(AfterRevoke(t, n, scope))
    ensures WellFormed(AfterSync(t, n, scope))
  {
  }

  lemma GrantWellFormed(t: Templates, n: Tenants, scope: Option<CompanyId>)
    requires WellFormed(n)
    ensures WellFormed(AfterGrant(t, n, scope)) && AfterGrant(t, n, scope).roles == n.roles
  {
  }

  lemma RevokeWellFormed(t: Templates, n: Tenants, scope: Option<CompanyId>)
    requires WellFormed(n)
    ensures WellFormed(AfterRevoke(t, n, scope)) && AfterRevoke(t, n, scope).roles == n.roles
    ensures Stale(t, n, scope) <= n.grants
  {
  }

  lemma SameGrants(a: Tenants, b: Tenants)
    requires WellFormed(a) && WellFormed(b) && a.roles == b.roles
    requires forall r, p: PermissionId | r in a.roles :: (r, p) in a.grants <==> (r, p) in b.grants
    ensures a == b
  {
    forall g
      ensures g in a.grants <==> g in b.grants
    {
      assert g == (g.0, g.1);
    }
    assert a.grants == b.grants;
  }

  /** Syncing again changes nothing and counts nothing. */
  lemma SyncIsIdempotent(t: Templates, n: Tenants, scope: Option<CompanyId>)
    requires WellFormed(n)
    ensures var synced := AfterSync(t, n, scope);
            && AfterSync(t, synced, scope) == synced
            && Selected(t, synced, scope) <= synced.grants
            && Stale(t, AfterGrant(t, synced, scope), scope) == {}
  {
    var synced := AfterSync(t, n, scope);
    StatementsWellFormed(t, n, scope);
    forall g | g in Selected(t, synced, scope)
      ensures g in synced.grants
    {
      SelectedMeans(t, synced, scope, g.0, g.1);
      SyncMeans(t, n, scope, g.0, g.1);
    }
    assert AfterGrant(t, synced, scope) == synced;
    forall g | g in synced.grants
      ensures g !in Stale(t, synced, scope)
    {
      SyncMeans(t, n, scope, g.0, g.1);
    }
  }

  /** Syncs of two companies, or of a company and all of them, commute. */
  lemma SyncsCommute(t: Templates, n: Tenants, a: Option<CompanyId>, b: Option<CompanyId>)
    requires WellFormed(n)
    ensures AfterSync(t, AfterSync(t, n, a), b) == AfterSync(t, AfterSync(t, n, b), a)
  {
    var na, nb := AfterSync(t, n, a), AfterSync(t, n, b);
    var x, y := AfterSync(t, na, b), AfterSync(t, nb, a);
    StatementsWellFormed(t, n, a);
    StatementsWellFormed(t, n, b);
    StatementsWellFormed(t, na, b);
    StatementsWellFormed(t, nb, a);
    forall r, p: PermissionId | r in n.roles
      ensures (r, p) in x.grants <==> (r, p) in y.grants
    {
      SyncMeans(t, n, a, r, p);
      SyncMeans(t, n, b, r, p);
      SyncMeans(t, na, b, r, p);
      SyncMeans(t, nb, a, r, p);
    }
    SameGrants(x, y);
  }

  /** A sync brings every company in its scope in line, and nothing else out. */
  lemma SyncBringsInLine(t: Templates, n: Tenants, scope: Option<CompanyId>, c: CompanyId)
    ensures scope == None || scope == Some(c) || CompanyInLine(t, n, c)
            ==> CompanyInLine(t, AfterSync(t, n, scope), c)
  {
    var granted := AfterGrant(t, n, scope);
    forall r | r in n.roles && n.roles[r].isSystem && n.roles[r].company == c
      ensures scope == None || scope == Some(c) || InLine(t, n, r) ==> InLine(t, AfterSync(t, n, scope), r)
    {
      GrantKeeps(t, n, scope, r);
      RevokeKeeps(t, granted, scope, r);
    }
  }
}
