/** Any number of seeders running `seedPermissionsAndRoles` at once, beside
    everything else that touches the role tables. Templates are written inside a
    transaction that holds the platform seed lock (prisma/seed/lock.ts); the
    tenant sweeps run outside it, one SQL statement at a time. */
module SeedProtocol {
  import opened RoleTables
  import opened TemplateSeeding
  import RoleSync

  type SeederId = nat

  /** What the sweep does next for the company it has reached. */
  datatype Stage = Granting | Revoking | Charting

  datatype Phase =
    | Idle
    | Waiting                                            // for the lock
    | Writing(base: Templates, work: Templates, upserted: bool, done: nat)
    | Committed
    // `missed`: the companies passed over with a role statement left undone
    | Sweeping(list: seq<CompanyId>, at: nat, stage: Stage, missed: set<CompanyId>)
    | Finished(list: seq<CompanyId>, missed: set<CompanyId>)
    | Skipped                                            // existingTenants: "skip"
    | Failed

  datatype Seeder = Seeder(release: Release, phase: Phase)

  datatype State = State(
    templates: Templates,            // committed
    tenants: Tenants,
    companies: set<CompanyId>,
    issued: set<CompanyId>,          // company ids are never reused
    lock: Option<SeederId>,
    seeders: map<SeederId, Seeder>)

  /** What one seeder can do. */
  datatype Move =
    | Arrive
    | Acquire
    | UpsertCatalogue(catalogue: map<Key, PermissionId>)
    | WriteTemplate(id: RoleId)
    | Commit
    | Abort
    | SkipTenants
    | ListCompanies(listed: seq<CompanyId>)
    | GrantOne
    | RevokeOne
    | Chart
    | PassOver
    | Throw
    | Finish

  /** A move of some seeder, or something anybody else does to the tables. */
  datatype Action =
    | By(p: SeederId, move: Move)
    | ForeignGrant(scope: Option<CompanyId>)
    | ForeignRevoke(scope: Option<CompanyId>)
    | DeleteCompany(company: CompanyId)
    | CreateCompany(company: CompanyId, added: Tenants)
    | EditCustomRoles(grants: set<Grant>)

  function SetPhase(s: State, p: SeederId, phase: Phase): State
    requires p in s.seeders
  {
    s.(seeders := s.seeders[p := s.seeders[p].(phase := phase)])
  }

  predicate Enumerates(list: seq<CompanyId>, companies: set<CompanyId>) {
    (forall c | c in list :: c in companies) && (forall c | c in companies :: c in list)
  }

  predicate Enabled(s: State, a: Action) {
    match a
    case By(p, move) => p in s.seeders && Ready(s, s.seeders[p], move) && (move.Acquire? ==> s.lock == None)
    case ForeignGrant(_) => true
    case ForeignRevoke(_) => true
    case DeleteCompany(c) => c in s.companies
    case CreateCompany(c, added) =>
      // provisioning, at its most careless: any roles, any grants
      && c !in s.issued && WellFormed(added)
      && (forall r | r in added.roles :: r !in s.tenants.roles && added.roles[r].company == c)
    case EditCustomRoles(grants) =>
      // updateRole and deleteRole refuse system roles
      && WellFormed(s.tenants.(grants := grants))
      && (forall g | g in grants :: s.tenants.roles[g.0].isSystem ==> g in s.tenants.grants)
      && (forall g | g in s.tenants.grants :: g.0 in s.tenants.roles && s.tenants.roles[g.0].isSystem ==> g in grants)
  }

  /** Where the seeder's own code has got to, the lock aside. */
  predicate Ready(s: State, q: Seeder, move: Move) {
    var phase, release := q.phase, q.release;
    match move
    case Arrive => phase.Idle?
    case Acquire => phase.Waiting?
    case UpsertCatalogue(catalogue) =>
      && phase.Writing? && !phase.upserted
      && CatalogueUpserted(phase.work.catalogue, catalogue, release.permissions)
    case WriteTemplate(id) =>
      && phase.Writing? && phase.upserted && phase.done < |release.templates|
      && Usable(phase.work, release.templates[phase.done].key, id)
    case Commit => phase.Writing? && phase.upserted && phase.done == |release.templates|
    case Abort => phase.Waiting? || phase.Writing?
    case SkipTenants => phase.Committed?
    case ListCompanies(list) => phase.Committed? && Enumerates(list, s.companies)
    case GrantOne => InPass(phase) && phase.stage == Granting
    case RevokeOne => InPass(phase) && phase.stage == Revoking
    case Chart => InPass(phase) && phase.stage == Charting
    // a vanished row, in any of the three statements, whatever it was that vanished
    case PassOver => InPass(phase)
    case Throw => phase.Sweeping?
    case Finish => phase.Sweeping? && phase.at == |phase.list|
  }

  predicate InPass(phase: Phase) {
    phase.Sweeping? && phase.at < |phase.list|
  }

  function Next(s: State, a: Action): State
    requires Enabled(s, a)
  {
    match a
    case By(p, move) => AfterMove(s, p, move)
    case ForeignGrant(scope) => s.(tenants := AfterGrant(s.templates, s.tenants, scope))
    case ForeignRevoke(scope) => s.(tenants := AfterRevoke(s.templates, s.tenants, scope))
    case DeleteCompany(c) =>
      s.(tenants := WithoutCompanies(s.tenants, {c}), companies := s.companies - {c})
    case CreateCompany(c, added) =>
      s.(tenants := Tenants(s.tenants.roles + added.roles, s.tenants.grants + added.grants),
         companies := s.companies + {c}, issued := s.issued + {c})
    case EditCustomRoles(grants) => s.(tenants := s.tenants.(grants := grants))
  }

  function AfterMove(s: State, p: SeederId, move: Move): State
    requires p in s.seeders && Ready(s, s.seeders[p], move)
  {
    var phase, release := s.seeders[p].phase, s.seeders[p].release;
    match move
    case Arrive => SetPhase(s, p, Waiting)
    case Acquire => SetPhase(s.(lock := Some(p)), p, Writing(s.templates, s.templates, false, 0))
    case UpsertCatalogue(catalogue) =>
      SetPhase(s, p, phase.(work := phase.work.(catalogue := catalogue), upserted := true))
    case WriteTemplate(id) =>
      SetPhase(s, p, phase.(work := SeedOne(phase.work, release.templates[phase.done], id), done := phase.done + 1))
    case Commit => SetPhase(s.(templates := phase.work, lock := None), p, Committed)
    case Abort => SetPhase(if phase.Writing? then s.(lock := None) else s, p, Failed)
    case SkipTenants => SetPhase(s, p, Skipped)
    case ListCompanies(list) => SetPhase(s, p, Sweeping(list, 0, Granting, {}))
    case GrantOne =>
      SetPhase(s.(tenants := AfterGrant(s.templates, s.tenants, Some(phase.list[phase.at]))), p,
               phase.(stage := Revoking))
    case RevokeOne =>
      SetPhase(s.(tenants := AfterRevoke(s.templates, s.tenants, Some(phase.list[phase.at]))), p,
               phase.(stage := Charting))
    case Chart => SetPhase(s, p, phase.(at := phase.at + 1, stage := Granting))
    case PassOver =>
      var missed := if phase.stage == Charting then phase.missed else phase.missed + {phase.list[phase.at]};
      SetPhase(s, p, phase.(at := phase.at + 1, stage := Granting, missed := missed))
    case Throw => SetPhase(s, p, Failed)
    case Finish => SetPhase(s, p, Finished(phase.list, phase.missed))
  }

  predicate IsCommit(a: Action) {
    a.By? && a.move.Commit?
  }

  // ----- the invariant

  /** One seeder at most is inside the critical section: the lock's holder. */
  predicate Exclusive(s: State) {
    forall p | p in s.seeders :: s.seeders[p].phase.Writing? <==> s.lock == Some(p)
  }

  /** A transaction under way started from the committed rows, and has written
      what its release says so far. */
  ghost predicate WritingWell(s: State, q: Seeder) {
    q.phase.Writing? ==>
      && q.phase.base == s.templates
      && (if q.phase.upserted then Seeded(q.release, q.phase.base, q.phase.work, q.phase.done)
          else q.phase.work == q.phase.base && q.phase.done == 0)
  }

  ghost predicate TablesWell(s: State) {
    && TemplatesWellFormed(s.templates) && WellFormed(s.tenants)
    && s.companies <= s.issued
    && (forall r | r in s.tenants.roles :: s.tenants.roles[r].company in s.companies)
  }

  /** A sweep walks over companies that existed. */
  predicate ListWell(s: State, phase: Phase) {
    phase.Sweeping? || phase.Finished? ==> forall c | c in phase.list :: c in s.issued
  }

  ghost predicate SeederWell(s: State, q: Seeder) {
    DistinctKeys(q.release) && WritingWell(s, q) && ListWell(s, q.phase)
  }

  ghost predicate Inv(s: State) {
    && Exclusive(s) && TablesWell(s)
    && (forall p | p in s.seeders :: SeederWell(s, s.seeders[p]))
  }

  /** Nobody has started; the tables hold anything, so long as there is one
      template row per key. */
  ghost predicate Init(s: State) {
    && TablesWell(s) && s.lock == None
    && (forall p | p in s.seeders :: s.seeders[p].phase.Idle? && DistinctKeys(s.seeders[p].release))
  }

  lemma InitEstablishes(s: State)
    requires Init(s)
    ensures Inv(s)
  {
  }

  // ----- every action keeps it

  lemma TablesStayWell(s: State, a: Action)
    requires TablesWell(s) && Enabled(s, a) && !IsCommit(a)
    ensures TablesWell(Next(s, a)) && Next(s, a).templates == s.templates && s.issued <= Next(s, a).issued
  {
    match a {
      case ForeignGrant(scope) => GrantWellFormed(s.templates, s.tenants, scope);
      case ForeignRevoke(scope) => RevokeWellFormed(s.templates, s.tenants, scope);
      case By(p, move) =>
        if move.GrantOne? || move.RevokeOne? {
          var phase := s.seeders[p].phase;
          GrantWellFormed(s.templates, s.tenants, Some(phase.list[phase.at]));
          RevokeWellFormed(s.templates, s.tenants, Some(phase.list[phase.at]));
        }
      case _ =>
    }
    hide TemplatesWellFormed, AfterGrant, AfterRevoke;
  }

  /** Seeders that did not move are as they were. */
  lemma OthersStand(s: State, a: Action, q: SeederId)
    requires Enabled(s, a) && q in s.seeders && !(a.By? && a.p == q)
    ensures q in Next(s, a).seeders && Next(s, a).seeders[q] == s.seeders[q]
  {
  }

  lemma ForeignActionKeeps(s: State, a: Action)
    requires Inv(s) && Enabled(s, a) && !a.By?
    ensures Inv(Next(s, a))
  {
    TablesStayWell(s, a);
    hide TablesWell, WellFormed, Seeded, DistinctKeys, AfterGrant, AfterRevoke, WithoutCompanies;
  }

  /** What a seeder's move has to do for the invariant: its own phase fits, and
      the lock changes hands properly. */
  lemma MoveKeeps(s: State, p: SeederId, s': State)
    requires Inv(s) && p in s.seeders && TablesWell(s') && s.issued <= s'.issued
    requires p in s'.seeders && s'.seeders == s.seeders[p := s'.seeders[p]] && SeederWell(s', s'.seeders[p])
    requires s'.templates == s.templates || s.lock == Some(p)
    requires s'.lock == if s'.seeders[p].phase.Writing? then Some(p) else if s.lock == Some(p) then None else s.lock
    requires s'.lock == Some(p) ==> s.lock == None || s.lock == Some(p)
    ensures Inv(s')
  {
    hide TablesWell, Seeded, DistinctKeys;
  }

  /** Moves inside the transaction, and into and out of it without a commit. */
  lemma TransactionMoveKeeps(s: State, p: SeederId, move: Move)
    requires Inv(s) && Enabled(s, By(p, move))
    requires move.Arrive? || move.Acquire? || move.UpsertCatalogue? || move.WriteTemplate? || move.Abort?
    ensures Inv(Next(s, By(p, move)))
  {
    hide Seeded, Matches, CatalogueUpserted, Usable, SeedOne, TemplatesWellFormed, DistinctKeys, WellFormed;
    var s' := Next(s, By(p, move));
    var q := s.seeders[p];
    match move {
      case UpsertCatalogue(catalogue) => CatalogueStep(q.release, q.phase.base, catalogue);
      case WriteTemplate(id) => SeedOneStep(q.release, q.phase.base, q.phase.work, q.phase.done, id);
      case _ =>
    }
    MoveKeeps(s, p, s');
  }

  /** Moves of the sweep, one statement at a time. */
  lemma SweepMoveKeeps(s: State, p: SeederId, move: Move)
    requires Inv(s) && Enabled(s, By(p, move))
    requires s.seeders[p].phase.Sweeping? || s.seeders[p].phase.Committed?
    ensures Inv(Next(s, By(p, move)))
  {
    TablesStayWell(s, By(p, move));
    assert s.companies <= s.issued;
    hide TablesWell, Seeded, DistinctKeys, AfterGrant, AfterRevoke;
    MoveKeeps(s, p, Next(s, By(p, move)));
  }

  /** The commit publishes exactly what the release says, applied to the rows
      the previous commit left. */
  lemma CommitKeeps(s: State, p: SeederId)
    requires Inv(s) && Enabled(s, By(p, Commit))
    ensures Inv(Next(s, By(p, Commit)))
    ensures var release := s.seeders[p].release;
            Seeded(release, s.templates, Next(s, By(p, Commit)).templates, |release.templates|)
  {
    hide Matches, RowsKept, RowsAdded, GrantsKept, CatalogueUpserted, TemplatesWellFormed, DistinctKeys, WellFormed;
    MoveKeeps(s, p, Next(s, By(p, Commit)));
  }

  /** Every action, in every state the invariant allows. */
  lemma NextKeepsInv(s: State, a: Action)
    requires Inv(s) && Enabled(s, a)
    ensures Inv(Next(s, a))
  {
    hide Inv, Next;
    match a {
      case By(p, move) =>
        match move {
          case Arrive => TransactionMoveKeeps(s, p, move);
          case Acquire => TransactionMoveKeeps(s, p, move);
          case UpsertCatalogue(_) => TransactionMoveKeeps(s, p, move);
          case WriteTemplate(_) => TransactionMoveKeeps(s, p, move);
          case Abort => TransactionMoveKeeps(s, p, move);
          case Commit => CommitKeeps(s, p);
          case _ => SweepMoveKeeps(s, p, move);
        }
      case _ => ForeignActionKeeps(s, a);
    }
  }

  // ----- runs

  ghost predicate IsRun(run: seq<State>, actions: seq<Action>) {
    && |run| == |actions| + 1
    && (forall i | 0 <= i < |actions| :: Enabled(run[i], actions[i]) && run[i + 1] == Next(run[i], actions[i]))
  }

  lemma {:induction false} InvThroughRun(run: seq<State>, actions: seq<Action>, i: nat)
    requires IsRun(run, actions) && Init(run[0]) && i < |run|
    ensures Inv(run[i])
  {
    hide Inv, Init, Enabled, Next;
    if i == 0 {
      InitEstablishes(run[0]);
    } else {
      InvThroughRun(run, actions, i - 1);
      NextKeepsInv(run[i - 1], actions[i - 1]);
    }
  }

  // ----- the templates: one transaction at a time

  predicate InTransaction(s: State, p: SeederId) {
    p in s.seeders && s.seeders[p].phase.Writing?
  }

  /** While a seeder is inside its transaction it is the only one, and the rows
      it read at the start are still the committed ones. */
  lemma {:induction false} AloneInTransaction(run: seq<State>, actions: seq<Action>, i: nat, j: nat, p: SeederId)
    requires IsRun(run, actions) && Init(run[0]) && i <= j < |run|
    requires forall k | i <= k <= j :: InTransaction(run[k], p)
    ensures run[j].templates == run[i].templates
    ensures forall q | InTransaction(run[j], q) :: q == p
    decreases j
  {
    InvThroughRun(run, actions, j);
    if i < j {
      AloneInTransaction(run, actions, i, j - 1, p);
      CommitEndsTransaction(run[j - 1], actions[j - 1], p);
    }
  }

  lemma CommitEndsTransaction(s: State, a: Action, p: SeederId)
    requires Enabled(s, a) && InTransaction(s, p) && InTransaction(Next(s, a), p)
    requires forall q | InTransaction(s, q) :: q == p
    ensures Next(s, a).templates == s.templates
  {
    assert a.By? && a.move.Commit? ==> InTransaction(s, a.p);
  }

  /** At no time does a key have two template rows. */
  lemma AlwaysOnePerKey(run: seq<State>, actions: seq<Action>, i: nat)
    requires IsRun(run, actions) && Init(run[0]) && i < |run|
    ensures OnePerKey(run[i].templates)
  {
    InvThroughRun(run, actions, i);
  }

  /** Serialisability: whenever a seeder commits, the committed rows become what
      its release makes of the rows committed just before, as if it had run
      alone. */
  lemma CommitsAreSerial(run: seq<State>, actions: seq<Action>, i: nat, p: SeederId)
    requires IsRun(run, actions) && Init(run[0]) && i < |actions| && actions[i] == By(p, Commit)
    ensures var release := run[i].seeders[p].release;
            Seeded(release, run[i].templates, run[i + 1].templates, |release.templates|)
  {
    InvThroughRun(run, actions, i);
    CommitKeeps(run[i], p);
  }

  // ----- one company: a grant, a revoke, and whatever happens between and after

  predicate PassOf(phase: Phase, c: CompanyId) {
    InPass(phase) && phase.list[phase.at] == c
  }

  /** The action runs the INSERT over the roles of this company. */
  predicate Grants(s: State, a: Action, c: CompanyId) {
    match a
    case By(p, move) =>
      move.GrantOne? && p in s.seeders && PassOf(s.seeders[p].phase, c)
    case ForeignGrant(scope) => scope == None || scope == Some(c)
    case _ => false
  }

  /** The action runs the DELETE over the roles of this company. */
  predicate Revokes(s: State, a: Action, c: CompanyId) {
    match a
    case By(p, move) =>
      move.RevokeOne? && p in s.seeders && PassOf(s.seeders[p].phase, c)
    case ForeignRevoke(scope) => scope == None || scope == Some(c)
    case _ => false
  }

  ghost predicate NoCommit(actions: seq<Action>, from: nat, to: nat)
    requires from <= to <= |actions|
  {
    forall k | from <= k < to :: !IsCommit(actions[k])
  }

  /** No action but a commit takes a company out of line or uncovers it; a grant
      that reaches it covers it, and a revoke that reaches it once covered brings
      it in line. */
  lemma ActionKeepsCompany(s: State, a: Action, c: CompanyId)
    requires TablesWell(s) && Enabled(s, a) && !IsCommit(a) && c in s.issued
    ensures var s' := Next(s, a);
            && c in s'.issued
            && (CompanyInLine(s.templates, s.tenants, c) ==> CompanyInLine(s'.templates, s'.tenants, c))
            && (CompanyCovered(s.templates, s.tenants, c) || Grants(s, a, c)
                ==> CompanyCovered(s'.templates, s'.tenants, c))
            && (CompanyCovered(s.templates, s.tenants, c) && Revokes(s, a, c)
                ==> CompanyInLine(s'.templates, s'.tenants, c))
  {
    TablesStayWell(s, a);
    hide CompanyInLine, CompanyCovered, AfterGrant, AfterRevoke, WithoutCompanies, TablesWell, WellFormed, Seeded;
    match a {
      case ForeignGrant(scope) => RoleSync.StatementsKeep(s.templates, s.tenants, scope, c);
      case ForeignRevoke(scope) => RoleSync.StatementsKeep(s.templates, s.tenants, scope, c);
      case DeleteCompany(d) =>
        RoleSync.DeletionKeeps(s.templates, RoleSync.World(s.tenants, s.companies), {d}, c);
      case CreateCompany(d, added) => CreationKeeps(s, d, added, c);
      case EditCustomRoles(grants) => EditingKeeps(s, grants, c);
      case By(p, move) =>
        if move.GrantOne? || move.RevokeOne? {
          var phase := s.seeders[p].phase;
          RoleSync.StatementsKeep(s.templates, s.tenants, Some(phase.list[phase.at]), c);
        }
    }
  }

  lemma CreationKeeps(s: State, d: CompanyId, added: Tenants, c: CompanyId)
    requires TablesWell(s) && Enabled(s, CreateCompany(d, added)) && c in s.issued
    ensures CompanyInLine(s.templates, s.tenants, c)
            ==> CompanyInLine(s.templates, Next(s, CreateCompany(d, added)).tenants, c)
    ensures CompanyCovered(s.templates, s.tenants, c)
            ==> CompanyCovered(s.templates, Next(s, CreateCompany(d, added)).tenants, c)
  {
    SameRolesSameStanding(s.templates, s.tenants, Next(s, CreateCompany(d, added)).tenants, c);
  }

  lemma EditingKeeps(s: State, grants: set<Grant>, c: CompanyId)
    requires TablesWell(s) && Enabled(s, EditCustomRoles(grants))
    ensures CompanyInLine(s.templates, s.tenants, c)
            ==> CompanyInLine(s.templates, s.tenants.(grants := grants), c)
    ensures CompanyCovered(s.templates, s.tenants, c)
            ==> CompanyCovered(s.templates, s.tenants.(grants := grants), c)
  {
    SameRolesSameStanding(s.templates, s.tenants, s.tenants.(grants := grants), c);
  }

  lemma TablesWellInRun(run: seq<State>, actions: seq<Action>, i: nat)
    requires IsRun(run, actions) && Init(run[0]) && i < |run|
    ensures TablesWell(run[i])
  {
    InvThroughRun(run, actions, i);
  }

  lemma {:induction false} CoveredSince(run: seq<State>, actions: seq<Action>, g: nat, i: nat, c: CompanyId)
    requires IsRun(run, actions) && Init(run[0]) && g < i < |run|
    requires c in run[g].issued && Grants(run[g], actions[g], c) && NoCommit(actions, g, i)
    ensures c in run[i].issued && CompanyCovered(run[i].templates, run[i].tenants, c)
    decreases i
  {
    hide CompanyInLine, CompanyCovered, Enabled, Next, Init, TablesWell, Grants, Revokes;
    if g + 1 < i {
      CoveredSince(run, actions, g, i - 1, c);
    }
    TablesWellInRun(run, actions, i - 1);
    ActionKeepsCompany(run[i - 1], actions[i - 1], c);
  }

  /** Convergence, company by company and over every interleaving: once a grant
      and then a revoke have reached a company, whoever ran them and whatever
      anybody did before, between and after, every system role of the company
      holds exactly what its template holds, in every later state up to the next
      commit of templates. */
  lemma {:induction false} SyncConverges(run: seq<State>, actions: seq<Action>, g: nat, v: nat, j: nat, c: CompanyId)
    requires IsRun(run, actions) && Init(run[0]) && g < v < j < |run|
    requires c in run[g].issued && NoCommit(actions, g, j)
    requires Grants(run[g], actions[g], c) && Revokes(run[v], actions[v], c)
    ensures c in run[j].issued && CompanyInLine(run[j].templates, run[j].tenants, c)
    decreases j
  {
    hide CompanyInLine, CompanyCovered, Enabled, Next, Init, TablesWell, Grants, Revokes;
    if j == v + 1 {
      CoveredSince(run, actions, g, v, c);
    } else {
      SyncConverges(run, actions, g, v, j - 1, c);
    }
    TablesWellInRun(run, actions, j - 1);
    ActionKeepsCompany(run[j - 1], actions[j - 1], c);
  }

  // ----- a sweep: what its passes did

  /** The pass over the k-th company is still to come. */
  predicate Before(phase: Phase, k: nat) {
    || phase.Committed?
    || (phase.Sweeping? && (phase.at < k || (phase.at == k && phase.stage == Granting)))
  }

  predicate InStage(phase: Phase, list: seq<CompanyId>, k: nat, stage: Stage) {
    InPass(phase) && phase.list == list && phase.at == k && phase.stage == stage
  }

  /** The pass over the k-th company is over, and was not cut short at a role
      statement. */
  predicate Passed(phase: Phase, list: seq<CompanyId>, k: nat)
    requires k < |list|
  {
    && (phase.Sweeping? || phase.Finished?) && phase.list == list && list[k] !in phase.missed
    && (phase.Sweeping? ==> k < phase.at)
  }


  /** One step back from inside a pass, or from after it. */
  lemma StepBack(s: State, a: Action, p: SeederId, list: seq<CompanyId>, k: nat)
    requires Enabled(s, a) && p in Next(s, a).seeders && k < |list|
    ensures p in s.seeders
    ensures var was, now := s.seeders[p].phase, Next(s, a).seeders[p].phase;
            && (InStage(now, list, k, Revoking) && !InStage(was, list, k, Revoking)
                ==> InStage(was, list, k, Granting) && Grants(s, a, list[k]))
            && (InStage(now, list, k, Charting) && !InStage(was, list, k, Charting)
                ==> InStage(was, list, k, Revoking) && Revokes(s, a, list[k]))
            && (Passed(now, list, k) && !Passed(was, list, k) ==> InStage(was, list, k, Charting))
  {
    if !(a.By? && a.p == p) {
      OthersStand(s, a, p);
    }
  }

  lemma {:induction false} GrantHappened(run: seq<State>, actions: seq<Action>, a: nat, i: nat, p: SeederId,
                                         list: seq<CompanyId>, k: nat) returns (g: nat)
    requires IsRun(run, actions) && a <= i < |run| && k < |list|
    requires p in run[a].seeders && Before(run[a].seeders[p].phase, k)
    requires p in run[i].seeders && InStage(run[i].seeders[p].phase, list, k, Revoking)
    ensures a <= g < i && Grants(run[g], actions[g], list[k])
    ensures p in run[g].seeders && InStage(run[g].seeders[p].phase, list, k, Granting)
    decreases i
  {
    hide Enabled, Next, Grants, Revokes;
    StepBack(run[i - 1], actions[i - 1], p, list, k);
    if InStage(run[i - 1].seeders[p].phase, list, k, Revoking) {
      g := GrantHappened(run, actions, a, i - 1, p, list, k);
    } else {
      g := i - 1;
    }
  }

  lemma {:induction false} RevokeHappened(run: seq<State>, actions: seq<Action>, a: nat, i: nat, p: SeederId,
                                          list: seq<CompanyId>, k: nat) returns (g: nat, v: nat)
    requires IsRun(run, actions) && a <= i < |run| && k < |list|
    requires p in run[a].seeders && Before(run[a].seeders[p].phase, k)
    requires p in run[i].seeders && InStage(run[i].seeders[p].phase, list, k, Charting)
    ensures a <= g < v < i && Grants(run[g], actions[g], list[k]) && Revokes(run[v], actions[v], list[k])
    ensures p in run[g].seeders && InStage(run[g].seeders[p].phase, list, k, Granting)
    decreases i
  {
    hide Enabled, Next, Grants, Revokes;
    StepBack(run[i - 1], actions[i - 1], p, list, k);
    if InStage(run[i - 1].seeders[p].phase, list, k, Charting) {
      g, v := RevokeHappened(run, actions, a, i - 1, p, list, k);
    } else {
      v := i - 1;
      g := GrantHappened(run, actions, a, v, p, list, k);
    }
  }

  /** A company that a sweep has passed, without passing it over, had its grant
      and then its revoke, both since the pass was still to come. */
  lemma {:induction false} PassHappened(run: seq<State>, actions: seq<Action>, a: nat, i: nat, p: SeederId,
                                        list: seq<CompanyId>, k: nat) returns (g: nat, v: nat)
    requires IsRun(run, actions) && a <= i < |run| && k < |list|
    requires p in run[a].seeders && Before(run[a].seeders[p].phase, k)
    requires p in run[i].seeders && Passed(run[i].seeders[p].phase, list, k)
    ensures a <= g < v < i && Grants(run[g], actions[g], list[k]) && Revokes(run[v], actions[v], list[k])
    ensures p in run[g].seeders && InStage(run[g].seeders[p].phase, list, k, Granting)
    decreases i
  {
    hide Enabled, Next, Grants, Revokes;
    StepBack(run[i - 1], actions[i - 1], p, list, k);
    if Passed(run[i - 1].seeders[p].phase, list, k) {
      g, v := PassHappened(run, actions, a, i - 1, p, list, k);
    } else {
      g, v := RevokeHappened(run, actions, a, i - 1, p, list, k);
    }
  }

  /** Every company whose pass began after the last commit of templates, and was
      not passed over at a role statement, is in line from the end of its pass
      on; it does not matter when the sweep listed its companies. */
  lemma SweepConverges(run: seq<State>, actions: seq<Action>, a: nat, i: nat, p: SeederId,
                       list: seq<CompanyId>, k: nat)
    requires IsRun(run, actions) && Init(run[0]) && a <= i < |run| && k < |list|
    requires NoCommit(actions, a, i)
    requires p in run[a].seeders && Before(run[a].seeders[p].phase, k)
    requires p in run[i].seeders && Passed(run[i].seeders[p].phase, list, k)
    ensures CompanyInLine(run[i].templates, run[i].tenants, list[k])
  {
    hide CompanyInLine, Enabled, Next, Init, TablesWell, Grants, Revokes, Exclusive, WritingWell, DistinctKeys;
    var g, v := PassHappened(run, actions, a, i, p, list, k);
    InvThroughRun(run, actions, g);
    assert SeederWell(run[g], run[g].seeders[p]);
    assert list[k] in run[g].issued;
    SyncConverges(run, actions, g, v, i, list[k]);
  }

  /** The sweep of this seeder passes a company over in the middle of its roles. */
  predicate PassesOver(s: State, a: Action, p: SeederId, c: CompanyId) {
    a == By(p, PassOver) && p in s.seeders && PassOf(s.seeders[p].phase, c) && s.seeders[p].phase.stage != Charting
  }

  lemma AfterListing(s: State, a: Action, p: SeederId, list: seq<CompanyId>)
    requires Enabled(s, a) && p in s.seeders
    requires var phase := s.seeders[p].phase;
             phase.Failed? || ((phase.Sweeping? || phase.Finished?) && phase.list == list)
    ensures p in Next(s, a).seeders
    ensures var was, now := s.seeders[p].phase, Next(s, a).seeders[p].phase;
            && (now.Failed? || ((now.Sweeping? || now.Finished?) && now.list == list))
            && (!now.Failed? ==>
                 !was.Failed? && forall c | c in now.missed && c !in was.missed :: PassesOver(s, a, p, c))
  {
    if !(a.By? && a.p == p) {
      OthersStand(s, a, p);
    }
  }

  /** What a sweep missed, it passed over. */
  lemma {:induction false} MissedMeans(run: seq<State>, actions: seq<Action>, l: nat, i: nat, p: SeederId,
                                       list: seq<CompanyId>)
    requires IsRun(run, actions) && l < i < |run| && actions[l] == By(p, ListCompanies(list))
    ensures p in run[i].seeders
    ensures var phase := run[i].seeders[p].phase;
            phase.Failed? || ((phase.Sweeping? || phase.Finished?) && phase.list == list)
    ensures !run[i].seeders[p].phase.Failed? ==>
              forall c | c in run[i].seeders[p].phase.missed ::
                exists m | l <= m < i :: PassesOver(run[m], actions[m], p, c)
    decreases i
  {
    if i > l + 1 {
      hide Enabled, Next, PassesOver;
      MissedMeans(run, actions, l, i - 1, p, list);
      AfterListing(run[i - 1], actions[i - 1], p, list);
    }
  }

  /** Once a sweep that listed its companies after the last template commit has
      finished, every company that existed when it listed them is in line, except
      where it met a vanished row at one of the two role statements. */
  lemma FinishedSweepCoversAll(run: seq<State>, actions: seq<Action>, l: nat, i: nat, p: SeederId,
                               list: seq<CompanyId>, c: CompanyId)
    requires IsRun(run, actions) && Init(run[0]) && l < i < |run|
    requires actions[l] == By(p, ListCompanies(list)) && NoCommit(actions, l, i)
    requires p in run[i].seeders && run[i].seeders[p].phase.Finished?
    requires c in run[l].companies
    ensures || CompanyInLine(run[i].templates, run[i].tenants, c)
            || exists m | l <= m < i :: PassesOver(run[m], actions[m], p, c)
  {
    assert Enabled(run[l], actions[l]);
    var k :| 0 <= k < |list| && list[k] == c;
    hide CompanyInLine, Enabled, Next, PassesOver, Init;
    MissedMeans(run, actions, l, i, p, list);
    if c !in run[i].seeders[p].phase.missed {
      SweepConverges(run, actions, l, i, p, list, k);
    }
  }

  // ----- what the roles converge to

  lemma {:induction false} SinceCommit(run: seq<State>, actions: seq<Action>, m: nat, i: nat, p: SeederId)
    requires IsRun(run, actions) && m <= i < |run| && NoCommit(actions, m, i) && p in run[m].seeders
    ensures run[i].templates == run[m].templates
    ensures p in run[i].seeders && run[i].seeders[p].release == run[m].seeders[p].release
    decreases i
  {
    if m < i {
      SinceCommit(run, actions, m, i - 1, p);
      hide Ready;
    }
  }

  /** Once a seeder has committed, and until somebody else does, the companies it
      has passed hold what its release says, permission by permission, under each
      key the release defines; what the other seeders are doing does not matter. */
  lemma ConvergesToLastRelease(run: seq<State>, actions: seq<Action>, m: nat, i: nat, p: SeederId,
                               list: seq<CompanyId>, k: nat, r: RoleId, d: TemplateDef)
    requires IsRun(run, actions) && Init(run[0]) && m < i < |run| && k < |list|
    requires actions[m] == By(p, Commit) && NoCommit(actions, m + 1, i)
    requires p in run[i].seeders && Passed(run[i].seeders[p].phase, list, k)
    requires r in run[i].tenants.roles && run[i].tenants.roles[r].isSystem
    requires run[i].tenants.roles[r].company == list[k] && run[i].tenants.roles[r].key == d.key
    requires d in run[i].seeders[p].release.templates
    ensures var catalogue := run[i].templates.catalogue;
            && (forall perm: PermissionId | (r, perm) in run[i].tenants.grants :: perm in catalogue.Values)
            && (forall key | key in catalogue ::
                 (r, catalogue[key]) in run[i].tenants.grants <==> key in d.permissions)
  {
    CommitsAreSerial(run, actions, m, p);
    hide InLine, Enabled, Init, Passed, Matches, TemplatesWellFormed, RowsKept, RowsAdded, GrantsKept;
    hide CatalogueUpserted, Ready;
    assert run[m + 1].seeders[p].phase.Committed?;
    hide Next;
    SinceCommit(run, actions, m + 1, i, p);
    SweepConverges(run, actions, m + 1, i, p, list, k);
    assert InLine(run[i].templates, run[i].tenants, r);
    InLineHoldings(run[i].templates, run[i].tenants, r, d);
  }

  lemma InLineHoldings(t: Templates, n: Tenants, r: RoleId, d: TemplateDef)
    requires TemplatesWellFormed(t) && Matches(t, d) && r in n.roles && n.roles[r].key == d.key && InLine(t, n, r)
    ensures forall perm: PermissionId | (r, perm) in n.grants :: perm in t.catalogue.Values
    ensures forall key | key in t.catalogue :: (r, t.catalogue[key]) in n.grants <==> key in d.permissions
  {
    forall perm: PermissionId | (r, perm) in n.grants
      ensures perm in t.catalogue.Values
    {
      MatchedHoldings(t, d, perm);
    }
    forall key | key in t.catalogue
      ensures (r, t.catalogue[key]) in n.grants <==> key in d.permissions
    {
      MatchedHoldings(t, d, t.catalogue[key]);
    }
  }

  /** Custom roles are never touched: only their own company's edits, or its
      deletion, change what they hold. */
  lemma CustomRolesUntouched(s: State, a: Action, r: RoleId, perm: PermissionId)
    requires TablesWell(s) && Enabled(s, a) && !a.EditCustomRoles?
    requires r in s.tenants.roles && !s.tenants.roles[r].isSystem
    requires a.DeleteCompany? ==> a.company != s.tenants.roles[r].company
    ensures r in Next(s, a).tenants.roles && Next(s, a).tenants.roles[r] == s.tenants.roles[r]
    ensures (r, perm) in Next(s, a).tenants.grants <==> (r, perm) in s.tenants.grants
  {
    match a {
      case By(p, move) =>
        if move.GrantOne? || move.RevokeOne? {
          var phase := s.seeders[p].phase;
          StatementsStayInScope(s.templates, s.tenants, Some(phase.list[phase.at]), (r, perm));
        }
      case ForeignGrant(scope) => StatementsStayInScope(s.templates, s.tenants, scope, (r, perm));
      case ForeignRevoke(scope) => StatementsStayInScope(s.templates, s.tenants, scope, (r, perm));
      case _ =>
    }
  }

  // ----- why the lock

  /** A seeder moves without waiting for the lock. */
  predicate UnlockedStep(s: State, a: Action, s': State) {
    && a.By? && a.p in s.seeders && Ready(s, s.seeders[a.p], a.move)
    && s' == AfterMove(s, a.p, a.move)
  }

  predicate IsUnlockedRun(run: seq<State>, actions: seq<Action>) {
    && |run| == |actions| + 1
    && (forall i | 0 <= i < |actions| :: UnlockedStep(run[i], actions[i], run[i + 1]))
  }

  /** The row that the last action creates, put among the committed rows, gives
      its key a second one: what the unique index rejects. */
  ghost predicate RejectedByIndex(committed: Templates, work: Templates, id: RoleId) {
    && OnePerKey(committed) && OnePerKey(work) && id in work.roles && id !in committed.roles
    && !OnePerKey(committed.(roles := committed.roles[id := work.roles[id]]))
  }

  lemma JoinRuns(first: seq<State>, a: seq<Action>, second: seq<State>, b: seq<Action>)
    requires IsUnlockedRun(first, a) && IsUnlockedRun(second, b) && first[|a|] == second[0]
    ensures IsUnlockedRun(first + second[1..], a + b)
  {
    hide UnlockedStep;
    var run := first + second[1..];
    forall i | 0 <= i < |a + b|
      ensures UnlockedStep(run[i], (a + b)[i], run[i + 1])
    {
      if i >= |a| {
        assert run[i] == second[i - |a|] && run[i + 1] == second[i - |a| + 1];
      }
    }
  }

  /** Two seeders of a release that defines one template enter together. */
  lemma BothEnter(s: State, p: SeederId, q: SeederId) returns (run: seq<State>, actions: seq<Action>)
    requires p in s.seeders && q in s.seeders && p != q
    requires s.seeders[p].phase.Idle? && s.seeders[q].phase.Idle?
    requires s.seeders[p].release.permissions == s.seeders[q].release.permissions == []
    requires DistinctIds(s.templates.catalogue)
    ensures IsUnlockedRun(run, actions) && |run| == 7 && run[0] == s
    ensures var read := Writing(s.templates, s.templates, true, 0);
            run[6] == SetPhase(SetPhase(s.(lock := Some(q)), p, read), q, read)
  {
    hide DistinctIds;
    assert CatalogueUpserted(s.templates.catalogue, s.templates.catalogue, []);
    hide CatalogueUpserted;
    var none := UpsertCatalogue(s.templates.catalogue);
    var s1 := AfterMove(s, p, Arrive);
    var s2 := AfterMove(s1, q, Arrive);
    var s3 := AfterMove(s2, p, Acquire);
    var s4 := AfterMove(s3, q, Acquire);
    var s5 := AfterMove(s4, p, none);
    var s6 := AfterMove(s5, q, none);
    run := [s, s1, s2, s3, s4, s5, s6];
    actions := [By(p, Arrive), By(q, Arrive), By(p, Acquire), By(q, Acquire), By(p, none), By(q, none)];
  }

  /** One writes and commits, the other writes what its own reading allows. */
  lemma BothWrite(s: State, entered: State, p: SeederId, q: SeederId, d: TemplateDef, x: RoleId, y: RoleId)
    returns (run: seq<State>, actions: seq<Action>)
    requires p in s.seeders && q in s.seeders && p != q
    requires var read := Writing(s.templates, s.templates, true, 0);
             entered == SetPhase(SetPhase(s.(lock := Some(q)), p, read), q, read)
    requires s.seeders[p].release == s.seeders[q].release == Release([], [d])
    requires !HasKey(s.templates, d.key) && x !in s.templates.roles && y !in s.templates.roles
    ensures IsUnlockedRun(run, actions) && |run| == 4 && run[0] == entered
    ensures actions[2] == By(q, WriteTemplate(y))
    ensures run[3].templates == SeedOne(s.templates, d, x)
    ensures InTransaction(run[3], q) && run[3].seeders[q].phase.work == SeedOne(s.templates, d, y)
  {
    hide SeedOne;
    var s7 := AfterMove(entered, p, WriteTemplate(x));
    var s8 := AfterMove(s7, p, Commit);
    run := [entered, s7, s8, AfterMove(s8, q, WriteTemplate(y))];
    actions := [By(p, WriteTemplate(x)), By(p, Commit), By(q, WriteTemplate(y))];
  }

  /** Without the lock, two seeders of one release that both read the absence of
      a key both create its row: the first commits, the second is rejected. */
  lemma UnlockedSeedersCollide(s: State, p: SeederId, q: SeederId, d: TemplateDef, x: RoleId, y: RoleId)
    returns (run: seq<State>, actions: seq<Action>)
    requires Init(s) && p in s.seeders && q in s.seeders && p != q
    requires s.seeders[p].release == s.seeders[q].release == Release([], [d])
    requires !HasKey(s.templates, d.key) && x !in s.templates.roles && y !in s.templates.roles && x != y
    ensures IsUnlockedRun(run, actions) && run[0] == s && actions != []
    ensures actions[|actions| - 1] == By(q, WriteTemplate(y))
    ensures var end := run[|run| - 1];
            InTransaction(end, q) && RejectedByIndex(end.templates, end.seeders[q].phase.work, y)
  {
    assert TemplatesWellFormed(s.templates) && DistinctIds(s.templates.catalogue);
    hide RejectedByIndex, SeedOne, UnlockedStep, TemplatesWellFormed, DistinctIds, HasKey;
    var first, a := BothEnter(s, p, q);
    var second, b := BothWrite(s, first[6], p, q, d, x, y);
    JoinRuns(first, a, second, b);
    run, actions := first + second[1..], a + b;
    SecondRowRejected(s.templates, d, x, y);
  }

  lemma SecondRowRejected(t: Templates, d: TemplateDef, x: RoleId, y: RoleId)
    requires TemplatesWellFormed(t) && !HasKey(t, d.key) && x !in t.roles && y !in t.roles && x != y
    ensures RejectedByIndex(SeedOne(t, d, x), SeedOne(t, d, y), y)
  {
    SeedOneMeans(t, d, x);
    SeedOneMeans(t, d, y);
    hide SeedOne;
    var committed, work := SeedOne(t, d, x), SeedOne(t, d, y);
    var both := committed.roles[y := work.roles[y]];
    assert both[x].key == both[y].key;
  }
}
