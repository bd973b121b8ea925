/** `seedPermissionsAndRoles` and the tenant sweep as they run: statements that
    update tables in place, and a loop that tolerates companies disappearing. */
module RoleSync {
  import opened RoleTables
  import opened TemplateSeeding

  /** A database error, as far as the sweep looks at it. */
  datatype Fault = Fault(code: Option<string>, metaCode: Option<string>)

  predicate IsVanishedRow(f: Fault) {
    f.code == Some("P2003") || f.code == Some("P2025") || f.metaCode == Some("23503") || f.code == Some("23503")
  }

  /** reconcileCompanyChart, seen from outside. */
  datatype ChartOutcome = Reconciled(groups: nat, accounts: nat) | ChartFault(fault: Fault)

  /** What the rest of the world does while one company is being synced: which
      companies are deleted before each statement, and which statement fails. */
  datatype Turn = Turn(goneBeforeGrant: set<CompanyId>, grantFault: Option<Fault>,
                       goneBeforeRevoke: set<CompanyId>, revokeFault: Option<Fault>,
                       goneBeforeChart: set<CompanyId>, chart: ChartOutcome)

  datatype World = World(tenants: Tenants, companies: set<CompanyId>)

  datatype TurnResult =
    | Completed(granted: nat, revoked: nat, groups: nat, accounts: nat)
    | SkippedAtRoles
    | SkippedAtChart
    | Threw(fault: Fault)

  datatype Tally = Tally(granted: nat, revoked: nat, groups: nat, accounts: nat)

  datatype SweepResult = Swept(totals: Tally) | SweepThrew(fault: Fault)

  // ----- the sweep on values

  function Without(w: World, gone: set<CompanyId>): World {
    World(WithoutCompanies(w.tenants, gone), w.companies - gone)
  }

  function Failed(f: Fault, atChart: bool): TurnResult {
    if !IsVanishedRow(f) then Threw(f) else if atChart then SkippedAtChart else SkippedAtRoles
  }

  /** One pass through the loop body for company `c`. */
  function OneTurn(t: Templates, w: World, c: CompanyId, turn: Turn): (World, TurnResult) {
    var w1 := Without(w, turn.goneBeforeGrant);
    if turn.grantFault.Some? then (w1, Failed(turn.grantFault.value, false))
    else
      var granted := |Selected(t, w1.tenants, Some(c)) - w1.tenants.grants|;
      var w2 := Without(w1.(tenants := AfterGrant(t, w1.tenants, Some(c))), turn.goneBeforeRevoke);
      if turn.revokeFault.Some? then (w2, Failed(turn.revokeFault.value, false))
      else
        var revoked := |Stale(t, w2.tenants, Some(c))|;
        var w3 := Without(w2.(tenants := AfterRevoke(t, w2.tenants, Some(c))), turn.goneBeforeChart);
        match turn.chart
        case Reconciled(groups, accounts) => (w3, Completed(granted, revoked, groups, accounts))
        case ChartFault(f) => (w3, Failed(f, true))
  }

  /** The whole loop; the log holds one result per company reached, and ends
      early when one throws. */
  function Sweep(t: Templates, w: World, list: seq<CompanyId>, turns: seq<Turn>, at: nat)
    : (r: (World, seq<TurnResult>))
    requires at <= |list| == |turns|
    ensures |r.1| <= |list| - at
    decreases |list| - at
  {
    if at == |list| then (w, [])
    else
      var (w', result) := OneTurn(t, w, list[at], turns[at]);
      if result.Threw? then (w', [result])
      else
        var (w'', log) := Sweep(t, w', list, turns, at + 1);
        (w'', [result] + log)
  }

  /** Only a pass that completed both syncs is counted. */
  function Count(tally: Tally, result: TurnResult): Tally {
    match result
    case Completed(granted, revoked, groups, accounts) =>
      Tally(tally.granted + granted, tally.revoked + revoked, tally.groups + groups, tally.accounts + accounts)
    case _ => tally
  }

  function Totals(log: seq<TurnResult>): Tally {
    if log == [] then Tally(0, 0, 0, 0) else Count(Totals(log[..|log| - 1]), log[|log| - 1])
  }

  lemma Regroup<T>(x: seq<T>, y: seq<T>, z: seq<T>)
    ensures x + (y + z) == x + y + z
  {
  }

  lemma OneMoreResult(log: seq<TurnResult>, result: TurnResult)
    ensures Totals(log + [result]) == Count(Totals(log), result)
  {
    assert (log + [result])[..|log|] == log;
  }

  lemma SweepStep(t: Templates, w: World, list: seq<CompanyId>, turns: seq<Turn>, at: nat)
    requires at < |list| == |turns|
    ensures var one, all := OneTurn(t, w, list[at], turns[at]), Sweep(t, w, list, turns, at);
            if one.1.Threw? then all == (one.0, [one.1])
            else
              && all.0 == Sweep(t, one.0, list, turns, at + 1).0
              && all.1 == [one.1] + Sweep(t, one.0, list, turns, at + 1).1
  {
    hide OneTurn;
  }

  lemma SweepEnd(t: Templates, w: World, list: seq<CompanyId>, turns: seq<Turn>)
    requires |list| == |turns|
    ensures Sweep(t, w, list, turns, |list|) == (w, [])
  {
  }

  // ----- what is counted, and what is thrown

  function SumOf(numbers: seq<nat>): nat {
    if numbers == [] then 0 else numbers[0] + SumOf(numbers[1..])
  }

  /** One number of each completed pass, in order. */
  function Column(log: seq<TurnResult>, number: TurnResult -> nat): seq<nat> {
    if log == [] then []
    else (if log[0].Completed? then [number(log[0])] else []) + Column(log[1..], number)
  }

  function Granted(r: TurnResult): nat {
    if r.Completed? then r.granted else 0
  }

  function Revoked(r: TurnResult): nat {
    if r.Completed? then r.revoked else 0
  }

  function Groups(r: TurnResult): nat {
    if r.Completed? then r.groups else 0
  }

  function Accounts(r: TurnResult): nat {
    if r.Completed? then r.accounts else 0
  }

  lemma ColumnStep(r: TurnResult, log: seq<TurnResult>, number: TurnResult -> nat)
    ensures SumOf(Column([r] + log, number)) == (if r.Completed? then number(r) else 0) + SumOf(Column(log, number))
  {
    assert ([r] + log)[1..] == log;
    if r.Completed? {
      assert ([number(r)] + Column(log, number))[1..] == Column(log, number);
    } else {
      assert [] + Column(log, number) == Column(log, number);
    }
  }

  lemma {:induction false} ColumnAppended(log: seq<TurnResult>, r: TurnResult, number: TurnResult -> nat)
    ensures SumOf(Column(log + [r], number)) == SumOf(Column(log, number)) + if r.Completed? then number(r) else 0
  {
    if log == [] {
      ColumnStep(r, [], number);
      assert log + [r] == [r] + [];
    } else {
      hide Column, SumOf;
      assert log == [log[0]] + log[1..] && log + [r] == [log[0]] + (log[1..] + [r]);
      ColumnStep(log[0], log[1..], number);
      ColumnStep(log[0], log[1..] + [r], number);
      ColumnAppended(log[1..], r, number);
    }
  }

  /** The totals of a sweep are the column sums over its completed passes. */
  lemma {:induction false} TotalsAreColumnSums(log: seq<TurnResult>)
    ensures Totals(log).granted == SumOf(Column(log, Granted))
    ensures Totals(log).revoked == SumOf(Column(log, Revoked))
    ensures Totals(log).groups == SumOf(Column(log, Groups))
    ensures Totals(log).accounts == SumOf(Column(log, Accounts))
  {
    if log != [] {
      var front, last := log[..|log| - 1], log[|log| - 1];
      TotalsAreColumnSums(front);
      assert log == front + [last];
      ColumnAppended(front, last, Granted);
      ColumnAppended(front, last, Revoked);
      ColumnAppended(front, last, Groups);
      ColumnAppended(front, last, Accounts);
      hide Column, SumOf;
    }
  }

  /** The first statement of the pass that meets a fault, if any does. */
  function FirstFault(turn: Turn): Option<Fault> {
    if turn.grantFault.Some? then turn.grantFault
    else if turn.revokeFault.Some? then turn.revokeFault
    else if turn.chart.ChartFault? then Some(turn.chart.fault)
    else None
  }

  /** One of the four codes that stand for a row that is gone. */
  predicate Listed(fault: Fault) {
    || (fault.code.Some? && fault.code.value in {"P2003", "P2025", "23503"})
    || (fault.metaCode.Some? && fault.metaCode.value == "23503")
  }

  /** A pass completes if nothing goes wrong. Otherwise it stops at its first
      fault: with a listed code the company is skipped, any other is thrown. */
  lemma FaultsSkipOrThrow(t: Templates, w: World, c: CompanyId, turn: Turn)
    ensures var result, fault := OneTurn(t, w, c, turn).1, FirstFault(turn);
            var inRoles := turn.grantFault.Some? || turn.revokeFault.Some?;
            && (result.Completed? <==> fault == None)
            && (result.SkippedAtRoles? <==> fault.Some? && Listed(fault.value) && inRoles)
            && (result.SkippedAtChart? <==> fault.Some? && Listed(fault.value) && !inRoles)
            && (fault.Some? && !Listed(fault.value) ==> result == Threw(fault.value))
  {
    hide AfterGrant, AfterRevoke, WithoutCompanies, Selected, Stale;
  }

  predicate Throws(turn: Turn) {
    FirstFault(turn).Some? && !Listed(FirstFault(turn).value)
  }

  /** The sweep goes through its whole list unless a pass throws, and then ends
      with that pass. */
  lemma {:induction false} SweepReach(t: Templates, w: World, list: seq<CompanyId>, turns: seq<Turn>, at: nat)
    requires at <= |list| == |turns|
    ensures var log := Sweep(t, w, list, turns, at).1;
            && (forall k | 0 <= k < |log| :: log[k].Threw? <==> Throws(turns[at + k]))
            && (forall k | 0 <= k < |log| - 1 :: !log[k].Threw?)
            && (|log| < |list| - at ==> |log| > 0 && Throws(turns[at + |log| - 1]))
    decreases |list| - at
  {
    hide OneTurn, Sweep, FirstFault, Listed, Throws;
    if at < |list| {
      SweepStep(t, w, list, turns, at);
      ThrowsIsThrown(t, w, list[at], turns[at]);
      var (w', result) := OneTurn(t, w, list[at], turns[at]);
      var log, rest := Sweep(t, w, list, turns, at).1, Sweep(t, w', list, turns, at + 1).1;
      SweepReach(t, w', list, turns, at + 1);
      if !result.Threw? {
        forall k | 0 <= k < |log|
          ensures log[k].Threw? <==> Throws(turns[at + k])
          ensures k < |log| - 1 ==> !log[k].Threw?
        {
          if k > 0 {
            assert log[k] == rest[k - 1];
          }
        }
      }
    } else {
      SweepEnd(t, w, list, turns);
    }
  }

  lemma ThrowsIsThrown(t: Templates, w: World, c: CompanyId, turn: Turn)
    ensures OneTurn(t, w, c, turn).1.Threw? <==> Throws(turn)
  {
    hide OneTurn, FirstFault, Listed;
    FaultsSkipOrThrow(t, w, c, turn);
  }

  /** What a completed pass counts: the rows that its INSERT added and its DELETE
      took away, and the chart's own figures. */
  lemma CompletedCounts(t: Templates, w: World, c: CompanyId, turn: Turn)
    requires OneTurn(t, w, c, turn).1.Completed?
    requires WellFormed(w.tenants)
    ensures var before := WithoutCompanies(w.tenants, turn.goneBeforeGrant);
            var granted := AfterGrant(t, before, Some(c));
            var between := WithoutCompanies(granted, turn.goneBeforeRevoke);
            var revoked := AfterRevoke(t, between, Some(c));
            var result := OneTurn(t, w, c, turn).1;
            && |granted.grants| == |before.grants| + result.granted
            && |revoked.grants| + result.revoked == |between.grants|
            && turn.chart == Reconciled(result.groups, result.accounts)
  {
    var before := WithoutCompanies(w.tenants, turn.goneBeforeGrant);
    var granted := AfterGrant(t, before, Some(c));
    var between := WithoutCompanies(granted, turn.goneBeforeRevoke);
    hide WithoutCompanies, Selected;
    AddedRows(before.grants, Selected(t, before, Some(c)));
    assert Stale(t, between, Some(c)) <= between.grants;
    RemovedRows(between.grants, Stale(t, between, Some(c)));
  }

  lemma AddedRows(rows: set<Grant>, more: set<Grant>)
    ensures rows + more == rows + (more - rows) && |rows + more| == |rows| + |more - rows|
  {
    assert rows + more == rows + (more - rows);
  }

  lemma RemovedRows(rows: set<Grant>, fewer: set<Grant>)
    requires fewer <= rows
    ensures |rows - fewer| == |rows| - |fewer|
  {
    assert rows == fewer + (rows - fewer);
  }

  // ----- the tables in place

  class Database {
    var templates: Templates
    var tenants: Tenants
    var companies: set<CompanyId>
    var nextId: nat

    /** Ids are issued once; every tenant row belongs to a company that exists. */
    ghost predicate Valid()
      reads this
    {
      && TemplatesWellFormed(templates) && WellFormed(tenants)
      && (forall id | id in templates.roles :: id < nextId)
      && (forall k | k in templates.catalogue :: templates.catalogue[k] < nextId)
      && (forall r | r in tenants.roles :: tenants.roles[r].company in companies)
    }

    ghost function Current(): World
      reads this
    {
      World(tenants, companies)
    }

    method GrantMissing(scope: Option<CompanyId>) returns (count: nat)
      requires Valid()
      modifies this`tenants
      ensures Valid() && tenants == AfterGrant(templates, old(tenants), scope)
      ensures count == |tenants.grants| - |old(tenants).grants|
      ensures count == |Selected(templates, old(tenants), scope) - old(tenants).grants|
    {
      hide Selected, TemplatesWellFormed, WellFormed;
      GrantWellFormed(templates, tenants, scope);
      var missing := Selected(templates, tenants, scope) - tenants.grants;
      AddedRows(tenants.grants, Selected(templates, tenants, scope));
      tenants := tenants.(grants := tenants.grants + missing);
      count := |missing|;
    }

    method RevokeStale(scope: Option<CompanyId>) returns (count: nat)
      requires Valid()
      modifies this`tenants
      ensures Valid() && tenants == AfterRevoke(templates, old(tenants), scope)
      ensures count == |old(tenants).grants| - |tenants.grants|
      ensures count == |Stale(templates, old(tenants), scope)|
    {
      hide Stale, TemplatesWellFormed, WellFormed;
      RevokeWellFormed(templates, tenants, scope);
      var stale := Stale(templates, tenants, scope);
      RemovedRows(tenants.grants, stale);
      tenants := tenants.(grants := tenants.grants - stale);
      count := |stale|;
    }

    /** syncCompanySystemRoles with nothing running beside it. */
    method SyncCompanySystemRoles(scope: Option<CompanyId>) returns (granted: nat, revoked: nat)
      requires Valid()
      modifies this`tenants
      ensures Valid() && tenants == AfterSync(templates, old(tenants), scope)
      ensures granted == |Selected(templates, old(tenants), scope) - old(tenants).grants|
      ensures revoked == |Stale(templates, AfterGrant(templates, old(tenants), scope), scope)|
      ensures forall c: CompanyId | scope == None || scope == Some(c) :: CompanyInLine(templates, tenants, c)
    {
      ghost var before := tenants;
      granted := GrantMissing(scope);
      revoked := RevokeStale(scope);
      forall c: CompanyId | scope == None || scope == Some(c)
        ensures CompanyInLine(templates, tenants, c)
      {
        SyncBringsInLine(templates, before, scope, c);
      }
    }

    method DeleteCompanies(gone: set<CompanyId>)
      requires Valid()
      modifies this`tenants, this`companies
      ensures Valid() && Current() == Without(old(Current()), gone)
    {
      tenants := WithoutCompanies(tenants, gone);
      companies := companies - gone;
    }

    /** The catalogue and every template, written over what is there. */
    method SeedTemplates(release: Release)
      requires Valid() && DistinctKeys(release)
      modifies this`templates, this`nextId
      ensures Valid()
      ensures Seeded(release, old(templates), templates, |release.templates|)
      ensures forall i, id | 0 <= i < |release.templates| && id in templates.roles
                             && templates.roles[id].key == release.templates[i].key ::
                && (forall p: PermissionId | (id, p) in templates.grants :: p in templates.catalogue.Values)
                && (forall k | k in templates.catalogue ::
                     (id, templates.catalogue[k]) in templates.grants <==> k in release.templates[i].permissions)
    {
      hide Seeded, WellFormed, SeedOne, Usable, TemplatesWellFormed, CatalogueUpserted;
      ghost var base := templates;
      UpsertCatalogue(release.permissions);
      CatalogueStep(release, base, templates.catalogue);
      for i := 0 to |release.templates|
        invariant Valid() && Seeded(release, base, templates, i)
      {
        ghost var before := templates;
        ghost var role := SeedTemplate(release.templates[i]);
        SeedOneStep(release, base, before, i, role);
      }
      forall i, id | 0 <= i < |release.templates| && id in templates.roles
                     && templates.roles[id].key == release.templates[i].key {
        SeededHoldings(release, base, templates, i, id);
      }
    }

    method UpsertCatalogue(keys: seq<Key>)
      requires Valid()
      modifies this`templates, this`nextId
      ensures Valid() && templates == old(templates).(catalogue := templates.catalogue)
      ensures CatalogueUpserted(old(templates).catalogue, templates.catalogue, keys)
    {
      hide WellFormed;
      ghost var base := templates;
      for i := 0 to |keys|
        invariant Valid() && templates == base.(catalogue := templates.catalogue)
        invariant CatalogueUpserted(base.catalogue, templates.catalogue, keys[..i])
      {
        var key := keys[i];
        if key !in templates.catalogue {
          templates := templates.(catalogue := templates.catalogue[key := nextId]);
          nextId := nextId + 1;
        }
      }
      assert keys[..|keys|] == keys;
    }

    /** One pass of the template loop: the row found or created, its grants
        replaced. */
    method SeedTemplate(template: TemplateDef) returns (ghost role: RoleId)
      requires Valid()
      modifies this`templates, this`nextId
      ensures Valid()
      ensures Usable(old(templates), template.key, role)
      ensures templates == SeedOne(old(templates), template, role)
    {
      var id := nextId;
      if found :| found in templates.roles && templates.roles[found].key == template.key {
        id := found;
      } else {
        nextId := nextId + 1;
      }
      assert Usable(templates, template.key, id);
      SeedOneMeans(templates, template, id);
      hide SeedOne, Usable, TemplatesWellFormed, WellFormed, Matches;
      templates := SeedOne(templates, template, id);
      role := id;
    }

    /** The try block of the sweep, statement by statement. */
    method SyncOne(c: CompanyId, turn: Turn) returns (result: TurnResult)
      requires Valid()
      modifies this`tenants, this`companies
      ensures Valid()
      ensures (Current(), result) == OneTurn(templates, old(Current()), c, turn)
    {
      hide AfterGrant, AfterRevoke, Selected, Stale, WithoutCompanies, TemplatesWellFormed, WellFormed, IsVanishedRow;
      DeleteCompanies(turn.goneBeforeGrant);
      if turn.grantFault.Some? {
        return Failed(turn.grantFault.value, false);
      }
      var granted := GrantMissing(Some(c));
      DeleteCompanies(turn.goneBeforeRevoke);
      if turn.revokeFault.Some? {
        return Failed(turn.revokeFault.value, false);
      }
      var revoked := RevokeStale(Some(c));
      DeleteCompanies(turn.goneBeforeChart);
      match turn.chart {
        case Reconciled(groups, accounts) => result := Completed(granted, revoked, groups, accounts);
        case ChartFault(f) => result := Failed(f, true);
      }
    }

    /** syncExistingTenants over the companies it listed. */
    method SyncExistingTenants(list: seq<CompanyId>, turns: seq<Turn>) returns (r: SweepResult)
      requires Valid() && |turns| == |list|
      modifies this`tenants, this`companies
      ensures Valid()
      ensures var (w, log) := Sweep(templates, old(Current()), list, turns, 0);
              && Current() == w
              && (r.Swept? <==> !(log != [] && log[|log| - 1].Threw?))
              && (r.Swept? ==> r.totals == Totals(log))
              && (r.SweepThrew? ==> log[|log| - 1] == Threw(r.fault))
    {
      var totals := Tally(0, 0, 0, 0);
      ghost var log: seq<TurnResult> := [];
      ghost var whole := Sweep(templates, Current(), list, turns, 0);
      assert whole.1 == log + whole.1;
      hide Sweep, OneTurn, Count, Totals, TemplatesWellFormed, WellFormed;
      for i := 0 to |list|
        invariant Valid()
        invariant whole.0 == Sweep(templates, Current(), list, turns, i).0
        invariant whole.1 == log + Sweep(templates, Current(), list, turns, i).1
        invariant totals == Totals(log)
        invariant forall k | 0 <= k < |log| :: !log[k].Threw?
      {
        SweepStep(templates, Current(), list, turns, i);
        var result := SyncOne(list[i], turns[i]);
        if result.Threw? {
          return SweepThrew(result.fault);
        }
        totals := Count(totals, result);
        OneMoreResult(log, result);
        Regroup(log, [result], Sweep(templates, Current(), list, turns, i + 1).1);
        log := log + [result];
      }
      SweepEnd(templates, Current(), list, turns);
      assert whole.1 == log;
      return Swept(totals);
    }
  }

  // ----- what a sweep achieves

  predicate Consistent(w: World) {
    forall r | r in w.tenants.roles :: w.tenants.roles[r].company in w.companies
  }

  lemma DeletionKeeps(t: Templates, w: World, gone: set<CompanyId>, c: CompanyId)
    ensures CompanyInLine(t, w.tenants, c) ==> CompanyInLine(t, Without(w, gone).tenants, c)
    ensures CompanyCovered(t, w.tenants, c) ==> CompanyCovered(t, Without(w, gone).tenants, c)
    ensures Consistent(w) ==> Consistent(Without(w, gone))
  {
    var n := Without(w, gone).tenants;
    if CompanyInLine(t, w.tenants, c) {
      forall r | r in n.roles && n.roles[r].isSystem && n.roles[r].company == c
        ensures InLine(t, n, r)
      {
        assert InLine(t, w.tenants, r);
      }
    }
    if CompanyCovered(t, w.tenants, c) {
      forall r | r in n.roles && n.roles[r].isSystem && n.roles[r].company == c
        ensures Covers(t, n, r)
      {
        assert Covers(t, w.tenants, r);
      }
    }
  }

  lemma StatementsKeep(t: Templates, n: Tenants, scope: Option<CompanyId>, c: CompanyId)
    ensures CompanyInLine(t, n, c) ==> CompanyInLine(t, AfterGrant(t, n, scope), c)
    ensures CompanyInLine(t, n, c) ==> CompanyInLine(t, AfterRevoke(t, n, scope), c)
    ensures CompanyCovered(t, n, c) || scope == Some(c) || scope == None
            ==> CompanyCovered(t, AfterGrant(t, n, scope), c)
    ensures CompanyCovered(t, n, c) ==> CompanyCovered(t, AfterRevoke(t, n, scope), c)
    ensures CompanyCovered(t, n, c) && (scope == Some(c) || scope == None)
            ==> CompanyInLine(t, AfterRevoke(t, n, scope), c)
  {
    hide Covers, InLine;
    var granted, revoked := AfterGrant(t, n, scope), AfterRevoke(t, n, scope);
    forall r | r in n.roles && n.roles[r].isSystem && n.roles[r].company == c
      ensures Covers(t, n, r) || InScope(n.roles[r], scope) ==> Covers(t, granted, r)
      ensures InLine(t, n, r) ==> InLine(t, granted, r) && InLine(t, revoked, r)
      ensures Covers(t, n, r) ==> Covers(t, revoked, r)
      ensures Covers(t, n, r) && InScope(n.roles[r], scope) ==> InLine(t, revoked, r)
    {
      GrantKeeps(t, n, scope, r);
      RevokeKeeps(t, n, scope, r);
    }
  }

  /** One pass never takes a company out of line, and brings its own in line
      unless a role statement reported a fault. */
  lemma TurnKeeps(t: Templates, w: World, c: CompanyId, turn: Turn, d: CompanyId)
    ensures CompanyInLine(t, w.tenants, d) ==> CompanyInLine(t, OneTurn(t, w, c, turn).0.tenants, d)
    ensures turn.grantFault == None && turn.revokeFault == None
            ==> CompanyInLine(t, OneTurn(t, w, c, turn).0.tenants, c)
  {
    hide CompanyInLine, CompanyCovered, AfterGrant, AfterRevoke, WithoutCompanies, Selected, Stale;
    var w1 := Without(w, turn.goneBeforeGrant);
    DeletionKeeps(t, w, turn.goneBeforeGrant, d);
    if turn.grantFault == None {
      var g1 := w1.(tenants := AfterGrant(t, w1.tenants, Some(c)));
      StatementsKeep(t, w1.tenants, Some(c), d);
      StatementsKeep(t, w1.tenants, Some(c), c);
      DeletionKeeps(t, g1, turn.goneBeforeRevoke, d);
      DeletionKeeps(t, g1, turn.goneBeforeRevoke, c);
      var w2 := Without(g1, turn.goneBeforeRevoke);
      if turn.revokeFault == None {
        var r2 := w2.(tenants := AfterRevoke(t, w2.tenants, Some(c)));
        StatementsKeep(t, w2.tenants, Some(c), d);
        StatementsKeep(t, w2.tenants, Some(c), c);
        DeletionKeeps(t, r2, turn.goneBeforeChart, d);
        DeletionKeeps(t, r2, turn.goneBeforeChart, c);
      }
    }
  }

  lemma {:induction false} SweepKeeps(t: Templates, w: World, list: seq<CompanyId>, turns: seq<Turn>,
                                      at: nat, d: CompanyId)
    requires at <= |list| == |turns| && CompanyInLine(t, w.tenants, d)
    ensures CompanyInLine(t, Sweep(t, w, list, turns, at).0.tenants, d)
    decreases |list| - at
  {
    if at < |list| {
      hide OneTurn, CompanyInLine;
      TurnKeeps(t, w, list[at], turns[at], d);
      var (w', result) := OneTurn(t, w, list[at], turns[at]);
      if !result.Threw? {
        SweepKeeps(t, w', list, turns, at + 1, d);
      }
    }
  }

  /** Whatever is deleted meanwhile, wherever the sweep stops: each company it
      reached whose two role statements ran is left in line. Only a fault in one
      of those statements lets a company go unsynced. */
  lemma {:induction false} SweepBringsInLine(t: Templates, w: World, list: seq<CompanyId>, turns: seq<Turn>,
                                             at: nat, k: nat)
    requires at <= |list| == |turns| && k < |Sweep(t, w, list, turns, at).1|
    requires turns[at + k].grantFault == None && turns[at + k].revokeFault == None
    ensures CompanyInLine(t, Sweep(t, w, list, turns, at).0.tenants, list[at + k])
    decreases |list| - at
  {
    hide OneTurn, CompanyInLine;
    var (w', result) := OneTurn(t, w, list[at], turns[at]);
    if k == 0 {
      TurnKeeps(t, w, list[at], turns[at], list[at]);
      if !result.Threw? {
        SweepKeeps(t, w', list, turns, at + 1, list[at]);
      }
    } else {
      SweepBringsInLine(t, w', list, turns, at + 1, k - 1);
    }
  }

  lemma CleanTurnCompletes(t: Templates, w: World, c: CompanyId, turn: Turn)
    requires turn.grantFault == None && turn.revokeFault == None && turn.chart.Reconciled?
    ensures OneTurn(t, w, c, turn).1.Completed?
  {
  }

  lemma {:induction false} CleanSweepReachesAll(t: Templates, w: World, list: seq<CompanyId>, turns: seq<Turn>, at: nat)
    requires at <= |list| == |turns|
    requires forall i | at <= i < |list| ::
               turns[i].grantFault == None && turns[i].revokeFault == None && turns[i].chart.Reconciled?
    ensures |Sweep(t, w, list, turns, at).1| == |list| - at
    decreases |list| - at
  {
    hide OneTurn, Sweep;
    if at < |list| {
      SweepStep(t, w, list, turns, at);
      CleanTurnCompletes(t, w, list[at], turns[at]);
      CleanSweepReachesAll(t, OneTurn(t, w, list[at], turns[at]).0, list, turns, at + 1);
    } else {
      SweepEnd(t, w, list, turns);
    }
  }

  /** A run with no faults, such as the rerun after a failure, reaches every
      company and leaves every one of them in line. */
  lemma CleanSweepBringsAllInLine(t: Templates, w: World, list: seq<CompanyId>, turns: seq<Turn>)
    requires |list| == |turns|
    requires forall i | 0 <= i < |list| ::
               turns[i].grantFault == None && turns[i].revokeFault == None && turns[i].chart.Reconciled?
    ensures |Sweep(t, w, list, turns, 0).1| == |list|
    ensures forall i | 0 <= i < |list| :: CompanyInLine(t, Sweep(t, w, list, turns, 0).0.tenants, list[i])
  {
    hide Sweep, CompanyInLine;
    CleanSweepReachesAll(t, w, list, turns, 0);
    forall i | 0 <= i < |list|
      ensures CompanyInLine(t, Sweep(t, w, list, turns, 0).0.tenants, list[i])
    {
      SweepBringsInLine(t, w, list, turns, 0, i);
    }
  }

  predicate Quiet(turn: Turn) {
    && turn.goneBeforeGrant == turn.goneBeforeRevoke == turn.goneBeforeChart == {}
    && turn.grantFault == None && turn.revokeFault == None && turn.chart.Reconciled?
  }

  lemma NobodyGone(n: Tenants)
    requires WellFormed(n)
    ensures WithoutCompanies(n, {}) == n
  {
    assert WithoutCompanies(n, {}).roles == n.roles;
  }

  lemma QuietTurnCounts(t: Templates, w: World, c: CompanyId, turn: Turn)
    requires WellFormed(w.tenants) && Quiet(turn)
    ensures var (w', result) := OneTurn(t, w, c, turn);
            && result.Completed? && WellFormed(w'.tenants)
            && |w'.tenants.grants| + result.revoked == |w.tenants.grants| + result.granted
  {
    CleanTurnCompletes(t, w, c, turn);
    CompletedCounts(t, w, c, turn);
    var granted := AfterGrant(t, w.tenants, Some(c));
    var revoked := AfterRevoke(t, granted, Some(c));
    GrantWellFormed(t, w.tenants, Some(c));
    RevokeWellFormed(t, granted, Some(c));
    NobodyGone(w.tenants);
    NobodyGone(granted);
    NobodyGone(revoked);
    hide AfterGrant, AfterRevoke, WithoutCompanies, Selected, Stale, WellFormed;
  }

  lemma {:induction false} QuietColumns(t: Templates, w: World, list: seq<CompanyId>, turns: seq<Turn>, at: nat)
    requires at <= |list| == |turns| && WellFormed(w.tenants)
    requires forall i | at <= i < |list| :: Quiet(turns[i])
    ensures var (w', log) := Sweep(t, w, list, turns, at);
            |w'.tenants.grants| + SumOf(Column(log, Revoked)) == |w.tenants.grants| + SumOf(Column(log, Granted))
    decreases |list| - at
  {
    hide OneTurn, Sweep, Quiet, WellFormed;
    if at < |list| {
      SweepStep(t, w, list, turns, at);
      QuietTurnCounts(t, w, list[at], turns[at]);
      var (w', result) := OneTurn(t, w, list[at], turns[at]);
      QuietColumns(t, w', list, turns, at + 1);
      var log := Sweep(t, w', list, turns, at + 1).1;
      ColumnStep(result, log, Revoked);
      ColumnStep(result, log, Granted);
    } else {
      SweepEnd(t, w, list, turns);
    }
  }

  /** With nothing going wrong and nobody deleted, the totals account for every
      row: what there was, plus granted, less revoked, is what there is. */
  lemma QuietSweepAccounts(t: Templates, w: World, list: seq<CompanyId>, turns: seq<Turn>)
    requires |list| == |turns| && WellFormed(w.tenants)
    requires forall i | 0 <= i < |list| :: Quiet(turns[i])
    ensures var (w', log) := Sweep(t, w, list, turns, 0);
            |w'.tenants.grants| == |w.tenants.grants| + Totals(log).granted - Totals(log).revoked
  {
    hide Sweep, Quiet, WellFormed;
    QuietColumns(t, w, list, turns, 0);
    TotalsAreColumnSums(Sweep(t, w, list, turns, 0).1);
  }

  // ----- exactly when a company ends in line

  /** Both statements of a sync of this company would count nothing. */
  predicate UpToDate(t: Templates, n: Tenants, c: CompanyId) {
    Selected(t, n, Some(c)) <= n.grants && Stale(t, n, Some(c)) == {}
  }

  lemma UpToDateMeansInLine(t: Templates, n: Tenants, c: CompanyId)
    ensures UpToDate(t, n, c) <==> CompanyInLine(t, n, c)
    ensures Selected(t, n, Some(c)) <= n.grants <==> CompanyCovered(t, n, c)
  {
    forall r, p: PermissionId | r in n.roles {
      SelectedMeans(t, n, Some(c), r, p);
    }
    NothingStaleMeans(t, n, c);
    if CompanyCovered(t, n, c) {
      forall g | g in Selected(t, n, Some(c))
        ensures g in n.grants
      {
        SelectedMeans(t, n, Some(c), g.0, g.1);
        assert Covers(t, n, g.0) && g == (g.0, g.1);
      }
    }
  }

  lemma NothingStaleMeans(t: Templates, n: Tenants, c: CompanyId)
    ensures Stale(t, n, Some(c)) == {} <==> CompanyWithin(t, n, c)
  {
    if g :| g in Stale(t, n, Some(c)) {
      assert g == (g.0, g.1);
    }
    if !CompanyWithin(t, n, c) {
      var r, p: PermissionId :| r in n.roles && n.roles[r].isSystem && n.roles[r].company == c && (r, p) in n.grants
                                && !TemplateHolds(t, n.roles[r].key, p);
      assert (r, p) in Stale(t, n, Some(c));
    }
  }

  /** Both role statements ran, or the one that faulted had nothing left to do
      for this company, on the rows it had before. */
  predicate Unharmed(t: Templates, n: Tenants, c: CompanyId, turn: Turn) {
    if turn.grantFault.Some? then UpToDate(t, n, c)
    else turn.revokeFault.Some? ==> Stale(t, n, Some(c)) == {}
  }

  predicate GoneAtFault(c: CompanyId, turn: Turn) {
    if turn.grantFault.Some? then c in turn.goneBeforeGrant
    else turn.revokeFault.Some? && c in turn.goneBeforeGrant + turn.goneBeforeRevoke
  }

  lemma DeletionSpares(t: Templates, n: Tenants, gone: set<CompanyId>, c: CompanyId)
    ensures c in gone ==> CompanyInLine(t, WithoutCompanies(n, gone), c)
    ensures c !in gone ==> SameSystemRoles(n, WithoutCompanies(n, gone), c)
  {
  }

  lemma GrantThenInLine(t: Templates, n: Tenants, c: CompanyId)
    ensures CompanyInLine(t, AfterGrant(t, n, Some(c)), c) <==> CompanyWithin(t, n, c)
  {
    hide Selected, TemplateHolds;
    forall r, p: PermissionId | r in n.roles {
      GrantMeans(t, n, Some(c), r, p);
    }
  }

  /** Exactly when one pass leaves its company in line. */
  lemma TurnRepairs(t: Templates, w: World, c: CompanyId, turn: Turn)
    ensures CompanyInLine(t, OneTurn(t, w, c, turn).0.tenants, c)
            <==> Unharmed(t, w.tenants, c, turn) || GoneAtFault(c, turn)
  {
    hide CompanyInLine, CompanyCovered, CompanyWithin, SameSystemRoles, AfterGrant, AfterRevoke, WithoutCompanies;
    hide Selected, Stale, UpToDate;
    var w1 := Without(w, turn.goneBeforeGrant);
    DeletionSpares(t, w.tenants, turn.goneBeforeGrant, c);
    UpToDateMeansInLine(t, w.tenants, c);
    NothingStaleMeans(t, w.tenants, c);
    if c !in turn.goneBeforeGrant {
      SameRolesSameStanding(t, w.tenants, w1.tenants, c);
    }
    if turn.grantFault == None && turn.revokeFault.Some? {
      var g1 := AfterGrant(t, w1.tenants, Some(c));
      GrantThenInLine(t, w1.tenants, c);
      StatementsKeep(t, w1.tenants, Some(c), c);
      DeletionSpares(t, g1, turn.goneBeforeRevoke, c);
      if c !in turn.goneBeforeRevoke {
        SameRolesSameStanding(t, g1, WithoutCompanies(g1, turn.goneBeforeRevoke), c);
      }
    }
    TurnKeeps(t, w, c, turn, c);
  }

  lemma SameThrough(n1: Tenants, n2: Tenants, n3: Tenants, c: CompanyId)
    requires SameSystemRoles(n1, n2, c) && SameSystemRoles(n2, n3, c)
    ensures SameSystemRoles(n1, n3, c)
  {
  }

  lemma StatementsSpareOthers(t: Templates, n: Tenants, c: CompanyId, d: CompanyId)
    requires c != d
    ensures SameSystemRoles(n, AfterGrant(t, n, Some(c)), d)
    ensures SameSystemRoles(n, AfterRevoke(t, n, Some(c)), d)
  {
    forall r, p: PermissionId | r in n.roles && n.roles[r].company == d {
      StatementsStayInScope(t, n, Some(c), (r, p));
    }
  }

  /** A pass leaves the rows of every other company that survives it alone. */
  lemma TurnSparesOthers(t: Templates, w: World, c: CompanyId, turn: Turn, d: CompanyId)
    requires c != d && d in OneTurn(t, w, c, turn).0.companies
    ensures SameSystemRoles(w.tenants, OneTurn(t, w, c, turn).0.tenants, d)
  {
    hide SameSystemRoles, AfterGrant, AfterRevoke, WithoutCompanies, Selected, Stale;
    var w1 := Without(w, turn.goneBeforeGrant);
    DeletionSpares(t, w.tenants, turn.goneBeforeGrant, d);
    if turn.grantFault == None {
      var g1 := AfterGrant(t, w1.tenants, Some(c));
      StatementsSpareOthers(t, w1.tenants, c, d);
      SameThrough(w.tenants, w1.tenants, g1, d);
      var w2 := WithoutCompanies(g1, turn.goneBeforeRevoke);
      DeletionSpares(t, g1, turn.goneBeforeRevoke, d);
      SameThrough(w.tenants, g1, w2, d);
      if turn.revokeFault == None {
        var r2 := AfterRevoke(t, w2, Some(c));
        StatementsSpareOthers(t, w2, c, d);
        SameThrough(w.tenants, w2, r2, d);
        DeletionSpares(t, r2, turn.goneBeforeChart, d);
        SameThrough(w.tenants, r2, WithoutCompanies(r2, turn.goneBeforeChart), d);
      }
    }
  }

  lemma {:induction false} SweepOnlyDeletes(t: Templates, w: World, list: seq<CompanyId>, turns: seq<Turn>, at: nat)
    requires at <= |list| == |turns|
    ensures Sweep(t, w, list, turns, at).0.companies <= w.companies
    decreases |list| - at
  {
    if at < |list| {
      assert OneTurn(t, w, list[at], turns[at]).0.companies <= w.companies;
      hide OneTurn;
      SweepOnlyDeletes(t, OneTurn(t, w, list[at], turns[at]).0, list, turns, at + 1);
    }
  }

  /** A surviving company that the sweep did not reach keeps its rows. */
  lemma {:induction false} SweepSparesUnreached(t: Templates, w: World, list: seq<CompanyId>, turns: seq<Turn>,
                                                at: nat, c: CompanyId)
    requires at <= |list| == |turns|
    requires var (w', log) := Sweep(t, w, list, turns, at); c in w'.companies && c !in list[at..at + |log|]
    ensures SameSystemRoles(w.tenants, Sweep(t, w, list, turns, at).0.tenants, c)
    decreases |list| - at
  {
    hide OneTurn, SameSystemRoles, Sweep;
    if at == |list| {
      SweepEnd(t, w, list, turns);
      SameAsItself(w.tenants, c);
    } else {
      SweepStep(t, w, list, turns, at);
      var (w', result) := OneTurn(t, w, list[at], turns[at]);
      assert list[at] in list[at..at + |Sweep(t, w, list, turns, at).1|];
      if !result.Threw? {
        var log := Sweep(t, w', list, turns, at + 1).1;
        SweepOnlyDeletes(t, w', list, turns, at + 1);
        assert list[at..at + 1 + |log|] == [list[at]] + list[at + 1..at + 1 + |log|];
        SweepSparesUnreached(t, w', list, turns, at + 1, c);
        TurnSparesOthers(t, w, list[at], turns[at], c);
        SameThrough(w.tenants, w'.tenants, Sweep(t, w', list, turns, at + 1).0.tenants, c);
      } else {
        TurnSparesOthers(t, w, list[at], turns[at], c);
      }
    }
  }

  lemma SameAsItself(n: Tenants, c: CompanyId)
    ensures SameSystemRoles(n, n, c)
  {
  }

  predicate Distinct(list: seq<CompanyId>) {
    forall i, j | 0 <= i < j < |list| :: list[i] != list[j]
  }

  lemma UnharmedMeans(t: Templates, n: Tenants, c: CompanyId, turn: Turn)
    ensures Unharmed(t, n, c, turn)
            <==> if turn.grantFault.Some? then CompanyInLine(t, n, c)
                 else turn.revokeFault.Some? ==> CompanyWithin(t, n, c)
  {
    hide UpToDate, Stale, CompanyWithin, CompanyInLine;
    UpToDateMeansInLine(t, n, c);
    NothingStaleMeans(t, n, c);
  }

  lemma {:induction false} SweepRepairs(t: Templates, w: World, list: seq<CompanyId>, turns: seq<Turn>, at: nat, k: nat)
    requires at <= k < |list| == |turns| && Distinct(list)
    requires var (w', log) := Sweep(t, w, list, turns, at); list[k] in w'.companies && k < at + |log|
    ensures CompanyInLine(t, Sweep(t, w, list, turns, at).0.tenants, list[k])
            <==> Unharmed(t, w.tenants, list[k], turns[k])
    decreases |list| - at
  {
    hide OneTurn, SameSystemRoles, Sweep, CompanyInLine, CompanyWithin, Unharmed;
    var c := list[k];
    SweepStep(t, w, list, turns, at);
    var (w', result) := OneTurn(t, w, list[at], turns[at]);
    var end := Sweep(t, w, list, turns, at).0;
    if k == at {
      if !result.Threw? {
        SweepOnlyDeletes(t, w', list, turns, at + 1);
        SweepSparesUnreached(t, w', list, turns, at + 1, c);
        SameRolesSameStanding(t, w'.tenants, end.tenants, c);
      }
      TurnRepairsSurvivor(t, w, c, turns[k]);
    } else {
      SweepOnlyDeletes(t, w', list, turns, at + 1);
      SweepRepairs(t, w', list, turns, at + 1, k);
      TurnSparesOthers(t, w, list[at], turns[at], c);
      SameRolesSameStanding(t, w.tenants, w'.tenants, c);
      UnharmedMeans(t, w.tenants, c, turns[k]);
      UnharmedMeans(t, w'.tenants, c, turns[k]);
    }
  }

  lemma TurnRepairsSurvivor(t: Templates, w: World, c: CompanyId, turn: Turn)
    requires c in OneTurn(t, w, c, turn).0.companies
    ensures CompanyInLine(t, OneTurn(t, w, c, turn).0.tenants, c) <==> Unharmed(t, w.tenants, c, turn)
  {
    hide CompanyInLine, UpToDate, Stale, Selected;
    TurnRepairs(t, w, c, turn);
  }

  /** Exactly which surviving companies end in line, wherever the sweep stops:
      those that were so before; and, of those it reached, the ones whose two
      role statements ran, and the ones with nothing to revoke whose grant ran. */
  lemma SweepOutcome(t: Templates, w: World, list: seq<CompanyId>, turns: seq<Turn>, c: CompanyId)
    requires |list| == |turns| && Distinct(list) && c in Sweep(t, w, list, turns, 0).0.companies
    ensures var (w', log) := Sweep(t, w, list, turns, 0);
            CompanyInLine(t, w'.tenants, c)
            <==> UpToDate(t, w.tenants, c)
                 || exists k | 0 <= k < |log| :: list[k] == c && turns[k].grantFault == None
                                                && (turns[k].revokeFault == None || Stale(t, w.tenants, Some(c)) == {})
  {
    hide OneTurn, Sweep, CompanyInLine, Selected, Stale;
    var (w', log) := Sweep(t, w, list, turns, 0);
    UpToDateMeansInLine(t, w.tenants, c);
    if k :| 0 <= k < |log| && list[k] == c {
      SweepRepairs(t, w, list, turns, 0, k);
    } else {
      SweepSparesUnreached(t, w, list, turns, 0, c);
      SameRolesSameStanding(t, w.tenants, w'.tenants, c);
    }
  }

  // ----- what a foreign-key fault means

  /** The INSERT reads its rows first and writes them later; by then one of them
      may refer to a role or a permission that is no longer there. */
  predicate Dangles(rows: set<Grant>, t: Templates, n: Tenants) {
    exists g | g in rows :: g.0 !in n.roles || g.1 !in t.catalogue.Values
  }

  /** A permission is deleted, and every grant of it with it. */
  function WithoutPermission(t: Templates, key: Key): Templates
    requires key in t.catalogue
  {
    Templates(t.catalogue - {key}, t.roles, set g | g in t.grants && g.1 != t.catalogue[key])
  }

  /** The sweep reads a foreign-key fault as "the company is gone". That is so
      exactly when every permission that was to be granted is still there. */
  lemma FaultMeansGone(before: Templates, now: Templates, n: Tenants, gone: set<CompanyId>, c: CompanyId)
    ensures var rows := Selected(before, n, Some(c));
            Dangles(rows, now, WithoutCompanies(n, gone))
            <==> rows != {} && (c in gone || exists g | g in rows :: g.1 !in now.catalogue.Values)
  {
  }

  /** The gap this leaves: the template of role 2 holds permissions 7 and 8; 8 is
      deleted between the reading and the writing of the INSERT; the statement
      fails as a whole, the sweep takes company 5 for deleted, and role 2 is left
      without permission 7, which is still there. */
  lemma VanishedPermissionSkipsLivingCompany()
    ensures var before := Templates(map["sales" := 7, "ledger" := 8], map[1 := TemplateRole("owner", "Owner", true)],
                                    {(1, 7), (1, 8)});
            var now := WithoutPermission(before, "ledger");
            var w := World(Tenants(map[2 := TenantRole(5, "owner", true)], {}), {5});
            var turns := [Turn({}, Some(Fault(Some("P2003"), None)), {}, None, {}, Reconciled(0, 0))];
            var (w', log) := Sweep(now, w, [5], turns, 0);
            && Dangles(Selected(before, w.tenants, Some(5)), now, w.tenants)
            && 5 in w'.companies && log == [SkippedAtRoles]
            && TemplateHolds(now, "owner", 7) && !CompanyInLine(now, w'.tenants, 5)
  {
    var before := Templates(map["sales" := 7, "ledger" := 8], map[1 := TemplateRole("owner", "Owner", true)],
                            {(1, 7), (1, 8)});
    var now := WithoutPermission(before, "ledger");
    var w := World(Tenants(map[2 := TenantRole(5, "owner", true)], {}), {5});
    var turns := [Turn({}, Some(Fault(Some("P2003"), None)), {}, None, {}, Reconciled(0, 0))];
    var (w', log) := Sweep(now, w, [5], turns, 0);
    assert 1 in before.roles && (1, 8) in before.grants;
    assert TemplateHolds(before, "owner", 8);
    SelectedMeans(before, w.tenants, Some(5), 2, 8);
    assert 8 !in now.catalogue.Values;
    assert 1 in now.roles && (1, 7) in now.grants;
    assert TemplateHolds(now, "owner", 7);
    assert w'.tenants.roles == w.tenants.roles;
    assert (2, 7) !in w'.tenants.grants;
    assert !InLine(now, w'.tenants, 2);
  }
}
