// api/db_init.py: `ensure_required_columns` and `ensure_tenant_required_columns`. At every startup the
// missing columns are added, one committed transaction each; any of them may fail and end the run.

module SchemaPatch {
  import opened Collections

  datatype Table =
    | MasterUsers | Tenants | GlobalInstallationInfo | InstallationInfo
    | BankStatements | Users | Invoices | Anomalies | Clients | Expenses | EmailNotificationSettings
    | OtherTable(name: string)

  datatype Column =
    | MustResetPassword | ShowAnalytics | Theme | CountAgainstLicense | AzureAdId | AzureTenantId
    | MfaChainEnabled | MfaChainMode | MfaChainFactors | MfaFactorSecrets
    | IsEnabled | AllowJoinLookup | JoinLookupExactMatch | ArchivedAt | ArchivedById | ArchiveReason | PortalPublicId
    | AllowPasswordSignup | AllowSsoSignup | LicenseScope | MaxTenants | MaxUsers
    | RollupExpenseId | ReminderLastOffset | ReminderLastSentAt
    | Status | ResolutionNote | AlertedAt | IsSample | AnomalyAlert | EmailHash | OwnerUserId
    | IsDismissed | OtherColumn(name: string)

  /** A row of the anomalies table; `status` is present once the column is. */
  datatype Anomaly = Anomaly(dismissed: Option<bool>, status: Option<string>)

  datatype Db = Db(columns: map<Table, set<Column>>, indexes: set<(Table, Column)>, anomalies: map<int, Anomaly>)

  /** One column to add, with what its transaction does besides: a foreign key, an index, a backfill. */
  datatype Step = Step(table: Table, column: Column, references: Option<Table>, indexed: bool, backfill: bool)

  function Plain(table: Table, column: Column): Step {
    Step(table, column, None, false, false)
  }

  const MASTER_USERS_STEPS := [
    Plain(MasterUsers, MustResetPassword), Plain(MasterUsers, ShowAnalytics), Plain(MasterUsers, Theme),
    Plain(MasterUsers, CountAgainstLicense), Plain(MasterUsers, AzureAdId), Plain(MasterUsers, AzureTenantId),
    Plain(MasterUsers, MfaChainEnabled), Plain(MasterUsers, MfaChainMode), Plain(MasterUsers, MfaChainFactors),
    Plain(MasterUsers, MfaFactorSecrets)]

  const TENANTS_STEPS := [
    Plain(Tenants, IsEnabled), Plain(Tenants, AllowJoinLookup), Plain(Tenants, JoinLookupExactMatch),
    Plain(Tenants, CountAgainstLicense), Plain(Tenants, ArchivedAt), Plain(Tenants, ArchivedById),
    Plain(Tenants, ArchiveReason), Plain(Tenants, PortalPublicId)]

  const INSTALLATION_STEPS := [
    Plain(GlobalInstallationInfo, AllowPasswordSignup), Plain(GlobalInstallationInfo, AllowSsoSignup),
    Plain(GlobalInstallationInfo, LicenseScope), Plain(GlobalInstallationInfo, MaxTenants),
    Plain(GlobalInstallationInfo, MaxUsers),
    Plain(InstallationInfo, LicenseScope)]

  const MASTER_STEPS := MASTER_USERS_STEPS + (TENANTS_STEPS + INSTALLATION_STEPS)

  const TENANT_OWN_STEPS := [
    Step(BankStatements, RollupExpenseId, Some(Expenses), false, false),
    Plain(Users, Theme),
    Plain(Invoices, ReminderLastOffset), Plain(Invoices, ReminderLastSentAt),
    Step(Anomalies, Status, None, false, true), Plain(Anomalies, ResolutionNote), Plain(Anomalies, AlertedAt)]

  const TENANT_LATER_STEPS := [
    Plain(Clients, IsSample), Plain(Invoices, IsSample), Plain(Expenses, IsSample),
    Plain(EmailNotificationSettings, AnomalyAlert),
    Step(Clients, EmailHash, None, true, false),
    Step(Clients, OwnerUserId, Some(Users), true, false)]

  const TENANT_STEPS := TENANT_OWN_STEPS + TENANT_LATER_STEPS

  // ----- one step --------------------------------------------------------------------------

  predicate Needed(db: Db, step: Step) {
    step.table in db.columns && step.column !in db.columns[step.table]
  }

  /** The database takes the statements of a needed step: what they refer to is there. */
  predicate Accepted(db: Db, step: Step) {
    && (step.references.Some? ==> step.references.value in db.columns)
    && (step.backfill ==> step.table in db.columns && IsDismissed in db.columns[step.table])
  }

  /** DEFAULT 'open', then UPDATE ... SET status = 'dismissed' WHERE is_dismissed = true */
  function Backfill(anomalies: map<int, Anomaly>): map<int, Anomaly> {
    map id | id in anomalies ::
      anomalies[id].(status := Some(if anomalies[id].dismissed == Some(true) then "dismissed" else "open"))
  }

  function ApplyStep(db: Db, step: Step): Db
    requires step.table in db.columns
  {
    Db(db.columns[step.table := db.columns[step.table] + {step.column}],
       db.indexes + (if step.indexed then {(step.table, step.column)} else {}),
       if step.backfill then Backfill(db.anomalies) else db.anomalies)
  }

  /** ALTER, then the index or the backfill, then the commit. */
  function Statements(step: Step): nat {
    2 + (if step.indexed then 1 else 0) + (if step.backfill then 1 else 0)
  }

  datatype Outcome = Outcome(db: Db, ok: bool)

  /** One run in which the first `budget` statements succeed: what is committed, and whether it completed. */
  function Run(db: Db, steps: seq<Step>, budget: nat): Outcome
    decreases |steps|
  {
    if steps == [] then Outcome(db, true)
    else if !Needed(db, steps[0]) then Run(db, steps[1..], budget)
    else if !Accepted(db, steps[0]) || budget < Statements(steps[0]) then Outcome(db, false)
    else Run(ApplyStep(db, steps[0]), steps[1..], budget - Statements(steps[0]))
  }

  /** How many ALTER statements such a run gets through, committed or not. */
  function Altered(db: Db, steps: seq<Step>, budget: nat): nat
    decreases |steps|
  {
    if steps == [] then 0
    else if !Needed(db, steps[0]) then Altered(db, steps[1..], budget)
    else if !Accepted(db, steps[0]) || budget < Statements(steps[0]) then
      (if budget == 0 || (steps[0].references.Some? && steps[0].references.value !in db.columns) then 0 else 1)
    else 1 + Altered(ApplyStep(db, steps[0]), steps[1..], budget - Statements(steps[0]))
  }

  ghost predicate DistinctSteps(steps: seq<Step>) {
    forall i, j :: 0 <= i < j < |steps| ==> steps[i].table != steps[j].table || steps[i].column != steps[j].column
  }

  ghost predicate NoneNeeded(db: Db, steps: seq<Step>) {
    forall s :: s in steps ==> !Needed(db, s)
  }

  // ----- the script ------------------------------------------------------------------------

  class Database {
    var committed: Db

    /**
     * Both functions of the script: the same loop over their own list of columns. The inspector looks
     * at a table once and then answers from its cache, so a decision may rest on an old look.
     */
    method EnsureColumns(steps: seq<Step>, budget: nat) returns (ok: bool, alters: nat)
      requires DistinctSteps(steps)
      modifies this
      ensures Outcome(committed, ok) == Run(old(committed), steps, budget)
      ensures alters == Altered(old(committed), steps, budget)
      ensures NoneNeeded(old(committed), steps) ==> ok && alters == 0
    {
      alters := 0;
      var left := budget;
      var names := committed.columns.Keys;
      var seen: map<Table, set<Column>> := map[];
      ghost var before := committed;
      for i := 0 to |steps|
        invariant names == committed.columns.Keys
        invariant Run(before, steps, budget) == Run(committed, steps[i..], left)
        invariant Altered(before, steps, budget) == alters + Altered(committed, steps[i..], left)
        invariant forall t :: t in seen ==> t in names
        invariant forall j :: i <= j < |steps| && steps[j].table in seen ==>
                    (steps[j].column in seen[steps[j].table] <==> steps[j].column in committed.columns[steps[j].table])
        invariant NoneNeeded(before, steps) ==> committed == before && alters == 0
      {
        var step := steps[i];
        RunFrom(committed, steps, i, left);
        AlteredFrom(committed, steps, i, left);
        if step.table in names {
          if step.table !in seen {
            seen := seen[step.table := committed.columns[step.table]];
          }
          if step.column !in seen[step.table] {
            assert step in steps && Needed(committed, step);
            // the transaction works on its own copy
            var working := committed;
            if left == 0 || (step.references.Some? && step.references.value !in working.columns) {
              return false, alters;
            }
            left, alters := left - 1, alters + 1;
            working := working.(columns := working.columns[step.table := working.columns[step.table] + {step.column}]);
            if step.backfill {
              if left == 0 || IsDismissed !in committed.columns[step.table] {
                return false, alters;
              }
              left := left - 1;
              working := working.(anomalies := Backfill(working.anomalies));
            }
            if step.indexed {
              if left == 0 {
                return false, alters;
              }
              left := left - 1;
              working := working.(indexes := working.indexes + {(step.table, step.column)});
            }
            if left == 0 {
              return false, alters;
            }
            left := left - 1;
            assert working == ApplyStep(committed, step);
            committed := working;
          }
        }
      }
      return true, alters;
    }
  }

  ghost predicate OnTables(steps: seq<Step>, tables: set<Table>) {
    forall i :: 0 <= i < |steps| ==> steps[i].table in tables
  }

  ghost predicate OnColumns(steps: seq<Step>, columns: set<Column>) {
    forall i :: 0 <= i < |steps| ==> steps[i].column in columns
  }

  lemma MasterUsersBlock()
    ensures DistinctSteps(MASTER_USERS_STEPS) && OnTables(MASTER_USERS_STEPS, {MasterUsers})
  {
  }

  lemma TenantsBlock()
    ensures DistinctSteps(TENANTS_STEPS) && OnTables(TENANTS_STEPS, {Tenants})
  {
  }

  lemma InstallationBlock()
    ensures DistinctSteps(INSTALLATION_STEPS) && OnTables(INSTALLATION_STEPS, {GlobalInstallationInfo, InstallationInfo})
  {
  }

  lemma TenantBlocks()
    ensures DistinctSteps(TENANT_OWN_STEPS) && DistinctSteps(TENANT_LATER_STEPS)
    ensures OnColumns(TENANT_OWN_STEPS, {RollupExpenseId, Theme, ReminderLastOffset, ReminderLastSentAt,
                                         Status, ResolutionNote, AlertedAt})
    ensures OnColumns(TENANT_LATER_STEPS, {IsSample, AnomalyAlert, EmailHash, OwnerUserId})
  {
  }

  /** No column is listed twice, so an old look at a table decides like a fresh one. */
  lemma ListsAreDistinct()
    ensures DistinctSteps(MASTER_STEPS) && DistinctSteps(TENANT_STEPS)
  {
    MasterUsersBlock();
    TenantsBlock();
    InstallationBlock();
    TenantBlocks();
    var rest := TENANTS_STEPS + INSTALLATION_STEPS;
    TablesApart(TENANTS_STEPS, {Tenants}, INSTALLATION_STEPS, {GlobalInstallationInfo, InstallationInfo});
    assert OnTables(rest, {Tenants} + {GlobalInstallationInfo, InstallationInfo});
    TablesApart(MASTER_USERS_STEPS, {MasterUsers}, rest, {Tenants} + {GlobalInstallationInfo, InstallationInfo});
    ColumnsApart(TENANT_OWN_STEPS,
                 {RollupExpenseId, Theme, ReminderLastOffset, ReminderLastSentAt, Status, ResolutionNote, AlertedAt},
                 TENANT_LATER_STEPS, {IsSample, AnomalyAlert, EmailHash, OwnerUserId});
  }

  lemma TablesApart(first: seq<Step>, tables1: set<Table>, second: seq<Step>, tables2: set<Table>)
    requires DistinctSteps(first) && DistinctSteps(second)
    requires OnTables(first, tables1) && OnTables(second, tables2) && tables1 !! tables2
    ensures DistinctSteps(first + second) && OnTables(first + second, tables1 + tables2)
  {
  }

  lemma ColumnsApart(first: seq<Step>, columns1: set<Column>, second: seq<Step>, columns2: set<Column>)
    requires DistinctSteps(first) && DistinctSteps(second)
    requires OnColumns(first, columns1) && OnColumns(second, columns2) && columns1 !! columns2
    ensures DistinctSteps(first + second)
  {
  }

  // ----- crash recovery --------------------------------------------------------------------

  /** The tables after all columns have been added, said in one go about the tables before. */
  ghost function Target(db: Db, steps: seq<Step>): Db {
    Db(map t | t in db.columns :: db.columns[t] + (set s | s in steps && s.table == t :: s.column),
       db.indexes + (set s | s in steps && s.indexed && Needed(db, s) :: (s.table, s.column)),
       if exists s :: s in steps && s.backfill && Needed(db, s) then Backfill(db.anomalies) else db.anomalies)
  }

  lemma TargetOfPatched(db: Db, steps: seq<Step>)
    requires NoneNeeded(db, steps)
    ensures Target(db, steps) == db
  {
    forall t | t in db.columns
      ensures db.columns[t] + (set s | s in steps && s.table == t :: s.column) == db.columns[t]
    {
      assert forall s :: s in steps && s.table == t ==> !Needed(db, s);
    }
  }

  lemma NeededAfter(db: Db, step: Step, other: Step)
    requires Needed(db, step)
    ensures Needed(ApplyStep(db, step), other)
       <==> Needed(db, other) && (other.table != step.table || other.column != step.column)
  {
  }

  /** Committing one step brings the tables nearer to the same target. */
  lemma StepKeepsTarget(db: Db, steps: seq<Step>, i: nat)
    requires DistinctSteps(steps) && i < |steps| && Needed(db, steps[i])
    ensures Target(ApplyStep(db, steps[i]), steps) == Target(db, steps)
  {
    var step := steps[i];
    var after := ApplyStep(db, step);
    forall s | s in steps ensures Needed(after, s) <==> Needed(db, s) && s != step {
      NeededAfter(db, step, s);
    }
    assert step in steps;
    forall t | t in db.columns ensures Target(after, steps).columns[t] == Target(db, steps).columns[t] {
      assert step.table == t ==> step.column in (set s | s in steps && s.table == t :: s.column);
    }
    assert Target(after, steps).indexes == Target(db, steps).indexes;
    assert Backfill(Backfill(db.anomalies)) == Backfill(db.anomalies);
  }

  lemma RunFrom(db: Db, steps: seq<Step>, i: nat, budget: nat)
    requires i < |steps|
    ensures Run(db, steps[i..], budget)
         == if !Needed(db, steps[i]) then Run(db, steps[i + 1..], budget)
            else if !Accepted(db, steps[i]) || budget < Statements(steps[i]) then Outcome(db, false)
            else Run(ApplyStep(db, steps[i]), steps[i + 1..], budget - Statements(steps[i]))
  {
    assert steps[i..][0] == steps[i] && steps[i..][1..] == steps[i + 1..];
  }

  lemma AlteredFrom(db: Db, steps: seq<Step>, i: nat, budget: nat)
    requires i < |steps|
    ensures Altered(db, steps[i..], budget)
         == if !Needed(db, steps[i]) then Altered(db, steps[i + 1..], budget)
            else if !Accepted(db, steps[i]) || budget < Statements(steps[i]) then
              (if budget == 0 || (steps[i].references.Some? && steps[i].references.value !in db.columns) then 0 else 1)
            else 1 + Altered(ApplyStep(db, steps[i]), steps[i + 1..], budget - Statements(steps[i]))
  {
    assert steps[i..][0] == steps[i] && steps[i..][1..] == steps[i + 1..];
  }

  /** A completed run alters once for each listed column that was missing. */
  lemma {:induction false} AlteredOncePerColumn(db: Db, steps: seq<Step>, budget: nat)
    requires DistinctSteps(steps) && Run(db, steps, budget).ok
    ensures Altered(db, steps, budget) == |set i | 0 <= i < |steps| && Needed(db, steps[i])|
    decreases |steps|
  {
    var missing := set i | 0 <= i < |steps| && Needed(db, steps[i]);
    if |steps| == 0 {
      assert missing == {};
    } else {
      var step, rest := steps[0], steps[1..];
      var next := if Needed(db, step) then ApplyStep(db, step) else db;
      AlteredOncePerColumn(next, rest, if Needed(db, step) then budget - Statements(step) else budget);
      MissingOneLess(db, next, steps);
    }
  }

  lemma MissingOneLess(db: Db, next: Db, steps: seq<Step>)
    requires DistinctSteps(steps) && |steps| > 0
    requires next == if Needed(db, steps[0]) then ApplyStep(db, steps[0]) else db
    ensures |set i | 0 <= i < |steps| && Needed(db, steps[i])|
         == |set i | 0 <= i < |steps[1..]| && Needed(next, steps[1..][i])| + (if Needed(db, steps[0]) then 1 else 0)
  {
    var rest := steps[1..];
    forall i | 0 <= i < |rest| ensures Needed(next, rest[i]) <==> Needed(db, steps[i + 1]) {
      if Needed(db, steps[0]) {
        NeededAfter(db, steps[0], steps[i + 1]);
      }
    }
    var missing := set i | 0 <= i < |steps| && Needed(db, steps[i]);
    var later := set i | 0 <= i < |rest| && Needed(next, rest[i]);
    var shifted := set i | 1 <= i < |steps| && Needed(db, steps[i]);
    Shifted(later, shifted);
    assert missing == if Needed(db, steps[0]) then shifted + {0} else shifted;
  }

  lemma {:induction false} Shifted(places: set<int>, next: set<int>)
    requires forall i :: i in places <==> i + 1 in next
    ensures |places| == |next|
    decreases |places|
  {
    if places == {} {
      forall i ensures i !in next {
        assert i - 1 !in places && i - 1 + 1 == i;
      }
    } else {
      var i := AnElement(places);
      assert i + 1 in next;
      Shifted(places - {i}, next - {i + 1});
    }
  }

  lemma {:induction false} RunKeepsTarget(db: Db, steps: seq<Step>, i: nat, budget: nat)
    requires DistinctSteps(steps) && i <= |steps|
    ensures Target(Run(db, steps[i..], budget).db, steps) == Target(db, steps)
    decreases |steps| - i
  {
    if i < |steps| {
      RunFrom(db, steps, i, budget);
      if !Needed(db, steps[i]) {
        RunKeepsTarget(db, steps, i + 1, budget);
      } else if Accepted(db, steps[i]) && budget >= Statements(steps[i]) {
        StepKeepsTarget(db, steps, i);
        RunKeepsTarget(ApplyStep(db, steps[i]), steps, i + 1, budget - Statements(steps[i]));
      }
    }
  }

  /** Runs never take a table, column or index away. */
  lemma {:induction false} RunOnlyAdds(db: Db, steps: seq<Step>, budget: nat)
    ensures var after := Run(db, steps, budget).db;
            && after.columns.Keys == db.columns.Keys
            && (forall t :: t in db.columns ==> db.columns[t] <= after.columns[t])
            && db.indexes <= after.indexes
            && after.anomalies.Keys == db.anomalies.Keys
    decreases |steps|
  {
    if steps != [] {
      if !Needed(db, steps[0]) {
        RunOnlyAdds(db, steps[1..], budget);
      } else if Accepted(db, steps[0]) && budget >= Statements(steps[0]) {
        RunOnlyAdds(ApplyStep(db, steps[0]), steps[1..], budget - Statements(steps[0]));
      }
    }
  }

  lemma {:induction false} CompleteRunPatchesAll(db: Db, steps: seq<Step>, budget: nat)
    requires Run(db, steps, budget).ok
    ensures NoneNeeded(Run(db, steps, budget).db, steps)
    decreases |steps|
  {
    if steps != [] {
      var step, rest := steps[0], steps[1..];
      assert forall s :: s in steps ==> s == step || s in rest;
      if !Needed(db, step) {
        CompleteRunPatchesAll(db, rest, budget);
        RunOnlyAdds(db, rest, budget);
      } else {
        var next := ApplyStep(db, step);
        CompleteRunPatchesAll(next, rest, budget - Statements(step));
        RunOnlyAdds(next, rest, budget - Statements(step));
      }
    }
  }

  /** Startups one after the other, each stopped wherever its budget runs out. */
  function Startups(db: Db, steps: seq<Step>, budgets: seq<nat>): Db {
    if budgets == [] then db
    else Run(Startups(db, steps, budgets[..|budgets| - 1]), steps, budgets[|budgets| - 1]).db
  }

  /** Committing a step makes no other step acceptable or unacceptable. */
  lemma StepKeepsAcceptance(db: Db, step: Step, other: Step)
    requires Needed(db, step) && step.column != IsDismissed
    ensures Accepted(ApplyStep(db, step), other) <==> Accepted(db, other)
  {
  }

  /** What a run leaves undone can be refused exactly if it could be before. */
  lemma {:induction false} RunKeepsAcceptance(db: Db, steps: seq<Step>, i: nat, budget: nat)
    requires DistinctSteps(steps) && AddsNoDismissedFlag(steps) && i <= |steps|
    ensures AllAccepted(Run(db, steps[i..], budget).db, steps) <==> AllAccepted(db, steps)
    decreases |steps| - i
  {
    if i < |steps| {
      RunFrom(db, steps, i, budget);
      if !Needed(db, steps[i]) {
        RunKeepsAcceptance(db, steps, i + 1, budget);
      } else if Accepted(db, steps[i]) && budget >= Statements(steps[i]) {
        var next := ApplyStep(db, steps[i]);
        RunKeepsAcceptance(next, steps, i + 1, budget - Statements(steps[i]));
        forall j | 0 <= j < |steps|
          ensures (Needed(next, steps[j]) ==> Accepted(next, steps[j])) <==> (Needed(db, steps[j]) ==> Accepted(db, steps[j]))
        {
          NeededAfter(db, steps[i], steps[j]);
          StepKeepsAcceptance(db, steps[i], steps[j]);
          assert j == i || steps[j].table != steps[i].table || steps[j].column != steps[i].column;
        }
      }
    }
  }

  lemma {:induction false} StartupsKeepAcceptance(db: Db, steps: seq<Step>, budgets: seq<nat>)
    requires DistinctSteps(steps) && AddsNoDismissedFlag(steps)
    ensures AllAccepted(Startups(db, steps, budgets), steps) <==> AllAccepted(db, steps)
  {
    if budgets != [] {
      var last := |budgets| - 1;
      StartupsKeepAcceptance(db, steps, budgets[..last]);
      assert steps[0..] == steps;
      RunKeepsAcceptance(Startups(db, steps, budgets[..last]), steps, 0, budgets[last]);
    }
  }

  /**
   * Whether the tables can ever be completed is decided by the initial ones: if no needed step is refused
   * there, every startup that has its way completes, whatever was cut short before it; otherwise none does.
   */
  lemma CompletionIsDecidedInitially(db: Db, steps: seq<Step>, budgets: seq<nat>, budget: nat)
    requires DistinctSteps(steps) && AddsNoDismissedFlag(steps)
    ensures var final := Run(Startups(db, steps, budgets), steps, budget);
            && (AllAccepted(db, steps) && budget >= AllStatements(steps) ==> final.ok && final.db == Target(db, steps))
            && (final.ok ==> AllAccepted(db, steps))
  {
    StartupsKeepAcceptance(db, steps, budgets);
    RunCompletesIff(Startups(db, steps, budgets), steps, budget);
    InterruptedRunsConverge(db, steps, budgets, budget);
  }

  /** Step `i` is missing and the database refuses it; step `j`, at or behind it, is missing too. */
  ghost predicate Blocked(db: Db, steps: seq<Step>, i: nat, j: nat) {
    i <= j < |steps| && Needed(db, steps[i]) && !Accepted(db, steps[i]) && Needed(db, steps[j])
  }

  lemma {:induction false} RunStaysBlocked(db: Db, steps: seq<Step>, k: nat, i: nat, j: nat, budget: nat)
    requires DistinctSteps(steps) && AddsNoDismissedFlag(steps) && k <= i && Blocked(db, steps, i, j)
    ensures Blocked(Run(db, steps[k..], budget).db, steps, i, j)
    decreases i - k
  {
    RunFrom(db, steps, k, budget);
    if k < i {
      if !Needed(db, steps[k]) {
        RunStaysBlocked(db, steps, k + 1, i, j, budget);
      } else if Accepted(db, steps[k]) && budget >= Statements(steps[k]) {
        var next := ApplyStep(db, steps[k]);
        NeededAfter(db, steps[k], steps[i]);
        NeededAfter(db, steps[k], steps[j]);
        StepKeepsAcceptance(db, steps[k], steps[i]);
        RunStaysBlocked(next, steps, k + 1, i, j, budget - Statements(steps[k]));
      }
    }
  }

  /** A refused step is refused at every later startup, and no missing column listed behind it is ever added. */
  lemma {:induction false} RefusalIsFinal(db: Db, steps: seq<Step>, budgets: seq<nat>, i: nat, j: nat)
    requires DistinctSteps(steps) && AddsNoDismissedFlag(steps) && Blocked(db, steps, i, j)
    ensures Blocked(Startups(db, steps, budgets), steps, i, j)
  {
    if budgets != [] {
      var last := |budgets| - 1;
      RefusalIsFinal(db, steps, budgets[..last], i, j);
      assert steps[0..] == steps;
      RunStaysBlocked(Startups(db, steps, budgets[..last]), steps, 0, i, j, budgets[last]);
    }
  }

  /**
   * Without an `expenses` table, a tenant whose `bank_statements` lack their new column never gets any of the
   * listed columns, however often it is started.
   */
  lemma {:induction false} WithoutExpensesNothingIsAdded(db: Db, budgets: seq<nat>)
    requires BankStatements in db.columns && RollupExpenseId !in db.columns[BankStatements] && Expenses !in db.columns
    ensures Startups(db, TENANT_STEPS, budgets) == db && !AllAccepted(db, TENANT_STEPS)
  {
    assert TENANT_STEPS[0] == Step(BankStatements, RollupExpenseId, Some(Expenses), false, false);
    assert Needed(db, TENANT_STEPS[0]) && !Accepted(db, TENANT_STEPS[0]);
    if budgets != [] {
      WithoutExpensesNothingIsAdded(db, budgets[..|budgets| - 1]);
    }
  }

  /**
   * Crash recovery: however many startups were cut short and wherever, a startup that completes leaves
   * exactly the tables that one uninterrupted run leaves, and none after it alters anything.
   */
  lemma {:induction false} InterruptedRunsConverge(db: Db, steps: seq<Step>, budgets: seq<nat>, budget: nat)
    requires DistinctSteps(steps)
    ensures Target(Startups(db, steps, budgets), steps) == Target(db, steps)
    ensures var final := Run(Startups(db, steps, budgets), steps, budget);
            final.ok ==> final.db == Target(db, steps) && NoneNeeded(final.db, steps)
                         && Run(final.db, steps, 0) == Outcome(final.db, true)
  {
    if budgets != [] {
      var last := |budgets| - 1;
      InterruptedRunsConverge(db, steps, budgets[..last], 0);
      assert steps[0..] == steps;
      RunKeepsTarget(Startups(db, steps, budgets[..last]), steps, 0, budgets[last]);
    }
    var reached := Startups(db, steps, budgets);
    var final := Run(reached, steps, budget);
    assert steps[0..] == steps;
    RunKeepsTarget(reached, steps, 0, budget);
    if final.ok {
      CompleteRunPatchesAll(reached, steps, budget);
      TargetOfPatched(final.db, steps);
      NothingToDo(final.db, steps);
    }
  }

  lemma {:induction false} NothingToDo(db: Db, steps: seq<Step>)
    requires NoneNeeded(db, steps)
    ensures Run(db, steps, 0) == Outcome(db, true)
  {
    if steps != [] {
      assert steps[0] in steps;
      NothingToDo(db, steps[1..]);
    }
  }

  /**
   * At every commit of every run: a listed column that was not there before is there together with its
   * index. A column that was there already does not get one.
   */
  lemma {:induction false} IndexComesWithColumn(db: Db, steps: seq<Step>, budget: nat, step: Step)
    requires DistinctSteps(steps) && step in steps && step.table in db.columns
    ensures var after := Run(db, steps, budget).db;
            && step.table in after.columns
            && (Needed(db, step) && step.column in after.columns[step.table] && step.indexed ==>
                  (step.table, step.column) in after.indexes)
            && (!Needed(db, step) || !step.indexed ==>
                  ((step.table, step.column) in after.indexes <==> (step.table, step.column) in db.indexes))
    decreases |steps|
  {
    var first, rest := steps[0], steps[1..];
    if !Needed(db, first) {
      if step in rest {
        IndexComesWithColumn(db, rest, budget, step);
      } else {
        OtherStepsLeaveAlone(db, rest, budget, step);
      }
    } else if Accepted(db, first) && budget >= Statements(first) {
      var next := ApplyStep(db, first);
      if step == first {
        OtherStepsLeaveAlone(next, rest, budget - Statements(first), step);
      } else {
        NeededAfter(db, first, step);
        assert step.table != first.table || step.column != first.column by {
          var j :| 0 <= j < |steps| && steps[j] == step;
          assert j > 0;
        }
        IndexComesWithColumn(next, rest, budget - Statements(first), step);
      }
    }
  }

  lemma {:induction false} OtherStepsLeaveAlone(db: Db, steps: seq<Step>, budget: nat, step: Step)
    requires step.table in db.columns
    requires forall s :: s in steps ==> s.table != step.table || s.column != step.column
    ensures var after := Run(db, steps, budget).db;
            && step.table in after.columns
            && (step.column in after.columns[step.table] <==> step.column in db.columns[step.table])
            && ((step.table, step.column) in after.indexes <==> (step.table, step.column) in db.indexes)
    decreases |steps|
  {
    if steps != [] {
      assert steps[0] in steps;
      if !Needed(db, steps[0]) {
        OtherStepsLeaveAlone(db, steps[1..], budget, step);
      } else if Accepted(db, steps[0]) && budget >= Statements(steps[0]) {
        OtherStepsLeaveAlone(ApplyStep(db, steps[0]), steps[1..], budget - Statements(steps[0]), step);
      }
    }
  }

  /** Every needed step finds what its statements refer to. */
  predicate AllAccepted(db: Db, steps: seq<Step>) {
    forall i :: 0 <= i < |steps| && Needed(db, steps[i]) ==> Accepted(db, steps[i])
  }

  function AllStatements(steps: seq<Step>): nat {
    if steps == [] then 0 else Statements(steps[0]) + AllStatements(steps[1..])
  }

  ghost predicate AddsNoDismissedFlag(steps: seq<Step>) {
    forall i :: 0 <= i < |steps| ==> steps[i].column != IsDismissed
  }

  /**
   * A run without outage completes exactly when no needed column has a foreign key to a missing table
   * and the backfilled table has its `is_dismissed` column.
   */
  lemma {:induction false} RunCompletesIff(db: Db, steps: seq<Step>, budget: nat)
    requires DistinctSteps(steps) && AddsNoDismissedFlag(steps)
    ensures Run(db, steps, budget).ok ==> AllAccepted(db, steps)
    ensures AllAccepted(db, steps) && budget >= AllStatements(steps) ==> Run(db, steps, budget).ok
    decreases |steps|
  {
    if steps != [] {
      var step, rest := steps[0], steps[1..];
      if !Needed(db, step) {
        RunCompletesIff(db, rest, budget);
        assert AllAccepted(db, steps) <==> AllAccepted(db, rest) by {
          assert forall i :: 0 <= i < |rest| ==> rest[i] == steps[i + 1];
        }
      } else if Accepted(db, step) && budget >= Statements(step) {
        var next := ApplyStep(db, step);
        RunCompletesIff(next, rest, budget - Statements(step));
        AcceptanceIsStable(db, steps);
      }
    }
  }

  lemma AcceptanceIsStable(db: Db, steps: seq<Step>)
    requires DistinctSteps(steps) && AddsNoDismissedFlag(steps)
    requires steps != [] && Needed(db, steps[0]) && Accepted(db, steps[0])
    ensures AllAccepted(db, steps) <==> AllAccepted(ApplyStep(db, steps[0]), steps[1..])
  {
    var next := ApplyStep(db, steps[0]);
    forall i | 0 < i < |steps|
      ensures (Needed(db, steps[i]) ==> Accepted(db, steps[i]))
         <==> (Needed(next, steps[i]) ==> Accepted(next, steps[i]))
    {
      NeededAfter(db, steps[0], steps[i]);
    }
    if AllAccepted(db, steps) {
      forall i | 0 <= i < |steps[1..]| && Needed(next, steps[1..][i]) ensures Accepted(next, steps[1..][i]) {
        assert steps[1..][i] == steps[i + 1];
      }
    }
    if AllAccepted(next, steps[1..]) {
      forall i | 0 <= i < |steps| && Needed(db, steps[i]) ensures Accepted(db, steps[i]) {
        if i > 0 {
          assert steps[1..][i - 1] == steps[i];
        }
      }
    }
  }

  /** The tenant list never adds the flag its own backfill reads, and backfills nothing but the status column. */
  lemma TenantListIsSafe()
    ensures AddsNoDismissedFlag(TENANT_STEPS) && AddsNoDismissedFlag(MASTER_STEPS)
    ensures BackfillsStatusOnly(TENANT_STEPS)
  {
    BlocksAreSafe();
    SafeTogether(TENANT_OWN_STEPS, TENANT_LATER_STEPS);
    SafeTogether(TENANTS_STEPS, INSTALLATION_STEPS);
    SafeTogether(MASTER_USERS_STEPS, TENANTS_STEPS + INSTALLATION_STEPS);
  }

  lemma BlocksAreSafe()
    ensures AddsNoDismissedFlag(MASTER_USERS_STEPS) && AddsNoDismissedFlag(TENANTS_STEPS) && AddsNoDismissedFlag(INSTALLATION_STEPS)
    ensures AddsNoDismissedFlag(TENANT_OWN_STEPS) && AddsNoDismissedFlag(TENANT_LATER_STEPS)
    ensures BackfillsStatusOnly(TENANT_OWN_STEPS) && BackfillsStatusOnly(TENANT_LATER_STEPS)
  {
  }

  lemma SafeTogether(first: seq<Step>, second: seq<Step>)
    ensures AddsNoDismissedFlag(first) && AddsNoDismissedFlag(second) ==> AddsNoDismissedFlag(first + second)
    ensures BackfillsStatusOnly(first) && BackfillsStatusOnly(second) ==> BackfillsStatusOnly(first + second)
  {
  }

  // ----- the same, table by table ------------------------------------------------------------

  /** The columns a tenant startup sees to. */
  function TenantColumns(table: Table): set<Column> {
    match table
    case BankStatements => {RollupExpenseId}
    case Users => {Theme}
    case Invoices => {ReminderLastOffset, ReminderLastSentAt, IsSample}
    case Anomalies => {Status, ResolutionNote, AlertedAt}
    case Clients => {IsSample, EmailHash, OwnerUserId}
    case Expenses => {IsSample}
    case EmailNotificationSettings => {AnomalyAlert}
    case _ => {}
  }

  /** The columns a startup sees to in the master database. */
  function MasterColumns(table: Table): set<Column> {
    match table
    case MasterUsers =>
      {MustResetPassword, ShowAnalytics, Theme, CountAgainstLicense, AzureAdId, AzureTenantId,
       MfaChainEnabled, MfaChainMode, MfaChainFactors, MfaFactorSecrets}
    case Tenants =>
      {IsEnabled, AllowJoinLookup, JoinLookupExactMatch, CountAgainstLicense, ArchivedAt, ArchivedById, ArchiveReason, PortalPublicId}
    case GlobalInstallationInfo => {AllowPasswordSignup, AllowSsoSignup, LicenseScope, MaxTenants, MaxUsers}
    case InstallationInfo => {LicenseScope}
    case _ => {}
  }

  /** A list has a step for exactly these columns of the table. */
  ghost predicate StepsFor(steps: seq<Step>, table: Table, columns: set<Column>) {
    forall c :: c in columns <==> exists s :: s in steps && s.table == table && s.column == c
  }

  lemma TenantStepIsListed(s: Step)
    requires s in TENANT_STEPS
    ensures s.column in TenantColumns(s.table)
  {
    assert s in TENANT_OWN_STEPS || s in TENANT_LATER_STEPS;
  }

  lemma MasterStepIsListed(s: Step)
    requires s in MASTER_STEPS
    ensures s.column in MasterColumns(s.table)
  {
    assert s in MASTER_USERS_STEPS || s in TENANTS_STEPS || s in INSTALLATION_STEPS;
  }

  lemma TenantStepFor(table: Table, column: Column) returns (s: Step)
    requires column in TenantColumns(table)
    ensures s in TENANT_STEPS && s.table == table && s.column == column
  {
    match table
    case BankStatements => s := TENANT_OWN_STEPS[0];
    case Users => s := TENANT_OWN_STEPS[1];
    case Invoices =>
      s := if column == ReminderLastOffset then TENANT_OWN_STEPS[2]
           else if column == ReminderLastSentAt then TENANT_OWN_STEPS[3] else TENANT_LATER_STEPS[1];
    case Anomalies =>
      s := if column == Status then TENANT_OWN_STEPS[4]
           else if column == ResolutionNote then TENANT_OWN_STEPS[5] else TENANT_OWN_STEPS[6];
    case Clients =>
      s := if column == IsSample then TENANT_LATER_STEPS[0]
           else if column == EmailHash then TENANT_LATER_STEPS[4] else TENANT_LATER_STEPS[5];
    case Expenses => s := TENANT_LATER_STEPS[2];
    case EmailNotificationSettings => s := TENANT_LATER_STEPS[3];
    assert s in TENANT_OWN_STEPS || s in TENANT_LATER_STEPS;
  }

  lemma MasterStepFor(table: Table, column: Column) returns (s: Step)
    requires column in MasterColumns(table)
    ensures s in MASTER_STEPS && s.table == table && s.column == column
  {
    var i := IndexInBlock(table, column);
    match table
    case MasterUsers => s := MASTER_USERS_STEPS[i];
    case Tenants => s := TENANTS_STEPS[i];
    case GlobalInstallationInfo => s := INSTALLATION_STEPS[i];
    case InstallationInfo => s := INSTALLATION_STEPS[i];
    assert s in MASTER_USERS_STEPS || s in TENANTS_STEPS || s in INSTALLATION_STEPS;
  }

  /** Where the step for a column stands in the part of the master list that deals with its table. */
  lemma IndexInBlock(table: Table, column: Column) returns (i: nat)
    requires column in MasterColumns(table)
    ensures table == MasterUsers ==> i < |MASTER_USERS_STEPS| && MASTER_USERS_STEPS[i] == Plain(table, column)
    ensures table == Tenants ==> i < |TENANTS_STEPS| && TENANTS_STEPS[i] == Plain(table, column)
    ensures table == GlobalInstallationInfo || table == InstallationInfo ==>
              i < |INSTALLATION_STEPS| && INSTALLATION_STEPS[i] == Plain(table, column)
  {
    match column
    case MustResetPassword => i := 0;
    case ShowAnalytics => i := 1;
    case Theme => i := 2;
    case CountAgainstLicense => i := 3;
    case AzureAdId => i := 4;
    case AzureTenantId => i := 5;
    case MfaChainEnabled => i := 6;
    case MfaChainMode => i := 7;
    case MfaChainFactors => i := 8;
    case MfaFactorSecrets => i := 9;
    case IsEnabled => i := 0;
    case AllowJoinLookup => i := 1;
    case JoinLookupExactMatch => i := 2;
    case ArchivedAt => i := 4;
    case ArchivedById => i := 5;
    case ArchiveReason => i := 6;
    case PortalPublicId => i := 7;
    case AllowPasswordSignup => i := 0;
    case AllowSsoSignup => i := 1;
    case LicenseScope => i := if table == InstallationInfo then 5 else 2;
    case MaxTenants => i := 3;
    case MaxUsers => i := 4;
  }

  lemma TenantSteps(table: Table)
    ensures StepsFor(TENANT_STEPS, table, TenantColumns(table))
  {
    forall c | c in TenantColumns(table) ensures exists s :: s in TENANT_STEPS && s.table == table && s.column == c {
      var s := TenantStepFor(table, c);
    }
    forall s | s in TENANT_STEPS && s.table == table ensures s.column in TenantColumns(table) {
      TenantStepIsListed(s);
    }
  }

  lemma MasterSteps(table: Table)
    ensures StepsFor(MASTER_STEPS, table, MasterColumns(table))
  {
    forall c | c in MasterColumns(table) ensures exists s :: s in MASTER_STEPS && s.table == table && s.column == c {
      var s := MasterStepFor(table, c);
    }
    forall s | s in MASTER_STEPS && s.table == table ensures s.column in MasterColumns(table) {
      MasterStepIsListed(s);
    }
  }

  lemma TargetColumns(db: Db, steps: seq<Step>, table: Table, columns: set<Column>)
    requires StepsFor(steps, table, columns) && table in db.columns
    ensures table in Target(db, steps).columns && Target(db, steps).columns[table] == db.columns[table] + columns
  {
    var listed := set s | s in steps && s.table == table :: s.column;
    forall c ensures c in listed <==> c in columns {
    }
    assert listed == columns;
  }

  /** The steps that do more than add a column: two indexes on clients, one backfill of anomalies. */
  lemma SpecialTenantSteps(s: Step)
    requires s in TENANT_STEPS
    ensures s.indexed <==> s.table == Clients && (s.column == EmailHash || s.column == OwnerUserId)
    ensures s.backfill <==> s.table == Anomalies && s.column == Status
    ensures s.references == (if s.table == BankStatements && s.column == RollupExpenseId then Some(Expenses)
                             else if s.table == Clients && s.column == OwnerUserId then Some(Users) else None)
  {
    assert s in TENANT_OWN_STEPS || s in TENANT_LATER_STEPS;
  }

  lemma PlainMasterSteps(s: Step)
    requires s in MASTER_STEPS
    ensures !s.indexed && !s.backfill && s.references == None
  {
    assert s in MASTER_USERS_STEPS || s in TENANTS_STEPS || s in INSTALLATION_STEPS;
  }

  predicate Lacks(db: Db, table: Table, column: Column) {
    table in db.columns && column !in db.columns[table]
  }

  /** A list of steps for the tenant columns, with the two indexes, the two foreign keys and the backfill. */
  ghost predicate IsTenantList(steps: seq<Step>) {
    && DistinctSteps(steps)
    && (forall table :: StepsFor(steps, table, TenantColumns(table)))
    && (forall s :: s in steps ==> s.indexed == (s.table == Clients && (s.column == EmailHash || s.column == OwnerUserId)))
    && (forall s :: s in steps ==> s.backfill == (s.table == Anomalies && s.column == Status))
  }

  lemma TenantListIs()
    ensures IsTenantList(TENANT_STEPS)
  {
    ListsAreDistinct();
    forall table ensures StepsFor(TENANT_STEPS, table, TenantColumns(table)) {
      TenantSteps(table);
    }
    forall s | s in TENANT_STEPS
      ensures s.indexed == (s.table == Clients && (s.column == EmailHash || s.column == OwnerUserId))
      ensures s.backfill == (s.table == Anomalies && s.column == Status)
    {
      SpecialTenantSteps(s);
    }
  }

  lemma StepOf(steps: seq<Step>, table: Table, column: Column) returns (s: Step)
    requires IsTenantList(steps) && column in TenantColumns(table)
    ensures s in steps && s.table == table && s.column == column
  {
    assert StepsFor(steps, table, TenantColumns(table));
    s :| s in steps && s.table == table && s.column == column;
  }

  lemma TargetIndexes(db: Db, steps: seq<Step>)
    requires IsTenantList(steps)
    ensures Target(db, steps).indexes
         == db.indexes + (if Lacks(db, Clients, EmailHash) then {(Clients, EmailHash)} else {})
            + (if Lacks(db, Clients, OwnerUserId) then {(Clients, OwnerUserId)} else {})
  {
    var hash := StepOf(steps, Clients, EmailHash);
    var owner := StepOf(steps, Clients, OwnerUserId);
    var added := set s | s in steps && s.indexed && Needed(db, s) :: (s.table, s.column);
    assert Lacks(db, Clients, EmailHash) ==> (hash.table, hash.column) in added;
    assert Lacks(db, Clients, OwnerUserId) ==> (owner.table, owner.column) in added;
    assert forall x :: x in added ==> Lacks(db, x.0, x.1) && x.0 == Clients && (x.1 == EmailHash || x.1 == OwnerUserId);
  }

  lemma TargetAnomalies(db: Db, steps: seq<Step>)
    requires IsTenantList(steps)
    ensures if Lacks(db, Anomalies, Status) then BackfilledFrom(db.anomalies, Target(db, steps).anomalies)
            else Target(db, steps).anomalies == db.anomalies
  {
    var status := StepOf(steps, Anomalies, Status);
    assert Lacks(db, Anomalies, Status) <==> Needed(db, status);
  }

  lemma TargetTables(db: Db, steps: seq<Step>)
    requires IsTenantList(steps)
    ensures Target(db, steps).columns.Keys == db.columns.Keys
    ensures forall table :: table in db.columns ==> Target(db, steps).columns[table] == db.columns[table] + TenantColumns(table)
  {
    forall table | table in db.columns
      ensures Target(db, steps).columns[table] == db.columns[table] + TenantColumns(table)
    {
      TargetColumns(db, steps, table, TenantColumns(table));
    }
  }

  /** The tables that a tenant startup leads to. */
  ghost predicate TenantPatched(db: Db, after: Db) {
    && after.columns.Keys == db.columns.Keys
    && (forall table :: table in db.columns ==> after.columns[table] == db.columns[table] + TenantColumns(table))
    && after.indexes == db.indexes + (if Lacks(db, Clients, EmailHash) then {(Clients, EmailHash)} else {})
                        + (if Lacks(db, Clients, OwnerUserId) then {(Clients, OwnerUserId)} else {})
    && (if Lacks(db, Anomalies, Status) then BackfilledFrom(db.anomalies, after.anomalies) else after.anomalies == db.anomalies)
  }

  lemma PatchedByList(db: Db, steps: seq<Step>, budgets: seq<nat>, budget: nat)
    requires IsTenantList(steps) && Run(Startups(db, steps, budgets), steps, budget).ok
    ensures TenantPatched(db, Run(Startups(db, steps, budgets), steps, budget).db)
  {
    InterruptedRunsConverge(db, steps, budgets, budget);
    TargetTables(db, steps);
    TargetIndexes(db, steps);
    TargetAnomalies(db, steps);
  }

  /**
   * A completed tenant startup, after whatever startups were cut short before it: every table that is there has
   * exactly the listed columns more, clients have the two indexes of columns that were missing, and the status
   * column, if it was, is backfilled.
   */
  lemma CompletedTenantStartup(db: Db, budgets: seq<nat>, budget: nat)
    requires Run(Startups(db, TENANT_STEPS, budgets), TENANT_STEPS, budget).ok
    ensures TenantPatched(db, Run(Startups(db, TENANT_STEPS, budgets), TENANT_STEPS, budget).db)
  {
    TenantListIs();
    PatchedByList(db, TENANT_STEPS, budgets, budget);
  }

  /** A completed startup of the master database adds exactly the listed columns, and nothing else. */
  lemma CompletedMasterStartup(db: Db, budgets: seq<nat>, budget: nat)
    requires Run(Startups(db, MASTER_STEPS, budgets), MASTER_STEPS, budget).ok
    ensures var after := Run(Startups(db, MASTER_STEPS, budgets), MASTER_STEPS, budget).db;
            && after.columns.Keys == db.columns.Keys
            && (forall table :: table in db.columns ==> after.columns[table] == db.columns[table] + MasterColumns(table))
            && after.indexes == db.indexes && after.anomalies == db.anomalies
  {
    MasterListIs();
    PatchedByMasterList(db, MASTER_STEPS, budgets, budget);
  }

  /** A list of plain steps for the master columns. */
  ghost predicate IsMasterList(steps: seq<Step>) {
    && DistinctSteps(steps)
    && (forall table :: StepsFor(steps, table, MasterColumns(table)))
    && (forall s :: s in steps ==> !s.indexed && !s.backfill)
  }

  lemma MasterListIs()
    ensures IsMasterList(MASTER_STEPS)
  {
    ListsAreDistinct();
    forall table ensures StepsFor(MASTER_STEPS, table, MasterColumns(table)) {
      MasterSteps(table);
    }
    forall s | s in MASTER_STEPS ensures !s.indexed && !s.backfill {
      PlainMasterSteps(s);
    }
  }

  lemma PatchedByMasterList(db: Db, steps: seq<Step>, budgets: seq<nat>, budget: nat)
    requires IsMasterList(steps) && Run(Startups(db, steps, budgets), steps, budget).ok
    ensures var after := Run(Startups(db, steps, budgets), steps, budget).db;
            && after.columns.Keys == db.columns.Keys
            && (forall table :: table in db.columns ==> after.columns[table] == db.columns[table] + MasterColumns(table))
            && after.indexes == db.indexes && after.anomalies == db.anomalies
  {
    InterruptedRunsConverge(db, steps, budgets, budget);
    forall table | table in db.columns
      ensures Target(db, steps).columns[table] == db.columns[table] + MasterColumns(table)
    {
      TargetColumns(db, steps, table, MasterColumns(table));
    }
    assert (set s | s in steps && s.indexed && Needed(db, s) :: (s.table, s.column)) == {};
  }

  /** Nothing of the tenant list is refused exactly if both foreign keys and the backfill find what they refer to. */
  lemma TenantAcceptedIff(db: Db)
    ensures AllAccepted(db, TENANT_STEPS)
       <==> (Lacks(db, BankStatements, RollupExpenseId) ==> Expenses in db.columns)
            && (Lacks(db, Clients, OwnerUserId) ==> Users in db.columns)
            && (Lacks(db, Anomalies, Status) ==> IsDismissed in db.columns[Anomalies])
  {
    var rollup := TenantStepFor(BankStatements, RollupExpenseId);
    var owner := TenantStepFor(Clients, OwnerUserId);
    var status := TenantStepFor(Anomalies, Status);
    SpecialTenantSteps(rollup);
    SpecialTenantSteps(owner);
    SpecialTenantSteps(status);
    assert AllAccepted(db, TENANT_STEPS) <==> forall s :: s in TENANT_STEPS && Needed(db, s) ==> Accepted(db, s);
    forall s | s in TENANT_STEPS && Needed(db, s) && !Accepted(db, s)
      ensures s.column == RollupExpenseId || s.column == OwnerUserId || s.column == Status
    {
      SpecialTenantSteps(s);
    }
    forall s | s in TENANT_STEPS
      ensures Accepted(db, s) <==> (s.table == BankStatements && s.column == RollupExpenseId ==> Expenses in db.columns)
                                   && (s.table == Clients && s.column == OwnerUserId ==> Users in db.columns)
                                   && (s.table == Anomalies && s.column == Status ==> Anomalies in db.columns && IsDismissed in db.columns[Anomalies])
    {
      SpecialTenantSteps(s);
    }
  }

  /** The master list is never refused. */
  lemma MasterIsAccepted(db: Db)
    ensures AllAccepted(db, MASTER_STEPS)
  {
    forall i | 0 <= i < |MASTER_STEPS| ensures Accepted(db, MASTER_STEPS[i]) {
      PlainMasterSteps(MASTER_STEPS[i]);
    }
  }

  // ----- the status column under concurrent use --------------------------------------------

  ghost predicate BackfillsStatusOnly(steps: seq<Step>) {
    forall i :: 0 <= i < |steps| ==> (steps[i].backfill <==> steps[i].table == Anomalies && steps[i].column == Status)
  }

  /** What the application does to the anomalies table. */
  datatype Update =
    | Insert(id: int, dismissed: Option<bool>, status: string)
    | Dismiss(id: int, dismissed: Option<bool>)
    | SetStatus(id: int, status: string)
    | Delete(id: int)

  /** Without the status column an update of the status is an SQL error and changes nothing. */
  function Apply(rows: map<int, Anomaly>, visible: bool, update: Update): map<int, Anomaly> {
    match update
    case Insert(id, dismissed, status) =>
      if id in rows then rows else rows[id := Anomaly(dismissed, if visible then Some(status) else None)]
    case Dismiss(id, dismissed) =>
      if id in rows then rows[id := rows[id].(dismissed := dismissed)] else rows
    case SetStatus(id, status) =>
      if id in rows && visible then rows[id := rows[id].(status := Some(status))] else rows
    case Delete(id) => rows - {id}
  }

  /** A startup in progress: what its inspector has seen of the tables it has looked at, and the next step. */
  datatype Startup = Startup(seen: map<Table, set<Column>>, next: nat)

  /** The committed tables and the startups in progress, of any number of processes. */
  datatype World = World(db: Db, startups: map<int, Startup>)

  /**
   * `Look` lets the inspector of one process look at the table of its next step, unless it remembers it from
   * before; `Commit` lets the process carry out that step, or find it superfluous, or fail in it.
   */
  datatype Event = Begin(process: int) | Look(process: int) | Commit(process: int) | Crash(process: int) | App(update: Update)

  predicate StatusVisible(db: Db) {
    Anomalies in db.columns && Status in db.columns[Anomalies]
  }

  function Next(w: World, steps: seq<Step>, event: Event): World {
    match event
    case Begin(p) => w.(startups := w.startups[p := Startup(map[], 0)])
    case Look(p) =>
      if p !in w.startups || w.startups[p].next >= |steps| then w
      else
        var me, table := w.startups[p], steps[w.startups[p].next].table;
        if table in me.seen || table !in w.db.columns then w
        else w.(startups := w.startups[p := me.(seen := me.seen[table := w.db.columns[table]])])
    case Crash(p) => w.(startups := w.startups - {p})
    case App(update) => w.(db := w.db.(anomalies := Apply(w.db.anomalies, StatusVisible(w.db), update)))
    case Commit(p) =>
      if p !in w.startups || w.startups[p].next >= |steps| then w
      else
        var me := w.startups[p];
        var step := steps[me.next];
        var advanced := w.(startups := w.startups[p := me.(next := me.next + 1)]);
        if step.table !in w.db.columns then advanced
        else if step.table !in me.seen then w  // it has to look first
        else if step.column in me.seen[step.table] then advanced
        else if Needed(w.db, step) && Accepted(w.db, step) then advanced.(db := ApplyStep(w.db, step))
        else w.(startups := w.startups - {p})  // the ALTER fails, the run ends
  }

  function Exec(w: World, steps: seq<Step>, events: seq<Event>): World {
    if events == [] then w
    else Next(Exec(w, steps, events[..|events| - 1]), steps, events[|events| - 1])
  }

  /** The application's own updates, as if no startup had ever taken place. */
  function Replay(rows: map<int, Anomaly>, visible: bool, events: seq<Event>): map<int, Anomaly> {
    if events == [] then rows
    else
      var earlier, last := Replay(rows, visible, events[..|events| - 1]), events[|events| - 1];
      if last.App? then Apply(earlier, visible, last.update) else earlier
  }

  lemma VisibleStatusIsKept(w: World, steps: seq<Step>, event: Event)
    requires BackfillsStatusOnly(steps) && StatusVisible(w.db)
    ensures StatusVisible(Next(w, steps, event).db)
    ensures Next(w, steps, event).db.anomalies
         == if event.App? then Apply(w.db.anomalies, true, event.update) else w.db.anomalies
  {
  }

  /** Once visible, the status column belongs to the application: no later startup writes to it. */
  lemma {:induction false} StatusIsNeverOverwritten(w: World, steps: seq<Step>, events: seq<Event>)
    requires BackfillsStatusOnly(steps) && StatusVisible(w.db)
    ensures StatusVisible(Exec(w, steps, events).db)
    ensures Exec(w, steps, events).db.anomalies == Replay(w.db.anomalies, true, events)
  {
    if events != [] {
      StatusIsNeverOverwritten(w, steps, events[..|events| - 1]);
      VisibleStatusIsKept(Exec(w, steps, events[..|events| - 1]), steps, events[|events| - 1]);
    }
  }

  /** `after` are the same rows with a status each: dismissed where the flag is set, open elsewhere. */
  ghost predicate BackfilledFrom(before: map<int, Anomaly>, after: map<int, Anomaly>) {
    && after.Keys == before.Keys
    && (forall id :: id in before ==> after[id].dismissed == before[id].dismissed)
    && (forall id :: id in before && before[id].dismissed == Some(true) ==> after[id].status == Some("dismissed"))
    && (forall id :: id in before && before[id].dismissed != Some(true) ==> after[id].status == Some("open"))
  }

  /** The column appeared at event `k`, with the backfill of the rows as the application had left them. */
  ghost predicate AppearsAt(w: World, steps: seq<Step>, events: seq<Event>, k: nat) {
    && k < |events| && events[k].Commit?
    && !StatusVisible(Exec(w, steps, events[..k]).db)
    && StatusVisible(Exec(w, steps, events[..k + 1]).db)
    && BackfilledFrom(Replay(w.db.anomalies, false, events[..k]), Exec(w, steps, events[..k + 1]).db.anomalies)
    && Exec(w, steps, events).db.anomalies == Replay(Exec(w, steps, events[..k + 1]).db.anomalies, true, events[k + 1..])
  }

  /** One event on tables without the column: it appears, backfilled, or only the application changes the rows. */
  lemma OneEventBefore(w: World, steps: seq<Step>, event: Event)
    requires BackfillsStatusOnly(steps) && !StatusVisible(w.db)
    ensures var after := Next(w, steps, event).db;
            if StatusVisible(after) then event.Commit? && BackfilledFrom(w.db.anomalies, after.anomalies)
            else after.anomalies == if event.App? then Apply(w.db.anomalies, false, event.update) else w.db.anomalies
  {
  }

  /**
   * Any interleaving of startups of any number of processes, crashes and application updates: the
   * anomalies table is what the application alone would have made of it, except that at one instant
   * the whole status column appears, already backfilled.
   */
  lemma {:induction false} StatusAppearsBackfilledOnce(w: World, steps: seq<Step>, events: seq<Event>)
    requires BackfillsStatusOnly(steps) && !StatusVisible(w.db)
    ensures var final := Exec(w, steps, events).db;
            if StatusVisible(final) then exists k :: AppearsAt(w, steps, events, k)
            else final.anomalies == Replay(w.db.anomalies, false, events)
  {
    hide AppearsAt, BackfilledFrom, BackfillsStatusOnly, StatusVisible, Next, Apply;
    if events != [] {
      var n := |events| - 1;
      var earlier := events[..n];
      StatusAppearsBackfilledOnce(w, steps, earlier);
      var before := Exec(w, steps, earlier);
      if StatusVisible(before.db) {
        var k :| AppearsAt(w, steps, earlier, k);
        AppearedStays(w, steps, events, k);
      } else {
        OneEventBefore(before, steps, events[n]);
        if StatusVisible(Exec(w, steps, events).db) {
          AppearsLast(w, steps, events);
        }
      }
    }
  }

  /** What an inspector has seen is still there, and behind every step that a startup has passed its column is there. */
  ghost predicate StartupSound(db: Db, steps: seq<Step>, startup: Startup) {
    && (forall t :: t in startup.seen ==> t in db.columns && startup.seen[t] <= db.columns[t])
    && (forall k :: 0 <= k < startup.next && k < |steps| && steps[k].table in db.columns ==> steps[k].column in db.columns[steps[k].table])
  }

  lemma StartupStaysSound(w: World, steps: seq<Step>, event: Event, p: int)
    requires forall q :: q in w.startups ==> StartupSound(w.db, steps, w.startups[q])
    requires p in Next(w, steps, event).startups
    ensures StartupSound(Next(w, steps, event).db, steps, Next(w, steps, event).startups[p])
  {
  }

  /**
   * In every interleaving that begins without startups: whatever step a startup has passed, the column is there.
   * One that gets to the end of the tenant list without a refusal leaves the status column behind, in particular.
   */
  lemma {:induction false} PassedStepsAreThere(w: World, steps: seq<Step>, events: seq<Event>, p: int)
    requires w.startups == map[] && p in Exec(w, steps, events).startups
    ensures StartupSound(Exec(w, steps, events).db, steps, Exec(w, steps, events).startups[p])
  {
    if events != [] {
      var n := |events| - 1;
      var before := Exec(w, steps, events[..n]);
      forall q | q in before.startups ensures StartupSound(before.db, steps, before.startups[q]) {
        PassedStepsAreThere(w, steps, events[..n], q);
      }
      StartupStaysSound(before, steps, events[n], p);
    }
  }

  /** A tenant startup that has got through its list leaves every listed column of every table behind, whoever added it. */
  lemma FinishedStartupLeavesAll(w: World, events: seq<Event>, p: int, table: Table)
    requires w.startups == map[] && p in Exec(w, TENANT_STEPS, events).startups
    requires Exec(w, TENANT_STEPS, events).startups[p].next >= |TENANT_STEPS|
    requires table in Exec(w, TENANT_STEPS, events).db.columns
    ensures TenantColumns(table) <= Exec(w, TENANT_STEPS, events).db.columns[table]
  {
    PassedStepsAreThere(w, TENANT_STEPS, events, p);
    forall c | c in TenantColumns(table) ensures c in Exec(w, TENANT_STEPS, events).db.columns[table] {
      var s := TenantStepFor(table, c);
      var k :| 0 <= k < |TENANT_STEPS| && TENANT_STEPS[k] == s;
    }
  }

  lemma AppearsLast(w: World, steps: seq<Step>, events: seq<Event>)
    requires BackfillsStatusOnly(steps) && events != []
    requires var before := Exec(w, steps, events[..|events| - 1]).db;
             !StatusVisible(before) && before.anomalies == Replay(w.db.anomalies, false, events[..|events| - 1])
    requires StatusVisible(Exec(w, steps, events).db)
    ensures AppearsAt(w, steps, events, |events| - 1)
  {
    var n := |events| - 1;
    OneEventBefore(Exec(w, steps, events[..n]), steps, events[n]);
    assert events[..n + 1] == events && events[n + 1..] == [];
  }

  lemma AppearedStays(w: World, steps: seq<Step>, events: seq<Event>, k: nat)
    requires BackfillsStatusOnly(steps) && events != []
    requires AppearsAt(w, steps, events[..|events| - 1], k)
    ensures AppearsAt(w, steps, events, k)
    ensures StatusVisible(Exec(w, steps, events).db)
  {
    var n := |events| - 1;
    var earlier := events[..n];
    assert earlier[..k] == events[..k] && earlier[..k + 1] == events[..k + 1];
    assert events[k + 1..][..n - k - 1] == earlier[k + 1..];
    ExecSplits(w, steps, earlier, k + 1);
    StatusIsNeverOverwritten(Exec(w, steps, events[..k + 1]), steps, earlier[k + 1..]);
    VisibleStatusIsKept(Exec(w, steps, earlier), steps, events[n]);
    assert events[k + 1..][|events[k + 1..]| - 1] == events[n];
  }

  lemma {:induction false} ExecSplits(w: World, steps: seq<Step>, events: seq<Event>, k: nat)
    requires k <= |events|
    ensures Exec(w, steps, events) == Exec(Exec(w, steps, events[..k]), steps, events[k..])
  {
    if k == |events| {
      assert events[..k] == events && events[k..] == [];
    } else {
      var n := |events| - 1;
      ExecSplits(w, steps, events[..n], k);
      assert events[..n][..k] == events[..k] && events[..n][k..] == events[k..][..n - k];
    }
  }
}
