/**
 * The schema bootstrap the web application runs at start-up (BeFit/Program.cs,
 * lines 20-148): `EnsureCreated`, then, for the session and entry tables that
 * exist, a scan of their columns and an `ALTER TABLE ... ADD COLUMN` for each
 * expected column that is missing. The database schema is a map from table name
 * to the table's column names in order.
 */
module SchemaBootstrap {
  import opened Wrappers
  import EfModel
  import WebModels

  type Schema = map<string, seq<string>>

  const SessionsTable: string := "TrainingSessions"
  const EntriesTable: string := "TrainingEntries"

  datatype SqlDefault = TextDefault(text: string) | RealDefault(r: real) | IntegerDefault(n: int)

  /**
   * The `ALTER TABLE <table> ADD COLUMN <column> <type> NOT NULL DEFAULT <default>`
   * statements the start-up code holds: the first five are the ones it issues;
   * `EntriesReps` is the one the corrected plan below issues instead of
   * `EntriesRepetitions`.
   */
  datatype Statement = SessionsUserId | EntriesWeightKg | EntriesUserId | EntriesSets | EntriesRepetitions | EntriesReps

  function Table(a: Statement): string {
    if a == SessionsUserId then SessionsTable else EntriesTable
  }

  function Column(a: Statement): string {
    match a
    case SessionsUserId => "UserId"
    case EntriesWeightKg => "WeightKg"
    case EntriesUserId => "UserId"
    case EntriesSets => "Sets"
    case EntriesRepetitions => "Repetitions"
    case EntriesReps => "Reps"
  }

  function SqlType(a: Statement): string {
    match a
    case SessionsUserId => "TEXT"
    case EntriesWeightKg => "REAL"
    case EntriesUserId => "TEXT"
    case _ => "INTEGER"
  }

  function Default(a: Statement): SqlDefault {
    match a
    case SessionsUserId => TextDefault("")
    case EntriesWeightKg => RealDefault(0.0)
    case EntriesUserId => TextDefault("")
    case _ => IntegerDefault(1)
  }

  /** The two pairs of column names of equal length differ. */
  lemma NamesDiffer()
    ensures "UserId" != "Weight" && "Sets" != "Reps"
  {
    assert "UserId"[0] != "Weight"[0];
    assert "Sets"[0] != "Reps"[0];
  }

  /** No two statements add the same column to the same table, and none adds `Weight`. */
  lemma StatementsDistinctColumns()
    ensures forall a: Statement, b: Statement :: Table(a) == Table(b) && Column(a) == Column(b) ==> a == b
    ensures forall a: Statement :: Column(a) != "Weight"
  {
    NamesDiffer();
  }

  /** Every default a statement supplies passes the declared checks of the web entry and session. */
  lemma DefaultsAreValid()
    ensures WebModels.WeightDeclaredValid(Default(EntriesWeightKg).r)
    ensures WebModels.SetsDeclaredValid(Default(EntriesSets).n)
    ensures WebModels.RepetitionsDeclaredValid(Default(EntriesRepetitions).n)
    ensures Default(SessionsUserId).text == WebModels.NewTrainingSession().UserId
    ensures Default(EntriesUserId).text == WebModels.NewTrainingEntry().UserId
  {
  }

  /** The tables `EnsureCreated` creates in an empty database, with the columns the EF model maps. */
  function EfSchema(): (s: Schema)
    ensures forall e: EfModel.Entity :: EfModel.TableName(e) in s && s[EfModel.TableName(e)] == EfModel.Columns(e)
    ensures SessionsTable in s && EntriesTable in s
  {
    map[EfModel.TableName(EfModel.ExerciseTypeEntity) := EfModel.Columns(EfModel.ExerciseTypeEntity),
        EfModel.TableName(EfModel.TrainingSessionEntity) := EfModel.Columns(EfModel.TrainingSessionEntity),
        EfModel.TableName(EfModel.TrainingEntryEntity) := EfModel.Columns(EfModel.TrainingEntryEntity),
        EfModel.TableName(EfModel.UserEntity) := EfModel.Columns(EfModel.UserEntity)]
  }

  // ---- The plan: which statements a run issues ----

  /** Every statement of `p` is about a table of `s`. */
  predicate Targets(s: Schema, p: seq<Statement>) {
    forall a :: a in p ==> Table(a) in s
  }

  /**
   * Whether the start-up code issues statement `a` on schema `s`: its table
   * exists without its column, and for `WeightKg` also without `Weight`.
   * The code holds no `Reps` statement.
   */
  predicate Due(s: Schema, a: Statement) {
    a != EntriesReps && Table(a) in s && Column(a) !in s[Table(a)]
    && (a == EntriesWeightKg ==> "Weight" !in s[Table(a)])
  }

  /** The conditions of the five statements, one by one. */
  lemma DueIff(s: Schema)
    ensures Due(s, SessionsUserId) <==> SessionsTable in s && "UserId" !in s[SessionsTable]
    ensures Due(s, EntriesWeightKg) <==>
      EntriesTable in s && "WeightKg" !in s[EntriesTable] && "Weight" !in s[EntriesTable]
    ensures Due(s, EntriesUserId) <==> EntriesTable in s && "UserId" !in s[EntriesTable]
    ensures Due(s, EntriesSets) <==> EntriesTable in s && "Sets" !in s[EntriesTable]
    ensures Due(s, EntriesRepetitions) <==> EntriesTable in s && "Repetitions" !in s[EntriesTable]
    ensures !Due(s, EntriesReps)
  {
  }

  /** Statement `a` when `due` holds, nothing otherwise. */
  function IssuedIf(due: bool, a: Statement): seq<Statement> {
    if due then [a] else []
  }

  /** No element of `xs` occurs twice. */
  predicate Distinct<T(==)>(xs: seq<T>) {
    forall i, j :: 0 <= i < j < |xs| ==> xs[i] != xs[j]
  }

  lemma DistinctAppend<T>(xs: seq<T>, ys: seq<T>)
    requires Distinct(xs) && Distinct(ys)
    requires forall x :: x in xs ==> x !in ys
    ensures Distinct(xs + ys)
  {
    forall i, j | 0 <= i < j < |xs + ys| ensures (xs + ys)[i] != (xs + ys)[j] {
      if i < |xs| && |xs| <= j {
        assert (xs + ys)[i] in xs && (xs + ys)[j] == ys[j - |xs|];
      }
    }
  }

  /** Five optional statements, all different, make a plan without repeats. */
  lemma FiveDistinct(a1: seq<Statement>, a2: seq<Statement>, a3: seq<Statement>, a4: seq<Statement>, a5: seq<Statement>)
    requires |a1| <= 1 && |a2| <= 1 && |a3| <= 1 && |a4| <= 1 && |a5| <= 1
    requires forall x :: x in a1 ==> x !in a2 && x !in a3 && x !in a4 && x !in a5
    requires forall x :: x in a2 ==> x !in a3 && x !in a4 && x !in a5
    requires forall x :: x in a3 ==> x !in a4 && x !in a5
    requires forall x :: x in a4 ==> x !in a5
    ensures Distinct(a1 + (a2 + a3 + a4 + a5))
  {
    DistinctAppend(a2, a3);
    DistinctAppend(a2 + a3, a4);
    DistinctAppend(a2 + a3 + a4, a5);
    DistinctAppend(a1, a2 + a3 + a4 + a5);
  }

  /** The head of a run: the session statement, when due. */
  function SessionAdds(s: Schema): (r: seq<Statement>)
    ensures SessionsTable !in s ==> r == []
  {
    IssuedIf(Due(s, SessionsUserId), SessionsUserId)
  }

  /** The rest of a run: the four entry statements, in the code's order, each when due. */
  function EntryAdds(s: Schema): (r: seq<Statement>)
    ensures EntriesTable !in s ==> r == []
  {
    IssuedIf(Due(s, EntriesWeightKg), EntriesWeightKg)
    + IssuedIf(Due(s, EntriesUserId), EntriesUserId)
    + IssuedIf(Due(s, EntriesSets), EntriesSets)
    + IssuedIf(Due(s, EntriesRepetitions), EntriesRepetitions)
  }

  /**
   * The statements a run issues on schema `s`: the five statements of the
   * start-up code, in its order, each when it is due.
   */
  function PlannedAdds(s: Schema): (plan: seq<Statement>)
    ensures forall a :: a in plan <==> Due(s, a)
    ensures Targets(s, plan)
    ensures Distinct(plan)
    ensures (forall a :: !Due(s, a)) ==> plan == []
  {
    FiveDistinct(SessionAdds(s), IssuedIf(Due(s, EntriesWeightKg), EntriesWeightKg),
                 IssuedIf(Due(s, EntriesUserId), EntriesUserId), IssuedIf(Due(s, EntriesSets), EntriesSets),
                 IssuedIf(Due(s, EntriesRepetitions), EntriesRepetitions));
    SessionAdds(s) + EntryAdds(s)
  }

  lemma TablesDiffer()
    ensures SessionsTable != EntriesTable
  {
  }

  /** What the scan of the session table finds decides the head of the plan. */
  lemma SessionScan(s: Schema, hasUserId: bool)
    requires SessionsTable in s && (hasUserId <==> "UserId" in s[SessionsTable])
    ensures SessionAdds(s) == IssuedIf(!hasUserId, SessionsUserId)
  {
  }

  /** What the scan of the entry table finds decides the rest of the plan. */
  lemma EntryScan(s: Schema, hasUserId: bool, hasWeightKg: bool, hasWeight: bool, hasSets: bool, hasRepetitions: bool)
    requires EntriesTable in s
    requires hasUserId <==> "UserId" in s[EntriesTable]
    requires hasWeightKg <==> "WeightKg" in s[EntriesTable]
    requires hasWeight <==> "Weight" in s[EntriesTable]
    requires hasSets <==> "Sets" in s[EntriesTable]
    requires hasRepetitions <==> "Repetitions" in s[EntriesTable]
    ensures EntryAdds(s) == IssuedIf(!hasWeightKg && !hasWeight, EntriesWeightKg) + (IssuedIf(!hasUserId, EntriesUserId)
                            + (IssuedIf(!hasSets, EntriesSets) + IssuedIf(!hasRepetitions, EntriesRepetitions)))
  {
    DueIff(s);
    var w, u := IssuedIf(!hasWeightKg && !hasWeight, EntriesWeightKg), IssuedIf(!hasUserId, EntriesUserId);
    var st, rp := IssuedIf(!hasSets, EntriesSets), IssuedIf(!hasRepetitions, EntriesRepetitions);
    assert EntryAdds(s) == w + u + st + rp;
    AppendAssoc(w + u, st, rp);
    AppendAssoc(w, u, st + rp);
  }

  // ---- Executing statements ----

  function AddCol(s: Schema, a: Statement): Schema
    requires Table(a) in s
  {
    s[Table(a) := s[Table(a)] + [Column(a)]]
  }

  /** The columns the statements of `p` add to table `t`, in order. */
  function AddedTo(p: seq<Statement>, t: string): (cs: seq<string>)
    ensures forall c :: c in cs <==> exists a :: a in p && Table(a) == t && Column(a) == c
  {
    if p == [] then []
    else
      var init := p[..|p| - 1];
      var a := p[|p| - 1];
      assert p == init + [a];
      AddedTo(init, t) + (if Table(a) == t then [Column(a)] else [])
  }

  /**
   * The schema after the statements of `p` run in order: the same tables, each
   * keeping its columns in place, followed by the columns added to it.
   */
  function Apply(s: Schema, p: seq<Statement>): (r: Schema)
    requires Targets(s, p)
    ensures r.Keys == s.Keys
    ensures forall t :: t in s ==> r[t] == s[t] + AddedTo(p, t)
  {
    if p == [] then s
    else
      var init := p[..|p| - 1];
      var a := p[|p| - 1];
      assert p == init + [a];
      var prev := Apply(s, init);
      var r := AddCol(prev, a);
      assert forall t :: t in s ==> r[t] == prev[t] + (if Table(a) == t then [Column(a)] else []);
      assert forall t :: t in s ==> r[t] == s[t] + (AddedTo(init, t) + (if Table(a) == t then [Column(a)] else [])) by {
        forall t | t in s {
          AppendAssoc(s[t], AddedTo(init, t), if Table(a) == t then [Column(a)] else []);
        }
      }
      r
  }

  lemma AppendAssoc<T>(x: seq<T>, y: seq<T>, z: seq<T>)
    ensures x + y + z == x + (y + z)
  {
  }

  /** Running one more statement after a prefix is running the longer prefix. */
  lemma ApplySnoc(s: Schema, p: seq<Statement>, a: Statement)
    requires Targets(s, p + [a])
    ensures Targets(s, p) && Apply(s, p + [a]) == AddCol(Apply(s, p), a)
  {
    assert (p + [a])[..|p|] == p;
  }

  /**
   * A run changes the presence of the column a statement adds only by that
   * statement, and never that of `Weight`.
   */
  lemma ColumnAfter(s: Schema, p: seq<Statement>, a: Statement)
    requires Targets(s, p) && Table(a) in s
    ensures Column(a) in Apply(s, p)[Table(a)] <==> Column(a) in s[Table(a)] || a in p
    ensures "Weight" in Apply(s, p)[Table(a)] <==> "Weight" in s[Table(a)]
  {
    StatementsDistinctColumns();
  }

  /** In a list without repeats, an element lies after position `k` exactly when it does not lie before. */
  lemma DistinctSplit<T>(xs: seq<T>, k: nat, x: T)
    requires Distinct(xs) && k <= |xs|
    ensures x in xs[k..] <==> x in xs && x !in xs[..k]
  {
    assert xs == xs[..k] + xs[k..];
  }

  /** After the first `k` planned statements, statement `a` is due exactly when it is among the rest. */
  lemma ResumeOne(s: Schema, k: nat, a: Statement)
    requires k <= |PlannedAdds(s)|
    ensures a in PlannedAdds(Apply(s, PlannedAdds(s)[..k])) <==> a in PlannedAdds(s)[k..]
  {
    var plan := PlannedAdds(s);
    var done := plan[..k];
    assert Targets(s, done);
    var s' := Apply(s, done);
    DistinctSplit(plan, k, a);
    if Table(a) in s {
      ColumnAfter(s, done, a);
    }
    assert a in PlannedAdds(s') <==> Due(s', a);
    assert Due(s', a) <==> Due(s, a) && a !in done;
  }

  /**
   * A run that stopped after the first `k` statements can be resumed: the next
   * run issues exactly the statements the first one did not.
   */
  lemma ResumeAfterPartialRun(s: Schema, k: nat)
    requires k <= |PlannedAdds(s)|
    ensures forall a :: a in PlannedAdds(Apply(s, PlannedAdds(s)[..k])) <==> a in PlannedAdds(s)[k..]
  {
    forall a: Statement
      ensures a in PlannedAdds(Apply(s, PlannedAdds(s)[..k])) <==> a in PlannedAdds(s)[k..]
    {
      ResumeOne(s, k, a);
    }
  }

  /**
   * After a complete run every table a statement is about has that
   * statement's column, except that a `Weight` column stands in for
   * `WeightKg`.
   */
  lemma RunCovers(s: Schema, a: Statement)
    requires a != EntriesReps && Table(a) in s
    ensures var r := Apply(s, PlannedAdds(s));
      Column(a) in r[Table(a)] || (a == EntriesWeightKg && "Weight" in r[Table(a)])
  {
    ColumnAfter(s, PlannedAdds(s), a);
  }

  /** A second run on the schema a complete run leaves issues no statement. */
  lemma BootstrapIdempotent(s: Schema)
    ensures PlannedAdds(Apply(s, PlannedAdds(s))) == []
  {
    var r := Apply(s, PlannedAdds(s));
    forall a ensures !Due(r, a) {
      if a != EntriesReps && Table(a) in s {
        RunCovers(s, a);
      }
    }
  }

  // ---- The database and the start-up run ----

  /** Where a step of the run stands in the plan: what is done before it and after it. */
  lemma StepPlan(cond: bool, a: Statement, s0: Schema, plan: seq<Statement>, done: seq<Statement>, rest: seq<Statement>)
    requires plan == done + IssuedIf(cond, a) + rest
    requires Targets(s0, plan)
    ensures Targets(s0, done) && plan[..|done|] == done
    ensures !cond ==> plan == done + rest
    ensures cond ==> |done| < |plan| && Table(a) in Apply(s0, done) && plan == (done + [a]) + rest
    ensures cond ==> Targets(s0, done + [a]) && Apply(s0, done + [a]) == AddCol(Apply(s0, done), a)
  {
    assert plan[..|done|] == done;
    if cond {
      assert a in plan;
      assert plan == (done + [a]) + rest;
      assert (done + [a]) <= plan;
      ApplySnoc(s0, done, a);
    } else {
      assert plan == done + rest;
    }
  }

  class Database {
    var schema: Schema

    constructor (initial: Schema)
      ensures schema == initial
    {
      schema := initial;
    }

    /** `EnsureCreated`: an empty database gets the whole EF schema; any other is left alone. */
    method EnsureCreated()
      modifies this
      ensures old(schema) == map[] ==> schema == EfSchema()
      ensures old(schema) != map[] ==> schema == old(schema)
    {
      if schema == map[] {
        schema := EfSchema();
      }
    }

    /** The scan of `PRAGMA table_info(TrainingSessions)`, stopping at the first `UserId`. */
    method ScanSessionColumns() returns (hasUserId: bool)
      requires SessionsTable in schema
      ensures hasUserId <==> "UserId" in schema[SessionsTable]
    {
      var cols := schema[SessionsTable];
      hasUserId := false;
      var i := 0;
      while i < |cols|
        invariant 0 <= i <= |cols|
        invariant !hasUserId && "UserId" !in cols[..i]
      {
        if cols[i] == "UserId" {
          hasUserId := true;
          break;
        }
        assert cols[..i + 1] == cols[..i] + [cols[i]];
        i := i + 1;
      }
      assert hasUserId || cols[..i] == cols;
    }

    /** The scan of `PRAGMA table_info(TrainingEntries)`, recording which of five column names occur. */
    method ScanEntryColumns() returns (hasUserId: bool, hasWeightKg: bool, hasWeight: bool, hasSets: bool, hasRepetitions: bool)
      requires EntriesTable in schema
      ensures hasUserId <==> "UserId" in schema[EntriesTable]
      ensures hasWeightKg <==> "WeightKg" in schema[EntriesTable]
      ensures hasWeight <==> "Weight" in schema[EntriesTable]
      ensures hasSets <==> "Sets" in schema[EntriesTable]
      ensures hasRepetitions <==> "Repetitions" in schema[EntriesTable]
    {
      var cols := schema[EntriesTable];
      hasUserId, hasWeightKg, hasWeight, hasSets, hasRepetitions := false, false, false, false, false;
      var i := 0;
      while i < |cols|
        invariant 0 <= i <= |cols|
        invariant hasUserId <==> "UserId" in cols[..i]
        invariant hasWeightKg <==> "WeightKg" in cols[..i]
        invariant hasWeight <==> "Weight" in cols[..i]
        invariant hasSets <==> "Sets" in cols[..i]
        invariant hasRepetitions <==> "Repetitions" in cols[..i]
      {
        var name := cols[i];
        if name == "UserId" {
          hasUserId := true;
        } else if name == "WeightKg" {
          hasWeightKg := true;
        } else if name == "Weight" {
          hasWeight := true;
        } else if name == "Sets" {
          hasSets := true;
        } else if name == "Repetitions" {
          hasRepetitions := true;
        }
        assert cols[..i + 1] == cols[..i] + [name];
        i := i + 1;
      }
      assert cols[..i] == cols;
    }

    /** `ExecuteNonQuery` of one statement, the `n`-th of the run; the statement numbered `failAt` throws. */
    method Alter(a: Statement, n: nat, failAt: Option<nat>) returns (failed: bool)
      requires Table(a) in schema
      modifies this
      ensures failed <==> failAt.Some? && failAt.value == n
      ensures failed ==> schema == old(schema)
      ensures !failed ==> schema == AddCol(old(schema), a)
    {
      failed := failAt.Some? && failAt.value == n;
      if !failed {
        schema := AddCol(schema, a);
      }
    }

    /**
     * A statement of the plan issued when `cond` holds, after the statements
     * `done` before it; `rest` follows it.
     */
    method Step(cond: bool, a: Statement, n: nat, failAt: Option<nat>, ghost s0: Schema, ghost plan: seq<Statement>,
                ghost done: seq<Statement>, ghost rest: seq<Statement>) returns (failed: bool, n': nat, ghost done': seq<Statement>)
      requires plan == done + IssuedIf(cond, a) + rest && n == |done|
      requires Targets(s0, plan)
      requires schema == Apply(s0, done)
      modifies this
      ensures failed <==> cond && failAt.Some? && failAt.value == n
      ensures n' == if cond then n + 1 else n
      ensures failed ==> n < |plan| && schema == Apply(s0, plan[..n])
      ensures !failed ==> done' == done + IssuedIf(cond, a) && plan == done' + rest && n' == |done'|
      ensures !failed ==> schema == Apply(s0, done')
      ensures !failed ==> n <= n' && (failAt.Some? ==> !(n <= failAt.value < n'))
    {
      StepPlan(cond, a, s0, plan, done, rest);
      n', done', failed := n, done, false;
      if cond {
        failed := Alter(a, n, failAt);
        n', done' := n + 1, done + [a];
      }
    }

    /** The session part of the run: issues `SessionAdds(s0)`, the head of the plan. */
    method BootstrapSessions(failAt: Option<nat>, ghost s0: Schema) returns (logged: bool, n: nat)
      requires schema == s0
      modifies this
      ensures n == |SessionAdds(s0)|
      ensures logged <==> failAt.Some? && failAt.value == 0 && n == 1
      ensures logged ==> schema == Apply(s0, PlannedAdds(s0)[..0])
      ensures !logged ==> schema == Apply(s0, SessionAdds(s0))
    {
      n := 0;
      logged := false;
      if SessionsTable in schema {
        var hasUserId := ScanSessionColumns();
        SessionScan(s0, hasUserId);
        ghost var done;
        assert PlannedAdds(s0) == [] + IssuedIf(!hasUserId, SessionsUserId) + EntryAdds(s0);
        logged, n, done := Step(!hasUserId, SessionsUserId, 0, failAt, s0, PlannedAdds(s0), [], EntryAdds(s0));
      }
    }

    /** The entry part of the run, after the session part: issues the rest of the plan in order. */
    method BootstrapEntries(failAt: Option<nat>, n0: nat, ghost s0: Schema) returns (logged: bool)
      requires n0 == |SessionAdds(s0)| && schema == Apply(s0, SessionAdds(s0))
      modifies this
      ensures var plan := PlannedAdds(s0);
        (logged <==> failAt.Some? && n0 <= failAt.value < |plan|)
        && (logged ==> schema == Apply(s0, plan[..failAt.value]))
        && (!logged ==> schema == Apply(s0, plan))
    {
      ghost var plan := PlannedAdds(s0);
      ghost var done := SessionAdds(s0);
      logged := false;
      if EntriesTable !in schema {
        assert plan == done + [];
        return;
      }
      assert schema[EntriesTable] == s0[EntriesTable] by {
        TablesDiffer();
        assert AddedTo(done, EntriesTable) == [];
      }
      var hasUserId, hasWeightKg, hasWeight, hasSets, hasRepetitions := ScanEntryColumns();
      EntryScan(s0, hasUserId, hasWeightKg, hasWeight, hasSets, hasRepetitions);
      logged := LastFourSteps(!hasWeightKg && !hasWeight, EntriesWeightKg, !hasUserId, EntriesUserId,
                              !hasSets, EntriesSets, !hasRepetitions, EntriesRepetitions, failAt, n0, s0, plan, done);
    }

    /**
     * The last four statements of the plan, each issued when its condition
     * holds; the first one that throws ends the run.
     */
    method LastFourSteps(c1: bool, a1: Statement, c2: bool, a2: Statement, c3: bool, a3: Statement, c4: bool, a4: Statement,
                         failAt: Option<nat>, n0: nat, ghost s0: Schema, ghost plan: seq<Statement>, ghost done: seq<Statement>)
      returns (logged: bool)
      requires plan == done + (IssuedIf(c1, a1) + (IssuedIf(c2, a2) + (IssuedIf(c3, a3) + IssuedIf(c4, a4))))
      requires n0 == |done| && Targets(s0, plan) && schema == Apply(s0, done)
      modifies this
      ensures logged <==> failAt.Some? && n0 <= failAt.value < |plan|
      ensures logged ==> schema == Apply(s0, plan[..failAt.value])
      ensures !logged ==> schema == Apply(s0, plan)
    {
      assert IssuedIf(c4, a4) + [] == IssuedIf(c4, a4);
      var n;
      ghost var d;
      logged, n, d := FourSteps(c1, a1, c2, a2, c3, a3, c4, a4, failAt, n0, s0, plan, done, []);
      if !logged {
        assert d + [] == d;
      }
    }

    /** Two consecutive statements of the plan, each issued when its condition holds; `rest` follows them. */
    method TwoSteps(c1: bool, a1: Statement, c2: bool, a2: Statement, failAt: Option<nat>, n: nat,
                    ghost s0: Schema, ghost plan: seq<Statement>, ghost done: seq<Statement>, ghost rest: seq<Statement>)
      returns (logged: bool, n': nat, ghost done': seq<Statement>)
      requires plan == done + (IssuedIf(c1, a1) + (IssuedIf(c2, a2) + rest))
      requires n == |done| && Targets(s0, plan) && schema == Apply(s0, done)
      modifies this
      ensures n <= n'
      ensures logged <==> failAt.Some? && n <= failAt.value < n'
      ensures logged ==> failAt.value < |plan| && schema == Apply(s0, plan[..failAt.value])
      ensures !logged ==> plan == done' + rest && n' == |done'| && schema == Apply(s0, done')
    {
      AppendAssoc(done, IssuedIf(c1, a1), IssuedIf(c2, a2) + rest);
      logged, n', done' := Step(c1, a1, n, failAt, s0, plan, done, IssuedIf(c2, a2) + rest);
      if logged {
        return;
      }
      ghost var n1 := n';
      AppendAssoc(done', IssuedIf(c2, a2), rest);
      logged, n', done' := Step(c2, a2, n', failAt, s0, plan, done', rest);
      assert failAt.Some? && n <= failAt.value < n' ==> n1 <= failAt.value;
    }

    /**
     * Four consecutive statements of the plan, each issued when its condition
     * holds; `rest` follows them. The entry part of the start-up run issues
     * its four `ALTER TABLE TrainingEntries` statements this way.
     */
    method FourSteps(c1: bool, a1: Statement, c2: bool, a2: Statement, c3: bool, a3: Statement, c4: bool, a4: Statement,
                     failAt: Option<nat>, n: nat, ghost s0: Schema, ghost plan: seq<Statement>, ghost done: seq<Statement>,
                     ghost rest: seq<Statement>)
      returns (logged: bool, n': nat, ghost done': seq<Statement>)
      requires plan == done + (IssuedIf(c1, a1) + (IssuedIf(c2, a2) + (IssuedIf(c3, a3) + (IssuedIf(c4, a4) + rest))))
      requires n == |done| && Targets(s0, plan) && schema == Apply(s0, done)
      modifies this
      ensures n <= n'
      ensures logged <==> failAt.Some? && n <= failAt.value < n'
      ensures logged ==> failAt.value < |plan| && schema == Apply(s0, plan[..failAt.value])
      ensures !logged ==> plan == done' + rest && n' == |done'| && schema == Apply(s0, done')
    {
      AppendAssoc(done, IssuedIf(c1, a1) + IssuedIf(c2, a2), IssuedIf(c3, a3) + (IssuedIf(c4, a4) + rest));
      logged, n', done' := TwoSteps(c1, a1, c2, a2, failAt, n, s0, plan, done, IssuedIf(c3, a3) + (IssuedIf(c4, a4) + rest));
      if logged {
        return;
      }
      ghost var n1 := n';
      logged, n', done' := TwoSteps(c3, a3, c4, a4, failAt, n', s0, plan, done', rest);
      assert failAt.Some? && n <= failAt.value < n' ==> n1 <= failAt.value;
    }

    /**
     * The start-up run: `EnsureCreated`, then the planned statements in order.
     * When the statement numbered `failAt` throws, the exception is logged and
     * start-up goes on with the statements before it applied and the rest not
     * issued.
     */
    method Bootstrap(failAt: Option<nat>) returns (logged: bool)
      modifies this
      ensures var s0 := if old(schema) == map[] then EfSchema() else old(schema);
        var plan := PlannedAdds(s0);
        (logged <==> failAt.Some? && failAt.value < |plan|)
        && (!logged ==> schema == Apply(s0, plan))
        && (logged ==> schema == Apply(s0, plan[..failAt.value]))
    {
      EnsureCreated();
      ghost var s0 := schema;
      var n;
      logged, n := BootstrapSessions(failAt, s0);
      if logged {
        return;
      }
      logged := BootstrapEntries(failAt, n, s0);
    }
  }

  // ---- The column the EF model reads and the bootstrap misses ----

  /** The session and entry columns of a database `EnsureCreated` makes. */
  lemma EfSchemaColumns()
    ensures EfSchema()[SessionsTable] == ["Id", "UserId", "StartedAt", "EndedAt"]
    ensures EfSchema()[EntriesTable] == ["Id", "TrainingSessionId", "ExerciseTypeId", "UserId", "WeightKg", "Sets", "Reps"]
  {
    assert EfModel.Columns(EfModel.TrainingEntryEntity) ==
      ["Id", "TrainingSessionId", "ExerciseTypeId", "UserId", "WeightKg", "Sets", "Reps"];
    assert EfModel.Columns(EfModel.TrainingSessionEntity) == ["Id", "UserId", "StartedAt", "EndedAt"];
  }

  /** Which of the columns the bootstrap looks for a freshly created database has. */
  lemma EfSchemaHas()
    ensures "UserId" in EfSchema()[SessionsTable]
    ensures var cols := EfSchema()[EntriesTable];
      "UserId" in cols && "WeightKg" in cols && "Sets" in cols && "Reps" in cols
      && "Repetitions" !in cols && "Weight" !in cols
  {
    EfSchemaColumns();
    var cols := EfSchema()[EntriesTable];
    assert cols[3] == "UserId" && cols[4] == "WeightKg" && cols[5] == "Sets" && cols[6] == "Reps";
    assert EfSchema()[SessionsTable][1] == "UserId";
  }

  /**
   * On a database `EnsureCreated` has just made, the bootstrap adds a
   * `Repetitions` column, which the EF model never reads: repetitions live in
   * `Reps`.
   */
  lemma FreshDatabaseGainsUnusedRepetitions()
    ensures PlannedAdds(EfSchema()) == [EntriesRepetitions]
    ensures EfModel.ColumnName(EfModel.TrainingEntryEntity, "Repetitions") != Column(EntriesRepetitions)
  {
    var s := EfSchema();
    EfSchemaHas();
    DueIff(s);
    assert SessionAdds(s) == [];
    assert EntryAdds(s) == [EntriesRepetitions];
  }

  /**
   * The bootstrap never adds `Reps`, the column the EF model reads
   * repetitions from: after a run the entry table has it exactly when it had
   * it before.
   */
  lemma RepsNeverAdded(s: Schema)
    requires EntriesTable in s
    ensures "Reps" in Apply(s, PlannedAdds(s))[EntriesTable] <==> "Reps" in s[EntriesTable]
    ensures EfModel.ColumnName(EfModel.TrainingEntryEntity, "Repetitions") == "Reps"
  {
    ColumnAfter(s, PlannedAdds(s), EntriesReps);
  }

  /**
   * Where the entry table keeps its weight in a `Weight` column, the
   * bootstrap adds no `WeightKg`, the column the EF model reads weights from.
   */
  lemma WeightKgNotAddedBesideWeight(s: Schema)
    requires EntriesTable in s && "Weight" in s[EntriesTable] && "WeightKg" !in s[EntriesTable]
    ensures "WeightKg" !in Apply(s, PlannedAdds(s))[EntriesTable]
    ensures EfModel.ColumnName(EfModel.TrainingEntryEntity, "Weight") == "WeightKg"
  {
    DueIff(s);
    ColumnAfter(s, PlannedAdds(s), EntriesWeightKg);
  }

  /** An entry table from before `Sets`, `Reps` and `UserId` were added to the model. */
  function LegacySchema(): (s: Schema)
    ensures EntriesTable in s && "Reps" !in s[EntriesTable]
  {
    map[SessionsTable := ["Id", "UserId", "StartedAt", "EndedAt"],
        EntriesTable := ["Id", "TrainingSessionId", "ExerciseTypeId", "WeightKg"]]
  }

  /** A run on the legacy schema leaves its entry table without `Reps`. */
  lemma LegacyTableStillLacksReps()
    ensures "Reps" !in Apply(LegacySchema(), PlannedAdds(LegacySchema()))[EntriesTable]
  {
    RepsNeverAdded(LegacySchema());
  }

  // ---- The intended plan ----

  /**
   * The intended condition: a statement is due when its table exists without
   * its column. The intended plan adds `Reps` where the code adds
   * `Repetitions`, and adds `WeightKg` whether or not a `Weight` column exists.
   */
  predicate DueCorrected(s: Schema, a: Statement) {
    a != EntriesRepetitions && Table(a) in s && Column(a) !in s[Table(a)]
  }

  function PlannedAddsCorrected(s: Schema): (plan: seq<Statement>)
    ensures forall a :: a in plan <==> DueCorrected(s, a)
    ensures Targets(s, plan)
    ensures Distinct(plan)
    ensures (forall a :: !DueCorrected(s, a)) ==> plan == []
  {
    var a1 := IssuedIf(DueCorrected(s, SessionsUserId), SessionsUserId);
    var a2 := IssuedIf(DueCorrected(s, EntriesWeightKg), EntriesWeightKg);
    var a3 := IssuedIf(DueCorrected(s, EntriesUserId), EntriesUserId);
    var a4 := IssuedIf(DueCorrected(s, EntriesSets), EntriesSets);
    var a5 := IssuedIf(DueCorrected(s, EntriesReps), EntriesReps);
    FiveDistinct(a1, a2, a3, a4, a5);
    a1 + (a2 + a3 + a4 + a5)
  }

  /**
   * After the intended plan the session table has `UserId`, and the entry
   * table has the columns the EF model maps `UserId`, `Weight`, `Sets` and
   * `Repetitions` to.
   */
  lemma CorrectedPlanCoversModel(s: Schema)
    ensures var r := Apply(s, PlannedAddsCorrected(s));
      (SessionsTable in s ==> "UserId" in r[SessionsTable])
      && (EntriesTable in s ==>
            "UserId" in r[EntriesTable] && "WeightKg" in r[EntriesTable]
            && "Sets" in r[EntriesTable] && "Reps" in r[EntriesTable])
    ensures EfModel.ColumnName(EfModel.TrainingEntryEntity, "Weight") == "WeightKg"
    ensures EfModel.ColumnName(EfModel.TrainingEntryEntity, "Repetitions") == "Reps"
  {
    var plan := PlannedAddsCorrected(s);
    if SessionsTable in s {
      ColumnAfter(s, plan, SessionsUserId);
    }
    if EntriesTable in s {
      ColumnAfter(s, plan, EntriesUserId);
      ColumnAfter(s, plan, EntriesWeightKg);
      ColumnAfter(s, plan, EntriesSets);
      ColumnAfter(s, plan, EntriesReps);
    }
  }

  /** The intended plan issues nothing on a freshly created database. */
  lemma CorrectedPlanOnFreshDatabase()
    ensures PlannedAddsCorrected(EfSchema()) == []
  {
    EfSchemaHas();
  }

  /** The intended plan issues nothing on the schema it leaves. */
  lemma CorrectedPlanIdempotent(s: Schema)
    ensures PlannedAddsCorrected(Apply(s, PlannedAddsCorrected(s))) == []
  {
    var r := Apply(s, PlannedAddsCorrected(s));
    forall a ensures !DueCorrected(r, a) {
      if a != EntriesRepetitions && Table(a) in s {
        ColumnAfter(s, PlannedAddsCorrected(s), a);
      }
    }
  }
}
