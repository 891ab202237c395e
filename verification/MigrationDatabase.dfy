/**
 * The database the runner works on, changed in place: the helpers of
 * `migrations.js` and the loop of `schema.js`, proved against the functions of
 * `MigrationSteps` and `MigrationRunner`.
 */
module MigrationDatabase {
  import opened MigrationSteps
  import opened MigrationRunner

  /** None of these steps has been recorded since the ledger was read. */
  predicate SameIds(steps: seq<Step>, ledger: seq<string>, applied: seq<string>) {
    forall k | 0 <= k < |steps| :: Id(steps[k]) in ledger <==> Id(steps[k]) in applied
  }

  lemma SameIdsNext(steps: seq<Step>, i: nat, ledger: seq<string>, applied: seq<string>)
    requires DistinctIds(steps) && i < |steps| && SameIds(steps[i..], ledger, applied)
    ensures Id(steps[i]) in ledger <==> Id(steps[i]) in applied
    ensures SameIds(steps[i + 1..], ledger, applied) && SameIds(steps[i + 1..], ledger + [Id(steps[i])], applied)
  {
    var rest, later := steps[i..], steps[i + 1..];
    assert rest[0] == steps[i] && rest[1..] == later;
    forall k | 0 <= k < |later| ensures Id(later[k]) in ledger <==> Id(later[k]) in applied {
      assert later[k] == rest[k + 1];
    }
    LaterIdsDiffer(steps, i, ledger);
  }

  class Database {
    var schema: Schema
    var hasLedger: bool
    var ledger: seq<string>

    ghost function Value(): Db
      reads this
    {
      Db(schema, hasLedger, ledger)
    }

    constructor (schema: Schema, hasLedger: bool, ledger: seq<string>)
      ensures Value() == Db(schema, hasLedger, ledger)
    {
      this.schema, this.hasLedger, this.ledger := schema, hasLedger, ledger;
    }

    method CreateTableIfMissing(table: string, columns: set<string>)
      modifies `schema
      ensures schema == After(CreateIfMissing(table, columns), old(schema))
      ensures table in schema && schema[table] == (if table in old(schema) then old(schema)[table] else columns)
    {
      if table !in schema {
        schema := schema[table := columns];
      }
    }

    /** The declared columns the table lacks, in declared order. */
    method MissingColumns(table: string, names: seq<string>) returns (missing: seq<string>)
      ensures missing == Missing(schema, table, names)
    {
      missing := [];
      for i := 0 to |names|
        invariant missing + Missing(schema, table, names[i..]) == Missing(schema, table, names)
      {
        assert names[i..][0] == names[i] && names[i..][1..] == names[i + 1..];
        if table !in schema || names[i] !in schema[table] {
          missing := missing + [names[i]];
        }
      }
    }

    /** `alterTable` with the columns that are missing; false when the table is not there. */
    method AddMissingColumns(table: string, names: seq<string>, guarded: bool) returns (ok: bool)
      modifies `schema
      ensures ok == !Fails(AddMissing(table, names, guarded), old(schema))
      ensures schema == After(AddMissing(table, names, guarded), old(schema))
      ensures schema.Keys == old(schema).Keys
      ensures table in schema ==> schema[table] == old(schema)[table] + Names(names)
    {
      if guarded && table !in schema { return true; }
      var missing := MissingColumns(table, names);
      if table !in schema { return missing == []; }
      GrowingEnds(schema, table, missing);
      MissingNames(schema, table, names);
      for i := 0 to |missing|
        invariant schema.Keys == old(schema).Keys
        invariant schema == old(schema)[table := schema[table]]
        invariant schema[table] + Names(missing[i..]) == old(schema)[table] + Names(missing)
      {
        assert missing[i..][0] == missing[i] && missing[i..][1..] == missing[i + 1..];
        schema := schema[table := schema[table] + {missing[i]}];
      }
      assert missing[|missing|..] == [];
      assert schema[table] == old(schema)[table] + Names(missing);
      return true;
    }

    /** `up` of a step made of the two helpers; false when it throws. */
    method Up(s: Structured) returns (ok: bool)
      modifies `schema
      ensures ok == StepCompletes(s, old(schema))
      ensures schema == StepEnd(s, old(schema))
    {
      if s.guard.Some? && s.guard.value !in schema { return true; }
      for i := 0 to |s.actions|
        invariant Completes(s.actions, old(schema)) == Completes(s.actions[i..], schema)
        invariant End(s.actions, old(schema)) == End(s.actions[i..], schema)
      {
        assert s.actions[i..][0] == s.actions[i] && s.actions[i..][1..] == s.actions[i + 1..];
        ghost var before := schema;
        if !Fails(s.actions[i], before) { EndUnfolds(s.actions[i..], before); }
        match s.actions[i]
        case CreateIfMissing(table, columns) =>
          CreateTableIfMissing(table, columns);
        case AddMissing(table, names, guarded) =>
          ok := AddMissingColumns(table, names, guarded);
          if !ok { return; }
      }
      return true;
    }

    /** One step's `up`, of either kind. */
    method RunUp(step: Step) returns (ok: bool)
      modifies `schema
      ensures ok == Returns(step, old(schema))
      ensures schema == Left(step, old(schema))
    {
      match step
      case Declared(s) =>
        ok := Up(s);
      case Other(_, _, _, _) =>
        ok := Returns(step, schema);
        schema := Left(step, schema);
    }

    /** Whether this call created the ledger. */
    method EnsureMigrationsTable() returns (isNew: bool)
      modifies `hasLedger
      ensures hasLedger && isNew == !old(hasLedger)
    {
      isNew := !hasLedger;
      hasLedger := true;
    }

    /** The id is the primary key of the ledger. */
    method Record(id: string)
      requires id !in ledger
      modifies `ledger
      ensures ledger == old(ledger) + [id]
    {
      ledger := ledger + [id];
    }

    /** `migrate`; false when an `up` throws. */
    method Migrate(steps: seq<Step>) returns (ok: bool)
      requires DistinctIds(steps)
      modifies this
      ensures Boot(Value(), ok) == FullBoot(steps, old(Value()))
    {
      var isNewLedger := EnsureMigrationsTable();
      var baseline := isNewLedger && LEGACY_TABLE in schema;
      var applied := ledger;
      ghost var goal := FullBoot(steps, old(Value()));
      for i := 0 to |steps|
        invariant Loop(steps[i..], Value(), applied, baseline) == goal
        invariant SameIds(steps[i..], ledger, applied)
      {
        LoopFrom(steps, i, Value(), applied, baseline);
        SameIdsNext(steps, i, ledger, applied);
        if Id(steps[i]) in applied { continue; }
        var alreadyPresent := baseline && Present(steps[i], schema);
        if !alreadyPresent {
          ok := RunUp(steps[i]);
          if !ok { return; }
        }
        Record(Id(steps[i]));
      }
      return true;
    }
  }
}
