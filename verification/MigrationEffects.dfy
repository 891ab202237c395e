/**
 * What a boot of the runner does when nothing cuts it short: which steps it
 * runs, what it leaves of the schema and the ledger, and that it gets there.
 */
module MigrationEffects {
  import opened Prelude
  import opened MigrationSteps
  import opened MigrationRunner

  /** The steps whose id the ledger lacks, in order. */
  function Unrecorded(steps: seq<Step>, ledger: seq<string>): seq<Step> {
    Filter(steps, (step: Step) => Id(step) !in ledger)
  }

  function Ids(steps: seq<Step>): (ids: seq<string>)
    ensures |ids| == |steps| && forall i | 0 <= i < |steps| :: ids[i] == Id(steps[i])
  {
    seq(|steps|, i requires 0 <= i < |steps| => Id(steps[i]))
  }

  /** One after another, from one schema to the next: each of the first `n` steps leaves the schema the next one finds. */
  ghost predicate LeaveInTurn(steps: seq<Step>, schemas: seq<Schema>, n: nat) {
    && n <= |steps| && |schemas| == n + 1
    && forall k | 0 <= k < n :: schemas[k + 1] == Left(steps[k], schemas[k])
  }

  lemma LeaveInTurnCons(step: Step, rest: seq<Step>, d: Schema, schemas: seq<Schema>, n: nat)
    requires LeaveInTurn(rest, schemas, n) && schemas[0] == Left(step, d)
    ensures LeaveInTurn([step] + rest, [d] + schemas, n + 1)
  {
    var longer, all := [step] + rest, [d] + schemas;
    forall k | 0 <= k < n + 1 ensures all[k + 1] == Left(longer[k], all[k]) {
      if k > 0 { assert longer[k] == rest[k - 1] && all[k] == schemas[k - 1] && all[k + 1] == schemas[k]; }
    }
  }

  /** Each of the first `n` steps returns on the schema it finds. */
  ghost predicate FirstReturn(steps: seq<Step>, schemas: seq<Schema>, n: nat) {
    n <= |steps| && n <= |schemas| && forall k | 0 <= k < n :: Returns(steps[k], schemas[k])
  }

  lemma FirstReturnCons(step: Step, rest: seq<Step>, d: Schema, schemas: seq<Schema>, n: nat)
    requires FirstReturn(rest, schemas, n) && Returns(step, d)
    ensures FirstReturn([step] + rest, [d] + schemas, n + 1)
  {
    var longer, all := [step] + rest, [d] + schemas;
    forall k | 0 <= k < n + 1 ensures Returns(longer[k], all[k]) {
      if k > 0 { assert longer[k] == rest[k - 1] && all[k] == schemas[k - 1]; }
    }
  }

  /** Where the boot stands in the end: behind every step, or in one that threw. */
  ghost predicate EndsBehind(pending: seq<Step>, b: Boot, schemas: seq<Schema>, n: nat) {
    if b.returned then n == |pending| && LeaveInTurn(pending, schemas, n) && b.db.schema == schemas[n]
    else n < |pending| && LeaveInTurn(pending, schemas, n + 1) && b.db.schema == schemas[n + 1] && !Returns(pending[n], schemas[n])
  }

  lemma EndsBehindCons(step: Step, rest: seq<Step>, d: Schema, b: Boot, schemas: seq<Schema>, n: nat)
    requires EndsBehind(rest, b, schemas, n) && schemas[0] == Left(step, d)
    ensures EndsBehind([step] + rest, b, [d] + schemas, n + 1)
  {
    LeaveInTurnCons(step, rest, d, schemas, if b.returned then n else n + 1);
  }

  /** These steps have been run and recorded, and the boot returned after all of them or threw in the one after. */
  ghost predicate RanInTurn(pending: seq<Step>, from: Schema, ledger: seq<string>, b: Boot, schemas: seq<Schema>, n: nat) {
    && FirstReturn(pending, schemas, n) && schemas != [] && schemas[0] == from
    && EndsBehind(pending, b, schemas, n)
    && b.db.ledger == ledger + Ids(pending[..n])
  }

  lemma RecordedCons(step: Step, rest: seq<Step>, ledger: seq<string>, n: nat)
    requires n <= |rest|
    ensures (ledger + [Id(step)]) + Ids(rest[..n]) == ledger + Ids(([step] + rest)[..n + 1])
  {
    assert ([step] + rest)[..n + 1] == [step] + rest[..n];
    assert Ids([step] + rest[..n]) == [Id(step)] + Ids(rest[..n]);
    Associates(ledger, [Id(step)], Ids(rest[..n]));
  }

  lemma RanInTurnCons(step: Step, rest: seq<Step>, d: Schema, ledger: seq<string>, b: Boot, schemas: seq<Schema>, n: nat)
    requires Returns(step, d) && RanInTurn(rest, Left(step, d), ledger + [Id(step)], b, schemas, n)
    ensures RanInTurn([step] + rest, d, ledger, b, [d] + schemas, n + 1)
  {
    FirstReturnCons(step, rest, d, schemas, n);
    EndsBehindCons(step, rest, d, b, schemas, n);
    RecordedCons(step, rest, ledger, n);
  }

  lemma {:induction false} LoopRuns(steps: seq<Step>, db: Db, applied: seq<string>) returns (schemas: seq<Schema>, n: nat)
    ensures RanInTurn(Unrecorded(steps, applied), db.schema, db.ledger, Loop(steps, db, applied, false), schemas, n)
    ensures Loop(steps, db, applied, false).db.hasLedger == db.hasLedger
    decreases |steps|
  {
    if steps == [] {
      schemas, n := [db.schema], 0;
      assert db.ledger + Ids([]) == db.ledger;
    } else if Id(steps[0]) in applied {
      schemas, n := LoopRuns(steps[1..], db, applied);
    } else {
      var step, rest := steps[0], Unrecorded(steps[1..], applied);
      var after := db.(schema := Left(step, db.schema));
      if Returns(step, db.schema) {
        var later, m := LoopRuns(steps[1..], after.(ledger := after.ledger + [Id(step)]), applied);
        RanInTurnCons(step, rest, db.schema, db.ledger, Loop(steps, db, applied, false), later, m);
        schemas, n := [db.schema] + later, m + 1;
      } else {
        schemas, n := [db.schema, after.schema], 0;
        assert ([step] + rest)[..0] == [] && db.ledger + Ids([]) == db.ledger;
      }
    }
  }

  /**
   * A boot runs the steps whose ids the ledger lacks, in list order, each on the
   * schema the one before it left, and records each that returned behind what the
   * ledger had: all of them, or those before the first that throws.
   */
  lemma FullBootMeaning(steps: seq<Step>, db: Db) returns (schemas: seq<Schema>, n: nat)
    requires forall i | 0 <= i < |steps| :: Dependable(steps[i])
    ensures RanInTurn(Unrecorded(steps, db.ledger), db.schema, db.ledger, FullBoot(steps, db), schemas, n)
    ensures FullBoot(steps, db).db.hasLedger
  {
    FullBootIsRemaining(steps, db);
    schemas, n := LoopRuns(steps, db.(hasLedger := true), db.ledger);
  }

  /** Run in turn from this schema, the steps all return. */
  ghost predicate RunsThrough(steps: seq<Step>, schemas: seq<Schema>, from: Schema) {
    LeaveInTurn(steps, schemas, |steps|) && schemas[0] == from && FirstReturn(steps, schemas, |steps|)
  }

  /** A schema every one of its pending steps can be run on in turn is one the boot returns from. */
  lemma ReturnsIff(steps: seq<Step>, db: Db)
    requires forall i | 0 <= i < |steps| :: Dependable(steps[i])
    ensures var pending := Unrecorded(steps, db.ledger);
      FullBoot(steps, db).returned <==>
        exists schemas :: RunsThrough(pending, schemas, db.schema)
  {
    var pending := Unrecorded(steps, db.ledger);
    var schemas, n := FullBootMeaning(steps, db);
    if FullBoot(steps, db).returned {
      assert RunsThrough(pending, schemas, db.schema);
    }
    if other :| RunsThrough(pending, other, db.schema) {
      if !FullBoot(steps, db).returned { SameInTurn(pending, schemas, n + 1, other, |pending|, n); }
    }
  }

  /** Run in turn from the same schema, the same steps go through the same ones. */
  lemma {:induction false} SameInTurn(steps: seq<Step>, a: seq<Schema>, n: nat, b: seq<Schema>, m: nat, k: nat)
    requires LeaveInTurn(steps, a, n) && LeaveInTurn(steps, b, m) && a[0] == b[0] && k <= n && k <= m
    ensures a[k] == b[k]
  {
    if k > 0 { SameInTurn(steps, a, n, b, m, k - 1); }
  }

  /**
   * A boot takes steps as present only when it found no ledger and the table of
   * an installation older than it: then one that is there already is recorded and
   * not run. In every other case each step is run.
   */
  lemma BaselineMeaning(steps: seq<Step>, step: Step, db: Db)
    ensures db.hasLedger || "users" !in db.schema ==> FullBoot(steps, db) == Loop(steps, db.(hasLedger := true), db.ledger, false)
    ensures var there := match step
        case Declared(s) => IsApplied(s, db.schema)
        case Other(_, _, _, present) => present.Some? && present.value(db.schema);
      !db.hasLedger && "users" in db.schema && there && Id(step) !in db.ledger ==>
        FullBoot([step], db) == Boot(Db(db.schema, true, db.ledger + [Id(step)]), true)
  {
    var recorded := Db(db.schema, true, db.ledger + [Id(step)]);
    assert [step][0] == step && [step][1..] == [];
    assert Loop([], recorded, db.ledger, true) == Boot(recorded, true);
    if !db.hasLedger && "users" in db.schema && Present(step, db.schema) && Id(step) !in db.ledger {
      assert Loop([step], db.(hasLedger := true), db.ledger, true) == Loop([step][1..], recorded, db.ledger, true);
    }
  }

  /** A migration of the other kind leaves the last of its writes, or nothing changed when it makes none. */
  lemma OtherLeaves(name: string, writes: Schema -> seq<Schema>, completes: Schema -> bool, present: Option<Schema -> bool>, d: Schema)
    ensures Left(Other(name, writes, completes, present), d) == if writes(d) == [] then d else writes(d)[|writes(d)| - 1]
  {
  }

  // ----- An uninterrupted boot, tick by tick -----

  function Going(n: nat): seq<Tick> {
    seq(n, i => Go)
  }

  /** Ticks go on from where the first of them led. */
  lemma OneMoreGo(steps: seq<Step>, m: Machine, n: nat)
    ensures RunTicks(steps, m, Going(n + 1)) == RunTicks(steps, Apply(steps, m, Go), Going(n))
  {
    assert Going(n + 1)[0] == Go && Going(n + 1)[1..] == Going(n);
  }

  /** From inside its loop, an undisturbed boot comes to an end. */
  lemma {:induction false} LoopEnds(steps: seq<Step>, db: Db, p: Process) returns (n: nat)
    requires p.Running? && p.index <= |steps|
    ensures RunTicks(steps, Machine(db, p), Going(n)).process.Returned? || RunTicks(steps, Machine(db, p), Going(n)).process.Threw?
    decreases |steps| - p.index, if p.index < |steps| && p.micro < |States(steps[p.index], p.found)|
                                 then |States(steps[p.index], p.found)| - p.micro else 0
  {
    var next := Advance(steps, db, p);
    if next.process.Running? {
      var m := LoopEnds(steps, next.db, next.process);
      n := m + 1;
    } else {
      n := 1;
      assert RunTicks(steps, next, Going(0)) == next;
    }
    OneMoreGo(steps, Machine(db, p), n - 1);
  }

  /** And what it has left then is what the uninterrupted boot is described to leave. */
  lemma UndisturbedBootArrives(steps: seq<Step>, db: Db) returns (n: nat)
    requires DistinctIds(steps) && (forall i | 0 <= i < |steps| :: Dependable(steps[i]))
    requires FullBoot(steps, db).returned
    ensures RunTicks(steps, Machine(db, Idle), Going(n)) == Machine(FullBoot(steps, db).db, Returned)
  {
    var start := Machine(db, Idle);
    var ready := Apply(steps, start, Go);
    var running := Apply(steps, ready, Go);
    var m := LoopEnds(steps, running.db, running.process);
    n := m + 2;
    OneMoreGo(steps, start, m + 1);
    OneMoreGo(steps, ready, m);
    CrashConvergence(steps, db, Going(n));
  }
}
