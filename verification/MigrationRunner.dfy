/**
 * The runner of `schema.js`: one boot after another, any of them cut short
 * after any write, over a ledger of what has been applied.
 */
module MigrationRunner {
  import opened Prelude
  import opened MigrationSteps

  /**
   * A migration of either kind. For one whose `up` is not made of the two
   * helpers, `writes` gives the schema after each of its writes.
   */
  datatype Step =
    | Declared(structured: Structured)
    | Other(name: string, writes: Schema -> seq<Schema>, completes: Schema -> bool, present: Option<Schema -> bool>)

  function Id(step: Step): string {
    match step
    case Declared(s) => s.id
    case Other(name, _, _, _) => name
  }

  function States(step: Step, d: Schema): (states: seq<Schema>)
    ensures states != [] && states[0] == d
  {
    match step
    case Declared(s) => StepStates(s, d)
    case Other(_, writes, _, _) => [d] + writes(d)
  }

  function Left(step: Step, d: Schema): Schema {
    var states := States(step, d);
    states[|states| - 1]
  }

  predicate Returns(step: Step, d: Schema) {
    match step
    case Declared(s) => StepCompletes(s, d)
    case Other(_, _, completes, _) => completes(d)
  }

  /** `migration.isApplied`; a migration without one is never taken as present. */
  predicate Present(step: Step, d: Schema) {
    match step
    case Declared(s) => IsApplied(s, d)
    case Other(_, _, _, present) => present.Some? && present.value(d)
  }

  /** Run again from any point its `up` passes through, the step returns and leaves what it would have left. */
  ghost predicate RunsAgainFrom(step: Step, d: Schema, m: nat) {
    Returns(step, d) && m < |States(step, d)| ==>
      Returns(step, States(step, d)[m]) && Left(step, States(step, d)[m]) == Left(step, d)
  }

  /** What the runner needs of a step: that it can be run again from any point, and that `isApplied` tells the truth. */
  ghost predicate Dependable(step: Step) {
    && (forall d: Schema, m: nat :: RunsAgainFrom(step, d, m))
    && (forall d: Schema | Present(step, d) :: Returns(step, d) && Left(step, d) == d)
  }

  lemma DeclaredIs(s: Structured, d: Schema)
    ensures States(Declared(s), d) == StepStates(s, d) && Left(Declared(s), d) == StepEnd(s, d)
    ensures Returns(Declared(s), d) == StepCompletes(s, d)
  {
  }

  lemma DeclaredRunsAgain(s: Structured, d: Schema, m: nat)
    ensures RunsAgainFrom(Declared(s), d, m) <==> RestartsFrom(s, d, m)
  {
    DeclaredIs(s, d);
    if m < |StepStates(s, d)| { DeclaredIs(s, StepStates(s, d)[m]); }
  }

  /** A step made of the two helpers is dependable if and only if it creates before it adds. */
  lemma DeclaredDependable(s: Structured)
    ensures Dependable(Declared(s)) <==> CreatesBeforeAdding(s)
  {
    RestartableIff(s);
    forall d: Schema, m: nat ensures RunsAgainFrom(Declared(s), d, m) <==> RestartsFrom(s, d, m) {
      DeclaredRunsAgain(s, d, m);
    }
    forall d: Schema | Present(Declared(s), d) ensures Returns(Declared(s), d) && Left(Declared(s), d) == d {
      IsAppliedIsSound(s, d);
    }
    if Restartable(s) {
      forall d: Schema, m: nat ensures RunsAgainFrom(Declared(s), d, m) { assert RestartsFrom(s, d, m); }
    } else {
      var d: Schema, m: nat :| !RestartsFrom(s, d, m);
      assert !RunsAgainFrom(Declared(s), d, m);
    }
  }

  // ----- A boot that is not interrupted -----

  /** The schema, whether the ledger table exists, and the ids in it in the order they were recorded. */
  datatype Db = Db(schema: Schema, hasLedger: bool, ledger: seq<string>)

  datatype Boot = Boot(db: Db, returned: bool)

  const LEGACY_TABLE := "users"

  predicate Baseline(db: Db) {
    !db.hasLedger && LEGACY_TABLE in db.schema
  }

  /** The loop of `migrate`, from the ids that were in the ledger when it started. */
  function Loop(steps: seq<Step>, db: Db, applied: seq<string>, baseline: bool): Boot {
    if steps == [] then Boot(db, true)
    else if Id(steps[0]) in applied then Loop(steps[1..], db, applied, baseline)
    else if baseline && Present(steps[0], db.schema) then
      Loop(steps[1..], db.(ledger := db.ledger + [Id(steps[0])]), applied, baseline)
    else
      var after := db.(schema := Left(steps[0], db.schema));
      if Returns(steps[0], db.schema)
      then Loop(steps[1..], after.(ledger := after.ledger + [Id(steps[0])]), applied, baseline)
      else Boot(after, false)
  }

  /** The loop from step `i` on, one step at a time. */
  lemma LoopFrom(steps: seq<Step>, i: nat, db: Db, applied: seq<string>, baseline: bool)
    requires i < |steps|
    ensures var step := steps[i];
      var after := db.(schema := Left(step, db.schema));
      Loop(steps[i..], db, applied, baseline)
      == if Id(step) in applied then Loop(steps[i + 1..], db, applied, baseline)
         else if baseline && Present(step, db.schema) then
           Loop(steps[i + 1..], db.(ledger := db.ledger + [Id(step)]), applied, baseline)
         else if Returns(step, db.schema) then
           Loop(steps[i + 1..], after.(ledger := after.ledger + [Id(step)]), applied, baseline)
         else Boot(after, false)
  {
    assert steps[i..][0] == steps[i] && steps[i..][1..] == steps[i + 1..];
  }

  /** `ensureSchema`, start to finish. */
  function FullBoot(steps: seq<Step>, db: Db): Boot {
    Loop(steps, db.(hasLedger := true), db.ledger, Baseline(db))
  }

  predicate DistinctIds(steps: seq<Step>) {
    forall i, j | 0 <= i < j < |steps| :: Id(steps[i]) != Id(steps[j])
  }

  /** Baselining records what it would have been harmless to run. */
  lemma {:induction false} BaselineMakesNoDifference(steps: seq<Step>, db: Db, applied: seq<string>)
    requires forall i | 0 <= i < |steps| :: Dependable(steps[i])
    ensures Loop(steps, db, applied, true) == Loop(steps, db, applied, false)
    decreases |steps|
  {
    if steps != [] {
      assert Dependable(steps[0]);
      assert forall i | 0 <= i < |steps[1..]| :: steps[1..][i] == steps[i + 1];
      var step := steps[0];
      if Id(step) in applied {
        BaselineMakesNoDifference(steps[1..], db, applied);
      } else if Present(step, db.schema) {
        assert Left(step, db.schema) == db.schema;
        BaselineMakesNoDifference(steps[1..], db.(ledger := db.ledger + [Id(step)]), applied);
      } else {
        var after := db.(schema := Left(step, db.schema));
        BaselineMakesNoDifference(steps[1..], after.(ledger := after.ledger + [Id(step)]), applied);
      }
    }
  }

  // ----- Boots cut short -----

  /**
   * Where a boot is. `Opened`: it has made sure of the ledger table and not yet
   * read anything. `Running`: at step `index`, having taken `micro` of the
   * writes its `up` makes from `found`, with the ledger as it was read.
   */
  datatype Process =
    | Idle
    | Opened(isNewLedger: bool)
    | Running(applied: seq<string>, baseline: bool, index: nat, found: Schema, micro: nat)
    | Returned
    | Threw

  datatype Machine = Machine(db: Db, process: Process)

  /** The process starts, takes its next write, or dies; the database keeps what was written. */
  datatype Tick = Go | Die

  function Advance(steps: seq<Step>, db: Db, p: Process): Machine
    requires p.Running?
  {
    if p.index >= |steps| then Machine(db, Returned)
    else
      var step := steps[p.index];
      var recorded := db.(ledger := db.ledger + [Id(step)]);
      var next := Running(p.applied, p.baseline, p.index + 1, db.schema, 0);
      if Id(step) in p.applied then Machine(db, next)
      else if p.micro == 0 && p.baseline && Present(step, p.found) then Machine(recorded, next)
      else if p.micro + 1 < |States(step, p.found)| then
        Machine(db.(schema := States(step, p.found)[p.micro + 1]), p.(micro := p.micro + 1))
      else if Returns(step, p.found) then Machine(recorded, next)
      else Machine(db, Threw)
  }

  function Apply(steps: seq<Step>, m: Machine, tick: Tick): Machine {
    match tick
    case Die => m.(process := Idle)
    case Go =>
      match m.process
      case Idle => Machine(m.db.(hasLedger := true), Opened(!m.db.hasLedger))
      case Opened(isNewLedger) =>
        Machine(m.db, Running(m.db.ledger, isNewLedger && LEGACY_TABLE in m.db.schema, 0, m.db.schema, 0))
      case Running(_, _, _, _, _) => Advance(steps, m.db, m.process)
      case _ => m
  }

  function RunTicks(steps: seq<Step>, m: Machine, ticks: seq<Tick>): Machine
    decreases |ticks|
  {
    if ticks == [] then m else RunTicks(steps, Apply(steps, m, ticks[0]), ticks[1..])
  }

  /** What is still to do from a database, whoever does it: the loop, without a baseline. */
  function Remaining(steps: seq<Step>, db: Db): Boot {
    Loop(steps, db.(hasLedger := true), db.ledger, false)
  }

  lemma {:induction false} SkipApplied(steps: seq<Step>, i: nat, db: Db, applied: seq<string>)
    requires i <= |steps| && forall k | 0 <= k < i :: Id(steps[k]) in applied
    ensures Loop(steps, db, applied, false) == Loop(steps[i..], db, applied, false)
    decreases i
  {
    if i == 0 {
      assert steps[0..] == steps;
    } else {
      assert Id(steps[0]) in applied;
      assert steps[1..][i - 1..] == steps[i..];
      SkipApplied(steps[1..], i - 1, db, applied);
    }
  }

  /** Ids that are not among the steps do not change what the loop does. */
  lemma {:induction false} AppliedOnlyMattersForSteps(steps: seq<Step>, db: Db, a: seq<string>, b: seq<string>)
    requires forall k | 0 <= k < |steps| :: Id(steps[k]) in a <==> Id(steps[k]) in b
    ensures Loop(steps, db, a, false) == Loop(steps, db, b, false)
    decreases |steps|
  {
    if steps != [] {
      assert Id(steps[0]) in a <==> Id(steps[0]) in b;
      assert forall k | 0 <= k < |steps[1..]| :: steps[1..][k] == steps[k + 1];
      AppliedOnlyMattersForSteps(steps[1..], db, a, b);
      AppliedOnlyMattersForSteps(steps[1..], db.(ledger := db.ledger + [Id(steps[0])]), a, b);
      var after := db.(schema := Left(steps[0], db.schema));
      AppliedOnlyMattersForSteps(steps[1..], after.(ledger := after.ledger + [Id(steps[0])]), a, b);
    }
  }

  /** From inside a step, what remains is what remained when the step began. */
  lemma RemainingAt(steps: seq<Step>, db: Db, i: nat)
    requires i <= |steps| && forall k | 0 <= k < i :: Id(steps[k]) in db.ledger
    ensures Remaining(steps, db) == Loop(steps[i..], db.(hasLedger := true), db.ledger, false)
  {
    SkipApplied(steps, i, db.(hasLedger := true), db.ledger);
  }

  /** Recording a step whose schema has been reached leaves what remains unchanged. */
  lemma RemainingAfterRecord(steps: seq<Step>, db: Db, i: nat)
    requires DistinctIds(steps) && i < |steps| && db.hasLedger
    requires forall k | 0 <= k < i :: Id(steps[k]) in db.ledger
    requires Id(steps[i]) !in db.ledger
    requires Returns(steps[i], db.schema) && Left(steps[i], db.schema) == db.schema
    ensures Remaining(steps, db.(ledger := db.ledger + [Id(steps[i])])) == Remaining(steps, db)
  {
    var recorded := db.(ledger := db.ledger + [Id(steps[i])]);
    RemainingAt(steps, db, i);
    RemainingAt(steps, recorded, i + 1);
    assert steps[i..][0] == steps[i] && steps[i..][1..] == steps[i + 1..];
    assert db.(schema := Left(steps[i], db.schema)) == db;
    LaterIdsDiffer(steps, i, db.ledger);
    AppliedOnlyMattersForSteps(steps[i + 1..], recorded, recorded.ledger, db.ledger);
  }

  /** Recording one step says nothing of the later ones. */
  lemma LaterIdsDiffer(steps: seq<Step>, i: nat, ledger: seq<string>)
    requires DistinctIds(steps) && i < |steps|
    ensures var later := steps[i + 1..];
      forall k | 0 <= k < |later| :: Id(later[k]) in ledger + [Id(steps[i])] <==> Id(later[k]) in ledger
  {
    var later := steps[i + 1..];
    forall k | 0 <= k < |later| ensures Id(later[k]) != Id(steps[i]) {
      assert later[k] == steps[i + 1 + k];
    }
  }

  /** One more write of a step that would return leaves what remains unchanged. */
  lemma RemainingAfterWrite(steps: seq<Step>, db: Db, i: nat, written: Schema)
    requires i < |steps| && db.hasLedger
    requires forall k | 0 <= k < i :: Id(steps[k]) in db.ledger
    requires Id(steps[i]) !in db.ledger
    requires Returns(steps[i], db.schema) && Returns(steps[i], written)
    requires Left(steps[i], written) == Left(steps[i], db.schema)
    ensures Remaining(steps, db.(schema := written)) == Remaining(steps, db)
  {
    RemainingAt(steps, db, i);
    RemainingAt(steps, db.(schema := written), i);
    assert steps[i..][0] == steps[i];
  }

  /**
   * What holds of a boot at any moment: every step before the one it is at has
   * been recorded, none after it has since it read the ledger, and the schema
   * is where its `up` has got to.
   */
  ghost predicate OnTrack(steps: seq<Step>, db: Db, p: Process)
    requires p.Running?
  {
    && db.hasLedger
    && p.index <= |steps|
    && (forall k | 0 <= k < p.index :: Id(steps[k]) in db.ledger)
    && (forall k | p.index <= k < |steps| :: Id(steps[k]) in db.ledger <==> Id(steps[k]) in p.applied)
    && (p.index < |steps| && Id(steps[p.index]) !in p.applied ==>
          var states := States(steps[p.index], p.found);
          p.micro < |states| && db.schema == states[p.micro] && Returns(steps[p.index], p.found))
  }

  /** The invariant: what remains to be done from here is what an uninterrupted boot would have done. */
  ghost predicate Converging(steps: seq<Step>, goal: Boot, m: Machine) {
    && Remaining(steps, m.db) == goal
    && !m.process.Threw?
    && (m.process.Opened? ==> m.db.hasLedger)
    && (m.process.Running? ==> OnTrack(steps, m.db, m.process))
    && (m.process.Returned? ==> m.db == goal.db)
  }

  /** Arriving at a step: if it is still to be run, it will return. */
  lemma ArrivingAt(steps: seq<Step>, db: Db, p: Process)
    requires Remaining(steps, db).returned && db.hasLedger
    requires p.Running? && p.index <= |steps| && p.found == db.schema && p.micro == 0
    requires forall k | 0 <= k < p.index :: Id(steps[k]) in db.ledger
    requires forall k | p.index <= k < |steps| :: Id(steps[k]) in db.ledger <==> Id(steps[k]) in p.applied
    ensures OnTrack(steps, db, p)
  {
    RemainingAt(steps, db, p.index);
    if p.index < |steps| {
      assert steps[p.index..][0] == steps[p.index];
    }
  }

  /** The step is to be run, and its `up` has a write left. */
  predicate HasWriteLeft(steps: seq<Step>, p: Process)
    requires p.Running? && p.index < |steps|
  {
    && Id(steps[p.index]) !in p.applied
    && !(p.micro == 0 && p.baseline && Present(steps[p.index], p.found))
    && p.micro + 1 < |States(steps[p.index], p.found)|
  }

  lemma WriteConverges(steps: seq<Step>, goal: Boot, db: Db, p: Process)
    requires p.Running? && p.index < |steps| && Dependable(steps[p.index])
    requires Id(steps[p.index]) !in p.applied && p.micro + 1 < |States(steps[p.index], p.found)|
    requires Converging(steps, goal, Machine(db, p))
    ensures Converging(steps, goal, Machine(db.(schema := States(steps[p.index], p.found)[p.micro + 1]),
                                            p.(micro := p.micro + 1)))
  {
    var step := steps[p.index];
    assert RunsAgainFrom(step, p.found, p.micro) && RunsAgainFrom(step, p.found, p.micro + 1);
    RemainingAfterWrite(steps, db, p.index, States(step, p.found)[p.micro + 1]);
  }

  lemma AboutToWrite(steps: seq<Step>, db: Db, p: Process)
    requires p.Running? && p.index < |steps| && HasWriteLeft(steps, p)
    ensures Advance(steps, db, p) == Machine(db.(schema := States(steps[p.index], p.found)[p.micro + 1]),
                                             p.(micro := p.micro + 1))
  {
  }

  lemma SkipConverges(steps: seq<Step>, goal: Boot, db: Db, p: Process)
    requires p.Running? && p.index < |steps| && goal.returned && Id(steps[p.index]) in p.applied
    requires Converging(steps, goal, Machine(db, p))
    ensures Converging(steps, goal, Advance(steps, db, p))
  {
    assert Id(steps[p.index]) in db.ledger;
    ArrivingAt(steps, db, Running(p.applied, p.baseline, p.index + 1, db.schema, 0));
  }

  /** The schema of a step about to be recorded is what the step leaves. */
  lemma AboutToRecord(steps: seq<Step>, db: Db, p: Process)
    requires p.Running? && p.index < |steps| && Id(steps[p.index]) !in p.applied && !HasWriteLeft(steps, p)
    requires Dependable(steps[p.index]) && OnTrack(steps, db, p)
    ensures Returns(steps[p.index], db.schema) && Left(steps[p.index], db.schema) == db.schema
    ensures Advance(steps, db, p) == Machine(db.(ledger := db.ledger + [Id(steps[p.index])]),
                                             Running(p.applied, p.baseline, p.index + 1, db.schema, 0))
  {
    assert RunsAgainFrom(steps[p.index], p.found, p.micro);
  }

  lemma RecordConverges(steps: seq<Step>, goal: Boot, db: Db, p: Process)
    requires DistinctIds(steps) && p.Running? && p.index < |steps| && goal.returned
    requires Id(steps[p.index]) !in p.applied
    requires Returns(steps[p.index], db.schema) && Left(steps[p.index], db.schema) == db.schema
    requires Converging(steps, goal, Machine(db, p))
    ensures Converging(steps, goal, Machine(db.(ledger := db.ledger + [Id(steps[p.index])]),
                                            Running(p.applied, p.baseline, p.index + 1, db.schema, 0)))
  {
    assert Id(steps[p.index]) !in db.ledger;
    RemainingAfterRecord(steps, db, p.index);
    var recorded := db.(ledger := db.ledger + [Id(steps[p.index])]);
    forall k | p.index + 1 <= k < |steps| ensures Id(steps[k]) in recorded.ledger <==> Id(steps[k]) in p.applied {
      assert Id(steps[p.index]) != Id(steps[k]);
    }
    ArrivingAt(steps, recorded, Running(p.applied, p.baseline, p.index + 1, db.schema, 0));
  }

  lemma AdvanceConverges(steps: seq<Step>, goal: Boot, m: Machine)
    requires DistinctIds(steps) && (forall i | 0 <= i < |steps| :: Dependable(steps[i]))
    requires goal.returned && Converging(steps, goal, m) && m.process.Running?
    ensures Converging(steps, goal, Advance(steps, m.db, m.process))
  {
    var p := m.process;
    if p.index >= |steps| {
      RemainingAt(steps, m.db, p.index);
    } else if Id(steps[p.index]) in p.applied {
      SkipConverges(steps, goal, m.db, p);
    } else if HasWriteLeft(steps, p) {
      AboutToWrite(steps, m.db, p);
      WriteConverges(steps, goal, m.db, p);
    } else {
      AboutToRecord(steps, m.db, p);
      RecordConverges(steps, goal, m.db, p);
    }
  }

  lemma {:induction false} TicksConverge(steps: seq<Step>, goal: Boot, m: Machine, ticks: seq<Tick>)
    requires DistinctIds(steps) && (forall i | 0 <= i < |steps| :: Dependable(steps[i]))
    requires goal.returned && Converging(steps, goal, m)
    ensures Converging(steps, goal, RunTicks(steps, m, ticks))
    decreases |ticks|
  {
    if ticks != [] {
      var next := Apply(steps, m, ticks[0]);
      if ticks[0].Go? && m.process.Running? {
        AdvanceConverges(steps, goal, m);
      } else if ticks[0].Go? && m.process.Opened? {
        ArrivingAt(steps, m.db, next.process);
      }
      TicksConverge(steps, goal, next, ticks[1..]);
    }
  }

  /** A boot that is not interrupted does what remains, whether or not it baselines. */
  lemma FullBootIsRemaining(steps: seq<Step>, db: Db)
    requires forall i | 0 <= i < |steps| :: Dependable(steps[i])
    ensures FullBoot(steps, db) == Remaining(steps, db)
  {
    BaselineMakesNoDifference(steps, db.(hasLedger := true), db.ledger);
  }

  /**
   * Crash convergence. However many boots are cut short, wherever they are cut,
   * none throws, the next complete boot leaves the schema and the ledger one
   * uninterrupted boot would have left, and a boot that returns has left them.
   */
  lemma CrashConvergence(steps: seq<Step>, db: Db, ticks: seq<Tick>)
    requires DistinctIds(steps) && (forall i | 0 <= i < |steps| :: Dependable(steps[i]))
    requires FullBoot(steps, db).returned
    ensures var m := RunTicks(steps, Machine(db, Idle), ticks);
      && FullBoot(steps, m.db) == FullBoot(steps, db)
      && !m.process.Threw?
      && (m.process.Returned? ==> m.db == FullBoot(steps, db).db)
  {
    FullBootIsRemaining(steps, db);
    TicksConverge(steps, FullBoot(steps, db), Machine(db, Idle), ticks);
    FullBootIsRemaining(steps, RunTicks(steps, Machine(db, Idle), ticks).db);
  }
}
