/**
 * The steps of `migrations.js` that are built from `createTableIfMissing` and
 * `missingColumns`, cut at every write, and exactly when such a step may be
 * interrupted anywhere and run again.
 */
module MigrationSteps {
  import opened Prelude

  /** The columns of every table there is. */
  type Schema = map<string, set<string>>

  datatype Action =
    | CreateIfMissing(table: string, columns: set<string>)
    /** `guarded`: the step looks for the table first and goes on without it. */
    | AddMissing(table: string, names: seq<string>, guarded: bool)

  /** A migration: its id, what `isApplied` looks at, and what `up` does after its opening guard. */
  datatype Structured = Structured(id: string, guard: Option<string>, actions: seq<Action>)

  function Names(names: seq<string>): set<string> {
    if names == [] then {} else {names[0]} + Names(names[1..])
  }

  /** `missingColumns`, in the order they are declared. */
  function Missing(d: Schema, table: string, names: seq<string>): seq<string> {
    if names == [] then []
    else if table in d && names[0] in d[table] then Missing(d, table, names[1..])
    else [names[0]] + Missing(d, table, names[1..])
  }

  /** The schema after each of the columns is added, one at a time. */
  function Growing(d: Schema, table: string, names: seq<string>): seq<Schema>
    requires table in d
  {
    if names == [] then []
    else
      var next := d[table := d[table] + {names[0]}];
      [next] + Growing(next, table, names[1..])
  }

  /** An `alterTable` on a table that is not there throws. */
  predicate Fails(a: Action, d: Schema) {
    a.AddMissing? && a.table !in d && !a.guarded && a.names != []
  }

  /** The schema after each write of one action. */
  function Writes(a: Action, d: Schema): seq<Schema> {
    match a
    case CreateIfMissing(table, columns) => if table in d then [] else [d[table := columns]]
    case AddMissing(table, names, _) => if table in d then Growing(d, table, Missing(d, table, names)) else []
  }

  function After(a: Action, d: Schema): Schema {
    var writes := Writes(a, d);
    if writes == [] then d else writes[|writes| - 1]
  }

  /** Every schema `up` passes through, from the one it finds to the one it leaves or throws at. */
  function Passing(actions: seq<Action>, d: Schema): (states: seq<Schema>)
    ensures states != [] && states[0] == d
  {
    if actions == [] || Fails(actions[0], d) then [d]
    else [d] + Writes(actions[0], d) + Passing(actions[1..], After(actions[0], d))
  }

  predicate Completes(actions: seq<Action>, d: Schema) {
    actions == [] || (!Fails(actions[0], d) && Completes(actions[1..], After(actions[0], d)))
  }

  function End(actions: seq<Action>, d: Schema): Schema {
    var states := Passing(actions, d);
    states[|states| - 1]
  }

  // ----- What the actions say about one table -----

  /** The columns the first `createTableIfMissing` of the table would give it. */
  function Created(actions: seq<Action>, t: string): Option<set<string>> {
    if actions == [] then None
    else if actions[0].CreateIfMissing? && actions[0].table == t then Some(actions[0].columns)
    else Created(actions[1..], t)
  }

  /** The columns added to the table by any action. */
  function Added(actions: seq<Action>, t: string): set<string> {
    if actions == [] then {}
    else (if actions[0].AddMissing? && actions[0].table == t then Names(actions[0].names) else {}) + Added(actions[1..], t)
  }

  /** The columns added to the table after its first creation. */
  function AddedAfter(actions: seq<Action>, t: string): set<string> {
    if actions == [] then {}
    else if actions[0].CreateIfMissing? && actions[0].table == t then Added(actions[1..], t)
    else AddedAfter(actions[1..], t)
  }

  /** Some action needs the table before any creates it. */
  predicate NeedsFirst(actions: seq<Action>, t: string) {
    actions != [] && !(actions[0].CreateIfMissing? && actions[0].table == t)
    && ((actions[0].AddMissing? && actions[0].table == t && !actions[0].guarded && actions[0].names != [])
        || NeedsFirst(actions[1..], t))
  }

  function TableEnd(actions: seq<Action>, d: Schema, t: string): Option<set<string>> {
    if t in d then Some(d[t] + Added(actions, t))
    else if Created(actions, t).Some? then Some(Created(actions, t).value + AddedAfter(actions, t))
    else None
  }

  function Columns(d: Schema, t: string): Option<set<string>> {
    if t in d then Some(d[t]) else None
  }

  lemma {:induction false} GrowingEnds(d: Schema, table: string, names: seq<string>)
    requires table in d
    ensures var writes := Growing(d, table, names);
      && |writes| == |names|
      && (if writes == [] then d else writes[|writes| - 1]) == d[table := d[table] + Names(names)]
    ensures forall i | 0 <= i < |Growing(d, table, names)| ::
      var e := Growing(d, table, names)[i];
      table in e && d[table] <= e[table] <= d[table] + Names(names) && e == d[table := e[table]]
  {
    if names == [] {
      assert d[table] + {} == d[table];
    } else {
      var next := d[table := d[table] + {names[0]}];
      GrowingEnds(next, table, names[1..]);
      var rest := Growing(next, table, names[1..]);
      assert Growing(d, table, names) == [next] + rest;
      assert d[table] + Names(names) == next[table] + Names(names[1..]);
    }
  }

  /** The columns missing are exactly the declared ones the table has not got. */
  lemma {:induction false} MissingMeaning(d: Schema, table: string, names: seq<string>, column: string)
    ensures column in Missing(d, table, names) <==> column in names && (table !in d || column !in d[table])
  {
    if names != [] {
      MissingMeaning(d, table, names[1..], column);
      assert names == [names[0]] + names[1..];
    }
  }

  lemma {:induction false} NamesMeaning(names: seq<string>, column: string)
    ensures column in Names(names) <==> column in names
  {
    if names != [] {
      NamesMeaning(names[1..], column);
      assert names == [names[0]] + names[1..];
    }
  }

  lemma {:induction false} MissingNames(d: Schema, table: string, names: seq<string>)
    requires table in d
    ensures Names(Missing(d, table, names)) <= Names(names)
    ensures d[table] + Names(Missing(d, table, names)) == d[table] + Names(names)
  {
    if names != [] {
      MissingNames(d, table, names[1..]);
      var rest := Missing(d, table, names[1..]);
      assert ([names[0]] + rest)[1..] == rest;
    }
  }

  function TableAfter(a: Action, d: Schema, t: string): Option<set<string>> {
    if t != a.table then Columns(d, t)
    else if a.CreateIfMissing? then (if t in d then Some(d[t]) else Some(a.columns))
    else if t in d then Some(d[t] + Names(a.names)) else None
  }

  /** One action, table by table. */
  lemma AfterMeaning(a: Action, d: Schema)
    requires !Fails(a, d)
    ensures forall t :: Columns(After(a, d), t) == TableAfter(a, d, t)
  {
    if a.AddMissing? && a.table in d {
      GrowingEnds(d, a.table, Missing(d, a.table, a.names));
      MissingNames(d, a.table, a.names);
    }
  }

  lemma {:induction false} EndUnfolds(actions: seq<Action>, d: Schema)
    requires actions != [] && !Fails(actions[0], d)
    ensures End(actions, d) == End(actions[1..], After(actions[0], d))
  {
    var rest := Passing(actions[1..], After(actions[0], d));
    var all := Passing(actions, d);
    assert all == [d] + Writes(actions[0], d) + rest;
    assert all[|all| - 1] == rest[|rest| - 1];
  }

  /** An `up` that returned found every table it needs first. */
  lemma {:induction false} CompletesFinds(actions: seq<Action>, d: Schema, t: string)
    requires Completes(actions, d) && NeedsFirst(actions, t)
    ensures t in d
  {
    var a := actions[0];
    AfterMeaning(a, d);
    var e := After(a, d);
    assert Columns(e, t) == TableAfter(a, d, t);
    if NeedsFirst(actions[1..], t) {
      CompletesFinds(actions[1..], e, t);
    }
  }

  /** And one that finds them all returns. */
  lemma {:induction false} FindsCompletes(actions: seq<Action>, d: Schema)
    requires forall t | NeedsFirst(actions, t) :: t in d
    ensures Completes(actions, d)
  {
    if actions != [] {
      var a := actions[0];
      if Fails(a, d) { assert NeedsFirst(actions, a.table); }
      AfterMeaning(a, d);
      var e := After(a, d);
      forall t | NeedsFirst(actions[1..], t) ensures t in e {
        assert Columns(e, t) == TableAfter(a, d, t);
        if !(a.CreateIfMissing? && a.table == t) { assert NeedsFirst(actions, t); }
      }
      FindsCompletes(actions[1..], e);
    }
  }

  /** What a table is after an `up` that returned. */
  lemma {:induction false} TableAfterUp(actions: seq<Action>, d: Schema, t: string)
    requires Completes(actions, d)
    ensures Columns(End(actions, d), t) == TableEnd(actions, d, t)
  {
    if actions != [] {
      var a := actions[0];
      AfterMeaning(a, d);
      var e := After(a, d);
      assert Columns(e, t) == TableAfter(a, d, t);
      TableAfterUp(actions[1..], e, t);
      EndUnfolds(actions, d);
      if t in d && a.AddMissing? && a.table == t {
        assert d[t] + Added(actions, t) == (d[t] + Names(a.names)) + Added(actions[1..], t);
      } else {
        assert t in d ==> d[t] + Added(actions, t) == d[t] + Added(actions[1..], t);
      }
    } else {
      assert t in d ==> d[t] + {} == d[t];
    }
  }

  /** What a schema passed through on the way may hold: what was there, and part of what is still to come. */
  predicate Between(actions: seq<Action>, d: Schema, e: Schema, t: string) {
    if t in d then t in e && d[t] <= e[t] <= d[t] + Added(actions, t)
    else t !in e || (!NeedsFirst(actions, t) && Created(actions, t).Some?
                     && Created(actions, t).value <= e[t] <= Created(actions, t).value + AddedAfter(actions, t))
  }

  lemma {:induction false} PassingIsBetween(actions: seq<Action>, d: Schema, m: nat, t: string)
    requires m < |Passing(actions, d)|
    ensures Between(actions, d, Passing(actions, d)[m], t)
  {
    var e := Passing(actions, d)[m];
    if actions == [] || Fails(actions[0], d) || m == 0 {
      assert e == d;
    } else {
      var a := actions[0];
      var writes := Writes(a, d);
      var next := After(a, d);
      var rest := Passing(actions[1..], next);
      assert Passing(actions, d) == [d] + writes + rest;
      AfterMeaning(a, d);
      assert Columns(next, t).Some? <==> t in next;
      if m <= |writes| {
        assert e == writes[m - 1];
        if a.AddMissing? {
          GrowingEnds(d, a.table, Missing(d, a.table, a.names));
          MissingNames(d, a.table, a.names);
        }
      } else {
        assert e == rest[m - 1 - |writes|];
        PassingIsBetween(actions[1..], next, m - 1 - |writes|, t);
      }
    }
  }

  // ----- Restarting a step -----

  /** Whether `up` does anything: its opening guard. */
  predicate Opens(s: Structured, d: Schema) {
    s.guard.Some? ==> s.guard.value in d
  }

  function StepStates(s: Structured, d: Schema): (states: seq<Schema>)
    ensures states != [] && states[0] == d
  {
    if Opens(s, d) then Passing(s.actions, d) else [d]
  }

  predicate StepCompletes(s: Structured, d: Schema) {
    Opens(s, d) ==> Completes(s.actions, d)
  }

  function StepEnd(s: Structured, d: Schema): Schema {
    var states := StepStates(s, d);
    states[|states| - 1]
  }

  /** Cut after its first `m` writes and run again from the start, the step ends where it would have. */
  predicate RestartsFrom(s: Structured, d: Schema, m: nat) {
    StepCompletes(s, d) && m < |StepStates(s, d)| ==>
      StepCompletes(s, StepStates(s, d)[m]) && StepEnd(s, StepStates(s, d)[m]) == StepEnd(s, d)
  }

  /** Interrupted after any write of any run that would return. */
  ghost predicate Restartable(s: Structured) {
    forall d: Schema, m: nat :: RestartsFrom(s, d, m)
  }

  /**
   * The order that makes a step restartable: columns added to a table before
   * the same step creates it are columns it ends up with anyway. A table the
   * step cannot start without, because it is its guard or because an unguarded
   * addition comes first, is never created by it.
   */
  ghost predicate CreatesBeforeAdding(s: Structured) {
    forall t | Created(s.actions, t).Some? && !NeedsFirst(s.actions, t) && s.guard != Some(t) ::
      Added(s.actions, t) <= Created(s.actions, t).value + AddedAfter(s.actions, t)
  }

  lemma SameColumns(d: Schema, e: Schema)
    requires forall t :: Columns(d, t) == Columns(e, t)
    ensures d == e
  {
    assert forall t :: t in d <==> Columns(d, t).Some?;
    assert forall t :: t in e <==> Columns(e, t).Some?;
    forall t | t in d ensures d[t] == e[t] {
      assert Columns(d, t) == Some(d[t]);
    }
  }

  /** One table, after an `up` that was cut at `e` and run again, and after one that was not. */
  lemma TableConverges(actions: seq<Action>, d: Schema, e: Schema, t: string)
    requires Completes(actions, d) && Completes(actions, e) && Between(actions, d, e, t)
    requires t !in d && t in e && Created(actions, t).Some? ==>
      Added(actions, t) <= Created(actions, t).value + AddedAfter(actions, t)
    ensures Columns(End(actions, e), t) == Columns(End(actions, d), t)
  {
    TableAfterUp(actions, d, t);
    TableAfterUp(actions, e, t);
    AfterIsAdded(actions, t);
    if t in d {
      assert e[t] + Added(actions, t) == d[t] + Added(actions, t);
    } else if t in e {
      assert e[t] + Added(actions, t) == Created(actions, t).value + AddedAfter(actions, t);
    }
  }

  /** Run again from a schema it passed through, an `up` that would have returned returns. */
  lemma CompletesAgain(actions: seq<Action>, d: Schema, m: nat)
    requires Completes(actions, d) && m < |Passing(actions, d)|
    ensures Completes(actions, Passing(actions, d)[m])
  {
    var e := Passing(actions, d)[m];
    forall t | NeedsFirst(actions, t) ensures t in e {
      CompletesFinds(actions, d, t);
      PassingIsBetween(actions, d, m, t);
    }
    FindsCompletes(actions, e);
  }

  lemma AllTablesConverge(actions: seq<Action>, d: Schema, e: Schema)
    requires Completes(actions, d) && Completes(actions, e)
    requires forall t: string :: Between(actions, d, e, t)
    requires forall t: string | t !in d && Created(actions, t).Some? && !NeedsFirst(actions, t) ::
      Added(actions, t) <= Created(actions, t).value + AddedAfter(actions, t)
    ensures End(actions, e) == End(actions, d)
  {
    forall t: string ensures Columns(End(actions, e), t) == Columns(End(actions, d), t) {
      assert Between(actions, d, e, t);
      TableConverges(actions, d, e, t);
    }
    SameColumns(End(actions, e), End(actions, d));
  }

  /** Past its opening guard, what a step does is its actions. */
  lemma OpenStep(s: Structured, d: Schema)
    requires Opens(s, d)
    ensures StepStates(s, d) == Passing(s.actions, d) && StepEnd(s, d) == End(s.actions, d)
    ensures StepCompletes(s, d) == Completes(s.actions, d)
  {
  }

  lemma OrderedStepRestarts(s: Structured, d: Schema, m: nat)
    requires CreatesBeforeAdding(s)
    ensures RestartsFrom(s, d, m)
  {
    if Opens(s, d) {
      OpenStep(s, d);
      if Completes(s.actions, d) && m < |Passing(s.actions, d)| {
        var e := Passing(s.actions, d)[m];
        forall t: string ensures Between(s.actions, d, e, t) { PassingIsBetween(s.actions, d, m, t); }
        if s.guard.Some? { assert Between(s.actions, d, e, s.guard.value); }
        OpenStep(s, e);
        CompletesAgain(s.actions, d, m);
        AllTablesConverge(s.actions, d, e);
      }
    }
  }

  lemma {:induction false} AfterIsAdded(actions: seq<Action>, t: string)
    ensures AddedAfter(actions, t) <= Added(actions, t)
  {
    if actions != [] { AfterIsAdded(actions[1..], t); }
  }

  function Tables(actions: seq<Action>): set<string> {
    if actions == [] then {} else {actions[0].table} + Tables(actions[1..])
  }

  lemma {:induction false} NeededIsNamed(actions: seq<Action>, t: string)
    ensures NeedsFirst(actions, t) ==> t in Tables(actions)
  {
    if actions != [] { NeededIsNamed(actions[1..], t); }
  }

  /** Every table the step names but one. */
  function Others(s: Structured, t: string): set<string> {
    Tables(s.actions) + (if s.guard.Some? then {s.guard.value} else {}) - {t}
  }

  /** A schema with those tables, each without a column. */
  function AllBut(s: Structured, t: string): Schema {
    map u | u in Others(s, t) :: {}
  }

  lemma AllButCompletes(s: Structured, t: string)
    requires !NeedsFirst(s.actions, t) && s.guard != Some(t)
    ensures Opens(s, AllBut(s, t)) && Completes(s.actions, AllBut(s, t)) && t !in AllBut(s, t)
  {
    forall u | NeedsFirst(s.actions, u) ensures u in AllBut(s, t) { NeededIsNamed(s.actions, u); }
    FindsCompletes(s.actions, AllBut(s, t));
  }

  /** Run again after it had run, such an `up` adds what the creation had left out. */
  lemma AddsOnSecondRun(actions: seq<Action>, d: Schema, t: string)
    requires Completes(actions, d) && Completes(actions, End(actions, d)) && t !in d && Created(actions, t).Some?
    requires !(Added(actions, t) <= Created(actions, t).value + AddedAfter(actions, t))
    ensures End(actions, End(actions, d)) != End(actions, d)
  {
    var e := End(actions, d);
    TableAfterUp(actions, d, t);
    TableAfterUp(actions, e, t);
    assert Columns(End(actions, e), t) != Columns(e, t);
  }

  lemma GuardStays(s: Structured, d: Schema)
    requires Opens(s, d) && Completes(s.actions, d)
    ensures Opens(s, End(s.actions, d))
  {
    if s.guard.Some? { TableAfterUp(s.actions, d, s.guard.value); }
  }

  /** Where the order is broken, the schema that shows it: every other table present, this one missing. */
  lemma DisorderedStepDiverges(s: Structured, t: string)
    requires Created(s.actions, t).Some? && !NeedsFirst(s.actions, t) && s.guard != Some(t)
    requires !(Added(s.actions, t) <= Created(s.actions, t).value + AddedAfter(s.actions, t))
    ensures !RestartsFrom(s, AllBut(s, t), |StepStates(s, AllBut(s, t))| - 1)
  {
    var d := AllBut(s, t);
    var e := End(s.actions, d);
    AllButCompletes(s, t);
    GuardStays(s, d);
    OpenStep(s, d);
    OpenStep(s, e);
    if Completes(s.actions, e) { AddsOnSecondRun(s.actions, d, t); }
  }

  /** A step of this kind may be interrupted anywhere and run again if and only if it creates before it adds. */
  lemma RestartableIff(s: Structured)
    ensures Restartable(s) <==> CreatesBeforeAdding(s)
  {
    if CreatesBeforeAdding(s) {
      forall d: Schema, m: nat ensures RestartsFrom(s, d, m) { OrderedStepRestarts(s, d, m); }
    } else {
      var t :| Created(s.actions, t).Some? && !NeedsFirst(s.actions, t) && s.guard != Some(t)
        && !(Added(s.actions, t) <= Created(s.actions, t).value + AddedAfter(s.actions, t));
      DisorderedStepDiverges(s, t);
    }
  }

  // ----- `isApplied` -----

  predicate ActionApplied(a: Action, d: Schema) {
    match a
    case CreateIfMissing(table, _) => table in d
    case AddMissing(table, names, guarded) =>
      if table in d then Missing(d, table, names) == [] else guarded || names == []
  }

  predicate IsApplied(s: Structured, d: Schema) {
    !Opens(s, d) || forall i | 0 <= i < |s.actions| :: ActionApplied(s.actions[i], d)
  }

  lemma {:induction false} AppliedWritesNothing(actions: seq<Action>, d: Schema)
    requires forall i | 0 <= i < |actions| :: ActionApplied(actions[i], d)
    ensures Completes(actions, d) && End(actions, d) == d
  {
    if actions != [] {
      assert ActionApplied(actions[0], d);
      assert Writes(actions[0], d) == [];
      forall i | 0 <= i < |actions[1..]| ensures ActionApplied(actions[1..][i], d) {
        assert actions[1..][i] == actions[i + 1];
      }
      AppliedWritesNothing(actions[1..], d);
      EndUnfolds(actions, d);
    }
  }

  /** When `isApplied` answers yes, running `up` would change nothing. */
  lemma IsAppliedIsSound(s: Structured, d: Schema)
    requires IsApplied(s, d)
    ensures StepCompletes(s, d) && StepEnd(s, d) == d
  {
    if Opens(s, d) { AppliedWritesNothing(s.actions, d); }
  }

  /** And after an `up` that returned, `isApplied` answers yes, provided the step creates before it adds. */
  lemma AppliedAfterUp(s: Structured, d: Schema)
    requires CreatesBeforeAdding(s) && StepCompletes(s, d)
    ensures IsApplied(s, StepEnd(s, d))
  {
    var e := StepEnd(s, d);
    if Opens(s, d) {
      forall i | 0 <= i < |s.actions| ensures ActionApplied(s.actions[i], e) {
        var t := s.actions[i].table;
        TableAfterUp(s.actions, d, t);
        if t !in d && NeedsFirst(s.actions, t) { CompletesFinds(s.actions, d, t); }
        ActionIsAccounted(s.actions, i);
        AfterIsAdded(s.actions, t);
        if s.actions[i].AddMissing? && t in e {
          AllThere(e, t, s.actions[i].names);
        }
      }
    }
  }

  lemma {:induction false} ActionIsAccounted(actions: seq<Action>, i: nat)
    requires i < |actions|
    ensures actions[i].CreateIfMissing? ==> Created(actions, actions[i].table).Some?
    ensures actions[i].AddMissing? ==> Names(actions[i].names) <= Added(actions, actions[i].table)
    ensures actions[i].AddMissing? && !actions[i].guarded && actions[i].names != [] ==>
      NeedsFirst(actions, actions[i].table) || Created(actions, actions[i].table).Some?
  {
    if i > 0 {
      assert actions[1..][i - 1] == actions[i];
      ActionIsAccounted(actions[1..], i - 1);
    }
  }

  lemma {:induction false} AllThere(d: Schema, table: string, names: seq<string>)
    requires table in d && Names(names) <= d[table]
    ensures Missing(d, table, names) == []
  {
    if names != [] {
      assert names[0] in Names(names);
      AllThere(d, table, names[1..]);
    }
  }
}
