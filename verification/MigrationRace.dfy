/**
 * Any number of boots of `schema.js` against one database, interleaved write by
 * write. What an `up` does to the schema is left open: it may return or throw
 * at any time, and `isApplied` may answer anything.
 */
module MigrationRace {
  import opened Prelude

  datatype Phase =
    | Opening
    | Reading(isNewLedger: bool)
    | Looping
    | RunningUp
    | Recording
    | Returned
    | Threw
    | Beaten // its insert broke the primary key of the ledger
    | Crashed

  /**
   * One boot: where it is, the ledger as it read it, and what it has done so
   * far: `up`s that returned, steps it took as present, ids it recorded, and
   * `up`s that returned when another boot had already recorded the step.
   */
  datatype Boot = Boot(phase: Phase, applied: seq<string>, baseline: bool, index: nat,
                       ups: nat, taken: nat, records: nat, redundant: nat)

  datatype System = System(hasLedger: bool, ledger: seq<string>, boots: seq<Boot>)

  /** `answer`: what the database replies, or whether the `up` returns. */
  datatype Event = Spawn | Step(boot: nat, answer: bool) | Crash(boot: nat)

  const FRESH := Boot(Opening, [], false, 0, 0, 0, 0, 0)

  function Update(s: System, i: nat, b: Boot): System
    requires i < |s.boots|
  {
    s.(boots := s.boots[i := b])
  }

  /** The next thing boot `i` does. */
  function Advance(ids: seq<string>, s: System, i: nat, answer: bool): System
    requires i < |s.boots|
  {
    var b := s.boots[i];
    match b.phase
    case Opening => Update(s.(hasLedger := true), i, b.(phase := Reading(!s.hasLedger)))
    case Reading(isNewLedger) =>
      Update(s, i, b.(phase := Looping, applied := s.ledger, baseline := isNewLedger && answer))
    case Looping =>
      if b.index >= |ids| then Update(s, i, b.(phase := Returned))
      else if ids[b.index] in b.applied then Update(s, i, b.(index := b.index + 1))
      else if b.baseline && answer then Update(s, i, b.(phase := Recording, taken := b.taken + 1))
      else Update(s, i, b.(phase := RunningUp))
    case RunningUp =>
      if b.index < |ids| && answer then
        Update(s, i, b.(phase := Recording, ups := b.ups + 1,
                        redundant := b.redundant + if ids[b.index] in s.ledger then 1 else 0))
      else Update(s, i, b.(phase := Threw))
    case Recording =>
      if b.index >= |ids| || ids[b.index] in s.ledger then Update(s, i, b.(phase := Beaten))
      else
        Update(s.(ledger := s.ledger + [ids[b.index]]), i,
               b.(phase := Looping, index := b.index + 1, records := b.records + 1))
    case _ => s
  }

  function Apply(ids: seq<string>, s: System, e: Event): System {
    match e
    case Spawn => s.(boots := s.boots + [FRESH])
    case Step(i, answer) => if i < |s.boots| then Advance(ids, s, i, answer) else s
    case Crash(i) => if i < |s.boots| then Update(s, i, s.boots[i].(phase := Crashed)) else s
  }

  function Run(ids: seq<string>, s: System, events: seq<Event>): System
    decreases |events|
  {
    if events == [] then s else Run(ids, Apply(ids, s, events[0]), events[1..])
  }

  /** The ids a ledger lacks, in list order. */
  function Pending(ids: seq<string>, ledger: seq<string>): seq<string> {
    if ids == [] then []
    else (if ids[0] in ledger then [] else [ids[0]]) + Pending(ids[1..], ledger)
  }

  /** The ledger has grown by the first `n` of the ids it lacked. */
  predicate GrownBy(ids: seq<string>, start: seq<string>, ledger: seq<string>, n: nat) {
    n <= |Pending(ids, start)| && ledger == start + Pending(ids, start)[..n]
  }

  /** The ledger has grown by ids it lacked, in list order, without a gap. */
  ghost predicate Grown(ids: seq<string>, start: seq<string>, ledger: seq<string>) {
    exists n: nat :: GrownBy(ids, start, ledger, n)
  }

  /** The first id of the list that the ledger lacks is the next one pending. */
  lemma {:induction false} FirstMissingIsNext(ids: seq<string>, start: seq<string>, n: nat, i: nat)
    requires Distinct(ids) && n <= |Pending(ids, start)| && i < |ids|
    requires forall k | 0 <= k < i :: ids[k] in start + Pending(ids, start)[..n]
    requires ids[i] !in start + Pending(ids, start)[..n]
    ensures n < |Pending(ids, start)| && Pending(ids, start)[n] == ids[i]
  {
    var tail := ids[1..];
    var rest := Pending(tail, start);
    if ids[0] in start {
      assert Pending(ids, start) == rest;
      forall k | 0 <= k < i - 1 ensures tail[k] in start + rest[..n] { assert tail[k] == ids[k + 1]; }
      FirstMissingIsNext(tail, start, n, i - 1);
    } else {
      assert Pending(ids, start) == [ids[0]] + rest;
      assert n > 0 ==> Pending(ids, start)[..n][0] == ids[0];
      if i > 0 {
        assert n > 0 by { assert ids[0] in start + Pending(ids, start)[..n]; }
        assert Pending(ids, start)[..n] == [ids[0]] + rest[..n - 1];
        forall k | 0 <= k < i - 1 ensures tail[k] in start + rest[..n - 1] {
          assert tail[k] == ids[k + 1] != ids[0];
          assert ids[k + 1] in start + Pending(ids, start)[..n];
        }
        assert tail[i - 1] !in start + rest[..n - 1];
        FirstMissingIsNext(tail, start, n - 1, i - 1);
      }
    }
  }

  /** A ledger that holds every id has grown by all of them. */
  lemma {:induction false} AllPendingRecorded(ids: seq<string>, start: seq<string>, n: nat)
    requires Distinct(ids) && n <= |Pending(ids, start)|
    requires forall k | 0 <= k < |ids| :: ids[k] in start + Pending(ids, start)[..n]
    ensures n == |Pending(ids, start)|
  {
    if ids != [] {
      var tail := ids[1..];
      var rest := Pending(tail, start);
      if ids[0] in start {
        assert Pending(ids, start) == rest;
        forall k | 0 <= k < |tail| ensures tail[k] in start + rest[..n] { assert tail[k] == ids[k + 1]; }
        AllPendingRecorded(tail, start, n);
      } else {
        assert Pending(ids, start) == [ids[0]] + rest;
        assert n > 0 by { assert ids[0] in start + Pending(ids, start)[..n]; }
        assert Pending(ids, start)[..n] == [ids[0]] + rest[..n - 1];
        forall k | 0 <= k < |tail| ensures tail[k] in start + rest[..n - 1] {
          assert tail[k] == ids[k + 1] != ids[0];
          assert ids[k + 1] in start + Pending(ids, start)[..n];
        }
        AllPendingRecorded(tail, start, n - 1);
      }
    }
  }

  /** What a boot has done balances with what it has recorded, phase by phase. */
  predicate Balanced(ids: seq<string>, ledger: seq<string>, b: Boot) {
    match b.phase
    case Recording =>
      b.index < |ids| && b.ups + b.taken == b.records + 1
      && b.redundant <= (if ids[b.index] in ledger then 1 else 0)
    case Beaten => b.ups + b.taken == b.records + 1 && b.redundant <= 1
    case Crashed => b.records <= b.ups + b.taken <= b.records + 1 && b.redundant <= 1
    case RunningUp => b.index < |ids| && b.ups + b.taken == b.records && b.redundant == 0
    case Returned => b.index == |ids| && b.ups + b.taken == b.records && b.redundant == 0
    case _ => b.ups + b.taken == b.records && b.redundant == 0
  }

  /** What holds of one boot: it has passed only recorded steps, and its counts balance. */
  ghost predicate Sound(ids: seq<string>, ledger: seq<string>, b: Boot) {
    && b.index <= |ids|
    && (forall k | 0 <= k < b.index :: ids[k] in ledger)
    && (b.phase.Looping? || b.phase.RunningUp? || b.phase.Recording? ==> forall id | id in b.applied :: id in ledger)
    && Balanced(ids, ledger, b)
  }

  function Recorded(boots: seq<Boot>): nat {
    if boots == [] then 0 else boots[0].records + Recorded(boots[1..])
  }

  ghost predicate Inv(ids: seq<string>, start: System, s: System) {
    && Grown(ids, start.ledger, s.ledger)
    && (forall k | 0 <= k < |s.boots| :: Sound(ids, s.ledger, s.boots[k]))
    && |s.ledger| == |start.ledger| + Recorded(s.boots)
  }

  lemma {:induction false} RecordedUpdate(boots: seq<Boot>, i: nat, b: Boot)
    requires i < |boots|
    ensures Recorded(boots[i := b]) == Recorded(boots) - boots[i].records + b.records
  {
    if i == 0 {
      assert boots[0 := b][1..] == boots[1..];
    } else {
      assert boots[i := b][1..] == boots[1..][i - 1 := b];
      RecordedUpdate(boots[1..], i - 1, b);
    }
  }

  lemma {:induction false} RecordedAppend(boots: seq<Boot>, b: Boot)
    ensures Recorded(boots + [b]) == Recorded(boots) + b.records
  {
    if boots == [] {
      assert boots + [b] == [b];
    } else {
      assert (boots + [b])[1..] == boots[1..] + [b];
      RecordedAppend(boots[1..], b);
    }
  }

  /** A boot stays sound when the ledger grows under it. */
  lemma GrowthKeepsSound(ids: seq<string>, ledger: seq<string>, id: string, b: Boot)
    requires Sound(ids, ledger, b)
    ensures Sound(ids, ledger + [id], b)
  {
  }

  lemma GrowsByNext(ids: seq<string>, start: seq<string>, ledger: seq<string>, i: nat)
    requires Distinct(ids) && Grown(ids, start, ledger) && i < |ids|
    requires (forall k | 0 <= k < i :: ids[k] in ledger) && ids[i] !in ledger
    ensures Grown(ids, start, ledger + [ids[i]])
  {
    var n: nat :| GrownBy(ids, start, ledger, n);
    FirstMissingIsNext(ids, start, n, i);
    var pending := Pending(ids, start);
    assert pending[..n + 1] == pending[..n] + [pending[n]];
    assert ledger + [ids[i]] == start + pending[..n + 1];
    assert GrownBy(ids, start, ledger + [ids[i]], n + 1);
  }

  lemma RecordSound(ids: seq<string>, ledger: seq<string>, b: Boot)
    requires Sound(ids, ledger, b) && b.phase.Recording? && ids[b.index] !in ledger
    ensures Sound(ids, ledger + [ids[b.index]], b.(phase := Looping, index := b.index + 1, records := b.records + 1))
  {
  }

  lemma RecordKeeps(ids: seq<string>, start: System, s: System, i: nat)
    requires Distinct(ids) && Inv(ids, start, s)
    requires i < |s.boots| && s.boots[i].phase.Recording? && s.boots[i].index < |ids|
    requires ids[s.boots[i].index] !in s.ledger
    ensures var b := s.boots[i];
      Inv(ids, start, Update(s.(ledger := s.ledger + [ids[b.index]]), i,
                             b.(phase := Looping, index := b.index + 1, records := b.records + 1)))
  {
    var b := s.boots[i];
    var ledger := s.ledger + [ids[b.index]];
    var after := b.(phase := Looping, index := b.index + 1, records := b.records + 1);
    GrowsByNext(ids, start.ledger, s.ledger, b.index);
    RecordedUpdate(s.boots, i, after);
    RecordSound(ids, s.ledger, b);
    forall k | 0 <= k < |s.boots| && k != i ensures Sound(ids, ledger, s.boots[k]) {
      GrowthKeepsSound(ids, s.ledger, ids[b.index], s.boots[k]);
    }
  }

  /** The steps of the loop keep the boot that takes them sound. */
  lemma LoopSound(ids: seq<string>, s: System, i: nat, answer: bool)
    requires i < |s.boots| && Sound(ids, s.ledger, s.boots[i]) && s.boots[i].phase.Looping?
    ensures Sound(ids, s.ledger, Advance(ids, s, i, answer).boots[i])
  {
    var b := s.boots[i];
    if b.index < |ids| && ids[b.index] in b.applied {
      assert ids[b.index] in s.ledger;
      assert forall k | 0 <= k < b.index + 1 :: ids[k] in s.ledger;
    }
  }

  /** A step that writes nothing to the ledger keeps the boot that takes it sound. */
  lemma AdvanceSound(ids: seq<string>, s: System, i: nat, answer: bool)
    requires i < |s.boots| && Sound(ids, s.ledger, s.boots[i])
    requires Advance(ids, s, i, answer).ledger == s.ledger
    ensures |Advance(ids, s, i, answer).boots| == |s.boots|
    ensures Sound(ids, s.ledger, Advance(ids, s, i, answer).boots[i])
    ensures Advance(ids, s, i, answer).boots[i].records == s.boots[i].records
  {
    if s.boots[i].phase.Looping? { LoopSound(ids, s, i, answer); }
  }

  lemma ChangeKeeps(ids: seq<string>, start: System, s: System, i: nat, b: Boot, hasLedger: bool)
    requires Inv(ids, start, s) && i < |s.boots|
    requires Sound(ids, s.ledger, b) && b.records == s.boots[i].records
    ensures Inv(ids, start, Update(s.(hasLedger := hasLedger), i, b))
  {
    RecordedUpdate(s.boots, i, b);
  }

  lemma SpawnKeeps(ids: seq<string>, start: System, s: System)
    requires Inv(ids, start, s)
    ensures Inv(ids, start, s.(boots := s.boots + [FRESH]))
  {
    RecordedAppend(s.boots, FRESH);
    assert Sound(ids, s.ledger, FRESH);
  }

  predicate AboutToRecord(ids: seq<string>, s: System, i: nat) {
    i < |s.boots| && s.boots[i].phase.Recording? && s.boots[i].index < |ids| && ids[s.boots[i].index] !in s.ledger
  }

  lemma RecordingStepKeeps(ids: seq<string>, start: System, s: System, i: nat, answer: bool)
    requires Distinct(ids) && Inv(ids, start, s) && AboutToRecord(ids, s, i)
    ensures Inv(ids, start, Advance(ids, s, i, answer))
  {
    RecordKeeps(ids, start, s, i);
  }

  lemma QuietStepKeeps(ids: seq<string>, start: System, s: System, i: nat, answer: bool)
    requires Inv(ids, start, s) && i < |s.boots| && !AboutToRecord(ids, s, i)
    ensures Inv(ids, start, Advance(ids, s, i, answer))
  {
    var after := Advance(ids, s, i, answer);
    assert after.ledger == s.ledger;
    AdvanceSound(ids, s, i, answer);
    assert after == Update(s.(hasLedger := after.hasLedger), i, after.boots[i]);
    ChangeKeeps(ids, start, s, i, after.boots[i], after.hasLedger);
  }

  lemma ApplyKeeps(ids: seq<string>, start: System, s: System, e: Event)
    requires Distinct(ids) && Inv(ids, start, s)
    ensures Inv(ids, start, Apply(ids, s, e))
  {
    match e
    case Spawn => SpawnKeeps(ids, start, s);
    case Step(i, answer) =>
      if i < |s.boots| {
        if AboutToRecord(ids, s, i) {
          RecordingStepKeeps(ids, start, s, i, answer);
        } else {
          QuietStepKeeps(ids, start, s, i, answer);
        }
      }
    case Crash(i) =>
      if i < |s.boots| { ChangeKeeps(ids, start, s, i, s.boots[i].(phase := Crashed), s.hasLedger); }
  }

  lemma {:induction false} RunKeeps(ids: seq<string>, start: System, s: System, events: seq<Event>)
    requires Distinct(ids) && Inv(ids, start, s)
    ensures Inv(ids, start, Run(ids, s, events))
    decreases |events|
  {
    if events != [] {
      ApplyKeeps(ids, start, s, events[0]);
      RunKeeps(ids, start, Apply(ids, s, events[0]), events[1..]);
    }
  }

  /**
   * In every interleaving of any number of boots, from any ledger: the ids are
   * recorded in list order, each at most once; a boot that returns leaves the
   * ledger complete and ran nothing for another; a boot runs at most one `up`
   * for a step another has recorded, and it does not get past recording it; and
   * the boots together ran at most one `up` per id recorded, and one more each
   * for those that were beaten or cut off.
   */
  lemma InterleavedBoots(ids: seq<string>, start: System, events: seq<Event>)
    requires Distinct(ids) && start.boots == []
    ensures var s := Run(ids, start, events);
      && Grown(ids, start.ledger, s.ledger)
      && |s.ledger| == |start.ledger| + Recorded(s.boots)
      && forall b | b in s.boots ::
           && b.records <= b.ups + b.taken <= b.records + 1
           && b.redundant <= 1
           && (b.redundant == 1 ==> b.phase.Recording? || b.phase.Beaten? || b.phase.Crashed?)
           && (b.phase.Returned? ==> s.ledger == start.ledger + Pending(ids, start.ledger))
  {
    var s := Run(ids, start, events);
    assert Pending(ids, start.ledger)[..0] == [];
    assert GrownBy(ids, start.ledger, start.ledger, 0);
    RunKeeps(ids, start, start, events);
    var n: nat :| GrownBy(ids, start.ledger, s.ledger, n);
    forall b | b in s.boots ensures Sound(ids, s.ledger, b) {
      var k :| 0 <= k < |s.boots| && s.boots[k] == b;
    }
    forall b | b in s.boots && b.phase.Returned?
      ensures s.ledger == start.ledger + Pending(ids, start.ledger)
    {
      AllPendingRecorded(ids, start.ledger, n);
    }
  }

  // ----- A boot on its own -----

  function Steps(i: nat, n: nat): seq<Event> {
    seq(n, k => Step(i, true))
  }

  lemma OneMoreStep(ids: seq<string>, s: System, i: nat, n: nat)
    ensures Run(ids, s, Steps(i, n + 1)) == Run(ids, Apply(ids, s, Step(i, true)), Steps(i, n))
  {
    assert Steps(i, n + 1)[0] == Step(i, true) && Steps(i, n + 1)[1..] == Steps(i, n);
  }

  /** A boot in its loop that nobody has overtaken: the ids ahead of it are in the ledger as it read it. */
  ghost predicate Unhindered(ids: seq<string>, s: System, i: nat) {
    && i < |s.boots|
    && var b := s.boots[i];
       && (b.phase.Looping? || b.phase.RunningUp? || b.phase.Recording?) && b.index <= |ids|
       && (!b.phase.Looping? ==> b.index < |ids| && ids[b.index] !in b.applied)
       && forall k | b.index <= k < |ids| :: ids[k] in s.ledger <==> ids[k] in b.applied
  }

  function StagesLeft(b: Boot): nat {
    match b.phase
    case Looping => 2
    case RunningUp => 1
    case _ => 0
  }

  lemma UnhinderedGoesOn(ids: seq<string>, s: System, i: nat)
    requires Distinct(ids) && Unhindered(ids, s, i)
    ensures var t := Apply(ids, s, Step(i, true));
      && |t.boots| == |s.boots|
      && if s.boots[i].phase.Looping? && s.boots[i].index == |ids| then t.boots[i].phase.Returned?
         else Unhindered(ids, t, i)
              && (t.boots[i].index > s.boots[i].index
                  || (t.boots[i].index == s.boots[i].index && StagesLeft(t.boots[i]) < StagesLeft(s.boots[i])))
  {
  }

  lemma {:induction false} UnhinderedReturns(ids: seq<string>, s: System, i: nat) returns (n: nat)
    requires Distinct(ids) && Unhindered(ids, s, i)
    ensures var t := Run(ids, s, Steps(i, n)); |t.boots| == |s.boots| && t.boots[i].phase.Returned?
    decreases |ids| - s.boots[i].index, StagesLeft(s.boots[i])
  {
    var t := Apply(ids, s, Step(i, true));
    UnhinderedGoesOn(ids, s, i);
    if t.boots[i].phase.Returned? {
      n := 1;
      assert Run(ids, t, Steps(i, 0)) == t;
    } else {
      var m := UnhinderedReturns(ids, t, i);
      n := m + 1;
    }
    OneMoreStep(ids, s, i, n - 1);
  }

  /** A boot on its own whose `up`s return comes to an end, with every id recorded. */
  lemma LoneBootReturns(ids: seq<string>, start: System) returns (n: nat)
    requires Distinct(ids) && start.boots == []
    ensures var s := Run(ids, start, [Spawn] + Steps(0, n));
      |s.boots| == 1 && s.boots[0].phase.Returned? && s.ledger == start.ledger + Pending(ids, start.ledger)
  {
    var spawned := Apply(ids, start, Spawn);
    assert spawned.boots == [FRESH];
    var reading := Apply(ids, spawned, Step(0, true));
    var looping := Apply(ids, reading, Step(0, true));
    assert Unhindered(ids, looping, 0);
    var m := UnhinderedReturns(ids, looping, 0);
    n := m + 2;
    OneMoreStep(ids, spawned, 0, m + 1);
    OneMoreStep(ids, reading, 0, m);
    assert ([Spawn] + Steps(0, n))[0] == Spawn && ([Spawn] + Steps(0, n))[1..] == Steps(0, n);
    InterleavedBoots(ids, start, [Spawn] + Steps(0, n));
    var s := Run(ids, start, [Spawn] + Steps(0, n));
    assert s.boots[0] in s.boots;
  }

  /** What is pending has no id twice, none that the ledger already had, and nothing from outside the list. */
  lemma {:induction false} PendingIsEachOnce(ids: seq<string>, ledger: seq<string>)
    requires Distinct(ids)
    ensures Distinct(Pending(ids, ledger))
    ensures forall id :: id in Pending(ids, ledger) <==> id in ids && id !in ledger
  {
    if ids != [] {
      PendingIsEachOnce(ids[1..], ledger);
      assert ids == [ids[0]] + ids[1..];
      assert ids[0] !in ids[1..];
    }
  }
}
