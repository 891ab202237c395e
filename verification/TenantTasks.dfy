/**
 * Tasks that run interleaved over one store, each inside the scopes it opened
 * with `runInTenant` and `runUnscoped`, and the loops of `tenantJobs.js`.
 */
module TenantTasks {
  import opened Prelude
  import opened TenantStore

  /** What a task does next depends on every answer it has had so far. */
  type Program = seq<Answer> -> Command

  /** A task: the context it was started in, the scopes it opened since, and its answers. */
  datatype Task = Task(program: Program, start: Context, scopes: seq<Context>, answers: seq<Answer>) {
    function Current(): Context {
      if scopes == [] then start else scopes[|scopes| - 1]
    }

    function Next(): Command {
      program(answers)
    }

    predicate Finished() {
      Next().Return? || Next().Raise?
    }
  }

  /** One step: a scope is entered or left, or a call runs in the scope of the moment. */
  function TaskStep(cfg: Config, s: Store, t: Task): (Store, Task) {
    match t.Next()
    case EnterTenant(id) =>
      // `runInTenant` refuses anything but a positive id.
      if id > 0 then (s, t.(scopes := t.scopes + [InTenant(id)], answers := t.answers + [Ok]))
      else (s, t.(answers := t.answers + [Threw]))
    case EnterUnscoped(reason) =>
      if reason != "" then (s, t.(scopes := t.scopes + [Unscoped(reason)], answers := t.answers + [Ok]))
      else (s, t.(answers := t.answers + [Threw]))
    case Leave =>
      if t.scopes == [] then (s, t.(answers := t.answers + [Threw]))
      else (s, t.(scopes := t.scopes[..|t.scopes| - 1], answers := t.answers + [Ok]))
    case Return(_) => (s, t)
    case Raise => (s, t)
    case cmd =>
      var (s', answer) := Exec(cfg, s, t.Current(), cmd);
      (s', t.(answers := t.answers + [answer]))
  }

  /** A task is in a provider's scope from a positive id on, and in an unscoped stretch from a reason on; otherwise the call throws. */
  lemma EnteringMeaning(cfg: Config, s: Store, t: Task)
    requires t.Next().EnterTenant? || t.Next().EnterUnscoped?
    ensures var (s', t') := TaskStep(cfg, s, t);
      var entered := if t.Next().EnterTenant? then t.Next().id > 0 else t.Next().reason != "";
      && s' == s && t'.answers == t.answers + [if entered then Ok else Threw]
      && (!entered ==> t'.scopes == t.scopes && t'.Current() == t.Current())
      && (entered && t.Next().EnterTenant? ==> t'.Current() == InTenant(t.Next().id))
      && (entered && t.Next().EnterUnscoped? ==> t'.Current() == Unscoped(t.Next().reason))
  {
  }

  /** Leaving puts back the scope there was before the last one entered, whatever was called in between. */
  lemma LeavingRestores(cfg: Config, s: Store, before: Task, inside: Task)
    requires before.Next().EnterTenant? || before.Next().EnterUnscoped?
    requires TaskStep(cfg, s, before).1.scopes == inside.scopes != before.scopes && inside.start == before.start
    requires inside.Next().Leave?
    ensures var t := TaskStep(cfg, s, inside).1; t.scopes == before.scopes && t.Current() == before.Current()
  {
  }

  datatype Event = Run(task: nat) | Tick(now: int)

  datatype System = System(store: Store, tasks: map<nat, Task>)

  function SystemStep(cfg: Config, sys: System, ev: Event): System {
    match ev
    case Tick(now) => sys.(store := sys.store.(now := now))
    case Run(id) =>
      if id !in sys.tasks then sys
      else
        var (s, t) := TaskStep(cfg, sys.store, sys.tasks[id]);
        System(s, sys.tasks[id := t])
  }

  /** The system after a schedule: any interleaving of the tasks and of the clock. */
  function Execute(cfg: Config, sys: System, schedule: seq<Event>): System
    decreases |schedule|
  {
    if schedule == [] then sys else Execute(cfg, SystemStep(cfg, sys, schedule[0]), schedule[1..])
  }

  /** A program that, whatever it is answered, only opens `p`'s scope, stays off shared tables and chains nothing out of scope. */
  ghost predicate Confined(cfg: Config, program: Program, p: int) {
    forall h: seq<Answer> {:trigger program(h)} ::
      && OnScoped(cfg, program(h)) && InScope(ChainOf(program(h)), p)
      && (program(h).EnterTenant? && program(h).id > 0 ==> program(h).id == p)
  }

  predicate WithinScope(ctx: Context, p: int) {
    ctx.InTenant? ==> ctx.id == p
  }

  ghost predicate BelongsTo(cfg: Config, t: Task, p: int) {
    && Confined(cfg, t.program, p)
    && WithinScope(t.start, p)
    && forall i | 0 <= i < |t.scopes| :: WithinScope(t.scopes[i], p)
  }

  /** Every task of the system is one provider's. */
  ghost predicate Owned(cfg: Config, sys: System, owner: map<nat, int>) {
    forall id | id in sys.tasks :: id in owner && BelongsTo(cfg, sys.tasks[id], owner[id])
  }

  /** What provider `p` can see: its partition and its own tasks, with every answer they had. */
  function View(cfg: Config, sys: System, owner: map<nat, int>, p: int): System {
    System(Partition(cfg, sys.store, p),
           map id | id in sys.tasks && id in owner && owner[id] == p :: sys.tasks[id])
  }

  /** One step of a provider's own task, on its partition and on the whole store. */
  lemma TaskStepOwn(cfg: Config, s: Store, t: Task, p: int)
    requires BelongsTo(cfg, t, p)
    ensures var (s', t') := TaskStep(cfg, s, t);
      && TaskStep(cfg, Partition(cfg, s, p), t) == (Partition(cfg, s', p), t')
      && BelongsTo(cfg, t', p)
  {
    var cmd := t.Next();
    assert OnScoped(cfg, t.program(t.answers));
    if t.Current().InTenant? {
      ExecOwn(cfg, s, p, cmd);
    } else {
      ExecOther(cfg, s, t.Current(), p, cmd);
    }
  }

  /** One step of another provider's task leaves `p`'s partition alone. */
  lemma TaskStepOther(cfg: Config, s: Store, t: Task, q: int, p: int)
    requires BelongsTo(cfg, t, q) && p != q
    ensures Partition(cfg, TaskStep(cfg, s, t).0, p) == Partition(cfg, s, p)
    ensures BelongsTo(cfg, TaskStep(cfg, s, t).1, q)
  {
    assert OnScoped(cfg, t.program(t.answers));
    ExecOther(cfg, s, t.Current(), p, t.Next());
  }

  lemma SystemStepView(cfg: Config, sys: System, owner: map<nat, int>, ev: Event, p: int)
    requires Owned(cfg, sys, owner)
    ensures Owned(cfg, SystemStep(cfg, sys, ev), owner)
    ensures View(cfg, SystemStep(cfg, sys, ev), owner, p) == SystemStep(cfg, View(cfg, sys, owner, p), ev)
  {
    var after := SystemStep(cfg, sys, ev);
    if ev.Run? && ev.task in sys.tasks {
      var t := sys.tasks[ev.task];
      var q := owner[ev.task];
      TaskStepOwn(cfg, sys.store, t, q);
      if q == p {
        assert ev.task in View(cfg, sys, owner, p).tasks;
      } else {
        TaskStepOther(cfg, sys.store, t, q, p);
      }
    }
    assert View(cfg, after, owner, p).tasks == SystemStep(cfg, View(cfg, sys, owner, p), ev).tasks;
  }

  /**
   * Noninterference. Under any schedule, what provider `p` sees of the shared
   * system - rows, cached values, and every answer its tasks were given - is
   * what it would have seen with its own tasks alone on its own partition.
   */
  lemma {:induction false} NonInterference(cfg: Config, sys: System, owner: map<nat, int>,
                                           schedule: seq<Event>, p: int)
    requires Owned(cfg, sys, owner)
    ensures View(cfg, Execute(cfg, sys, schedule), owner, p) == Execute(cfg, View(cfg, sys, owner, p), schedule)
    decreases |schedule|
  {
    if schedule != [] {
      SystemStepView(cfg, sys, owner, schedule[0], p);
      NonInterference(cfg, SystemStep(cfg, sys, schedule[0]), owner, schedule[1..], p);
    }
  }

  /** Two systems that agree on what `p` sees still agree after the same schedule. */
  lemma OthersDoNotMatter(cfg: Config, a: System, b: System, owner: map<nat, int>, schedule: seq<Event>, p: int)
    requires Owned(cfg, a, owner) && Owned(cfg, b, owner)
    requires View(cfg, a, owner, p) == View(cfg, b, owner, p)
    ensures View(cfg, Execute(cfg, a, schedule), owner, p) == View(cfg, Execute(cfg, b, schedule), owner, p)
  {
    NonInterference(cfg, a, owner, schedule, p);
    NonInterference(cfg, b, owner, schedule, p);
  }

  /** A task that never enters a provider: every row and cache entry of everybody stays as it was. */
  lemma {:induction false} UnscopedTasksChangeNothing(cfg: Config, sys: System, schedule: seq<Event>)
    requires forall id | id in sys.tasks :: !sys.tasks[id].start.InTenant? && NeverScoped(cfg, sys.tasks[id])
    ensures var after := Execute(cfg, sys, schedule);
      after.store.tables == sys.store.tables && after.store.cache == sys.store.cache
    decreases |schedule|
  {
    if schedule != [] {
      var ev := schedule[0];
      if ev.Run? && ev.task in sys.tasks {
        var t := sys.tasks[ev.task];
        assert OnScoped(cfg, t.program(t.answers));
        assert !t.program(t.answers).EnterTenant?;
        if TouchesData(t.Next()) {
          ExecWithoutScope(cfg, sys.store, t.Current(), t.Next());
        }
      }
      UnscopedTasksChangeNothing(cfg, SystemStep(cfg, sys, ev), schedule[1..]);
    }
  }

  ghost predicate NeverScoped(cfg: Config, t: Task) {
    && (forall h: seq<Answer> {:trigger t.program(h)} :: OnScoped(cfg, t.program(h)) && !t.program(h).EnterTenant?)
    && forall i | 0 <= i < |t.scopes| :: !t.scopes[i].InTenant?
  }

  // ----- Tasks that move between providers -----

  /** A call as it was made, the context in force and the command; or the clock moving on. */
  datatype Call = Call(ctx: Context, command: Command) | Clock(now: int)

  function Step(cfg: Config, s: Store, call: Call): (Store, Answer) {
    match call
    case Call(ctx, command) => Exec(cfg, s, ctx, command)
    case Clock(now) => (s.(now := now), Ok)
  }

  /** A run of calls, with the answer to each. */
  function Replay(cfg: Config, s: Store, calls: seq<Call>): (result: (Store, seq<Answer>))
    ensures |result.1| == |calls|
    decreases |calls|
  {
    if calls == [] then (s, [])
    else
      var (s', answer) := Step(cfg, s, calls[0]);
      var (s'', answers) := Replay(cfg, s', calls[1..]);
      (s'', [answer] + answers)
  }

  /** The calls made in `p`'s scope, and the clock, which is everybody's. */
  predicate Concerns(call: Call, p: int) {
    call.Clock? || call.ctx == InTenant(p)
  }

  function CallsOf(calls: seq<Call>, p: int): seq<Call> {
    Filter(calls, (c: Call) => Concerns(c, p))
  }

  /** The answers given to those. */
  function AnswersTo(calls: seq<Call>, answers: seq<Answer>, p: int): seq<Answer>
    requires |answers| == |calls|
  {
    if calls == [] then []
    else (if Concerns(calls[0], p) then [answers[0]] else []) + AnswersTo(calls[1..], answers[1..], p)
  }

  /** The call stays off the shared tables, and its chain in the scope it is made in. */
  ghost predicate StaysInScope(cfg: Config, call: Call) {
    call.Call? ==> OnScoped(cfg, call.command) && (call.ctx.InTenant? ==> InScope(ChainOf(call.command), call.ctx.id))
  }

  ghost predicate AllStayInScope(cfg: Config, calls: seq<Call>) {
    forall c | c in calls :: StaysInScope(cfg, c)
  }

  lemma StepProjects(cfg: Config, s: Store, call: Call, p: int)
    requires StaysInScope(cfg, call)
    ensures var (s', answer) := Step(cfg, s, call);
      if Concerns(call, p) then Step(cfg, Partition(cfg, s, p), call) == (Partition(cfg, s', p), answer)
      else Partition(cfg, s', p) == Partition(cfg, s, p)
  {
    if call.Call? {
      if call.ctx == InTenant(p) { ExecOwn(cfg, s, p, call.command); } else { ExecOther(cfg, s, call.ctx, p, call.command); }
    }
  }

  /**
   * Calls made in scopes of several providers, in one order: what `p` ends with,
   * and what the calls in its scope were answered, come from those calls alone.
   */
  lemma {:induction false} ReplayProjects(cfg: Config, s: Store, calls: seq<Call>, p: int)
    requires AllStayInScope(cfg, calls)
    ensures var (s', answers) := Replay(cfg, s, calls);
      Replay(cfg, Partition(cfg, s, p), CallsOf(calls, p)) == (Partition(cfg, s', p), AnswersTo(calls, answers, p))
    decreases |calls|
  {
    if calls != [] {
      var (s', answer) := Step(cfg, s, calls[0]);
      var rest := Replay(cfg, s', calls[1..]);
      assert ([answer] + rest.1)[1..] == rest.1;
      assert forall c | c in calls[1..] :: c in calls;
      ReplayProjects(cfg, s', calls[1..], p);
      StepProjects(cfg, s, calls[0], p);
      if Concerns(calls[0], p) {
        assert ([calls[0]] + CallsOf(calls[1..], p))[1..] == CallsOf(calls[1..], p);
      } else {
        assert AnswersTo(calls, [answer] + rest.1, p) == AnswersTo(calls[1..], rest.1, p);
      }
    }
  }

  /** The call an event makes, if it makes one: of the task's next command, in the scope the task is in. */
  function CallOf(sys: System, ev: Event): seq<Call> {
    match ev
    case Tick(now) => [Clock(now)]
    case Run(id) =>
      if id in sys.tasks && TouchesData(sys.tasks[id].Next()) then [Call(sys.tasks[id].Current(), sys.tasks[id].Next())] else []
  }

  /** The answer the task was given for it. */
  function AnswerGiven(cfg: Config, sys: System, ev: Event): seq<Answer> {
    if CallOf(sys, ev) == [] then []
    else if ev.Tick? then [Ok]
    else
      var answers := SystemStep(cfg, sys, ev).tasks[ev.task].answers;
      answers[|sys.tasks[ev.task].answers|..]
  }

  /** Every call of a schedule, by whichever task and in whichever scope. */
  function Trace(cfg: Config, sys: System, schedule: seq<Event>): seq<Call>
    decreases |schedule|
  {
    if schedule == [] then [] else CallOf(sys, schedule[0]) + Trace(cfg, SystemStep(cfg, sys, schedule[0]), schedule[1..])
  }

  function AnswersGiven(cfg: Config, sys: System, schedule: seq<Event>): seq<Answer>
    decreases |schedule|
  {
    if schedule == [] then []
    else AnswerGiven(cfg, sys, schedule[0]) + AnswersGiven(cfg, SystemStep(cfg, sys, schedule[0]), schedule[1..])
  }

  lemma EventIsCall(cfg: Config, sys: System, ev: Event)
    ensures Replay(cfg, sys.store, CallOf(sys, ev)) == (SystemStep(cfg, sys, ev).store, AnswerGiven(cfg, sys, ev))
  {
    if CallOf(sys, ev) != [] {
      var call := CallOf(sys, ev)[0];
      assert [call][1..] == [] && CallOf(sys, ev) == [call];
      assert [Step(cfg, sys.store, call).1] + [] == [Step(cfg, sys.store, call).1];
      if ev.Run? {
        var before := sys.tasks[ev.task].answers;
        assert (before + [Step(cfg, sys.store, call).1])[|before|..] == [Step(cfg, sys.store, call).1];
      }
    }
  }

  lemma {:induction false} ReplayConcat(cfg: Config, s: Store, a: seq<Call>, b: seq<Call>)
    ensures var (s', answers) := Replay(cfg, s, a); var (s'', more) := Replay(cfg, s', b);
      Replay(cfg, s, a + b) == (s'', answers + more)
    decreases |a|
  {
    if a == [] {
      assert a + b == b && [] + Replay(cfg, s, b).1 == Replay(cfg, s, b).1;
    } else {
      var (next, answer) := Step(cfg, s, a[0]);
      var (s', answers) := Replay(cfg, next, a[1..]);
      assert (a + b)[1..] == a[1..] + b && (a + b)[0] == a[0];
      ReplayConcat(cfg, next, a[1..], b);
      assert [answer] + (answers + Replay(cfg, s', b).1) == ([answer] + answers) + Replay(cfg, s', b).1;
    }
  }

  /** What a schedule does to the store and answers to the tasks is what its calls do, one after the other. */
  lemma {:induction false} ScheduleIsReplay(cfg: Config, sys: System, schedule: seq<Event>)
    ensures Replay(cfg, sys.store, Trace(cfg, sys, schedule)) == (Execute(cfg, sys, schedule).store, AnswersGiven(cfg, sys, schedule))
    decreases |schedule|
  {
    if schedule != [] {
      var next := SystemStep(cfg, sys, schedule[0]);
      EventIsCall(cfg, sys, schedule[0]);
      ScheduleIsReplay(cfg, next, schedule[1..]);
      ReplayConcat(cfg, sys.store, CallOf(sys, schedule[0]), Trace(cfg, next, schedule[1..]));
    }
  }

  /** Every program, whatever it is answered, stays off shared tables and puts no `or` at the top of a chain. */
  ghost predicate AllGuarded(cfg: Config, sys: System) {
    forall id, h: seq<Answer> {:trigger sys.tasks[id].program(h)} | id in sys.tasks ::
      OnScoped(cfg, sys.tasks[id].program(h)) && NoOr(ChainOf(sys.tasks[id].program(h)))
  }

  lemma StaysGuarded(cfg: Config, sys: System, ev: Event)
    requires AllGuarded(cfg, sys)
    ensures AllGuarded(cfg, SystemStep(cfg, sys, ev))
    ensures AllStayInScope(cfg, CallOf(sys, ev))
  {
    var next := SystemStep(cfg, sys, ev);
    forall id, h: seq<Answer> | id in next.tasks
      ensures OnScoped(cfg, next.tasks[id].program(h)) && NoOr(ChainOf(next.tasks[id].program(h)))
    {
      assert next.tasks[id].program == sys.tasks[id].program;
      assert OnScoped(cfg, sys.tasks[id].program(h));
    }
    if ev.Run? && ev.task in sys.tasks {
      var t := sys.tasks[ev.task];
      assert OnScoped(cfg, t.program(t.answers)) && NoOr(ChainOf(t.program(t.answers)));
      if t.Current().InTenant? { NoOrStaysInScope(ChainOf(t.Next()), t.Current().id); }
    }
  }

  /** Tasks that put no `or` at the top of a chain make no call out of scope, whatever the schedule. */
  lemma {:induction false} GuardedTasksStayInScope(cfg: Config, sys: System, schedule: seq<Event>)
    requires AllGuarded(cfg, sys)
    ensures AllStayInScope(cfg, Trace(cfg, sys, schedule))
    decreases |schedule|
  {
    if schedule != [] {
      StaysGuarded(cfg, sys, schedule[0]);
      GuardedTasksStayInScope(cfg, SystemStep(cfg, sys, schedule[0]), schedule[1..]);
    }
  }

  /**
   * Any tasks, each moving between as many providers as it likes and choosing
   * its next call by every answer it has had, in any interleaving in which no call
   * goes out of its scope: what the calls made in `p`'s scope were answered, and
   * what `p` ends with, are what those calls alone, in their order, give on `p`'s
   * partition.
   */
  lemma MovingTasksProject(cfg: Config, sys: System, schedule: seq<Event>, p: int)
    requires AllStayInScope(cfg, Trace(cfg, sys, schedule))
    ensures |AnswersGiven(cfg, sys, schedule)| == |Trace(cfg, sys, schedule)|
    ensures var calls := Trace(cfg, sys, schedule);
      Replay(cfg, Partition(cfg, sys.store, p), CallsOf(calls, p))
      == (Partition(cfg, Execute(cfg, sys, schedule).store, p), AnswersTo(calls, AnswersGiven(cfg, sys, schedule), p))
  {
    ScheduleIsReplay(cfg, sys, schedule);
    ReplayProjects(cfg, sys.store, Trace(cfg, sys, schedule), p);
  }
}
