/** Background work run once per provider, each inside its own scope: `tenantJobs.js`. */
module TenantJobs {
  import opened Prelude
  import opened TenantStore
  import opened TenantTasks

  datatype Tenant = Tenant(id: int, slug: string, status: string)

  datatype JobResult = Done(value: int) | Failed

  /**
   * The providers `forEachTenant` visits. The rows come in id order, as the
   * query asks; `only` narrows the visit and the status filter still applies.
   */
  function ActiveTenants(tenants: seq<Tenant>, only: Option<set<int>>): seq<Tenant> {
    Filter(tenants, (t: Tenant) => t.status == "active" && (only.Some? ==> t.id in only.value))
  }

  /** A task run until it returns, throws, or has taken `budget` steps. */
  function RunTask(cfg: Config, s: Store, t: Task, budget: nat): (Store, Task)
    decreases budget
  {
    if budget == 0 || t.Finished() then (s, t)
    else
      var (s', t') := TaskStep(cfg, s, t);
      RunTask(cfg, s', t', budget - 1)
  }

  /** `runInTenant(id, job)` awaited: what is left in the store, and whether it returned. */
  function RunJob(cfg: Config, s: Store, job: Program, id: int, budget: nat): (Store, JobResult) {
    if id <= 0 then (s, Failed)
    else
      var (s', t) := RunTask(cfg, s, Task(job, InTenant(id), [], []), budget);
      (s', if t.Next().Return? then Done(t.Next().value) else Failed)
  }

  /** A task after some steps of its own. */
  function After(cfg: Config, s: Store, t: Task, steps: nat): (Store, Task) {
    if steps == 0 then (s, t)
    else
      var (s', t') := After(cfg, s, t, steps - 1);
      TaskStep(cfg, s', t')
  }

  lemma {:induction false} AfterFirst(cfg: Config, s: Store, t: Task, steps: nat)
    requires steps > 0
    ensures var (s', t') := TaskStep(cfg, s, t); After(cfg, s, t, steps) == After(cfg, s', t', steps - 1)
  {
    if steps > 1 { AfterFirst(cfg, s, t, steps - 1); }
  }

  lemma {:induction false} FinishedStays(cfg: Config, s: Store, t: Task, steps: nat)
    requires t.Finished()
    ensures After(cfg, s, t, steps) == (s, t)
  {
    if steps > 0 { FinishedStays(cfg, s, t, steps - 1); }
  }

  lemma {:induction false} RunTaskIsSteps(cfg: Config, s: Store, t: Task, budget: nat)
    ensures RunTask(cfg, s, t, budget) == After(cfg, s, t, budget)
    decreases budget
  {
    if t.Finished() {
      FinishedStays(cfg, s, t, budget);
    } else if budget > 0 {
      AfterFirst(cfg, s, t, budget);
      var (s', t') := TaskStep(cfg, s, t);
      RunTaskIsSteps(cfg, s', t', budget - 1);
    }
  }

  /**
   * A job is done with a value exactly when its program, started in the
   * provider's scope, returned that value within its steps; otherwise it failed.
   * The store is the one those steps left, and the one before for no provider.
   */
  lemma RunJobMeaning(cfg: Config, s: Store, job: Program, id: int, budget: nat)
    ensures var (s', outcome) := RunJob(cfg, s, job, id, budget);
      var (left, task) := After(cfg, s, Task(job, InTenant(id), [], []), budget);
      && s' == (if id > 0 then left else s)
      && (forall v :: outcome == Done(v) <==> id > 0 && task.Next() == Return(v))
  {
    RunTaskIsSteps(cfg, s, Task(job, InTenant(id), [], []), budget);
  }

  /** The loop over the providers: a job that fails does not stop the next. */
  function Visit(cfg: Config, s: Store, ids: seq<int>, job: int -> Program, budget: nat): (r: (Store, seq<JobResult>))
    ensures |r.1| == |ids|
    decreases |ids|
  {
    if ids == [] then (s, [])
    else
      var (s', first) := RunJob(cfg, s, job(ids[0]), ids[0], budget);
      var (s'', rest) := Visit(cfg, s', ids[1..], job, budget);
      (s'', [first] + rest)
  }

  /** The values `forEachTenant` collects. */
  function Values(results: seq<JobResult>): seq<int> {
    if results == [] then []
    else (if results[0].Done? then [results[0].value] else []) + Values(results[1..])
  }

  /** The providers whose job threw, in the order `onError` hears of them. */
  function Failures(ids: seq<int>, results: seq<JobResult>): seq<int>
    requires |ids| == |results|
  {
    if ids == [] then []
    else (if results[0].Failed? then [ids[0]] else []) + Failures(ids[1..], results[1..])
  }

  function Ids(tenants: seq<Tenant>): (ids: seq<int>)
    ensures |ids| == |tenants|
    ensures forall i | 0 <= i < |ids| :: ids[i] == tenants[i].id
  {
    if tenants == [] then [] else [tenants[0].id] + Ids(tenants[1..])
  }

  lemma {:induction false} VisitAppend(cfg: Config, s: Store, ids: seq<int>, last: int, job: int -> Program, budget: nat)
    ensures var (s', results) := Visit(cfg, s, ids, job, budget);
      var (s'', r) := RunJob(cfg, s', job(last), last, budget);
      Visit(cfg, s, ids + [last], job, budget) == (s'', results + [r])
    decreases |ids|
  {
    if ids == [] {
      var (s1, r) := RunJob(cfg, s, job(last), last, budget);
      assert ids + [last] == [last];
      assert Visit(cfg, s1, [last][1..], job, budget) == (s1, []);
      assert Visit(cfg, s, [last], job, budget) == (s1, [r] + []);
      assert Visit(cfg, s, ids, job, budget).1 + [r] == [r] + [];
    } else {
      var (s1, r1) := RunJob(cfg, s, job(ids[0]), ids[0], budget);
      VisitAppend(cfg, s1, ids[1..], last, job, budget);
      assert (ids + [last])[1..] == ids[1..] + [last] && (ids + [last])[0] == ids[0];
      var (s2, rest) := Visit(cfg, s1, ids[1..], job, budget);
      var (s3, r) := RunJob(cfg, s2, job(last), last, budget);
      assert [r1] + (rest + [r]) == ([r1] + rest) + [r];
    }
  }

  lemma {:induction false} CollectAppend(ids: seq<int>, results: seq<JobResult>, id: int, r: JobResult)
    requires |ids| == |results|
    ensures Values(results + [r]) == Values(results) + (if r.Done? then [r.value] else [])
    ensures Failures(ids + [id], results + [r]) == Failures(ids, results) + (if r.Failed? then [id] else [])
  {
    if ids == [] {
      assert ids + [id] == [id] && results + [r] == [r];
    } else {
      CollectAppend(ids[1..], results[1..], id, r);
      assert (ids + [id])[1..] == ids[1..] + [id];
      assert (results + [r])[1..] == results[1..] + [r];
    }
  }

  /** The panel's process, as far as background work sees it. */
  class Worker {
    const cfg: Config
    var store: Store

    constructor (cfg: Config, store: Store)
      ensures this.cfg == cfg && this.store == store
    {
      this.cfg := cfg;
      this.store := store;
    }

    /** `forEachTenant`: one pass over the active providers, collecting what each job returned. */
    method ForEachTenant(tenants: seq<Tenant>, only: Option<set<int>>, job: int -> Program, budget: nat)
      returns (results: seq<int>, failed: seq<int>)
      modifies this
      ensures var ids := Ids(ActiveTenants(tenants, only));
        var (after, outcomes) := Visit(cfg, old(store), ids, job, budget);
        store == after && results == Values(outcomes) && failed == Failures(ids, outcomes)
    {
      results, failed := [], [];
      var visited := ActiveTenants(tenants, only);
      var ids := Ids(visited);
      ghost var outcomes: seq<JobResult> := [];
      for i := 0 to |ids|
        invariant |outcomes| == i
        invariant Visit(cfg, old(store), ids[..i], job, budget) == (store, outcomes)
        invariant results == Values(outcomes) && failed == Failures(ids[..i], outcomes)
      {
        var (after, outcome) := RunJob(cfg, store, job(ids[i]), ids[i], budget);
        VisitAppend(cfg, old(store), ids[..i], ids[i], job, budget);
        CollectAppend(ids[..i], outcomes, ids[i], outcome);
        assert ids[..i + 1] == ids[..i] + [ids[i]];
        store := after;
        match outcome {
          case Done(value) => results := results + [value];
          case Failed => failed := failed + [ids[i]];
        }
        outcomes := outcomes + [outcome];
      }
      assert ids[..|ids|] == ids;
    }
  }

  /** A provider's own task, run on its partition and on the whole store. */
  lemma {:induction false} RunTaskOwn(cfg: Config, s: Store, t: Task, p: int, budget: nat)
    requires BelongsTo(cfg, t, p)
    ensures var (s', t') := RunTask(cfg, s, t, budget);
      RunTask(cfg, Partition(cfg, s, p), t, budget) == (Partition(cfg, s', p), t')
    decreases budget
  {
    if budget != 0 && !t.Finished() {
      TaskStepOwn(cfg, s, t, p);
      var (s1, t1) := TaskStep(cfg, s, t);
      RunTaskOwn(cfg, s1, t1, p, budget - 1);
    }
  }

  lemma {:induction false} RunTaskOther(cfg: Config, s: Store, t: Task, q: int, p: int, budget: nat)
    requires BelongsTo(cfg, t, q) && p != q
    ensures Partition(cfg, RunTask(cfg, s, t, budget).0, p) == Partition(cfg, s, p)
    decreases budget
  {
    if budget != 0 && !t.Finished() {
      TaskStepOther(cfg, s, t, q, p);
      var (s1, t1) := TaskStep(cfg, s, t);
      RunTaskOther(cfg, s1, t1, q, p, budget - 1);
    }
  }

  /** Each provider's job opens no scope but that provider's, and chains nothing out of it. */
  ghost predicate ScopedJobs(cfg: Config, ids: seq<int>, job: int -> Program) {
    forall id | id in ids :: Confined(cfg, job(id), id)
  }

  /**
   * What a pass leaves to provider `p`: exactly what its own job leaves when it
   * runs alone on `p`'s partition, with the same outcome - whatever the other
   * jobs did, and whether or not any of them threw. A provider that was not
   * visited keeps what it had.
   */
  lemma {:induction false} VisitIsolates(cfg: Config, s: Store, ids: seq<int>, job: int -> Program, budget: nat, p: int)
    requires Distinct(ids) && ScopedJobs(cfg, ids, job)
    ensures var (after, results) := Visit(cfg, s, ids, job, budget);
      && (p !in ids ==> Partition(cfg, after, p) == Partition(cfg, s, p))
      && (forall i | 0 <= i < |ids| && ids[i] == p ::
            RunJob(cfg, Partition(cfg, s, p), job(p), p, budget) == (Partition(cfg, after, p), results[i]))
    decreases |ids|
  {
    if ids != [] {
      var q := ids[0];
      var (s1, first) := RunJob(cfg, s, job(q), q, budget);
      var rest := ids[1..];
      assert forall id | id in rest :: id in ids;
      assert q !in rest;
      VisitIsolates(cfg, s1, rest, job, budget, p);
      var t := Task(job(q), InTenant(q), [], []);
      if q == p {
        if q > 0 { RunTaskOwn(cfg, s, t, q, budget); }
        assert p !in rest;
      } else {
        if q > 0 { RunTaskOther(cfg, s, t, q, p, budget); }
      }
      var (after, results) := Visit(cfg, s, ids, job, budget);
      var (after', results') := Visit(cfg, s1, rest, job, budget);
      assert after == after' && results == [first] + results';
      forall i | 0 <= i < |ids| && ids[i] == p
        ensures RunJob(cfg, Partition(cfg, s, p), job(p), p, budget) == (Partition(cfg, after, p), results[i])
      {
        if i > 0 {
          assert rest[i - 1] == p;
        }
      }
    }
  }

  /** The order of the visit is nobody's business: every partition and every outcome is the same. */
  lemma VisitOrderDoesNotMatter(cfg: Config, s: Store, a: seq<int>, b: seq<int>, job: int -> Program, budget: nat)
    requires Distinct(a) && Distinct(b) && (forall id :: id in a <==> id in b)
    requires ScopedJobs(cfg, a, job)
    ensures forall p :: Partition(cfg, Visit(cfg, s, a, job, budget).0, p) == Partition(cfg, Visit(cfg, s, b, job, budget).0, p)
    ensures forall i, j | 0 <= i < |a| && 0 <= j < |b| && a[i] == b[j] ::
      Visit(cfg, s, a, job, budget).1[i] == Visit(cfg, s, b, job, budget).1[j]
  {
    forall p ensures Partition(cfg, Visit(cfg, s, a, job, budget).0, p) == Partition(cfg, Visit(cfg, s, b, job, budget).0, p) {
      VisitIsolates(cfg, s, a, job, budget, p);
      VisitIsolates(cfg, s, b, job, budget, p);
      if p in a {
        assert p in b;
        var i :| 0 <= i < |a| && a[i] == p;
        var j :| 0 <= j < |b| && b[j] == p;
      }
    }
    forall i, j | 0 <= i < |a| && 0 <= j < |b| && a[i] == b[j]
      ensures Visit(cfg, s, a, job, budget).1[i] == Visit(cfg, s, b, job, budget).1[j]
    {
      VisitIsolates(cfg, s, a, job, budget, a[i]);
      VisitIsolates(cfg, s, b, job, budget, a[i]);
    }
  }

  /** An inactive provider is never visited, so a pass of scoped jobs leaves it as it was. */
  lemma InactiveUntouched(cfg: Config, s: Store, tenants: seq<Tenant>, only: Option<set<int>>, job: int -> Program,
                          budget: nat, p: int)
    requires Distinct(Ids(tenants)) && ScopedJobs(cfg, Ids(ActiveTenants(tenants, only)), job)
    requires forall t | t in tenants && t.id == p :: t.status != "active"
    ensures var ids := Ids(ActiveTenants(tenants, only));
      Partition(cfg, Visit(cfg, s, ids, job, budget).0, p) == Partition(cfg, s, p)
  {
    var ids := Ids(ActiveTenants(tenants, only));
    ActiveIds(tenants, only);
    forall i | 0 <= i < |ids| ensures ids[i] != p {
      assert ActiveTenants(tenants, only)[i] in ActiveTenants(tenants, only);
    }
    VisitIsolates(cfg, s, ids, job, budget, p);
  }

  /** Who is visited: the active providers, of those asked for if any were. */
  lemma {:induction false} VisitedMeaning(tenants: seq<Tenant>, only: Option<set<int>>, t: Tenant)
    ensures t in ActiveTenants(tenants, only) <==> t in tenants && t.status == "active" && (only.None? || t.id in only.value)
  {
    if tenants != [] {
      VisitedMeaning(tenants[1..], only, t);
      assert tenants == [tenants[0]] + tenants[1..];
    }
  }

  lemma {:induction false} ActiveIds(tenants: seq<Tenant>, only: Option<set<int>>)
    requires Distinct(Ids(tenants))
    ensures var active := ActiveTenants(tenants, only);
      && (forall t | t in active :: t in tenants && t.status == "active")
      && (forall id | id in Ids(active) :: id in Ids(tenants))
      && Distinct(Ids(active))
  {
    if tenants != [] {
      assert Distinct(Ids(tenants[1..])) by {
        assert Ids(tenants)[1..] == Ids(tenants[1..]);
      }
      assert Ids(tenants) == [tenants[0].id] + Ids(tenants[1..]);
      ActiveIds(tenants[1..], only);
      var rest := ActiveTenants(tenants[1..], only);
      var active := ActiveTenants(tenants, only);
      assert forall t | t in tenants[1..] :: t in tenants;
      if active != rest {
        assert active == [tenants[0]] + rest;
        assert active[1..] == rest;
        assert Ids(active) == [tenants[0].id] + Ids(rest);
        assert tenants[0].id !in Ids(tenants[1..]);
      }
    }
  }
}
