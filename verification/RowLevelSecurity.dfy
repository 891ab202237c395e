/**
 * The second enforcement layer, `rls.js`: a policy the database applies to
 * every row, read from a variable that each query sets on its own connection
 * for the length of its own transaction.
 */
module RowLevelSecurity {
  import opened Prelude
  import opened Decimal
  import opened TenantStore

  const RLS_BYPASS := "*"
  const INT_MAX := 2147483647

  // ----- The policy -----

  /** SQL's three truth values. */
  datatype Truth = Yes | No | Unknown

  datatype Verdict = Value(truth: Truth) | CastError

  function SqlEquals<T(==)>(a: Option<T>, b: Option<T>): Truth {
    if a.None? || b.None? then Unknown else if a.value == b.value then Yes else No
  }

  /** `a ~ '^[0-9]+$'`. */
  function LooksNumeric(a: Option<string>): Truth {
    if a.None? then Unknown else if a.value != "" && AllDigits(a.value) then Yes else No
  }

  /** The `CASE` of `policyStatements`: a branch is taken only on `Yes`, and the cast only inside its own. */
  function PolicyCase(setting: Option<string>, tenant: Option<int>): Verdict {
    if SqlEquals(setting, Some(RLS_BYPASS)) == Yes then Value(Yes)
    else if LooksNumeric(setting) == Yes then
      if FromDecimal(setting.value) > INT_MAX then CastError
      else Value(SqlEquals(tenant, Some(FromDecimal(setting.value) as int)))
    else Value(No)
  }

  /** A row passes `USING` or `WITH CHECK` only on `Yes`. */
  predicate Admits(setting: Option<string>, tenant: Option<int>) {
    PolicyCase(setting, tenant) == Value(Yes)
  }

  /** `currentRlsValue`. */
  function CurrentRlsValue(ctx: Context): Option<string> {
    match ctx
    case NoContext => None
    case InTenant(id) => if id > 0 then Some(ToDecimal(id)) else None
    case Unscoped(_) => Some(RLS_BYPASS)
  }

  /** What `set_config` is called with. */
  function MarkOf(ctx: Context): string {
    var value := CurrentRlsValue(ctx);
    if value.Some? then value.value else ""
  }

  /** A context `runInTenant` or `runUnscoped` can have opened, with an id that fits the column. */
  predicate ValidContext(ctx: Context) {
    ctx.InTenant? ==> 0 < ctx.id <= INT_MAX
  }

  predicate VisibleTo(ctx: Context, tenant: Option<int>) {
    match ctx
    case NoContext => false
    case InTenant(id) => tenant == Some(id)
    case Unscoped(_) => true
  }

  /** Under the mark of a context the policy admits that context's rows and no others. */
  lemma PolicyMeaning(ctx: Context, tenant: Option<int>)
    requires ValidContext(ctx)
    ensures Admits(Some(MarkOf(ctx)), tenant) <==> VisibleTo(ctx, tenant)
    ensures PolicyCase(Some(MarkOf(ctx)), tenant) != CastError
  {
    match ctx
    case InTenant(id) =>
      DecimalRoundTrip(id);
      assert !IsDigit('*');
      assert ToDecimal(id) != RLS_BYPASS by {
        assert IsDigit(ToDecimal(id)[0]);
      }
    case Unscoped(_) =>
    case NoContext =>
      assert MarkOf(ctx) == "";
  }

  /** A variable nobody set, or set to nothing, admits no row at all. */
  lemma UnmarkedAdmitsNothing(tenant: Option<int>)
    ensures !Admits(None, tenant) && !Admits(Some(""), tenant)
    ensures PolicyCase(None, tenant) != CastError && PolicyCase(Some(""), tenant) != CastError
  {
  }

  // ----- Connections, queries and their steps -----

  datatype DbRow = DbRow(tenant: Option<int>, data: string)

  type Rows = map<nat, DbRow>

  datatype Statement =
    | Read(where: DbRow -> bool)
    | Remove(where: DbRow -> bool)
    | Modify(where: DbRow -> bool, change: DbRow -> DbRow)
    | Add(row: DbRow)

  /** A pooled connection: the value of the variable outside and inside a transaction, and who holds it. */
  datatype Connection = Connection(session: Option<string>, local: Option<string>, owner: Option<nat>) {
    function Setting(): Option<string> {
      if local.Some? then local else session
    }
  }

  datatype Phase = Built | Begun(connection: nat) | Marked(connection: nat) | Ended

  /** A read that took place: what was there, what was asked, and what came back. */
  datatype Observation = Observation(present: Rows, where: DbRow -> bool, rows: Rows)

  /**
   * A query, or an explicit transaction with several statements. `ctx` is the
   * scope it was built in; `mark` is what was captured then.
   */
  datatype Query = Query(ctx: Context, mark: string, statements: seq<Statement>, phase: Phase, next: nat,
                         changed: map<nat, Option<DbRow>>, seen: seq<Observation>)

  /** `bare` holds what the statements that reached a connection with no mark on it were shown. */
  datatype Db = Db(committed: Rows, nextId: nat, pool: map<nat, Connection>, queries: map<nat, Query>, bare: seq<Observation>)

  datatype Event =
    | Build(query: nat, ctx: Context, statements: seq<Statement>)
    | Begin(query: nat, connection: nat)
    | SetMark(query: nat)
    | Execute(query: nat)
    | Commit(query: nat)
    | Abort(query: nat)
    | Bare(connection: nat, statement: Statement)

  /** What a transaction sees: what is committed, under its own changes. */
  function Present(committed: Rows, changed: map<nat, Option<DbRow>>): Rows {
    map id | id in committed.Keys + changed.Keys && (id in changed ==> changed[id].Some?) ::
      if id in changed then changed[id].value else committed[id]
  }

  function Targets(present: Rows, setting: Option<string>, where: DbRow -> bool): set<nat> {
    set id | id in present && Admits(setting, present[id].tenant) && where(present[id])
  }

  /** A row another open transaction has changed is locked until that one ends. */
  predicate LockedByOther(s: Db, q: nat, id: nat) {
    exists other | other in s.queries :: other != q && id in s.queries[other].changed
  }

  predicate AnyLocked(s: Db, q: nat, targets: set<nat>) {
    exists id | id in targets :: LockedByOther(s, q, id)
  }

  /** A changed row fails `WITH CHECK`. */
  predicate AnyRefused(setting: Option<string>, present: Rows, targets: set<nat>, change: DbRow -> DbRow)
    requires targets <= present.Keys
  {
    exists id | id in targets :: !Admits(setting, change(present[id]).tenant)
  }

  /** The end of a transaction: a variable that was set locally reads as empty from then on. */
  function Release(c: Connection): Connection {
    Connection(if c.local.Some? && c.session.None? then Some("") else c.session, None, None)
  }

  function Finish(s: Db, q: nat, connection: nat, committed: Rows): Db
    requires q in s.queries && connection in s.pool
  {
    s.(committed := committed,
       pool := s.pool[connection := Release(s.pool[connection])],
       queries := s.queries[q := s.queries[q].(phase := Ended, changed := map[])])
  }

  function Rollback(s: Db, q: nat): Db
    requires q in s.queries
  {
    var phase := s.queries[q].phase;
    if (phase.Begun? || phase.Marked?) && phase.connection in s.pool
    then Finish(s, q, phase.connection, s.committed) else s
  }

  function Advance(s: Db, q: nat, changed: map<nat, Option<DbRow>>): Db
    requires q in s.queries
  {
    s.(queries := s.queries[q := s.queries[q].(changed := changed, next := s.queries[q].next + 1)])
  }

  /** One statement under the setting of the connection it runs on. */
  function ExecuteStatement(s: Db, q: nat, setting: Option<string>, stmt: Statement): Db
    requires q in s.queries
  {
    var query := s.queries[q];
    var present := Present(s.committed, query.changed);
    match stmt
    case Read(where) =>
      var o := Observation(present, where, RowsRead(present, setting, where));
      s.(queries := s.queries[q := query.(seen := query.seen + [o], next := query.next + 1)])
    case Remove(where) =>
      var targets := Targets(present, setting, where);
      if AnyLocked(s, q, targets) then s
      else Advance(s, q, query.changed + map id | id in targets :: None)
    case Modify(where, change) =>
      var targets := Targets(present, setting, where);
      if AnyLocked(s, q, targets) then s
      else if AnyRefused(setting, present, targets, change) then Rollback(s, q)
      else Advance(s, q, query.changed + map id | id in targets :: Some(change(present[id])))
    case Add(row) =>
      if !Admits(setting, row.tenant) then Rollback(s, q)
      else Advance(s, q, query.changed[s.nextId := Some(row)]).(nextId := s.nextId + 1)
  }

  /**
   * A statement alone in its transaction, on a connection nobody marked for it:
   * what `batchInsert` and a builder awaited by another method than `then` send.
   */
  function ExecuteBare(s: Db, setting: Option<string>, stmt: Statement): Db {
    match stmt
    case Read(where) =>
      s.(bare := s.bare + [Observation(s.committed, where, RowsRead(s.committed, setting, where))])
    case Remove(where) =>
      s.(committed := s.committed - Targets(s.committed, setting, where))
    case Modify(where, change) =>
      var targets := Targets(s.committed, setting, where);
      if AnyRefused(setting, s.committed, targets, change) then s
      else s.(committed := s.committed + map id | id in targets :: change(s.committed[id]))
    case Add(row) =>
      if Admits(setting, row.tenant) then s.(committed := s.committed[s.nextId := row], nextId := s.nextId + 1) else s
  }

  /** One step of one query. A step that cannot be taken in this state does nothing. */
  function Step(s: Db, ev: Event): Db {
    match ev
    case Build(q, ctx, statements) =>
      if q in s.queries || !ValidContext(ctx) then s
      else s.(queries := s.queries[q := Query(ctx, MarkOf(ctx), statements, Built, 0, map[], [])])
    case Begin(q, c) =>
      if q in s.queries && s.queries[q].phase.Built? && c in s.pool && s.pool[c].owner.None?
      then s.(pool := s.pool[c := s.pool[c].(owner := Some(q))],
              queries := s.queries[q := s.queries[q].(phase := Begun(c))])
      else s
    case SetMark(q) =>
      if q in s.queries && s.queries[q].phase.Begun? && s.queries[q].phase.connection in s.pool
      then
        var c := s.queries[q].phase.connection;
        s.(pool := s.pool[c := s.pool[c].(local := Some(s.queries[q].mark))],
           queries := s.queries[q := s.queries[q].(phase := Marked(c))])
      else s
    case Execute(q) =>
      if q in s.queries && s.queries[q].phase.Marked? && s.queries[q].phase.connection in s.pool
         && s.queries[q].next < |s.queries[q].statements|
      then
        var query := s.queries[q];
        ExecuteStatement(s, q, s.pool[query.phase.connection].Setting(), query.statements[query.next])
      else s
    case Commit(q) =>
      if q in s.queries && s.queries[q].phase.Marked? && s.queries[q].phase.connection in s.pool
      then Finish(s, q, s.queries[q].phase.connection, Present(s.committed, s.queries[q].changed))
      else s
    case Abort(q) =>
      if q in s.queries then Rollback(s, q) else s
    case Bare(c, stmt) =>
      if c in s.pool && s.pool[c].owner.None? then ExecuteBare(s, s.pool[c].Setting(), stmt) else s
  }

  function Interleave(s: Db, events: seq<Event>): Db
    decreases |events|
  {
    if events == [] then s else Interleave(Step(s, events[0]), events[1..])
  }

  // ----- The invariant -----

  /** Outside a transaction a pooled connection never carries a mark that admits a row. */
  ghost predicate IdleIsUnmarked(s: Db) {
    forall c | c in s.pool ::
      && (s.pool[c].session == None || s.pool[c].session == Some(""))
      && (s.pool[c].owner.None? ==> s.pool[c].local.None?)
  }

  /** A connection and the query that holds it name each other, and the mark on it is that query's. */
  ghost predicate HeldByOne(s: Db) {
    && (forall c | c in s.pool && s.pool[c].owner.Some? ::
          var q := s.pool[c].owner.value;
          q in s.queries && (s.queries[q].phase == Begun(c) || s.queries[q].phase == Marked(c)))
    && (forall q | q in s.queries ::
          match s.queries[q].phase
          case Begun(c) => c in s.pool && s.pool[c].owner == Some(q) && s.pool[c].local == None
          case Marked(c) => c in s.pool && s.pool[c].owner == Some(q) && s.pool[c].local == Some(s.queries[q].mark)
          case _ => true)
  }

  predicate ExactlyVisible(ctx: Context, o: Observation) {
    o.rows == map id | id in o.present && VisibleTo(ctx, o.present[id].tenant) && o.where(o.present[id]) :: o.present[id]
  }

  /** Every query carries the mark of the scope it was built in, and saw exactly that scope's rows. */
  ghost predicate SeesItsOwn(s: Db) {
    forall q | q in s.queries ::
      && ValidContext(s.queries[q].ctx) && s.queries[q].mark == MarkOf(s.queries[q].ctx)
      && forall i | 0 <= i < |s.queries[q].seen| :: ExactlyVisible(s.queries[q].ctx, s.queries[q].seen[i])
  }

  /** A pending change replaces a row of the query's scope, or none, by a row of its scope, or none. */
  predicate OwnChange(committed: Rows, query: Query, id: nat)
    requires id in query.changed
  {
    && (id in committed ==> VisibleTo(query.ctx, committed[id].tenant))
    && (query.changed[id].Some? ==> VisibleTo(query.ctx, query.changed[id].value.tenant))
  }

  ghost predicate ChangesItsOwn(s: Db) {
    && (forall id | id in s.committed :: id < s.nextId)
    && (forall q, id | q in s.queries && id in s.queries[q].changed ::
          id < s.nextId && OwnChange(s.committed, s.queries[q], id))
    && (forall q, other, id | q in s.queries && other in s.queries && q != other
                              && id in s.queries[q].changed :: id !in s.queries[other].changed)
  }

  ghost predicate Inv(s: Db) {
    IdleIsUnmarked(s) && HeldByOne(s) && SeesItsOwn(s) && ChangesItsOwn(s)
  }

  lemma FinishKeeps(s: Db, q: nat, connection: nat, committed: Rows)
    requires Inv(s) && q in s.queries
    requires s.queries[q].phase == Begun(connection) || s.queries[q].phase == Marked(connection)
    requires committed == s.committed || committed == Present(s.committed, s.queries[q].changed)
    ensures Inv(Finish(s, q, connection, committed))
  {
    var t := Finish(s, q, connection, committed);
    forall other, id | other in t.queries && id in t.queries[other].changed
      ensures id < t.nextId && OwnChange(t.committed, t.queries[other], id)
    {
      assert other != q && id in s.queries[other].changed;
      assert id !in s.queries[q].changed;
      assert id in t.committed <==> id in s.committed;
    }
  }

  /** The setting a statement runs under decides as the query's own scope does. */
  ghost predicate Faithful(setting: Option<string>, ctx: Context) {
    forall tenant :: Admits(setting, tenant) <==> VisibleTo(ctx, tenant)
  }

  /** A query that changed neither its phase nor its mark. */
  lemma SameHolder(s: Db, q: nat, query: Query)
    requires HeldByOne(s) && q in s.queries && query.phase == s.queries[q].phase && query.mark == s.queries[q].mark
    ensures HeldByOne(s.(queries := s.queries[q := query]))
  {
  }

  /** A query that changed neither its scope nor its pending changes. */
  lemma SameChanges(s: Db, q: nat, query: Query)
    requires ChangesItsOwn(s) && q in s.queries && query.ctx == s.queries[q].ctx && query.changed == s.queries[q].changed
    ensures ChangesItsOwn(s.(queries := s.queries[q := query]))
  {
    var t := s.(queries := s.queries[q := query]);
    assert forall other | other in s.queries ::
      t.queries[other].changed == s.queries[other].changed && t.queries[other].ctx == s.queries[other].ctx;
  }

  lemma SeenKeeps(s: Db, q: nat, o: Observation)
    requires Inv(s) && q in s.queries && ExactlyVisible(s.queries[q].ctx, o)
    ensures Inv(s.(queries := s.queries[q := s.queries[q].(seen := s.queries[q].seen + [o], next := s.queries[q].next + 1)]))
  {
    var query := s.queries[q].(seen := s.queries[q].seen + [o], next := s.queries[q].next + 1);
    SameHolder(s, q, query);
    SameChanges(s, q, query);
    assert SeesItsOwn(s.(queries := s.queries[q := query]));
  }

  /** The rows the policy lets through, out of those asked for. */
  function RowsRead(present: Rows, setting: Option<string>, where: DbRow -> bool): Rows {
    map id | id in Targets(present, setting, where) :: present[id]
  }

  /** What the policy lets through under a faithful setting is exactly what the scope may see. */
  lemma ReadsExactly(present: Rows, setting: Option<string>, ctx: Context, where: DbRow -> bool)
    requires Faithful(setting, ctx)
    ensures ExactlyVisible(ctx, Observation(present, where, RowsRead(present, setting, where)))
  {
    var rows := RowsRead(present, setting, where);
    assert forall id | id in present :: Admits(setting, present[id].tenant) <==> VisibleTo(ctx, present[id].tenant);
    assert rows.Keys == set id | id in present && VisibleTo(ctx, present[id].tenant) && where(present[id]);
  }

  lemma ReadKeeps(s: Db, q: nat, setting: Option<string>, where: DbRow -> bool)
    requires Inv(s) && q in s.queries && Faithful(setting, s.queries[q].ctx)
    ensures Inv(ExecuteStatement(s, q, setting, Read(where)))
  {
    var present := Present(s.committed, s.queries[q].changed);
    ReadsExactly(present, setting, s.queries[q].ctx, where);
    SeenKeeps(s, q, Observation(present, where, RowsRead(present, setting, where)));
  }

  /** A change confined to rows no one else has locked, from and to rows of the query's scope. */
  lemma AdvanceKeeps(s: Db, q: nat, more: map<nat, Option<DbRow>>, nextId: nat)
    requires Inv(s) && q in s.queries && s.nextId <= nextId
    requires forall id | id in more ::
      && id < nextId && !LockedByOther(s, q, id)
      && (id in s.committed && id !in s.queries[q].changed ==> VisibleTo(s.queries[q].ctx, s.committed[id].tenant))
      && (more[id].Some? ==> VisibleTo(s.queries[q].ctx, more[id].value.tenant))
    ensures Inv(Advance(s, q, s.queries[q].changed + more).(nextId := nextId))
  {
    var t := Advance(s, q, s.queries[q].changed + more).(nextId := nextId);
    forall a, b, id | a in t.queries && b in t.queries && a != b && id in t.queries[a].changed
      ensures id !in t.queries[b].changed
    {
      if id in t.queries[b].changed {
        if a == q && id in more {
          assert b in s.queries && b != q && id in s.queries[b].changed;
          assert LockedByOther(s, q, id);
        } else if b == q && id in more {
          assert a in s.queries && a != q && id in s.queries[a].changed;
          assert LockedByOther(s, q, id);
        }
        assert false;
      }
    }
  }

  lemma RemoveKeeps(s: Db, q: nat, setting: Option<string>, where: DbRow -> bool)
    requires Inv(s) && q in s.queries && Faithful(setting, s.queries[q].ctx)
    ensures Inv(ExecuteStatement(s, q, setting, Remove(where)))
  {
    var targets := Targets(Present(s.committed, s.queries[q].changed), setting, where);
    if !AnyLocked(s, q, targets) {
      AdvanceKeeps(s, q, map id | id in targets :: None, s.nextId);
    }
  }

  lemma RollbackKeeps(s: Db, q: nat)
    requires Inv(s) && q in s.queries
    ensures Inv(Rollback(s, q))
  {
    var phase := s.queries[q].phase;
    if phase.Begun? || phase.Marked? {
      FinishKeeps(s, q, phase.connection, s.committed);
    }
  }

  lemma ModifyKeeps(s: Db, q: nat, setting: Option<string>, where: DbRow -> bool, change: DbRow -> DbRow)
    requires Inv(s) && q in s.queries && Faithful(setting, s.queries[q].ctx)
    ensures Inv(ExecuteStatement(s, q, setting, Modify(where, change)))
  {
    var present := Present(s.committed, s.queries[q].changed);
    var targets := Targets(present, setting, where);
    if AnyLocked(s, q, targets) {
    } else if AnyRefused(setting, present, targets, change) {
      RollbackKeeps(s, q);
    } else {
      AdvanceKeeps(s, q, map id | id in targets :: Some(change(present[id])), s.nextId);
    }
  }

  lemma NewIdIsFree(s: Db, q: nat)
    requires Inv(s)
    ensures s.nextId !in s.committed && !LockedByOther(s, q, s.nextId)
  {
  }

  lemma AddKeeps(s: Db, q: nat, setting: Option<string>, row: DbRow)
    requires Inv(s) && q in s.queries && Faithful(setting, s.queries[q].ctx)
    ensures Inv(ExecuteStatement(s, q, setting, Add(row)))
  {
    if Admits(setting, row.tenant) {
      NewIdIsFree(s, q);
      assert VisibleTo(s.queries[q].ctx, row.tenant);
      AddedKeeps(s, q, row);
    } else {
      RollbackKeeps(s, q);
    }
  }

  lemma AddedKeeps(s: Db, q: nat, row: DbRow)
    requires Inv(s) && q in s.queries && VisibleTo(s.queries[q].ctx, row.tenant)
    requires s.nextId !in s.committed && !LockedByOther(s, q, s.nextId)
    ensures Inv(Advance(s, q, s.queries[q].changed[s.nextId := Some(row)]).(nextId := s.nextId + 1))
  {
    var more := map[s.nextId := Some(row)];
    assert s.queries[q].changed + more == s.queries[q].changed[s.nextId := Some(row)];
    AdvanceKeeps(s, q, more, s.nextId + 1);
  }

  lemma ExecuteKeeps(s: Db, q: nat)
    requires Inv(s)
    ensures Inv(Step(s, Execute(q)))
  {
    if q in s.queries && s.queries[q].phase.Marked? && s.queries[q].next < |s.queries[q].statements| {
      var query := s.queries[q];
      var setting := s.pool[query.phase.connection].Setting();
      forall tenant ensures Admits(setting, tenant) <==> VisibleTo(query.ctx, tenant) {
        PolicyMeaning(query.ctx, tenant);
      }
      match query.statements[query.next]
      case Read(where) => ReadKeeps(s, q, setting, where);
      case Remove(where) => RemoveKeeps(s, q, setting, where);
      case Modify(where, change) => ModifyKeeps(s, q, setting, where, change);
      case Add(row) => AddKeeps(s, q, setting, row);
    }
  }

  /** A query just built holds no connection, has seen nothing and changed nothing. */
  lemma NewQueryKeeps(s: Db, q: nat, query: Query)
    requires Inv(s) && q !in s.queries && query.phase.Built? && query.changed == map[] && query.seen == []
    requires ValidContext(query.ctx) && query.mark == MarkOf(query.ctx)
    ensures Inv(s.(queries := s.queries[q := query]))
  {
    var t := s.(queries := s.queries[q := query]);
    assert forall other | other in s.queries :: t.queries[other] == s.queries[other];
    assert SeesItsOwn(t);
    assert HeldByOne(t) by { NewQueryHolds(s, q, query); }
    assert ChangesItsOwn(t);
  }

  lemma NewQueryHolds(s: Db, q: nat, query: Query)
    requires HeldByOne(s) && q !in s.queries && query.phase.Built?
    ensures HeldByOne(s.(queries := s.queries[q := query]))
  {
  }

  lemma BuildKeeps(s: Db, q: nat, ctx: Context, statements: seq<Statement>)
    requires Inv(s)
    ensures Inv(Step(s, Build(q, ctx, statements)))
  {
    if q !in s.queries && ValidContext(ctx) {
      NewQueryKeeps(s, q, Query(ctx, MarkOf(ctx), statements, Built, 0, map[], []));
    }
  }

  lemma BeginKeeps(s: Db, q: nat, c: nat)
    requires Inv(s)
    ensures Inv(Step(s, Begin(q, c)))
  {
  }

  lemma SetMarkKeeps(s: Db, q: nat)
    requires Inv(s)
    ensures Inv(Step(s, SetMark(q)))
  {
  }

  lemma CommitKeeps(s: Db, q: nat)
    requires Inv(s)
    ensures Inv(Step(s, Commit(q)))
  {
    if q in s.queries && s.queries[q].phase.Marked? {
      FinishKeeps(s, q, s.queries[q].phase.connection, Present(s.committed, s.queries[q].changed));
    }
  }

  lemma AbortKeeps(s: Db, q: nat)
    requires Inv(s)
    ensures Inv(Step(s, Abort(q)))
  {
    if q in s.queries { RollbackKeeps(s, q); }
  }

  /** Under no mark a statement is shown no row, changes none and adds none. */
  lemma BareDoesNothing(s: Db, c: nat, stmt: Statement)
    requires IdleIsUnmarked(s)
    ensures var t := Step(s, Bare(c, stmt));
      && t == s.(bare := t.bare)
      && (t.bare == s.bare || (|t.bare| == |s.bare| + 1 && t.bare[..|s.bare|] == s.bare && t.bare[|s.bare|].rows == map[]))
  {
    if c in s.pool && s.pool[c].owner.None? {
      var setting := s.pool[c].Setting();
      forall tenant ensures !Admits(setting, tenant) { UnmarkedAdmitsNothing(tenant); }
      match stmt
      case Read(where) => assert Targets(s.committed, setting, where) == {};
      case Remove(where) =>
        assert Targets(s.committed, setting, where) == {};
        assert s.committed - {} == s.committed;
      case Modify(where, change) =>
        assert Targets(s.committed, setting, where) == {};
        assert s.committed + map[] == s.committed;
      case Add(row) =>
    }
  }

  lemma BareKeeps(s: Db, c: nat, stmt: Statement)
    requires Inv(s)
    ensures Inv(Step(s, Bare(c, stmt)))
  {
    BareDoesNothing(s, c, stmt);
    OnlyBareChanged(s, Step(s, Bare(c, stmt)));
  }

  lemma OnlyBareChanged(s: Db, t: Db)
    requires Inv(s) && t == s.(bare := t.bare)
    ensures Inv(t)
  {
  }

  lemma StepKeeps(s: Db, ev: Event)
    requires Inv(s)
    ensures Inv(Step(s, ev))
  {
    match ev
    case Build(q, ctx, statements) => BuildKeeps(s, q, ctx, statements);
    case Begin(q, c) => BeginKeeps(s, q, c);
    case SetMark(q) => SetMarkKeeps(s, q);
    case Execute(q) => ExecuteKeeps(s, q);
    case Commit(q) => CommitKeeps(s, q);
    case Abort(q) => AbortKeeps(s, q);
    case Bare(c, stmt) => BareKeeps(s, c, stmt);
  }

  /** A pool of connections just opened, and no query yet. */
  ghost predicate Initial(s: Db) {
    && s.queries == map[] && s.bare == []
    && (forall c | c in s.pool :: s.pool[c] == Connection(None, None, None))
    && (forall id | id in s.committed :: id < s.nextId)
  }

  lemma {:induction false} InterleaveKeeps(s: Db, events: seq<Event>)
    requires Inv(s)
    ensures Inv(Interleave(s, events))
    decreases |events|
  {
    if events != [] {
      StepKeeps(s, events[0]);
      InterleaveKeeps(Step(s, events[0]), events[1..]);
    }
  }

  // ----- What a query finds in the table -----

  /** The row under an id as a query finds it: its own pending change, or what is committed. */
  function Standing(s: Db, q: nat, id: nat): Option<DbRow>
    requires q in s.queries
  {
    if id in s.queries[q].changed then s.queries[q].changed[id]
    else if id in s.committed then Some(s.committed[id]) else None
  }

  /** The query holds a marked connection, and this is its next statement. */
  ghost predicate AboutTo(s: Db, q: nat, stmt: Statement) {
    && q in s.queries && s.queries[q].phase.Marked? && s.queries[q].phase.connection in s.pool
    && s.queries[q].next < |s.queries[q].statements| && s.queries[q].statements[s.queries[q].next] == stmt
  }

  /** The query was shown, once more, exactly the rows standing in the table that its scope may see and that match. */
  ghost predicate ShownTheTable(s: Db, t: Db, q: nat, where: DbRow -> bool)
    requires q in s.queries
  {
    && q in t.queries && |t.queries[q].seen| == |s.queries[q].seen| + 1
    && t.queries[q].seen[..|s.queries[q].seen|] == s.queries[q].seen
    && t.queries[q].next == s.queries[q].next + 1
    && var rows := t.queries[q].seen[|s.queries[q].seen|].rows;
       && (forall id | id in rows :: Standing(s, q, id) == Some(rows[id])
                                     && VisibleTo(s.queries[q].ctx, rows[id].tenant) && where(rows[id]))
       && (forall id: nat | Standing(s, q, id).Some? && VisibleTo(s.queries[q].ctx, Standing(s, q, id).value.tenant)
                            && where(Standing(s, q, id).value) :: id in rows)
  }

  /** The setting of a marked connection decides as the scope of its query does. */
  lemma MarkedIsFaithful(s: Db, q: nat)
    requires Inv(s) && q in s.queries && s.queries[q].phase.Marked? && s.queries[q].phase.connection in s.pool
    ensures Faithful(s.pool[s.queries[q].phase.connection].Setting(), s.queries[q].ctx)
  {
    forall tenant ensures Admits(s.pool[s.queries[q].phase.connection].Setting(), tenant) <==> VisibleTo(s.queries[q].ctx, tenant) {
      PolicyMeaning(s.queries[q].ctx, tenant);
    }
  }

  lemma PresentIsStanding(s: Db, q: nat, id: nat)
    requires q in s.queries
    ensures var present := Present(s.committed, s.queries[q].changed);
      Standing(s, q, id) == if id in present then Some(present[id]) else None
  {
  }

  lemma ReadShowsTheTable(s: Db, q: nat, where: DbRow -> bool)
    requires Inv(s) && AboutTo(s, q, Read(where))
    ensures ShownTheTable(s, Step(s, Execute(q)), q, where)
  {
    MarkedIsFaithful(s, q);
    var query := s.queries[q];
    var setting := s.pool[query.phase.connection].Setting();
    var present := Present(s.committed, query.changed);
    var t := Step(s, Execute(q));
    assert t.queries[q].seen == query.seen + [Observation(present, where, RowsRead(present, setting, where))];
    forall id: nat ensures Standing(s, q, id) == if id in present then Some(present[id]) else None { PresentIsStanding(s, q, id); }
    forall id | id in present ensures Admits(setting, present[id].tenant) <==> VisibleTo(query.ctx, present[id].tenant) {}
  }

  /** No statement without a mark was shown a row. */
  predicate BareSawNothing(s: Db) {
    forall i | 0 <= i < |s.bare| :: s.bare[i].rows == map[]
  }

  lemma ExecuteKeepsBare(s: Db, q: nat, setting: Option<string>, stmt: Statement)
    requires q in s.queries
    ensures ExecuteStatement(s, q, setting, stmt).bare == s.bare
  {
  }

  lemma StepSawNothing(s: Db, ev: Event)
    requires Inv(s) && BareSawNothing(s)
    ensures BareSawNothing(Step(s, ev))
  {
    match ev
    case Bare(c, stmt) =>
      BareDoesNothing(s, c, stmt);
      var t := Step(s, ev);
      forall i | 0 <= i < |t.bare| ensures t.bare[i].rows == map[] {
        if i < |s.bare| { assert t.bare[i] == s.bare[i]; }
      }
    case Execute(q) =>
      if q in s.queries && s.queries[q].phase.Marked? && s.queries[q].next < |s.queries[q].statements| {
        ExecuteKeepsBare(s, q, s.pool[s.queries[q].phase.connection].Setting(), s.queries[q].statements[s.queries[q].next]);
      }
    case _ =>
  }

  lemma {:induction false} InterleaveSawNothing(s: Db, events: seq<Event>)
    requires Inv(s) && BareSawNothing(s)
    ensures BareSawNothing(Interleave(s, events))
    decreases |events|
  {
    if events != [] {
      StepKeeps(s, events[0]);
      StepSawNothing(s, events[0]);
      InterleaveSawNothing(Step(s, events[0]), events[1..]);
    }
  }

  /**
   * In every interleaving: each query carries the mark of the scope it was
   * built in and has seen exactly the rows of that scope that matched, and what
   * a read is shown next is what stands in the table at that moment; a connection back in the pool admits no row to whoever takes it next; and a
   * statement that reached one with no mark was shown nothing.
   */
  lemma MarksDoNotLeak(s: Db, events: seq<Event>)
    requires Initial(s)
    ensures var t := Interleave(s, events);
      && SeesItsOwn(t) && BareSawNothing(t)
      && (forall q, where | AboutTo(t, q, Read(where)) :: ShownTheTable(t, Step(t, Execute(q)), q, where))
      && (forall c, tenant | c in t.pool && t.pool[c].owner.None? :: !Admits(t.pool[c].Setting(), tenant))
      && (forall c | c in t.pool && t.pool[c].local.Some? ::
            exists q | q in t.queries :: t.pool[c].owner == Some(q) && t.queries[q].phase == Marked(c)
                                         && t.pool[c].local.value == MarkOf(t.queries[q].ctx))
  {
    InterleaveKeeps(s, events);
    InterleaveSawNothing(s, events);
    var t := Interleave(s, events);
    forall q, where | AboutTo(t, q, Read(where)) ensures ShownTheTable(t, Step(t, Execute(q)), q, where) {
      ReadShowsTheTable(t, q, where);
    }
    forall c, tenant | c in t.pool && t.pool[c].owner.None? ensures !Admits(t.pool[c].Setting(), tenant) {
      UnmarkedAdmitsNothing(tenant);
    }
    forall c | c in t.pool && t.pool[c].local.Some?
      ensures exists q | q in t.queries :: t.pool[c].owner == Some(q) && t.queries[q].phase == Marked(c)
                                           && t.pool[c].local.value == MarkOf(t.queries[q].ctx)
    {
      var q := t.pool[c].owner.value;
      assert q in t.queries;
    }
  }

  /** Whether a step changed, created or removed the committed row `id`. */
  predicate Touched(s: Db, t: Db, id: nat) {
    (id in s.committed) != (id in t.committed) || (id in s.committed && s.committed[id] != t.committed[id])
  }

  lemma StepWritesInScope(s: Db, ev: Event, id: nat)
    requires Inv(s) && Touched(s, Step(s, ev), id)
    ensures ev.Commit? && ev.query in s.queries
    ensures var ctx := s.queries[ev.query].ctx; var t := Step(s, ev);
      && ctx != NoContext
      && (id in s.committed ==> VisibleTo(ctx, s.committed[id].tenant))
      && (id in t.committed ==> VisibleTo(ctx, t.committed[id].tenant))
  {
    match ev
    case Execute(q) =>
      if q in s.queries && s.queries[q].phase.Marked? && s.queries[q].next < |s.queries[q].statements| {
        StatementCommitsNothing(s, q, s.pool[s.queries[q].phase.connection].Setting(),
                                s.queries[q].statements[s.queries[q].next]);
      }
    case Commit(q) =>
      assert id in s.queries[q].changed;
      assert OwnChange(s.committed, s.queries[q], id);
    case Bare(c, stmt) => BareDoesNothing(s, c, stmt);
    case _ =>
  }

  /**
   * Whatever ran before, only the commit of a query of the row's own scope -
   * before and after - touches a committed row: a query with no scope touches
   * none, nor does a statement with no mark.
   */
  lemma WritesStayInScope(start: Db, events: seq<Event>, ev: Event, id: nat)
    requires Initial(start)
    requires var s := Interleave(start, events); Touched(s, Step(s, ev), id)
    ensures var s := Interleave(start, events); var t := Step(s, ev);
      && ev.Commit? && ev.query in s.queries && s.queries[ev.query].ctx != NoContext
      && (id in s.committed ==> VisibleTo(s.queries[ev.query].ctx, s.committed[id].tenant))
      && (id in t.committed ==> VisibleTo(s.queries[ev.query].ctx, t.committed[id].tenant))
  {
    InterleaveKeeps(start, events);
    StepWritesInScope(Interleave(start, events), ev, id);
  }

  lemma StatementCommitsNothing(s: Db, q: nat, setting: Option<string>, stmt: Statement)
    requires q in s.queries
    ensures ExecuteStatement(s, q, setting, stmt).committed == s.committed
  {
  }
}
