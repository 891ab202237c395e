/**
 * One database shared by every provider, and the scope that decides whose rows
 * a call reaches: `tenantContext.js`, the helpers of `database.js`, and the
 * per-provider cache of `tenantCache.js`.
 */
module TenantStore {
  import opened Prelude

  /** The columns of a row other than `tenant_id` and the generated `id`. */
  type Columns = map<string, string>

  datatype Row = Row(tenant: Option<int>, columns: Columns)

  datatype CacheEntry = CacheEntry(value: string, expiresAt: int)

  /** Every table, the cache entries by provider, and the wall clock. */
  datatype Store = Store(tables: map<string, seq<Row>>, cache: map<int, CacheEntry>, now: int)

  /** What does not change while the panel runs: the scoped tables and the cache lifetime. */
  datatype Config = Config(scoped: set<string>, ttl: int)

  /** What `AsyncLocalStorage` holds for the work in flight. */
  datatype Context = NoContext | InTenant(id: int) | Unscoped(reason: string)

  /**
   * One link of a query builder: whether a condition, which may be a bracketed group
   * of its own, is true of a row, and how it joins what was chained before it.
   */
  datatype Link = Where(condition: Row -> bool) | OrWhere(condition: Row -> bool)

  type Chain = seq<Link>

  datatype Command =
    | EnterTenant(id: int)
    | EnterUnscoped(reason: string)
    | Leave
    | Select(table: string, where: Chain)
    | Update(table: string, where: Chain, change: Columns -> Columns)
    | Delete(table: string, where: Chain)
    | InsertOnBuilder(table: string, row: Columns)
    | Insert(table: string, row: Columns)
    | BatchInsert(table: string, rows: seq<Columns>)
    | CacheGet
    | CacheSet(entry: string)
    | CacheInvalidate
    | Return(value: int)
    | Raise

  datatype Answer =
    | Ok
    | Threw
    | Found(rows: seq<Columns>)
    | Changed(count: nat)
    | Cached(value: string)
    | Missing

  /** `currentTenantId()`: the provider in scope, or nothing where the source throws. */
  function CurrentTenantId(ctx: Context): Option<int> {
    match ctx
    case InTenant(id) => Some(id)
    case _ => None
  }

  /**
   * Whether the links let a row through, once the group of conditions in hand is
   * met or not: in SQL `and` binds before `or`, so each `or` begins a new group.
   */
  predicate Holds(group: bool, chain: Chain, row: Row)
    decreases |chain|
  {
    if chain == [] then group
    else match chain[0]
      case Where(condition) => Holds(group && condition(row), chain[1..], row)
      case OrWhere(condition) => group || Holds(condition(row), chain[1..], row)
  }

  /**
   * The rows a builder reaches. `tdb` puts the provider filter on a scoped table
   * as the first link, and the caller's chain follows; on any other table the
   * caller's first link has nothing to join.
   */
  predicate Meets(cfg: Config, ctx: Context, table: string, chain: Chain, row: Row) {
    if table in cfg.scoped then Holds(ctx.InTenant? && row.tenant == Some(ctx.id), chain, row)
    else chain == [] || Holds(chain[0].condition(row), chain[1..], row)
  }

  /** `withTenant`: the provider column is set whatever the caller wrote. */
  function Stamp(cfg: Config, ctx: Context, table: string, row: Columns): Row {
    Row(if table in cfg.scoped then CurrentTenantId(ctx) else None, row)
  }

  function StampAll(cfg: Config, ctx: Context, table: string, rows: seq<Columns>): (stamped: seq<Row>)
    ensures |stamped| == |rows|
    ensures forall i | 0 <= i < |rows| :: stamped[i] == Stamp(cfg, ctx, table, rows[i])
  {
    if rows == [] then [] else [Stamp(cfg, ctx, table, rows[0])] + StampAll(cfg, ctx, table, rows[1..])
  }

  /** The columns of the rows a `select` through the scoped builder returns. */
  function Matching(cfg: Config, ctx: Context, table: string, rows: seq<Row>, where: Chain): seq<Columns> {
    if rows == [] then []
    else if Meets(cfg, ctx, table, where, rows[0]) then
      [rows[0].columns] + Matching(cfg, ctx, table, rows[1..], where)
    else Matching(cfg, ctx, table, rows[1..], where)
  }

  function UpdateRows(cfg: Config, ctx: Context, table: string, rows: seq<Row>, where: Chain, change: Columns -> Columns): seq<Row> {
    if rows == [] then []
    else
      var head := if Meets(cfg, ctx, table, where, rows[0]) then Row(rows[0].tenant, change(rows[0].columns)) else rows[0];
      [head] + UpdateRows(cfg, ctx, table, rows[1..], where, change)
  }

  function DeleteRows(cfg: Config, ctx: Context, table: string, rows: seq<Row>, where: Chain): seq<Row> {
    if rows == [] then []
    else if Meets(cfg, ctx, table, where, rows[0]) then DeleteRows(cfg, ctx, table, rows[1..], where)
    else [rows[0]] + DeleteRows(cfg, ctx, table, rows[1..], where)
  }

  /** The table a data call names, if it names one. */
  function TableOf(cmd: Command): Option<string> {
    match cmd
    case Select(t, _) => Some(t)
    case Update(t, _, _) => Some(t)
    case Delete(t, _) => Some(t)
    case InsertOnBuilder(t, _) => Some(t)
    case Insert(t, _) => Some(t)
    case BatchInsert(t, _) => Some(t)
    case _ => None
  }

  /** The rows of the table after an accepted call, and the call's answer. */
  function After(cfg: Config, ctx: Context, table: string, cmd: Command, rows: seq<Row>): (seq<Row>, Answer) {
    match cmd
    case Select(_, where) => (rows, Found(Matching(cfg, ctx, table, rows, where)))
    case Update(_, where, change) =>
      (UpdateRows(cfg, ctx, table, rows, where, change), Changed(|Matching(cfg, ctx, table, rows, where)|))
    case Delete(_, where) =>
      (DeleteRows(cfg, ctx, table, rows, where), Changed(|Matching(cfg, ctx, table, rows, where)|))
    case InsertOnBuilder(_, row) =>
      // `guardInserts` refuses on a scoped table; on any other the bare builder inserts.
      if table in cfg.scoped then (rows, Threw) else (rows + [Stamp(cfg, ctx, table, row)], Changed(1))
    case Insert(_, row) => (rows + [Stamp(cfg, ctx, table, row)], Changed(1))
    case BatchInsert(_, batch) => (rows + StampAll(cfg, ctx, table, batch), Changed(|batch|))
    case _ => (rows, Ok)
  }

  /** `TenantCache`: `get`, `set` and `invalidate` under the provider in scope. */
  function ExecCache(cfg: Config, s: Store, id: int, cmd: Command): (Store, Answer) {
    match cmd
    case CacheGet =>
      if id !in s.cache || s.cache[id].expiresAt <= s.now then (s, Missing) else (s, Cached(s.cache[id].value))
    case CacheSet(entry) => (s.(cache := s.cache[id := CacheEntry(entry, s.now + cfg.ttl)]), Cached(entry))
    case CacheInvalidate => (s.(cache := s.cache - {id}), Ok)
    case _ => (s, Ok)
  }

  /**
   * One call under one scope. Where the source throws, the answer is `Threw`
   * and the store is the one before the call.
   */
  function Exec(cfg: Config, s: Store, ctx: Context, cmd: Command): (Store, Answer) {
    match TableOf(cmd)
    case Some(table) =>
      if (table in cfg.scoped && !ctx.InTenant?) || table !in s.tables then (s, Threw)
      else
        var (rows, answer) := After(cfg, ctx, table, cmd, s.tables[table]);
        (s.(tables := s.tables[table := rows]), answer)
    case None =>
      if !TouchesData(cmd) then (s, Ok)
      else if !ctx.InTenant? then (s, Threw)
      else ExecCache(cfg, s, ctx.id, cmd)
  }

  /** Whether the call reads or writes a table or the cache, rather than moving between scopes. */
  predicate TouchesData(cmd: Command) {
    TableOf(cmd).Some? || cmd.CacheGet? || cmd.CacheSet? || cmd.CacheInvalidate?
  }

  // ----- One provider's view -----

  function OfTenant(p: int): Row -> bool {
    (r: Row) => r.tenant == Some(p)
  }

  /** What provider `p` owns: its rows of every scoped table, and its cache entry. */
  function Partition(cfg: Config, s: Store, p: int): Store {
    Store(map t | t in s.tables :: if t in cfg.scoped then Filter(s.tables[t], OfTenant(p)) else s.tables[t],
          map q | q in s.cache && q == p :: s.cache[q],
          s.now)
  }

  // ----- Chains that stay in scope -----

  /** The links up to the next `or`. */
  predicate Leading(chain: Chain, row: Row)
    decreases |chain|
  {
    chain == [] || chain[0].OrWhere? || (chain[0].condition(row) && Leading(chain[1..], row))
  }

  /** A group that an `or` begins. */
  predicate OrGroup(chain: Chain, i: nat, row: Row)
    requires i < |chain|
  {
    chain[i].OrWhere? && chain[i].condition(row) && Leading(chain[i + 1..], row)
  }

  /** A chain lets a row through when the group it began with is met, or any later one is. */
  lemma {:induction false} HoldsByGroups(group: bool, chain: Chain, row: Row)
    ensures Holds(group, chain, row) <==> (group && Leading(chain, row)) || exists i | 0 <= i < |chain| :: OrGroup(chain, i, row)
    decreases |chain|
  {
    if chain != [] {
      var rest := chain[1..];
      HoldsByGroups(if chain[0].Where? then group && chain[0].condition(row) else chain[0].condition(row), rest, row);
      if i :| 0 <= i < |rest| && OrGroup(rest, i, row) {
        assert rest[i + 1..] == chain[i + 2..];
        assert OrGroup(chain, i + 1, row);
      }
      if i :| 0 <= i < |chain| && OrGroup(chain, i, row) {
        if i > 0 {
          assert rest[i..] == chain[i + 1..];
          assert OrGroup(rest, i - 1, row);
        }
      }
      if chain[0].OrWhere? && chain[0].condition(row) && Leading(rest, row) { assert OrGroup(chain, 0, row); }
    }
  }

  /** No row of another provider meets the chain when the provider filter does not hold of it. */
  ghost predicate InScope(chain: Chain, p: int) {
    forall row: Row | row.tenant != Some(p) :: !Holds(false, chain, row)
  }

  /** Of these rows, none of another provider does. */
  ghost predicate InScopeHere(chain: Chain, p: int, rows: seq<Row>) {
    forall row | row in rows && row.tenant != Some(p) :: !Holds(false, chain, row)
  }

  function OfOthers(p: int): Row -> bool {
    (r: Row) => r.tenant != Some(p)
  }

  /** A chain in `p`'s scope answers from `p`'s rows alone, and deletes no other, if and only if no other row meets it. */
  lemma {:induction false} OwnRowsOnlyIff(cfg: Config, p: int, table: string, rows: seq<Row>, where: Chain)
    requires table in cfg.scoped
    ensures var ctx := InTenant(p);
      && (Matching(cfg, ctx, table, rows, where) == Matching(cfg, ctx, table, Filter(rows, OfTenant(p)), where)
          <==> InScopeHere(where, p, rows))
      && (Filter(DeleteRows(cfg, ctx, table, rows, where), OfOthers(p)) == Filter(rows, OfOthers(p)) <==> InScopeHere(where, p, rows))
  {
    MatchedCount(cfg, p, table, rows, where);
    LeftCount(cfg, p, table, rows, where);
  }

  lemma {:induction false} MatchedCount(cfg: Config, p: int, table: string, rows: seq<Row>, where: Chain)
    requires table in cfg.scoped
    ensures var ctx := InTenant(p);
      var all, own := Matching(cfg, ctx, table, rows, where), Matching(cfg, ctx, table, Filter(rows, OfTenant(p)), where);
      |own| <= |all| && (|own| == |all| <==> InScopeHere(where, p, rows)) && (InScopeHere(where, p, rows) ==> own == all)
  {
    if rows != [] {
      MatchedCount(cfg, p, table, rows[1..], where);
      InScopeCons(where, p, rows);
      var mine := Filter(rows[1..], OfTenant(p));
      assert ([rows[0]] + mine)[1..] == mine;
    }
  }

  lemma {:induction false} LeftCount(cfg: Config, p: int, table: string, rows: seq<Row>, where: Chain)
    requires table in cfg.scoped
    ensures var left, others := Filter(DeleteRows(cfg, InTenant(p), table, rows, where), OfOthers(p)), Filter(rows, OfOthers(p));
      |left| <= |others| && (|left| == |others| <==> InScopeHere(where, p, rows)) && (InScopeHere(where, p, rows) ==> left == others)
  {
    if rows != [] {
      LeftCount(cfg, p, table, rows[1..], where);
      InScopeCons(where, p, rows);
    }
  }

  lemma InScopeCons(where: Chain, p: int, rows: seq<Row>)
    requires rows != []
    ensures InScopeHere(where, p, rows)
            <==> (rows[0].tenant == Some(p) || !Holds(false, where, rows[0])) && InScopeHere(where, p, rows[1..])
  {
    assert rows == [rows[0]] + rows[1..];
    assert rows[0] in rows;
  }

  /** On a scoped table a chain answers from the provider's rows alone whatever the rows, if and only if it is in scope. */
  lemma StaysInScopeIff(cfg: Config, p: int, table: string, where: Chain)
    requires table in cfg.scoped
    ensures (forall rows: seq<Row> :: Matching(cfg, InTenant(p), table, rows, where)
                                      == Matching(cfg, InTenant(p), table, Filter(rows, OfTenant(p)), where))
            <==> InScope(where, p)
  {
    if InScope(where, p) {
      forall rows: seq<Row> ensures Matching(cfg, InTenant(p), table, rows, where)
                                    == Matching(cfg, InTenant(p), table, Filter(rows, OfTenant(p)), where)
      {
        OwnRowsOnlyIff(cfg, p, table, rows, where);
      }
    } else {
      var row: Row :| row.tenant != Some(p) && Holds(false, where, row);
      OwnRowsOnlyIff(cfg, p, table, [row], where);
      assert row in [row];
    }
  }

  /** No `or` at the top of the chain; within a condition it may have any. */
  predicate NoOr(chain: Chain) {
    forall i | 0 <= i < |chain| :: chain[i].Where?
  }

  /** That is enough, for every provider. */
  lemma NoOrStaysInScope(chain: Chain, p: int)
    requires NoOr(chain)
    ensures InScope(chain, p)
  {
    forall row: Row | row.tenant != Some(p) ensures !Holds(false, chain, row) {
      HoldsByGroups(false, chain, row);
    }
  }

  /** One column has this value. */
  function Is(column: string, value: string): Row -> bool {
    (r: Row) => column in r.columns && r.columns[column] == value
  }

  const DEVICE_SWAPS := "device_swaps"

  /** `DeviceSwap.listForDevice`: the swaps a device took part in, at either end. */
  function ListForDevice(deviceId: string): Chain {
    [Where(Is("device_id", deviceId)), OrWhere(Is("previous_device_id", deviceId))]
  }

  lemma ListForDeviceHolds(deviceId: string, group: bool, row: Row)
    ensures Holds(group, ListForDevice(deviceId), row)
            <==> (group && Is("device_id", deviceId)(row)) || Is("previous_device_id", deviceId)(row)
  {
    var chain, own, previous := ListForDevice(deviceId), Is("device_id", deviceId), Is("previous_device_id", deviceId);
    assert chain[1..] == [OrWhere(previous)] && chain[1..][1..] == [];
    assert Holds(previous(row), [], row) == previous(row);
    assert Holds(group && own(row), chain[1..], row) == ((group && own(row)) || previous(row));
  }

  /** It answers from the provider's swaps alone exactly when no other provider's device of that id was replaced. */
  lemma ListForDeviceIff(cfg: Config, p: int, rows: seq<Row>, deviceId: string)
    requires DEVICE_SWAPS in cfg.scoped
    ensures var chain := ListForDevice(deviceId);
      Matching(cfg, InTenant(p), DEVICE_SWAPS, rows, chain)
      == Matching(cfg, InTenant(p), DEVICE_SWAPS, Filter(rows, OfTenant(p)), chain)
      <==> forall row | row in rows && row.tenant != Some(p) :: !Is("previous_device_id", deviceId)(row)
  {
    OwnRowsOnlyIff(cfg, p, DEVICE_SWAPS, rows, ListForDevice(deviceId));
    forall row: Row ensures Holds(false, ListForDevice(deviceId), row) <==> Is("previous_device_id", deviceId)(row) {
      ListForDeviceHolds(deviceId, false, row);
    }
  }

  /** Two providers whose devices share an id: the one is answered with the other's swap. */
  lemma ListForDeviceReachesOthers(cfg: Config, p: int, q: int, deviceId: string)
    requires DEVICE_SWAPS in cfg.scoped && p != q
    ensures var swap := map["previous_device_id" := deviceId];
      var s := Store(map[DEVICE_SWAPS := [Row(Some(q), swap)]], map[], 0);
      && Exec(cfg, s, InTenant(p), Select(DEVICE_SWAPS, ListForDevice(deviceId))).1 == Found([swap])
      && Exec(cfg, Partition(cfg, s, p), InTenant(p), Select(DEVICE_SWAPS, ListForDevice(deviceId))).1 == Found([])
  {
    var row := Row(Some(q), map["previous_device_id" := deviceId]);
    var s := Store(map[DEVICE_SWAPS := [row]], map[], 0);
    ListForDeviceHolds(deviceId, false, row);
    assert [row][1..] == [] && Is("previous_device_id", deviceId)(row);
    assert Matching(cfg, InTenant(p), DEVICE_SWAPS, [row], ListForDevice(deviceId)) == [row.columns] + [];
    assert [row.columns] + [] == [row.columns];
    assert Filter([row], OfTenant(p)) == [];
    assert Partition(cfg, s, p).tables[DEVICE_SWAPS] == [];
  }

  /** The links a call carries. */
  function ChainOf(cmd: Command): Chain {
    match cmd
    case Select(_, where) => where
    case Update(_, where, _) => where
    case Delete(_, where) => where
    case _ => []
  }

  /** A call that stays off the shared tables. */
  predicate OnScoped(cfg: Config, cmd: Command) {
    TableOf(cmd).Some? ==> TableOf(cmd).value in cfg.scoped
  }

  /** Reading, updating and deleting in the provider's own rows alone gives the same rows and the same answer. */
  lemma {:induction false} RowsOwn(cfg: Config, p: int, table: string, rows: seq<Row>, where: Chain, change: Columns -> Columns)
    requires table in cfg.scoped && InScope(where, p)
    ensures var mine := Filter(rows, OfTenant(p)); var ctx := InTenant(p);
      && Matching(cfg, ctx, table, mine, where) == Matching(cfg, ctx, table, rows, where)
      && UpdateRows(cfg, ctx, table, mine, where, change)
         == Filter(UpdateRows(cfg, ctx, table, rows, where, change), OfTenant(p))
      && DeleteRows(cfg, ctx, table, mine, where) == Filter(DeleteRows(cfg, ctx, table, rows, where), OfTenant(p))
  {
    if rows != [] {
      RowsOwn(cfg, p, table, rows[1..], where, change);
      var mine := Filter(rows[1..], OfTenant(p));
      assert ([rows[0]] + mine)[1..] == mine;
    }
  }

  /** Another provider's update and delete leave `p`'s rows as they were. */
  lemma {:induction false} RowsOther(cfg: Config, p: int, q: int, table: string, rows: seq<Row>,
                                     where: Chain, change: Columns -> Columns)
    requires table in cfg.scoped && p != q && InScope(where, q)
    ensures var ctx := InTenant(q);
      && Filter(UpdateRows(cfg, ctx, table, rows, where, change), OfTenant(p)) == Filter(rows, OfTenant(p))
      && Filter(DeleteRows(cfg, ctx, table, rows, where), OfTenant(p)) == Filter(rows, OfTenant(p))
  {
    if rows != [] {
      RowsOther(cfg, p, q, table, rows[1..], where, change);
    }
  }

  lemma StampedRows(cfg: Config, ctx: Context, table: string, rows: seq<Columns>, p: int)
    requires table in cfg.scoped && ctx.InTenant?
    ensures var all := StampAll(cfg, ctx, table, rows);
      Filter(all, OfTenant(p)) == if ctx.id == p then all else []
  {
    FilterAllOrNone(StampAll(cfg, ctx, table, rows), OfTenant(p));
  }

  function Identity(): Columns -> Columns { (c: Columns) => c }

  /** An accepted call in `p`'s scope, on `p`'s rows alone and on everyone's. */
  lemma AfterOwn(cfg: Config, p: int, table: string, cmd: Command, rows: seq<Row>)
    requires table in cfg.scoped && InScope(ChainOf(cmd), p)
    ensures var (all, answer) := After(cfg, InTenant(p), table, cmd, rows);
      After(cfg, InTenant(p), table, cmd, Filter(rows, OfTenant(p))) == (Filter(all, OfTenant(p)), answer)
  {
    var ctx := InTenant(p);
    match cmd
    case Select(_, w) => RowsOwn(cfg, p, table, rows, w, Identity());
    case Update(_, w, c) => RowsOwn(cfg, p, table, rows, w, c);
    case Delete(_, w) => RowsOwn(cfg, p, table, rows, w, Identity());
    case Insert(_, row) =>
      FilterConcat(rows, [Stamp(cfg, ctx, table, row)], OfTenant(p));
      FilterAllOrNone([Stamp(cfg, ctx, table, row)], OfTenant(p));
    case BatchInsert(_, batch) =>
      FilterConcat(rows, StampAll(cfg, ctx, table, batch), OfTenant(p));
      StampedRows(cfg, ctx, table, batch, p);
    case _ =>
  }

  /** An accepted call in another provider's scope keeps `p`'s rows. */
  lemma AfterOther(cfg: Config, p: int, q: int, table: string, cmd: Command, rows: seq<Row>)
    requires table in cfg.scoped && p != q && InScope(ChainOf(cmd), q)
    ensures Filter(After(cfg, InTenant(q), table, cmd, rows).0, OfTenant(p)) == Filter(rows, OfTenant(p))
  {
    var ctx := InTenant(q);
    match cmd
    case Update(_, w, c) => RowsOther(cfg, p, q, table, rows, w, c);
    case Delete(_, w) => RowsOther(cfg, p, q, table, rows, w, Identity());
    case Insert(_, row) =>
      FilterConcat(rows, [Stamp(cfg, ctx, table, row)], OfTenant(p));
      FilterAllOrNone([Stamp(cfg, ctx, table, row)], OfTenant(p));
    case BatchInsert(_, batch) =>
      FilterConcat(rows, StampAll(cfg, ctx, table, batch), OfTenant(p));
      StampedRows(cfg, ctx, table, batch, p);
    case _ =>
  }

  /**
   * A call in `p`'s scope, whose chain is in scope, answers from `p`'s partition alone: on the partition
   * it gives the same answer and leaves what the partition of the real result is.
   */
  lemma ExecOwn(cfg: Config, s: Store, p: int, cmd: Command)
    requires OnScoped(cfg, cmd) && InScope(ChainOf(cmd), p)
    ensures var (s', a) := Exec(cfg, s, InTenant(p), cmd);
      Exec(cfg, Partition(cfg, s, p), InTenant(p), cmd) == (Partition(cfg, s', p), a)
  {
    var mine := Partition(cfg, s, p);
    var s' := Exec(cfg, s, InTenant(p), cmd).0;
    var m' := Exec(cfg, mine, InTenant(p), cmd).0;
    if TableOf(cmd).Some? && TableOf(cmd).value in s.tables {
      AfterOwn(cfg, p, TableOf(cmd).value, cmd, s.tables[TableOf(cmd).value]);
    }
    assert m'.tables == Partition(cfg, s', p).tables;
    assert m'.cache == Partition(cfg, s', p).cache;
  }

  /** A call in any other scope, or in none, leaves `p`'s partition unchanged. */
  lemma ExecOther(cfg: Config, s: Store, ctx: Context, p: int, cmd: Command)
    requires OnScoped(cfg, cmd) && (ctx.InTenant? ==> InScope(ChainOf(cmd), ctx.id))
    requires ctx != InTenant(p)
    ensures Partition(cfg, Exec(cfg, s, ctx, cmd).0, p) == Partition(cfg, s, p)
  {
    var s' := Exec(cfg, s, ctx, cmd).0;
    if ctx.InTenant? && TableOf(cmd).Some? && TableOf(cmd).value in s.tables {
      AfterOther(cfg, p, ctx.id, TableOf(cmd).value, cmd, s.tables[TableOf(cmd).value]);
    }
    assert Partition(cfg, s', p).tables == Partition(cfg, s, p).tables;
    assert Partition(cfg, s', p).cache == Partition(cfg, s, p).cache;
  }

  /** With no provider in scope every scoped call throws, and none of them changes anything. */
  lemma ExecWithoutScope(cfg: Config, s: Store, ctx: Context, cmd: Command)
    requires OnScoped(cfg, cmd) && TouchesData(cmd)
    requires !ctx.InTenant?
    ensures Exec(cfg, s, ctx, cmd) == (s, Threw)
  {
  }
}
