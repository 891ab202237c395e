/** The stateful side of the tenancy helpers, each method tied to `TenantStore.Exec`. */
module TenantPanel {
  import opened Prelude
  import opened TenantStore

  /** `tenantContext.js`: the stack of scopes the work in flight has opened. */
  class ScopeStore {
    var open: seq<Context>

    constructor ()
      ensures open == []
    {
      open := [];
    }

    function Current(): Context
      reads this
    {
      if open == [] then NoContext else open[|open| - 1]
    }

    /** `runInTenant`, up to the call of its function. */
    method EnterTenant(id: int) returns (ok: bool)
      modifies this
      ensures ok <==> id > 0
      ensures open == if ok then old(open) + [InTenant(id)] else old(open)
      ensures ok ==> Current() == InTenant(id)
    {
      ok := id > 0;
      if ok { open := open + [InTenant(id)]; }
    }

    /** `runUnscoped`, up to the call of its function. */
    method EnterUnscoped(reason: string) returns (ok: bool)
      modifies this
      ensures ok <==> reason != ""
      ensures open == if ok then old(open) + [Unscoped(reason)] else old(open)
      ensures ok ==> CurrentTenantId(Current()) == None
    {
      ok := reason != "";
      if ok { open := open + [Unscoped(reason)]; }
    }

    /** The end of either, by return or by exception: the scope before it is in force again. */
    method Exit()
      requires open != []
      modifies this
      ensures open == old(open)[..|old(open)| - 1]
    {
      open := open[..|open| - 1];
    }
  }

  /** `tenantCache.js`: one time-boxed entry per provider. */
  class TenantCache {
    const ttlMs: int
    var entries: map<int, CacheEntry>

    constructor (ttlMs: int)
      ensures this.ttlMs == ttlMs && entries == map[]
    {
      this.ttlMs := ttlMs;
      entries := map[];
    }

    ghost function AsStore(now: int): Store
      reads this
    {
      Store(map[], entries, now)
    }

    ghost function AsConfig(): Config {
      Config({}, ttlMs)
    }

    method Get(ctx: Context, now: int) returns (answer: Answer)
      ensures (AsStore(now), answer) == Exec(AsConfig(), AsStore(now), ctx, CacheGet)
    {
      var id := CurrentTenantId(ctx);
      if id == None { return Threw; }
      if id.value !in entries || entries[id.value].expiresAt <= now { return Missing; }
      answer := Cached(entries[id.value].value);
    }

    method Set(ctx: Context, now: int, value: string) returns (answer: Answer)
      modifies this
      ensures (AsStore(now), answer) == Exec(AsConfig(), old(AsStore(now)), ctx, CacheSet(value))
    {
      var id := CurrentTenantId(ctx);
      if id == None { return Threw; }
      entries := entries[id.value := CacheEntry(value, now + ttlMs)];
      answer := Cached(value);
    }

    method Invalidate(ctx: Context, now: int) returns (answer: Answer)
      modifies this
      ensures (AsStore(now), answer) == Exec(AsConfig(), old(AsStore(now)), ctx, CacheInvalidate)
    {
      var id := CurrentTenantId(ctx);
      if id == None { return Threw; }
      entries := entries - {id.value};
      answer := Ok;
    }

    /** Forget every provider's entry: no later `Get` finds one, whoever asks. */
    method Clear()
      modifies this
      ensures entries == map[]
      ensures forall ctx: Context, now: int | ctx.InTenant? :: Exec(AsConfig(), AsStore(now), ctx, CacheGet).1 == Missing
    {
      entries := map[];
    }
  }

  /** The helpers of `database.js` over one connection. */
  class ScopedDatabase {
    const scoped: set<string>
    var tables: map<string, seq<Row>>

    constructor (scoped: set<string>, tables: map<string, seq<Row>>)
      ensures this.scoped == scoped && this.tables == tables
    {
      this.scoped := scoped;
      this.tables := tables;
    }

    ghost function AsStore(): Store
      reads this
    {
      Store(tables, map[], 0)
    }

    ghost function AsConfig(): Config {
      Config(scoped, 0)
    }

    /** Whether a row meets the builder: the provider filter `tdb` put first, and what the caller chained on it. */
    method Hit(ctx: Context, table: string, where: Chain, row: Row) returns (hit: bool)
      ensures hit == Meets(AsConfig(), ctx, table, where, row)
    {
      var group, i := true, 0;
      if table in scoped {
        group := CurrentTenantId(ctx).Some? && row.tenant == CurrentTenantId(ctx);
      } else if where != [] {
        group, i := where[0].condition(row), 1;
      }
      hit := false;
      while i < |where|
        invariant i <= |where|
        invariant Meets(AsConfig(), ctx, table, where, row) == (hit || Holds(group, where[i..], row))
      {
        assert where[i..][1..] == where[i + 1..];
        match where[i] {
          case Where(condition) => group := group && condition(row);
          case OrWhere(condition) => hit, group := hit || group, condition(row);
        }
        i := i + 1;
      }
      hit := hit || group;
    }

    /** `tdb(table)` followed by a read, an update or a delete. */
    method Query(ctx: Context, cmd: Command) returns (answer: Answer)
      requires cmd.Select? || cmd.Update? || cmd.Delete?
      modifies this
      ensures (AsStore(), answer) == Exec(AsConfig(), old(AsStore()), ctx, cmd)
    {
      var table := cmd.table;
      if table in scoped && CurrentTenantId(ctx) == None { return Threw; }
      if table !in tables { return Threw; }
      var rows := tables[table];
      var left: seq<Row>, found: seq<Columns> := [], [];
      for i := |rows| downto 0
        invariant tables == old(tables)
        invariant found == Matching(AsConfig(), ctx, table, rows[i..], cmd.where)
        invariant left == match cmd
          case Update(_, where, change) => UpdateRows(AsConfig(), ctx, table, rows[i..], where, change)
          case Delete(_, where) => DeleteRows(AsConfig(), ctx, table, rows[i..], where)
          case _ => rows[i..]
      {
        var row := rows[i];
        assert rows[i..] == [row] + rows[i + 1..];
        var hit := Hit(ctx, table, cmd.where, row);
        if hit { found := [row.columns] + found; }
        if hit && cmd.Update? {
          left := [row.(columns := cmd.change(row.columns))] + left;
        } else if !(hit && cmd.Delete?) {
          left := [row] + left;
        }
      }
      assert rows[0..] == rows;
      answer := if cmd.Select? then Found(found) else Changed(|found|);
      tables := tables[table := left];
    }

    /** `tinsert`: the provider goes on the row, whatever the caller wrote. */
    method Tinsert(ctx: Context, table: string, row: Columns) returns (answer: Answer)
      modifies this
      ensures (AsStore(), answer) == Exec(AsConfig(), old(AsStore()), ctx, Insert(table, row))
    {
      var id := CurrentTenantId(ctx);
      if table in scoped && id == None { return Threw; }
      if table !in tables { return Threw; }
      var stamped := Row(if table in scoped then id else None, row);
      tables := tables[table := tables[table] + [stamped]];
      answer := Changed(1);
    }

    /** `tbatchInsert`: `withTenant` stamps the list row by row before it is handed over. */
    method TbatchInsert(ctx: Context, table: string, rows: seq<Columns>) returns (answer: Answer)
      modifies this
      ensures (AsStore(), answer) == Exec(AsConfig(), old(AsStore()), ctx, BatchInsert(table, rows))
    {
      var id := CurrentTenantId(ctx);
      if table in scoped && id == None { return Threw; }
      if table !in tables { return Threw; }
      var stamped: seq<Row> := [];
      for i := 0 to |rows|
        invariant |stamped| == i
        invariant forall j | 0 <= j < i :: stamped[j] == Stamp(AsConfig(), ctx, table, rows[j])
      {
        stamped := stamped + [Row(if table in scoped then id else None, rows[i])];
      }
      assert stamped == StampAll(AsConfig(), ctx, table, rows);
      tables := tables[table := tables[table] + stamped];
      answer := Changed(|rows|);
    }
  }
}
