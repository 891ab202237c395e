/**
 * What a call does, row by row: which rows a read answers, an update rewrites
 * and a delete removes, what an insert leaves, and how long a cache entry lives.
 */
module TenantEffects {
  import opened Prelude
  import opened TenantStore

  /** The builder admits the row: the provider's own where the leading conditions hold, or any that a later group admits. */
  predicate Admitted(cfg: Config, ctx: Context, table: string, chain: Chain, row: Row) {
    if table in cfg.scoped then
      || (ctx.InTenant? && row.tenant == Some(ctx.id) && Leading(chain, row))
      || exists i | 0 <= i < |chain| :: OrGroup(chain, i, row)
    else
      || chain == []
      || (chain[0].condition(row) && Leading(chain[1..], row))
      || exists i | 1 <= i < |chain| :: OrGroup(chain, i, row)
  }

  lemma MeetsWhenAdmitted(cfg: Config, ctx: Context, table: string, chain: Chain, row: Row)
    ensures Meets(cfg, ctx, table, chain, row) <==> Admitted(cfg, ctx, table, chain, row)
  {
    if table in cfg.scoped {
      HoldsByGroups(ctx.InTenant? && row.tenant == Some(ctx.id), chain, row);
    } else if chain != [] {
      var rest := chain[1..];
      HoldsByGroups(chain[0].condition(row), rest, row);
      if i :| 0 <= i < |rest| && OrGroup(rest, i, row) {
        assert rest[i + 1..] == chain[i + 2..];
        assert OrGroup(chain, i + 1, row);
      }
      if i :| 1 <= i < |chain| && OrGroup(chain, i, row) {
        assert rest[i..] == chain[i + 1..];
        assert OrGroup(rest, i - 1, row);
      }
    }
  }

  function Admits(cfg: Config, ctx: Context, table: string, chain: Chain): Row -> bool {
    (row: Row) => Admitted(cfg, ctx, table, chain, row)
  }

  function Refuses(cfg: Config, ctx: Context, table: string, chain: Chain): Row -> bool {
    (row: Row) => !Admitted(cfg, ctx, table, chain, row)
  }

  // ----- Places in a table -----

  predicate Increasing(at: seq<nat>) {
    forall j, k | 0 <= j < k < |at| :: at[j] < at[k]
  }

  predicate AllWanted(at: seq<nat>, rows: seq<Row>, wanted: Row -> bool) {
    forall k | 0 <= k < |at| :: at[k] < |rows| && wanted(rows[at[k]])
  }

  predicate NoneMissed(at: seq<nat>, rows: seq<Row>, wanted: Row -> bool) {
    forall i | 0 <= i < |rows| && wanted(rows[i]) :: i in at
  }

  /** These are the places of exactly the wanted rows, in the order of the table. */
  predicate Places(at: seq<nat>, rows: seq<Row>, wanted: Row -> bool) {
    Increasing(at) && AllWanted(at, rows, wanted) && NoneMissed(at, rows, wanted)
  }

  /** The same places, seen from one row further up. */
  function Moved(at: seq<nat>): (moved: seq<nat>)
    ensures |moved| == |at| && forall k | 0 <= k < |at| :: moved[k] == at[k] + 1
  {
    seq(|at|, k requires 0 <= k < |at| => at[k] + 1)
  }

  lemma MovedFinds(at: seq<nat>, i: nat)
    requires i in at
    ensures i + 1 in Moved(at)
  {
    var k :| 0 <= k < |at| && at[k] == i;
    assert Moved(at)[k] == i + 1;
  }

  lemma MovedPlaces(at: seq<nat>, rows: seq<Row>, wanted: Row -> bool)
    requires rows != [] && Places(at, rows[1..], wanted)
    ensures Increasing(Moved(at)) && AllWanted(Moved(at), rows, wanted)
    ensures forall i | 1 <= i < |rows| && wanted(rows[i]) :: i in Moved(at)
  {
    forall i | 1 <= i < |rows| && wanted(rows[i]) ensures i in Moved(at) {
      assert rows[1..][i - 1] == rows[i];
      MovedFinds(at, i - 1);
    }
  }

  /** The places behind the first row, and the first if it is wanted. */
  function WithFirst(at: seq<nat>, first: bool): seq<nat> {
    if first then [0] + Moved(at) else Moved(at)
  }

  lemma PlacesBehind(at: seq<nat>, rows: seq<Row>, wanted: Row -> bool)
    requires rows != [] && Places(at, rows[1..], wanted)
    ensures Places(WithFirst(at, wanted(rows[0])), rows, wanted)
  {
    MovedPlaces(at, rows, wanted);
    if wanted(rows[0]) {
      FirstPlace(Moved(at), rows, wanted);
    }
  }

  lemma FirstPlace(moved: seq<nat>, rows: seq<Row>, wanted: Row -> bool)
    requires rows != [] && wanted(rows[0]) && Increasing(moved) && AllWanted(moved, rows, wanted)
    requires (forall k | 0 <= k < |moved| :: moved[k] > 0) && forall i | 1 <= i < |rows| && wanted(rows[i]) :: i in moved
    ensures Places([0] + moved, rows, wanted)
  {
    var all := [0] + moved;
    assert Increasing(all);
    assert AllWanted(all, rows, wanted);
    assert 0 == all[0];
  }

  /** These rows, at these places. */
  predicate TakenFrom(rows: seq<Row>, at: seq<nat>, taken: seq<Row>) {
    |taken| == |at| && forall k | 0 <= k < |at| :: at[k] < |rows| && taken[k] == rows[at[k]]
  }

  predicate ColumnsFrom(rows: seq<Row>, at: seq<nat>, taken: seq<Columns>) {
    |taken| == |at| && forall k | 0 <= k < |at| :: at[k] < |rows| && taken[k] == rows[at[k]].columns
  }

  lemma TakenBehind(rows: seq<Row>, at: seq<nat>, taken: seq<Row>, first: bool)
    requires rows != [] && TakenFrom(rows[1..], at, taken)
    ensures TakenFrom(rows, WithFirst(at, first), if first then [rows[0]] + taken else taken)
  {
    assert forall k | 0 <= k < |at| :: rows[1..][at[k]] == rows[Moved(at)[k]];
  }

  lemma ColumnsBehind(rows: seq<Row>, at: seq<nat>, taken: seq<Columns>, first: bool)
    requires rows != [] && ColumnsFrom(rows[1..], at, taken)
    ensures ColumnsFrom(rows, WithFirst(at, first), if first then [rows[0].columns] + taken else taken)
  {
    assert forall k | 0 <= k < |at| :: rows[1..][at[k]] == rows[Moved(at)[k]];
  }

  lemma {:induction false} ReadPlaces(cfg: Config, ctx: Context, table: string, rows: seq<Row>, where: Chain)
    returns (at: seq<nat>)
    ensures Places(at, rows, Admits(cfg, ctx, table, where))
    ensures ColumnsFrom(rows, at, Matching(cfg, ctx, table, rows, where))
  {
    at := [];
    if rows != [] {
      MeetsWhenAdmitted(cfg, ctx, table, where, rows[0]);
      var behind := ReadPlaces(cfg, ctx, table, rows[1..], where);
      var first := Admitted(cfg, ctx, table, where, rows[0]);
      PlacesBehind(behind, rows, Admits(cfg, ctx, table, where));
      ColumnsBehind(rows, behind, Matching(cfg, ctx, table, rows[1..], where), first);
      at := WithFirst(behind, first);
    }
  }

  lemma {:induction false} LeftPlaces(cfg: Config, ctx: Context, table: string, rows: seq<Row>, where: Chain)
    returns (at: seq<nat>)
    ensures Places(at, rows, Refuses(cfg, ctx, table, where))
    ensures TakenFrom(rows, at, DeleteRows(cfg, ctx, table, rows, where))
  {
    at := [];
    if rows != [] {
      MeetsWhenAdmitted(cfg, ctx, table, where, rows[0]);
      var behind := LeftPlaces(cfg, ctx, table, rows[1..], where);
      var first := !Admitted(cfg, ctx, table, where, rows[0]);
      PlacesBehind(behind, rows, Refuses(cfg, ctx, table, where));
      TakenBehind(rows, behind, DeleteRows(cfg, ctx, table, rows[1..], where), first);
      at := WithFirst(behind, first);
    }
  }

  lemma {:induction false} UpdatedRow(cfg: Config, ctx: Context, table: string, rows: seq<Row>, where: Chain,
                                      change: Columns -> Columns, i: nat)
    requires i < |rows|
    ensures var after := UpdateRows(cfg, ctx, table, rows, where, change);
      && |after| == |rows|
      && after[i] == if Admitted(cfg, ctx, table, where, rows[i]) then Row(rows[i].tenant, change(rows[i].columns)) else rows[i]
  {
    MeetsWhenAdmitted(cfg, ctx, table, where, rows[0]);
    if i > 0 {
      UpdatedRow(cfg, ctx, table, rows[1..], where, change, i - 1);
    } else if |rows| > 1 {
      UpdatedRow(cfg, ctx, table, rows[1..], where, change, 0);
    }
  }

  // ----- Calls on a table -----

  /** The call goes on: the table is there, and a scoped one has a provider. */
  predicate GoesOn(cfg: Config, s: Store, ctx: Context, table: string) {
    table in s.tables && (table in cfg.scoped ==> ctx.InTenant?)
  }

  /** Nothing but this table is different. */
  predicate OnlyTable(before: Store, after: Store, table: string) {
    && after.cache == before.cache && after.now == before.now && after.tables.Keys == before.tables.Keys
    && forall t | t in before.tables && t != table :: after.tables[t] == before.tables[t]
  }

  /** A call that does not go on throws and changes nothing. */
  lemma RefusedCall(cfg: Config, s: Store, ctx: Context, cmd: Command)
    requires TableOf(cmd).Some? && !GoesOn(cfg, s, ctx, TableOf(cmd).value)
    ensures Exec(cfg, s, ctx, cmd) == (s, Threw)
  {
  }

  /** A read answers the columns of exactly the admitted rows, in the order of the table, and changes nothing. */
  lemma ReadMeaning(cfg: Config, s: Store, ctx: Context, table: string, where: Chain)
    requires GoesOn(cfg, s, ctx, table)
    ensures var (t, answer) := Exec(cfg, s, ctx, Select(table, where));
      && t == s && answer.Found?
      && exists at: seq<nat> :: Places(at, s.tables[table], Admits(cfg, ctx, table, where)) && ColumnsFrom(s.tables[table], at, answer.rows)
  {
    var at := ReadPlaces(cfg, ctx, table, s.tables[table], where);
    assert s.tables[table := s.tables[table]] == s.tables;
  }

  /**
   * An update keeps the rows in their order and each with its provider; it
   * changes the columns of exactly the admitted ones, and answers how many.
   */
  lemma UpdateMeaning(cfg: Config, s: Store, ctx: Context, table: string, where: Chain, change: Columns -> Columns)
    requires GoesOn(cfg, s, ctx, table)
    ensures var (t, answer) := Exec(cfg, s, ctx, Update(table, where, change));
      && OnlyTable(s, t, table) && |t.tables[table]| == |s.tables[table]|
      && (forall i | 0 <= i < |s.tables[table]| :: t.tables[table][i]
            == if Admitted(cfg, ctx, table, where, s.tables[table][i])
               then s.tables[table][i].(columns := change(s.tables[table][i].columns)) else s.tables[table][i])
      && exists at: seq<nat> :: Places(at, s.tables[table], Admits(cfg, ctx, table, where)) && answer == Changed(|at|)
  {
    var rows := s.tables[table];
    var at := ReadPlaces(cfg, ctx, table, rows, where);
    if rows == [] {
      assert UpdateRows(cfg, ctx, table, rows, where, change) == [];
    } else {
      UpdatedRow(cfg, ctx, table, rows, where, change, 0);
    }
    forall i | 0 <= i < |rows| ensures UpdateRows(cfg, ctx, table, rows, where, change)[i]
      == if Admitted(cfg, ctx, table, where, rows[i]) then rows[i].(columns := change(rows[i].columns)) else rows[i]
    {
      UpdatedRow(cfg, ctx, table, rows, where, change, i);
    }
  }

  /** A delete leaves exactly the rows that are not admitted, in their order, and answers how many are gone. */
  lemma DeleteMeaning(cfg: Config, s: Store, ctx: Context, table: string, where: Chain)
    requires GoesOn(cfg, s, ctx, table)
    ensures var (t, answer) := Exec(cfg, s, ctx, Delete(table, where));
      && OnlyTable(s, t, table)
      && (exists at: seq<nat> :: Places(at, s.tables[table], Refuses(cfg, ctx, table, where)) && TakenFrom(s.tables[table], at, t.tables[table]))
      && exists gone: seq<nat> :: Places(gone, s.tables[table], Admits(cfg, ctx, table, where)) && answer == Changed(|gone|)
  {
    var at := LeftPlaces(cfg, ctx, table, s.tables[table], where);
    var gone := ReadPlaces(cfg, ctx, table, s.tables[table], where);
  }

  /** The row as it is stored: under the provider in scope, on a table that has providers. */
  predicate StoredFor(cfg: Config, ctx: Context, table: string, given: Columns, stored: Row) {
    stored.columns == given && if table in cfg.scoped then ctx.InTenant? && stored.tenant == Some(ctx.id) else stored.tenant.None?
  }

  /** An insert puts the rows given, under the provider in scope, behind those that were there. */
  lemma InsertMeaning(cfg: Config, s: Store, ctx: Context, table: string, row: Columns, batch: seq<Columns>)
    requires GoesOn(cfg, s, ctx, table)
    ensures var (t, answer) := Exec(cfg, s, ctx, Insert(table, row));
      && OnlyTable(s, t, table) && answer == Changed(1)
      && |t.tables[table]| == |s.tables[table]| + 1 && s.tables[table] <= t.tables[table]
      && StoredFor(cfg, ctx, table, row, t.tables[table][|s.tables[table]|])
    ensures var (t, answer) := Exec(cfg, s, ctx, BatchInsert(table, batch));
      && OnlyTable(s, t, table) && answer == Changed(|batch|)
      && |t.tables[table]| == |s.tables[table]| + |batch| && s.tables[table] <= t.tables[table]
      && forall k | 0 <= k < |batch| :: StoredFor(cfg, ctx, table, batch[k], t.tables[table][|s.tables[table]| + k])
  {
  }

  /** An insert on the builder throws on a scoped table and writes nothing; on any other it is an insert. */
  lemma BuilderInsertMeaning(cfg: Config, s: Store, ctx: Context, table: string, row: Columns)
    requires GoesOn(cfg, s, ctx, table)
    ensures Exec(cfg, s, ctx, InsertOnBuilder(table, row))
            == if table in cfg.scoped then (s, Threw) else Exec(cfg, s, ctx, Insert(table, row))
  {
    assert s.tables[table := s.tables[table]] == s.tables;
  }

  // ----- The cache -----

  /** What a provider caches, it finds again until the lifetime is over, and not after; nobody else's calls come between. */
  lemma CachedUntilItExpires(cfg: Config, s: Store, p: int, value: string, later: int)
    ensures var (t, answer) := Exec(cfg, s, InTenant(p), CacheSet(value));
      && answer == Cached(value) && t.tables == s.tables && t.now == s.now
      && Exec(cfg, t.(now := later), InTenant(p), CacheGet)
         == (t.(now := later), if later < s.now + cfg.ttl then Cached(value) else Missing)
      && (forall q | q != p :: (q in t.cache <==> q in s.cache) && (q in s.cache ==> t.cache[q] == s.cache[q]))
  {
  }

  /** An entry forgotten, or never there, is not found; no other entry is touched. */
  lemma ForgottenIsMissing(cfg: Config, s: Store, p: int)
    ensures var (t, answer) := Exec(cfg, s, InTenant(p), CacheInvalidate);
      && answer == Ok && t.tables == s.tables && t.now == s.now
      && Exec(cfg, t, InTenant(p), CacheGet) == (t, Missing)
      && (forall q | q != p :: (q in t.cache <==> q in s.cache) && (q in s.cache ==> t.cache[q] == s.cache[q]))
    ensures p !in s.cache ==> Exec(cfg, s, InTenant(p), CacheGet) == (s, Missing)
  {
  }
}
