/**
 * What each step of a query does to the table under row-level security: what a
 * statement changes of what the query finds, and what a commit makes of it.
 */
module RowLevelEffects {
  import opened Prelude
  import opened TenantStore
  import opened RowLevelSecurity

  /** Nothing but this query's own changes, and what it may go on with, is different. */
  ghost predicate OnlyOwnChanges(s: Db, t: Db, q: nat)
    requires q in s.queries
  {
    && t.committed == s.committed && t.pool == s.pool && t.bare == s.bare && t.queries.Keys == s.queries.Keys
    && (forall other | other in s.queries && other != q :: t.queries[other] == s.queries[other])
    && t.queries[q] == s.queries[q].(changed := t.queries[q].changed, next := s.queries[q].next + 1)
  }

  /** The row under an id is one the query may see and asks for. */
  predicate Hits(s: Db, q: nat, where: DbRow -> bool, id: nat)
    requires q in s.queries
  {
    var row := Standing(s, q, id);
    row.Some? && VisibleTo(s.queries[q].ctx, row.value.tenant) && where(row.value)
  }

  /** Some row asked for is held by another open transaction. */
  ghost predicate Waits(s: Db, q: nat, where: DbRow -> bool)
    requires q in s.queries
  {
    exists id: nat :: Hits(s, q, where, id) && exists other | other in s.queries :: other != q && id in s.queries[other].changed
  }

  /** The transaction ended and left nothing: its changes are gone and its connection is free. */
  ghost predicate RolledBack(s: Db, t: Db, q: nat)
    requires q in s.queries && s.queries[q].phase.Marked? && s.queries[q].phase.connection in s.pool
  {
    && t.committed == s.committed && q in t.queries && t.queries[q].phase.Ended? && t.queries[q].changed == map[]
    && s.queries[q].phase.connection in t.pool && t.pool[s.queries[q].phase.connection].owner.None?
    && forall other | other in s.queries && other != q :: other in t.queries && t.queries[other] == s.queries[other]
  }

  /** Where the setting is faithful, the targets are the hits. */
  lemma TargetsAreHits(s: Db, q: nat, where: DbRow -> bool)
    requires Inv(s) && q in s.queries && s.queries[q].phase.Marked? && s.queries[q].phase.connection in s.pool
    ensures var setting := s.pool[s.queries[q].phase.connection].Setting();
      var targets := RowLevelSecurity.Targets(Present(s.committed, s.queries[q].changed), setting, where);
      && (forall id: nat :: id in targets <==> Hits(s, q, where, id))
      && (AnyLocked(s, q, targets) <==> Waits(s, q, where))
  {
    MarkedIsFaithful(s, q);
    var setting := s.pool[s.queries[q].phase.connection].Setting();
    var present := Present(s.committed, s.queries[q].changed);
    var targets := RowLevelSecurity.Targets(present, setting, where);
    forall id: nat ensures id in targets <==> Hits(s, q, where, id) {
      PresentIsStanding(s, q, id);
      if id in present { assert Admits(setting, present[id].tenant) <==> VisibleTo(s.queries[q].ctx, present[id].tenant); }
    }
    if AnyLocked(s, q, targets) {
      var id :| id in targets && LockedByOther(s, q, id);
      assert Hits(s, q, where, id);
    }
    if id: nat :| Hits(s, q, where, id) && exists other | other in s.queries :: other != q && id in s.queries[other].changed {
      assert id in targets && LockedByOther(s, q, id);
    }
  }

  /** A delete takes away exactly the rows asked for that the scope may see, or waits for one that is held. */
  lemma RemoveMeaning(s: Db, q: nat, where: DbRow -> bool)
    requires Inv(s) && AboutTo(s, q, Remove(where))
    ensures var t := Step(s, Execute(q));
      if Waits(s, q, where) then t == s
      else OnlyOwnChanges(s, t, q) && t.nextId == s.nextId
           && forall id: nat :: Standing(t, q, id) == if Hits(s, q, where, id) then None else Standing(s, q, id)
  {
    TargetsAreHits(s, q, where);
  }

  /**
   * An update changes exactly those; it is undone with its whole transaction
   * when one of them would leave the scope.
   */
  lemma ModifyMeaning(s: Db, q: nat, where: DbRow -> bool, change: DbRow -> DbRow)
    requires Inv(s) && AboutTo(s, q, Modify(where, change))
    ensures var t := Step(s, Execute(q));
      if Waits(s, q, where) then t == s
      else if exists id: nat :: Hits(s, q, where, id) && !VisibleTo(s.queries[q].ctx, change(Standing(s, q, id).value).tenant)
      then RolledBack(s, t, q)
      else OnlyOwnChanges(s, t, q) && t.nextId == s.nextId
           && forall id: nat :: Standing(t, q, id)
                == if Hits(s, q, where, id) then Some(change(Standing(s, q, id).value)) else Standing(s, q, id)
  {
    TargetsAreHits(s, q, where);
    MarkedIsFaithful(s, q);
    var present := Present(s.committed, s.queries[q].changed);
    var setting := s.pool[s.queries[q].phase.connection].Setting();
    var targets := RowLevelSecurity.Targets(present, setting, where);
    RefusedWhenLeaving(s, q, where, change, targets);
    if !AnyLocked(s, q, targets) && !AnyRefused(setting, present, targets, change) {
      assert Step(s, Execute(q)) == Advance(s, q, s.queries[q].changed + map id | id in targets :: Some(change(present[id])));
      ChangesApplied(s, q, targets, change);
    }
  }

  lemma ChangesApplied(s: Db, q: nat, targets: set<nat>, change: DbRow -> DbRow)
    requires q in s.queries && targets <= Present(s.committed, s.queries[q].changed).Keys
    ensures var present := Present(s.committed, s.queries[q].changed);
      var t := Advance(s, q, s.queries[q].changed + map id | id in targets :: Some(change(present[id])));
      && OnlyOwnChanges(s, t, q) && t.nextId == s.nextId
      && (forall id | id in targets :: Standing(s, q, id).Some? && Standing(t, q, id) == Some(change(Standing(s, q, id).value)))
      && (forall id: nat | id !in targets :: Standing(t, q, id) == Standing(s, q, id))
  {
    forall id | id in targets ensures Standing(s, q, id) == Some(Present(s.committed, s.queries[q].changed)[id]) {
      PresentIsStanding(s, q, id);
    }
  }

  lemma RefusedWhenLeaving(s: Db, q: nat, where: DbRow -> bool, change: DbRow -> DbRow, targets: set<nat>)
    requires Inv(s) && q in s.queries && s.queries[q].phase.Marked? && s.queries[q].phase.connection in s.pool
    requires targets <= Present(s.committed, s.queries[q].changed).Keys
    requires forall id: nat :: id in targets <==> Hits(s, q, where, id)
    ensures AnyRefused(s.pool[s.queries[q].phase.connection].Setting(), Present(s.committed, s.queries[q].changed), targets, change)
      <==> exists id: nat :: Hits(s, q, where, id) && !VisibleTo(s.queries[q].ctx, change(Standing(s, q, id).value).tenant)
  {
    MarkedIsFaithful(s, q);
    var present := Present(s.committed, s.queries[q].changed);
    var setting := s.pool[s.queries[q].phase.connection].Setting();
    forall id | id in targets
      ensures Standing(s, q, id) == Some(present[id])
      ensures Admits(setting, change(present[id]).tenant) <==> VisibleTo(s.queries[q].ctx, change(present[id]).tenant)
    {
      PresentIsStanding(s, q, id);
    }
    if AnyRefused(setting, present, targets, change) {
      var id :| id in targets && !Admits(setting, change(present[id]).tenant);
      assert Hits(s, q, where, id);
    }
    if id: nat :| Hits(s, q, where, id) && !VisibleTo(s.queries[q].ctx, change(Standing(s, q, id).value).tenant) {
      assert id in targets && !Admits(setting, change(present[id]).tenant);
    }
  }

  /** An insert adds its row under a new id when the scope may see it, and otherwise undoes the transaction. */
  lemma AddMeaning(s: Db, q: nat, row: DbRow)
    requires Inv(s) && AboutTo(s, q, Add(row))
    ensures var t := Step(s, Execute(q));
      if VisibleTo(s.queries[q].ctx, row.tenant) then
        OnlyOwnChanges(s, t, q) && t.nextId == s.nextId + 1 && s.nextId !in s.committed
        && forall id: nat :: Standing(t, q, id) == if id == s.nextId then Some(row) else Standing(s, q, id)
      else RolledBack(s, t, q)
  {
    MarkedIsFaithful(s, q);
    NewIdIsFree(s, q);
    assert Admits(s.pool[s.queries[q].phase.connection].Setting(), row.tenant) <==> VisibleTo(s.queries[q].ctx, row.tenant);
  }

  /** A commit makes the table what the query found in it last, and gives the connection back. */
  lemma CommitMeaning(s: Db, q: nat)
    requires Inv(s) && q in s.queries && s.queries[q].phase.Marked?
    ensures var t := Step(s, Commit(q));
      && (forall id: nat :: (if id in t.committed then Some(t.committed[id]) else None) == Standing(s, q, id))
      && q in t.queries && t.queries[q] == s.queries[q].(phase := Ended, changed := map[])
      && s.queries[q].phase.connection in t.pool && t.pool[s.queries[q].phase.connection].owner.None?
      && forall other | other in s.queries && other != q :: other in t.queries && t.queries[other] == s.queries[other]
  {
    forall id: nat ensures Standing(s, q, id)
      == if id in Present(s.committed, s.queries[q].changed) then Some(Present(s.committed, s.queries[q].changed)[id]) else None
    {
      PresentIsStanding(s, q, id);
    }
  }

  /** An abort leaves the table as it was. */
  lemma AbortMeaning(s: Db, q: nat)
    requires Inv(s) && q in s.queries && s.queries[q].phase.Marked?
    ensures RolledBack(s, Step(s, Abort(q)), q)
  {
  }

  /** A query that is built takes any idle connection, and marks it for the scope it was built in before its first statement. */
  lemma QueryGetsItsMark(s: Db, q: nat, ctx: Context, statements: seq<Statement>, c: nat)
    requires Inv(s) && q !in s.queries && ValidContext(ctx) && c in s.pool && s.pool[c].owner.None?
    ensures var t := Step(Step(Step(s, Build(q, ctx, statements)), Begin(q, c)), SetMark(q));
      && q in t.queries && t.queries[q] == Query(ctx, MarkOf(ctx), statements, Marked(c), 0, map[], [])
      && c in t.pool && t.pool[c].owner == Some(q) && t.pool[c].Setting() == Some(MarkOf(ctx))
      && t.committed == s.committed
      && (statements != [] ==> AboutTo(t, q, statements[0]))
      && forall id: nat :: Standing(t, q, id) == if id in s.committed then Some(s.committed[id]) else None
  {
  }

  /** A read that reaches an idle connection with no mark is answered, with nothing. */
  lemma BareReadMeaning(s: Db, c: nat, where: DbRow -> bool)
    requires Inv(s) && c in s.pool && s.pool[c].owner.None?
    ensures var t := Step(s, Bare(c, Read(where)));
      |t.bare| == |s.bare| + 1 && t.bare[..|s.bare|] == s.bare && t.bare[|s.bare|].rows == map[]
  {
    BareDoesNothing(s, c, Read(where));
  }
}
