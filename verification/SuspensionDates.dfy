/**
 * The backfill of migration 0049: when each suspended provider without a date
 * was suspended, read off the audit trail in one pass from its newest line.
 */
module SuspensionDates {
  import opened Prelude

  datatype Tenant = Tenant(id: int, status: string, suspendedAt: Option<int>)

  /** What `JSON.parse` makes of a line's detail: broken, or an object with or without a `to`. */
  datatype Detail = Broken | Parsed(to: Option<string>)

  datatype Line = Line(id: int, tenant: int, action: string, detail: Detail, createdAt: int)

  predicate Undated(t: Tenant) {
    t.status == "suspended" && t.suspendedAt.None?
  }

  function Pending(tenants: seq<Tenant>): set<int> {
    set i | 0 <= i < |tenants| && Undated(tenants[i]) :: tenants[i].id
  }

  // ----- The select: `orderBy created_at desc, id desc` -----

  /** The newer of two lines comes first; of the same moment, the one written later. */
  predicate Newer(a: Line, b: Line) {
    a.createdAt > b.createdAt || (a.createdAt == b.createdAt && a.id > b.id)
  }

  function Insert(l: Line, sorted: seq<Line>): seq<Line> {
    if sorted == [] || Newer(l, sorted[0]) then [l] + sorted else [sorted[0]] + Insert(l, sorted[1..])
  }

  predicate Wanted(l: Line, pending: set<int>) {
    l.tenant in pending && l.action == "tenant.status_changed"
  }

  function Select(audit: seq<Line>, pending: set<int>): seq<Line> {
    if audit == [] then []
    else if Wanted(audit[0], pending) then Insert(audit[0], Select(audit[1..], pending))
    else Select(audit[1..], pending)
  }

  ghost predicate NewestFirst(lines: seq<Line>) {
    lines == [] || ((forall l | l in lines[1..] :: !Newer(l, lines[0])) && NewestFirst(lines[1..]))
  }

  lemma {:induction false} InsertKeepsOrder(l: Line, sorted: seq<Line>)
    requires NewestFirst(sorted)
    ensures NewestFirst(Insert(l, sorted))
    ensures forall x :: x in Insert(l, sorted) <==> x == l || x in sorted
  {
    if sorted != [] {
      assert sorted == [sorted[0]] + sorted[1..];
      if Newer(l, sorted[0]) {
        assert ([l] + sorted)[1..] == sorted;
      } else {
        InsertKeepsOrder(l, sorted[1..]);
        var tail := Insert(l, sorted[1..]);
        assert ([sorted[0]] + tail)[1..] == tail;
      }
    }
  }

  lemma {:induction false} SelectIsTheQuery(audit: seq<Line>, pending: set<int>)
    ensures NewestFirst(Select(audit, pending))
    ensures forall l :: l in Select(audit, pending) <==> l in audit && Wanted(l, pending)
  {
    if audit != [] {
      SelectIsTheQuery(audit[1..], pending);
      assert audit == [audit[0]] + audit[1..];
      if Wanted(audit[0], pending) { InsertKeepsOrder(audit[0], Select(audit[1..], pending)); }
    }
  }

  // ----- What the trail says -----

  predicate Readable(l: Line, tenant: int) {
    l.tenant == tenant && l.detail.Parsed?
  }

  /** A status change of this provider that can be read. */
  predicate Counts(l: Line, tenant: int) {
    l.tenant == tenant && l.detail.Parsed? && l.action == "tenant.status_changed"
  }

  /** The most recent one there is; of two of the same moment, the one written later. */
  ghost predicate Decides(audit: seq<Line>, l: Line, tenant: int) {
    && l in audit && Counts(l, tenant)
    && forall other | other in audit && Counts(other, tenant) && other != l ::
         l.createdAt > other.createdAt || (l.createdAt == other.createdAt && l.id > other.id)
  }

  /** The date it gives: its own, if it ended in `suspended`. */
  function Verdict(l: Line): Option<int>
    requires l.detail.Parsed?
  {
    if l.detail.to == Some("suspended") then Some(l.createdAt) else None
  }

  /** The first readable line of a provider. */
  function First(lines: seq<Line>, tenant: int): Option<Line> {
    if lines == [] then None
    else if Readable(lines[0], tenant) then Some(lines[0])
    else First(lines[1..], tenant)
  }

  predicate DistinctIds(audit: seq<Line>) {
    forall i, j | 0 <= i < j < |audit| :: audit[i].id != audit[j].id
  }

  lemma {:induction false} FirstIsNewest(lines: seq<Line>, tenant: int)
    requires NewestFirst(lines)
    ensures First(lines, tenant).None? ==> forall l | l in lines :: !Readable(l, tenant)
    ensures First(lines, tenant).Some? ==>
      var first := First(lines, tenant).value;
      first in lines && Readable(first, tenant) && forall l | l in lines && Readable(l, tenant) :: !Newer(l, first)
  {
    if lines != [] {
      FirstIsNewest(lines[1..], tenant);
      assert lines == [lines[0]] + lines[1..];
    }
  }

  lemma SameIdSameLine(audit: seq<Line>, a: Line, b: Line)
    requires DistinctIds(audit) && a in audit && b in audit && a.id == b.id
    ensures a == b
  {
    var i :| 0 <= i < |audit| && audit[i] == a;
    var j :| 0 <= j < |audit| && audit[j] == b;
    assert i == j;
  }

  /** The first readable line of the select is the most recent readable change in the trail. */
  lemma FirstDecides(audit: seq<Line>, pending: set<int>, tenant: int, l: Line)
    requires DistinctIds(audit) && tenant in pending
    ensures First(Select(audit, pending), tenant) == Some(l) <==> Decides(audit, l, tenant)
  {
    var lines := Select(audit, pending);
    SelectIsTheQuery(audit, pending);
    FirstIsNewest(lines, tenant);
    if First(lines, tenant).Some? {
      var first := First(lines, tenant).value;
      forall other | other in audit && Counts(other, tenant) ensures other == first || Newer(first, other) {
        assert other in lines && !Newer(other, first);
        if other.id == first.id { SameIdSameLine(audit, other, first); }
      }
      assert Decides(audit, first, tenant);
      assert Decides(audit, l, tenant) ==> l == first || (Newer(l, first) && Newer(first, l));
    }
  }

  // ----- The backfill -----

  function DateOf(audit: seq<Line>, pending: set<int>, tenant: int): Option<int> {
    match First(Select(audit, pending), tenant)
    case None => None
    case Some(l) => if l.detail.Parsed? then Verdict(l) else None
  }

  /** One provider after the backfill. */
  function Dated(t: Tenant, audit: seq<Line>, pending: set<int>): Tenant {
    if t.id in pending && DateOf(audit, pending, t.id).Some?
    then t.(suspendedAt := DateOf(audit, pending, t.id)) else t
  }

  predicate Keyed(tenants: seq<Tenant>) {
    forall i, j | 0 <= i < j < |tenants| :: tenants[i].id != tenants[j].id
  }

  lemma PendingByKey(tenants: seq<Tenant>, i: nat)
    requires Keyed(tenants) && i < |tenants|
    ensures tenants[i].id in Pending(tenants) <==> Undated(tenants[i])
  {
    if k :| 0 <= k < |tenants| && Undated(tenants[k]) && tenants[k].id == tenants[i].id {
      assert k == i;
    }
  }

  /**
   * An undated suspended provider gets the date of its most recent readable
   * status change exactly when that change ended in `suspended`, and otherwise
   * stays without one; no other provider is written.
   */
  lemma BackfillMeaning(tenants: seq<Tenant>, audit: seq<Line>, i: nat)
    requires Keyed(tenants) && DistinctIds(audit) && i < |tenants|
    ensures var t, after := tenants[i], Dated(tenants[i], audit, Pending(tenants));
      && (t.status != "suspended" || t.suspendedAt.Some? ==> after == t)
      && (t.status == "suspended" && t.suspendedAt.None? ==>
            && (forall l | Decides(audit, l, t.id) :: after ==
                  if l.detail.to == Some("suspended") then Tenant(t.id, t.status, Some(l.createdAt)) else t)
            && ((forall l | l in audit :: !Counts(l, t.id)) ==> after == t)
            && ((exists l | l in audit :: Counts(l, t.id)) ==> exists l :: Decides(audit, l, t.id)))
  {
    var t, pending := tenants[i], Pending(tenants);
    if Undated(t) {
      assert t.id in pending;
      forall l | Decides(audit, l, t.id) ensures Dated(t, audit, pending) == t.(suspendedAt := Verdict(l)) {
        FirstDecides(audit, pending, t.id, l);
      }
      if First(Select(audit, pending), t.id).Some? {
        var l := First(Select(audit, pending), t.id).value;
        FirstDecides(audit, pending, t.id, l);
        assert Counts(l, t.id);
        assert Decides(audit, l, t.id);
      } else {
        SelectIsTheQuery(audit, pending);
        FirstIsNewest(Select(audit, pending), t.id);
        forall l | l in audit ensures !Counts(l, t.id) {
          assert l in Select(audit, pending) <==> Wanted(l, pending);
        }
      }
    }
    PendingByKey(tenants, i);
  }

  lemma {:induction false} FirstOfConcat(a: seq<Line>, b: seq<Line>, tenant: int)
    ensures First(a + b, tenant) == if First(a, tenant).Some? then First(a, tenant) else First(b, tenant)
    ensures First(a, tenant).Some? ==> First(a, tenant).value.detail.Parsed?
  {
    if a == [] {
      assert a + b == b;
    } else {
      assert (a + b)[1..] == a[1..] + b;
      FirstOfConcat(a[1..], b, tenant);
    }
  }

  class TenantTable {
    var tenants: seq<Tenant>

    /** `update({ suspended_at })` where the id is the given one. */
    method SetSuspendedAt(id: int, date: int)
      modifies this
      ensures |tenants| == |old(tenants)|
      ensures forall i | 0 <= i < |tenants| ::
        tenants[i] == if old(tenants)[i].id == id then old(tenants)[i].(suspendedAt := Some(date)) else old(tenants)[i]
    {
      tenants := seq(|tenants|, i requires 0 <= i < |tenants| reads this =>
        if tenants[i].id == id then tenants[i].(suspendedAt := Some(date)) else tenants[i]);
    }

    /** The loop over the lines: the first readable one of each provider decides. `order` is the map's own. */
    method Decide(lines: seq<Line>) returns (decided: map<int, Option<int>>, order: seq<int>)
      ensures Distinct(order)
      ensures forall t :: t in order <==> t in decided
      ensures forall t :: t in decided <==> First(lines, t).Some?
      ensures forall t | t in decided ::
        First(lines, t).value.detail.Parsed? && decided[t] == Verdict(First(lines, t).value)
    {
      decided, order := map[], [];
      assert lines[..0] == [];
      for i := 0 to |lines|
        invariant Distinct(order) && forall t :: t in order <==> t in decided
        invariant forall t :: t in decided <==> First(lines[..i], t).Some?
        invariant forall t | t in decided ::
          First(lines[..i], t).value.detail.Parsed? && decided[t] == Verdict(First(lines[..i], t).value)
      {
        assert lines[..i + 1] == lines[..i] + [lines[i]];
        forall t ensures First(lines[..i + 1], t)
          == if First(lines[..i], t).Some? then First(lines[..i], t)
             else if Readable(lines[i], t) then Some(lines[i]) else None
        {
          FirstOfConcat(lines[..i], [lines[i]], t);
        }
        if lines[i].tenant in decided { continue; }
        if lines[i].detail.Broken? { continue; }
        decided := decided[lines[i].tenant := if lines[i].detail.to == Some("suspended") then Some(lines[i].createdAt) else None];
        order := order + [lines[i].tenant];
      }
      assert lines[..|lines|] == lines;
    }

    /** `up` of migration 0049, with its column and the audit table there. */
    method Backfill(audit: seq<Line>)
      modifies this
      ensures |tenants| == |old(tenants)|
      ensures forall i | 0 <= i < |tenants| :: tenants[i] == Dated(old(tenants)[i], audit, Pending(old(tenants)))
    {
      var pending := Pending(tenants);
      var lines := Select(audit, pending);
      SelectIsTheQuery(audit, pending);
      var decided, order := Decide(lines);
      for k := 0 to |order|
        invariant |tenants| == |old(tenants)|
        invariant forall i | 0 <= i < |tenants| ::
          tenants[i] == if old(tenants)[i].id in order[..k] then Written(old(tenants)[i], decided) else old(tenants)[i]
      {
        assert order[..k + 1] == order[..k] + [order[k]];
        var id := order[k];
        assert id in order;
        if decided[id].None? { continue; }
        SetSuspendedAt(id, decided[id].value);
      }
      assert order[..|order|] == order;
      forall i | 0 <= i < |tenants| ensures tenants[i] == Dated(old(tenants)[i], audit, pending) {
        OnlyPendingDecided(audit, pending, old(tenants)[i].id);
      }
    }
  }

  function Written(t: Tenant, decided: map<int, Option<int>>): Tenant {
    if t.id in decided && decided[t.id].Some? then t.(suspendedAt := decided[t.id]) else t
  }

  lemma OnlyPendingDecided(audit: seq<Line>, pending: set<int>, tenant: int)
    ensures First(Select(audit, pending), tenant).Some? ==> tenant in pending
  {
    SelectIsTheQuery(audit, pending);
    FirstIsNewest(Select(audit, pending), tenant);
  }
}
