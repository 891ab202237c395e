/**
 * Resending the equipment catalogue: `propagateCatalogue` of `seed.js`. One
 * provider's copy of one table is first described as a whole, from the rows it
 * had and the source's rows; the loop is then proved to arrive there.
 */
module Catalogue {
  import opened Prelude

  /** The columns that are copied. `identity` is the one a row is recognised by. */
  datatype Profile = Profile(identity: string, rest: string)

  datatype Row = Row(id: nat, tenant: int, profile: Profile)

  function Mine(rows: seq<Row>, tenant: int): seq<Row> {
    if rows == [] then []
    else IfMine(rows[0], tenant) + Mine(rows[1..], tenant)
  }

  function Identities(rows: seq<Row>): set<string> {
    if rows == [] then {} else Identities(rows[..|rows| - 1]) + {rows[|rows| - 1].profile.identity}
  }

  // ----- The copy as it ends up -----

  /** The last of the source's rows with this identity. */
  function LastOf(source: seq<Row>, identity: string): Profile
    requires identity in Identities(source)
  {
    var last := source[|source| - 1];
    if last.profile.identity == identity then last.profile else LastOf(source[..|source| - 1], identity)
  }

  /** No later row of the copy has the same identity: the one a map of them keeps. */
  predicate IsLast(mine: seq<Row>, i: nat)
    requires i < |mine|
  {
    forall j | i < j < |mine| :: mine[j].profile.identity != mine[i].profile.identity
  }

  /** A row the copy had: overwritten, if asked and if it is the one found. */
  function Kept(mine: seq<Row>, source: seq<Row>, overwrite: bool, i: nat): Row
    requires i < |mine|
  {
    if overwrite && mine[i].profile.identity in Identities(source) && IsLast(mine, i)
    then mine[i].(profile := LastOf(source, mine[i].profile.identity)) else mine[i]
  }

  function KeptAll(mine: seq<Row>, source: seq<Row>, overwrite: bool): (kept: seq<Row>)
    ensures |kept| == |mine|
  {
    seq(|mine|, i requires 0 <= i < |mine| => Kept(mine, source, overwrite, i))
  }

  /** The rows it gains: the first of the source's rows for each identity it lacked. */
  function Gained(mine: seq<Row>, source: seq<Row>, tenant: int, nextId: nat): (gained: seq<Row>)
    ensures |gained| <= |source|
  {
    if source == [] then []
    else
      var front, row := Gained(mine, source[..|source| - 1], tenant, nextId), source[|source| - 1];
      if row.profile.identity in Identities(mine) + Identities(source[..|source| - 1]) then front
      else front + [Row(nextId + |front|, tenant, row.profile)]
  }

  function Resent(mine: seq<Row>, source: seq<Row>, overwrite: bool, tenant: int, nextId: nat): seq<Row> {
    KeptAll(mine, source, overwrite) + Gained(mine, source, tenant, nextId)
  }

  /** Gaining a row whose identity was neither in the copy nor gained before. */
  lemma GainedOneMore(mine: set<string>, before: set<string>, identity: string)
    requires identity !in mine + before
    ensures (before + {identity}) - mine == (before - mine) + {identity}
    ensures |(before + {identity}) - mine| == |before - mine| + 1
  {
    assert (before + {identity}) - mine == (before - mine) + {identity};
  }

  lemma GainedNoMore(mine: set<string>, before: set<string>, identity: string)
    requires identity in mine + before
    ensures (before + {identity}) - mine == before - mine
  {
  }

  /** The rows gained bring the identities that were missing, one row each. */
  lemma {:induction false} GainedIdentities(mine: seq<Row>, source: seq<Row>, tenant: int, nextId: nat)
    ensures Identities(Gained(mine, source, tenant, nextId)) == Identities(source) - Identities(mine)
    ensures |Gained(mine, source, tenant, nextId)| == |Identities(source) - Identities(mine)|
  {
    if source != [] {
      var n := |source| - 1;
      var front, row := Gained(mine, source[..n], tenant, nextId), source[n];
      GainedIdentities(mine, source[..n], tenant, nextId);
      if row.profile.identity in Identities(mine) + Identities(source[..n]) {
        GainedNoMore(Identities(mine), Identities(source[..n]), row.profile.identity);
      } else {
        GainedOneMore(Identities(mine), Identities(source[..n]), row.profile.identity);
        IdentitiesOfSnoc(front, Row(nextId + |front|, tenant, row.profile));
      }
    }
  }

  lemma {:induction false} GainedPlaces(mine: seq<Row>, source: seq<Row>, tenant: int, nextId: nat)
    ensures forall i | 0 <= i < |Gained(mine, source, tenant, nextId)| ::
      Gained(mine, source, tenant, nextId)[i].tenant == tenant && Gained(mine, source, tenant, nextId)[i].id == nextId + i
  {
    if source != [] { GainedPlaces(mine, source[..|source| - 1], tenant, nextId); }
  }

  lemma IdentitiesOfSnoc(rows: seq<Row>, last: Row)
    ensures Identities(rows + [last]) == Identities(rows) + {last.profile.identity}
  {
    assert (rows + [last])[..|rows|] == rows;
  }

  lemma IdentitiesSnoc(rows: seq<Row>, n: nat)
    requires n < |rows|
    ensures Identities(rows[..n + 1]) == Identities(rows[..n]) + {rows[n].profile.identity}
  {
    assert rows[..n + 1][..n] == rows[..n];
  }

  lemma {:induction false} IdentityOf(rows: seq<Row>, i: nat)
    requires i < |rows|
    ensures rows[i].profile.identity in Identities(rows)
  {
    var n := |rows| - 1;
    if i < n {
      assert rows[..n][i] == rows[i];
      IdentityOf(rows[..n], i);
    }
  }

  lemma {:induction false} LastOfIsIdentity(source: seq<Row>, identity: string)
    requires identity in Identities(source)
    ensures LastOf(source, identity).identity == identity
    ensures exists i | 0 <= i < |source| :: source[i].profile == LastOf(source, identity)
  {
    var n := |source| - 1;
    if source[n].profile.identity != identity {
      IdentitiesSnoc(source, n);
      assert source[..n + 1] == source;
      LastOfIsIdentity(source[..n], identity);
      var i :| 0 <= i < n && source[..n][i].profile == LastOf(source[..n], identity);
      assert source[i].profile == LastOf(source, identity);
    }
  }

  /** The rows it had, each in its place with its id. */
  lemma ResentKeepsRows(mine: seq<Row>, source: seq<Row>, overwrite: bool, tenant: int, nextId: nat, i: nat)
    requires i < |mine|
    ensures |Resent(mine, source, overwrite, tenant, nextId)| >= |mine|
    ensures var after := Resent(mine, source, overwrite, tenant, nextId)[i];
      && after == mine[i].(profile := after.profile)
      && after.profile.identity == mine[i].profile.identity
      && (!overwrite || mine[i].profile.identity !in Identities(source) ==> after == mine[i])
  {
    if mine[i].profile.identity in Identities(source) { LastOfIsIdentity(source, mine[i].profile.identity); }
  }

  lemma {:induction false} IdentitiesOfConcat(a: seq<Row>, b: seq<Row>)
    ensures Identities(a + b) == Identities(a) + Identities(b)
    decreases |b|
  {
    if b == [] {
      assert a + b == a;
    } else {
      var n := |b| - 1;
      IdentitiesOfConcat(a, b[..n]);
      IdentitiesOfSnoc(a + b[..n], b[n]);
      assert (a + b[..n]) + [b[n]] == a + b;
    }
  }

  lemma {:induction false} SameIdentities(a: seq<Row>, b: seq<Row>)
    requires |a| == |b| && forall i | 0 <= i < |a| :: a[i].profile.identity == b[i].profile.identity
    ensures Identities(a) == Identities(b)
  {
    if a != [] {
      var n := |a| - 1;
      assert forall i | 0 <= i < n :: a[..n][i] == a[i] && b[..n][i] == b[i];
      SameIdentities(a[..n], b[..n]);
    }
  }

  /**
   * Resending without overwriting leaves every row as it was; with or without,
   * the copy ends with its own identities and the source's, and gains one row
   * for each identity it lacked.
   */
  lemma ResentMeaning(mine: seq<Row>, source: seq<Row>, overwrite: bool, tenant: int, nextId: nat)
    ensures var after := Resent(mine, source, overwrite, tenant, nextId);
      && Identities(after) == Identities(mine) + Identities(source)
      && |after| == |mine| + |Identities(source) - Identities(mine)|
      && (!overwrite ==> mine <= after)
  {
    var kept := KeptAll(mine, source, overwrite);
    forall i | 0 <= i < |mine| ensures kept[i].profile.identity == mine[i].profile.identity {
      ResentKeepsRows(mine, source, overwrite, tenant, nextId, i);
    }
    SameIdentities(kept, mine);
    GainedIdentities(mine, source, tenant, nextId);
    IdentitiesOfConcat(kept, Gained(mine, source, tenant, nextId));
    if !overwrite { assert kept == mine; }
  }

  /** No two rows of one identity. */
  predicate UniqueIdentities(rows: seq<Row>) {
    forall i, j | 0 <= i < j < |rows| :: rows[i].profile.identity != rows[j].profile.identity
  }

  /** Rows of one identity have the same columns. */
  predicate OneProfileEach(rows: seq<Row>) {
    forall i, j | 0 <= i < |rows| && 0 <= j < |rows| && rows[i].profile.identity == rows[j].profile.identity ::
      rows[i].profile == rows[j].profile
  }

  predicate Holds(rows: seq<Row>, profile: Profile) {
    exists i | 0 <= i < |rows| :: rows[i].profile == profile
  }

  /** The first of the source's rows with this identity. */
  function FirstOf(source: seq<Row>, identity: string): Profile
    requires identity in Identities(source)
  {
    var n := |source| - 1;
    if identity in Identities(source[..n]) then FirstOf(source[..n], identity) else source[n].profile
  }

  lemma {:induction false} FirstOfIsIdentity(source: seq<Row>, identity: string)
    requires identity in Identities(source)
    ensures FirstOf(source, identity).identity == identity
    ensures exists i | 0 <= i < |source| :: source[i].profile == FirstOf(source, identity)
  {
    var n := |source| - 1;
    if identity in Identities(source[..n]) {
      FirstOfIsIdentity(source[..n], identity);
      var i :| 0 <= i < n && source[..n][i].profile == FirstOf(source[..n], identity);
      assert source[i].profile == FirstOf(source, identity);
    }
  }

  predicate FirstAt(source: seq<Row>, i: nat, identity: string) {
    && i < |source| && source[i].profile.identity == identity
    && forall j | 0 <= j < i :: source[j].profile.identity != identity
  }

  predicate LastAt(source: seq<Row>, i: nat, identity: string) {
    && i < |source| && source[i].profile.identity == identity
    && forall j | i < j < |source| :: source[j].profile.identity != identity
  }

  /** Which row the first is, and which the last. */
  lemma {:induction false} FirstAndLastOf(source: seq<Row>, identity: string) returns (first: nat, last: nat)
    requires identity in Identities(source)
    ensures FirstAt(source, first, identity) && source[first].profile == FirstOf(source, identity)
    ensures LastAt(source, last, identity) && source[last].profile == LastOf(source, identity)
  {
    var n := |source| - 1;
    first, last := n, n;
    assert forall i | 0 <= i < n :: source[..n][i] == source[i];
    if identity in Identities(source[..n]) {
      var f, l := FirstAndLastOf(source[..n], identity);
      first := f;
      if source[n].profile.identity != identity { last := l; }
    } else {
      forall j | 0 <= j < n ensures source[j].profile.identity != identity { IdentityOf(source[..n], j); }
    }
  }

  /** Each row gained has the columns of the first source row of its identity. */
  lemma {:induction false} GainedAreFirst(mine: seq<Row>, source: seq<Row>, tenant: int, nextId: nat, i: nat)
    requires i < |Gained(mine, source, tenant, nextId)|
    ensures var profile := Gained(mine, source, tenant, nextId)[i].profile;
      profile.identity in Identities(source) && profile == FirstOf(source, profile.identity)
  {
    var n := |source| - 1;
    if i < |Gained(mine, source[..n], tenant, nextId)| { GainedAreFirst(mine, source[..n], tenant, nextId, i); }
  }

  lemma {:induction false} LastWithIdentity(mine: seq<Row>, identity: string) returns (i: nat)
    requires identity in Identities(mine)
    ensures i < |mine| && mine[i].profile.identity == identity && IsLast(mine, i)
  {
    var n := |mine| - 1;
    if mine[n].profile.identity == identity {
      i := n;
    } else {
      IdentitiesSnoc(mine, n);
      assert mine[..n + 1] == mine;
      i := LastWithIdentity(mine[..n], identity);
      forall j | i < j < |mine| ensures mine[j].profile.identity != mine[i].profile.identity {
        if j < n { assert mine[..n][j] == mine[j]; }
      }
    }
  }

  /** An older row of the copy, behind another of its identity, with these columns. */
  predicate BehindAnother(mine: seq<Row>, profile: Profile) {
    exists i | 0 <= i < |mine| :: mine[i].profile == profile && !IsLast(mine, i)
  }

  /** The columns an identity of the source ends with where the copy looks it up: the last if it had the identity, else the first. */
  function Winner(mine: seq<Row>, source: seq<Row>, identity: string): Profile
    requires identity in Identities(source)
  {
    if identity in Identities(mine) then LastOf(source, identity) else FirstOf(source, identity)
  }

  /** The rows of the copy with an identity of the source. */
  lemma ResentRow(mine: seq<Row>, source: seq<Row>, tenant: int, nextId: nat, i: nat)
    requires i < |Resent(mine, source, true, tenant, nextId)|
    requires Resent(mine, source, true, tenant, nextId)[i].profile.identity in Identities(source)
    ensures var profile := Resent(mine, source, true, tenant, nextId)[i].profile;
      profile == Winner(mine, source, profile.identity) || BehindAnother(mine, profile)
  {
    if i < |mine| {
      ResentKeepsRows(mine, source, true, tenant, nextId, i);
      IdentityOf(mine, i);
    } else {
      var gained := Gained(mine, source, tenant, nextId);
      GainedAreFirst(mine, source, tenant, nextId, i - |mine|);
      GainedIdentities(mine, source, tenant, nextId);
      IdentityOf(gained, i - |mine|);
    }
  }

  /** The winner is held. */
  lemma WinnerIsHeld(mine: seq<Row>, source: seq<Row>, tenant: int, nextId: nat, identity: string)
    requires identity in Identities(source)
    ensures Holds(Resent(mine, source, true, tenant, nextId), Winner(mine, source, identity))
  {
    var after := Resent(mine, source, true, tenant, nextId);
    if identity in Identities(mine) {
      var i := LastWithIdentity(mine, identity);
      assert after[i].profile == LastOf(source, identity);
    } else {
      var gained := Gained(mine, source, tenant, nextId);
      GainedIdentities(mine, source, tenant, nextId);
      var i := LastWithIdentity(gained, identity);
      GainedAreFirst(mine, source, tenant, nextId, i);
      assert after[|mine| + i] == gained[i];
    }
  }

  lemma BehindIsHeld(mine: seq<Row>, source: seq<Row>, tenant: int, nextId: nat, profile: Profile)
    requires BehindAnother(mine, profile)
    ensures Holds(Resent(mine, source, true, tenant, nextId), profile)
  {
    var i :| 0 <= i < |mine| && mine[i].profile == profile && !IsLast(mine, i);
    assert Resent(mine, source, true, tenant, nextId)[i] == mine[i];
  }

  /**
   * Whether a row of the source is in the copy after overwriting: if and only if
   * it is the last of its identity where the copy had that identity, or the first
   * where it had not - or the copy had the same columns on a row it never looks up.
   */
  lemma HeldIff(mine: seq<Row>, source: seq<Row>, tenant: int, nextId: nat, k: nat)
    requires k < |source|
    ensures source[k].profile.identity in Identities(source)
    ensures Holds(Resent(mine, source, true, tenant, nextId), source[k].profile) <==>
      Winner(mine, source, source[k].profile.identity) == source[k].profile || BehindAnother(mine, source[k].profile)
  {
    var after := Resent(mine, source, true, tenant, nextId);
    IdentityOf(source, k);
    WinnerIsHeld(mine, source, tenant, nextId, source[k].profile.identity);
    if BehindAnother(mine, source[k].profile) { BehindIsHeld(mine, source, tenant, nextId, source[k].profile); }
    if i :| 0 <= i < |after| && after[i].profile == source[k].profile { ResentRow(mine, source, tenant, nextId, i); }
  }

  lemma WinnerIsOfTheSource(mine: seq<Row>, source: seq<Row>, identity: string)
    requires identity in Identities(source)
    ensures Winner(mine, source, identity).identity == identity
    ensures exists i | 0 <= i < |source| :: source[i].profile == Winner(mine, source, identity)
  {
    LastOfIsIdentity(source, identity);
    FirstOfIsIdentity(source, identity);
  }

  /** Overwriting from a source whose rows of one identity agree, every row of it ends in every copy. */
  lemma OverwritingBringsEverything(mine: seq<Row>, source: seq<Row>, tenant: int, nextId: nat)
    requires OneProfileEach(source)
    ensures forall k | 0 <= k < |source| :: Holds(Resent(mine, source, true, tenant, nextId), source[k].profile)
  {
    forall k | 0 <= k < |source| ensures Holds(Resent(mine, source, true, tenant, nextId), source[k].profile) {
      HeldIff(mine, source, tenant, nextId, k);
      WinnerIsOfTheSource(mine, source, source[k].profile.identity);
    }
  }

  /** For a copy without duplicates that is also what it takes. */
  lemma OverwritingBringsEverythingIff(mine: seq<Row>, source: seq<Row>, tenant: int, nextId: nat)
    requires UniqueIdentities(mine)
    ensures (forall k | 0 <= k < |source| :: Holds(Resent(mine, source, true, tenant, nextId), source[k].profile))
            <==> OneProfileEach(source)
  {
    if OneProfileEach(source) {
      OverwritingBringsEverything(mine, source, tenant, nextId);
    } else {
      var i, j :| 0 <= i < |source| && 0 <= j < |source| && source[i].profile.identity == source[j].profile.identity
        && source[i].profile != source[j].profile;
      HeldIff(mine, source, tenant, nextId, i);
      HeldIff(mine, source, tenant, nextId, j);
    }
  }

  lemma {:induction false} NothingToGain(mine: seq<Row>, source: seq<Row>, tenant: int, nextId: nat)
    requires Identities(source) <= Identities(mine)
    ensures Gained(mine, source, tenant, nextId) == []
  {
    GainedIdentities(mine, source, tenant, nextId);
    assert Identities(source) - Identities(mine) == {};
  }

  /** A second run gains nothing, and without overwriting changes nothing at all. */
  lemma SecondRunGainsNothing(mine: seq<Row>, source: seq<Row>, overwrite: bool, tenant: int, nextId: nat, later: nat)
    ensures var after := Resent(mine, source, overwrite, tenant, nextId);
      && Gained(after, source, tenant, later) == []
      && (!overwrite ==> Resent(after, source, overwrite, tenant, later) == after)
  {
    ResentMeaning(mine, source, overwrite, tenant, nextId);
    NothingToGain(Resent(mine, source, overwrite, tenant, nextId), source, tenant, later);
  }

  /**
   * With two rows of one identity in the source, a copy that lacked it is left
   * with the first, though the run reports an overwriting.
   */
  lemma SecondOfTwoIsLost(a: Profile, b: Profile, from: int, tenant: int, nextId: nat)
    requires a.identity == b.identity && a != b
    ensures var source := [Row(0, from, a), Row(1, from, b)];
      Resent([], source, true, tenant, nextId) == [Row(nextId, tenant, a)]
  {
    var source := [Row(0, from, a), Row(1, from, b)];
    assert source[..1] == [Row(0, from, a)] && source[..1][..0] == [];
    assert Gained([], source[..1][..0], tenant, nextId) == [];
    assert Gained([], source[..1], tenant, nextId) == [Row(nextId, tenant, a)];
    IdentityOf(source[..1], 0);
  }

  // ----- One row of the source at a time -----

  /** The ids of a table grow from row to row, and the next one to be given is above them all. */
  predicate Ascending(rows: seq<Row>, below: nat)
    decreases |rows|
  {
    rows == [] || (rows[|rows| - 1].id < below && Ascending(rows[..|rows| - 1], rows[|rows| - 1].id))
  }

  lemma {:induction false} AscendingAt(rows: seq<Row>, below: nat, i: nat)
    requires Ascending(rows, below) && i < |rows|
    ensures rows[i].id < below
    decreases |rows|
  {
    var n := |rows| - 1;
    if i < n {
      assert rows[..n][i] == rows[i];
      AscendingAt(rows[..n], rows[n].id, i);
    }
  }

  lemma {:induction false} AscendingPair(rows: seq<Row>, below: nat, i: nat, j: nat)
    requires Ascending(rows, below) && i < j < |rows|
    ensures rows[i].id < rows[j].id
    decreases |rows|
  {
    var n := |rows| - 1;
    assert rows[..n][i] == rows[i];
    if j == n {
      AscendingAt(rows[..n], rows[n].id, i);
    } else {
      assert rows[..n][j] == rows[j];
      AscendingPair(rows[..n], rows[n].id, i, j);
    }
  }

  lemma AscendingSnoc(rows: seq<Row>, last: Row, below: nat)
    requires Ascending(rows, last.id) && last.id < below
    ensures Ascending(rows + [last], below)
  {
    assert (rows + [last])[..|rows|] == rows;
  }

  lemma {:induction false} AscendingUpdated(rows: seq<Row>, below: nat, tenant: int, id: nat, profile: Profile)
    requires Ascending(rows, below)
    ensures Ascending(Updated(rows, tenant, id, profile), below)
    decreases |rows|
  {
    if rows != [] {
      var n := |rows| - 1;
      AscendingUpdated(rows[..n], rows[n].id, tenant, id, profile);
      assert Updated(rows, tenant, id, profile)[..n] == Updated(rows[..n], tenant, id, profile);
    }
  }

  lemma {:induction false} MineAscending(rows: seq<Row>, below: nat, tenant: int)
    requires Ascending(rows, below)
    ensures Ascending(Mine(rows, tenant), below)
    decreases |rows|
  {
    if rows != [] {
      var n := |rows| - 1;
      var front, last := rows[..n], rows[n];
      MineAscending(front, last.id, tenant);
      assert front + [last] == rows;
      MineOfConcat(front, [last], tenant);
      if last.tenant == tenant {
        AscendingSnoc(Mine(front, tenant), last, below);
      } else {
        assert Mine(front, tenant) + [] == Mine(front, tenant);
      }
    }
  }

  function IfMine(row: Row, tenant: int): seq<Row> {
    if row.tenant == tenant then [row] else []
  }

  lemma {:induction false} MineOfConcat(a: seq<Row>, b: seq<Row>, tenant: int)
    ensures Mine(a + b, tenant) == Mine(a, tenant) + Mine(b, tenant)
  {
    if a == [] {
      assert a + b == b;
    } else {
      assert (a + b)[1..] == a[1..] + b;
      MineOfConcat(a[1..], b, tenant);
      Associates(IfMine(a[0], tenant), Mine(a[1..], tenant), Mine(b, tenant));
    }
  }

  /** Nobody else's rows changed. */
  ghost predicate OthersSame(before: seq<Row>, after: seq<Row>, tenant: int) {
    forall t: int | t != tenant :: Mine(after, t) == Mine(before, t)
  }

  lemma OthersSameTwice(a: seq<Row>, b: seq<Row>, c: seq<Row>, tenant: int)
    requires OthersSame(a, b, tenant) && OthersSame(b, c, tenant)
    ensures OthersSame(a, c, tenant)
  {
  }

  function Update(row: Row, tenant: int, id: nat, profile: Profile): Row {
    if row.tenant == tenant && row.id == id then row.(profile := profile) else row
  }

  /** `update` where the provider and the id are the given ones. */
  function Updated(rows: seq<Row>, tenant: int, id: nat, profile: Profile): seq<Row> {
    seq(|rows|, i requires 0 <= i < |rows| => Update(rows[i], tenant, id, profile))
  }

  lemma UpdatedCons(row: Row, rows: seq<Row>, tenant: int, id: nat, profile: Profile)
    ensures Updated([row] + rows, tenant, id, profile) == [Update(row, tenant, id, profile)] + Updated(rows, tenant, id, profile)
  {
  }

  lemma {:induction false} MineOfUpdated(rows: seq<Row>, tenant: int, id: nat, profile: Profile, t: int)
    ensures Mine(Updated(rows, tenant, id, profile), t) == Updated(Mine(rows, t), tenant, id, profile)
  {
    if rows != [] {
      var row, rest := rows[0], rows[1..];
      MineOfUpdated(rest, tenant, id, profile, t);
      UpdatedCons(row, rest, tenant, id, profile);
      assert rows == [row] + rest;
      var after := Updated(rest, tenant, id, profile);
      assert ([Update(row, tenant, id, profile)] + after)[1..] == after;
      if row.tenant == t { UpdatedCons(row, Mine(rest, t), tenant, id, profile); }
    }
  }

  /** Where no row has the id, nothing is updated. */
  lemma UpdatedNothing(rows: seq<Row>, tenant: int, id: nat, profile: Profile)
    requires forall r | r in rows :: r.tenant != tenant || r.id != id
    ensures Updated(rows, tenant, id, profile) == rows
  {
    assert forall i | 0 <= i < |rows| :: rows[i] in rows;
  }

  lemma {:induction false} MineMembers(rows: seq<Row>, tenant: int)
    ensures forall r :: r in Mine(rows, tenant) <==> r in rows && r.tenant == tenant
  {
    if rows != [] {
      MineMembers(rows[1..], tenant);
      assert rows == [rows[0]] + rows[1..];
    }
  }

  lemma LastOfSnoc(source: seq<Row>, k: nat, identity: string)
    requires k < |source| && identity in Identities(source[..k + 1])
    ensures source[k].profile.identity != identity ==> identity in Identities(source[..k])
    ensures LastOf(source[..k + 1], identity)
         == if source[k].profile.identity == identity then source[k].profile else LastOf(source[..k], identity)
  {
    IdentitiesSnoc(source, k);
    assert source[..k + 1][..k] == source[..k];
  }

  lemma KeptSnoc(mine: seq<Row>, source: seq<Row>, overwrite: bool, k: nat, i: nat)
    requires k < |source| && i < |mine|
    ensures Kept(mine, source[..k + 1], overwrite, i)
         == if overwrite && source[k].profile.identity == mine[i].profile.identity && IsLast(mine, i)
            then mine[i].(profile := source[k].profile) else Kept(mine, source[..k], overwrite, i)
  {
    IdentitiesSnoc(source, k);
    if mine[i].profile.identity in Identities(source[..k + 1]) { LastOfSnoc(source, k, mine[i].profile.identity); }
  }

  lemma GainedSnoc(mine: seq<Row>, source: seq<Row>, tenant: int, nextId: nat, k: nat)
    requires k < |source|
    ensures Gained(mine, source[..k + 1], tenant, nextId)
         == var front := Gained(mine, source[..k], tenant, nextId);
            if source[k].profile.identity in Identities(mine) + Identities(source[..k]) then front
            else front + [Row(nextId + |front|, tenant, source[k].profile)]
  {
    assert source[..k + 1][..k] == source[..k];
  }

  /** An identity the copy lacks, the first time it comes by: the row is inserted. */
  lemma StepGains(mine: seq<Row>, source: seq<Row>, overwrite: bool, tenant: int, nextId: nat, k: nat)
    requires k < |source| && source[k].profile.identity !in Identities(mine) + Identities(source[..k])
    ensures Resent(mine, source[..k + 1], overwrite, tenant, nextId)
         == Resent(mine, source[..k], overwrite, tenant, nextId)
            + [Row(nextId + |Gained(mine, source[..k], tenant, nextId)|, tenant, source[k].profile)]
  {
    GainedSnoc(mine, source, tenant, nextId, k);
    forall i | 0 <= i < |mine| ensures Kept(mine, source[..k + 1], overwrite, i) == Kept(mine, source[..k], overwrite, i) {
      KeptSnoc(mine, source, overwrite, k, i);
      IdentityOf(mine, i);
    }
  }

  /** An identity already there, and not to be overwritten, or inserted earlier in the run: the copy stays. */
  lemma StepStays(mine: seq<Row>, source: seq<Row>, overwrite: bool, tenant: int, nextId: nat, k: nat)
    requires k < |source| && source[k].profile.identity in Identities(mine) + Identities(source[..k])
    requires overwrite ==> source[k].profile.identity !in Identities(mine)
    ensures Resent(mine, source[..k + 1], overwrite, tenant, nextId) == Resent(mine, source[..k], overwrite, tenant, nextId)
  {
    GainedSnoc(mine, source, tenant, nextId, k);
    forall i | 0 <= i < |mine| ensures Kept(mine, source[..k + 1], overwrite, i) == Kept(mine, source[..k], overwrite, i) {
      KeptSnoc(mine, source, overwrite, k, i);
      IdentityOf(mine, i);
    }
  }

  /** A provider's own rows of a table. */
  predicate Own(mine: seq<Row>, tenant: int, nextId: nat) {
    Ascending(mine, nextId) && forall i | 0 <= i < |mine| :: mine[i].tenant == tenant
  }

  lemma KeptOverwrites(mine: seq<Row>, source: seq<Row>, tenant: int, nextId: nat, k: nat, last: nat, i: nat)
    requires k < |source| && last < |mine| && IsLast(mine, last) && i < |mine| && Own(mine, tenant, nextId)
    requires source[k].profile.identity == mine[last].profile.identity
    ensures Kept(mine, source[..k + 1], true, i)
         == Update(Kept(mine, source[..k], true, i), tenant, mine[last].id, source[k].profile)
  {
    KeptSnoc(mine, source, true, k, i);
    if i < last { AscendingPair(mine, nextId, i, last); }
    if last < i { AscendingPair(mine, nextId, last, i); }
  }

  /** An identity the copy had, overwritten: the last row with it is updated, by its id. */
  lemma StepOverwrites(mine: seq<Row>, source: seq<Row>, tenant: int, nextId: nat, k: nat, last: nat)
    requires k < |source| && last < |mine| && IsLast(mine, last) && Own(mine, tenant, nextId)
    requires source[k].profile.identity == mine[last].profile.identity
    ensures Resent(mine, source[..k + 1], true, tenant, nextId)
         == Updated(Resent(mine, source[..k], true, tenant, nextId), tenant, mine[last].id, source[k].profile)
  {
    var id, profile := mine[last].id, source[k].profile;
    var gained := Gained(mine, source[..k], tenant, nextId);
    var before := Resent(mine, source[..k], true, tenant, nextId);
    var after := Resent(mine, source[..k + 1], true, tenant, nextId);
    IdentityOf(mine, last);
    AscendingAt(mine, nextId, last);
    GainedSnoc(mine, source, tenant, nextId, k);
    GainedPlaces(mine, source[..k], tenant, nextId);
    forall i | 0 <= i < |before| ensures after[i] == Update(before[i], tenant, id, profile) {
      if i < |mine| {
        KeptOverwrites(mine, source, tenant, nextId, k, last, i);
      } else {
        assert before[i] == gained[i - |mine|];
      }
    }
  }

  /** No row of the source has the id of one of the copy's, or one yet to be given. */
  predicate Apart(mine: seq<Row>, source: seq<Row>, nextId: nat) {
    forall k | 0 <= k < |source| :: source[k].id < nextId && forall i | 0 <= i < |mine| :: mine[i].id != source[k].id
  }

  /** An update by the id of a source's row finds nothing of the copy. */
  lemma SourceIdFindsNothing(mine: seq<Row>, source: seq<Row>, tenant: int, nextId: nat, k: nat, j: nat, profile: Profile)
    requires k <= |source| && j < |source| && Apart(mine, source, nextId)
    ensures var before := Resent(mine, source[..k], true, tenant, nextId);
      Updated(before, tenant, source[j].id, profile) == before
  {
    var before := Resent(mine, source[..k], true, tenant, nextId);
    var gained := Gained(mine, source[..k], tenant, nextId);
    GainedPlaces(mine, source[..k], tenant, nextId);
    forall i | 0 <= i < |before| ensures before[i].id != source[j].id {
      if i >= |mine| { assert before[i] == gained[i - |mine|]; }
    }
  }

  lemma MineIsOwn(rows: seq<Row>, tenant: int, nextId: nat, source: seq<Row>)
    requires Ascending(rows, nextId) && forall r | r in source :: r in rows && r.tenant != tenant
    ensures Own(Mine(rows, tenant), tenant, nextId) && Apart(Mine(rows, tenant), source, nextId)
  {
    var mine := Mine(rows, tenant);
    MineMembers(rows, tenant);
    MineAscending(rows, nextId, tenant);
    forall i | 0 <= i < |mine| ensures mine[i].tenant == tenant { assert mine[i] in mine; }
    forall k | 0 <= k < |source|
      ensures source[k].id < nextId && forall i | 0 <= i < |mine| :: mine[i].id != source[k].id
    {
      assert source[k] in source;
      forall i | 0 <= i < |mine| ensures mine[i].id != source[k].id {
        assert mine[i] in mine;
        DifferentRowsDifferentIds(rows, nextId, mine[i], source[k]);
      }
      var j :| 0 <= j < |rows| && rows[j] == source[k];
      AscendingAt(rows, nextId, j);
    }
  }

  lemma DifferentRowsDifferentIds(rows: seq<Row>, nextId: nat, a: Row, b: Row)
    requires Ascending(rows, nextId) && a in rows && b in rows && a.tenant != b.tenant
    ensures a.id != b.id
  {
    var i :| 0 <= i < |rows| && rows[i] == a;
    var j :| 0 <= j < |rows| && rows[j] == b;
    if i < j { AscendingPair(rows, nextId, i, j); }
    if j < i { AscendingPair(rows, nextId, j, i); }
  }

  /** What a map of the rows keeps for an identity. */
  function LastRow(mine: seq<Row>, identity: string): Row
    requires identity in Identities(mine)
  {
    var last := mine[|mine| - 1];
    if last.profile.identity == identity then last else LastRow(mine[..|mine| - 1], identity)
  }

  lemma {:induction false} LastRowIsLast(mine: seq<Row>, identity: string) returns (i: nat)
    requires identity in Identities(mine)
    ensures i < |mine| && IsLast(mine, i) && mine[i] == LastRow(mine, identity) && mine[i].profile.identity == identity
  {
    var n := |mine| - 1;
    if mine[n].profile.identity == identity {
      i := n;
    } else {
      IdentitiesSnoc(mine, n);
      assert mine[..n + 1] == mine;
      i := LastRowIsLast(mine[..n], identity);
      forall j | i < j < |mine| ensures mine[j].profile.identity != mine[i].profile.identity {
        if j < n { assert mine[..n][j] == mine[j]; }
      }
    }
  }

  /** The map the loop looks identities up in, after `k` rows of the source. */
  ghost predicate Tracks(existing: map<string, Row>, mine: seq<Row>, source: seq<Row>, k: nat)
    requires k <= |source|
  {
    && existing.Keys == Identities(mine) + Identities(source[..k])
    && forall identity | identity in existing ::
         if identity in Identities(mine) then existing[identity] == LastRow(mine, identity) else existing[identity] in source
  }

  lemma TracksNext(existing: map<string, Row>, mine: seq<Row>, source: seq<Row>, k: nat)
    requires k < |source| && Tracks(existing, mine, source, k)
    ensures var identity := source[k].profile.identity;
      Tracks(if identity in existing then existing else existing[identity := source[k]], mine, source, k + 1)
  {
    IdentitiesSnoc(source, k);
  }

  // ----- The loop -----

  /** One of the two tables, its rows in the order of their ids. */
  class Table {
    var rows: seq<Row>
    var nextId: nat

    ghost predicate Valid()
      reads this
    {
      Ascending(rows, nextId)
    }

    method Insert(tenant: int, profile: Profile)
      requires Valid()
      modifies this
      ensures Valid() && rows == old(rows) + [Row(old(nextId), tenant, profile)] && nextId == old(nextId) + 1
      ensures Mine(rows, tenant) == Mine(old(rows), tenant) + [Row(old(nextId), tenant, profile)]
      ensures OthersSame(old(rows), rows, tenant)
    {
      ghost var row := Row(nextId, tenant, profile);
      forall t ensures Mine(rows + [row], t) == Mine(rows, t) + if t == tenant then [row] else [] {
        MineOfConcat(rows, [row], t);
      }
      AscendingSnoc(rows, row, nextId + 1);
      rows, nextId := rows + [Row(nextId, tenant, profile)], nextId + 1;
    }

    method UpdateWhere(tenant: int, id: nat, profile: Profile)
      requires Valid()
      modifies `rows
      ensures Valid() && rows == Updated(old(rows), tenant, id, profile)
      ensures Mine(rows, tenant) == Updated(Mine(old(rows), tenant), tenant, id, profile)
      ensures OthersSame(old(rows), rows, tenant)
    {
      forall t ensures Mine(Updated(rows, tenant, id, profile), t) == Updated(Mine(rows, t), tenant, id, profile)
        && (t != tenant ==> Updated(Mine(rows, t), tenant, id, profile) == Mine(rows, t))
      {
        MineOfUpdated(rows, tenant, id, profile, t);
        MineMembers(rows, t);
        if t != tenant { UpdatedNothing(Mine(rows, t), tenant, id, profile); }
      }
      AscendingUpdated(rows, nextId, tenant, id, profile);
      rows := Updated(rows, tenant, id, profile);
    }

    /** The provider's rows by identity; of two with the same, the later. */
    method ByIdentity(mine: seq<Row>) returns (found: map<string, Row>)
      ensures found.Keys == Identities(mine)
      ensures forall identity | identity in found :: found[identity] == LastRow(mine, identity)
    {
      found := map[];
      for i := 0 to |mine|
        invariant found.Keys == Identities(mine[..i])
        invariant forall identity | identity in found :: found[identity] == LastRow(mine[..i], identity)
      {
        IdentitiesSnoc(mine, i);
        assert mine[..i + 1][..i] == mine[..i];
        found := found[mine[i].profile.identity := mine[i]];
      }
      assert mine[..|mine|] == mine;
    }

    /** A row of the source whose identity is there already, to be overwritten. */
    method Overwrite(tenant: int, source: seq<Row>, k: nat, found: Row, ghost mine: seq<Row>, ghost first: nat)
      requires Valid() && k < |source| && Own(mine, tenant, first) && Apart(mine, source, first)
      requires Mine(rows, tenant) == Resent(mine, source[..k], true, tenant, first)
      requires source[k].profile.identity in Identities(mine) + Identities(source[..k])
      requires if source[k].profile.identity in Identities(mine)
               then found == LastRow(mine, source[k].profile.identity) else found in source
      modifies `rows
      ensures Valid() && Mine(rows, tenant) == Resent(mine, source[..k + 1], true, tenant, first)
      ensures OthersSame(old(rows), rows, tenant)
    {
      UpdateWhere(tenant, found.id, source[k].profile);
      if source[k].profile.identity in Identities(mine) {
        ghost var last := LastRowIsLast(mine, source[k].profile.identity);
        StepOverwrites(mine, source, tenant, first, k, last);
      } else {
        StepStays(mine, source, true, tenant, first, k);
        ghost var j :| 0 <= j < |source| && source[j] == found;
        SourceIdFindsNothing(mine, source, tenant, first, k, j, source[k].profile);
      }
    }

    /** A row of the source whose identity is not there yet. */
    method Gain(tenant: int, source: seq<Row>, k: nat, overwrite: bool, ghost mine: seq<Row>, ghost first: nat)
      requires Valid() && k < |source|
      requires nextId == first + |Gained(mine, source[..k], tenant, first)|
      requires Mine(rows, tenant) == Resent(mine, source[..k], overwrite, tenant, first)
      requires source[k].profile.identity !in Identities(mine) + Identities(source[..k])
      modifies this
      ensures Valid() && nextId == old(nextId) + 1
      ensures Mine(rows, tenant) == Resent(mine, source[..k + 1], overwrite, tenant, first)
      ensures OthersSame(old(rows), rows, tenant)
    {
      StepGains(mine, source, overwrite, tenant, first, k);
      Insert(tenant, source[k].profile);
    }

    /**
     * One row of the source. `existing` holds, for a row inserted earlier, the
     * source's own row: an update by that row's id and this provider finds nothing.
     */
    method ResendRow(tenant: int, source: seq<Row>, k: nat, overwrite: bool, existing: map<string, Row>,
                     ghost mine: seq<Row>, ghost first: nat, ghost before: seq<Row>)
      returns (next: map<string, Row>, inserted: bool)
      requires Valid() && k < |source| && Own(mine, tenant, first) && Apart(mine, source, first)
      requires nextId == first + |Gained(mine, source[..k], tenant, first)|
      requires Mine(rows, tenant) == Resent(mine, source[..k], overwrite, tenant, first)
      requires Tracks(existing, mine, source, k) && OthersSame(before, rows, tenant)
      modifies this
      ensures Valid() && Tracks(next, mine, source, k + 1)
      ensures |Gained(mine, source[..k + 1], tenant, first)| == |Gained(mine, source[..k], tenant, first)| + if inserted then 1 else 0
      ensures nextId == old(nextId) + if inserted then 1 else 0
      ensures Mine(rows, tenant) == Resent(mine, source[..k + 1], overwrite, tenant, first)
      ensures OthersSame(before, rows, tenant)
    {
      var identity := source[k].profile.identity;
      TracksNext(existing, mine, source, k);
      GainedSnoc(mine, source, tenant, first, k);
      next, inserted := existing, identity !in existing;
      ghost var middle := rows;
      if inserted {
        Gain(tenant, source, k, overwrite, mine, first);
        OthersSameTwice(before, middle, rows, tenant);
        next := existing[identity := source[k]];
      } else if overwrite {
        Overwrite(tenant, source, k, existing[identity], mine, first);
        OthersSameTwice(before, middle, rows, tenant);
      } else {
        StepStays(mine, source, overwrite, tenant, first, k);
      }
    }

    /** One provider's copy. */
    method ResendTo(tenant: int, source: seq<Row>, overwrite: bool) returns (added: nat, updated: nat)
      requires Valid() && forall r | r in source :: r in rows && r.tenant != tenant
      modifies this
      ensures Valid() && nextId >= old(nextId)
      ensures Mine(rows, tenant) == Resent(Mine(old(rows), tenant), source, overwrite, tenant, old(nextId))
      ensures OthersSame(old(rows), rows, tenant)
      ensures added == |Gained(Mine(old(rows), tenant), source, tenant, old(nextId))|
      ensures updated == if overwrite then |source| - added else 0
    {
      ghost var mine, first, before := Mine(rows, tenant), nextId, rows;
      MineIsOwn(rows, tenant, nextId, source);
      var existing := ByIdentity(Mine(rows, tenant));
      added, updated := 0, 0;
      ResentNothing(mine, source, overwrite, tenant, first);
      TracksStart(existing, mine, source);
      for k := 0 to |source|
        invariant Valid() && nextId == first + added
        invariant added == |Gained(mine, source[..k], tenant, first)|
        invariant Mine(rows, tenant) == Resent(mine, source[..k], overwrite, tenant, first)
        invariant OthersSame(before, rows, tenant)
        invariant updated == if overwrite then k - added else 0
        invariant Tracks(existing, mine, source, k)
      {
        var inserted;
        existing, inserted := ResendRow(tenant, source, k, overwrite, existing, mine, first, before);
        if inserted { added := added + 1; } else if overwrite { updated := updated + 1; }
      }
      assert source[..|source|] == source;
    }
  }

  lemma ResentNothing(mine: seq<Row>, source: seq<Row>, overwrite: bool, tenant: int, nextId: nat)
    ensures Resent(mine, source[..0], overwrite, tenant, nextId) == mine && Gained(mine, source[..0], tenant, nextId) == []
  {
    assert source[..0] == [];
  }

  lemma TracksStart(existing: map<string, Row>, mine: seq<Row>, source: seq<Row>)
    requires existing.Keys == Identities(mine)
    requires forall identity | identity in existing :: existing[identity] == LastRow(mine, identity)
    ensures Tracks(existing, mine, source, 0)
  {
    assert source[..0] == [];
  }

  // ----- Every provider, both tables -----

  datatype Tenant = Tenant(id: int, kind: string)

  datatype Report = Report(tenant: int, added: nat, updated: nat)

  /** The providers asked for, or every one of kind `provider`; never the source. */
  function Targets(tenants: seq<Tenant>, source: int, only: Option<set<int>>): seq<int> {
    if tenants == [] then []
    else
      var t := tenants[0];
      (if t.id != source && (if only.Some? then t.id in only.value else t.kind == "provider") then [t.id] else [])
      + Targets(tenants[1..], source, only)
  }

  /** Who is resent the catalogue: never the source; of the others those asked for, or every provider proper. */
  lemma {:induction false} TargetsMeaning(tenants: seq<Tenant>, source: int, only: Option<set<int>>, id: int)
    ensures id in Targets(tenants, source, only) <==>
      && id != source
      && exists t | t in tenants :: t.id == id && if only.None? then t.kind == "provider" else id in only.value
  {
    if tenants != [] {
      TargetsMeaning(tenants[1..], source, only, id);
      assert tenants == [tenants[0]] + tenants[1..];
      assert tenants[0] in tenants;
    }
  }

  predicate Keyed(tenants: seq<Tenant>) {
    forall i, j | 0 <= i < j < |tenants| :: tenants[i].id != tenants[j].id
  }

  lemma {:induction false} TargetIsAnotherTenant(tenants: seq<Tenant>, source: int, only: Option<set<int>>, t: int)
    requires t in Targets(tenants, source, only)
    ensures t != source && exists k | 0 <= k < |tenants| :: tenants[k].id == t
  {
    if t in Targets(tenants[1..], source, only) {
      TargetIsAnotherTenant(tenants[1..], source, only, t);
      var k :| 0 <= k < |tenants[1..]| && tenants[1..][k].id == t;
      assert tenants[k + 1].id == t;
    } else {
      assert tenants[0].id == t;
    }
  }

  lemma {:induction false} TargetsAreDistinct(tenants: seq<Tenant>, source: int, only: Option<set<int>>)
    requires Keyed(tenants)
    ensures Distinct(Targets(tenants, source, only))
  {
    if tenants != [] {
      var rest := Targets(tenants[1..], source, only);
      assert forall k | 0 <= k < |tenants[1..]| :: tenants[1..][k] == tenants[k + 1];
      TargetsAreDistinct(tenants[1..], source, only);
      if tenants[0].id in rest {
        TargetIsAnotherTenant(tenants[1..], source, only, tenants[0].id);
      }
      assert forall k | 0 <= k < |rest| :: rest[k] in rest;
    }
  }

  /** One provider's copy of a table after the source was resent to it. */
  ghost predicate WasResent(before: seq<Row>, after: seq<Row>, source: seq<Row>, overwrite: bool, tenant: int) {
    exists n: nat :: Mine(after, tenant) == Resent(Mine(before, tenant), source, overwrite, tenant, n)
  }

  /** How many rows a provider's copy gains. */
  function Lacking(before: seq<Row>, source: seq<Row>, tenant: int): nat {
    |Gained(Mine(before, tenant), source, tenant, 0)|
  }

  /** That is the number of different identities it lacked. */
  lemma LackingIsMissing(before: seq<Row>, source: seq<Row>, tenant: int)
    ensures Lacking(before, source, tenant) == |Identities(source) - Identities(Mine(before, tenant))|
  {
    GainedIdentities(Mine(before, tenant), source, tenant, 0);
  }

  lemma {:induction false} GainedLength(mine: seq<Row>, source: seq<Row>, tenant: int, a: nat, b: nat)
    ensures |Gained(mine, source, tenant, a)| == |Gained(mine, source, tenant, b)|
  {
    if source != [] { GainedLength(mine, source[..|source| - 1], tenant, a, b); }
  }

  /** The table after the source was resent to these providers: theirs resent, everyone else's as it was. */
  ghost predicate AllResent(before: seq<Row>, after: seq<Row>, source: int, overwrite: bool, targets: seq<int>) {
    && (forall t | t in targets :: WasResent(before, after, Mine(before, source), overwrite, t))
    && (forall t | t !in targets :: Mine(after, t) == Mine(before, t))
  }

  lemma OneMoreResent(before: seq<Row>, middle: seq<Row>, after: seq<Row>, source: int, overwrite: bool, targets: seq<int>,
                      t: int, n: nat)
    requires AllResent(before, middle, source, overwrite, targets) && t !in targets
    requires Mine(after, t) == Resent(Mine(before, t), Mine(before, source), overwrite, t, n)
    requires OthersSame(middle, after, t)
    ensures AllResent(before, after, source, overwrite, targets + [t])
  {
    forall u | u in targets ensures WasResent(before, after, Mine(before, source), overwrite, u) {
      var m: nat :| Mine(middle, u) == Resent(Mine(before, u), Mine(before, source), overwrite, u, m);
      assert Mine(after, u) == Resent(Mine(before, u), Mine(before, source), overwrite, u, m);
    }
    assert Mine(after, t) == Resent(Mine(before, t), Mine(before, source), overwrite, t, n);
  }

  /** What is written of one table: what was missing, and with overwriting the rest of the source's rows. */
  function Counts(before: seq<Row>, source: int, overwrite: bool, t: int): (int, int) {
    var added := Lacking(before, Mine(before, source), t);
    (added, if overwrite then |Mine(before, source)| - added else 0)
  }

  /** What the report says of one provider. */
  predicate ReportFor(report: Report, vendors: seq<Row>, configs: seq<Row>, source: int, overwrite: bool, t: int) {
    var (v, c) := (Counts(vendors, source, overwrite, t), Counts(configs, source, overwrite, t));
    report.tenant == t && report.added == v.0 + c.0 && report.updated == v.1 + c.1
  }

  /** In numbers: the source's identities the copies lacked are added, and the rest of its rows, when overwriting, are updates. */
  lemma ReportMeaning(report: Report, vendors: seq<Row>, configs: seq<Row>, source: int, overwrite: bool, t: int)
    requires ReportFor(report, vendors, configs, source, overwrite, t)
    ensures report.tenant == t
    ensures report.added == |Identities(Mine(vendors, source)) - Identities(Mine(vendors, t))|
                            + |Identities(Mine(configs, source)) - Identities(Mine(configs, t))|
    ensures report.updated == if overwrite then |Mine(vendors, source)| + |Mine(configs, source)| - report.added else 0
  {
    LackingIsMissing(vendors, Mine(vendors, source), t);
    LackingIsMissing(configs, Mine(configs, source), t);
  }

  lemma NotTargetYet(before: seq<Row>, after: seq<Row>, source: int, overwrite: bool, targets: seq<int>, t: int)
    requires AllResent(before, after, source, overwrite, targets) && t !in targets
    ensures Mine(after, t) == Mine(before, t)
  {
  }

  lemma SourceRowsAreThere(before: seq<Row>, after: seq<Row>, source: int, overwrite: bool, targets: seq<int>, t: int)
    requires AllResent(before, after, source, overwrite, targets) && source !in targets && t != source
    ensures forall r | r in Mine(before, source) :: r in after && r.tenant != t
  {
    assert Mine(after, source) == Mine(before, source);
    MineMembers(after, source);
  }

  /** Resending to one more provider a table that was resent to others. */
  method ResendOne(table: Table, ghost before: seq<Row>, source: int, sourceRows: seq<Row>, overwrite: bool,
                   ghost targets: seq<int>, t: int)
    returns (added: nat, updated: nat)
    requires table.Valid() && AllResent(before, table.rows, source, overwrite, targets)
    requires t !in targets && source !in targets && t != source && sourceRows == Mine(before, source)
    modifies table
    ensures table.Valid() && AllResent(before, table.rows, source, overwrite, targets + [t])
    ensures (added, updated) == Counts(before, source, overwrite, t)
  {
    SourceRowsAreThere(before, table.rows, source, overwrite, targets, t);
    ghost var middle, n := table.rows, table.nextId;
    NotTargetYet(before, table.rows, source, overwrite, targets, t);
    added, updated := table.ResendTo(t, sourceRows, overwrite);
    GainedLength(Mine(before, t), sourceRows, t, n, 0);
    OneMoreResent(before, middle, table.rows, source, overwrite, targets, t, n);
  }

  predicate Reported(result: seq<Report>, vendors: seq<Row>, configs: seq<Row>, source: int, overwrite: bool, targets: seq<int>) {
    |result| == |targets|
    && forall i | 0 <= i < |result| :: ReportFor(result[i], vendors, configs, source, overwrite, targets[i])
  }

  lemma NotYetVisited(targets: seq<int>, source: int, i: nat)
    requires Distinct(targets) && i < |targets| && source !in targets
    ensures targets[i] !in targets[..i] && targets[i] != source && source !in targets[..i]
    ensures targets[..i + 1] == targets[..i] + [targets[i]]
  {
  }

  lemma OneMoreReported(result: seq<Report>, report: Report, vendors: seq<Row>, configs: seq<Row>, source: int,
                        overwrite: bool, targets: seq<int>, t: int)
    requires Reported(result, vendors, configs, source, overwrite, targets)
    requires ReportFor(report, vendors, configs, source, overwrite, t)
    ensures Reported(result + [report], vendors, configs, source, overwrite, targets + [t])
  {
  }

  /** Both tables of one provider. */
  method ResendBoth(vendors: Table, configs: Table, ghost v: seq<Row>, ghost c: seq<Row>, source: int, vendorRows: seq<Row>,
                    configRows: seq<Row>, overwrite: bool, ghost targets: seq<int>, t: int)
    returns (report: Report)
    requires vendors != configs && vendors.Valid() && configs.Valid()
    requires AllResent(v, vendors.rows, source, overwrite, targets) && AllResent(c, configs.rows, source, overwrite, targets)
    requires t !in targets && source !in targets && t != source
    requires vendorRows == Mine(v, source) && configRows == Mine(c, source)
    modifies vendors, configs
    ensures vendors.Valid() && configs.Valid()
    ensures AllResent(v, vendors.rows, source, overwrite, targets + [t])
    ensures AllResent(c, configs.rows, source, overwrite, targets + [t])
    ensures ReportFor(report, v, c, source, overwrite, t)
  {
    var addedVendors, updatedVendors := ResendOne(vendors, v, source, vendorRows, overwrite, targets, t);
    var addedConfigs, updatedConfigs := ResendOne(configs, c, source, configRows, overwrite, targets, t);
    report := Report(t, addedVendors + addedConfigs, updatedVendors + updatedConfigs);
  }

  /**
   * `propagateCatalogue`. Every provider asked for is resent both tables, nobody
   * else is touched, and each report counts the identities that were missing.
   */
  method PropagateCatalogue(tenants: seq<Tenant>, source: int, only: Option<set<int>>, overwrite: bool,
                            vendors: Table, configs: Table)
    returns (result: seq<Report>)
    requires vendors != configs && vendors.Valid() && configs.Valid() && Keyed(tenants)
    modifies vendors, configs
    ensures vendors.Valid() && configs.Valid()
    ensures AllResent(old(vendors.rows), vendors.rows, source, overwrite, Targets(tenants, source, only))
    ensures AllResent(old(configs.rows), configs.rows, source, overwrite, Targets(tenants, source, only))
    ensures Reported(result, old(vendors.rows), old(configs.rows), source, overwrite, Targets(tenants, source, only))
  {
    var targets := Targets(tenants, source, only);
    TargetsAreDistinct(tenants, source, only);
    if source in targets { TargetIsAnotherTenant(tenants, source, only, source); }
    var vendorRows, configRows := Mine(vendors.rows, source), Mine(configs.rows, source);
    result := [];
    for i := 0 to |targets|
      invariant vendors.Valid() && configs.Valid()
      invariant AllResent(old(vendors.rows), vendors.rows, source, overwrite, targets[..i])
      invariant AllResent(old(configs.rows), configs.rows, source, overwrite, targets[..i])
      invariant Reported(result, old(vendors.rows), old(configs.rows), source, overwrite, targets[..i])
    {
      var t := targets[i];
      NotYetVisited(targets, source, i);
      var report := ResendBoth(vendors, configs, old(vendors.rows), old(configs.rows), source, vendorRows, configRows,
                               overwrite, targets[..i], t);
      OneMoreReported(result, report, old(vendors.rows), old(configs.rows), source, overwrite, targets[..i], t);
      result := result + [report];
    }
    assert targets[..|targets|] == targets;
  }
}
