/**
 * What every boot gives every provider, `seedDefaults` of `seed.js`: settings,
 * the map's centre, a subscription and, to those without one, a catalogue.
 */
module Seed {
  import opened Prelude
  import opened Catalogue

  // ----- Settings and the map -----

  type Settings = map<(int, string), string>

  /** A missing value, or one shipped by an older release, becomes the default. */
  function Refresh(current: Option<string>, value: string, shipped: set<string>): string {
    match current
    case None => value
    case Some(v) => if v in shipped then value else v
  }

  function Lookup(m: Settings, t: int, key: string): Option<string> {
    if (t, key) in m then Some(m[(t, key)]) else None
  }

  function Shipped(legacy: map<string, set<string>>, key: string): set<string> {
    if key in legacy then legacy[key] else {}
  }

  datatype Defaults = Defaults(keys: seq<string>, values: map<string, string>, legacy: map<string, set<string>>)

  ghost predicate WellFormed(d: Defaults) {
    Distinct(d.keys) && forall key :: key in d.keys <==> key in d.values
  }

  /** One setting of one provider after a pass over these providers. */
  function SettingAfter(m: Settings, tenants: seq<int>, d: Defaults, t: int, key: string): Option<string> {
    if t in tenants && key in d.values then Some(Refresh(Lookup(m, t, key), d.values[key], Shipped(d.legacy, key)))
    else Lookup(m, t, key)
  }

  ghost predicate SettingsSeeded(m: Settings, after: Settings, tenants: seq<int>, d: Defaults) {
    forall t: int, key: string :: Lookup(after, t, key) == SettingAfter(m, tenants, d, t, key)
  }

  /** A second pass changes no setting, and the first none that an operator has chosen. */
  lemma SettingsOnce(m: Settings, after: Settings, again: Settings, tenants: seq<int>, d: Defaults)
    requires SettingsSeeded(m, after, tenants, d) && SettingsSeeded(after, again, tenants, d)
    ensures again == after
    ensures forall t, key | (t, key) in m && m[(t, key)] !in Shipped(d.legacy, key) :: Lookup(after, t, key) == Lookup(m, t, key)
  {
    forall t: int, key: string ensures Lookup(again, t, key) == Lookup(after, t, key) {
      assert Lookup(after, t, key) == SettingAfter(m, tenants, d, t, key);
      assert Lookup(again, t, key) == SettingAfter(after, tenants, d, t, key);
    }
    SameLookups(after, again);
  }

  /**
   * What a pass makes of each setting: where the provider was visited and the key
   * has a default, that default if there was no value or one an older release had
   * shipped; in every other case what it was.
   */
  lemma SettingsMeaning(m: Settings, after: Settings, tenants: seq<int>, d: Defaults, t: int, key: string)
    requires SettingsSeeded(m, after, tenants, d)
    ensures var stale := (t, key) !in m || (key in d.legacy && m[(t, key)] in d.legacy[key]);
      if t in tenants && key in d.values && stale then (t, key) in after && after[(t, key)] == d.values[key]
      else ((t, key) in after <==> (t, key) in m) && ((t, key) in m ==> after[(t, key)] == m[(t, key)])
  {
    assert Lookup(after, t, key) == SettingAfter(m, tenants, d, t, key);
  }

  lemma SameLookups(a: Settings, b: Settings)
    requires forall t: int, key: string :: Lookup(a, t, key) == Lookup(b, t, key)
    ensures a == b
  {
    forall p: (int, string) ensures (p in a <==> p in b) && (p in a ==> a[p] == b[p]) {
      assert p == (p.0, p.1);
      assert Lookup(a, p.0, p.1) == Lookup(b, p.0, p.1);
    }
    assert a.Keys == b.Keys;
  }

  // ----- Subscriptions -----

  datatype Plan = Plan(id: int, code: string, active: bool, trialDays: nat)

  datatype Status = Trial(days: nat) | Active

  datatype StartedSubscription = StartedSubscription(tenant: int, plan: int, status: Status)

  const DEFAULT_TRIAL_DAYS := 14

  /** `first()` in the order of the ids. */
  function Lowest(plans: seq<Plan>, wanted: Plan -> bool): Option<Plan> {
    if plans == [] then None
    else
      var rest := Lowest(plans[1..], wanted);
      if wanted(plans[0]) && (rest.None? || plans[0].id <= rest.value.id) then Some(plans[0]) else rest
  }

  /** The longest trial on sale; of two, the lower id. */
  function LongestTrial(plans: seq<Plan>): Option<Plan> {
    if plans == [] then None
    else
      var p, rest := plans[0], LongestTrial(plans[1..]);
      if p.active && p.trialDays > 0
         && (rest.None? || p.trialDays > rest.value.trialDays || (p.trialDays == rest.value.trialDays && p.id <= rest.value.id))
      then Some(p) else rest
  }

  function Or<T>(a: Option<T>, b: Option<T>): Option<T> {
    if a.Some? then a else b
  }

  /** The plan asked for, if it is still on sale, or the one a trial starts on. */
  function PlanFor(plans: seq<Plan>, asked: Option<int>): Option<Plan> {
    Or(if asked.Some? then Lowest(plans, (p: Plan) => p.id == asked.value && p.active) else None,
       Or(LongestTrial(plans), Or(Unlimited(plans), Lowest(plans, (p: Plan) => p.active))))
  }

  function Unlimited(plans: seq<Plan>): Option<Plan> {
    Lowest(plans, (p: Plan) => p.code == "unlimited")
  }

  lemma {:induction false} LowestIsLowest(plans: seq<Plan>, wanted: Plan -> bool)
    ensures Lowest(plans, wanted).None? <==> forall p | p in plans :: !wanted(p)
    ensures Lowest(plans, wanted).Some? ==>
      var l := Lowest(plans, wanted).value;
      l in plans && wanted(l) && forall p | p in plans && wanted(p) :: l.id <= p.id
  {
    if plans != [] {
      LowestIsLowest(plans[1..], wanted);
      assert plans == [plans[0]] + plans[1..];
    }
  }

  predicate OffersTrial(p: Plan) {
    p.active && p.trialDays > 0
  }

  lemma {:induction false} LongestTrialIsLongest(plans: seq<Plan>)
    ensures LongestTrial(plans).None? <==> forall p | p in plans :: !OffersTrial(p)
    ensures LongestTrial(plans).Some? ==>
      var l := LongestTrial(plans).value;
      l in plans && OffersTrial(l)
      && forall p | p in plans && OffersTrial(p) :: p.trialDays < l.trialDays || (p.trialDays == l.trialDays && l.id <= p.id)
  {
    if plans != [] {
      LongestTrialIsLongest(plans[1..]);
      assert plans == [plans[0]] + plans[1..];
      assert OffersTrial(plans[0]) ==> LongestTrial(plans).Some?;
    }
  }

  /** Nobody gets a subscription exactly when there is no plan they could be given. */
  lemma NoPlanIff(plans: seq<Plan>, asked: Option<int>)
    ensures PlanFor(plans, asked).None? <==> forall p | p in plans :: !p.active && p.code != "unlimited"
  {
    LongestTrialIsLongest(plans);
    LowestIsLowest(plans, (p: Plan) => p.code == "unlimited");
    LowestIsLowest(plans, (p: Plan) => p.active);
    if asked.Some? { LowestIsLowest(plans, (p: Plan) => p.id == asked.value && p.active); }
  }

  /** Of the plans of a kind, the one with the lowest id. */
  ghost predicate LowestOf(plans: seq<Plan>, wanted: Plan -> bool, p: Plan) {
    p in plans && wanted(p) && forall other | other in plans && wanted(other) :: p.id <= other.id
  }

  /** Of the plans that offer a trial, the longest, and of several as long the one with the lowest id. */
  ghost predicate BestTrial(plans: seq<Plan>, p: Plan) {
    && p in plans && p.active && p.trialDays > 0
    && forall other | other in plans && other.active && other.trialDays > 0 ::
         other.trialDays < p.trialDays || (other.trialDays == p.trialDays && p.id <= other.id)
  }

  predicate NoneOf(plans: seq<Plan>, wanted: Plan -> bool) {
    forall p | p in plans :: !wanted(p)
  }

  /**
   * Which plan a new subscription is for: the one asked for while it is on sale;
   * else the best trial, if any plan offers one; else the unlimited plan; else
   * the first one on sale.
   */
  lemma PlanForMeaning(plans: seq<Plan>, asked: Option<int>, p: Plan)
    requires PlanFor(plans, asked) == Some(p)
    ensures var askedFor := (q: Plan) => asked.Some? && q.id == asked.value && q.active;
      var trial := (q: Plan) => q.active && q.trialDays > 0;
      var unlimited := (q: Plan) => q.code == "unlimited";
      var onSale := (q: Plan) => q.active;
      if !NoneOf(plans, askedFor) then LowestOf(plans, askedFor, p)
      else if !NoneOf(plans, trial) then BestTrial(plans, p)
      else if !NoneOf(plans, unlimited) then LowestOf(plans, unlimited, p)
      else LowestOf(plans, onSale, p)
  {
    LongestTrialIsLongest(plans);
    LowestIsLowest(plans, (q: Plan) => q.code == "unlimited");
    LowestIsLowest(plans, (q: Plan) => q.active);
    if asked.Some? { LowestIsLowest(plans, (q: Plan) => q.id == asked.value && q.active); }
  }

  predicate Subscribed(subs: seq<StartedSubscription>, t: int) {
    exists i | 0 <= i < |subs| :: subs[i].tenant == t
  }

  function CountOf(subs: seq<StartedSubscription>, t: int): nat {
    if subs == [] then 0 else (if subs[0].tenant == t then 1 else 0) + CountOf(subs[1..], t)
  }

  /** What a provider without a subscription is given. */
  function FirstSubscription(t: Tenant, plans: seq<Plan>, plan: Plan): StartedSubscription {
    if t.kind == "platform" && Unlimited(plans).Some? then StartedSubscription(t.id, Unlimited(plans).value.id, Active)
    else StartedSubscription(t.id, plan.id, Trial(if plan.trialDays > 0 then plan.trialDays else DEFAULT_TRIAL_DAYS))
  }

  /** The subscriptions after the pass, in the order they are written. */
  function SubscriptionsAfter(subs: seq<StartedSubscription>, tenants: seq<Tenant>, plans: seq<Plan>, plan: Plan): seq<StartedSubscription> {
    if tenants == [] then subs
    else
      var front := SubscriptionsAfter(subs, tenants[..|tenants| - 1], plans, plan);
      var last := tenants[|tenants| - 1];
      if Subscribed(front, last.id) then front else front + [FirstSubscription(last, plans, plan)]
  }

  function AfterSeed(subs: seq<StartedSubscription>, tenants: seq<Tenant>, plans: seq<Plan>, asked: Option<int>): seq<StartedSubscription> {
    match PlanFor(plans, asked)
    case None => subs
    case Some(plan) => SubscriptionsAfter(subs, tenants, plans, plan)
  }

  lemma {:induction false} CountOfSnoc(subs: seq<StartedSubscription>, s: StartedSubscription, t: int)
    ensures CountOf(subs + [s], t) == CountOf(subs, t) + if s.tenant == t then 1 else 0
  {
    if subs == [] {
      assert subs + [s] == [s];
    } else {
      assert (subs + [s])[1..] == subs[1..] + [s];
      CountOfSnoc(subs[1..], s, t);
    }
  }

  lemma {:induction false} SubscribedIsCounted(subs: seq<StartedSubscription>, t: int)
    ensures Subscribed(subs, t) <==> CountOf(subs, t) > 0
  {
    if subs != [] {
      SubscribedIsCounted(subs[1..], t);
      if i :| 0 <= i < |subs[1..]| && subs[1..][i].tenant == t { assert subs[i + 1].tenant == t; }
      if i :| 0 <= i < |subs| && subs[i].tenant == t { if i > 0 { assert subs[1..][i - 1].tenant == t; } }
    }
  }

  /** Whoever had a subscription keeps exactly those; whoever had none and is visited gets exactly one. */
  lemma {:induction false} OneSubscriptionEach(subs: seq<StartedSubscription>, tenants: seq<Tenant>, plans: seq<Plan>, plan: Plan, t: int)
    ensures var after := SubscriptionsAfter(subs, tenants, plans, plan);
      && subs <= after
      && CountOf(after, t)
         == if CountOf(subs, t) == 0 && (exists k | 0 <= k < |tenants| :: tenants[k].id == t) then 1 else CountOf(subs, t)
  {
    if tenants != [] {
      var n := |tenants| - 1;
      var front, last := SubscriptionsAfter(subs, tenants[..n], plans, plan), tenants[n];
      OneSubscriptionEach(subs, tenants[..n], plans, plan, t);
      SubscribedIsCounted(front, last.id);
      CountOfSnoc(front, FirstSubscription(last, plans, plan), t);
      if k :| 0 <= k < |tenants| && tenants[k].id == t {
        if k < n { assert tenants[..n][k].id == t; }
      }
      if k :| 0 <= k < n && tenants[..n][k].id == t { assert tenants[k].id == t; }
    }
  }

  /** What a provider that had no subscription is given: the platform the unlimited plan for good, if there is one, anyone else a trial. */
  ghost predicate GivenFirst(t: Tenant, plans: seq<Plan>, plan: Plan, s: StartedSubscription) {
    var unlimited := (q: Plan) => q.code == "unlimited";
    && s.tenant == t.id
    && if t.kind == "platform" && !NoneOf(plans, unlimited)
       then s.status == Active && exists u :: LowestOf(plans, unlimited, u) && s.plan == u.id
       else s.plan == plan.id && s.status == Trial(if plan.trialDays > 0 then plan.trialDays else 14)
  }

  lemma FirstIsGiven(t: Tenant, plans: seq<Plan>, plan: Plan)
    ensures GivenFirst(t, plans, plan, FirstSubscription(t, plans, plan))
  {
    LowestIsLowest(plans, (q: Plan) => q.code == "unlimited");
    if Unlimited(plans).Some? { assert LowestOf(plans, (q: Plan) => q.code == "unlimited", Unlimited(plans).value); }
  }

  lemma NotThereBefore(subs: seq<StartedSubscription>, later: seq<StartedSubscription>, t: int)
    requires subs <= later && !Subscribed(later, t)
    ensures !Subscribed(subs, t)
  {
    forall j | 0 <= j < |subs| ensures subs[j].tenant != t { assert later[j] == subs[j]; }
  }

  /** Every subscription a pass adds is the one its provider is to be given, and that provider had none. */
  lemma {:induction false} AddedAreGiven(subs: seq<StartedSubscription>, tenants: seq<Tenant>, plans: seq<Plan>, plan: Plan)
    ensures var after := SubscriptionsAfter(subs, tenants, plans, plan);
      && subs <= after
      && forall i | |subs| <= i < |after| :: !Subscribed(subs, after[i].tenant)
           && exists k | 0 <= k < |tenants| :: GivenFirst(tenants[k], plans, plan, after[i])
  {
    if tenants != [] {
      var n := |tenants| - 1;
      var front, last := SubscriptionsAfter(subs, tenants[..n], plans, plan), tenants[n];
      var after := SubscriptionsAfter(subs, tenants, plans, plan);
      AddedAreGiven(subs, tenants[..n], plans, plan);
      FirstIsGiven(last, plans, plan);
      forall i | |subs| <= i < |after| ensures !Subscribed(subs, after[i].tenant)
        && exists k | 0 <= k < |tenants| :: GivenFirst(tenants[k], plans, plan, after[i])
      {
        if i < |front| {
          var k :| 0 <= k < n && GivenFirst(tenants[..n][k], plans, plan, front[i]);
          assert GivenFirst(tenants[k], plans, plan, after[i]);
        } else {
          assert GivenFirst(tenants[n], plans, plan, after[i]);
          NotThereBefore(subs, front, last.id);
        }
      }
    }
  }

  lemma {:induction false} AllSubscribedStays(subs: seq<StartedSubscription>, tenants: seq<Tenant>, plans: seq<Plan>, plan: Plan)
    requires forall k | 0 <= k < |tenants| :: Subscribed(subs, tenants[k].id)
    ensures SubscriptionsAfter(subs, tenants, plans, plan) == subs
  {
    if tenants != [] {
      var n := |tenants| - 1;
      assert forall k | 0 <= k < n :: tenants[..n][k] == tenants[k];
      AllSubscribedStays(subs, tenants[..n], plans, plan);
      assert Subscribed(subs, tenants[n].id);
    }
  }

  /** A second pass changes no subscription, whatever plans are on sale by then. */
  lemma SubscriptionsOnce(subs: seq<StartedSubscription>, tenants: seq<Tenant>, plans: seq<Plan>, asked: Option<int>,
                          later: seq<Plan>, askedLater: Option<int>)
    requires PlanFor(plans, asked).Some?
    ensures var after := AfterSeed(subs, tenants, plans, asked); AfterSeed(after, tenants, later, askedLater) == after
  {
    var after := AfterSeed(subs, tenants, plans, asked);
    forall k | 0 <= k < |tenants| ensures Subscribed(after, tenants[k].id) {
      OneSubscriptionEach(subs, tenants, plans, PlanFor(plans, asked).value, tenants[k].id);
      SubscribedIsCounted(after, tenants[k].id);
    }
    if PlanFor(later, askedLater).Some? { AllSubscribedStays(after, tenants, later, PlanFor(later, askedLater).value); }
  }

  // ----- The catalogue of a provider that has none -----

  function Size(vendors: seq<Row>, configs: seq<Row>, t: int): nat {
    |Mine(vendors, t)| + |Mine(configs, t)|
  }

  function Profiles(rows: seq<Row>): seq<Profile> {
    seq(|rows|, i requires 0 <= i < |rows| => rows[i].profile)
  }

  datatype Source = Platform(id: int) | Provider(id: int) | Nobody

  /** The platform's own row: of several, the lowest id. */
  function Box(tenants: seq<Tenant>): Option<int> {
    if tenants == [] then None
    else
      var rest := Box(tenants[1..]);
      if tenants[0].kind == "platform" && (rest.None? || tenants[0].id <= rest.value) then Some(tenants[0].id) else rest
  }

  /** That row: the lowest id of the platform's kind, if there is any. */
  lemma {:induction false} BoxMeaning(tenants: seq<Tenant>)
    ensures Box(tenants).None? <==> forall t | t in tenants :: t.kind != "platform"
    ensures Box(tenants).Some? ==>
      && (exists t | t in tenants :: t.kind == "platform" && t.id == Box(tenants).value)
      && (forall t | t in tenants && t.kind == "platform" :: Box(tenants).value <= t.id)
  {
    if tenants != [] {
      BoxMeaning(tenants[1..]);
      assert tenants == [tenants[0]] + tenants[1..];
      assert tenants[0] in tenants;
    }
  }

  /** `catalogueSource`: the platform's row if it has a catalogue, or the lowest id that has one. */
  ghost predicate IsSource(s: Source, tenants: seq<Tenant>, vendors: seq<Row>, configs: seq<Row>) {
    var box := Box(tenants);
    var platform := box.Some? && Size(vendors, configs, box.value) > 0;
    match s
    case Platform(id) => platform && box == Some(id)
    case Provider(id) =>
      !platform && Size(vendors, configs, id) > 0 && forall t: int | Size(vendors, configs, t) > 0 :: id <= t
    case Nobody => !platform && forall t: int :: Size(vendors, configs, t) == 0
  }

  /** The hosted edition copies from the platform's row only. */
  predicate Copies(s: Source, hosted: bool) {
    s.Platform? || (s.Provider? && !hosted)
  }

  /** One provider's rows after the pass: a catalogue if it was visited without one, and otherwise what it had. */
  ghost predicate SeededFor(vendors: seq<Row>, configs: seq<Row>, vendorsAfter: seq<Row>, configsAfter: seq<Row>,
                            visited: seq<Tenant>, s: Source, hosted: bool, t: int)
  {
    if Copies(s, hosted) && Size(vendors, configs, t) == 0 && Visits(visited, t)
    then Profiles(Mine(vendorsAfter, t)) == Profiles(Mine(vendors, s.id))
         && Profiles(Mine(configsAfter, t)) == Profiles(Mine(configs, s.id))
    else Mine(vendorsAfter, t) == Mine(vendors, t) && Mine(configsAfter, t) == Mine(configs, t)
  }

  /** The two tables after the pass. */
  ghost predicate CatalogueSeeded(vendors: seq<Row>, configs: seq<Row>, vendorsAfter: seq<Row>, configsAfter: seq<Row>,
                                  visited: seq<Tenant>, s: Source, hosted: bool)
  {
    forall t: int :: SeededFor(vendors, configs, vendorsAfter, configsAfter, visited, s, hosted, t)
  }

  predicate Visits(visited: seq<Tenant>, t: int) {
    exists k | 0 <= k < |visited| :: visited[k].id == t
  }

  /** The copy of one provider's rows in both tables, row by row. */
  ghost predicate HasCopyOf(vendors: seq<Row>, configs: seq<Row>, vendorsAfter: seq<Row>, configsAfter: seq<Row>, t: int, of: int) {
    && |Mine(vendorsAfter, t)| == |Mine(vendors, of)| && |Mine(configsAfter, t)| == |Mine(configs, of)|
    && (forall i | 0 <= i < |Mine(vendors, of)| :: Mine(vendorsAfter, t)[i].profile == Mine(vendors, of)[i].profile)
    && (forall i | 0 <= i < |Mine(configs, of)| :: Mine(configsAfter, t)[i].profile == Mine(configs, of)[i].profile)
  }

  predicate IsEmpty(vendors: seq<Row>, configs: seq<Row>, t: int) {
    Mine(vendors, t) == [] && Mine(configs, t) == []
  }

  /** The lowest id that has a catalogue. */
  ghost predicate LowestWithAny(vendors: seq<Row>, configs: seq<Row>, id: int) {
    !IsEmpty(vendors, configs, id) && forall t: int | !IsEmpty(vendors, configs, t) :: id <= t
  }

  predicate PlatformHasAny(tenants: seq<Tenant>, vendors: seq<Row>, configs: seq<Row>) {
    Box(tenants).Some? && !IsEmpty(vendors, configs, Box(tenants).value)
  }

  lemma EmptyIsNoSize(vendors: seq<Row>, configs: seq<Row>, t: int)
    ensures IsEmpty(vendors, configs, t) <==> Size(vendors, configs, t) == 0
  {
  }

  lemma SourceMeaning(s: Source, tenants: seq<Tenant>, vendors: seq<Row>, configs: seq<Row>)
    requires IsSource(s, tenants, vendors, configs)
    ensures match s
      case Platform(id) => PlatformHasAny(tenants, vendors, configs) && Box(tenants) == Some(id)
      case Provider(id) => !PlatformHasAny(tenants, vendors, configs) && LowestWithAny(vendors, configs, id)
      case Nobody => !PlatformHasAny(tenants, vendors, configs) && forall t: int :: IsEmpty(vendors, configs, t)
  {
    forall t: int ensures IsEmpty(vendors, configs, t) <==> Size(vendors, configs, t) == 0 { EmptyIsNoSize(vendors, configs, t); }
  }

  lemma SeededHasCopy(v: seq<Row>, c: seq<Row>, v1: seq<Row>, c1: seq<Row>, visited: seq<Tenant>, s: Source, hosted: bool, t: int)
    requires SeededFor(v, c, v1, c1, visited, s, hosted, t)
    ensures if Copies(s, hosted) && IsEmpty(v, c, t) && Visits(visited, t) then HasCopyOf(v, c, v1, c1, t, s.id)
            else Mine(v1, t) == Mine(v, t) && Mine(c1, t) == Mine(c, t)
  {
    EmptyIsNoSize(v, c, t);
    if Copies(s, hosted) && IsEmpty(v, c, t) && Visits(visited, t) {
      ProfilesAreEach(Mine(v1, t), Mine(v, s.id));
      ProfilesAreEach(Mine(c1, t), Mine(c, s.id));
    }
  }

  /**
   * What a pass makes of a provider's catalogue. One that has any, or was not
   * visited, keeps it. One that has none is given the platform's, if that has
   * any; otherwise, and not on the hosted edition, the one of the lowest id that
   * has any; otherwise none.
   */
  lemma CatalogueMeaning(tenants: seq<Tenant>, visited: seq<Tenant>, hosted: bool, v: seq<Row>, c: seq<Row>, s: Source,
                         v1: seq<Row>, c1: seq<Row>, t: int)
    requires IsSource(s, tenants, v, c) && CatalogueSeeded(v, c, v1, c1, visited, s, hosted)
    ensures var kept := Mine(v1, t) == Mine(v, t) && Mine(c1, t) == Mine(c, t);
      if !IsEmpty(v, c, t) || !(exists k | 0 <= k < |visited| :: visited[k].id == t) then kept
      else if PlatformHasAny(tenants, v, c) then HasCopyOf(v, c, v1, c1, t, Box(tenants).value)
      else if hosted || forall u: int :: IsEmpty(v, c, u) then kept
      else exists u: int :: LowestWithAny(v, c, u) && HasCopyOf(v, c, v1, c1, t, u)
  {
    assert SeededFor(v, c, v1, c1, visited, s, hosted, t);
    SeededHasCopy(v, c, v1, c1, visited, s, hosted, t);
    SourceMeaning(s, tenants, v, c);
  }

  lemma ProfilesAreEach(a: seq<Row>, b: seq<Row>)
    requires Profiles(a) == Profiles(b)
    ensures |a| == |b| && forall i | 0 <= i < |b| :: a[i].profile == b[i].profile
  {
    SameProfilesSameSize(a, b);
    forall i | 0 <= i < |b| ensures a[i].profile == b[i].profile { assert Profiles(a)[i] == Profiles(b)[i]; }
  }

  /** A second pass writes nothing to either table. */
  lemma CatalogueOnce(tenants: seq<Tenant>, visited: seq<Tenant>, hosted: bool, v: seq<Row>, c: seq<Row>, s: Source,
                      v1: seq<Row>, c1: seq<Row>, s1: Source, v2: seq<Row>, c2: seq<Row>)
    requires IsSource(s, tenants, v, c) && CatalogueSeeded(v, c, v1, c1, visited, s, hosted)
    requires IsSource(s1, tenants, v1, c1) && CatalogueSeeded(v1, c1, v2, c2, visited, s1, hosted)
    ensures forall t: int :: Mine(v2, t) == Mine(v1, t) && Mine(c2, t) == Mine(c1, t)
  {
    forall t: int ensures Mine(v2, t) == Mine(v1, t) && Mine(c2, t) == Mine(c1, t) {
      assert SeededFor(v, c, v1, c1, visited, s, hosted, t) && SeededFor(v1, c1, v2, c2, visited, s1, hosted, t);
      if Copies(s, hosted) {
        assert Size(v, c, s.id) > 0;
        if Size(v, c, t) == 0 && Visits(visited, t) {
          SameProfilesSameSize(Mine(v1, t), Mine(v, s.id));
          SameProfilesSameSize(Mine(c1, t), Mine(c, s.id));
        }
      } else {
        NobodyStaysNobody(tenants, visited, hosted, v, c, s, v1, c1, s1);
      }
    }
  }

  lemma SameProfilesSameSize(a: seq<Row>, b: seq<Row>)
    requires Profiles(a) == Profiles(b)
    ensures |a| == |b|
  {
    assert |Profiles(a)| == |a| && |Profiles(b)| == |b|;
  }

  lemma NobodyStaysNobody(tenants: seq<Tenant>, visited: seq<Tenant>, hosted: bool, v: seq<Row>, c: seq<Row>, s: Source,
                          v1: seq<Row>, c1: seq<Row>, s1: Source)
    requires IsSource(s, tenants, v, c) && CatalogueSeeded(v, c, v1, c1, visited, s, hosted) && !Copies(s, hosted)
    requires IsSource(s1, tenants, v1, c1)
    ensures !Copies(s1, hosted)
  {
    forall t: int ensures Size(v1, c1, t) == Size(v, c, t) {
      assert SeededFor(v, c, v1, c1, visited, s, hosted, t);
    }
  }

  // ----- The pass -----

  datatype Centre = Centre(latitude: string, longitude: string, zoomIn: string, zoomOut: string, zoom: string)

  const BRASILIA := Centre("-15.7942", "-47.8822", "18", "5", "13")

  function Ids(visited: seq<Tenant>): seq<int> {
    seq(|visited|, i requires 0 <= i < |visited| => visited[i].id)
  }

  function CentreAfter(centres: map<int, Centre>, visited: seq<Tenant>, t: int): Option<Centre> {
    if t in centres then Some(centres[t]) else if t in Ids(visited) then Some(BRASILIA) else None
  }

  /** Every provider visited has a centre; whoever had one keeps it. */
  ghost predicate CentresSeeded(centres: map<int, Centre>, after: map<int, Centre>, visited: seq<Tenant>) {
    forall t: int :: (if t in after then Some(after[t]) else None) == CentreAfter(centres, visited, t)
  }

  /** What a pass makes of each centre: the visited provider without one is given the middle of the country, the others keep theirs. */
  lemma CentresMeaning(centres: map<int, Centre>, after: map<int, Centre>, visited: seq<Tenant>, t: int)
    requires CentresSeeded(centres, after, visited)
    ensures if t in centres then t in after && after[t] == centres[t]
      else (t in after <==> exists k | 0 <= k < |visited| :: visited[k].id == t)
           && (t in after ==> after[t] == Centre("-15.7942", "-47.8822", "18", "5", "13"))
  {
    assert (if t in after then Some(after[t]) else None) == CentreAfter(centres, visited, t);
    if k :| 0 <= k < |visited| && visited[k].id == t { assert Ids(visited)[k] == t; }
  }

  lemma CentresOnce(centres: map<int, Centre>, after: map<int, Centre>, again: map<int, Centre>, visited: seq<Tenant>)
    requires CentresSeeded(centres, after, visited) && CentresSeeded(after, again, visited)
    ensures again == after
  {
    forall t: int ensures (t in again <==> t in after) && (t in after ==> again[t] == after[t]) {
      assert (if t in after then Some(after[t]) else None) == CentreAfter(centres, visited, t);
      assert (if t in again then Some(again[t]) else None) == CentreAfter(after, visited, t);
    }
    assert again.Keys == after.Keys;
  }

  /** What the passes write to. */
  datatype Contents = Contents(settings: Settings, centres: map<int, Centre>, subscriptions: seq<StartedSubscription>,
                               vendors: seq<Row>, configs: seq<Row>)

  /** What one pass leaves of everything; `s` is where its catalogues came from. */
  ghost predicate Seeded(before: Contents, after: Contents, tenants: seq<Tenant>, visited: seq<Tenant>, d: Defaults,
                         plans: seq<Plan>, asked: Option<int>, hosted: bool, s: Source)
  {
    && SettingsSeeded(before.settings, after.settings, Ids(visited), d)
    && CentresSeeded(before.centres, after.centres, visited)
    && after.subscriptions == AfterSeed(before.subscriptions, visited, plans, asked)
    && IsSource(s, tenants, before.vendors, before.configs)
    && CatalogueSeeded(before.vendors, before.configs, after.vendors, after.configs, visited, s, hosted)
  }

  lemma SubscriptionsAgainIff(subs: seq<StartedSubscription>, tenants: seq<Tenant>, plans: seq<Plan>, asked: Option<int>)
    ensures AfterSeed(subs, tenants, plans, asked) == subs
            <==> PlanFor(plans, asked).None? || forall k | 0 <= k < |tenants| :: Subscribed(subs, tenants[k].id)
  {
    if PlanFor(plans, asked).Some? {
      var plan := PlanFor(plans, asked).value;
      if k :| 0 <= k < |tenants| && !Subscribed(subs, tenants[k].id) {
        OneSubscriptionEach(subs, tenants, plans, plan, tenants[k].id);
        SubscribedIsCounted(subs, tenants[k].id);
      } else {
        AllSubscribedStays(subs, tenants, plans, plan);
      }
    }
  }

  /**
   * `seedDefaults` again, for the same providers, with whatever plans are on
   * sale by then: no setting, no centre and no row of either catalogue table
   * changes, and no subscription does either, except that a provider left
   * without one, because there was no plan to give, gets one when there is.
   */
  lemma SecondPassChangesNothing(a: Contents, b: Contents, c: Contents, tenants: seq<Tenant>, visited: seq<Tenant>, d: Defaults,
                                 hosted: bool, plans: seq<Plan>, asked: Option<int>, s: Source,
                                 later: seq<Plan>, askedLater: Option<int>, s1: Source)
    requires Seeded(a, b, tenants, visited, d, plans, asked, hosted, s)
    requires Seeded(b, c, tenants, visited, d, later, askedLater, hosted, s1)
    ensures c.settings == b.settings && c.centres == b.centres
    ensures forall t: int :: Mine(c.vendors, t) == Mine(b.vendors, t) && Mine(c.configs, t) == Mine(b.configs, t)
    ensures PlanFor(plans, asked).Some? ==> c.subscriptions == b.subscriptions
    ensures c.subscriptions == b.subscriptions <==>
      PlanFor(later, askedLater).None? || forall k | 0 <= k < |visited| :: Subscribed(b.subscriptions, visited[k].id)
  {
    SettingsOnce(a.settings, b.settings, c.settings, Ids(visited), d);
    CentresOnce(a.centres, b.centres, c.centres, visited);
    CatalogueOnce(tenants, visited, hosted, a.vendors, a.configs, s, b.vendors, b.configs, s1, c.vendors, c.configs);
    if PlanFor(plans, asked).Some? { SubscriptionsOnce(a.subscriptions, visited, plans, asked, later, askedLater); }
    SubscriptionsAgainIff(b.subscriptions, visited, later, askedLater);
  }

  /** Settings seeded for some providers and then for one more are seeded for all of them. */
  lemma SettingsOneMore(m: Settings, middle: Settings, after: Settings, tenants: seq<int>, t: int, d: Defaults)
    requires SettingsSeeded(m, middle, tenants, d) && SettingsSeeded(middle, after, [t], d)
    ensures SettingsSeeded(m, after, tenants + [t], d)
  {
    forall u: int, key: string ensures Lookup(after, u, key) == SettingAfter(m, tenants + [t], d, u, key) {
      assert Lookup(middle, u, key) == SettingAfter(m, tenants, d, u, key);
      assert Lookup(after, u, key) == SettingAfter(middle, [t], d, u, key);
    }
  }

  /** After the first keys: those seeded, the others as they were. */
  ghost predicate KeysSeeded(m: Settings, after: Settings, t: int, d: Defaults, done: seq<string>) {
    forall u: int, key: string :: Lookup(after, u, key)
      == if u == t && key in done && key in d.values
         then Some(Refresh(Lookup(m, t, key), d.values[key], Shipped(d.legacy, key))) else Lookup(m, u, key)
  }

  class Installation {
    var settings: Settings
    var centres: map<int, Centre>
    var subscriptions: seq<StartedSubscription>
    const vendors: Table
    const configs: Table

    constructor (settings: Settings, centres: map<int, Centre>, subscriptions: seq<StartedSubscription>, vendors: Table, configs: Table)
      ensures this.settings == settings && this.centres == centres && this.subscriptions == subscriptions
      ensures this.vendors == vendors && this.configs == configs
    {
      this.settings, this.centres, this.subscriptions := settings, centres, subscriptions;
      this.vendors, this.configs := vendors, configs;
    }

    ghost predicate Valid()
      reads this, vendors, configs
    {
      vendors != configs && vendors.Valid() && configs.Valid()
    }

    ghost function AsContents(): Contents
      reads this, vendors, configs
    {
      Contents(settings, centres, subscriptions, vendors.rows, configs.rows)
    }

    /** The settings of one provider. */
    method SeedSettings(t: int, d: Defaults)
      requires WellFormed(d)
      modifies `settings
      ensures SettingsSeeded(old(settings), settings, [t], d)
    {
      for k := 0 to |d.keys|
        invariant KeysSeeded(old(settings), settings, t, d, d.keys[..k])
      {
        var key := d.keys[k];
        ghost var before := settings;
        assert key in d.keys && key !in d.keys[..k] && d.keys[..k + 1] == d.keys[..k] + [key];
        assert Lookup(settings, t, key) == Lookup(old(settings), t, key);
        if (t, key) !in settings {
          settings := settings[(t, key) := d.values[key]];
        } else if key in d.legacy && settings[(t, key)] in d.legacy[key] {
          settings := settings[(t, key) := d.values[key]];
        }
        forall u: int, other: string ensures Lookup(settings, u, other)
          == if u == t && other == key then Some(Refresh(Lookup(before, t, key), d.values[key], Shipped(d.legacy, key)))
             else Lookup(before, u, other)
        {
        }
      }
      assert d.keys[..|d.keys|] == d.keys;
    }

    /** The settings and the map's centre of every provider visited. */
    method SeedSettingsAndCentres(visited: seq<Tenant>, d: Defaults)
      requires WellFormed(d)
      modifies `settings, `centres
      ensures SettingsSeeded(old(settings), settings, Ids(visited), d)
      ensures CentresSeeded(old(centres), centres, visited)
    {
      for i := 0 to |visited|
        invariant SettingsSeeded(old(settings), settings, Ids(visited)[..i], d)
        invariant CentresSeeded(old(centres), centres, visited[..i])
      {
        var t := visited[i].id;
        ghost var middle := settings;
        SeedSettings(t, d);
        SettingsOneMore(old(settings), middle, settings, Ids(visited)[..i], t, d);
        assert Ids(visited)[..i + 1] == Ids(visited)[..i] + [t];
        assert Ids(visited[..i + 1]) == Ids(visited[..i]) + [t];
        if t !in centres {
          centres := centres[t := BRASILIA];
        }
      }
      assert Ids(visited)[..|visited|] == Ids(visited) && visited[..|visited|] == visited;
    }

    /** `seedSubscriptions`. */
    method SeedSubscriptions(visited: seq<Tenant>, plans: seq<Plan>, asked: Option<int>)
      modifies `subscriptions
      ensures subscriptions == AfterSeed(old(subscriptions), visited, plans, asked)
    {
      var plan := PlanFor(plans, asked);
      if plan.None? { return; }
      for i := 0 to |visited|
        invariant subscriptions == SubscriptionsAfter(old(subscriptions), visited[..i], plans, plan.value)
      {
        assert visited[..i + 1][..i] == visited[..i];
        if Subscribed(subscriptions, visited[i].id) { continue; }
        subscriptions := subscriptions + [FirstSubscription(visited[i], plans, plan.value)];
      }
      assert visited[..|visited|] == visited;
    }

    /** `catalogueSizes`: rows of both tables, by provider; `order` is the map's own. */
    method CatalogueSizes() returns (sizes: map<int, nat>, order: seq<int>)
      requires Valid()
      ensures forall t: int {:trigger Size(vendors.rows, configs.rows, t)} ::
        SizeIn(sizes, t) == Size(vendors.rows, configs.rows, t)
      ensures forall t: int :: t in order <==> t in sizes
    {
      sizes, order := map[], [];
      sizes, order := CountRows(vendors.rows, sizes, order);
      sizes, order := CountRows(configs.rows, sizes, order);
    }

    /** `catalogueSource`. */
    method CatalogueSource(tenants: seq<Tenant>, sizes: map<int, nat>, order: seq<int>) returns (s: Source)
      requires forall t: int {:trigger Size(vendors.rows, configs.rows, t)} ::
        SizeIn(sizes, t) == Size(vendors.rows, configs.rows, t)
      requires forall t: int :: t in order <==> t in sizes
      ensures IsSource(s, tenants, vendors.rows, configs.rows)
    {
      var box := Box(tenants);
      if box.Some? && SizeIn(sizes, box.value) > 0 { return Platform(box.value); }
      var lowest: Option<int> := None;
      for i := 0 to |order|
        invariant lowest.None? ==> forall k | 0 <= k < i :: SizeIn(sizes, order[k]) == 0
        invariant lowest.Some? ==> SizeIn(sizes, lowest.value) > 0
        invariant lowest.Some? ==> forall k | 0 <= k < i && SizeIn(sizes, order[k]) > 0 :: lowest.value <= order[k]
      {
        if SizeIn(sizes, order[i]) > 0 && (lowest.None? || order[i] < lowest.value) { lowest := Some(order[i]); }
      }
      s := if lowest.None? then Nobody else Provider(lowest.value);
      LowestIsSource(tenants, vendors.rows, configs.rows, sizes, order, lowest);
    }

    /** `copyCatalogue`: every row of the source, its columns, under the other provider. */
    method CopyCatalogue(source: int, target: int)
      requires Valid() && source != target
      modifies vendors, configs
      ensures Valid()
      ensures Copied(old(vendors.rows), vendors.rows, source, target) && Copied(old(configs.rows), configs.rows, source, target)
    {
      CopyRows(vendors, source, target);
      CopyRows(configs, source, target);
    }

    /** `seedVendorCatalogue`: each provider visited that had no catalogue when the pass began. */
    method SeedVendorCatalogue(tenants: seq<Tenant>, visited: seq<Tenant>, hosted: bool) returns (ghost s: Source)
      requires Valid() && Keyed(visited)
      modifies vendors, configs
      ensures Valid() && IsSource(s, tenants, old(vendors.rows), old(configs.rows))
      ensures CatalogueSeeded(old(vendors.rows), old(configs.rows), vendors.rows, configs.rows, visited, s, hosted)
    {
      var sizes, order := CatalogueSizes();
      var source := CatalogueSource(tenants, sizes, order);
      s := source;
      ghost var v0, c0 := vendors.rows, configs.rows;
      NothingSeededYet(v0, c0, visited, s, hosted);
      if source.Nobody? || (hosted && !source.Platform?) { return; }
      for i := 0 to |visited|
        invariant Valid()
        invariant CatalogueSeeded(v0, c0, vendors.rows, configs.rows, visited[..i], s, hosted)
      {
        var t := visited[i].id;
        ghost var v, c := vendors.rows, configs.rows;
        assert SizeIn(sizes, t) == Size(v0, c0, t) && Size(v0, c0, s.id) > 0;
        if SizeIn(sizes, t) == 0 { CopyCatalogue(source.id, t); }
        SeededOneMore(v0, c0, v, c, vendors.rows, configs.rows, visited, i, s, hosted);
      }
      assert visited[..|visited|] == visited;
    }

    /** `seedDefaults`, but for the messaging server. */
    method SeedDefaults(tenants: seq<Tenant>, visited: seq<Tenant>, d: Defaults, plans: seq<Plan>, asked: Option<int>, hosted: bool)
      returns (ghost s: Source)
      requires Valid() && Keyed(visited) && WellFormed(d)
      modifies this, vendors, configs
      ensures Valid() && Seeded(old(AsContents()), AsContents(), tenants, visited, d, plans, asked, hosted, s)
    {
      SeedSettingsAndCentres(visited, d);
      s := SeedVendorCatalogue(tenants, visited, hosted);
      SeedSubscriptions(visited, plans, asked);
    }
  }

  /** The lowest id met with a catalogue, when the platform's row has none. */
  lemma LowestIsSource(tenants: seq<Tenant>, v: seq<Row>, c: seq<Row>, sizes: map<int, nat>, order: seq<int>, lowest: Option<int>)
    requires forall t: int {:trigger Size(v, c, t)} :: SizeIn(sizes, t) == Size(v, c, t)
    requires forall t: int :: t in order <==> t in sizes
    requires Box(tenants).None? || SizeIn(sizes, Box(tenants).value) == 0
    requires lowest.None? ==> forall k | 0 <= k < |order| :: SizeIn(sizes, order[k]) == 0
    requires lowest.Some? ==> SizeIn(sizes, lowest.value) > 0
    requires lowest.Some? ==> forall k | 0 <= k < |order| && SizeIn(sizes, order[k]) > 0 :: lowest.value <= order[k]
    ensures IsSource(if lowest.None? then Nobody else Provider(lowest.value), tenants, v, c)
  {
    forall t: int ensures Size(v, c, t) > 0 ==> lowest.Some? && lowest.value <= t {
      assert SizeIn(sizes, t) == Size(v, c, t);
      if t in order {
        var k :| 0 <= k < |order| && order[k] == t;
      }
    }
  }

  function SizeIn(sizes: map<int, nat>, t: int): nat {
    if t in sizes then sizes[t] else 0
  }

  lemma MineSnoc(rows: seq<Row>, i: nat, t: int)
    requires i < |rows|
    ensures Mine(rows[..i + 1], t) == Mine(rows[..i], t) + if rows[i].tenant == t then [rows[i]] else []
  {
    assert rows[..i + 1] == rows[..i] + [rows[i]];
    MineOfConcat(rows[..i], [rows[i]], t);
  }

  method CountRows(rows: seq<Row>, sizes: map<int, nat>, order: seq<int>) returns (counted: map<int, nat>, met: seq<int>)
    requires forall t: int :: t in order <==> t in sizes
    ensures forall t: int :: SizeIn(counted, t) == SizeIn(sizes, t) + |Mine(rows, t)|
    ensures forall t: int :: t in met <==> t in counted
  {
    counted, met := sizes, order;
    for i := 0 to |rows|
      invariant forall t: int :: SizeIn(counted, t) == SizeIn(sizes, t) + |Mine(rows[..i], t)|
      invariant forall t: int :: t in met <==> t in counted
    {
      forall t: int ensures Mine(rows[..i + 1], t) == Mine(rows[..i], t) + if rows[i].tenant == t then [rows[i]] else [] {
        MineSnoc(rows, i, t);
      }
      if rows[i].tenant !in counted { met := met + [rows[i].tenant]; }
      counted := counted[rows[i].tenant := SizeIn(counted, rows[i].tenant) + 1];
    }
    assert rows[..|rows|] == rows;
  }

  /** The target has the source's profiles behind its own; everybody else's rows are as they were. */
  ghost predicate Copied(before: seq<Row>, after: seq<Row>, source: int, target: int) {
    Profiles(Mine(after, target)) == Profiles(Mine(before, target)) + Profiles(Mine(before, source))
    && OthersSame(before, after, target)
  }

  lemma ProfilesSnoc(rows: seq<Row>, i: nat)
    requires i < |rows|
    ensures Profiles(rows[..i + 1]) == Profiles(rows[..i]) + [rows[i].profile]
  {
  }

  lemma ProfilesConcat(a: seq<Row>, b: seq<Row>)
    ensures Profiles(a + b) == Profiles(a) + Profiles(b)
  {
  }

  lemma CopiedOneMore(base: seq<Row>, mine: seq<Row>, rows: seq<Row>, i: nat, row: Row)
    requires i < |rows| && row.profile == rows[i].profile && Profiles(mine) == Profiles(base) + Profiles(rows[..i])
    ensures Profiles(mine + [row]) == Profiles(base) + Profiles(rows[..i + 1])
  {
    ProfilesConcat(mine, [row]);
    ProfilesSnoc(rows, i);
    Associates(Profiles(base), Profiles(rows[..i]), [row.profile]);
  }

  method CopyRows(table: Table, source: int, target: int)
    requires table.Valid() && source != target
    modifies table
    ensures table.Valid() && Copied(old(table.rows), table.rows, source, target)
  {
    var rows := Mine(table.rows, source);
    for i := 0 to |rows|
      invariant table.Valid()
      invariant Profiles(Mine(table.rows, target)) == Profiles(Mine(old(table.rows), target)) + Profiles(rows[..i])
      invariant OthersSame(old(table.rows), table.rows, target)
    {
      ghost var middle := table.rows;
      ghost var mine := Mine(table.rows, target);
      ghost var id := table.nextId;
      table.Insert(target, rows[i].profile);
      OthersSameTwice(old(table.rows), middle, table.rows, target);
      CopiedOneMore(Mine(old(table.rows), target), mine, rows, i, Row(id, target, rows[i].profile));
    }
    assert rows[..|rows|] == rows;
  }

  lemma NothingSeededYet(v: seq<Row>, c: seq<Row>, visited: seq<Tenant>, s: Source, hosted: bool)
    ensures CatalogueSeeded(v, c, v, c, visited[..0], s, hosted)
    ensures !Copies(s, hosted) ==> CatalogueSeeded(v, c, v, c, visited, s, hosted)
  {
    assert visited[..0] == [];
    assert forall t: int :: !Visits([], t);
  }

  /** A provider copied to. */
  lemma SeededByCopy(v0: seq<Row>, c0: seq<Row>, v: seq<Row>, c: seq<Row>, v1: seq<Row>, c1: seq<Row>,
                     visited: seq<Tenant>, i: nat, s: Source, hosted: bool)
    requires i < |visited| && Keyed(visited) && Copies(s, hosted) && Size(v0, c0, s.id) > 0
    requires CatalogueSeeded(v0, c0, v, c, visited[..i], s, hosted) && Size(v0, c0, visited[i].id) == 0
    requires Copied(v, v1, s.id, visited[i].id) && Copied(c, c1, s.id, visited[i].id)
    ensures SeededFor(v0, c0, v1, c1, visited[..i + 1], s, hosted, visited[i].id)
  {
    var now := visited[i].id;
    assert !Visits(visited[..i], now);
    assert SeededFor(v0, c0, v, c, visited[..i], s, hosted, now) && SeededFor(v0, c0, v, c, visited[..i], s, hosted, s.id);
    VisitsSnoc(visited, i, now);
    assert Profiles(Mine(v, now)) == [] && Profiles(Mine(c, now)) == [];
    assert [] + Profiles(Mine(v, s.id)) == Profiles(Mine(v, s.id)) && [] + Profiles(Mine(c, s.id)) == Profiles(Mine(c, s.id));
  }

  lemma SeededOneMore(v0: seq<Row>, c0: seq<Row>, v: seq<Row>, c: seq<Row>, v1: seq<Row>, c1: seq<Row>,
                      visited: seq<Tenant>, i: nat, s: Source, hosted: bool)
    requires i < |visited| && Keyed(visited) && Copies(s, hosted) && Size(v0, c0, s.id) > 0
    requires CatalogueSeeded(v0, c0, v, c, visited[..i], s, hosted)
    requires if Size(v0, c0, visited[i].id) == 0 then Copied(v, v1, s.id, visited[i].id) && Copied(c, c1, s.id, visited[i].id)
             else v1 == v && c1 == c
    ensures CatalogueSeeded(v0, c0, v1, c1, visited[..i + 1], s, hosted)
  {
    var now, reached := visited[i].id, visited[..i + 1];
    forall t: int ensures SeededFor(v0, c0, v1, c1, reached, s, hosted, t) {
      if t == now && Size(v0, c0, now) == 0 {
        SeededByCopy(v0, c0, v, c, v1, c1, visited, i, s, hosted);
      } else {
        VisitsSnoc(visited, i, t);
        assert SeededFor(v0, c0, v, c, visited[..i], s, hosted, t);
        assert Mine(v1, t) == Mine(v, t) && Mine(c1, t) == Mine(c, t);
      }
    }
  }

  lemma VisitsSnoc(visited: seq<Tenant>, i: nat, t: int)
    requires i < |visited|
    ensures Visits(visited[..i + 1], t) <==> Visits(visited[..i], t) || visited[i].id == t
  {
    var before, after := visited[..i], visited[..i + 1];
    if k :| 0 <= k < |before| && before[k].id == t { assert after[k].id == t; }
    assert after[i].id == visited[i].id;
    if k :| 0 <= k < |after| && after[k].id == t {
      if k < i { assert before[k].id == t; }
    }
  }
}
