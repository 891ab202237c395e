/**
 * What a refund gives back, exactly: the case where it undoes its payment's
 * push and the case where it does not, and what a recorded refund closes.
 */
module BillingRefunds {
  import opened Prelude
  import opened BillingAccount
  import opened BillingLaws

  /**
   * The guard under which a refund takes back the whole push of its payment:
   * nothing moved the date since, or something did and the payment was on time.
   */
  predicate TakesBackThePush(date: Instant, x: Extension) {
    date == x.to || ((x.from.None? || !Near(date, x.to)) && Lapse(x) == 0)
  }

  /** A refund undoes exactly the push of its payment if and only if the guard holds. */
  lemma RefundUndoesPushIff(a: Account, id: string)
    requires Good(a) && a.subscription.Some? && a.subscription.value.renewsAt.Some?
    requires Has(a.ledger, PaymentRef(id)) && !Has(a.ledger, RefundRef(id))
    requires ExtensionOf(a.ledger, id).Some?
    ensures var x := ExtensionOf(a.ledger, id).value;
      var date := a.subscription.value.renewsAt.value;
      var (b, result) := ReversePayment(a, id);
      && result == Reversed && b.subscription.value.renewsAt.Some?
      && (b.subscription.value.renewsAt.value == date - Push(x) <==> TakesBackThePush(date, x))
  {
  }

  /**
   * The date after a refund: less the push of its payment, but for what stays
   * of it, which is what the account's residue grows by.
   */
  lemma RefundResidue(a: Account, id: string)
    requires Good(a) && a.subscription.Some? && a.subscription.value.renewsAt.Some?
    requires Has(a.ledger, PaymentRef(id)) && !Has(a.ledger, RefundRef(id))
    ensures var (b, _) := ReversePayment(a, id);
      var date, x := a.subscription.value.renewsAt.value, ExtensionOf(a.ledger, id);
      var left := if x.None? then 0 else if x.value.from.Some? && Near(date, x.value.to) then x.value.to - date else Lapse(x.value);
      && b.subscription.value.renewsAt == Some(date - PushesOf(a.ledger, id) + left)
      && Residue(b.ledger) == Residue(a.ledger) + left
  {
    var e := ReversedRow(a, id);
    assert Front(a.ledger + [e]) == a.ledger;
    ReversedDate(a, id);
  }

  // ----- The law without residue -----

  /** The renewal date is the anchor plus the pushes still standing. */
  predicate Strict(start: Option<Instant>, a: Account) {
    a.subscription.Some? && a.subscription.value.renewsAt.Some? ==>
      a.subscription.value.renewsAt.value == Anchor(start, a.ledger) + LivePushes(a.ledger, RefundedIds(a.ledger))
  }

  /** Whether the event is a refund that gets as far as the period, of a payment not refunded before. */
  predicate Reverses(a: Account, ev: Event) {
    && a.subscription.Some? && Has(a.ledger, PaymentRef(ev.id)) && !Has(a.ledger, RefundRef(ev.id))
    && match ev
       case RefundedIn(_, partial, steps) => !partial && steps >= 2
       case ConsoleRefund(id, steps) => steps >= 1 && id in a.charges && a.charges[id].status == Paid
       case _ => false
  }

  /** If the event undoes a period, the guard holds when it comes. */
  predicate TakesBackWhatItUndoes(a: Account, ev: Event) {
    Reverses(a, ev) && a.subscription.value.renewsAt.Some? && ExtensionOf(a.ledger, ev.id).Some? ==>
      TakesBackThePush(a.subscription.value.renewsAt.value, ExtensionOf(a.ledger, ev.id).value)
  }

  predicate EveryRefundTakesBack(a: Account, events: seq<Event>)
    decreases |events|
  {
    events != [] ==> TakesBackWhatItUndoes(a, events[0]) && EveryRefundTakesBack(Apply(a, events[0]), events[1..])
  }

  /** What an event adds to the residue. */
  function AddedResidue(a: Account, ev: Event): int {
    if Reverses(a, ev) then ReversalAdds(a, ev.id) else 0
  }

  /** The residue grew by so much, and the account has a subscription as before, dated if it was. */
  predicate GrewBy(a: Account, b: Account, added: int) {
    && Residue(b.ledger) == Residue(a.ledger) + added && b.subscription.Some? == a.subscription.Some?
    && (a.subscription.Some? && a.subscription.value.renewsAt.Some? ==> b.subscription.value.renewsAt.Some?)
  }

  lemma CreditResidue(a: Account, ref: Ref, amount: int, allow: bool, now: Instant, terms: Terms)
    ensures GrewBy(a, RecordPayment(a, ref, amount, allow, now, terms).0, 0)
  {
    if RecordPayment(a, ref, amount, allow, now, terms).1.Recorded? {
      var e := RecordedRow(a, ref, amount, allow, now, terms);
      assert Front(a.ledger + [e]) == a.ledger;
    }
  }

  function ReversalAdds(a: Account, id: string): int {
    if a.subscription.Some? && Has(a.ledger, PaymentRef(id)) && !Has(a.ledger, RefundRef(id))
       && a.subscription.value.renewsAt.Some? && ExtensionOf(a.ledger, id).Some?
    then LeftBehind(a.subscription.value.renewsAt.value, ExtensionOf(a.ledger, id).value) else 0
  }

  lemma ReversalResidue(a: Account, id: string)
    ensures GrewBy(a, ReversePayment(a, id).0, ReversalAdds(a, id))
  {
    if ReversePayment(a, id).1.Reversed? {
      var e := ReversedRow(a, id);
      assert Front(a.ledger + [e]) == a.ledger;
    }
  }

  lemma PaymentResidue(a: Account, id: string, amount: int, now: Instant, terms: Terms, steps: nat)
    ensures GrewBy(a, OnPayment(a, id, amount, now, terms, steps), 0)
  {
    CreditResidue(a, PaymentRef(id), amount, false, now, terms);
    PaymentRecordsOrNot(a, id, amount, now, terms, steps);
  }

  lemma AcceptResidue(a: Account, id: string, now: Instant, terms: Terms, steps: nat)
    ensures GrewBy(a, OnAccept(a, id, now, terms, steps), 0)
  {
    CreditResidue(a, AcceptedRef(id), 0, true, now, terms);
  }

  lemma RefundAdds(a: Account, id: string, partial: bool, steps: nat)
    ensures GrewBy(a, OnRefund(a, id, partial, steps), if partial || steps < 2 then 0 else ReversalAdds(a, id))
  {
    ReversalResidue(Relabel(a, id, Refunded), id);
  }

  lemma ConsoleRefundAdds(a: Account, id: string, steps: nat)
    ensures GrewBy(a, OnConsoleRefund(a, id, steps),
                   if steps >= 1 && id in a.charges && a.charges[id].status == Paid then ReversalAdds(a, id) else 0)
  {
    ReversalResidue(a, id);
  }

  lemma ApplyResidue(a: Account, ev: Event)
    ensures GrewBy(a, Apply(a, ev), AddedResidue(a, ev))
  {
    match ev
    case PaymentIn(id, amount, now, terms, steps) => PaymentResidue(a, id, amount, now, terms, steps);
    case RefundedIn(id, partial, steps) => RefundAdds(a, id, partial, steps);
    case ConsoleAccept(id, now, terms, steps) => AcceptResidue(a, id, now, terms, steps);
    case ConsoleRefund(id, steps) => ConsoleRefundAdds(a, id, steps);
    case _ =>
  }

  /** One event keeps the law without residue if and only if it takes back what it undoes. */
  lemma EventKeepsStrictIff(start: Option<Instant>, a: Account, ev: Event)
    requires Good(a) && Balanced(start, a) && Strict(start, a)
    ensures Good(Apply(a, ev)) && Balanced(start, Apply(a, ev))
    ensures Strict(start, Apply(a, ev)) <==> TakesBackWhatItUndoes(a, ev)
  {
    ApplyKeeps(start, a, ev);
    ApplyResidue(a, ev);
  }

  /** The law without residue after every event so far. */
  predicate StrictThroughout(start: Option<Instant>, a: Account, events: seq<Event>) {
    forall k | 0 <= k <= |events| :: Strict(start, Run(a, events[..k]))
  }

  lemma StrictFromHere(start: Option<Instant>, a: Account, events: seq<Event>)
    requires events != []
    ensures StrictThroughout(start, a, events)
            <==> Strict(start, a) && StrictThroughout(start, Apply(a, events[0]), events[1..])
  {
    var b, rest := Apply(a, events[0]), events[1..];
    assert events[..0] == [];
    forall k | 1 <= k <= |events| ensures Run(a, events[..k]) == Run(b, rest[..k - 1]) {
      assert events[..k][1..] == rest[..k - 1];
    }
    if StrictThroughout(start, a, events) {
      assert Strict(start, Run(a, events[..0]));
      forall k | 0 <= k <= |rest| ensures Strict(start, Run(b, rest[..k])) {
        assert Strict(start, Run(a, events[..k + 1]));
      }
    }
    if Strict(start, a) && StrictThroughout(start, b, rest) {
      forall k | 0 <= k <= |events| ensures Strict(start, Run(a, events[..k])) {
        if k > 0 { assert Strict(start, Run(b, rest[..k - 1])); }
      }
    }
  }

  lemma {:induction false} StrictThroughoutIff(start: Option<Instant>, a: Account, events: seq<Event>)
    requires Good(a) && Balanced(start, a) && Strict(start, a)
    ensures StrictThroughout(start, a, events) <==> EveryRefundTakesBack(a, events)
    decreases |events|
  {
    if events == [] {
      assert events[..0] == [];
    } else {
      var b := Apply(a, events[0]);
      EventKeepsStrictIff(start, a, events[0]);
      StrictFromHere(start, a, events);
      if Strict(start, b) {
        StrictThroughoutIff(start, b, events[1..]);
      } else {
        assert events[1..][..0] == [] && Run(b, events[1..][..0]) == b;
      }
    }
  }

  /**
   * The law without residue holds all along a run - whatever its order, its
   * repetitions and its crashes - if and only if each refund that undoes a
   * period finds the date where its payment left it, or undoes a payment that
   * was on time.
   */
  lemma StrictLawIff(a: Account, events: seq<Event>)
    requires Fresh(a)
    ensures (forall k | 0 <= k <= |events| :: Strict(Start(a), Run(a, events[..k]))) <==> EveryRefundTakesBack(a, events)
  {
    StrictThroughoutIff(Start(a), a, events);
  }

  // ----- When every payment is on time -----

  predicate AllOnTime(ledger: seq<Entry>) {
    forall i | 0 <= i < |ledger| :: ledger[i].Credit? && ledger[i].extension.Some? ==> Lapse(ledger[i].extension.value) == 0
  }

  predicate InTime(a: Account, now: Instant) {
    a.subscription.Some? && a.subscription.value.renewsAt.Some? ==> now <= a.subscription.value.renewsAt.value
  }

  /** A payment or an acceptance that is new comes no later than the deadline it finds. */
  predicate OnTime(a: Account, ev: Event) {
    match ev
    case PaymentIn(id, _, now, _, _) => Has(a.ledger, PaymentRef(id)) || InTime(a, now)
    case ConsoleAccept(id, now, _, _) => Has(a.ledger, AcceptedRef(id)) || InTime(a, now)
    case _ => true
  }

  predicate PaidOnTime(a: Account, events: seq<Event>)
    decreases |events|
  {
    events != [] ==> OnTime(a, events[0]) && PaidOnTime(Apply(a, events[0]), events[1..])
  }

  ghost predicate WholeDays(ms: int) {
    exists k: int :: ms == k * DAY
  }

  lemma WholeDaysAdd(x: int, d: int)
    requires WholeDays(x)
    ensures WholeDays(x + d * DAY) && WholeDays(x - d * DAY)
  {
    var k :| x == k * DAY;
    assert x + d * DAY == (k + d) * DAY;
    assert x - d * DAY == (k - d) * DAY;
  }

  lemma WholeDaysNear(x: int, y: int)
    requires WholeDays(x) && WholeDays(y) && Near(x, y)
    ensures x == y
  {
    var i :| x == i * DAY;
    var j :| y == j * DAY;
    assert x - y == (i - j) * DAY;
  }

  /** Every deadline a payment set lies a whole number of days from the anchor. */
  ghost predicate GridLedger(start: Option<Instant>, ledger: seq<Entry>) {
    forall i | 0 <= i < |ledger| :: ledger[i].Credit? && ledger[i].extension.Some? ==>
      WholeDays(ledger[i].extension.value.to - Anchor(start, ledger))
  }

  ghost predicate GridDate(start: Option<Instant>, a: Account) {
    a.subscription.Some? && a.subscription.value.renewsAt.Some? ==>
      WholeDays(a.subscription.value.renewsAt.value - Anchor(start, a.ledger))
  }

  lemma {:induction false} FindIsThere(ledger: seq<Entry>, ref: Ref)
    ensures Has(ledger, ref) ==> exists i | 0 <= i < |ledger| :: ledger[i] == Find(ledger, ref).value
    decreases |ledger|
  {
    if ledger != [] && Last(ledger).ref != ref {
      FindIsThere(Front(ledger), ref);
      if Has(ledger, ref) {
        var i :| 0 <= i < |Front(ledger)| && Front(ledger)[i] == Find(Front(ledger), ref).value;
        assert ledger[i] == Find(ledger, ref).value;
      }
    } else if ledger != [] {
      assert ledger[|ledger| - 1] == Find(ledger, ref).value;
    }
  }

  lemma {:induction false} HasExtensionIf(ledger: seq<Entry>, i: nat)
    requires i < |ledger| && ledger[i].Credit? && ledger[i].extension.Some?
    ensures HasExtension(ledger)
    decreases |ledger|
  {
    if i < |ledger| - 1 { HasExtensionIf(Front(ledger), i); }
  }

  /** The extension a refund would undo is in the ledger. */
  lemma ExtensionIsThere(a: Account, id: string)
    requires Good(a) && ExtensionOf(a.ledger, id).Some?
    ensures exists i | 0 <= i < |a.ledger| ::
      a.ledger[i].Credit? && a.ledger[i].extension == ExtensionOf(a.ledger, id)
    ensures HasExtension(a.ledger)
  {
    FindIsThere(a.ledger, PaymentRef(id));
    FindIsThere(a.ledger, AcceptedRef(id));
    var i :| 0 <= i < |a.ledger| && a.ledger[i].Credit? && a.ledger[i].extension == ExtensionOf(a.ledger, id);
    HasExtensionIf(a.ledger, i);
  }

  ghost predicate Tidy(start: Option<Instant>, a: Account) {
    Good(a) && Balanced(start, a) && AllOnTime(a.ledger) && GridLedger(start, a.ledger) && GridDate(start, a)
  }

  /** A new row keeps the deadlines on the grid when its own is on it and the anchor stays. */
  lemma GridGrows(start: Option<Instant>, ledger: seq<Entry>, e: Entry)
    requires GridLedger(start, ledger) && Anchor(start, ledger + [e]) == Anchor(start, ledger)
    requires e.Credit? && e.extension.Some? ==> WholeDays(e.extension.value.to - Anchor(start, ledger))
    ensures GridLedger(start, ledger + [e])
  {
    var longer := ledger + [e];
    forall i | 0 <= i < |longer| && longer[i].Credit? && longer[i].extension.Some?
      ensures WholeDays(longer[i].extension.value.to - Anchor(start, longer))
    {
      if i < |ledger| { assert longer[i] == ledger[i]; } else { assert longer[i] == e; }
    }
  }

  /** The first row that sets a deadline sets the anchor too. */
  lemma GridBegins(start: Option<Instant>, ledger: seq<Entry>, e: Entry)
    requires !HasExtension(ledger) && e.Credit? && e.extension.Some?
    requires Anchor(start, ledger + [e]) == e.extension.value.to - e.extension.value.days * DAY
    ensures GridLedger(start, ledger + [e])
    ensures WholeDays(e.extension.value.to - Anchor(start, ledger + [e]))
  {
    var longer := ledger + [e];
    var days := e.extension.value.days;
    assert e.extension.value.to - Anchor(start, longer) == days * DAY;
    forall i | 0 <= i < |longer| && longer[i].Credit? && longer[i].extension.Some?
      ensures WholeDays(longer[i].extension.value.to - Anchor(start, longer))
    {
      if i < |ledger| {
        assert longer[i] == ledger[i];
        HasExtensionIf(ledger, i);
      } else {
        assert longer[i] == e;
      }
    }
  }

  /** A payment on time that continues the date on the grid stays on the grid. */
  lemma GridCredit(start: Option<Instant>, ledger: seq<Entry>, e: Entry)
    requires AllWellFormed(ledger) && GridLedger(start, ledger)
    requires e.Credit? && WellFormed(e) && (e.extension.Some? ==> Lapse(e.extension.value) == 0)
    requires e.extension.Some? ==>
      match e.extension.value.from
      case None => start.None? && !HasExtension(ledger)
      case Some(from) => (start.Some? || HasExtension(ledger)) && WholeDays(from - Anchor(start, ledger))
    ensures GridLedger(start, ledger + [e])
    ensures e.extension.Some? ==> WholeDays(e.extension.value.to - Anchor(start, ledger + [e]))
    ensures e.extension.None? ==> Anchor(start, ledger + [e]) == Anchor(start, ledger)
  {
    AppendCredit(start, ledger, e);
    if e.extension.Some? && e.extension.value.from.None? {
      GridBegins(start, ledger, e);
    } else {
      if e.extension.Some? {
        var x := e.extension.value;
        WholeDaysAdd(x.from.value - Anchor(start, ledger), x.days);
        assert x.to - Anchor(start, ledger) == x.from.value - Anchor(start, ledger) + x.days * DAY;
      }
      GridGrows(start, ledger, e);
    }
  }

  /** A row recorded in time has no lapse. */
  lemma RecordedOnTime(a: Account, ref: Ref, amount: int, allow: bool, now: Instant, terms: Terms)
    requires AllOnTime(a.ledger) && InTime(a, now)
    ensures AllOnTime(RecordPayment(a, ref, amount, allow, now, terms).0.ledger)
  {
  }

  lemma CreditStaysTidy(start: Option<Instant>, a: Account, ref: Ref, amount: int, allow: bool, now: Instant, terms: Terms)
    requires Tidy(start, a) && (Has(a.ledger, ref) || InTime(a, now))
    requires !ref.RefundRef? && !Has(a.ledger, RefundRef(ref.id))
    requires ref.AcceptedRef? ==> allow && ShortPayment(a.ledger, ref.id)
    ensures Tidy(start, RecordPayment(a, ref, amount, allow, now, terms).0)
  {
    CreditKeeps(start, a, ref, amount, allow, now, terms);
    if RecordPayment(a, ref, amount, allow, now, terms).1.Recorded? {
      var e := RecordedRow(a, ref, amount, allow, now, terms);
      RecordedOnTime(a, ref, amount, allow, now, terms);
      LastRow(a.ledger, e);
      GridCredit(start, a.ledger, e);
    }
  }

  lemma LastRow(ledger: seq<Entry>, e: Entry)
    requires AllOnTime(ledger + [e]) && AllWellFormed(ledger + [e])
    ensures WellFormed(e) && (e.Credit? && e.extension.Some? ==> Lapse(e.extension.value) == 0)
  {
    assert (ledger + [e])[|ledger|] == e;
  }

  /** On the grid the guard holds: the date is either the one the payment set or a day away from it. */
  lemma TidyTakesBack(start: Option<Instant>, a: Account, id: string)
    requires Tidy(start, a) && ExtensionOf(a.ledger, id).Some?
    requires a.subscription.Some? && a.subscription.value.renewsAt.Some?
    ensures var date, x := a.subscription.value.renewsAt.value, ExtensionOf(a.ledger, id).value;
      TakesBackThePush(date, x) && WholeDays(RolledBack(date, x) - Anchor(start, a.ledger))
  {
    ExtensionIsThere(a, id);
    var x := ExtensionOf(a.ledger, id).value;
    var i :| 0 <= i < |a.ledger| && a.ledger[i].Credit? && a.ledger[i].extension == Some(x);
    var anchor := Anchor(start, a.ledger);
    var date := a.subscription.value.renewsAt.value;
    if x.from.Some? && Near(date, x.to) { WholeDaysNear(date - anchor, x.to - anchor); }
    WholeDaysAdd(date - anchor, x.days);
  }

  lemma ReversalStaysTidy(start: Option<Instant>, a: Account, id: string)
    requires Tidy(start, a)
    requires id in a.charges ==> a.charges[id].status == Refunded || a.charges[id].status == Paid
    ensures Tidy(start, ReversePayment(a, id).0)
  {
    ReversalKeeps(start, a, id);
    if ReversePayment(a, id).1.Reversed? {
      var e := ReversedRow(a, id);
      AppendReversal(start, a.ledger, e);
      GridGrows(start, a.ledger, e);
      if a.subscription.value.renewsAt.Some? && ExtensionOf(a.ledger, id).Some? { TidyTakesBack(start, a, id); }
    }
  }

  lemma LabelStaysTidy(start: Option<Instant>, a: Account, b: Account)
    requires Tidy(start, a)
    requires b.subscription == a.subscription && b.ledger == a.ledger && RefundsAreLabelled(b)
    ensures Tidy(start, b)
  {
  }

  /** A delivered payment either changes nothing or leaves the date and the ledger as recording it does. */
  lemma PaymentRecordsOrNot(a: Account, id: string, amount: int, now: Instant, terms: Terms, steps: nat)
    ensures var b, r := OnPayment(a, id, amount, now, terms, steps), RecordPayment(a, PaymentRef(id), amount, false, now, terms).0;
      b == a || (!Has(a.ledger, RefundRef(id)) && b.subscription == r.subscription && b.ledger == r.ledger)
  {
  }

  lemma PaymentStaysTidy(start: Option<Instant>, a: Account, id: string, amount: int, now: Instant, terms: Terms, steps: nat)
    requires Tidy(start, a) && (Has(a.ledger, PaymentRef(id)) || InTime(a, now))
    ensures Tidy(start, OnPayment(a, id, amount, now, terms, steps))
  {
    PaymentKeeps(start, a, id, amount, now, terms, steps);
    PaymentRecordsOrNot(a, id, amount, now, terms, steps);
    if OnPayment(a, id, amount, now, terms, steps) != a {
      CreditStaysTidy(start, a, PaymentRef(id), amount, false, now, terms);
      LabelStaysTidy(start, RecordPayment(a, PaymentRef(id), amount, false, now, terms).0,
                     OnPayment(a, id, amount, now, terms, steps));
    }
  }

  lemma RefundStaysTidy(start: Option<Instant>, a: Account, id: string, partial: bool, steps: nat)
    requires Tidy(start, a)
    ensures Tidy(start, OnRefund(a, id, partial, steps))
  {
    var labelled := Relabel(a, id, Refunded);
    RefundKeeps(start, a, id, false, 1);
    LabelStaysTidy(start, a, labelled);
    ReversalStaysTidy(start, labelled, id);
  }

  lemma AcceptStaysTidy(start: Option<Instant>, a: Account, id: string, now: Instant, terms: Terms, steps: nat)
    requires Tidy(start, a) && (Has(a.ledger, AcceptedRef(id)) || InTime(a, now))
    ensures Tidy(start, OnAccept(a, id, now, terms, steps))
  {
    AcceptKeeps(start, a, id, now, terms, steps);
    if OnAccept(a, id, now, terms, steps) != a {
      if ShortPayment(a.ledger, id) {
        CreditStaysTidy(start, a, AcceptedRef(id), 0, true, now, terms);
        LabelStaysTidy(start, RecordPayment(a, AcceptedRef(id), 0, true, now, terms).0, OnAccept(a, id, now, terms, steps));
      } else {
        LabelStaysTidy(start, a, OnAccept(a, id, now, terms, steps));
      }
    }
  }

  lemma ConsoleRefundStaysTidy(start: Option<Instant>, a: Account, id: string, steps: nat)
    requires Tidy(start, a)
    ensures Tidy(start, OnConsoleRefund(a, id, steps))
  {
    ConsoleRefundKeeps(start, a, id, steps);
    if id in a.charges && a.charges[id].status == Paid && steps != 0 {
      ReversalStaysTidy(start, a, id);
      LabelStaysTidy(start, ReversePayment(a, id).0, OnConsoleRefund(a, id, steps));
    }
  }

  lemma ApplyStaysTidy(start: Option<Instant>, a: Account, ev: Event)
    requires Tidy(start, a) && OnTime(a, ev)
    ensures Tidy(start, Apply(a, ev))
  {
    match ev
    case PaymentIn(id, amount, now, terms, steps) => PaymentStaysTidy(start, a, id, amount, now, terms, steps);
    case RefundedIn(id, partial, steps) => RefundStaysTidy(start, a, id, partial, steps);
    case ConsoleAccept(id, now, terms, steps) => AcceptStaysTidy(start, a, id, now, terms, steps);
    case ConsoleRefund(id, steps) => ConsoleRefundStaysTidy(start, a, id, steps);
    case _ =>
      ApplyKeeps(start, a, ev);
      LabelStaysTidy(start, a, Apply(a, ev));
  }

  lemma {:induction false} TidyRunsTakeBack(start: Option<Instant>, a: Account, events: seq<Event>)
    requires Tidy(start, a) && PaidOnTime(a, events)
    ensures EveryRefundTakesBack(a, events)
    decreases |events|
  {
    if events != [] {
      if Reverses(a, events[0]) && a.subscription.value.renewsAt.Some? && ExtensionOf(a.ledger, events[0].id).Some? {
        TidyTakesBack(start, a, events[0].id);
      }
      ApplyStaysTidy(start, a, events[0]);
      TidyRunsTakeBack(start, Apply(a, events[0]), events[1..]);
    }
  }

  /**
   * When every first delivery and acceptance of a run comes no later than the
   * deadline it finds, every refund takes back its push: two deadlines of such a
   * run lie whole days apart, so none is mistaken for another.
   */
  lemma OnTimeRunsTakeBack(a: Account, events: seq<Event>)
    requires Fresh(a) && PaidOnTime(a, events)
    ensures EveryRefundTakesBack(a, events)
  {
    assert WholeDays(0) by { assert 0 == 0 * DAY; }
    TidyRunsTakeBack(Start(a), a, events);
  }

  const EXAMPLE_TERMS := Terms(30, None, true, false, false, true)
  const EXAMPLE_START := Account(Some(Subscription(Live, Some(0))), map[], [], [])
  const LATE := Credit(PaymentRef("a"), 100, false, Some(Extension(Some(0), 40 * DAY, 30)))
  const NEXT := Credit(PaymentRef("b"), 100, false, Some(Extension(Some(40 * DAY), 70 * DAY, 30)))
  const UNDONE := Reversal(RefundRef("a"), Some(70 * DAY), Some(40 * DAY))

  /** A payment ten days late, a second one on top of it, and the refund of the first. */
  const LATE_RUN := [PaymentIn("a", 100, 10 * DAY, EXAMPLE_TERMS, WHOLE),
                     PaymentIn("b", 100, 11 * DAY, EXAMPLE_TERMS, WHOLE),
                     RefundedIn("a", false, WHOLE)]

  lemma LateRunEnds()
    ensures Run(EXAMPLE_START, LATE_RUN)
            == Account(Some(Subscription(Live, Some(40 * DAY))), map[], [LATE, NEXT, UNDONE], [])
  {
    assert "a"[0] != "b"[0];
    assert Front([LATE]) == [] && Front([LATE, NEXT]) == [LATE];
    var a1 := Account(Some(Subscription(Live, Some(40 * DAY))), map[], [LATE], []);
    assert Apply(EXAMPLE_START, LATE_RUN[0]) == a1;
    var a2 := Account(Some(Subscription(Live, Some(70 * DAY))), map[], [LATE, NEXT], []);
    assert Find([LATE], PaymentRef("b")) == None && Find([LATE], RefundRef("b")) == None;
    assert Apply(a1, LATE_RUN[1]) == a2 by {
      assert [LATE] + [NEXT] == [LATE, NEXT];
    }
    assert Find([LATE], PaymentRef("a")) == Some(LATE) && Find([LATE], RefundRef("a")) == None;
    assert Find([LATE, NEXT], PaymentRef("a")) == Some(LATE) && Find([LATE, NEXT], RefundRef("a")) == None;
    assert [LATE, NEXT] + [UNDONE] == [LATE, NEXT, UNDONE];
    RunThree(EXAMPLE_START, LATE_RUN[0], LATE_RUN[1], LATE_RUN[2]);
  }

  /**
   * The law without residue fails on that run: the ten days that had lapsed
   * before the late payment stay after its refund.
   */
  lemma LatePaymentLeavesResidue()
    ensures var b := Run(EXAMPLE_START, LATE_RUN);
      && b.subscription == Some(Subscription(Live, Some(40 * DAY)))
      && Anchor(Start(EXAMPLE_START), b.ledger) + LivePushes(b.ledger, RefundedIds(b.ledger)) == 30 * DAY
      && Residue(b.ledger) == 10 * DAY
  {
    LateRunEnds();
    assert "a"[0] != "b"[0];
    var l1, l2, l3 := [LATE], [LATE, NEXT], [LATE, NEXT, UNDONE];
    assert Front(l1) == [] && Front(l2) == l1 && Front(l3) == l2;
    assert RefundedIds(l1) == {} && RefundedIds(l2) == {};
    assert RefundedIds(l3) == {"a"};
    assert LivePushes(l1, {"a"}) == 0;
    assert LivePushes(l2, {"a"}) == 30 * DAY;
    assert Find(l1, PaymentRef("a")) == Some(LATE) && Find(l2, PaymentRef("a")) == Some(LATE);
    assert ExtensionOf(l2, "a") == LATE.extension && ResidueOf(l2, UNDONE) == 10 * DAY;
    assert Residue(l1) == 0;
    assert Residue(l2) == 0;
  }

  lemma RunThree(a: Account, x: Event, y: Event, z: Event)
    ensures Run(a, [x, y, z]) == Apply(Apply(Apply(a, x), y), z)
  {
    assert [x, y, z][1..] == [y, z] && [y, z][1..] == [z] && [z][1..] == [];
    assert Run(Apply(Apply(a, x), y), [z]) == Apply(Apply(Apply(a, x), y), z);
  }
}
