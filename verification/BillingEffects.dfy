/**
 * What each thing said to an account does to it, from the facts of the
 * delivery: the row, the date and the standing a payment leaves, the label, the
 * invoice queue, and which runs end a suspension.
 */
module BillingEffects {
  import opened Prelude
  import opened BillingAccount
  import opened BillingLaws
  import opened BillingSettlement

  // ----- A recorded payment -----

  /** A charge says what this reference is to bring. */
  predicate IsAsked(a: Account, ref: Ref) {
    ref.id in a.charges && a.charges[ref.id].amountCents > 0 && (ref.PaymentRef? || a.charges[ref.id].side)
  }

  /** The charge is for something other than a period. */
  predicate BuysNoPeriod(a: Account, ref: Ref, terms: Terms) {
    IsAsked(a, ref) && terms.currencyMatches && a.charges[ref.id].side
  }

  /** Less than the charge asks in its own currency, or than the plan's price where no charge says; an early discount explains any. */
  predicate ComesShort(a: Account, ref: Ref, amount: int, terms: Terms) {
    && !terms.early
    && if IsAsked(a, ref) then terms.currencyMatches && amount < a.charges[ref.id].amountCents
       else terms.planPrice.Some? && 0 < terms.planPrice.value && amount < terms.planPrice.value
  }

  /** A subscription a payment can renew: not one that ended, nor one suspended by hand. */
  predicate Renewable(standing: Standing) {
    standing != Ended && standing != Suspended(false)
  }

  /** The end of the period bought: so many days from the deadline, or from now when that has passed. */
  predicate PeriodEnd(renewsAt: Option<Instant>, now: Instant, days: Days, end: Instant) {
    if renewsAt.None? || renewsAt.value < now then end - now == days * 86_400_000 else end - renewsAt.value == days * 86_400_000
  }

  /** A payment that is not recorded changes nothing, and the result says why. */
  lemma NotRecorded(a: Account, ref: Ref, amount: int, allow: bool, now: Instant, terms: Terms)
    ensures var (b, result) := RecordPayment(a, ref, amount, allow, now, terms);
      && (!result.Recorded? ==> b == a)
      && (result == NoSubscription <==> a.subscription.None?)
      && (result == BadAmount <==> a.subscription.Some? && amount < 0)
      && (result == Duplicate <==> a.subscription.Some? && amount >= 0 && Has(a.ledger, ref))
  {
  }

  /**
   * A payment that is recorded adds one row, with its amount and whether it came
   * short. It moves the date by one period exactly when it is not short, buys a
   * period and the subscription can be renewed. The subscription is live after it
   * if it was, if it was renewed from a trial or past its date, or if it was
   * suspended for not paying and nothing is owed any more; else it stands as it did.
   */
  lemma RecordMeaning(a: Account, ref: Ref, amount: int, allow: bool, now: Instant, terms: Terms)
    requires a.subscription.Some? && amount >= 0 && !Has(a.ledger, ref)
    ensures var (b, result) := RecordPayment(a, ref, amount, allow, now, terms);
      var short := ComesShort(a, ref, amount, terms) && !allow;
      var before := a.subscription.value;
      var renews := !short && !BuysNoPeriod(a, ref, terms) && Renewable(before.standing);
      && result == Recorded(short)
      && b.charges == a.charges && b.invoices == a.invoices && b.subscription.Some?
      && |b.ledger| == |a.ledger| + 1 && a.ledger <= b.ledger
      && var row, after := b.ledger[|a.ledger|], b.subscription.value;
         && row.Credit? && row.ref == ref && row.amountCents == amount && row.underpaid == short
         && (row.extension.Some? <==> renews)
         && (renews ==>
               var x := row.extension.value;
               && x.from == before.renewsAt && x.days == terms.days && after.renewsAt == Some(x.to)
               && PeriodEnd(before.renewsAt, now, terms.days, x.to))
         && (!renews ==> after.renewsAt == before.renewsAt)
         && (after.standing == Live <==>
               || before.standing == Live
               || (renews && before.standing != Suspended(true))
               || (before.standing == Suspended(true) && !short && !terms.stillOwes))
         && (after.standing != Live ==> after.standing == before.standing)
  {
  }

  /**
   * The date after a refund that is recorded: the one before its payment when the
   * date is within a second of the deadline that payment set, and otherwise so
   * many days earlier as it bought; the same where it had moved nothing.
   */
  lemma RefundDate(a: Account, id: string)
    requires a.subscription.Some? && Has(a.ledger, PaymentRef(id)) && !Has(a.ledger, RefundRef(id))
    ensures var (b, result) := ReversePayment(a, id);
      var x, date := ExtensionOf(a.ledger, id), a.subscription.value.renewsAt;
      && result == Reversed && b.subscription.Some? && b.subscription.value.standing == a.subscription.value.standing
      && (x.None? || date.None? ==> b.subscription.value.renewsAt == date)
      && (x.Some? && date.Some? ==>
            b.subscription.value.renewsAt ==
              if x.value.from.Some? && date.value - x.value.to < 1000 && x.value.to - date.value < 1000
              then x.value.from else Some(date.value - x.value.days * 86_400_000))
  {
  }

  // ----- Which runs end a suspension -----

  /** The payment a delivery brings is new, and it gets as far as its row. */
  predicate BringsPayment(a: Account, ev: Event) {
    && ev.PaymentIn? && ev.steps >= 1 && ev.amountCents >= 0 && a.subscription.Some?
    && !Has(a.ledger, PaymentRef(ev.id)) && !Has(a.ledger, RefundRef(ev.id))
  }

  /** The console accepts a short payment that was not accepted before, and it gets as far as its row. */
  predicate AcceptsShort(a: Account, ev: Event) {
    && ev.ConsoleAccept? && ev.steps >= 1 && a.subscription.Some?
    && ev.id in a.charges && a.charges[ev.id].status in {Pending, FailedToIssue, Overdue}
    && ShortPayment(a.ledger, ev.id) && !Has(a.ledger, AcceptedRef(ev.id))
  }

  /** The event settles something in full. */
  predicate SettlesInFull(a: Account, ev: Event) {
    (BringsPayment(a, ev) && !ComesShort(a, PaymentRef(ev.id), ev.amountCents, ev.terms)) || AcceptsShort(a, ev)
  }

  /** And what it settles buys a period. */
  predicate BuysPeriod(a: Account, ev: Event) {
    && SettlesInFull(a, ev)
    && !BuysNoPeriod(a, if ev.PaymentIn? then PaymentRef(ev.id) else AcceptedRef(ev.id), ev.terms)
  }

  /** The event makes the subscription live: it buys a period, or pays the last debt of an automatic suspension. */
  predicate MakesLive(a: Account, ev: Event) {
    a.subscription.Some? &&
    match a.subscription.value.standing
    case OnTrial => BuysPeriod(a, ev)
    case PastDue => BuysPeriod(a, ev)
    case Suspended(byNonPayment) => byNonPayment && SettlesInFull(a, ev) && !ev.terms.stillOwes
    case _ => false
  }

  lemma RecordStanding(a: Account, ref: Ref, amount: int, allow: bool, now: Instant, terms: Terms)
    requires a.subscription.Some?
    ensures var b := RecordPayment(a, ref, amount, allow, now, terms).0;
      var short := ComesShort(a, ref, amount, terms) && !allow;
      var standing := a.subscription.value.standing;
      var recorded := amount >= 0 && !Has(a.ledger, ref);
      b.subscription.Some? && b.subscription.value.standing ==
        if recorded && !short && ((standing == Suspended(true) && !terms.stillOwes)
                                  || ((standing == OnTrial || standing == PastDue) && !BuysNoPeriod(a, ref, terms)))
        then Live else standing
  {
    if amount >= 0 && !Has(a.ledger, ref) { RecordMeaning(a, ref, amount, allow, now, terms); }
    else { NotRecorded(a, ref, amount, allow, now, terms); }
  }

  lemma PaymentStanding(a: Account, id: string, amount: int, now: Instant, terms: Terms, steps: nat)
    requires a.subscription.Some?
    ensures var b, ev := OnPayment(a, id, amount, now, terms, steps), PaymentIn(id, amount, now, terms, steps);
      b.subscription.Some? && b.subscription.value.standing == if MakesLive(a, ev) then Live else a.subscription.value.standing
  {
    RecordStanding(a, PaymentRef(id), amount, false, now, terms);
  }

  lemma AcceptStanding(a: Account, id: string, now: Instant, terms: Terms, steps: nat)
    requires a.subscription.Some?
    ensures var b, ev := OnAccept(a, id, now, terms, steps), ConsoleAccept(id, now, terms, steps);
      b.subscription.Some? && b.subscription.value.standing == if MakesLive(a, ev) then Live else a.subscription.value.standing
  {
    RecordStanding(a, AcceptedRef(id), 0, true, now, terms);
  }

  lemma ReversalStanding(a: Account, id: string)
    requires a.subscription.Some?
    ensures var b := ReversePayment(a, id).0; b.subscription.Some? && b.subscription.value.standing == a.subscription.value.standing
  {
  }

  /** One event makes a subscription live exactly when it settles what that takes, and changes the standing in no other way. */
  lemma EventStanding(a: Account, ev: Event)
    requires a.subscription.Some?
    ensures var b := Apply(a, ev);
      b.subscription.Some? && b.subscription.value.standing == if MakesLive(a, ev) then Live else a.subscription.value.standing
  {
    match ev
    case PaymentIn(id, amount, now, terms, steps) => PaymentStanding(a, id, amount, now, terms, steps);
    case ConsoleAccept(id, now, terms, steps) => AcceptStanding(a, id, now, terms, steps);
    case RefundedIn(id, partial, steps) => ReversalStanding(Relabel(a, id, Refunded), id);
    case ConsoleRefund(id, steps) => ReversalStanding(a, id);
    case _ =>
  }

  predicate NoneMakesLive(a: Account, events: seq<Event>)
    decreases |events|
  {
    events != [] ==> !MakesLive(a, events[0]) && NoneMakesLive(Apply(a, events[0]), events[1..])
  }

  /**
   * After any run a subscription stands as it did or is live. One that was
   * suspended for not paying is live exactly if some event of the run settled its
   * last debt; one on trial or past its date, if some event bought a period; one
   * suspended by hand or ended is never brought back.
   */
  lemma {:induction false} RunStanding(a: Account, events: seq<Event>)
    requires a.subscription.Some?
    ensures Run(a, events).subscription.Some?
    ensures var before, after := a.subscription.value.standing, Run(a, events).subscription.value.standing;
      && after == (if NoneMakesLive(a, events) then before else Live)
      && (before == Ended || before == Suspended(false) || before == Live ==> after == before)
    decreases |events|
  {
    if events != [] {
      EventStanding(a, events[0]);
      RunStanding(Apply(a, events[0]), events[1..]);
    }
  }

  // ----- Labels, invoices and new charges -----

  function Labelled(a: Account, id: string, status: ChargeStatus): map<string, Charge>
    requires id in a.charges
  {
    a.charges[id := Charge(status, a.charges[id].amountCents, a.charges[id].side)]
  }

  /** An overdue notice labels a charge that was pending or failed to issue; a cancel notice, one that was overdue too. Nothing else changes. */
  lemma NoticeMeaning(a: Account, id: string)
    ensures var b := Apply(a, MarkedOverdue(id));
      b == if id in a.charges && a.charges[id].status in {Pending, FailedToIssue}
           then a.(charges := Labelled(a, id, Overdue)) else a
    ensures var b := Apply(a, MarkedCanceled(id));
      b == if id in a.charges && a.charges[id].status in {Pending, FailedToIssue, Overdue}
           then a.(charges := Labelled(a, id, Canceled)) else a
  {
  }

  /** A refund told by the gateway: nothing for a partial one; otherwise the label, and then the row and the date. */
  lemma RefundMeaning(a: Account, id: string, partial: bool, steps: nat)
    ensures var b := Apply(a, RefundedIn(id, partial, steps));
      && (partial || steps == 0 ==> b == a)
      && (!partial && steps >= 1 ==>
            && b.invoices == a.invoices
            && b.charges == (if id in a.charges then Labelled(a, id, Refunded) else a.charges)
            && (if steps >= 2 && a.subscription.Some? && Has(a.ledger, PaymentRef(id)) && !Has(a.ledger, RefundRef(id))
                then |b.ledger| == |a.ledger| + 1 && a.ledger <= b.ledger
                     && var row := b.ledger[|a.ledger|];
                        row.Reversal? && row.ref == RefundRef(id) && b.subscription.Some?
                        && row.before == a.subscription.value.renewsAt && row.after == b.subscription.value.renewsAt
                else b.ledger == a.ledger && b.subscription == a.subscription))
  {
  }

  /** The console's refund of a paid charge: the row and the date first, then the label. */
  lemma ConsoleRefundMeaning(a: Account, id: string, steps: nat)
    ensures var b := Apply(a, ConsoleRefund(id, steps));
      var reaches := id in a.charges && a.charges[id].status == Paid && steps >= 1;
      && (!reaches ==> b == a)
      && (reaches ==>
            && b.invoices == a.invoices
            && b.charges == (if steps >= 2 then Labelled(a, id, Refunded) else a.charges)
            && (b.ledger != a.ledger <==>
                  a.subscription.Some? && Has(a.ledger, PaymentRef(id)) && !Has(a.ledger, RefundRef(id)))
            && (b.ledger == a.ledger ==> b.subscription == a.subscription))
  {
    var r := ReversePayment(a, id);
    assert r.1.Reversed? ==> |r.0.ledger| == |a.ledger| + 1;
  }

  /** The charge ends paid, and its invoice is queued, as far as the event's writes go. */
  predicate ClosesPaid(a: Account, b: Account, id: string, steps: nat, invoicing: bool) {
    && b.charges == (if id in a.charges && steps >= 2 then Labelled(a, id, Paid) else a.charges)
    && b.invoices == (if id in a.charges && steps >= 3 && invoicing && id !in a.invoices then a.invoices + [id] else a.invoices)
  }

  /**
   * The label and the queue after a delivered payment: a new one in full closes
   * its charge; one delivered again queues the invoice of a charge that is paid
   * already; anything else touches neither.
   */
  lemma PaymentClosing(a: Account, id: string, amount: int, now: Instant, terms: Terms, steps: nat)
    ensures var b := Apply(a, PaymentIn(id, amount, now, terms, steps));
      var taken := a.subscription.Some? && amount >= 0 && !Has(a.ledger, RefundRef(id)) && steps >= 1;
      if taken && !Has(a.ledger, PaymentRef(id)) && !ComesShort(a, PaymentRef(id), amount, terms)
      then ClosesPaid(a, b, id, steps, terms.invoicing)
      else
        && b.charges == a.charges
        && b.invoices == (if taken && Has(a.ledger, PaymentRef(id)) && steps >= 3 && id in a.charges
                             && a.charges[id].status == Paid && terms.invoicing && id !in a.invoices
                          then a.invoices + [id] else a.invoices)
  {
    NotRecorded(a, PaymentRef(id), amount, false, now, terms);
    if a.subscription.Some? && amount >= 0 && !Has(a.ledger, PaymentRef(id)) {
      RecordMeaning(a, PaymentRef(id), amount, false, now, terms);
    }
  }

  /** The rows and the subscription after a delivered payment are those recording it leaves, or as they were. */
  lemma PaymentRecording(a: Account, id: string, amount: int, now: Instant, terms: Terms, steps: nat)
    ensures var b := Apply(a, PaymentIn(id, amount, now, terms, steps));
      var recorded := RecordPayment(a, PaymentRef(id), amount, false, now, terms).0;
      if steps >= 1 && !Has(a.ledger, RefundRef(id)) then b.ledger == recorded.ledger && b.subscription == recorded.subscription
      else b == a
  {
  }

  /** The console settling an open charge the ledger has a payment of: a short one is accepted first, and the charge is closed. */
  lemma AcceptMeaning(a: Account, id: string, now: Instant, terms: Terms, steps: nat)
    requires Good(a)
    ensures var b := Apply(a, ConsoleAccept(id, now, terms, steps));
      var reaches := id in a.charges && a.charges[id].status in {Pending, FailedToIssue, Overdue} && Has(a.ledger, PaymentRef(id)) && steps >= 1;
      && (!reaches ==> b == a)
      && (reaches ==>
            && ClosesPaid(a, b, id, steps, terms.invoicing)
            && (if AcceptsShort(a, ConsoleAccept(id, now, terms, steps))
                then b.ledger == RecordPayment(a, AcceptedRef(id), 0, true, now, terms).0.ledger
                     && b.subscription == RecordPayment(a, AcceptedRef(id), 0, true, now, terms).0.subscription
                else b.ledger == a.ledger && b.subscription == a.subscription))
  {
    NotRecorded(a, AcceptedRef(id), 0, true, now, terms);
  }

  /** A charge is opened, pending, under an id nothing is known of. */
  lemma IssueMeaning(a: Account, id: string, amount: int, side: bool)
    ensures Apply(a, Issue(id, amount, side)) ==
      if id in a.charges || Has(a.ledger, PaymentRef(id)) || Has(a.ledger, RefundRef(id)) || Has(a.ledger, AcceptedRef(id)) then a
      else Account(a.subscription, a.charges[id := Charge(Pending, amount, side)], a.ledger, a.invoices)
  {
  }

  /** A row is found under a reference exactly when the ledger holds one, and it is the last of them. */
  lemma {:induction false} FindMeaning(ledger: seq<Entry>, ref: Ref)
    ensures Has(ledger, ref) <==> exists i | 0 <= i < |ledger| :: ledger[i].ref == ref
    ensures Has(ledger, ref) ==> exists i | 0 <= i < |ledger| :: Find(ledger, ref).value == ledger[i] && ledger[i].ref == ref
                                   && forall j | i < j < |ledger| :: ledger[j].ref != ref
    decreases |ledger|
  {
    if ledger != [] {
      var n := |ledger| - 1;
      FindMeaning(ledger[..n], ref);
      assert forall i | 0 <= i < n :: ledger[..n][i] == ledger[i];
      if ledger[n].ref == ref {
        assert Find(ledger, ref).value == ledger[n];
      } else if Has(ledger[..n], ref) {
        var i :| 0 <= i < n && Find(ledger[..n], ref).value == ledger[..n][i] && ledger[..n][i].ref == ref
          && forall j | i < j < n :: ledger[..n][j].ref != ref;
        assert Find(ledger, ref).value == ledger[i] && forall j | i < j < |ledger| :: ledger[j].ref != ref;
      }
    }
  }
}
