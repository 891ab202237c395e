/** When a charge counts as paid, what a recorded refund closes, and what is invoiced. */
module BillingSettlement {
  import opened Prelude
  import opened BillingAccount
  import opened BillingLaws

  // ----- A recorded refund closes its reference -----

  /** The payment is in the ledger, so is its refund, and its charge, if there is one, is labelled so. */
  predicate Closed(a: Account, id: string) {
    && Has(a.ledger, PaymentRef(id)) && Has(a.ledger, RefundRef(id))
    && (id in a.charges ==> a.charges[id].status == Refunded)
  }

  /** Rows of the ledger that moved the date under a reference: unchanged by a row under another one. */
  lemma PushesAppend(ledger: seq<Entry>, e: Entry, id: string)
    ensures PushesOf(ledger + [e], id) == PushesOf(ledger, id) + (if e.ref.id == id then PushOfEntry(e) else 0)
  {
    assert Front(ledger + [e]) == ledger && Last(ledger + [e]) == e;
  }

  /** Two accounts hold the same rows, label and invoice under a reference. */
  predicate SameFor(a: Account, b: Account, id: string) {
    && PushesOf(b.ledger, id) == PushesOf(a.ledger, id)
    && Find(b.ledger, PaymentRef(id)) == Find(a.ledger, PaymentRef(id))
    && Find(b.ledger, RefundRef(id)) == Find(a.ledger, RefundRef(id))
    && Find(b.ledger, AcceptedRef(id)) == Find(a.ledger, AcceptedRef(id))
    && (id in b.charges <==> id in a.charges) && (id in a.charges ==> b.charges[id] == a.charges[id])
    && (id in b.invoices <==> id in a.invoices)
  }

  lemma RecordElsewhere(a: Account, ref: Ref, amount: int, allow: bool, now: Instant, terms: Terms, id: string)
    requires ref.id != id
    ensures SameFor(a, RecordPayment(a, ref, amount, allow, now, terms).0, id)
  {
    var (b, result) := RecordPayment(a, ref, amount, allow, now, terms);
    if result.Recorded? {
      var e := RecordedRow(a, ref, amount, allow, now, terms);
      PushesAppend(a.ledger, e, id);
      FindsAfter(a.ledger, e);
    }
  }

  lemma ReverseElsewhere(a: Account, other: string, id: string)
    requires other != id
    ensures SameFor(a, ReversePayment(a, other).0, id)
  {
    if ReversePayment(a, other).1.Reversed? {
      var e := ReversedRow(a, other);
      PushesAppend(a.ledger, e, id);
      FindsAfter(a.ledger, e);
    }
  }

  lemma LabelElsewhere(a: Account, other: string, status: ChargeStatus, terms: Terms, id: string)
    requires other != id
    ensures SameFor(a, Relabel(a, other, status), id) && SameFor(a, Settle(a, other), id)
    ensures SameFor(a, QueueInvoice(a, other, terms), id)
    ensures other in a.charges ==> SameFor(a, SetLabel(a, other, status), id)
  {
  }

  lemma SameForTwice(a: Account, b: Account, c: Account, id: string)
    requires SameFor(a, b, id) && SameFor(b, c, id)
    ensures SameFor(a, c, id)
  {
  }

  /** The label and the invoice of another reference, after its row: the last two writes of an event. */
  lemma ClosingElsewhere(a: Account, recorded: Account, other: string, settle: bool, queue: bool, terms: Terms, id: string)
    requires other != id && SameFor(a, recorded, id)
    ensures var labelled := if settle then Settle(recorded, other) else recorded;
      SameFor(a, labelled, id) && SameFor(a, if queue then QueueInvoice(labelled, other, terms) else labelled, id)
  {
    var labelled := if settle then Settle(recorded, other) else recorded;
    LabelElsewhere(recorded, other, Paid, terms, id);
    SameForTwice(a, recorded, labelled, id);
    LabelElsewhere(labelled, other, Paid, terms, id);
    SameForTwice(a, labelled, QueueInvoice(labelled, other, terms), id);
  }

  lemma PaymentElsewhere(a: Account, other: string, amount: int, now: Instant, terms: Terms, steps: nat, id: string)
    requires other != id
    ensures SameFor(a, OnPayment(a, other, amount, now, terms, steps), id)
  {
    var (recorded, result) := RecordPayment(a, PaymentRef(other), amount, false, now, terms);
    RecordElsewhere(a, PaymentRef(other), amount, false, now, terms, id);
    ClosingElsewhere(a, recorded, other, steps >= 2 && result == Recorded(false), steps >= 3 && result != Recorded(true), terms, id);
  }

  lemma AcceptElsewhere(a: Account, other: string, now: Instant, terms: Terms, steps: nat, id: string)
    requires other != id
    ensures SameFor(a, OnAccept(a, other, now, terms, steps), id)
  {
    var recorded := RecordPayment(a, AcceptedRef(other), 0, true, now, terms).0;
    RecordElsewhere(a, AcceptedRef(other), 0, true, now, terms, id);
    ClosingElsewhere(a, recorded, other, steps >= 2, steps >= 3, terms, id);
    ClosingElsewhere(a, a, other, steps >= 2, steps >= 3, terms, id);
  }

  /** An event about one reference says nothing about another's rows, label and invoice. */
  lemma OtherReference(a: Account, ev: Event, id: string)
    requires ev.id != id
    ensures SameFor(a, Apply(a, ev), id)
  {
    match ev
    case PaymentIn(other, amount, now, terms, steps) => PaymentElsewhere(a, other, amount, now, terms, steps, id);
    case ConsoleAccept(other, now, terms, steps) => AcceptElsewhere(a, other, now, terms, steps, id);
    case RefundedIn(other, partial, steps) => ReverseElsewhere(Relabel(a, other, Refunded), other, id);
    case ConsoleRefund(other, steps) => ReverseElsewhere(a, other, id);
    case _ =>
  }

  /** Once closed, an event about the reference changes neither the subscription nor the ledger nor the label. */
  lemma ClosedIgnores(a: Account, ev: Event)
    requires Closed(a, ev.id)
    ensures var b := Apply(a, ev); b.subscription == a.subscription && b.ledger == a.ledger && b.charges == a.charges
  {
  }

  /**
   * Refund closure. Whatever comes later, in whatever order, a closed reference
   * stays closed and never pushes the date again; and a run of events about it
   * alone leaves the date, the ledger and the labels as they are.
   */
  lemma {:induction false} RefundCloses(a: Account, events: seq<Event>, id: string)
    requires Closed(a, id)
    ensures Closed(Run(a, events), id) && PushesOf(Run(a, events).ledger, id) == PushesOf(a.ledger, id)
    ensures (forall i | 0 <= i < |events| :: events[i].id == id) ==>
      var b := Run(a, events); b.subscription == a.subscription && b.ledger == a.ledger && b.charges == a.charges
    decreases |events|
  {
    if events != [] {
      if events[0].id == id {
        ClosedIgnores(a, events[0]);
      } else {
        OtherReference(a, events[0], id);
      }
      RefundCloses(Apply(a, events[0]), events[1..], id);
    }
  }

  /** The console's refund, and the gateway's notice of it afterwards, undo one period between them. */
  lemma RefundedTwiceUndoneOnce(a: Account, id: string)
    requires id in a.charges && a.charges[id].status == Paid && Has(a.ledger, PaymentRef(id)) && a.subscription.Some?
    ensures var once := OnConsoleRefund(a, id, WHOLE);
      Closed(once, id) && OnRefund(once, id, false, WHOLE) == once
  {
    if ReversePayment(a, id).1.Reversed? {
      var e := ReversedRow(a, id);
      FindsAfter(a.ledger, e);
    }
  }

  /** A whole refund of a recorded payment, told by the gateway, closes the reference. */
  lemma RefundOfRecordedCloses(a: Account, id: string, steps: nat)
    requires Good(a) && a.subscription.Some? && Has(a.ledger, PaymentRef(id)) && steps >= 2
    ensures Closed(OnRefund(a, id, false, steps), id)
  {
    var labelled := Relabel(a, id, Refunded);
    if ReversePayment(labelled, id).1.Reversed? {
      var e := ReversedRow(labelled, id);
      FindsAfter(a.ledger, e);
    }
  }

  /** A refund told before its payment leaves no row, and the payment is recorded when it comes. */
  lemma EarlyRefundBlocksNothing(a: Account, id: string, amount: int, now: Instant, terms: Terms)
    requires Good(a) && !Has(a.ledger, PaymentRef(id)) && a.subscription.Some? && amount >= 0
    ensures var b := OnRefund(a, id, false, WHOLE);
      && b.subscription == a.subscription && b.ledger == a.ledger
      && Has(OnPayment(b, id, amount, now, terms, WHOLE).ledger, PaymentRef(id))
  {
    var b := OnRefund(a, id, false, WHOLE);
    RecordFinds(b, PaymentRef(id), amount, false, now, terms);
    var r := RecordPayment(b, PaymentRef(id), amount, false, now, terms);
    assert r.1.Recorded? && |r.0.ledger| == |b.ledger| + 1;
  }

  const ANY_TERMS := Terms(30, None, true, false, false, false)

  /** No run from here on writes a payment row under the reference. */
  ghost predicate NeverRecordsAgain(a: Account, id: string) {
    forall later: seq<Event> :: Find(Run(a, later).ledger, PaymentRef(id)) == Find(a.ledger, PaymentRef(id))
  }

  /**
   * After a whole refund no later run records a payment of the reference, in
   * any amount and on any terms, if and only if the payment was recorded before
   * the refund came.
   */
  lemma RefundBlocksIff(a: Account, id: string)
    requires Good(a) && a.subscription.Some?
    ensures NeverRecordsAgain(OnRefund(a, id, false, WHOLE), id) <==> Has(a.ledger, PaymentRef(id))
    ensures Has(a.ledger, PaymentRef(id)) ==> Closed(OnRefund(a, id, false, WHOLE), id)
  {
    var b := OnRefund(a, id, false, WHOLE);
    if Has(a.ledger, PaymentRef(id)) {
      RefundOfRecordedCloses(a, id, WHOLE);
      forall later: seq<Event> ensures Find(Run(b, later).ledger, PaymentRef(id)) == Find(b.ledger, PaymentRef(id)) {
        RecordedOnce(b, later, id);
      }
    } else {
      EarlyRefundBlocksNothing(a, id, 0, 0, ANY_TERMS);
      OneEvent(b, PaymentIn(id, 0, 0, ANY_TERMS, WHOLE));
      if NeverRecordsAgain(b, id) { NotEvenIn(b, [PaymentIn(id, 0, 0, ANY_TERMS, WHOLE)], id); }
    }
  }

  lemma OneEvent(a: Account, ev: Event)
    ensures Run(a, [ev]) == Apply(a, ev)
  {
    assert [ev][1..] == [];
  }

  lemma NotEvenIn(a: Account, later: seq<Event>, id: string)
    requires NeverRecordsAgain(a, id)
    ensures Find(Run(a, later).ledger, PaymentRef(id)) == Find(a.ledger, PaymentRef(id))
  {
  }

  /** A payment that is in the ledger keeps its row. */
  lemma {:induction false} RecordedOnce(a: Account, events: seq<Event>, id: string)
    requires Has(a.ledger, PaymentRef(id))
    ensures Find(Run(a, events).ledger, PaymentRef(id)) == Find(a.ledger, PaymentRef(id))
    decreases |events|
  {
    if events != [] {
      PaymentRowStays(a, events[0], id);
      RecordedOnce(Apply(a, events[0]), events[1..], id);
    }
  }

  lemma PaymentRowStays(a: Account, ev: Event, id: string)
    requires Has(a.ledger, PaymentRef(id))
    ensures Find(Apply(a, ev).ledger, PaymentRef(id)) == Find(a.ledger, PaymentRef(id))
  {
    if ev.id != id {
      OtherReference(a, ev, id);
    } else {
      match ev
      case PaymentIn(_, amount, now, terms, steps) => RecordFinds(a, PaymentRef(id), amount, false, now, terms);
      case RefundedIn(_, partial, steps) => ReverseFinds(Relabel(a, id, Refunded), id);
      case ConsoleAccept(_, now, terms, steps) => RecordFinds(a, AcceptedRef(id), 0, true, now, terms);
      case ConsoleRefund(_, steps) => ReverseFinds(a, id);
      case _ =>
    }
  }

  // ----- Paid charges and their invoices -----

  /** The ledger settles the charge: a payment that was not short, or the acceptance of one that was. */
  predicate Settled(ledger: seq<Entry>, id: string) {
    (Has(ledger, PaymentRef(id)) && !ShortPayment(ledger, id)) || Has(ledger, AcceptedRef(id))
  }

  ghost predicate PaidMeansSettled(a: Account) {
    forall id | id in a.charges && a.charges[id].status == Paid :: Settled(a.ledger, id)
  }

  ghost predicate InvoicedMeansSettled(a: Account) {
    && Distinct(a.invoices)
    && forall id | id in a.invoices :: id in a.charges && Settled(a.ledger, id)
  }

  ghost predicate Sound(start: Option<Instant>, a: Account) {
    Good(a) && Balanced(start, a) && PaidMeansSettled(a) && InvoicedMeansSettled(a)
  }

  /** Rows are only added under references that were not there, so what is settled stays settled. */
  lemma SettledStays(a: Account, ev: Event, id: string)
    requires Settled(a.ledger, id)
    ensures Settled(Apply(a, ev).ledger, id)
  {
    if ev.id != id {
      OtherReference(a, ev, id);
    } else {
      match ev
      case PaymentIn(_, amount, now, terms, steps) =>
        RecordFinds(a, PaymentRef(id), amount, false, now, terms);
      case RefundedIn(_, partial, steps) =>
        ReverseFinds(Relabel(a, id, Refunded), id);
      case ConsoleAccept(_, now, terms, steps) =>
        RecordFinds(a, AcceptedRef(id), 0, true, now, terms);
      case ConsoleRefund(_, steps) =>
        ReverseFinds(a, id);
      case _ =>
    }
  }

  lemma ReverseFinds(a: Account, id: string)
    ensures var b := ReversePayment(a, id).0;
      && (forall r: Ref | r != RefundRef(id) :: Find(b.ledger, r) == Find(a.ledger, r))
      && b.charges == a.charges && b.invoices == a.invoices
  {
    if ReversePayment(a, id).1.Reversed? {
      var e := ReversedRow(a, id);
      FindsAfter(a.ledger, e);
    }
  }

  /** What an event may leave of its own reference: a paid label, or a new invoice, only where the ledger settles it. */
  predicate LabelsEarned(a: Account, b: Account, id: string) {
    && (id in b.charges && b.charges[id].status == Paid ==> Settled(b.ledger, id))
    && (b.invoices != a.invoices ==>
          b.invoices == a.invoices + [id] && id !in a.invoices && id in b.charges && Settled(b.ledger, id))
  }

  lemma OwnPayment(a: Account, id: string, amount: int, now: Instant, terms: Terms, steps: nat)
    requires Good(a) && PaidMeansSettled(a)
    ensures LabelsEarned(a, OnPayment(a, id, amount, now, terms, steps), id)
  {
    RecordFinds(a, PaymentRef(id), amount, false, now, terms);
    var (recorded, result) := RecordPayment(a, PaymentRef(id), amount, false, now, terms);
    if result.Recorded? {
      var e := RecordedRow(a, PaymentRef(id), amount, false, now, terms);
      FindsAfter(a.ledger, e);
    }
    if id in a.charges && a.charges[id].status == Paid {
      SettledStays(a, PaymentIn(id, amount, now, terms, 1), id);
    }
  }

  lemma OwnAcceptance(a: Account, id: string, now: Instant, terms: Terms, steps: nat)
    requires Good(a) && PaidMeansSettled(a)
    ensures LabelsEarned(a, OnAccept(a, id, now, terms, steps), id)
  {
    FindWellFormed(a.ledger, PaymentRef(id));
    RecordFinds(a, AcceptedRef(id), 0, true, now, terms);
    var (recorded, result) := RecordPayment(a, AcceptedRef(id), 0, true, now, terms);
    if result.Recorded? {
      var e := RecordedRow(a, AcceptedRef(id), 0, true, now, terms);
      FindsAfter(a.ledger, e);
    }
  }

  /** The event's own reference: it is labelled paid, or invoiced, only when the ledger settles it. */
  lemma OwnReference(a: Account, ev: Event)
    requires Good(a) && PaidMeansSettled(a)
    ensures LabelsEarned(a, Apply(a, ev), ev.id)
  {
    var id := ev.id;
    match ev
    case PaymentIn(_, amount, now, terms, steps) => OwnPayment(a, id, amount, now, terms, steps);
    case RefundedIn(_, partial, steps) =>
      ReverseFinds(Relabel(a, id, Refunded), id);
      if id in a.charges && a.charges[id].status == Paid { SettledStays(a, ev, id); }
    case ConsoleAccept(_, now, terms, steps) => OwnAcceptance(a, id, now, terms, steps);
    case ConsoleRefund(_, steps) =>
      ReverseFinds(a, id);
      if id in a.charges && a.charges[id].status == Paid { SettledStays(a, ev, id); }
    case _ =>
  }

  /** No event forgets a charge. */
  lemma ChargesStay(a: Account, ev: Event, id: string)
    requires id in a.charges
    ensures id in Apply(a, ev).charges
  {
  }

  lemma ApplySound(start: Option<Instant>, a: Account, ev: Event)
    requires Sound(start, a)
    ensures Sound(start, Apply(a, ev))
  {
    var b := Apply(a, ev);
    ApplyKeeps(start, a, ev);
    OwnReference(a, ev);
    forall id | id in b.charges && b.charges[id].status == Paid ensures Settled(b.ledger, id) {
      if id != ev.id {
        OtherReference(a, ev, id);
      }
    }
    forall id | id in b.invoices ensures id in b.charges && Settled(b.ledger, id) {
      if id in a.invoices {
        ChargesStay(a, ev, id);
        SettledStays(a, ev, id);
      }
    }
  }

  ghost predicate NothingPaidYet(a: Account) {
    Fresh(a) && forall id | id in a.charges :: a.charges[id].status != Paid
  }

  lemma {:induction false} RunSound(start: Option<Instant>, a: Account, events: seq<Event>)
    requires Sound(start, a)
    ensures Sound(start, Run(a, events))
    decreases |events|
  {
    if events != [] {
      ApplySound(start, a, events[0]);
      RunSound(start, Apply(a, events[0]), events[1..]);
    }
  }

  // ----- The amounts behind a paid label -----

  /**
   * An amount that pays a charge: all of what was asked, in the charge's own
   * currency, or by the plan's price where the charge names no amount; or less
   * than it by an early-payment discount.
   */
  predicate Covers(charge: Charge, amount: int, terms: Terms) {
    || terms.early
    || (if charge.amountCents > 0 then terms.currencyMatches ==> amount >= charge.amountCents
        else terms.planPrice.Some? && terms.planPrice.value > 0 ==> amount >= terms.planPrice.value)
  }

  /** A payment row that was not short. */
  predicate FullRow(ledger: seq<Entry>, id: string) {
    Has(ledger, PaymentRef(id)) && Find(ledger, PaymentRef(id)).value.Credit? && !Find(ledger, PaymentRef(id)).value.underpaid
  }

  /** No event changes what a charge asks for, and none opens one under a reference the ledger mentions. */
  lemma ChargeIsFixed(a: Account, ev: Event, id: string)
    requires id in Apply(a, ev).charges
    ensures id in a.charges ==> Apply(a, ev).charges[id].amountCents == a.charges[id].amountCents
    ensures id !in a.charges ==> !Mentions(a.ledger, id) && Apply(a, ev).ledger == a.ledger
  {
    if ev.id != id { OtherReference(a, ev, id); }
  }

  /** The row of a payment recorded in full is the delivery's own, and the delivery pays the charge. */
  lemma FullRowIsCovered(a: Account, id: string, amount: int, now: Instant, terms: Terms)
    requires id in a.charges && !FullRow(a.ledger, id)
    ensures var b := RecordPayment(a, PaymentRef(id), amount, false, now, terms).0;
      FullRow(b.ledger, id) ==> Find(b.ledger, PaymentRef(id)).value.amountCents == amount && Covers(a.charges[id], amount, terms)
  {
    var (b, result) := RecordPayment(a, PaymentRef(id), amount, false, now, terms);
    if result.Recorded? {
      var e := RecordedRow(a, PaymentRef(id), amount, false, now, terms);
      FindsAfter(a.ledger, e);
      assert e == Last(b.ledger);
    }
  }

  /** An event that is no payment leaves the payment row of its reference as it was. */
  lemma OnlyPaymentsRecord(a: Account, ev: Event)
    requires !ev.PaymentIn?
    ensures Find(Apply(a, ev).ledger, PaymentRef(ev.id)) == Find(a.ledger, PaymentRef(ev.id))
    ensures Has(Apply(a, ev).ledger, AcceptedRef(ev.id)) && !Has(a.ledger, AcceptedRef(ev.id)) ==> ev.ConsoleAccept?
  {
    var id := ev.id;
    match ev
    case RefundedIn(_, partial, steps) => ReverseFinds(Relabel(a, id, Refunded), id);
    case ConsoleAccept(_, now, terms, steps) => RecordFinds(a, AcceptedRef(id), 0, true, now, terms);
    case ConsoleRefund(_, steps) => ReverseFinds(a, id);
    case _ =>
  }

  lemma PaymentAcceptsNothing(a: Account, id: string, amount: int, now: Instant, terms: Terms, steps: nat)
    ensures Find(OnPayment(a, id, amount, now, terms, steps).ledger, AcceptedRef(id)) == Find(a.ledger, AcceptedRef(id))
  {
    RecordFinds(a, PaymentRef(id), amount, false, now, terms);
  }

  lemma AcceptanceEarned(a: Account, ev: Event, id: string)
    requires Has(Apply(a, ev).ledger, AcceptedRef(id)) && !Has(a.ledger, AcceptedRef(id))
    ensures ev.ConsoleAccept? && ev.id == id
  {
    if ev.id != id {
      OtherReference(a, ev, id);
    } else if ev.PaymentIn? {
      PaymentAcceptsNothing(a, id, ev.amountCents, ev.now, ev.terms, ev.steps);
    } else {
      OnlyPaymentsRecord(a, ev);
    }
  }

  /** The event of the run that first left a row under the reference. */
  ghost predicate FirstRecords(a: Account, events: seq<Event>, k: nat, ref: Ref) {
    k < |events| && !Has(Run(a, events[..k]).ledger, ref) && Has(Apply(Run(a, events[..k]), events[k]).ledger, ref)
  }

  /** The run up to an event, and from there on, after one more event before it. */
  lemma RunFromNext(a: Account, events: seq<Event>, k: nat)
    requires 0 < |events| && k < |events| - 1
    ensures Run(a, events[..k + 1]) == Run(Apply(a, events[0]), events[1..][..k])
    ensures events[k + 1] == events[1..][k] && events[k + 2..] == events[1..][k + 1..]
  {
    assert events[..k + 1][1..] == events[1..][..k];
  }

  lemma {:induction false} SomeEventRecords(a: Account, events: seq<Event>, ref: Ref) returns (k: nat)
    requires !Has(a.ledger, ref) && Has(Run(a, events).ledger, ref)
    ensures FirstRecords(a, events, k, ref)
    ensures Run(a, events) == Run(Apply(Run(a, events[..k]), events[k]), events[k + 1..])
    decreases |events|
  {
    var next, rest := Apply(a, events[0]), events[1..];
    assert Run(a, events) == Run(next, rest);
    if Has(next.ledger, ref) {
      k := 0;
      assert events[..0] == [] && Run(a, events[..0]) == a;
    } else {
      var i := SomeEventRecords(next, rest, ref);
      RunFromNext(a, events, i);
      k := i + 1;
    }
  }

  /** Once its payment is recorded, a charge neither appears nor changes what it asks for. */
  lemma {:induction false} ChargeIsFixedSince(a: Account, events: seq<Event>, id: string)
    requires Has(a.ledger, PaymentRef(id)) && id in Run(a, events).charges
    ensures id in a.charges && Run(a, events).charges[id].amountCents == a.charges[id].amountCents
    decreases |events|
  {
    if events != [] {
      PaymentRowStays(a, events[0], id);
      ChargeIsFixedSince(Apply(a, events[0]), events[1..], id);
      ChargeIsFixed(a, events[0], id);
    }
  }

  /** Event `k` of the run is the delivery the ledger recorded, and its amount pays the charge. */
  ghost predicate PaysAt(a: Account, events: seq<Event>, k: nat, id: string) {
    var b := Run(a, events);
    && FirstRecords(a, events, k, PaymentRef(id)) && events[k].PaymentIn? && events[k].id == id
    && id in b.charges && Covers(b.charges[id], events[k].amountCents, events[k].terms)
    && FullRow(b.ledger, id) && Find(b.ledger, PaymentRef(id)).value.amountCents == events[k].amountCents
  }

  /** Event `k` of the run is the console's acceptance that the ledger recorded. */
  ghost predicate AcceptsAt(a: Account, events: seq<Event>, k: nat, id: string) {
    FirstRecords(a, events, k, AcceptedRef(id)) && events[k].ConsoleAccept? && events[k].id == id
  }

  /** What stands behind a paid label or an invoice: a delivery that paid the charge, or a short one the console accepted. */
  ghost predicate PaidFor(a: Account, events: seq<Event>, id: string) {
    var b := Run(a, events);
    && id in b.charges
    && if FullRow(b.ledger, id) then exists k :: PaysAt(a, events, k, id)
       else ShortPayment(b.ledger, id) && Has(b.ledger, AcceptedRef(id)) && exists k :: AcceptsAt(a, events, k, id)
  }

  lemma RecordingPays(a: Account, events: seq<Event>, id: string)
    requires a.ledger == [] && id in Run(a, events).charges && FullRow(Run(a, events).ledger, id)
    ensures exists k :: PaysAt(a, events, k, id)
  {
    var k := SomeEventRecords(a, events, PaymentRef(id));
    var before, ev := Run(a, events[..k]), events[k];
    var after := Apply(before, ev);
    if ev.id != id { OtherReference(before, ev, id); }
    if !ev.PaymentIn? { OnlyPaymentsRecord(before, ev); }
    RecordedOnce(after, events[k + 1..], id);
    ChargeIsFixedSince(after, events[k + 1..], id);
    ChargeIsFixed(before, ev, id);
    DeliveryPays(before, id, ev.amountCents, ev.now, ev.terms, ev.steps);
    assert PaysAt(a, events, k, id);
  }

  /** The delivery that leaves a full row brought what the row says, and it pays the charge. */
  lemma DeliveryPays(a: Account, id: string, amount: int, now: Instant, terms: Terms, steps: nat)
    requires id in a.charges && !Has(a.ledger, PaymentRef(id))
    ensures var b := OnPayment(a, id, amount, now, terms, steps);
      FullRow(b.ledger, id) ==> Find(b.ledger, PaymentRef(id)).value.amountCents == amount && Covers(a.charges[id], amount, terms)
  {
    FullRowIsCovered(a, id, amount, now, terms);
  }

  lemma AcceptanceIsRecorded(a: Account, events: seq<Event>, id: string)
    requires a.ledger == [] && Has(Run(a, events).ledger, AcceptedRef(id))
    ensures exists k :: AcceptsAt(a, events, k, id)
  {
    var k := SomeEventRecords(a, events, AcceptedRef(id));
    AcceptanceEarned(Run(a, events[..k]), events[k], id);
    assert AcceptsAt(a, events, k, id);
  }

  /**
   * After any run from an empty ledger, crashes included: a charge is paid only
   * if the delivery of the run that the ledger recorded brought all that was asked
   * for it, or brought less and the console recorded that it accepted that; and an
   * invoice is queued at most once and only for such a charge.
   */
  lemma PaidAndInvoicedArePaidFor(a: Account, events: seq<Event>)
    requires NothingPaidYet(a)
    ensures var b := Run(a, events);
      && (forall id | id in b.charges && b.charges[id].status == Paid :: PaidFor(a, events, id))
      && Distinct(b.invoices) && (forall id | id in b.invoices :: PaidFor(a, events, id))
  {
    RunSound(Start(a), a, events);
    var b := Run(a, events);
    forall id | id in b.charges && Settled(b.ledger, id) ensures PaidFor(a, events, id) {
      FindWellFormed(b.ledger, PaymentRef(id));
      if FullRow(b.ledger, id) { RecordingPays(a, events, id); } else { AcceptanceIsRecorded(a, events, id); }
    }
  }

  /** Payments in the charge's own currency and without a discount. */
  predicate Plain(events: seq<Event>) {
    forall ev | ev in events && ev.PaymentIn? :: ev.terms.currencyMatches && !ev.terms.early
  }

  /** Where no currency differs and no discount is given, a paid or invoiced charge not accepted short has its cents in the ledger. */
  lemma PaidInCents(a: Account, events: seq<Event>, id: string)
    requires NothingPaidYet(a) && Plain(events)
    requires var b := Run(a, events); (id in b.charges && b.charges[id].status == Paid) || id in b.invoices
    ensures var b := Run(a, events);
      && id in b.charges && Has(b.ledger, PaymentRef(id))
      && (Has(b.ledger, AcceptedRef(id)) ||
          (Find(b.ledger, PaymentRef(id)).value.Credit?
           && Find(b.ledger, PaymentRef(id)).value.amountCents >= b.charges[id].amountCents)
          || b.charges[id].amountCents <= 0)
  {
    PaidAndInvoicedArePaidFor(a, events);
    RunSound(Start(a), a, events);
    FindWellFormed(Run(a, events).ledger, PaymentRef(id));
  }

  predicate FullRefundOf(ev: Event, id: string) {
    ev.id == id && ((ev.RefundedIn? && !ev.partial) || ev.ConsoleRefund?)
  }

  /** The only way out of `Paid` is a whole refund of that charge, and it leads to `Refunded`. */
  lemma PaidLeavesOnlyByRefund(a: Account, ev: Event, id: string)
    requires id in a.charges && a.charges[id].status == Paid
    ensures id in Apply(a, ev).charges
    ensures Apply(a, ev).charges[id].status != Paid ==> FullRefundOf(ev, id) && Apply(a, ev).charges[id].status == Refunded
  {
    if ev.id != id {
      OtherReference(a, ev, id);
    }
  }

  /**
   * A short payment delivered again, any number of times and with any amount,
   * changes nothing: it settles nothing and buys nothing.
   */
  lemma {:induction false} ShortPaymentNeverSettles(a: Account, events: seq<Event>, id: string)
    requires ShortPayment(a.ledger, id) && id in a.charges && a.charges[id].status != Paid
    requires forall i | 0 <= i < |events| :: events[i].PaymentIn? && events[i].id == id
    ensures Run(a, events) == a
    decreases |events|
  {
    if events != [] {
      assert events[0].PaymentIn? && events[0].id == id;
      assert Apply(a, events[0]) == a;
      ShortPaymentNeverSettles(a, events[1..], id);
    }
  }

  // ----- The label and the money -----

  predicate LabelledWhenSettled(a: Account, id: string) {
    id in a.charges && Settled(a.ledger, id) ==> a.charges[id].status == Paid || a.charges[id].status == Refunded
  }

  ghost predicate LabelsCaughtUp(a: Account) {
    forall id | id in a.charges :: LabelledWhenSettled(a, id)
  }

  /** A delivery that is new and pays all that is asked. */
  predicate PaysInFull(a: Account, id: string, amount: int, terms: Terms) {
    && a.subscription.Some? && amount >= 0 && !Has(a.ledger, PaymentRef(id)) && !Has(a.ledger, RefundRef(id))
    && !Short(Asked(a, PaymentRef(id), terms).0, amount, terms)
  }

  /** The process dies between the row that settles an unpaid charge and its label. */
  predicate StopsBeforeTheLabel(a: Account, ev: Event) {
    ev.id in a.charges &&
    match ev
    case PaymentIn(id, amount, _, terms, steps) =>
      steps == 1 && PaysInFull(a, id, amount, terms) && a.charges[id].status != Paid && a.charges[id].status != Refunded
    case ConsoleAccept(id, _, _, steps) =>
      steps == 1 && a.subscription.Some? && IsOpen(a.charges[id].status) && ShortPayment(a.ledger, id)
    case _ => false
  }

  lemma RecordedInFullIff(a: Account, id: string, amount: int, now: Instant, terms: Terms)
    requires !Has(a.ledger, RefundRef(id))
    ensures RecordPayment(a, PaymentRef(id), amount, false, now, terms).1 == Recorded(false) <==> PaysInFull(a, id, amount, terms)
  {
  }

  lemma PaymentLabelsIff(a: Account, id: string, amount: int, now: Instant, terms: Terms, steps: nat)
    requires Good(a) && LabelledWhenSettled(a, id)
    ensures LabelledWhenSettled(OnPayment(a, id, amount, now, terms, steps), id)
            <==> !StopsBeforeTheLabel(a, PaymentIn(id, amount, now, terms, steps))
  {
    RecordFinds(a, PaymentRef(id), amount, false, now, terms);
    if !Has(a.ledger, RefundRef(id)) { RecordedInFullIff(a, id, amount, now, terms); }
    if RecordPayment(a, PaymentRef(id), amount, false, now, terms).1.Recorded? {
      var e := RecordedRow(a, PaymentRef(id), amount, false, now, terms);
      FindsAfter(a.ledger, e);
    }
  }

  lemma AcceptanceLabelsIff(a: Account, id: string, now: Instant, terms: Terms, steps: nat)
    requires LabelledWhenSettled(a, id)
    ensures LabelledWhenSettled(OnAccept(a, id, now, terms, steps), id)
            <==> !StopsBeforeTheLabel(a, ConsoleAccept(id, now, terms, steps))
  {
    RecordFinds(a, AcceptedRef(id), 0, true, now, terms);
    if RecordPayment(a, AcceptedRef(id), 0, true, now, terms).1.Recorded? {
      var e := RecordedRow(a, AcceptedRef(id), 0, true, now, terms);
      FindsAfter(a.ledger, e);
    }
  }

  lemma RefundKeepsLabel(a: Account, id: string, partial: bool, steps: nat)
    requires LabelledWhenSettled(a, id)
    ensures LabelledWhenSettled(OnRefund(a, id, partial, steps), id) && LabelledWhenSettled(OnConsoleRefund(a, id, steps), id)
  {
    ReverseFinds(Relabel(a, id, Refunded), id);
    ReverseFinds(a, id);
  }

  lemma OwnLabelIff(a: Account, ev: Event)
    requires Good(a) && LabelledWhenSettled(a, ev.id)
    ensures LabelledWhenSettled(Apply(a, ev), ev.id) <==> !StopsBeforeTheLabel(a, ev)
  {
    match ev
    case PaymentIn(id, amount, now, terms, steps) => PaymentLabelsIff(a, id, amount, now, terms, steps);
    case RefundedIn(id, partial, steps) => RefundKeepsLabel(a, id, partial, steps);
    case ConsoleRefund(id, steps) => RefundKeepsLabel(a, id, false, steps);
    case ConsoleAccept(id, now, terms, steps) => AcceptanceLabelsIff(a, id, now, terms, steps);
    case _ =>
  }

  lemma EventLabelsIff(a: Account, ev: Event)
    requires Good(a) && LabelsCaughtUp(a)
    ensures LabelsCaughtUp(Apply(a, ev)) <==> !StopsBeforeTheLabel(a, ev)
  {
    var b := Apply(a, ev);
    assert ev.id in a.charges ==> LabelledWhenSettled(a, ev.id);
    OwnLabelIff(a, ev);
    if StopsBeforeTheLabel(a, ev) {
      ChargesStay(a, ev, ev.id);
    } else {
      forall id | id in b.charges ensures LabelledWhenSettled(b, id) {
        if id != ev.id {
          OtherReference(a, ev, id);
          assert LabelledWhenSettled(a, id);
        }
      }
    }
  }

  predicate NoneStopsBeforeTheLabel(a: Account, events: seq<Event>)
    decreases |events|
  {
    events != [] ==> !StopsBeforeTheLabel(a, events[0]) && NoneStopsBeforeTheLabel(Apply(a, events[0]), events[1..])
  }

  ghost predicate CaughtUpThroughout(a: Account, events: seq<Event>)
    decreases |events|
  {
    LabelsCaughtUp(a) && (events != [] ==> CaughtUpThroughout(Apply(a, events[0]), events[1..]))
  }

  /**
   * All along a run every charge the ledger settles is labelled paid, or
   * refunded since, if and only if no process of the run died between the row
   * that settles a charge and its label; then it is so at the end too.
   */
  lemma {:induction false} LabelsFollowIff(start: Option<Instant>, a: Account, events: seq<Event>)
    requires Good(a) && Balanced(start, a) && LabelsCaughtUp(a)
    ensures CaughtUpThroughout(a, events) <==> NoneStopsBeforeTheLabel(a, events)
    ensures NoneStopsBeforeTheLabel(a, events) ==> LabelsCaughtUp(Run(a, events))
    decreases |events|
  {
    if events != [] {
      ApplyKeeps(start, a, events[0]);
      EventLabelsIff(a, events[0]);
      if LabelsCaughtUp(Apply(a, events[0])) { LabelsFollowIff(start, Apply(a, events[0]), events[1..]); }
    }
  }

  /** A payment in full labels its charge paid if and only if its second write was committed. */
  lemma PaymentLabelsPaidIff(a: Account, id: string, amount: int, now: Instant, terms: Terms, steps: nat)
    requires id in a.charges && a.charges[id].status != Paid && PaysInFull(a, id, amount, terms)
    ensures var b := OnPayment(a, id, amount, now, terms, steps);
      && (id in b.charges && (b.charges[id].status == Paid <==> steps >= 2))
      && (steps == 1 ==> b.charges == a.charges && Settled(b.ledger, id))
  {
    RecordedInFullIff(a, id, amount, now, terms);
    RecordFinds(a, PaymentRef(id), amount, false, now, terms);
    var e := RecordedRow(a, PaymentRef(id), amount, false, now, terms);
    FindsAfter(a.ledger, e);
  }

  /** What takes a pending charge whose payment is recorded out of `Pending`. */
  predicate MovesOn(ev: Event, id: string) {
    ev.id == id &&
    match ev
    case MarkedOverdue(_) => true
    case MarkedCanceled(_) => true
    case RefundedIn(_, partial, steps) => !partial && steps >= 1
    case ConsoleAccept(_, _, _, steps) => steps >= 2
    case _ => false
  }

  lemma PendingStepIff(a: Account, ev: Event, id: string)
    requires id in a.charges && Has(a.ledger, PaymentRef(id))
    ensures id in Apply(a, ev).charges && Has(Apply(a, ev).ledger, PaymentRef(id))
    ensures a.charges[id].status == Pending ==> (Apply(a, ev).charges[id].status == Pending <==> !MovesOn(ev, id))
    ensures a.charges[id].status != Pending ==> Apply(a, ev).charges[id].status != Pending
  {
    PaymentRowStays(a, ev, id);
    if ev.id != id { OtherReference(a, ev, id); }
  }

  /**
   * A charge left pending with its payment recorded: redeliveries, however many
   * and however complete, never label it, and it stays pending until - and only
   * until - the gateway calls it overdue, canceled or refunded, or the console
   * settles it from the ledger.
   */
  lemma {:induction false} StaysPendingIff(a: Account, later: seq<Event>, id: string)
    requires id in a.charges && Has(a.ledger, PaymentRef(id))
    ensures id in Run(a, later).charges
    ensures Run(a, later).charges[id].status == Pending
            <==> a.charges[id].status == Pending && forall i | 0 <= i < |later| :: !MovesOn(later[i], id)
    decreases |later|
  {
    if later != [] {
      var rest := later[1..];
      PendingStepIff(a, later[0], id);
      StaysPendingIff(Apply(a, later[0]), rest, id);
      assert forall i | 0 <= i < |rest| :: rest[i] == later[i + 1];
      assert (forall i | 0 <= i < |later| :: !MovesOn(later[i], id))
        <==> !MovesOn(later[0], id) && forall i | 0 <= i < |rest| :: !MovesOn(rest[i], id);
    }
  }

  /**
   * A process that dies between the credit and the label leaves the charge
   * credited and pending, exactly until one of those comes.
   */
  lemma CrashLeavesTheLabelBehind(a: Account, id: string, amount: int, now: Instant, terms: Terms, later: seq<Event>)
    requires id in a.charges && a.charges[id].status == Pending && PaysInFull(a, id, amount, terms)
    ensures var crashed := OnPayment(a, id, amount, now, terms, 1);
      && Settled(crashed.ledger, id) && id in Run(crashed, later).charges
      && (Run(crashed, later).charges[id].status == Pending <==> forall i | 0 <= i < |later| :: !MovesOn(later[i], id))
  {
    PaymentLabelsPaidIff(a, id, amount, now, terms, 1);
    RecordedInFullIff(a, id, amount, now, terms);
    RecordFinds(a, PaymentRef(id), amount, false, now, terms);
    var e := RecordedRow(a, PaymentRef(id), amount, false, now, terms);
    FindsAfter(a.ledger, e);
    StaysPendingIff(OnPayment(a, id, amount, now, terms, 1), later, id);
  }
}
