/**
 * One provider's subscription, charges, payment ledger and invoice queue, and
 * what each thing the gateway or the console says does to them:
 * `billingWebhookController.js` over `SubscriptionService.recordPayment` and
 * `reversePayment`.
 */
module BillingAccount {
  import opened Prelude

  /** Milliseconds since the epoch. */
  type Instant = int

  const DAY: int := 86_400_000

  /** `reversePayment` takes two deadlines closer than this for the same one. */
  const TOLERANCE: int := 1000

  type Days = d: int | 0 < d witness 30

  datatype Standing = OnTrial | Live | PastDue | Suspended(byNonPayment: bool) | Ended

  datatype Subscription = Subscription(standing: Standing, renewsAt: Option<Instant>)

  datatype ChargeStatus = Pending | FailedToIssue | Overdue | Paid | Canceled | Refunded

  /** `side` is a charge that buys no period: proration, overage, add-on. */
  datatype Charge = Charge(status: ChargeStatus, amountCents: int, side: bool)

  /**
   * The external reference of a ledger row: the gateway's payment id, and the
   * same id with `:refund` or `:accepted` after it.
   */
  datatype Ref = PaymentRef(id: string) | RefundRef(id: string) | AcceptedRef(id: string)

  /** The reference as the ledger column stores it, cut to the 128 characters of the column. */
  function RefText(ref: Ref): string {
    var text := match ref
      case PaymentRef(id) => id
      case RefundRef(id) => id + ":refund"
      case AcceptedRef(id) => id + ":accepted";
    if |text| <= 128 then text else text[..128]
  }

  /** A gateway id that leaves room for the suffix and has no colon of its own. */
  predicate PlainId(id: string) {
    |id| <= 119 && ':' !in id
  }

  /** What the column holds under a plain id: the id itself for its payment, and with a suffix for its refund and its acceptance. */
  lemma StoredAs(id: string)
    requires PlainId(id)
    ensures RefText(PaymentRef(id)) == id && RefText(RefundRef(id)) == id + ":refund" && RefText(AcceptedRef(id)) == id + ":accepted"
  {
  }

  /** On plain ids the stored texts tell every two references apart, so rows may be keyed by `Ref`. */
  lemma RefTextTellsApart(a: Ref, b: Ref)
    requires PlainId(a.id) && PlainId(b.id) && RefText(a) == RefText(b)
    ensures a == b
  {
    var n := ColonAt(RefText(a));
    ColonOf(a);
    ColonOf(b);
    assert RefText(a)[..n] == a.id && RefText(b)[..n] == b.id;
  }

  function ColonAt(s: string): nat {
    if s == [] || s[0] == ':' then 0 else 1 + ColonAt(s[1..])
  }

  lemma {:induction false} ColonAfter(id: string, tail: string)
    requires ':' !in id && (tail == [] || tail[0] == ':')
    ensures ColonAt(id + tail) == |id|
  {
    if id == [] {
      assert id + tail == tail;
    } else {
      assert (id + tail)[1..] == id[1..] + tail && id[0] in id;
      ColonAfter(id[1..], tail);
    }
  }

  lemma ColonOf(ref: Ref)
    requires PlainId(ref.id)
    ensures ColonAt(RefText(ref)) == |ref.id| <= |RefText(ref)| && RefText(ref)[..|ref.id|] == ref.id
    ensures |RefText(ref)| == |ref.id| + (if ref.PaymentRef? then 0 else if ref.RefundRef? then 7 else 9)
  {
    match ref
    case PaymentRef(id) =>
      ColonAfter(id, "");
      assert id + "" == id;
    case RefundRef(id) => ColonAfter(id, ":refund");
    case AcceptedRef(id) => ColonAfter(id, ":accepted");
  }

  /** What a payment did to the renewal date: from where, to where, and the days it bought. */
  datatype Extension = Extension(from: Option<Instant>, to: Instant, days: Days)

  datatype Entry =
    | Credit(ref: Ref, amountCents: int, underpaid: bool, extension: Option<Extension>)
    | Reversal(ref: Ref, before: Option<Instant>, after: Option<Instant>)

  datatype Account = Account(
    subscription: Option<Subscription>,
    charges: map<string, Charge>,
    ledger: seq<Entry>,
    invoices: seq<string>)

  /**
   * What the catalogue and the rest of the panel answer while a payment is
   * being recorded: the days of the period, the plan's price when it asks for
   * one, whether the currencies match, whether an early-payment discount
   * explains a short amount, whether another overdue charge remains, and
   * whether invoices are issued.
   */
  datatype Terms = Terms(days: Days, planPrice: Option<int>, currencyMatches: bool, early: bool,
                         stillOwes: bool, invoicing: bool)

  // ----- The ledger -----

  function Last<T>(s: seq<T>): T
    requires s != []
  {
    s[|s| - 1]
  }

  function Front<T>(s: seq<T>): seq<T>
    requires s != []
  {
    s[..|s| - 1]
  }

  /** `BillingEvent.findByExternalId`. */
  function Find(ledger: seq<Entry>, ref: Ref): Option<Entry>
    decreases |ledger|
  {
    if ledger == [] then None
    else if Last(ledger).ref == ref then Some(Last(ledger))
    else Find(Front(ledger), ref)
  }

  predicate Has(ledger: seq<Entry>, ref: Ref) {
    Find(ledger, ref).Some?
  }

  predicate Mentions(ledger: seq<Entry>, id: string) {
    Has(ledger, PaymentRef(id)) || Has(ledger, RefundRef(id)) || Has(ledger, AcceptedRef(id))
  }

  lemma FindAppend(ledger: seq<Entry>, e: Entry, ref: Ref)
    ensures Find(ledger + [e], ref) == if e.ref == ref then Some(e) else Find(ledger, ref)
  {
    assert Front(ledger + [e]) == ledger;
  }

  // ----- Recording a payment -----

  datatype RecordResult = NoSubscription | BadAmount | Duplicate | Recorded(underpaid: bool)

  /** The charge a reference is checked against: by its gateway id, or named by the acceptance of a side charge. */
  function ChargeFor(a: Account, ref: Ref): Option<Charge> {
    if ref.id in a.charges && (ref.PaymentRef? || a.charges[ref.id].side) then Some(a.charges[ref.id]) else None
  }

  /** `valorPedido`: how much was asked for, and whether by a charge that buys no period. */
  function Asked(a: Account, ref: Ref, terms: Terms): (Option<int>, bool) {
    var charge := ChargeFor(a, ref);
    if charge.Some? && charge.value.amountCents > 0 then
      if terms.currencyMatches then (Some(charge.value.amountCents), charge.value.side) else (None, false)
    else (if terms.planPrice.Some? && terms.planPrice.value > 0 then terms.planPrice else None, false)
  }

  function Short(asked: Option<int>, amount: int, terms: Terms): bool {
    asked.Some? && amount < asked.value && !terms.early
  }

  /** Whether a payment in full moves the renewal date of a subscription in this standing. */
  predicate Extends(standing: Standing) {
    standing.OnTrial? || standing.Live? || standing.PastDue? || standing == Suspended(true)
  }

  /** The period starts where the current one ends, or now when that has passed. */
  function Base(renewsAt: Option<Instant>, now: Instant): Instant {
    if renewsAt.Some? && renewsAt.value > now then renewsAt.value else now
  }

  function Extended(sub: Subscription, now: Instant, terms: Terms): Subscription {
    Subscription(if sub.standing == Suspended(true) && terms.stillOwes then sub.standing else Live,
                 Some(Base(sub.renewsAt, now) + terms.days * DAY))
  }

  /** `recordPayment`: the event and the date, in one transaction. */
  function RecordPayment(a: Account, ref: Ref, amount: int, allowUnderpayment: bool, now: Instant, terms: Terms)
    : (Account, RecordResult)
  {
    if a.subscription.None? then (a, NoSubscription)
    else if amount < 0 then (a, BadAmount)
    else if Has(a.ledger, ref) then (a, Duplicate)
    else
      var sub := a.subscription.value;
      var (asked, side) := Asked(a, ref, terms);
      var underpaid := Short(asked, amount, terms) && !allowUnderpayment;
      if !underpaid && !side && Extends(sub.standing) then
        var sub' := Extended(sub, now, terms);
        (a.(subscription := Some(sub'),
            ledger := a.ledger + [Credit(ref, amount, false,
                                         Some(Extension(sub.renewsAt, sub'.renewsAt.value, terms.days)))]),
         Recorded(false))
      else
        // A side charge paid as the last debt lifts the automatic suspension, and buys no day.
        var lifts := side && !underpaid && !terms.stillOwes && sub.standing == Suspended(true);
        (a.(subscription := Some(if lifts then sub.(standing := Live) else sub),
            ledger := a.ledger + [Credit(ref, amount, underpaid, None)]),
         Recorded(underpaid))
  }

  // ----- Reversing a payment -----

  datatype ReverseResult = NothingToReverse | NoPayment | AlreadyReversed | Reversed

  /** The extension a refund of `id` undoes: the payment's, or its acceptance's when it was short. */
  function ExtensionOf(ledger: seq<Entry>, id: string): Option<Extension> {
    var payment := Find(ledger, PaymentRef(id));
    if payment.None? || !payment.value.Credit? then None
    else if payment.value.underpaid then
      var accepted := Find(ledger, AcceptedRef(id));
      if accepted.Some? && accepted.value.Credit? then accepted.value.extension else None
    else payment.value.extension
  }

  predicate Near(x: Instant, y: Instant) {
    -TOLERANCE < x - y < TOLERANCE
  }

  /** The date after undoing `x`: the one before it when nothing moved it since, otherwise less the days it bought. */
  function RolledBack(renewsAt: Instant, x: Extension): Instant {
    if x.from.Some? && Near(renewsAt, x.to) then x.from.value else renewsAt - x.days * DAY
  }

  function RenewsAfterRefund(sub: Subscription, x: Option<Extension>): Option<Instant> {
    if x.Some? && sub.renewsAt.Some? then Some(RolledBack(sub.renewsAt.value, x.value)) else sub.renewsAt
  }

  /** `reversePayment`: the mark `<id>:refund` and the date, in one transaction. */
  function ReversePayment(a: Account, id: string): (Account, ReverseResult) {
    if a.subscription.None? then (a, NothingToReverse)
    else if Has(a.ledger, RefundRef(id)) then (a, AlreadyReversed)
    else if Find(a.ledger, PaymentRef(id)).None? then (a, NoPayment)
    else
      var sub := a.subscription.value;
      var after := RenewsAfterRefund(sub, ExtensionOf(a.ledger, id));
      (a.(subscription := Some(sub.(renewsAt := after)),
          ledger := a.ledger + [Reversal(RefundRef(id), sub.renewsAt, after)]),
       Reversed)
  }

  // ----- Charge labels and the invoice queue -----

  /** `TRANSICOES_DO_CICLO`: from which label each lifecycle label may be reached. */
  predicate MayBecome(from: ChargeStatus, to: ChargeStatus) {
    match to
    case Overdue => from.Pending? || from.FailedToIssue?
    case Canceled => from.Pending? || from.FailedToIssue? || from.Overdue?
    case Refunded => !from.Refunded?
    case _ => false
  }

  function SetLabel(a: Account, id: string, status: ChargeStatus): Account
    requires id in a.charges
  {
    a.(charges := a.charges[id := a.charges[id].(status := status)])
  }

  function Relabel(a: Account, id: string, to: ChargeStatus): Account {
    if id in a.charges && MayBecome(a.charges[id].status, to) then SetLabel(a, id, to) else a
  }

  /** `marcarCobrancaPaga`. */
  function Settle(a: Account, id: string): Account {
    if id in a.charges then SetLabel(a, id, Paid) else a
  }

  /** `enfileirarNota`: once per charge, and only for a paid one. */
  function QueueInvoice(a: Account, id: string, terms: Terms): Account {
    if id in a.charges && a.charges[id].status == Paid && terms.invoicing && id !in a.invoices
    then a.(invoices := a.invoices + [id])
    else a
  }

  // ----- Events -----

  /**
   * What reaches the account. `steps` is how many of the event's writes were
   * committed before the process died; every event has at most three.
   */
  datatype Event =
    | PaymentIn(id: string, amountCents: int, now: Instant, terms: Terms, steps: nat)
    | MarkedOverdue(id: string)
    | MarkedCanceled(id: string)
    | RefundedIn(id: string, partial: bool, steps: nat)
    | ConsoleAccept(id: string, now: Instant, terms: Terms, steps: nat)
    | ConsoleRefund(id: string, steps: nat)
    | Issue(id: string, amountCents: int, side: bool)

  const WHOLE: nat := 3

  predicate IsOpen(s: ChargeStatus) {
    s.Pending? || s.FailedToIssue? || s.Overdue?
  }

  /** The payment branch of `receive`, from the look for an earlier refund to the invoice queue. */
  function OnPayment(a: Account, id: string, amount: int, now: Instant, terms: Terms, steps: nat): Account {
    if Has(a.ledger, RefundRef(id)) || steps == 0 then a
    else
      var (recorded, result) := RecordPayment(a, PaymentRef(id), amount, false, now, terms);
      if result.NoSubscription? || result.BadAmount? then recorded
      else
        var labelled := if steps >= 2 && result == Recorded(false) then Settle(recorded, id) else recorded;
        if steps >= 3 && result != Recorded(true) then QueueInvoice(labelled, id, terms) else labelled
  }

  /** `atualizarCiclo` for a refund: the label, then the period. A partial refund changes nothing. */
  function OnRefund(a: Account, id: string, partial: bool, steps: nat): Account {
    if partial || steps == 0 then a
    else
      var labelled := Relabel(a, id, Refunded);
      if steps >= 2 then ReversePayment(labelled, id).0 else labelled
  }

  /** The console accepting a short payment that is already in the ledger (`fecharPeloRegistro`). */
  function OnAccept(a: Account, id: string, now: Instant, terms: Terms, steps: nat): Account {
    var payment := Find(a.ledger, PaymentRef(id));
    if id !in a.charges || !IsOpen(a.charges[id].status) || payment.None? || steps == 0 then a
    else
      var recorded := if payment.value.Credit? && payment.value.underpaid
                      then RecordPayment(a, AcceptedRef(id), 0, true, now, terms).0 else a;
      var labelled := if steps >= 2 then Settle(recorded, id) else recorded;
      if steps >= 3 then QueueInvoice(labelled, id, terms) else labelled
  }

  /** The console's refund of a paid charge: the period first, then the label. */
  function OnConsoleRefund(a: Account, id: string, steps: nat): Account {
    if id !in a.charges || a.charges[id].status != Paid || steps == 0 then a
    else
      var reversed := ReversePayment(a, id).0;
      if steps >= 2 then SetLabel(reversed, id, Refunded) else reversed
  }

  /** A charge issued under a new gateway id. */
  function OnIssue(a: Account, id: string, amount: int, side: bool): Account {
    if id in a.charges || Mentions(a.ledger, id) then a
    else a.(charges := a.charges[id := Charge(Pending, amount, side)])
  }

  function Apply(a: Account, ev: Event): Account {
    match ev
    case PaymentIn(id, amount, now, terms, steps) => OnPayment(a, id, amount, now, terms, steps)
    case MarkedOverdue(id) => Relabel(a, id, Overdue)
    case MarkedCanceled(id) => Relabel(a, id, Canceled)
    case RefundedIn(id, partial, steps) => OnRefund(a, id, partial, steps)
    case ConsoleAccept(id, now, terms, steps) => OnAccept(a, id, now, terms, steps)
    case ConsoleRefund(id, steps) => OnConsoleRefund(a, id, steps)
    case Issue(id, amount, side) => OnIssue(a, id, amount, side)
  }

  /** The account after a sequence of events, in any order and with any repetition. */
  function Run(a: Account, events: seq<Event>): Account
    decreases |events|
  {
    if events == [] then a else Run(Apply(a, events[0]), events[1..])
  }
}
