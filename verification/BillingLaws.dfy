/**
 * What holds of a billing account after every run: where the renewal date comes
 * from, what a refund closes for good, and when a charge counts as paid.
 */
module BillingLaws {
  import opened Prelude
  import opened BillingAccount

  // ----- Accounting for the renewal date -----

  /** How far a payment moved the renewal date. */
  function Push(x: Extension): int {
    if x.from.Some? then x.to - x.from.value else x.days * DAY
  }

  /** The part of a push nobody bought: the time between the old deadline and a late payment. */
  function Lapse(x: Extension): int {
    Push(x) - x.days * DAY
  }

  function PushOfEntry(e: Entry): int {
    if e.Credit? && e.extension.Some? then Push(e.extension.value) else 0
  }

  /** Every payment reference that has a `:refund` row. */
  function RefundedIds(ledger: seq<Entry>): set<string>
    decreases |ledger|
  {
    if ledger == [] then {}
    else RefundedIds(Front(ledger)) + (if Last(ledger).ref.RefundRef? then {Last(ledger).ref.id} else {})
  }

  /** The sum of the pushes whose reference is not among `refunded`. */
  function LivePushes(ledger: seq<Entry>, refunded: set<string>): int
    decreases |ledger|
  {
    if ledger == [] then 0
    else LivePushes(Front(ledger), refunded)
         + (if Last(ledger).ref.id in refunded then 0 else PushOfEntry(Last(ledger)))
  }

  /** The sum of the pushes of one reference. */
  function PushesOf(ledger: seq<Entry>, id: string): int
    decreases |ledger|
  {
    if ledger == [] then 0
    else PushesOf(Front(ledger), id) + (if Last(ledger).ref.id == id then PushOfEntry(Last(ledger)) else 0)
  }

  /**
   * How much of a push stays when its payment is refunded on this date: the
   * distance to the deadline it had set, when the two count as the same, and
   * otherwise the time that had lapsed before it.
   */
  function LeftBehind(date: Instant, x: Extension): int {
    if x.from.Some? && Near(date, x.to) then x.to - date else Lapse(x)
  }

  /** What a refund row left in place of the push of its payment. */
  function ResidueOf(earlier: seq<Entry>, e: Entry): int {
    var x := ExtensionOf(earlier, e.ref.id);
    if e.Reversal? && e.before.Some? && x.Some? then LeftBehind(e.before.value, x.value) else 0
  }

  /** What all the refunds together left in place. */
  function Residue(ledger: seq<Entry>): int
    decreases |ledger|
  {
    if ledger == [] then 0 else Residue(Front(ledger)) + ResidueOf(Front(ledger), Last(ledger))
  }

  predicate HasExtension(ledger: seq<Entry>)
    decreases |ledger|
  {
    ledger != [] && ((Last(ledger).Credit? && Last(ledger).extension.Some?) || HasExtension(Front(ledger)))
  }

  /** The date the account counts from: its first deadline, or the start of the first period it bought. */
  function Anchor(start: Option<Instant>, ledger: seq<Entry>): Instant
    decreases |ledger|
  {
    if start.Some? then start.value
    else if ledger == [] then 0
    else if HasExtension(Front(ledger)) || !Last(ledger).Credit? || Last(ledger).extension.None?
    then Anchor(start, Front(ledger))
    else Last(ledger).extension.value.to - Last(ledger).extension.value.days * DAY
  }

  // ----- The invariant -----

  predicate WellFormed(e: Entry) {
    match e
    case Credit(ref, _, underpaid, extension) =>
      && !ref.RefundRef?
      && (underpaid ==> ref.PaymentRef? && extension.None?)
      && (extension.Some? ==> Lapse(extension.value) >= 0)
    case Reversal(ref, before, after) => ref.RefundRef? && before.Some? == after.Some?
  }

  predicate AllWellFormed(ledger: seq<Entry>) {
    forall i | 0 <= i < |ledger| :: WellFormed(ledger[i])
  }

  /** The payment under this reference came in short. */
  predicate ShortPayment(ledger: seq<Entry>, id: string) {
    var payment := Find(ledger, PaymentRef(id));
    payment.Some? && payment.value.Credit? && payment.value.underpaid
  }

  ghost predicate AcceptedOnlyWhenShort(ledger: seq<Entry>) {
    forall id: string :: Has(ledger, AcceptedRef(id)) ==> ShortPayment(ledger, id)
  }

  /** At most one row under a reference moved the date, and it is the one a refund undoes. */
  ghost predicate OnePushEach(ledger: seq<Entry>) {
    forall id: string :: PushesOf(ledger, id) ==
      (if ExtensionOf(ledger, id).Some? then Push(ExtensionOf(ledger, id).value) else 0)
  }

  /** A refunded reference has its charge, if any, in `Refunded` - or still in `Paid` when the console died in between. */
  ghost predicate RefundsAreLabelled(a: Account) {
    forall id: string :: Has(a.ledger, RefundRef(id)) ==>
      Has(a.ledger, PaymentRef(id)) && (id in a.charges ==> a.charges[id].status == Refunded || a.charges[id].status == Paid)
  }

  ghost predicate Good(a: Account) {
    && AllWellFormed(a.ledger)
    && AcceptedOnlyWhenShort(a.ledger)
    && OnePushEach(a.ledger)
    && RefundsAreLabelled(a)
    && (a.subscription.None? ==> a.ledger == [])
    && (HasExtension(a.ledger) ==> a.subscription.Some? && a.subscription.value.renewsAt.Some?)
  }

  /** The renewal date is the anchor, plus the pushes still standing, plus what refunds left. */
  ghost predicate Balanced(start: Option<Instant>, a: Account) {
    a.subscription.Some? ==>
      match a.subscription.value.renewsAt
      case None => start.None? && !HasExtension(a.ledger) && Residue(a.ledger) == 0
      case Some(date) =>
        && (start.Some? || HasExtension(a.ledger))
        && date == Anchor(start, a.ledger) + LivePushes(a.ledger, RefundedIds(a.ledger)) + Residue(a.ledger)
  }

  // ----- The sums under an appended row -----

  lemma {:induction false} RefundedIdsFind(ledger: seq<Entry>, id: string)
    ensures id in RefundedIds(ledger) <==> Has(ledger, RefundRef(id))
    decreases |ledger|
  {
    if ledger != [] { RefundedIdsFind(Front(ledger), id); }
  }

  lemma {:induction false} LivePushesLess(ledger: seq<Entry>, refunded: set<string>, id: string)
    requires id !in refunded
    ensures LivePushes(ledger, refunded + {id}) == LivePushes(ledger, refunded) - PushesOf(ledger, id)
    decreases |ledger|
  {
    if ledger != [] { LivePushesLess(Front(ledger), refunded, id); }
  }

  /** A row is found where it stands, so what is well formed is found well formed. */
  lemma {:induction false} FindWellFormed(ledger: seq<Entry>, ref: Ref)
    requires AllWellFormed(ledger)
    ensures Has(ledger, ref) ==> WellFormed(Find(ledger, ref).value) && Find(ledger, ref).value.ref == ref
    decreases |ledger|
  {
    if ledger != [] {
      assert WellFormed(Last(ledger));
      FindWellFormed(Front(ledger), ref);
    }
  }

  /** A reference nobody mentions has moved nothing. */
  lemma {:induction false} NoEntryNoPush(ledger: seq<Entry>, id: string)
    requires !Has(ledger, PaymentRef(id)) && !Has(ledger, AcceptedRef(id)) && AllWellFormed(ledger)
    ensures PushesOf(ledger, id) == 0
    decreases |ledger|
  {
    if ledger != [] {
      assert WellFormed(Last(ledger));
      NoEntryNoPush(Front(ledger), id);
    }
  }

  /** A new credit row: what every sum becomes. */
  lemma AppendCredit(start: Option<Instant>, ledger: seq<Entry>, e: Entry)
    requires e.Credit? && WellFormed(e) && AllWellFormed(ledger)
    ensures var ledger' := ledger + [e];
      && AllWellFormed(ledger')
      && RefundedIds(ledger') == RefundedIds(ledger)
      && LivePushes(ledger', RefundedIds(ledger'))
         == LivePushes(ledger, RefundedIds(ledger)) + (if e.ref.id in RefundedIds(ledger) then 0 else PushOfEntry(e))
      && Residue(ledger') == Residue(ledger)
      && (HasExtension(ledger') <==> HasExtension(ledger) || e.extension.Some?)
      && (HasExtension(ledger) || start.Some? || e.extension.None? ==> Anchor(start, ledger') == Anchor(start, ledger))
      && (!HasExtension(ledger) && start.None? && e.extension.Some? ==>
            Anchor(start, ledger') == e.extension.value.to - e.extension.value.days * DAY)
  {
    assert Front(ledger + [e]) == ledger && Last(ledger + [e]) == e;
  }

  /** A new refund row: the pushes of its reference stop counting, and its residue starts to. */
  lemma AppendReversal(start: Option<Instant>, ledger: seq<Entry>, e: Entry)
    requires e.Reversal? && WellFormed(e) && AllWellFormed(ledger) && !Has(ledger, e.ref)
    ensures var ledger' := ledger + [e];
      && AllWellFormed(ledger')
      && LivePushes(ledger', RefundedIds(ledger'))
         == LivePushes(ledger, RefundedIds(ledger)) - PushesOf(ledger, e.ref.id)
      && Residue(ledger') == Residue(ledger) + ResidueOf(ledger, e)
      && HasExtension(ledger') == HasExtension(ledger)
      && Anchor(start, ledger') == Anchor(start, ledger)
  {
    assert Front(ledger + [e]) == ledger && Last(ledger + [e]) == e;
    RefundedIdsFind(ledger, e.ref.id);
    LivePushesLess(ledger, RefundedIds(ledger), e.ref.id);
  }

  lemma {:induction false} NoExtensionNoPush(ledger: seq<Entry>, refunded: set<string>)
    requires !HasExtension(ledger)
    ensures LivePushes(ledger, refunded) == 0
    ensures forall id :: PushesOf(ledger, id) == 0
    decreases |ledger|
  {
    if ledger != [] { NoExtensionNoPush(Front(ledger), refunded); }
  }

  // ----- Preservation -----

  /** Reference by reference, a credit row added under `ref`. */
  lemma PushesAfterCredit(ledger: seq<Entry>, e: Entry, id: string)
    requires e.Credit? && WellFormed(e) && AllWellFormed(ledger) && OnePushEach(ledger) && AcceptedOnlyWhenShort(ledger)
    requires !Has(ledger, e.ref)
    requires e.ref.AcceptedRef? ==> ShortPayment(ledger, e.ref.id)
    ensures var ledger' := ledger + [e];
      PushesOf(ledger', id) == (if ExtensionOf(ledger', id).Some? then Push(ExtensionOf(ledger', id).value) else 0)
  {
    var ledger' := ledger + [e];
    assert Front(ledger') == ledger && Last(ledger') == e;
    FindAppend(ledger, e, PaymentRef(id));
    FindAppend(ledger, e, AcceptedRef(id));
    FindWellFormed(ledger, PaymentRef(id));
    FindWellFormed(ledger, AcceptedRef(id));
    assert PushesOf(ledger, id) == (if ExtensionOf(ledger, id).Some? then Push(ExtensionOf(ledger, id).value) else 0);
    if e.ref == PaymentRef(id) {
      assert !Has(ledger, AcceptedRef(id));
      NoEntryNoPush(ledger, id);
    }
  }

  /** The row a recorded payment adds, and what it says of the date. */
  lemma RecordedRow(a: Account, ref: Ref, amount: int, allow: bool, now: Instant, terms: Terms) returns (e: Entry)
    requires RecordPayment(a, ref, amount, allow, now, terms).1.Recorded?
    ensures var b := RecordPayment(a, ref, amount, allow, now, terms).0;
      && !Has(a.ledger, ref) && e.Credit? && e.ref == ref
      && e.underpaid == RecordPayment(a, ref, amount, allow, now, terms).1.underpaid
      && (e.underpaid ==> !allow && e.extension.None?) && (e.extension.Some? ==> Lapse(e.extension.value) >= 0)
      && b.ledger == a.ledger + [e] && b.charges == a.charges && b.invoices == a.invoices
      && a.subscription.Some? && b.subscription.Some?
      && match e.extension
         case None => b.subscription.value.renewsAt == a.subscription.value.renewsAt
         case Some(x) => x.from == a.subscription.value.renewsAt && b.subscription.value.renewsAt == Some(x.to)
  {
    e := Last(RecordPayment(a, ref, amount, allow, now, terms).0.ledger);
  }

  /** The row a refund adds. */
  lemma ReversedRow(a: Account, id: string) returns (e: Entry)
    requires ReversePayment(a, id).1.Reversed?
    ensures var b := ReversePayment(a, id).0;
      && !Has(a.ledger, RefundRef(id)) && Has(a.ledger, PaymentRef(id)) && e.Reversal? && e.ref == RefundRef(id)
      && b.ledger == a.ledger + [e] && b.charges == a.charges && b.invoices == a.invoices
      && a.subscription.Some? && b.subscription.Some?
      && e.before == a.subscription.value.renewsAt && e.after == b.subscription.value.renewsAt
      && e.after == RenewsAfterRefund(a.subscription.value, ExtensionOf(a.ledger, id)) && e.before.Some? == e.after.Some?
  {
    e := Last(ReversePayment(a, id).0.ledger);
  }

  lemma CreditKeeps(start: Option<Instant>, a: Account, ref: Ref, amount: int, allow: bool, now: Instant, terms: Terms)
    requires Good(a) && Balanced(start, a)
    requires !ref.RefundRef? && !Has(a.ledger, RefundRef(ref.id))
    requires ref.AcceptedRef? ==> allow && ShortPayment(a.ledger, ref.id)
    ensures var a' := RecordPayment(a, ref, amount, allow, now, terms).0; Good(a') && Balanced(start, a')
  {
    var (a', result) := RecordPayment(a, ref, amount, allow, now, terms);
    if result.Recorded? {
      var e := RecordedRow(a, ref, amount, allow, now, terms);
      FindWellFormed(a.ledger, PaymentRef(ref.id));
      assert WellFormed(e);
      AppendCredit(start, a.ledger, e);
      RefundedIdsFind(a.ledger, ref.id);
      if !HasExtension(a.ledger) { NoExtensionNoPush(a.ledger, RefundedIds(a.ledger)); }
      forall id: string ensures PushesOf(a'.ledger, id) ==
        (if ExtensionOf(a'.ledger, id).Some? then Push(ExtensionOf(a'.ledger, id).value) else 0)
      {
        PushesAfterCredit(a.ledger, e, id);
      }
      FindsAfter(a.ledger, e);
    }
  }

  /** Every lookup after a row is appended. */
  lemma FindsAfter(ledger: seq<Entry>, e: Entry)
    ensures forall ref :: Find(ledger + [e], ref) == if e.ref == ref then Some(e) else Find(ledger, ref)
  {
    forall ref ensures Find(ledger + [e], ref) == if e.ref == ref then Some(e) else Find(ledger, ref) {
      FindAppend(ledger, e, ref);
    }
  }

  /** How far a refund takes the date back: the push of its payment, less what stays of it. */
  lemma ReversedDate(a: Account, id: string)
    requires OnePushEach(a.ledger) && ReversePayment(a, id).1.Reversed?
    ensures a.subscription.value.renewsAt.Some? ==>
      var date, x := a.subscription.value.renewsAt.value, ExtensionOf(a.ledger, id);
      RenewsAfterRefund(a.subscription.value, x)
        == Some(date - PushesOf(a.ledger, id) + if x.Some? then LeftBehind(date, x.value) else 0)
  {
    assert PushesOf(a.ledger, id) == (if ExtensionOf(a.ledger, id).Some? then Push(ExtensionOf(a.ledger, id).value) else 0);
  }

  lemma ReversalKeeps(start: Option<Instant>, a: Account, id: string)
    requires Good(a) && Balanced(start, a)
    requires id in a.charges ==> a.charges[id].status == Refunded || a.charges[id].status == Paid
    ensures var a' := ReversePayment(a, id).0; Good(a') && Balanced(start, a')
  {
    var (a', result) := ReversePayment(a, id);
    if result.Reversed? {
      var e := ReversedRow(a, id);
      AppendReversal(start, a.ledger, e);
      FindsAfter(a.ledger, e);
      ReversedDate(a, id);
      assert Front(a'.ledger) == a.ledger;
      assert forall r: string :: PushesOf(a'.ledger, r) == PushesOf(a.ledger, r);
      assert forall r: string :: ExtensionOf(a'.ledger, r) == ExtensionOf(a.ledger, r);
    }
  }

  /** Labels and the invoice queue do not enter the account of the date. */
  lemma LabelKeeps(start: Option<Instant>, a: Account, b: Account)
    requires Good(a) && Balanced(start, a)
    requires b.subscription == a.subscription && b.ledger == a.ledger
    requires RefundsAreLabelled(b)
    ensures Good(b) && Balanced(start, b)
  {
  }

  /** Recording adds at most the one reference, and touches no label. */
  lemma RecordFinds(a: Account, ref: Ref, amount: int, allow: bool, now: Instant, terms: Terms)
    ensures var a' := RecordPayment(a, ref, amount, allow, now, terms).0;
      && a'.charges == a.charges && a'.invoices == a.invoices
      && (forall r: Ref | r != ref :: Find(a'.ledger, r) == Find(a.ledger, r))
      && (a'.ledger != a.ledger ==> !Has(a.ledger, ref) && Has(a'.ledger, ref))
  {
    var (a', result) := RecordPayment(a, ref, amount, allow, now, terms);
    if result.Recorded? {
      var e := RecordedRow(a, ref, amount, allow, now, terms);
      FindsAfter(a.ledger, e);
    }
  }

  lemma PaymentKeeps(start: Option<Instant>, a: Account, id: string, amount: int, now: Instant, terms: Terms, steps: nat)
    requires Good(a) && Balanced(start, a)
    ensures var b := OnPayment(a, id, amount, now, terms, steps); Good(b) && Balanced(start, b)
  {
    if !Has(a.ledger, RefundRef(id)) && steps != 0 {
      CreditKeeps(start, a, PaymentRef(id), amount, false, now, terms);
      RecordFinds(a, PaymentRef(id), amount, false, now, terms);
      LabelKeeps(start, RecordPayment(a, PaymentRef(id), amount, false, now, terms).0,
                 OnPayment(a, id, amount, now, terms, steps));
    }
  }

  lemma RefundKeeps(start: Option<Instant>, a: Account, id: string, partial: bool, steps: nat)
    requires Good(a) && Balanced(start, a)
    ensures var b := OnRefund(a, id, partial, steps); Good(b) && Balanced(start, b)
  {
    var labelled := Relabel(a, id, Refunded);
    LabelKeeps(start, a, labelled);
    ReversalKeeps(start, labelled, id);
  }

  lemma AcceptKeeps(start: Option<Instant>, a: Account, id: string, now: Instant, terms: Terms, steps: nat)
    requires Good(a) && Balanced(start, a)
    ensures var b := OnAccept(a, id, now, terms, steps); Good(b) && Balanced(start, b)
  {
    if OnAccept(a, id, now, terms, steps) != a {
      assert !Has(a.ledger, RefundRef(id));
      if ShortPayment(a.ledger, id) {
        CreditKeeps(start, a, AcceptedRef(id), 0, true, now, terms);
        RecordFinds(a, AcceptedRef(id), 0, true, now, terms);
        LabelKeeps(start, RecordPayment(a, AcceptedRef(id), 0, true, now, terms).0, OnAccept(a, id, now, terms, steps));
      } else {
        LabelKeeps(start, a, OnAccept(a, id, now, terms, steps));
      }
    }
  }

  lemma ConsoleRefundKeeps(start: Option<Instant>, a: Account, id: string, steps: nat)
    requires Good(a) && Balanced(start, a)
    ensures var b := OnConsoleRefund(a, id, steps); Good(b) && Balanced(start, b)
  {
    if id in a.charges && a.charges[id].status == Paid {
      ReversalKeeps(start, a, id);
      var reversed := ReversePayment(a, id).0;
      LabelKeeps(start, reversed, SetLabel(reversed, id, Refunded));
    }
  }

  lemma ApplyKeeps(start: Option<Instant>, a: Account, ev: Event)
    requires Good(a) && Balanced(start, a)
    ensures Good(Apply(a, ev)) && Balanced(start, Apply(a, ev))
  {
    match ev
    case PaymentIn(id, amount, now, terms, steps) => PaymentKeeps(start, a, id, amount, now, terms, steps);
    case MarkedOverdue(id) => LabelKeeps(start, a, Relabel(a, id, Overdue));
    case MarkedCanceled(id) => LabelKeeps(start, a, Relabel(a, id, Canceled));
    case RefundedIn(id, partial, steps) => RefundKeeps(start, a, id, partial, steps);
    case ConsoleAccept(id, now, terms, steps) => AcceptKeeps(start, a, id, now, terms, steps);
    case ConsoleRefund(id, steps) => ConsoleRefundKeeps(start, a, id, steps);
    case Issue(id, amount, side) => LabelKeeps(start, a, OnIssue(a, id, amount, side));
  }

  /** An account whose ledger is still empty. */
  ghost predicate Fresh(a: Account) {
    a.ledger == [] && a.invoices == []
  }

  function Start(a: Account): Option<Instant> {
    if a.subscription.Some? then a.subscription.value.renewsAt else None
  }

  lemma {:induction false} RunKeeps(start: Option<Instant>, a: Account, events: seq<Event>)
    requires Good(a) && Balanced(start, a)
    ensures Good(Run(a, events)) && Balanced(start, Run(a, events))
    decreases |events|
  {
    if events != [] {
      ApplyKeeps(start, a, events[0]);
      RunKeeps(start, Apply(a, events[0]), events[1..]);
    }
  }

  /**
   * Conservation. After any run - duplicates, reorderings, a crash after any
   * write and the redelivery that follows, the console in between - the renewal
   * date is where it started, plus the push of every reference that stands
   * unrefunded, each counted once, plus what the refunds left in place.
   */
  lemma Conservation(a: Account, events: seq<Event>)
    requires Fresh(a)
    ensures Good(Run(a, events)) && Balanced(Start(a), Run(a, events))
  {
    RunKeeps(Start(a), a, events);
  }
}
