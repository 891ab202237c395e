/**
 * Whose money a delivery is, and the controller that carries it out:
 * `resolveTenantDaEntrega`, `receive` and `atualizarCiclo`.
 */
module BillingWebhook {
  import opened Prelude
  import opened Decimal
  import opened BillingAccount

  // ----- Attribution -----

  datatype TenantRow = TenantRow(id: nat, active: bool, gateway: string, customerRef: string)

  const REFERENCE_PREFIX := "tenant:"

  /** The provider named by a reference of the form `tenant:<id>` or `tenant:<id>:<anything>`. */
  function ReferencedTenant(reference: string): Option<nat> {
    if REFERENCE_PREFIX <= reference then
      var rest := reference[|REFERENCE_PREFIX|..];
      var n := DigitRun(rest);
      if n > 0 && (n == |rest| || rest[n] == ':') then Some(FromDecimal(rest[..n])) else None
    else None
  }

  /** The reference the panel writes when it issues a charge. */
  function IssuedReference(id: nat, suffix: string): string {
    REFERENCE_PREFIX + ToDecimal(id) + (if suffix == "" then "" else ":" + suffix)
  }

  function First(tenants: seq<TenantRow>, wanted: TenantRow -> bool): Option<TenantRow> {
    if tenants == [] then None
    else if wanted(tenants[0]) then Some(tenants[0])
    else First(tenants[1..], wanted)
  }

  function IfActive(row: Option<TenantRow>): Option<nat> {
    if row.Some? && row.value.active then Some(row.value.id) else None
  }

  /** The panel's own reference decides when there is one; the gateway's customer only when there is none. */
  function ResolveTenant(tenants: seq<TenantRow>, reference: string, customerRef: string, gateway: string): Option<nat> {
    var named := ReferencedTenant(reference);
    if named.Some? then IfActive(First(tenants, (t: TenantRow) => t.id == named.value))
    else if customerRef != "" then
      IfActive(First(tenants, (t: TenantRow) => t.gateway == gateway && t.customerRef == customerRef))
    else None
  }

  /** What the panel writes on a charge is read back as the provider it was issued to, whatever the suffix. */
  lemma ReferenceRoundTrip(id: nat, suffix: string)
    ensures ReferencedTenant(IssuedReference(id, suffix)) == Some(id)
  {
    DecimalRoundTrip(id);
    var tail := if suffix == "" then "" else ":" + suffix;
    var reference := IssuedReference(id, suffix);
    assert reference[|REFERENCE_PREFIX|..] == ToDecimal(id) + tail;
    DigitRunOf(ToDecimal(id), tail);
    assert (ToDecimal(id) + tail)[..|ToDecimal(id)|] == ToDecimal(id);
  }

  lemma {:induction false} FirstFinds(tenants: seq<TenantRow>, wanted: TenantRow -> bool)
    ensures match First(tenants, wanted)
      case Some(t) => t in tenants && wanted(t)
      case None => forall t | t in tenants :: !wanted(t)
  {
    if tenants != [] { FirstFinds(tenants[1..], wanted); }
  }

  /** Money issued to a provider goes to that provider while it is active and to nobody otherwise. */
  lemma OwnReferenceWins(tenants: seq<TenantRow>, id: nat, suffix: string, customerRef: string, gateway: string)
    requires forall i, j | 0 <= i < |tenants| && 0 <= j < |tenants| && tenants[i].id == tenants[j].id :: i == j
    ensures var r := ResolveTenant(tenants, IssuedReference(id, suffix), customerRef, gateway);
      r == if exists t | t in tenants :: t.id == id && t.active then Some(id) else None
  {
    ReferenceRoundTrip(id, suffix);
    FirstFinds(tenants, (t: TenantRow) => t.id == id);
  }

  /** Nothing is credited to a provider that is not active. */
  lemma ResolvedIsActive(tenants: seq<TenantRow>, reference: string, customerRef: string, gateway: string)
    ensures var r := ResolveTenant(tenants, reference, customerRef, gateway);
      r.Some? ==> exists t | t in tenants :: t.id == r.value && t.active
  {
    var named := ReferencedTenant(reference);
    if named.Some? {
      FirstFinds(tenants, (t: TenantRow) => t.id == named.value);
    }
    FirstFinds(tenants, (t: TenantRow) => t.gateway == gateway && t.customerRef == customerRef);
  }

  /** A reference written this way: the prefix, the digits of an id, and nothing more or a colon and anything. */
  predicate Spells(reference: string, digits: string, tail: string) {
    && digits != "" && AllDigits(digits) && (tail == "" || tail[0] == ':')
    && reference == "tenant:" + digits + tail
  }

  /** A reference names a provider if and only if it is spelled so, and then the one its digits say. */
  lemma ReferenceNames(reference: string, id: nat)
    ensures ReferencedTenant(reference) == Some(id)
            <==> exists digits, tail :: Spells(reference, digits, tail) && FromDecimal(digits) == id
  {
    if ReferencedTenant(reference) == Some(id) {
      var rest := reference[|REFERENCE_PREFIX|..];
      var n := DigitRun(rest);
      assert reference == "tenant:" + rest && rest == rest[..n] + rest[n..];
      assert "tenant:" + (rest[..n] + rest[n..]) == "tenant:" + rest[..n] + rest[n..];
      assert Spells(reference, rest[..n], rest[n..]);
    }
    if digits, tail :| Spells(reference, digits, tail) && FromDecimal(digits) == id {
      assert reference == REFERENCE_PREFIX + (digits + tail);
      assert reference[|REFERENCE_PREFIX|..] == digits + tail;
      DigitRunOf(digits, tail);
      assert (digits + tail)[..|digits|] == digits;
    }
  }

  /** The first row of a kind: none before it is of that kind. */
  lemma {:induction false} FirstIsFirst(tenants: seq<TenantRow>, wanted: TenantRow -> bool, i: nat)
    requires i < |tenants| && wanted(tenants[i]) && forall j | 0 <= j < i :: !wanted(tenants[j])
    ensures First(tenants, wanted) == Some(tenants[i])
  {
    if i > 0 {
      assert forall j | 0 <= j < i - 1 :: tenants[1..][j] == tenants[j + 1];
      FirstIsFirst(tenants[1..], wanted, i - 1);
    }
  }

  /** Where the reference names nobody, the gateway's customer decides: the first provider it is linked to, while active. */
  lemma CustomerDecidesOtherwise(tenants: seq<TenantRow>, reference: string, customerRef: string, gateway: string, i: nat)
    requires ReferencedTenant(reference) == None && customerRef != ""
    requires i < |tenants| && tenants[i].gateway == gateway && tenants[i].customerRef == customerRef
    requires forall j | 0 <= j < i :: tenants[j].gateway != gateway || tenants[j].customerRef != customerRef
    ensures ResolveTenant(tenants, reference, customerRef, gateway) == if tenants[i].active then Some(tenants[i].id) else None
    ensures gateway == "asaas" ==> forall event ::
      Owner(tenants, Delivery(reference, customerRef, event)) == if tenants[i].active then Some(tenants[i].id) else None
  {
    FirstIsFirst(tenants, (t: TenantRow) => t.gateway == gateway && t.customerRef == customerRef, i);
  }

  /** And where it names nobody and no provider is linked to the customer, nobody is credited. */
  lemma NobodyOtherwise(tenants: seq<TenantRow>, reference: string, customerRef: string, gateway: string)
    requires ReferencedTenant(reference) == None
    requires customerRef == "" || forall t | t in tenants :: t.gateway != gateway || t.customerRef != customerRef
    ensures ResolveTenant(tenants, reference, customerRef, gateway) == None
  {
    FirstFinds(tenants, (t: TenantRow) => t.gateway == gateway && t.customerRef == customerRef);
  }

  // ----- Many providers behind one webhook -----

  /** A delivery, with what says whose it is. */
  datatype Delivery = Delivery(reference: string, customerRef: string, event: Event)

  type Accounts = map<nat, Account>

  function Owner(tenants: seq<TenantRow>, d: Delivery): Option<nat> {
    ResolveTenant(tenants, d.reference, d.customerRef, "asaas")
  }

  function Deliver(tenants: seq<TenantRow>, accounts: Accounts, d: Delivery): Accounts {
    var owner := Owner(tenants, d);
    if owner.Some? && owner.value in accounts
    then accounts[owner.value := Apply(accounts[owner.value], d.event)]
    else accounts
  }

  function DeliverAll(tenants: seq<TenantRow>, accounts: Accounts, ds: seq<Delivery>): Accounts
    decreases |ds|
  {
    if ds == [] then accounts else DeliverAll(tenants, Deliver(tenants, accounts, ds[0]), ds[1..])
  }

  /** The events of the deliveries attributed to one provider, in order. */
  function EventsOf(tenants: seq<TenantRow>, ds: seq<Delivery>, t: nat): seq<Event> {
    if ds == [] then []
    else (if Owner(tenants, ds[0]) == Some(t) then [ds[0].event] else []) + EventsOf(tenants, ds[1..], t)
  }

  /** However the deliveries of different providers interleave, each account sees its own and nothing else. */
  lemma {:induction false} AccountsAreIndependent(tenants: seq<TenantRow>, accounts: Accounts, ds: seq<Delivery>, t: nat)
    requires t in accounts
    ensures t in DeliverAll(tenants, accounts, ds)
    ensures DeliverAll(tenants, accounts, ds)[t] == Run(accounts[t], EventsOf(tenants, ds, t))
    decreases |ds|
  {
    if ds != [] {
      var next := Deliver(tenants, accounts, ds[0]);
      AccountsAreIndependent(tenants, next, ds[1..], t);
      var rest := EventsOf(tenants, ds[1..], t);
      if Owner(tenants, ds[0]) == Some(t) {
        assert EventsOf(tenants, ds, t) == [ds[0].event] + rest;
        assert ([ds[0].event] + rest)[1..] == rest;
      } else {
        assert EventsOf(tenants, ds, t) == rest;
      }
    }
  }

  // ----- The controller -----

  datatype PaymentCode = RecordFailed | RefundedReference | DuplicateDelivery | UnderpaidDelivery | RecordedDelivery

  datatype CycleCode = NoCharge | Unchanged | ChargeUpdated | PartialRefund

  /** One provider's account while its delivery is carried out. */
  class Desk {
    var subscription: Option<Subscription>
    var charges: map<string, Charge>
    var ledger: seq<Entry>
    var invoices: seq<string>

    constructor (a: Account)
      ensures Books() == a
    {
      subscription, charges, ledger, invoices := a.subscription, a.charges, a.ledger, a.invoices;
    }

    function Books(): Account
      reads this
    {
      Account(subscription, charges, ledger, invoices)
    }

    method Record(ref: Ref, amount: int, allowUnderpayment: bool, now: Instant, terms: Terms) returns (result: RecordResult)
      modifies this
      ensures (Books(), result) == RecordPayment(old(Books()), ref, amount, allowUnderpayment, now, terms)
    {
      if subscription == None { return NoSubscription; }
      if amount < 0 { return BadAmount; }
      var known := Find(ledger, ref);
      if known.Some? { return Duplicate; }
      var sub := subscription.value;
      var (asked, side) := Asked(Books(), ref, terms);
      var underpaid := asked.Some? && amount < asked.value && !terms.early && !allowUnderpayment;
      var extension := None;
      if !underpaid && !side && Extends(sub.standing) {
        var base := now;
        if sub.renewsAt.Some? && sub.renewsAt.value > now { base := sub.renewsAt.value; }
        var date := base + terms.days * DAY;
        extension := Some(Extension(sub.renewsAt, date, terms.days));
        if sub.standing == Suspended(true) && terms.stillOwes {
          subscription := Some(Subscription(sub.standing, Some(date)));
        } else {
          subscription := Some(Subscription(Live, Some(date)));
        }
      } else if side && !underpaid && !terms.stillOwes && sub.standing == Suspended(true) {
        subscription := Some(sub.(standing := Live));
      }
      ledger := ledger + [Credit(ref, amount, underpaid, extension)];
      result := Recorded(underpaid);
    }

    method Reverse(id: string) returns (result: ReverseResult)
      modifies this
      ensures (Books(), result) == ReversePayment(old(Books()), id)
    {
      if subscription == None { return NothingToReverse; }
      var mark := Find(ledger, RefundRef(id));
      if mark.Some? { return AlreadyReversed; }
      var payment := Find(ledger, PaymentRef(id));
      if payment.None? { return NoPayment; }
      var sub := subscription.value;
      var x := ExtensionOf(ledger, id);
      var date := sub.renewsAt;
      if x.Some? && date.Some? {
        if x.value.from.Some? && Near(date.value, x.value.to) {
          date := x.value.from;
        } else {
          date := Some(date.value - x.value.days * DAY);
        }
      }
      ledger := ledger + [Reversal(RefundRef(id), sub.renewsAt, date)];
      subscription := Some(sub.(renewsAt := date));
      result := Reversed;
    }

    /** `marcarCobrancaPaga`: writes only when the charge is there and not paid already. */
    method MarkPaid(id: string)
      modifies this
      ensures Books() == Settle(old(Books()), id)
    {
      if id in charges && charges[id].status != Paid {
        charges := charges[id := charges[id].(status := Paid)];
      }
    }

    method Enqueue(id: string, terms: Terms)
      modifies this
      ensures Books() == QueueInvoice(old(Books()), id, terms)
    {
      if id in charges && charges[id].status == Paid && terms.invoicing && id !in invoices {
        invoices := invoices + [id];
      }
    }

    /** The payment branch of `receive`. */
    method Receive(id: string, amount: int, now: Instant, terms: Terms) returns (code: PaymentCode)
      modifies this
      ensures Books() == Apply(old(Books()), PaymentIn(id, amount, now, terms, WHOLE))
      ensures code == RefundedReference <==> Has(old(ledger), RefundRef(id))
      ensures code == DuplicateDelivery ==> Has(old(ledger), PaymentRef(id)) && ledger == old(ledger)
      ensures code == RecordedDelivery || code == UnderpaidDelivery ==>
        !Has(old(ledger), PaymentRef(id)) && |ledger| == |old(ledger)| + 1
      ensures code == RecordedDelivery && id in charges ==> charges[id].status == Paid
      ensures code == UnderpaidDelivery ==> charges == old(charges) && subscription == old(subscription)
      ensures code == RecordFailed ==> Books() == old(Books())
    {
      var refunded := Find(ledger, RefundRef(id));
      if refunded.Some? { return RefundedReference; }
      var result := Record(PaymentRef(id), amount, false, now, terms);
      match result {
        case NoSubscription => code := RecordFailed;
        case BadAmount => code := RecordFailed;
        case Duplicate =>
          Enqueue(id, terms);
          code := DuplicateDelivery;
        case Recorded(underpaid) =>
          if underpaid {
            code := UnderpaidDelivery;
          } else {
            MarkPaid(id);
            Enqueue(id, terms);
            code := RecordedDelivery;
          }
      }
    }

    method ChangeLabel(id: string, to: ChargeStatus) returns (code: CycleCode)
      modifies this
      ensures Books() == Relabel(old(Books()), id, to)
      ensures code == NoCharge <==> id !in old(charges)
      ensures code == ChargeUpdated <==> id in old(charges) && MayBecome(old(charges)[id].status, to)
      ensures code != PartialRefund
    {
      if id !in charges { return NoCharge; }
      if !MayBecome(charges[id].status, to) { return Unchanged; }
      charges := charges[id := charges[id].(status := to)];
      code := ChargeUpdated;
    }

    /** `atualizarCiclo` for a refund: nothing for a partial one, otherwise the label and then the period. */
    method RefundNotice(id: string, partial: bool) returns (code: CycleCode, reversal: Option<ReverseResult>)
      modifies this
      ensures Books() == Apply(old(Books()), RefundedIn(id, partial, WHOLE))
      ensures partial <==> code == PartialRefund
      ensures partial <==> reversal.None?
      ensures reversal == Some(Reversed) ==> !Has(old(ledger), RefundRef(id)) && Has(old(ledger), PaymentRef(id))
    {
      if partial { return PartialRefund, None; }
      code := ChangeLabel(id, Refunded);
      var done := Reverse(id);
      reversal := Some(done);
    }
  }
}
