/**
 * payment-demo.ts: the pretend payment provider, as a state machine.
 *
 * One `State` holds what the backend's closure holds; every public operation and every HTTP route is a function from
 * state to state, read at one instant `at`. `DemoBackend` implements them by assignment, and the theorems are about
 * these functions and their runs.
 */
module PaymentDemo {
  import opened Wrappers
  import PaymentMoney
  import Digits

  /** Milliseconds. */
  type Time = int

  // ---- records ------------------------------------------------------------

  datatype Prefix = Cs | Pay | Evt | Re | Dash

  /** What `demoId(prefix)` gave at its `draw`-th call; distinct draws are assumed distinct. Any other text a caller sends is a draw not made yet. */
  datatype Id = Id(prefix: Prefix, draw: nat)

  datatype CheckoutStatus = Pending | RequiresAction | Processing | Succeeded | Failed | Cancelled | Expired

  datatype RefundStatus = RefundPending | RefundSucceeded | RefundFailed | RefundCancelled

  datatype PaidWith = PaidWith(methodId: string, named: string, delayed: bool)

  datatype Checkout = Checkout(
    id: Id,
    attemptId: string,
    amount: string,
    currency: string,
    methods: seq<string>,
    status: CheckoutStatus,
    takenAmount: Option<string>,
    takenCurrency: Option<string>,
    paymentRef: Option<Id>,
    paidWith: Option<PaidWith>,
    settledAt: Option<Time>,
    settleAt: Option<Time>,
    failureMessage: Option<string>,
    expiresAt: Time,
    key: string,
    successUrl: Option<string>)

  /** A refund asked through the API carries the caller's key; one made in the dashboard, a drawn one. */
  datatype Key = Given(text: string) | Drawn(id: Id)

  datatype Refund = Refund(
    id: Id,
    paymentRef: Id,
    amount: string,
    currency: string,
    status: RefundStatus,
    failureMessage: Option<string>,
    settleAt: Time,
    key: Key)

  /** `checkout.created` is `CheckoutIs(Pending)`, `checkout.succeeded` is `CheckoutIs(Succeeded)`, and so on. */
  datatype EventType = CheckoutIs(checkout: CheckoutStatus) | RefundIs(refund: RefundStatus) | DisputeCreated | DisputeClosed

  datatype EventKind = OfCheckout | OfRefund | OfDispute

  datatype Event = Event(
    id: Id,
    what: EventType,
    kind: EventKind,
    checkoutRef: Option<Id>,
    paymentRef: Option<Id>,
    refundRef: Option<Id>,
    occurredAt: Time)

  datatype Logged = Logged(event: Event, delivered: bool)

  datatype Config = Config(settleAfter: nat, lifetime: nat, keepPaid: nat)

  /** A JavaScript Map is a sequence in insertion order, or a map where the order is never read. */
  datatype State = State(
    checkouts: seq<Checkout>,
    checkoutByKey: map<string, Id>,
    refunds: seq<Refund>,
    refundByKey: map<string, Id>,
    events: seq<Logged>,
    forgotAt: Option<Time>,
    drawn: nat,
    history: seq<Event>,  // every event ever emitted: never read by an operation
    clock: Time)          // the instant of the last operation: never read by an operation

  const FORGET_EVERY_MS: Time := 60000
  const PAGE_MAX := 100

  const CARD := PaidWith("card", "Demo card ••4242", false)
  const BANK_DEBIT := PaidWith("bank_debit", "Demo bank debit", true)

  function Initial(clock: Time): State {
    State([], map[], [], map[], [], None, 0, [], clock)
  }

  // ---- lookups ------------------------------------------------------------

  /** `checkouts.get(id)`: its place, or the length when there is none. */
  function CheckoutIndex(cs: seq<Checkout>, id: Id): (i: nat)
    ensures i <= |cs|
    ensures i < |cs| ==> cs[i].id == id
    ensures forall k :: 0 <= k < i ==> cs[k].id != id
  {
    if cs == [] then 0 else if cs[0].id == id then 0 else 1 + CheckoutIndex(cs[1..], id)
  }

  /** `[...checkouts.values()].find((one) => one.paymentRef === ref)`. */
  function PaymentIndex(cs: seq<Checkout>, ref: Id): (i: nat)
    ensures i <= |cs|
    ensures i < |cs| ==> cs[i].paymentRef == Some(ref)
    ensures forall k :: 0 <= k < i ==> cs[k].paymentRef != Some(ref)
  {
    if cs == [] then 0 else if cs[0].paymentRef == Some(ref) then 0 else 1 + PaymentIndex(cs[1..], ref)
  }

  function AttemptIndex(cs: seq<Checkout>, attemptId: string): (i: nat)
    ensures i <= |cs|
    ensures i < |cs| ==> cs[i].attemptId == attemptId
    ensures forall k :: 0 <= k < i ==> cs[k].attemptId != attemptId
  {
    if cs == [] then 0 else if cs[0].attemptId == attemptId then 0 else 1 + AttemptIndex(cs[1..], attemptId)
  }

  function RefundIndex(rs: seq<Refund>, id: Id): (i: nat)
    ensures i <= |rs|
    ensures i < |rs| ==> rs[i].id == id
    ensures forall k :: 0 <= k < i ==> rs[k].id != id
  {
    if rs == [] then 0 else if rs[0].id == id then 0 else 1 + RefundIndex(rs[1..], id)
  }

  function EventIndex(es: seq<Logged>, id: Id): (i: nat)
    ensures i <= |es|
    ensures i < |es| ==> es[i].event.id == id
    ensures forall k :: 0 <= k < i ==> es[k].event.id != id
  {
    if es == [] then 0 else if es[0].event.id == id then 0 else 1 + EventIndex(es[1..], id)
  }

  // ---- emitting and ageing ------------------------------------------------

  function EventFor(draw: nat, what: EventType, kind: EventKind, checkout: Option<Checkout>, refund: Option<Refund>, at: Time): (e: Event)
    ensures e.id == Id(Evt, draw) && e.what == what && e.kind == kind && e.occurredAt == at
    ensures e.checkoutRef == (if checkout.Some? then Some(checkout.value.id) else None)
    ensures e.refundRef == (if refund.Some? then Some(refund.value.id) else None)
  {
    Event(
      Id(Evt, draw), what, kind,
      if checkout.Some? then Some(checkout.value.id) else None,
      if checkout.Some? && checkout.value.paymentRef.Some? then checkout.value.paymentRef
      else if refund.Some? then Some(refund.value.paymentRef) else None,
      if refund.Some? then Some(refund.value.id) else None,
      at)
  }

  function Log(s: State, e: Event): (t: State)
    ensures t.clock == s.clock && t.forgotAt == s.forgotAt
  {
    s.(events := s.events + [Logged(e, false)], history := s.history + [e], drawn := s.drawn + 1)
  }

  function Emit(s: State, what: EventType, kind: EventKind, checkout: Option<Checkout>, refund: Option<Refund>, at: Time): (t: State)
    ensures t.clock == s.clock && t.forgotAt == s.forgotAt
  {
    Log(s, EventFor(s.drawn, what, kind, checkout, refund, at))
  }

  /** Assigns the checkout at `i` and emits the event that names its status. */
  function Change(s: State, i: nat, c: Checkout, at: Time): (t: State)
    requires i < |s.checkouts|
    ensures t.clock == s.clock && t.forgotAt == s.forgotAt
  {
    Emit(s.(checkouts := s.checkouts[i := c]), CheckoutIs(c.status), OfCheckout, Some(c), None, at)
  }

  function ChangeRefund(s: State, j: nat, r: Refund, at: Time): (t: State)
    requires j < |s.refunds|
    ensures t.clock == s.clock && t.forgotAt == s.forgotAt
  {
    Emit(s.(refunds := s.refunds[j := r]), RefundIs(r.status), OfRefund, None, Some(r), at)
  }

  function Age(s: State, i: nat, at: Time): (t: State)
    requires i < |s.checkouts|
    ensures |t.checkouts| == |s.checkouts|
    ensures t.clock == s.clock && t.forgotAt == s.forgotAt
  {
    var c := s.checkouts[i];
    if c.status == Processing && c.settleAt.Some? && at >= c.settleAt.value then
      Change(s, i, c.(status := Succeeded, settledAt := c.settleAt), at)
    else if (c.status == Pending || c.status == RequiresAction) && at >= c.expiresAt then
      Change(s, i, c.(status := Expired), at)
    else s
  }

  function AgeRefund(s: State, j: nat, at: Time): (t: State)
    requires j < |s.refunds|
    ensures |t.refunds| == |s.refunds|
    ensures t.clock == s.clock && t.forgotAt == s.forgotAt
  {
    var r := s.refunds[j];
    if r.status == RefundPending && at >= r.settleAt then ChangeRefund(s, j, r.(status := RefundSucceeded), at) else s
  }

  /** `for (const one of checkouts.values()) age(one)`, from place `i` on. */
  function AgeFrom(s: State, i: nat, at: Time): (t: State)
    requires i <= |s.checkouts|
    ensures t.clock == s.clock && t.forgotAt == s.forgotAt
    decreases |s.checkouts| - i
  {
    if i == |s.checkouts| then s else AgeFrom(Age(s, i, at), i + 1, at)
  }

  function AgeRefundsFrom(s: State, j: nat, at: Time): (t: State)
    requires j <= |s.refunds|
    ensures t.clock == s.clock && t.forgotAt == s.forgotAt
    decreases |s.refunds| - j
  {
    if j == |s.refunds| then s else AgeRefundsFrom(AgeRefund(s, j, at), j + 1, at)
  }

  // ---- forgetting ---------------------------------------------------------

  predicate Over(cfg: Config, c: Checkout, at: Time) {
    if c.status == Succeeded then at > (if c.settledAt.Some? then c.settledAt.value else at) + cfg.keepPaid
    else c.status != Processing && at > c.expiresAt + cfg.lifetime
  }

  function RemoveAt<T>(xs: seq<T>, i: nat): seq<T>
    requires i < |xs|
  {
    xs[..i] + xs[i + 1..]
  }

  function DropCheckout(s: State, i: nat): (t: State)
    requires i < |s.checkouts|
    ensures t.clock == s.clock && t.forgotAt == s.forgotAt
  {
    s.(checkouts := RemoveAt(s.checkouts, i), checkoutByKey := s.checkoutByKey - {s.checkouts[i].key})
  }

  function Gone(gone: set<Id>, c: Checkout): set<Id> {
    if c.paymentRef.Some? then gone + {c.paymentRef.value} else gone
  }

  function DropCheckoutsFrom(cfg: Config, s: State, i: nat, gone: set<Id>, at: Time): (next: (State, set<Id>))
    requires i <= |s.checkouts|
    ensures next.0.clock == s.clock && next.0.forgotAt == s.forgotAt
    decreases |s.checkouts| - i
  {
    if i == |s.checkouts| then (s, gone)
    else
      var t := Age(s, i, at);
      var c := t.checkouts[i];
      if Over(cfg, c, at) then DropCheckoutsFrom(cfg, DropCheckout(t, i), i, Gone(gone, c), at)
      else DropCheckoutsFrom(cfg, t, i + 1, gone, at)
  }

  function DropRefund(s: State, j: nat): (t: State)
    requires j < |s.refunds|
    ensures t.clock == s.clock && t.forgotAt == s.forgotAt
  {
    s.(refunds := RemoveAt(s.refunds, j),
       refundByKey := match s.refunds[j].key case Given(text) => s.refundByKey - {text} case Drawn(_) => s.refundByKey)
  }

  function DropRefundsFrom(s: State, j: nat, gone: set<Id>): (t: State)
    requires j <= |s.refunds|
    ensures t.clock == s.clock && t.forgotAt == s.forgotAt
    decreases |s.refunds| - j
  {
    if j == |s.refunds| then s
    else if s.refunds[j].paymentRef in gone then DropRefundsFrom(DropRefund(s, j), j, gone)
    else DropRefundsFrom(s, j + 1, gone)
  }

  /** `events.filter((event) => at - event.occurredAt <= lifetime)`. */
  function RecentEvents(es: seq<Logged>, lifetime: nat, at: Time): seq<Logged> {
    if es == [] then []
    else if at - es[0].event.occurredAt <= lifetime then [es[0]] + RecentEvents(es[1..], lifetime, at)
    else RecentEvents(es[1..], lifetime, at)
  }

  function Forget(cfg: Config, s: State, at: Time): (t: State)
    ensures t.clock == s.clock
  {
    if s.forgotAt.Some? && at - s.forgotAt.value < FORGET_EVERY_MS then s
    else
      var (t, gone) := DropCheckoutsFrom(cfg, s.(forgotAt := Some(at)), 0, {}, at);
      var u := DropRefundsFrom(t, 0, gone);
      u.(events := RecentEvents(u.events, cfg.lifetime, at))
  }

  // ---- the HTTP routes ----------------------------------------------------

  datatype ErrorCode = NotFound | CredentialsRefused | InvalidRequest | AlreadyCompleted | RefundRefused

  datatype Body =
    | AccountBody
    | MethodsBody
    | CheckoutBody(checkout: Checkout)
    | RefundBody(refund: Refund)
    | EventsBody(events: seq<Event>, cursor: Option<Id>, more: bool)
    | ErrorBody(code: ErrorCode)

  datatype Reply =
    | Answer(status: nat, body: Body)
    | Done
    | Made(id: Id)
    | Found(checkout: Option<Checkout>)
    | Threw

  datatype Request =
    | GetAccount
    | GetMethods
    | PostCheckout(key: Option<string>, attemptId: string, amount: string, currency: string, methods: seq<string>, successUrl: Option<string>)
    | GetCheckout(id: Id)
    | ExpireCheckout(id: Id)
    | CompleteCheckout(id: Id)
    | OtherCheckoutRoute(id: Id)
    | PostRefund(key: Option<string>, paymentRef: Id, amount: string, refundCurrency: string)
    | GetRefund(id: Id)
    | GetEvents(after: Option<Id>)
    | OtherRoute

  function Error(status: nat, code: ErrorCode): Reply {
    Answer(status, ErrorBody(code))
  }

  function OpenCheckout(cfg: Config, s: State, r: Request, at: Time): Checkout
    requires r.PostCheckout? && r.key.Some?
  {
    Checkout(Id(Cs, s.drawn), r.attemptId, r.amount, r.currency, r.methods, Pending, None, None, None, None, None, None, None,
             at + cfg.lifetime, r.key.value, r.successUrl)
  }

  function AddCheckout(s: State, c: Checkout, at: Time): (t: State)
    ensures t.clock == s.clock && t.forgotAt == s.forgotAt
  {
    Emit(s.(checkouts := s.checkouts + [c], checkoutByKey := s.checkoutByKey[c.key := c.id], drawn := s.drawn + 1),
         CheckoutIs(Pending), OfCheckout, Some(c), None, at)
  }

  function CreateCheckout(cfg: Config, s: State, r: Request, at: Time): (next: (State, Reply))
    requires r.PostCheckout?
    ensures next.0.clock == s.clock && next.0.forgotAt == s.forgotAt
  {
    if r.key.None? then (s, Error(400, InvalidRequest))
    else if r.key.value in s.checkoutByKey then
      var i := CheckoutIndex(s.checkouts, s.checkoutByKey[r.key.value]);
      if i == |s.checkouts| then (s, Threw)  // the source's `!`: shown never to happen
      else
        var t := Age(s, i, at);
        (t, Answer(200, CheckoutBody(t.checkouts[i])))
    else
      var c := OpenCheckout(cfg, s, r, at);
      (AddCheckout(s, c, at), Answer(200, CheckoutBody(c)))
  }

  function ReadCheckout(s: State, id: Id, at: Time): (next: (State, Reply))
    ensures next.0.clock == s.clock && next.0.forgotAt == s.forgotAt
  {
    var i := CheckoutIndex(s.checkouts, id);
    if i == |s.checkouts| then (s, Error(404, NotFound))
    else
      var t := Age(s, i, at);
      (t, Answer(200, CheckoutBody(t.checkouts[i])))
  }

  function Expire(s: State, id: Id, at: Time): (next: (State, Reply))
    ensures next.0.clock == s.clock && next.0.forgotAt == s.forgotAt
  {
    var i := CheckoutIndex(s.checkouts, id);
    if i == |s.checkouts| then (s, Error(404, NotFound))
    else
      var t := Age(s, i, at);
      var c := t.checkouts[i];
      if c.status == Succeeded || c.status == Processing then (t, Error(409, AlreadyCompleted))
      else if c.status == Pending || c.status == RequiresAction then
        var expired := c.(status := Expired);
        (Change(t, i, expired, at), Answer(200, CheckoutBody(expired)))
      else (t, Answer(200, CheckoutBody(c)))
  }

  function Exponent(currency: string): (e: nat)
    ensures e <= 3
  {
    match PaymentMoney.IsoExponent(currency) case Some(e) => e case None => 2
  }

  predicate Stands(r: Refund) {
    r.status != RefundFailed && r.status != RefundCancelled
  }

  /** `BigInt(decimalToMinor(refund.amount, exponent) ?? '0')`: an amount that cannot be held counts as nothing. */
  function Counted(r: Refund, exponent: nat): nat {
    match PaymentMoney.Units(r.amount, exponent) case Some(u) => u case None => 0
  }

  /** The loop of `refundedSoFar`, over the refunds that stand for the payment. */
  function RefundedUnits(rs: seq<Refund>, ref: Id, exponent: nat): nat {
    if rs == [] then 0
    else
      var last := rs[|rs| - 1];
      RefundedUnits(rs[..|rs| - 1], ref, exponent) + (if last.paymentRef == ref && Stands(last) then Counted(last, exponent) else 0)
  }

  function RefundedSoFar(rs: seq<Refund>, ref: Id, currency: string): string {
    match PaymentMoney.MinorToDecimal(Digits.Numeral(RefundedUnits(rs, ref, Exponent(currency))), Exponent(currency))
    case Some(text) => text
    case None => "0"
  }

  predicate Fits(taken: string, refunded: string, amount: string, exponent: nat) {
    var left := PaymentMoney.SubtractAmounts(taken, refunded, exponent);
    && left.Some?
    && PaymentMoney.CompareAmounts(amount, left.value) != Some(1)
    && PaymentMoney.CompareAmounts(amount, "0") == Some(1)
  }

  function AddRefund(s: State, r: Refund, at: Time): (t: State)
    ensures t.clock == s.clock && t.forgotAt == s.forgotAt
  {
    Emit(s.(refunds := s.refunds + [r],
            refundByKey := match r.key case Given(text) => s.refundByKey[text := r.id] case Drawn(_) => s.refundByKey),
         RefundIs(r.status), OfRefund, None, Some(r), at)
  }

  function Draw(s: State): (t: State)
    ensures t.clock == s.clock && t.forgotAt == s.forgotAt
  {
    s.(drawn := s.drawn + 1)
  }

  function CreateRefund(cfg: Config, s: State, r: Request, at: Time): (next: (State, Reply))
    requires r.PostRefund?
    ensures next.0.clock == s.clock && next.0.forgotAt == s.forgotAt
  {
    if r.key.None? then (s, Error(400, InvalidRequest))
    else if r.key.value in s.refundByKey then
      var j := RefundIndex(s.refunds, s.refundByKey[r.key.value]);
      if j == |s.refunds| then (s, Threw)  // the source's `!`: shown never to happen
      else
        var t := AgeRefund(s, j, at);
        (t, Answer(200, RefundBody(t.refunds[j])))
    else
      var i := PaymentIndex(s.checkouts, r.paymentRef);
      if i == |s.checkouts| then (s, Error(404, NotFound))
      else
        var t := Age(s, i, at);
        var paid := t.checkouts[i];
        if paid.status != Succeeded || paid.takenAmount.None? || paid.takenCurrency.None? then (t, Error(409, RefundRefused))
        else if r.refundCurrency != paid.takenCurrency.value then (t, Error(409, RefundRefused))
        else if !Fits(paid.takenAmount.value, RefundedSoFar(t.refunds, r.paymentRef, r.refundCurrency), r.amount, Exponent(r.refundCurrency)) then
          (t, Error(409, RefundRefused))
        else
          var refund := Refund(Id(Re, t.drawn), r.paymentRef, r.amount, r.refundCurrency, RefundPending, None, at + cfg.settleAfter, Given(r.key.value));
          (AddRefund(Draw(t), refund, at), Answer(200, RefundBody(refund)))
  }

  function ReadRefund(s: State, id: Id, at: Time): (next: (State, Reply))
    ensures next.0.clock == s.clock && next.0.forgotAt == s.forgotAt
  {
    var j := RefundIndex(s.refunds, id);
    if j == |s.refunds| then (s, Error(404, NotFound))
    else
      var t := AgeRefund(s, j, at);
      (t, Answer(200, RefundBody(t.refunds[j])))
  }

  /** The places, from `start` on, of the events not delivered yet. */
  function Undelivered(es: seq<Logged>, start: nat): seq<nat>
    requires start <= |es|
    decreases |es| - start
  {
    if start == |es| then [] else if es[start].delivered then Undelivered(es, start + 1) else [start] + Undelivered(es, start + 1)
  }

  function EventsAt(es: seq<Logged>, places: seq<nat>): (r: seq<Event>)
    requires forall k :: 0 <= k < |places| ==> places[k] < |es|
    ensures |r| == |places| && forall k :: 0 <= k < |r| ==> r[k] == es[places[k]].event
  {
    if places == [] then [] else EventsAt(es, places[..|places| - 1]) + [es[places[|places| - 1]].event]
  }

  lemma {:induction false} UndeliveredInRange(es: seq<Logged>, start: nat)
    requires start <= |es|
    ensures forall k :: 0 <= k < |Undelivered(es, start)| ==> Undelivered(es, start)[k] < |es|
    decreases |es| - start
  {
    if start < |es| {
      UndeliveredInRange(es, start + 1);
    }
  }

  /** Where a page starts: after the cursor's event, or at the oldest kept event when that is not there. */
  function PageStart(es: seq<Logged>, after: Option<Id>): (start: nat)
    ensures start <= |es|
  {
    if after.None? then 0
    else
      var i := EventIndex(es, after.value);
      if i == |es| then 0 else i + 1
  }

  /** The places of one page, and whether there is more behind it. */
  function PagePlaces(es: seq<Logged>, after: Option<Id>): (places: seq<nat>)
    ensures |places| <= PAGE_MAX && forall k :: 0 <= k < |places| ==> places[k] < |es|
  {
    UndeliveredInRange(es, PageStart(es, after));
    var all := Undelivered(es, PageStart(es, after));
    if |all| > PAGE_MAX then all[..PAGE_MAX] else all
  }

  function PageOf(es: seq<Logged>, after: Option<Id>): (body: Body)
    ensures body.EventsBody?
  {
    var page := EventsAt(es, PagePlaces(es, after));
    EventsBody(page,
               if page != [] then Some(page[|page| - 1].id) else after,
               |Undelivered(es, PageStart(es, after))| > |page|)
  }

  function ListEvents(s: State, after: Option<Id>, at: Time): (next: (State, Reply))
    ensures next.0.clock == s.clock && next.0.forgotAt == s.forgotAt
  {
    var t := AgeRefundsFrom(AgeFrom(s, 0, at), 0, at);
    (t, Answer(200, PageOf(t.events, after)))
  }

  /** One HTTP call, forgetting first; a wrong host or key is refused before the route is read. */
  function Http(cfg: Config, s: State, host: bool, demoKey: bool, r: Request, at: Time): (next: (State, Reply))
    ensures next.0.clock == s.clock
  {
    var t := Forget(cfg, s, at);
    if !host then (t, Error(404, NotFound))
    else if !demoKey then (t, Error(401, CredentialsRefused))
    else
      match r
      case GetAccount => (t, Answer(200, AccountBody))
      case GetMethods => (t, Answer(200, MethodsBody))
      case PostCheckout(_, _, _, _, _, _) => CreateCheckout(cfg, t, r, at)
      case GetCheckout(id) => ReadCheckout(t, id, at)
      case CompleteCheckout(id) => ReadCheckout(t, id, at)
      case ExpireCheckout(id) => Expire(t, id, at)
      case OtherCheckoutRoute(id) => (ReadCheckout(t, id, at).0, Error(404, NotFound))
      case PostRefund(_, _, _, _) => CreateRefund(cfg, t, r, at)
      case GetRefund(id) => ReadRefund(t, id, at)
      case GetEvents(after) => ListEvents(t, after, at)
      case OtherRoute => (t, Error(404, NotFound))
  }

  // ---- what the hosted page and the tests do ------------------------------

  datatype Card = Succeeds | Fails | NeedsAStep | SettlesLate

  function Taken(c: Checkout, ref: Id, card: Card, amount: Option<string>, currency: Option<string>): Checkout {
    c.(paymentRef := Some(ref),
       paidWith := Some(if card == SettlesLate then BANK_DEBIT else CARD),
       takenAmount := Some(if amount.Some? then amount.value else c.amount),
       takenCurrency := Some(if currency.Some? then currency.value else c.currency))
  }

  function Paying(cfg: Config, c: Checkout, ref: Id, card: Card, amount: Option<string>, currency: Option<string>, at: Time): Checkout
    requires card != Fails
  {
    var taken := Taken(c, ref, card, amount, currency);
    match card
    case NeedsAStep => taken.(status := RequiresAction)
    case SettlesLate => taken.(status := Processing, settleAt := Some(at + cfg.settleAfter))
    case _ => taken.(status := Succeeded, settledAt := Some(at))
  }

  function PayWith(cfg: Config, s: State, id: Id, card: Card, amount: Option<string>, currency: Option<string>, at: Time): (next: (State, Reply))
    ensures next.0.clock == s.clock && next.0.forgotAt == s.forgotAt
  {
    var i := CheckoutIndex(s.checkouts, id);
    if i == |s.checkouts| then (s, Threw)
    else
      var t := Age(s, i, at);
      var c := t.checkouts[i];
      if c.status != Pending && c.status != RequiresAction then (t, Threw)
      else if card == Fails then
        (Change(t, i, c.(status := Failed, failureMessage := Some("The demo card was declined.")), at), Done)
      else
        (Change(Draw(t), i, Paying(cfg, c, Id(Pay, t.drawn), card, amount, currency, at), at), Done)
  }

  function FinishStep(s: State, id: Id, at: Time): (next: (State, Reply))
    ensures next.0.clock == s.clock && next.0.forgotAt == s.forgotAt
  {
    var i := CheckoutIndex(s.checkouts, id);
    if i == |s.checkouts| then (s, Threw)
    else
      var t := Age(s, i, at);
      var c := t.checkouts[i];
      if c.status != RequiresAction then (t, Threw)
      else (Change(t, i, c.(status := Succeeded, settledAt := Some(at)), at), Done)
  }

  function Cancel(s: State, id: Id, at: Time): (next: (State, Reply))
    ensures next.0.clock == s.clock && next.0.forgotAt == s.forgotAt
  {
    var i := CheckoutIndex(s.checkouts, id);
    if i == |s.checkouts| then (s, Threw)
    else
      var t := Age(s, i, at);
      var c := t.checkouts[i];
      if c.status != Pending && c.status != RequiresAction then (t, Done)
      else (Change(t, i, c.(status := Cancelled), at), Done)
  }

  function SettleNow(s: State, id: Id, at: Time): (next: (State, Reply))
    ensures next.0.clock == s.clock && next.0.forgotAt == s.forgotAt
  {
    var i := CheckoutIndex(s.checkouts, id);
    if i < |s.checkouts| && s.checkouts[i].status == Processing then
      (Age(s.(checkouts := s.checkouts[i := s.checkouts[i].(settleAt := Some(at))]), i, at), Done)
    else
      var j := RefundIndex(s.refunds, id);
      if j < |s.refunds| && s.refunds[j].status == RefundPending then
        (AgeRefund(s.(refunds := s.refunds[j := s.refunds[j].(settleAt := at)]), j, at), Done)
      else (s, Threw)
  }

  function Dispute(s: State, ref: Id, closes: bool, at: Time): (next: (State, Reply))
    ensures next.0.clock == s.clock && next.0.forgotAt == s.forgotAt
  {
    var i := PaymentIndex(s.checkouts, ref);
    if i == |s.checkouts| then (s, Threw)
    else (Emit(s, if closes then DisputeClosed else DisputeCreated, OfDispute, Some(s.checkouts[i]), None, at), Done)
  }

  function RefundAtProvider(s: State, ref: Id, amount: string, at: Time): (next: (State, Reply))
    ensures next.0.clock == s.clock && next.0.forgotAt == s.forgotAt
  {
    var i := PaymentIndex(s.checkouts, ref);
    if i == |s.checkouts| || s.checkouts[i].takenCurrency.None? then (s, Threw)
    else
      var refund := Refund(Id(Re, s.drawn), ref, amount, s.checkouts[i].takenCurrency.value, RefundSucceeded, None, at, Drawn(Id(Dash, s.drawn + 1)));
      (AddRefund(Draw(Draw(s)), refund, at), Made(refund.id))
  }

  function FailRefund(s: State, id: Id, at: Time): (next: (State, Reply))
    ensures next.0.clock == s.clock && next.0.forgotAt == s.forgotAt
  {
    var j := RefundIndex(s.refunds, id);
    if j == |s.refunds| then (s, Threw)
    else
      var t := AgeRefund(s, j, at);
      (ChangeRefund(t, j, t.refunds[j].(status := RefundFailed, failureMessage := Some("The card was closed.")), at), Done)
  }

  function MarkDelivered(s: State, id: Id): (t: State)
    ensures t.clock == s.clock && t.forgotAt == s.forgotAt
  {
    var k := EventIndex(s.events, id);
    if k == |s.events| then s else s.(events := s.events[k := s.events[k].(delivered := true)])
  }

  function CheckoutForAttempt(s: State, attemptId: string, at: Time): (next: (State, Reply))
    ensures next.0.clock == s.clock && next.0.forgotAt == s.forgotAt
  {
    var i := AttemptIndex(s.checkouts, attemptId);
    if i == |s.checkouts| then (s, Found(None))
    else
      var t := Age(s, i, at);
      (t, Found(Some(t.checkouts[i])))
  }

  // ---- one step, and runs -------------------------------------------------

  datatype Op =
    | CallHttp(host: bool, demoKey: bool, request: Request)
    | CallPay(checkout: Id, card: Card, amount: Option<string>, currency: Option<string>)
    | CallFinishStep(checkout: Id)
    | CallCancel(checkout: Id)
    | CallSettleNow(id: Id)
    | CallDispute(payment: Id, closes: bool)
    | CallRefundAtProvider(payment: Id, refundAmount: string)
    | CallFailRefund(refund: Id)
    | CallMarkDelivered(event: Id)
    | CallCheckoutForAttempt(attempt: string)

  function Step(cfg: Config, s0: State, op: Op, at: Time): (next: (State, Reply))
    ensures next.0.clock == at
  {
    var s := s0.(clock := at);
    match op
    case CallHttp(host, demoKey, request) => Http(cfg, s, host, demoKey, request, at)
    case CallPay(id, card, amount, currency) => PayWith(cfg, s, id, card, amount, currency, at)
    case CallFinishStep(id) => FinishStep(s, id, at)
    case CallCancel(id) => Cancel(s, id, at)
    case CallSettleNow(id) => SettleNow(s, id, at)
    case CallDispute(ref, closes) => Dispute(s, ref, closes, at)
    case CallRefundAtProvider(ref, amount) => RefundAtProvider(s, ref, amount, at)
    case CallFailRefund(id) => FailRefund(s, id, at)
    case CallMarkDelivered(id) => (MarkDelivered(s, id), Done)
    case CallCheckoutForAttempt(attempt) => CheckoutForAttempt(s, attempt, at)
  }
}
