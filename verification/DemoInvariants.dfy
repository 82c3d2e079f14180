/**
 * What every reachable state of the demo payment service satisfies: its ids are distinct, each idempotency key names
 * one live record, its event log determines every status, and no payment is refunded beyond what was taken.
 */
module DemoInvariants {
  import opened Wrappers
  import opened PaymentDemo
  import PaymentMoney

  // ---- the life of a checkout and of a refund, as its events tell it -------

  predicate Terminal(status: CheckoutStatus) {
    status == Succeeded || status == Failed || status == Cancelled || status == Expired
  }

  /** Which status may follow which. `needs-a-step` may be chosen again while a step is asked for. */
  predicate Follows(a: CheckoutStatus, b: CheckoutStatus) {
    match a
    case Pending => b != Pending
    case RequiresAction => b != Pending
    case Processing => b == Succeeded
    case _ => false
  }

  predicate RefundFollows(a: RefundStatus, b: RefundStatus) {
    match a
    case RefundPending => b == RefundSucceeded || b == RefundFailed
    case RefundSucceeded => b == RefundFailed
    case RefundFailed => b == RefundFailed
    case RefundCancelled => false
  }

  /** The statuses the checkout-kind events of a history name for one checkout, oldest first. */
  function Trace(history: seq<Event>, id: Id): seq<CheckoutStatus> {
    if history == [] then []
    else
      var last, before := history[|history| - 1], Trace(history[..|history| - 1], id);
      if last.kind == OfCheckout && last.checkoutRef == Some(id) && last.what.CheckoutIs? then before + [last.what.checkout] else before
  }

  function RefundTrace(history: seq<Event>, id: Id): seq<RefundStatus> {
    if history == [] then []
    else
      var last, before := history[|history| - 1], RefundTrace(history[..|history| - 1], id);
      if last.kind == OfRefund && last.refundRef == Some(id) && last.what.RefundIs? then before + [last.what.refund] else before
  }

  /** Opens as pending, and every status may follow the one before it. */
  predicate Lawful(trace: seq<CheckoutStatus>) {
    var n := |trace|;
    if n == 0 then true
    else if n == 1 then trace[0] == Pending
    else Follows(trace[n - 2], trace[n - 1]) && Lawful(trace[..n - 1])
  }

  /** Opens as pending, or as succeeded when made in the dashboard. */
  predicate RefundLawful(trace: seq<RefundStatus>) {
    var n := |trace|;
    if n == 0 then true
    else if n == 1 then trace[0] == RefundPending || trace[0] == RefundSucceeded
    else RefundFollows(trace[n - 2], trace[n - 1]) && RefundLawful(trace[..n - 1])
  }

  // ---- the invariant ------------------------------------------------------

  ghost predicate CheckoutIdsOk(cs: seq<Checkout>, drawn: nat) {
    && (forall i :: 0 <= i < |cs| ==> cs[i].id.draw < drawn && (cs[i].paymentRef.Some? ==> cs[i].paymentRef.value.draw < drawn))
    && (forall i, j :: 0 <= i < j < |cs| ==> cs[i].id != cs[j].id)
    && (forall i, j :: 0 <= i < j < |cs| && cs[i].paymentRef.Some? ==> cs[i].paymentRef != cs[j].paymentRef)
  }

  ghost predicate RefundIdsOk(rs: seq<Refund>, drawn: nat) {
    && (forall j :: 0 <= j < |rs| ==> rs[j].id.draw < drawn && rs[j].paymentRef.draw < drawn)
    && (forall i, j :: 0 <= i < j < |rs| ==> rs[i].id != rs[j].id)
  }

  /** The keys kept are those of the live checkouts, one checkout a key. */
  ghost predicate KeysOk(cs: seq<Checkout>, byKey: map<string, Id>) {
    && (forall i :: 0 <= i < |cs| ==> cs[i].key in byKey && byKey[cs[i].key] == cs[i].id)
    && (forall k :: k in byKey ==> exists i :: 0 <= i < |cs| && cs[i].key == k)
  }

  ghost predicate RefundKeysOk(rs: seq<Refund>, byKey: map<string, Id>) {
    && (forall j :: 0 <= j < |rs| && rs[j].key.Given? ==> rs[j].key.text in byKey && byKey[rs[j].key.text] == rs[j].id)
    && (forall k :: k in byKey ==> exists j :: 0 <= j < |rs| && rs[j].key == Given(k))
  }

  /** What a checkout's status says of its other fields. */
  ghost predicate ShapeOk(c: Checkout) {
    && (c.settledAt.Some? <==> c.status == Succeeded)
    && (c.status == Processing ==> c.settleAt.Some?)
    && (c.status == RequiresAction || c.status == Processing || c.status == Succeeded ==> c.paymentRef.Some?)
    && (c.status == Pending ==> c.paymentRef.None?)
    && (c.takenAmount.Some? <==> c.paymentRef.Some?)
    && (c.takenCurrency.Some? <==> c.paymentRef.Some?)
  }

  ghost predicate ShapesOk(cs: seq<Checkout>) {
    forall i :: 0 <= i < |cs| ==> ShapeOk(cs[i])
  }

  /** The kept events are the history but for a prefix, and everything in that prefix is older than a lifetime. */
  ghost predicate LogOk(cfg: Config, events: seq<Logged>, history: seq<Event>, drawn: nat, clock: Time) {
    && |events| <= |history|
    && (forall k :: 0 <= k < |events| ==> events[k].event == history[|history| - |events| + k])
    && (forall k :: 0 <= k < |history| - |events| ==> clock - history[k].occurredAt > cfg.lifetime)
    && (forall k :: 0 <= k < |history| ==> history[k].occurredAt <= clock && history[k].id.draw < drawn)
    && (forall j, k :: 0 <= j < k < |history| ==> history[j].occurredAt <= history[k].occurredAt && history[j].id.draw < history[k].id.draw)
  }

  ghost predicate TracesOk(cs: seq<Checkout>, history: seq<Event>, drawn: nat) {
    && (forall id: Id :: Lawful(Trace(history, id)))
    && (forall id: Id :: id.draw >= drawn ==> Trace(history, id) == [])
    && (forall i :: 0 <= i < |cs| ==> var t := Trace(history, cs[i].id); t != [] && t[|t| - 1] == cs[i].status)
  }

  ghost predicate RefundTracesOk(rs: seq<Refund>, history: seq<Event>, drawn: nat) {
    && (forall id: Id :: RefundLawful(RefundTrace(history, id)))
    && (forall id: Id :: id.draw >= drawn ==> RefundTrace(history, id) == [])
    && (forall j :: 0 <= j < |rs| ==> var t := RefundTrace(history, rs[j].id); t != [] && t[|t| - 1] == rs[j].status)
  }

  ghost function PostedWeight(r: Refund, ref: Id, exponent: nat): nat {
    if r.paymentRef == ref && Stands(r) && r.key.Given? then Counted(r, exponent) else 0
  }

  /** The units of the refunds asked through the API that stand for a payment. */
  ghost function PostedUnits(rs: seq<Refund>, ref: Id, exponent: nat): nat {
    if rs == [] then 0
    else PostedUnits(rs[..|rs| - 1], ref, exponent) + PostedWeight(rs[|rs| - 1], ref, exponent)
  }

  ghost function TakenUnits(c: Checkout): nat
    requires c.takenAmount.Some? && c.takenCurrency.Some?
  {
    match PaymentMoney.Units(c.takenAmount.value, Exponent(c.takenCurrency.value)) case Some(u) => u case None => 0
  }

  /** At the six places amounts are compared at; 0 for a text that cannot be held there. */
  function ExactUnits(amount: string): nat {
    match PaymentMoney.Units(amount, 6) case Some(u) => u case None => 0
  }

  /** `r` is of more than nothing, and of a payment that succeeded in its currency. */
  ghost predicate PaidFor(c: Checkout, r: Refund) {
    c.paymentRef == Some(r.paymentRef) && c.status == Succeeded && c.takenCurrency == Some(r.currency) && ExactUnits(r.amount) > 0
  }

  /** Conservation for one payment, in units of its currency. */
  ghost predicate Conserves(c: Checkout, rs: seq<Refund>) {
    c.paymentRef.Some? && c.takenAmount.Some? && c.takenCurrency.Some? ==>
      PostedUnits(rs, c.paymentRef.value, Exponent(c.takenCurrency.value)) <= TakenUnits(c)
  }

  /** `gone` holds the payments dropped whose refunds are still to be dropped: empty between operations. */
  ghost predicate MoneyOk(cs: seq<Checkout>, rs: seq<Refund>, gone: set<Id>) {
    && (forall j :: 0 <= j < |rs| && rs[j].key.Given? && rs[j].paymentRef !in gone ==> exists i :: 0 <= i < |cs| && PaidFor(cs[i], rs[j]))
    && (forall i :: 0 <= i < |cs| ==> Conserves(cs[i], rs))
    && (forall i :: 0 <= i < |cs| && cs[i].paymentRef.Some? ==> cs[i].paymentRef.value !in gone)
  }

  /** The part of the invariant about the records. */
  ghost predicate RecordsOk(cs: seq<Checkout>, byKey: map<string, Id>, rs: seq<Refund>, refundByKey: map<string, Id>, drawn: nat, gone: set<Id>) {
    && CheckoutIdsOk(cs, drawn)
    && RefundIdsOk(rs, drawn)
    && KeysOk(cs, byKey)
    && RefundKeysOk(rs, refundByKey)
    && ShapesOk(cs)
    && MoneyOk(cs, rs, gone)
  }

  /** The part of the invariant about the event log. */
  ghost predicate HistoryOk(cfg: Config, s: State) {
    && LogOk(cfg, s.events, s.history, s.drawn, s.clock)
    && TracesOk(s.checkouts, s.history, s.drawn)
    && RefundTracesOk(s.refunds, s.history, s.drawn)
  }

  ghost predicate ValidBut(cfg: Config, s: State, gone: set<Id>) {
    RecordsOk(s.checkouts, s.checkoutByKey, s.refunds, s.refundByKey, s.drawn, gone) && HistoryOk(cfg, s)
  }

  ghost predicate Valid(cfg: Config, s: State) {
    ValidBut(cfg, s, {})
  }

  // ---- one event more -----------------------------------------------------

  lemma TraceSnoc(history: seq<Event>, e: Event, id: Id)
    ensures Trace(history + [e], id) ==
            if e.kind == OfCheckout && e.checkoutRef == Some(id) && e.what.CheckoutIs? then Trace(history, id) + [e.what.checkout]
            else Trace(history, id)
  {
    assert (history + [e])[..|history|] == history;
  }

  lemma RefundTraceSnoc(history: seq<Event>, e: Event, id: Id)
    ensures RefundTrace(history + [e], id) ==
            if e.kind == OfRefund && e.refundRef == Some(id) && e.what.RefundIs? then RefundTrace(history, id) + [e.what.refund]
            else RefundTrace(history, id)
  {
    assert (history + [e])[..|history|] == history;
  }

  lemma LogMore(cfg: Config, events: seq<Logged>, history: seq<Event>, drawn: nat, clock: Time, e: Event)
    requires LogOk(cfg, events, history, drawn, clock)
    requires e.id.draw == drawn && e.occurredAt == clock
    ensures LogOk(cfg, events + [Logged(e, false)], history + [e], drawn + 1, clock)
  {
    var es, h := events + [Logged(e, false)], history + [e];
    assert forall k :: 0 <= k < |es| ==> es[k].event == h[|h| - |es| + k];
  }

  /** An event that is not of checkout kind leaves every checkout's trace as it was. */
  lemma TracesApart(cs: seq<Checkout>, history: seq<Event>, drawn: nat, e: Event)
    requires TracesOk(cs, history, drawn) && e.kind != OfCheckout
    ensures TracesOk(cs, history + [e], drawn + 1)
  {
    hide Trace, Lawful;
    forall id
      ensures Trace(history + [e], id) == Trace(history, id)
    {
      TraceSnoc(history, e, id);
    }
  }

  lemma RefundTracesApart(rs: seq<Refund>, history: seq<Event>, drawn: nat, e: Event)
    requires RefundTracesOk(rs, history, drawn) && e.kind != OfRefund
    ensures RefundTracesOk(rs, history + [e], drawn + 1)
  {
    hide RefundTrace, RefundLawful;
    forall id
      ensures RefundTrace(history + [e], id) == RefundTrace(history, id)
    {
      RefundTraceSnoc(history, e, id);
    }
  }

  lemma LawfulMore(trace: seq<CheckoutStatus>, status: CheckoutStatus)
    requires Lawful(trace)
    requires if trace == [] then status == Pending else Follows(trace[|trace| - 1], status)
    ensures Lawful(trace + [status])
  {
    assert (trace + [status])[..|trace|] == trace;
  }

  lemma RefundLawfulMore(trace: seq<RefundStatus>, status: RefundStatus)
    requires RefundLawful(trace)
    requires if trace == [] then status == RefundPending || status == RefundSucceeded else RefundFollows(trace[|trace| - 1], status)
    ensures RefundLawful(trace + [status])
  {
    assert (trace + [status])[..|trace|] == trace;
  }

  /** The event of a checkout that moves on. */
  lemma TracesMove(cs: seq<Checkout>, i: nat, c: Checkout, history: seq<Event>, drawn: nat, e: Event)
    requires TracesOk(cs, history, drawn) && i < |cs|
    requires e.kind == OfCheckout && e.checkoutRef == Some(c.id) && e.what == CheckoutIs(c.status)
    requires c.id.draw < drawn && c.id == cs[i].id && Follows(cs[i].status, c.status)
    requires forall k :: 0 <= k < |cs| && k != i ==> cs[k].id != c.id
    ensures TracesOk(cs[i := c], history + [e], drawn + 1)
  {
    hide Trace, Lawful, Follows;
    forall id: Id
      ensures id == c.id ==> Trace(history + [e], id) == Trace(history, id) + [c.status]
      ensures id != c.id ==> Trace(history + [e], id) == Trace(history, id)
      ensures Lawful(Trace(history + [e], id))
    {
      TraceSnoc(history, e, id);
      if id == c.id {
        LawfulMore(Trace(history, id), c.status);
      }
    }
  }

  /** The event of a checkout that opens. */
  lemma TracesOpen(cs: seq<Checkout>, c: Checkout, history: seq<Event>, drawn: nat, e: Event)
    requires TracesOk(cs, history, drawn)
    requires e.kind == OfCheckout && e.checkoutRef == Some(c.id) && e.what == CheckoutIs(c.status)
    requires c.id.draw < drawn && c.status == Pending && Trace(history, c.id) == []
    ensures TracesOk(cs + [c], history + [e], drawn + 1)
  {
    hide Trace, Lawful, Follows;
    assert forall k :: 0 <= k < |cs| ==> cs[k].id != c.id;
    forall id: Id
      ensures id == c.id ==> Trace(history + [e], id) == [c.status]
      ensures id != c.id ==> Trace(history + [e], id) == Trace(history, id)
      ensures Lawful(Trace(history + [e], id))
    {
      TraceSnoc(history, e, id);
      if id == c.id {
        LawfulMore([], c.status);
      }
    }
  }

  lemma RefundTracesMove(rs: seq<Refund>, j: nat, r: Refund, history: seq<Event>, drawn: nat, e: Event)
    requires RefundTracesOk(rs, history, drawn) && j < |rs|
    requires e.kind == OfRefund && e.refundRef == Some(r.id) && e.what == RefundIs(r.status)
    requires r.id.draw < drawn && r.id == rs[j].id && RefundFollows(rs[j].status, r.status)
    requires forall k :: 0 <= k < |rs| && k != j ==> rs[k].id != r.id
    ensures RefundTracesOk(rs[j := r], history + [e], drawn + 1)
  {
    hide RefundTrace, RefundLawful, RefundFollows;
    forall id: Id
      ensures id == r.id ==> RefundTrace(history + [e], id) == RefundTrace(history, id) + [r.status]
      ensures id != r.id ==> RefundTrace(history + [e], id) == RefundTrace(history, id)
      ensures RefundLawful(RefundTrace(history + [e], id))
    {
      RefundTraceSnoc(history, e, id);
      if id == r.id {
        RefundLawfulMore(RefundTrace(history, id), r.status);
      }
    }
  }

  lemma RefundTracesOpen(rs: seq<Refund>, r: Refund, history: seq<Event>, drawn: nat, e: Event)
    requires RefundTracesOk(rs, history, drawn)
    requires e.kind == OfRefund && e.refundRef == Some(r.id) && e.what == RefundIs(r.status)
    requires r.id.draw < drawn && (r.status == RefundPending || r.status == RefundSucceeded) && RefundTrace(history, r.id) == []
    ensures RefundTracesOk(rs + [r], history + [e], drawn + 1)
  {
    hide RefundTrace, RefundLawful, RefundFollows;
    assert forall k :: 0 <= k < |rs| ==> rs[k].id != r.id;
    forall id: Id
      ensures id == r.id ==> RefundTrace(history + [e], id) == [r.status]
      ensures id != r.id ==> RefundTrace(history + [e], id) == RefundTrace(history, id)
      ensures RefundLawful(RefundTrace(history + [e], id))
    {
      RefundTraceSnoc(history, e, id);
      if id == r.id {
        RefundLawfulMore([], r.status);
      }
    }
  }
}
