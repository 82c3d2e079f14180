/**
 * What each operation of the demo payment service comes to: the record it leaves, the event it emits and what it answers,
 * from any reachable state, with every other record as it was.
 */
module DemoOutcomes {
  import opened Wrappers
  import opened PaymentDemo
  import opened DemoTheorems
  import opened DemoFlows

  // ---- events -------------------------------------------------------------

  /** The event that names a checkout's status, and all it refers to. */
  function Report(draw: nat, c: Checkout, at: Time): Event {
    Event(Id(Evt, draw), CheckoutIs(c.status), OfCheckout, Some(c.id), c.paymentRef, None, at)
  }

  function RefundReport(draw: nat, r: Refund, at: Time): Event {
    Event(Id(Evt, draw), RefundIs(r.status), OfRefund, None, Some(r.paymentRef), Some(r.id), at)
  }

  /** What ageing a checkout reports: nothing, unless the clock has moved it. */
  function AgeReport(draw: nat, c: Checkout, at: Time): seq<Event> {
    if Aged(c, at) == c then [] else [Report(draw, Aged(c, at), at)]
  }

  /** Only the checkout at `i` differs; `reports` is what was emitted. */
  ghost predicate CheckoutBecomes(s: State, t: State, i: nat, c: Checkout, reports: seq<Event>)
    requires i < |s.checkouts|
  {
    && t.checkouts == s.checkouts[i := c] && t.refunds == s.refunds
    && t.checkoutByKey == s.checkoutByKey && t.refundByKey == s.refundByKey
    && t.history == s.history + reports
  }

  ghost predicate RefundBecomes(s: State, t: State, j: nat, r: Refund, reports: seq<Event>)
    requires j < |s.refunds|
  {
    && t.refunds == s.refunds[j := r] && t.checkouts == s.checkouts
    && t.checkoutByKey == s.checkoutByKey && t.refundByKey == s.refundByKey
    && t.history == s.history + reports
  }

  lemma Changed(s: State, i: nat, c: Checkout, at: Time)
    requires i < |s.checkouts|
    ensures CheckoutBecomes(s, Change(s, i, c, at), i, c, [Report(s.drawn, c, at)])
  {
  }

  lemma AgedOnly(s: State, i: nat, at: Time)
    requires i < |s.checkouts|
    ensures CheckoutBecomes(s, Age(s, i, at), i, Aged(s.checkouts[i], at), AgeReport(s.drawn, s.checkouts[i], at))
    ensures Aged(s.checkouts[i], at) == s.checkouts[i] ==> Age(s, i, at) == s
  {
    assert s.checkouts[i := s.checkouts[i]] == s.checkouts;
  }

  lemma ChangedRefund(s: State, j: nat, r: Refund, at: Time)
    requires j < |s.refunds|
    ensures RefundBecomes(s, ChangeRefund(s, j, r, at), j, r, [RefundReport(s.drawn, r, at)])
  {
  }

  // ---- what the customer does ---------------------------------------------

  /** Finishing a step completes the checkout, now; where no step is asked for any more it throws, and the clock alone has told. */
  lemma FinishesStep(cfg: Config, s: State, i: nat, at: Time)
    requires Reachable(cfg, s) && i < |s.checkouts| && at >= s.clock
    ensures var c := s.checkouts[i];
            var (t, reply) := Step(cfg, s, CallFinishStep(c.id), at);
            if c.status == RequiresAction && at < c.expiresAt then
              var paid := c.(status := Succeeded, settledAt := Some(at));
              reply == Done && CheckoutBecomes(s, t, i, paid, [Report(s.drawn, paid, at)])
            else reply == Threw && CheckoutBecomes(s, t, i, Aged(c, at), AgeReport(s.drawn, c, at))
  {
    hide Reachable, Age, Change;
    KeptAtItsPlace(cfg, s, i);
    var c, s0 := s.checkouts[i], s.(clock := at);
    AgedOnly(s0, i, at);
    Changed(s0, i, c.(status := Succeeded, settledAt := Some(at)), at);
  }

  /** Cancelling cancels what can still be paid and nothing else; it never throws for a checkout that is kept. */
  lemma Cancels(cfg: Config, s: State, i: nat, at: Time)
    requires Reachable(cfg, s) && i < |s.checkouts| && at >= s.clock
    ensures var c := s.checkouts[i];
            var (t, reply) := Step(cfg, s, CallCancel(c.id), at);
            && reply == Done
            && if Payable(c, at) then
                 var over := c.(status := Cancelled);
                 CheckoutBecomes(s, t, i, over, [Report(s.drawn, over, at)])
               else CheckoutBecomes(s, t, i, Aged(c, at), AgeReport(s.drawn, c, at))
  {
    hide Reachable, Age, Change;
    KeptAtItsPlace(cfg, s, i);
    var c, s0 := s.checkouts[i], s.(clock := at);
    AgedOnly(s0, i, at);
    Changed(s0, i, c.(status := Cancelled), at);
  }

  /** Paying what cannot be paid any more throws. */
  lemma PayRefused(cfg: Config, s: State, i: nat, card: Card, amount: Option<string>, currency: Option<string>, at: Time)
    requires Reachable(cfg, s) && i < |s.checkouts| && at >= s.clock && !Payable(s.checkouts[i], at)
    ensures var (t, reply) := Step(cfg, s, CallPay(s.checkouts[i].id, card, amount, currency), at);
            reply == Threw && CheckoutBecomes(s, t, i, Aged(s.checkouts[i], at), AgeReport(s.drawn, s.checkouts[i], at))
  {
    hide Reachable, Age, Change, Paying;
    KeptAtItsPlace(cfg, s, i);
    AgedOnly(s.(clock := at), i, at);
  }

  /** A payment that goes through emits the event of what it leaves. */
  lemma PayEmits(cfg: Config, s: State, i: nat, card: Card, amount: Option<string>, currency: Option<string>, at: Time)
    requires Reachable(cfg, s) && i < |s.checkouts| && at >= s.clock && Payable(s.checkouts[i], at)
    ensures var t := Step(cfg, s, CallPay(s.checkouts[i].id, card, amount, currency), at).0;
            var draw := if card == Fails then s.drawn else s.drawn + 1;
            |t.checkouts| == |s.checkouts| && CheckoutBecomes(s, t, i, t.checkouts[i], [Report(draw, t.checkouts[i], at)])
  {
    hide Reachable, Age, Change, Paying;
    KeptAtItsPlace(cfg, s, i);
    var c, s0 := s.checkouts[i], s.(clock := at);
    AgedOnly(s0, i, at);
    if card == Fails {
      Changed(s0, i, c.(status := Failed, failureMessage := Some("The demo card was declined.")), at);
    } else {
      Changed(Draw(s0), i, Paying(cfg, c, Id(Pay, s0.drawn), card, amount, currency, at), at);
    }
  }

  /** A checkout that is not kept cannot be paid, finished or cancelled: each throws, and nothing changes. */
  lemma UnknownThrows(cfg: Config, s: State, id: Id, op: Op, at: Time)
    requires forall i :: 0 <= i < |s.checkouts| ==> s.checkouts[i].id != id
    requires (op.CallPay? || op.CallFinishStep? || op.CallCancel?) && op.checkout == id
    ensures Step(cfg, s, op, at) == (s.(clock := at), Threw)
  {
  }

  // ---- settling early -----------------------------------------------------

  ghost predicate HasCheckout(s: State, i: nat, id: Id, status: CheckoutStatus) {
    i < |s.checkouts| && s.checkouts[i].id == id && s.checkouts[i].status == status
  }

  ghost predicate HasRefund(s: State, j: nat, id: Id, status: RefundStatus) {
    j < |s.refunds| && s.refunds[j].id == id && s.refunds[j].status == status
  }

  /** A late payment settles now, whenever it was due. */
  lemma SettlesPayment(cfg: Config, s: State, i: nat, id: Id, at: Time)
    requires Reachable(cfg, s) && at >= s.clock && HasCheckout(s, i, id, Processing)
    ensures var (t, reply) := Step(cfg, s, CallSettleNow(id), at);
            var paid := s.checkouts[i].(status := Succeeded, settleAt := Some(at), settledAt := Some(at));
            reply == Done && CheckoutBecomes(s, t, i, paid, [Report(s.drawn, paid, at)])
  {
    hide Reachable;
    KeptAtItsPlace(cfg, s, i);
  }

  /** And so does a refund on its way. */
  lemma SettlesRefund(cfg: Config, s: State, j: nat, id: Id, at: Time)
    requires Reachable(cfg, s) && at >= s.clock && HasRefund(s, j, id, RefundPending)
    requires forall i: nat :: !HasCheckout(s, i, id, Processing)
    ensures var (t, reply) := Step(cfg, s, CallSettleNow(id), at);
            var settled := s.refunds[j].(status := RefundSucceeded, settleAt := at);
            reply == Done && RefundBecomes(s, t, j, settled, [RefundReport(s.drawn, settled, at)])
  {
    hide Reachable;
    RefundAtItsPlace(cfg, s, j);
    var i := CheckoutIndex(s.checkouts, id);
    assert !HasCheckout(s, i, id, Processing);
  }

  lemma RefundAtItsPlace(cfg: Config, s: State, j: nat)
    requires Reachable(cfg, s) && j < |s.refunds|
    ensures RefundIndex(s.refunds, s.refunds[j].id) == j
  {
    hide Reachable;
    RefundsApart(cfg, s);
  }

  /** Where neither waits, settling throws and nothing changes. */
  lemma SettlesNothing(cfg: Config, s: State, id: Id, at: Time)
    requires Reachable(cfg, s) && at >= s.clock
    requires forall i: nat :: !HasCheckout(s, i, id, Processing)
    requires forall j: nat :: !HasRefund(s, j, id, RefundPending)
    ensures Step(cfg, s, CallSettleNow(id), at) == (s.(clock := at), Threw)
  {
    hide Reachable;
    assert !HasCheckout(s, CheckoutIndex(s.checkouts, id), id, Processing);
    assert !HasRefund(s, RefundIndex(s.refunds, id), id, RefundPending);
  }

  // ---- the dashboard ------------------------------------------------------

  /** A dispute is an event of the payment and changes no record. */
  lemma Disputes(cfg: Config, s: State, i: nat, closes: bool, at: Time)
    requires Reachable(cfg, s) && i < |s.checkouts| && at >= s.clock && s.checkouts[i].paymentRef.Some?
    ensures var c := s.checkouts[i];
            var (t, reply) := Step(cfg, s, CallDispute(c.paymentRef.value, closes), at);
            && reply == Done
            && CheckoutBecomes(s, t, i, c, [Event(Id(Evt, s.drawn), if closes then DisputeClosed else DisputeCreated, OfDispute, Some(c.id), c.paymentRef, None, at)])
  {
    hide Reachable;
    PaymentAtItsPlace(cfg, s, i);
    assert s.checkouts[i := s.checkouts[i]] == s.checkouts;
  }

  lemma PaymentAtItsPlace(cfg: Config, s: State, i: nat)
    requires Reachable(cfg, s) && i < |s.checkouts| && s.checkouts[i].paymentRef.Some?
    ensures PaymentIndex(s.checkouts, s.checkouts[i].paymentRef.value) == i
  {
    ReachableValid(cfg, s);
  }

  /** A refund made in the dashboard: of whatever amount, in the currency taken, and succeeded at once. */
  lemma RefundsInDashboard(cfg: Config, s: State, i: nat, amount: string, at: Time)
    requires Reachable(cfg, s) && i < |s.checkouts| && at >= s.clock && s.checkouts[i].paymentRef.Some?
    ensures s.checkouts[i].takenCurrency.Some?
    ensures var c := s.checkouts[i];
            var (t, reply) := Step(cfg, s, CallRefundAtProvider(c.paymentRef.value, amount), at);
            var r := Refund(Id(Re, s.drawn), c.paymentRef.value, amount, c.takenCurrency.value, RefundSucceeded, None, at, Drawn(Id(Dash, s.drawn + 1)));
            && reply == Made(r.id) && t.refunds == s.refunds + [r] && t.checkouts == s.checkouts && t.refundByKey == s.refundByKey
            && t.history == s.history + [RefundReport(s.drawn + 2, r, at)]
  {
    hide Reachable;
    PaymentAtItsPlace(cfg, s, i);
    TakenWithPayment(cfg, s, i);
  }

  lemma TakenWithPayment(cfg: Config, s: State, i: nat)
    requires Reachable(cfg, s) && i < |s.checkouts|
    ensures s.checkouts[i].takenCurrency.Some? <==> s.checkouts[i].paymentRef.Some?
  {
    ReachableValid(cfg, s);
  }

  /** Of a payment that is not kept neither is possible. */
  lemma UnknownPaymentThrows(cfg: Config, s: State, ref: Id, closes: bool, amount: string, at: Time)
    requires forall i :: 0 <= i < |s.checkouts| ==> s.checkouts[i].paymentRef != Some(ref)
    ensures Step(cfg, s, CallDispute(ref, closes), at) == (s.(clock := at), Threw)
    ensures Step(cfg, s, CallRefundAtProvider(ref, amount), at) == (s.(clock := at), Threw)
  {
  }

  /** Failing a refund, settled or not: it has failed, and if it was due its success was reported before. */
  lemma FailsRefund(cfg: Config, s: State, j: nat, at: Time)
    requires Reachable(cfg, s) && j < |s.refunds| && at >= s.clock
    ensures var r := s.refunds[j];
            var (t, reply) := Step(cfg, s, CallFailRefund(r.id), at);
            var failed := r.(status := RefundFailed, failureMessage := Some("The card was closed."));
            && reply == Done
            && if r.status == RefundPending && at >= r.settleAt
               then RefundBecomes(s, t, j, failed, [RefundReport(s.drawn, AgedRefund(r, at), at), RefundReport(s.drawn + 1, failed, at)])
               else RefundBecomes(s, t, j, failed, [RefundReport(s.drawn, failed, at)])
  {
    hide Reachable, ChangeRefund;
    RefundAtItsPlace(cfg, s, j);
    var r, s0 := s.refunds[j], s.(clock := at);
    var failed := r.(status := RefundFailed, failureMessage := Some("The card was closed."));
    var settled := r.(status := RefundSucceeded);
    ChangedRefund(s0, j, failed, at);
    ChangedRefund(s0, j, settled, at);
    ChangedRefund(ChangeRefund(s0, j, settled, at), j, failed, at);
    FailedAfter(s0, j, settled, failed, at);
  }

  lemma FailedAfter(s: State, j: nat, settled: Refund, failed: Refund, at: Time)
    requires j < |s.refunds|
    ensures ChangeRefund(s, j, settled, at).drawn == s.drawn + 1
    ensures s.refunds[j := settled][j := failed] == s.refunds[j := failed]
    ensures (s.history + [RefundReport(s.drawn, settled, at)]) + [RefundReport(s.drawn + 1, failed, at)]
         == s.history + [RefundReport(s.drawn, settled, at), RefundReport(s.drawn + 1, failed, at)]
  {
  }

  lemma UnknownRefundThrows(cfg: Config, s: State, id: Id, at: Time)
    requires forall j :: 0 <= j < |s.refunds| ==> s.refunds[j].id != id
    ensures Step(cfg, s, CallFailRefund(id), at) == (s.(clock := at), Threw)
  {
  }

  /** The first checkout of an attempt, as the clock has left it. */
  lemma FindsAttempt(cfg: Config, s: State, i: nat, at: Time)
    requires i < |s.checkouts| && forall k :: 0 <= k < i ==> s.checkouts[k].attemptId != s.checkouts[i].attemptId
    ensures var c := s.checkouts[i];
            var (t, reply) := Step(cfg, s, CallCheckoutForAttempt(c.attemptId), at);
            reply == Found(Some(Aged(c, at))) && CheckoutBecomes(s, t, i, Aged(c, at), AgeReport(s.drawn, c, at))
  {
    hide Age;
    AgedOnly(s.(clock := at), i, at);
  }

  lemma FindsNoAttempt(cfg: Config, s: State, attempt: string, at: Time)
    requires forall i :: 0 <= i < |s.checkouts| ==> s.checkouts[i].attemptId != attempt
    ensures Step(cfg, s, CallCheckoutForAttempt(attempt), at) == (s.(clock := at), Found(None))
  {
  }
}
