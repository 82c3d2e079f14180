/** Every run of the demo payment service, from a new backend, keeps its invariant; and what follows from that. */
module DemoRuns {
  import opened Wrappers
  import opened PaymentDemo
  import opened DemoInvariants
  import opened DemoSteps
  import opened DemoOps
  import opened DemoForget
  import PaymentMoney

  // ---- the routes and operations ------------------------------------------

  lemma {:induction false} AgeFromValid(cfg: Config, s: State, i: nat)
    requires Valid(cfg, s) && i <= |s.checkouts|
    ensures Valid(cfg, AgeFrom(s, i, s.clock))
    decreases |s.checkouts| - i
  {
    hide ValidBut, Age;
    if i < |s.checkouts| {
      AgeValid(cfg, s, i, {});
      AgeFromValid(cfg, Age(s, i, s.clock), i + 1);
    }
  }

  lemma {:induction false} AgeRefundsFromValid(cfg: Config, s: State, j: nat)
    requires Valid(cfg, s) && j <= |s.refunds|
    ensures Valid(cfg, AgeRefundsFrom(s, j, s.clock))
    decreases |s.refunds| - j
  {
    hide ValidBut, AgeRefund;
    if j < |s.refunds| {
      AgeRefundValid(cfg, s, j);
      AgeRefundsFromValid(cfg, AgeRefund(s, j, s.clock), j + 1);
    }
  }

  /** Under the invariant the two lookups by key always find their record: the source's `!` is total. */
  lemma KeyFindsCheckout(cfg: Config, s: State, key: string)
    requires Valid(cfg, s) && key in s.checkoutByKey
    ensures var i := CheckoutIndex(s.checkouts, s.checkoutByKey[key]); i < |s.checkouts| && s.checkouts[i].key == key
  {
    hide HistoryOk, MoneyOk, ShapesOk, RefundKeysOk, RefundIdsOk;
    var j :| 0 <= j < |s.checkouts| && s.checkouts[j].key == key;
    var i := CheckoutIndex(s.checkouts, s.checkoutByKey[key]);
    assert s.checkouts[j].id == s.checkoutByKey[key];
    assert i <= j;
    assert i == j;
  }

  lemma KeyFindsRefund(cfg: Config, s: State, key: string)
    requires Valid(cfg, s) && key in s.refundByKey
    ensures var j := RefundIndex(s.refunds, s.refundByKey[key]); j < |s.refunds| && s.refunds[j].key == Given(key)
  {
    hide HistoryOk, MoneyOk, ShapesOk, KeysOk, CheckoutIdsOk;
    var n :| 0 <= n < |s.refunds| && s.refunds[n].key == Given(key);
    var j := RefundIndex(s.refunds, s.refundByKey[key]);
    assert s.refunds[n].id == s.refundByKey[key];
    assert j <= n;
    assert j == n;
  }

  lemma CreateCheckoutValid(cfg: Config, s: State, r: Request)
    requires Valid(cfg, s) && r.PostCheckout?
    ensures Valid(cfg, CreateCheckout(cfg, s, r, s.clock).0) && CreateCheckout(cfg, s, r, s.clock).1 != Threw
  {
    hide ValidBut, Age, AddCheckout;
    if r.key.Some? {
      if r.key.value in s.checkoutByKey {
        KeyFindsCheckout(cfg, s, r.key.value);
        AgeValid(cfg, s, CheckoutIndex(s.checkouts, s.checkoutByKey[r.key.value]), {});
      } else {
        AddCheckoutValid(cfg, s, OpenCheckout(cfg, s, r, s.clock));
      }
    }
  }

  lemma ReadCheckoutValid(cfg: Config, s: State, id: Id)
    requires Valid(cfg, s)
    ensures Valid(cfg, ReadCheckout(s, id, s.clock).0)
  {
    hide ValidBut, Age;
    var i := CheckoutIndex(s.checkouts, id);
    if i < |s.checkouts| {
      AgeValid(cfg, s, i, {});
    }
  }

  lemma AgedAt(cfg: Config, s: State, i: nat)
    requires Valid(cfg, s) && i < |s.checkouts|
    ensures var t := Age(s, i, s.clock);
            Valid(cfg, t) && t.refunds == s.refunds && t.refundByKey == s.refundByKey && ShapeOk(t.checkouts[i])
  {
    hide RecordsOk, HistoryOk, ShapeOk, Age;
    AgeValid(cfg, s, i, {});
    AgeKeeps(s, i, s.clock);
    var t := Age(s, i, s.clock);
    RecordsAt(t.checkouts, t.checkoutByKey, t.refunds, t.refundByKey, t.drawn, {}, i);
  }

  lemma ExpireValid(cfg: Config, s: State, id: Id)
    requires Valid(cfg, s)
    ensures Valid(cfg, Expire(s, id, s.clock).0)
  {
    hide ValidBut, Age, Change;
    var i := CheckoutIndex(s.checkouts, id);
    if i < |s.checkouts| {
      AgedAt(cfg, s, i);
      var t := Age(s, i, s.clock);
      if t.checkouts[i].status == Pending || t.checkouts[i].status == RequiresAction {
        ChangeValid(cfg, t, i, t.checkouts[i].(status := Expired), {});
      }
    }
  }

  /** A refund that fits may be added. */
  lemma FittingRefund(cs: seq<Checkout>, rs: seq<Refund>, i: nat, r: Refund)
    requires i < |cs| && cs[i].paymentRef == Some(r.paymentRef) && cs[i].status == Succeeded
    requires cs[i].takenCurrency == Some(r.currency) && cs[i].takenAmount.Some?
    requires Fits(cs[i].takenAmount.value, RefundedSoFar(rs, r.paymentRef, r.currency), r.amount, Exponent(r.currency))
    ensures MayAdd(cs, rs, r)
  {
    hide RefundedSoFar, Fits, RefundedUnits, PaymentMoney.Units, Exponent;
    RefundedSoFarUnits(rs, r.paymentRef, r.currency);
    FitsIsRoom(cs[i].takenAmount.value, RefundedSoFar(rs, r.paymentRef, r.currency), r.amount, Exponent(r.currency));
    RoomIsCounted(cs[i].takenAmount.value, RefundedUnits(rs, r.paymentRef, Exponent(r.currency)), r.amount, Exponent(r.currency));
    assert PaidFor(cs[i], r);
    assert RefundedUnits(rs, r.paymentRef, Exponent(r.currency)) + Counted(r, Exponent(r.currency)) <= TakenUnits(cs[i]);
  }

  lemma CreateRefundValid(cfg: Config, s: State, r: Request)
    requires Valid(cfg, s) && r.PostRefund?
    ensures Valid(cfg, CreateRefund(cfg, s, r, s.clock).0) && CreateRefund(cfg, s, r, s.clock).1 != Threw
  {
    hide ValidBut, Age, AgeRefund, AddRefund, Fits, RefundedSoFar, Exponent, ShapeOk, MayAdd;
    if r.key.Some? {
      if r.key.value in s.refundByKey {
        KeyFindsRefund(cfg, s, r.key.value);
        AgeRefundValid(cfg, s, RefundIndex(s.refunds, s.refundByKey[r.key.value]));
      } else {
        var i := PaymentIndex(s.checkouts, r.paymentRef);
        if i < |s.checkouts| {
          AgedAt(cfg, s, i);
          PaymentRefKept(s, i);
          var t := Age(s, i, s.clock);
          var paid := t.checkouts[i];
          if paid.status == Succeeded && paid.takenAmount.Some? && paid.takenCurrency == Some(r.refundCurrency)
             && Fits(paid.takenAmount.value, RefundedSoFar(t.refunds, r.paymentRef, r.refundCurrency), r.amount, Exponent(r.refundCurrency)) {
            var refund := Refund(Id(Re, t.drawn), r.paymentRef, r.amount, r.refundCurrency, RefundPending, None, s.clock + cfg.settleAfter, Given(r.key.value));
            FittingRefund(t.checkouts, t.refunds, i, refund);
            PaymentDrawn(cfg, t, i);
            AddRefundValid(cfg, t, refund, 1);
          }
        }
      }
    }
  }

  lemma PaymentRefKept(s: State, i: nat)
    requires i < |s.checkouts|
    ensures Age(s, i, s.clock).checkouts[i].paymentRef == s.checkouts[i].paymentRef
  {
  }

  lemma PaymentDrawn(cfg: Config, s: State, i: nat)
    requires Valid(cfg, s) && i < |s.checkouts| && s.checkouts[i].paymentRef.Some?
    ensures s.checkouts[i].paymentRef.value.draw < s.drawn
  {
  }

  lemma ReadRefundValid(cfg: Config, s: State, id: Id)
    requires Valid(cfg, s)
    ensures Valid(cfg, ReadRefund(s, id, s.clock).0)
  {
    hide ValidBut, AgeRefund;
    var j := RefundIndex(s.refunds, id);
    if j < |s.refunds| {
      AgeRefundValid(cfg, s, j);
    }
  }

  lemma HttpValid(cfg: Config, s: State, host: bool, demoKey: bool, r: Request)
    requires Valid(cfg, s)
    ensures Valid(cfg, Http(cfg, s, host, demoKey, r, s.clock).0) && Http(cfg, s, host, demoKey, r, s.clock).1 != Threw
  {
    hide ValidBut, Forget, CreateCheckout, ReadCheckout, Expire, CreateRefund, ReadRefund, AgeFrom, AgeRefundsFrom, PageOf;
    ForgetValid(cfg, s);
    var t := Forget(cfg, s, s.clock);
    HttpRoutes(cfg, t, r);
  }

  /** The routes one by one. */
  lemma HttpRoutes(cfg: Config, t: State, r: Request)
    requires Valid(cfg, t)
    ensures r.PostCheckout? ==> Valid(cfg, CreateCheckout(cfg, t, r, t.clock).0) && CreateCheckout(cfg, t, r, t.clock).1 != Threw
    ensures r.GetCheckout? || r.CompleteCheckout? || r.OtherCheckoutRoute? ==>
              Valid(cfg, ReadCheckout(t, r.id, t.clock).0) && ReadCheckout(t, r.id, t.clock).1 != Threw
    ensures r.ExpireCheckout? ==> Valid(cfg, Expire(t, r.id, t.clock).0) && Expire(t, r.id, t.clock).1 != Threw
    ensures r.PostRefund? ==> Valid(cfg, CreateRefund(cfg, t, r, t.clock).0) && CreateRefund(cfg, t, r, t.clock).1 != Threw
    ensures r.GetRefund? ==> Valid(cfg, ReadRefund(t, r.id, t.clock).0) && ReadRefund(t, r.id, t.clock).1 != Threw
    ensures r.GetEvents? ==> Valid(cfg, ListEvents(t, r.after, t.clock).0) && ListEvents(t, r.after, t.clock).1 != Threw
  {
    hide ValidBut, CreateCheckout, CreateRefund, AgeFrom, AgeRefundsFrom, PageOf, Age, AgeRefund, Change;
    match r
    case PostCheckout(_, _, _, _, _, _) => CreateCheckoutValid(cfg, t, r);
    case GetCheckout(id) => ReadCheckoutValid(cfg, t, id);
    case CompleteCheckout(id) => ReadCheckoutValid(cfg, t, id);
    case ExpireCheckout(id) => ExpireValid(cfg, t, id);
    case OtherCheckoutRoute(id) => ReadCheckoutValid(cfg, t, id);
    case PostRefund(_, _, _, _) => CreateRefundValid(cfg, t, r);
    case GetRefund(id) => ReadRefundValid(cfg, t, id);
    case GetEvents(_) =>
      AgeFromValid(cfg, t, 0);
      AgeRefundsFromValid(cfg, AgeFrom(t, 0, t.clock), 0);
    case _ =>
  }

  lemma FreshPayment(cfg: Config, s: State)
    requires Valid(cfg, s)
    ensures FreshRef(s.checkouts, s.refunds, s.drawn + 1, Id(Pay, s.drawn))
  {
    hide KeysOk, RefundKeysOk, ShapesOk, MoneyOk, HistoryOk;
  }

  lemma PayValid(cfg: Config, s: State, id: Id, card: Card, amount: Option<string>, currency: Option<string>)
    requires Valid(cfg, s)
    ensures Valid(cfg, PayWith(cfg, s, id, card, amount, currency, s.clock).0)
  {
    hide ValidBut, Age, Change;
    var i := CheckoutIndex(s.checkouts, id);
    if i < |s.checkouts| {
      AgedAt(cfg, s, i);
      var t := Age(s, i, s.clock);
      var c := t.checkouts[i];
      if c.status == Pending || c.status == RequiresAction {
        if card == Fails {
          ChangeValid(cfg, t, i, c.(status := Failed, failureMessage := Some("The demo card was declined.")), {});
        } else {
          DrawValid(cfg, t);
          PaymentMayStart(cfg, t, i, card, amount, currency);
          ChangeValid(cfg, Draw(t), i, Paying(cfg, c, Id(Pay, t.drawn), card, amount, currency, s.clock), {});
        }
      }
    }
  }

  lemma PaymentMayStart(cfg: Config, t: State, i: nat, card: Card, amount: Option<string>, currency: Option<string>)
    requires Valid(cfg, t) && i < |t.checkouts| && card != Fails
    requires t.checkouts[i].status == Pending || t.checkouts[i].status == RequiresAction
    requires ShapeOk(t.checkouts[i])
    ensures MayBecome(t.checkouts, t.refunds, t.drawn + 1, i, Paying(cfg, t.checkouts[i], Id(Pay, t.drawn), card, amount, currency, t.clock), {})
  {
    hide ValidBut, HistoryOk, FreshRef;
    FreshPayment(cfg, t);
  }

  lemma FinishStepValid(cfg: Config, s: State, id: Id)
    requires Valid(cfg, s)
    ensures Valid(cfg, FinishStep(s, id, s.clock).0)
  {
    hide ValidBut, Age, Change;
    var i := CheckoutIndex(s.checkouts, id);
    if i < |s.checkouts| {
      AgedAt(cfg, s, i);
      var t := Age(s, i, s.clock);
      if t.checkouts[i].status == RequiresAction {
        ChangeValid(cfg, t, i, t.checkouts[i].(status := Succeeded, settledAt := Some(s.clock)), {});
      }
    }
  }

  lemma CancelValid(cfg: Config, s: State, id: Id)
    requires Valid(cfg, s)
    ensures Valid(cfg, Cancel(s, id, s.clock).0)
  {
    hide ValidBut, Age, Change;
    var i := CheckoutIndex(s.checkouts, id);
    if i < |s.checkouts| {
      AgedAt(cfg, s, i);
      var t := Age(s, i, s.clock);
      if t.checkouts[i].status == Pending || t.checkouts[i].status == RequiresAction {
        ChangeValid(cfg, t, i, t.checkouts[i].(status := Cancelled), {});
      }
    }
  }

  lemma SettleNowValid(cfg: Config, s: State, id: Id)
    requires Valid(cfg, s)
    ensures Valid(cfg, SettleNow(s, id, s.clock).0)
  {
    hide ValidBut, Age, AgeRefund;
    var i, j := CheckoutIndex(s.checkouts, id), RefundIndex(s.refunds, id);
    if i < |s.checkouts| && s.checkouts[i].status == Processing {
      SettleAtValid(cfg, s, i, s.clock);
      AgeValid(cfg, s.(checkouts := s.checkouts[i := s.checkouts[i].(settleAt := Some(s.clock))]), i, {});
    } else if j < |s.refunds| && s.refunds[j].status == RefundPending {
      RefundSettleAtValid(cfg, s, j, s.clock);
      AgeRefundValid(cfg, s.(refunds := s.refunds[j := s.refunds[j].(settleAt := s.clock)]), j);
    }
  }

  lemma RefundAtProviderValid(cfg: Config, s: State, ref: Id, amount: string)
    requires Valid(cfg, s)
    ensures Valid(cfg, RefundAtProvider(s, ref, amount, s.clock).0)
  {
    hide ValidBut, AddRefund;
    var i := PaymentIndex(s.checkouts, ref);
    if i < |s.checkouts| && s.checkouts[i].takenCurrency.Some? {
      PaymentDrawn(cfg, s, i);
      var refund := Refund(Id(Re, s.drawn), ref, amount, s.checkouts[i].takenCurrency.value, RefundSucceeded, None, s.clock, Drawn(Id(Dash, s.drawn + 1)));
      AddRefundValid(cfg, s, refund, 2);
    }
  }

  lemma FailRefundValid(cfg: Config, s: State, id: Id)
    requires Valid(cfg, s)
    ensures Valid(cfg, FailRefund(s, id, s.clock).0)
  {
    hide ValidBut, AgeRefund, ChangeRefund;
    var j := RefundIndex(s.refunds, id);
    if j < |s.refunds| {
      AgeRefundValid(cfg, s, j);
      NeverCancelled(cfg, s, j);
      var t := AgeRefund(s, j, s.clock);
      NeverCancelled(cfg, t, j);
      ChangeRefundValid(cfg, t, j, t.refunds[j].(status := RefundFailed, failureMessage := Some("The card was closed.")));
    }
  }

  /** Nothing in the demo cancels a refund. */
  lemma NeverCancelled(cfg: Config, s: State, j: nat)
    requires Valid(cfg, s) && j < |s.refunds|
    ensures s.refunds[j].status != RefundCancelled
  {
    hide RecordsOk, LogOk, TracesOk, RefundTrace;
    assert RefundLawful(RefundTrace(s.history, s.refunds[j].id));
  }

  lemma CheckoutForAttemptValid(cfg: Config, s: State, attemptId: string)
    requires Valid(cfg, s)
    ensures Valid(cfg, CheckoutForAttempt(s, attemptId, s.clock).0)
  {
    hide ValidBut, Age;
    var i := AttemptIndex(s.checkouts, attemptId);
    if i < |s.checkouts| {
      AgeValid(cfg, s, i, {});
    }
  }

  // ---- runs ---------------------------------------------------------------

  /** One step, whatever it is. An HTTP call never fails with an exception. */
  lemma StepValid(cfg: Config, s: State, op: Op, at: Time)
    requires Valid(cfg, s) && at >= s.clock
    ensures Valid(cfg, Step(cfg, s, op, at).0)
    ensures op.CallHttp? ==> Step(cfg, s, op, at).1 != Threw
  {
    hide Valid, Http, PayWith, FinishStep, Cancel, SettleNow, Dispute, RefundAtProvider, FailRefund, MarkDelivered, CheckoutForAttempt;
    TickValid(cfg, s, at);
    var t := s.(clock := at);
    match op
    case CallHttp(host, demoKey, request) => HttpValid(cfg, t, host, demoKey, request);
    case CallPay(id, card, amount, currency) => PayValid(cfg, t, id, card, amount, currency);
    case CallFinishStep(id) => FinishStepValid(cfg, t, id);
    case CallCancel(id) => CancelValid(cfg, t, id);
    case CallSettleNow(id) => SettleNowValid(cfg, t, id);
    case CallDispute(ref, closes) => DisputeValid(cfg, t, ref, closes);
    case CallRefundAtProvider(ref, amount) => RefundAtProviderValid(cfg, t, ref, amount);
    case CallFailRefund(id) => FailRefundValid(cfg, t, id);
    case CallMarkDelivered(id) => MarkDeliveredValid(cfg, t, id);
    case CallCheckoutForAttempt(attempt) => CheckoutForAttemptValid(cfg, t, attempt);
  }
}
