/**
 * The demo payment service as its source keeps it: one object whose collections are updated in place.
 *
 * Every method is proved to leave the state its function in `PaymentDemo` gives and to answer what that function
 * answers; every operation a caller can reach keeps the invariant.
 */
module DemoBackend {
  import opened Wrappers
  import opened PaymentDemo
  import opened DemoInvariants
  import opened DemoRuns
  import Digits
  import PaymentMoney

  class Backend {
    const cfg: Config
    var checkouts: seq<Checkout>
    var checkoutByKey: map<string, Id>
    var refunds: seq<Refund>
    var refundByKey: map<string, Id>
    var events: seq<Logged>
    var forgotAt: Option<Time>
    var drawn: nat
    ghost var history: seq<Event>
    ghost var clock: Time

    ghost function Abs(): State
      reads this
    {
      State(checkouts, checkoutByKey, refunds, refundByKey, events, forgotAt, drawn, history, clock)
    }

    ghost predicate Valid()
      reads this
    {
      DemoInvariants.Valid(cfg, Abs())
    }

    constructor (cfg: Config, ghost clock: Time)
      ensures Valid() && Abs() == Initial(clock) && this.cfg == cfg
    {
      this.cfg := cfg;
      checkouts, checkoutByKey, refunds, refundByKey, events, forgotAt, drawn := [], map[], [], map[], [], None, 0;
      history, this.clock := [], clock;
    }

    // ---- the closure's own functions --------------------------------------

    method NextId(prefix: Prefix) returns (id: Id)
      modifies this
      ensures id == Id(prefix, old(drawn)) && Abs() == Draw(old(Abs()))
    {
      id := Id(prefix, drawn);
      drawn := drawn + 1;
    }

    method EmitEvent(what: EventType, kind: EventKind, checkout: Option<Checkout>, refund: Option<Refund>, at: Time)
      modifies this
      ensures Abs() == Emit(old(Abs()), what, kind, checkout, refund, at)
    {
      var e := EventFor(drawn, what, kind, checkout, refund, at);
      drawn := drawn + 1;
      events := events + [Logged(e, false)];
      history := history + [e];
    }

    method AgeCheckout(i: nat, at: Time)
      requires i < |checkouts|
      modifies this
      ensures Abs() == Age(old(Abs()), i, at)
    {
      var c := checkouts[i];
      if c.status == Processing && c.settleAt.Some? && at >= c.settleAt.value {
        checkouts := checkouts[i := c.(status := Succeeded, settledAt := c.settleAt)];
        EmitEvent(CheckoutIs(Succeeded), OfCheckout, Some(checkouts[i]), None, at);
      }
      c := checkouts[i];
      if (c.status == Pending || c.status == RequiresAction) && at >= c.expiresAt {
        checkouts := checkouts[i := c.(status := Expired)];
        EmitEvent(CheckoutIs(Expired), OfCheckout, Some(checkouts[i]), None, at);
      }
    }

    method AgeOneRefund(j: nat, at: Time)
      requires j < |refunds|
      modifies this
      ensures Abs() == AgeRefund(old(Abs()), j, at)
    {
      if refunds[j].status == RefundPending && at >= refunds[j].settleAt {
        refunds := refunds[j := refunds[j].(status := RefundSucceeded)];
        EmitEvent(RefundIs(RefundSucceeded), OfRefund, None, Some(refunds[j]), at);
      }
    }

    /** Deleting while iterating: what follows the record deleted is visited next. */
    method ForgetCheckouts(at: Time) returns (gone: set<Id>)
      modifies this
      ensures (Abs(), gone) == DropCheckoutsFrom(cfg, old(Abs()), 0, {}, at)
    {
      hide Age, Over;
      gone := {};
      var i := 0;
      while i < |checkouts|
        invariant i <= |checkouts|
        invariant DropCheckoutsFrom(cfg, Abs(), i, gone, at) == DropCheckoutsFrom(cfg, old(Abs()), 0, {}, at)
        decreases |checkouts| - i
      {
        AgeCheckout(i, at);
        var c := checkouts[i];
        if Over(cfg, c, at) {
          checkouts := RemoveAt(checkouts, i);
          checkoutByKey := checkoutByKey - {c.key};
          gone := Gone(gone, c);
        } else {
          i := i + 1;
        }
      }
    }

    method ForgetRefunds(gone: set<Id>)
      modifies this
      ensures Abs() == DropRefundsFrom(old(Abs()), 0, gone)
    {
      var j := 0;
      while j < |refunds|
        invariant j <= |refunds|
        invariant DropRefundsFrom(Abs(), j, gone) == DropRefundsFrom(old(Abs()), 0, gone)
        decreases |refunds| - j
      {
        var r := refunds[j];
        if r.paymentRef in gone {
          refunds := RemoveAt(refunds, j);
          if r.key.Given? {
            refundByKey := refundByKey - {r.key.text};
          }
        } else {
          j := j + 1;
        }
      }
    }

    method ForgetOld(at: Time)
      modifies this
      ensures Abs() == Forget(cfg, old(Abs()), at)
    {
      hide DropCheckoutsFrom, DropRefundsFrom, RecentEvents;
      if forgotAt.Some? && at - forgotAt.value < FORGET_EVERY_MS {
        return;
      }
      forgotAt := Some(at);
      var gone := ForgetCheckouts(at);
      ForgetRefunds(gone);
      events := RecentEvents(events, cfg.lifetime, at);
    }

    /** `[...checkouts.values()].find((one) => one.paymentRef === ref)`. */
    method FindPayment(ref: Id) returns (i: nat)
      ensures i == PaymentIndex(checkouts, ref)
    {
      i := 0;
      while i < |checkouts| && checkouts[i].paymentRef != Some(ref)
        invariant i <= |checkouts|
        invariant forall k :: 0 <= k < i ==> checkouts[k].paymentRef != Some(ref)
      {
        i := i + 1;
      }
    }

    method TotalRefunded(ref: Id, currency: string) returns (text: string)
      ensures text == RefundedSoFar(refunds, ref, currency)
    {
      hide Counted, Exponent, PaymentMoney.MinorToDecimal;
      var exponent := Exponent(currency);
      var total := 0;
      var j := 0;
      while j < |refunds|
        invariant j <= |refunds| && total == RefundedUnits(refunds[..j], ref, exponent)
      {
        assert refunds[..j + 1][..j] == refunds[..j];
        if refunds[j].paymentRef == ref && Stands(refunds[j]) {
          total := total + Counted(refunds[j], exponent);
        }
        j := j + 1;
      }
      assert refunds[..j] == refunds;
      match PaymentMoney.MinorToDecimal(Digits.Numeral(total), exponent)
      case Some(written) => text := written;
      case None => text := "0";
    }

    // ---- the HTTP routes --------------------------------------------------

    method PostCheckouts(r: Request, at: Time) returns (reply: Reply)
      requires r.PostCheckout?
      modifies this
      ensures (Abs(), reply) == CreateCheckout(cfg, old(Abs()), r, at)
    {
      hide Age, EventFor;
      if r.key.None? {
        return Error(400, InvalidRequest);
      }
      if r.key.value in checkoutByKey {
        var i := CheckoutIndex(checkouts, checkoutByKey[r.key.value]);
        if i == |checkouts| {
          return Threw;
        }
        AgeCheckout(i, at);
        return Answer(200, CheckoutBody(checkouts[i]));
      }
      var id := NextId(Cs);
      var c := Checkout(id, r.attemptId, r.amount, r.currency, r.methods, Pending, None, None, None, None, None, None, None,
                        at + cfg.lifetime, r.key.value, r.successUrl);
      checkouts := checkouts + [c];
      checkoutByKey := checkoutByKey[r.key.value := id];
      EmitEvent(CheckoutIs(Pending), OfCheckout, Some(c), None, at);
      return Answer(200, CheckoutBody(c));
    }

    method SetCheckout(i: nat, c: Checkout, at: Time)
      requires i < |checkouts|
      modifies this
      ensures Abs() == Change(old(Abs()), i, c, at)
    {
      checkouts := checkouts[i := c];
      EmitEvent(CheckoutIs(c.status), OfCheckout, Some(c), None, at);
    }

    method GetOneCheckout(id: Id, at: Time) returns (reply: Reply)
      modifies this
      ensures (Abs(), reply) == ReadCheckout(old(Abs()), id, at)
    {
      hide Age;
      var i := CheckoutIndex(checkouts, id);
      if i == |checkouts| {
        return Error(404, NotFound);
      }
      AgeCheckout(i, at);
      return Answer(200, CheckoutBody(checkouts[i]));
    }

    method ExpireOne(id: Id, at: Time) returns (reply: Reply)
      modifies this
      ensures (Abs(), reply) == Expire(old(Abs()), id, at)
    {
      hide Age, Change;
      var i := CheckoutIndex(checkouts, id);
      if i == |checkouts| {
        return Error(404, NotFound);
      }
      AgeCheckout(i, at);
      var c := checkouts[i];
      if c.status == Succeeded || c.status == Processing {
        return Error(409, AlreadyCompleted);
      }
      if c.status == Pending || c.status == RequiresAction {
        c := c.(status := Expired);
        SetCheckout(i, c, at);
      }
      return Answer(200, CheckoutBody(c));
    }

    method PostRefunds(r: Request, at: Time) returns (reply: Reply)
      requires r.PostRefund?
      modifies this
      ensures (Abs(), reply) == CreateRefund(cfg, old(Abs()), r, at)
    {
      hide Age, AgeRefund, EventFor, Fits, RefundedSoFar, Exponent;
      if r.key.None? {
        return Error(400, InvalidRequest);
      }
      if r.key.value in refundByKey {
        var j := RefundIndex(refunds, refundByKey[r.key.value]);
        if j == |refunds| {
          return Threw;
        }
        AgeOneRefund(j, at);
        return Answer(200, RefundBody(refunds[j]));
      }
      var i := FindPayment(r.paymentRef);
      if i == |checkouts| {
        return Error(404, NotFound);
      }
      AgeCheckout(i, at);
      var paid := checkouts[i];
      if paid.status != Succeeded || paid.takenAmount.None? || paid.takenCurrency.None? {
        return Error(409, RefundRefused);
      }
      if r.refundCurrency != paid.takenCurrency.value {
        return Error(409, RefundRefused);
      }
      var refunded := TotalRefunded(r.paymentRef, r.refundCurrency);
      if !Fits(paid.takenAmount.value, refunded, r.amount, Exponent(r.refundCurrency)) {
        return Error(409, RefundRefused);
      }
      var id := NextId(Re);
      var refund := Refund(id, r.paymentRef, r.amount, r.refundCurrency, RefundPending, None, at + cfg.settleAfter, Given(r.key.value));
      refunds := refunds + [refund];
      refundByKey := refundByKey[r.key.value := id];
      EmitEvent(RefundIs(RefundPending), OfRefund, None, Some(refund), at);
      return Answer(200, RefundBody(refund));
    }

    method GetOneRefund(id: Id, at: Time) returns (reply: Reply)
      modifies this
      ensures (Abs(), reply) == ReadRefund(old(Abs()), id, at)
    {
      hide AgeRefund;
      var j := RefundIndex(refunds, id);
      if j == |refunds| {
        return Error(404, NotFound);
      }
      AgeOneRefund(j, at);
      return Answer(200, RefundBody(refunds[j]));
    }

    method AgeCheckouts(at: Time)
      modifies this
      ensures Abs() == AgeFrom(old(Abs()), 0, at)
    {
      hide Age;
      var i := 0;
      while i < |checkouts|
        invariant i <= |checkouts|
        invariant AgeFrom(Abs(), i, at) == AgeFrom(old(Abs()), 0, at)
        decreases |checkouts| - i
      {
        AgeCheckout(i, at);
        i := i + 1;
      }
    }

    method AgeRefunds(at: Time)
      modifies this
      ensures Abs() == AgeRefundsFrom(old(Abs()), 0, at)
    {
      hide AgeRefund;
      var j := 0;
      while j < |refunds|
        invariant j <= |refunds|
        invariant AgeRefundsFrom(Abs(), j, at) == AgeRefundsFrom(old(Abs()), 0, at)
        decreases |refunds| - j
      {
        AgeOneRefund(j, at);
        j := j + 1;
      }
    }

    method GetMissedEvents(after: Option<Id>, at: Time) returns (reply: Reply)
      modifies this
      ensures (Abs(), reply) == ListEvents(old(Abs()), after, at)
    {
      hide AgeFrom, AgeRefundsFrom, PageOf;
      AgeCheckouts(at);
      AgeRefunds(at);
      return Answer(200, PageOf(events, after));
    }

    /** One HTTP call. Every look-up by key finds its record, so no call throws. */
    method CallRoute(host: bool, demoKey: bool, r: Request, at: Time) returns (reply: Reply)
      requires Valid() && at >= clock
      modifies this
      ensures (Abs(), reply) == Step(cfg, old(Abs()), CallHttp(host, demoKey, r), at)
      ensures Valid() && reply != Threw
    {
      hide DemoInvariants.Valid, Forget, CreateCheckout, ReadCheckout, Expire, CreateRefund, ReadRefund, ListEvents;
      StepValid(cfg, Abs(), CallHttp(host, demoKey, r), at);
      clock := at;
      ForgetOld(at);
      if !host {
        return Error(404, NotFound);
      }
      if !demoKey {
        return Error(401, CredentialsRefused);
      }
      match r
      case GetAccount => reply := Answer(200, AccountBody);
      case GetMethods => reply := Answer(200, MethodsBody);
      case PostCheckout(_, _, _, _, _, _) => reply := PostCheckouts(r, at);
      case GetCheckout(id) => reply := GetOneCheckout(id, at);
      case CompleteCheckout(id) => reply := GetOneCheckout(id, at);
      case ExpireCheckout(id) => reply := ExpireOne(id, at);
      case OtherCheckoutRoute(id) =>
        var _ := GetOneCheckout(id, at);
        reply := Error(404, NotFound);
      case PostRefund(_, _, _, _) => reply := PostRefunds(r, at);
      case GetRefund(id) => reply := GetOneRefund(id, at);
      case GetEvents(after) => reply := GetMissedEvents(after, at);
      case OtherRoute => reply := Error(404, NotFound);
    }

    // ---- what the hosted page and the tests do ----------------------------

    method Pay(id: Id, card: Card, amount: Option<string>, currency: Option<string>, at: Time) returns (reply: Reply)
      requires Valid() && at >= clock
      modifies this
      ensures (Abs(), reply) == Step(cfg, old(Abs()), CallPay(id, card, amount, currency), at) && Valid()
    {
      hide DemoInvariants.Valid, ValidBut, RecordsOk, HistoryOk, Age, Change;
      StepValid(cfg, Abs(), CallPay(id, card, amount, currency), at);
      clock := at;
      var i := CheckoutIndex(checkouts, id);
      if i == |checkouts| {
        return Threw;
      }
      AgeCheckout(i, at);
      var c := checkouts[i];
      if c.status != Pending && c.status != RequiresAction {
        return Threw;
      }
      if card == Fails {
        SetCheckout(i, c.(status := Failed, failureMessage := Some("The demo card was declined.")), at);
        return Done;
      }
      Take(i, card, amount, currency, at);
      return Done;
    }

    /** What `pay` does once the card is not refused. */
    method Take(i: nat, card: Card, amount: Option<string>, currency: Option<string>, at: Time)
      requires i < |checkouts| && card != Fails
      modifies this
      ensures Abs() == Change(Draw(old(Abs())), i, Paying(cfg, old(checkouts)[i], Id(PaymentDemo.Pay, old(drawn)), card, amount, currency, at), at)
    {
      hide Change;
      var c := checkouts[i];
      var ref := NextId(PaymentDemo.Pay);
      c := c.(paymentRef := Some(ref), paidWith := Some(if card == SettlesLate then BANK_DEBIT else CARD));
      c := c.(takenAmount := Some(if amount.Some? then amount.value else c.amount));
      c := c.(takenCurrency := Some(if currency.Some? then currency.value else c.currency));
      if card == NeedsAStep {
        SetCheckout(i, c.(status := RequiresAction), at);
      } else if card == SettlesLate {
        SetCheckout(i, c.(status := Processing, settleAt := Some(at + cfg.settleAfter)), at);
      } else {
        SetCheckout(i, c.(status := Succeeded, settledAt := Some(at)), at);
      }
    }

    method CompleteStep(id: Id, at: Time) returns (reply: Reply)
      requires Valid() && at >= clock
      modifies this
      ensures (Abs(), reply) == Step(cfg, old(Abs()), CallFinishStep(id), at) && Valid()
    {
      hide DemoInvariants.Valid, ValidBut, RecordsOk, HistoryOk, Age, Change;
      StepValid(cfg, Abs(), CallFinishStep(id), at);
      clock := at;
      var i := CheckoutIndex(checkouts, id);
      if i == |checkouts| {
        return Threw;
      }
      AgeCheckout(i, at);
      if checkouts[i].status != RequiresAction {
        return Threw;
      }
      SetCheckout(i, checkouts[i].(status := Succeeded, settledAt := Some(at)), at);
      return Done;
    }

    method CancelOne(id: Id, at: Time) returns (reply: Reply)
      requires Valid() && at >= clock
      modifies this
      ensures (Abs(), reply) == Step(cfg, old(Abs()), CallCancel(id), at) && Valid()
    {
      hide DemoInvariants.Valid, ValidBut, RecordsOk, HistoryOk, Age, Change;
      StepValid(cfg, Abs(), CallCancel(id), at);
      clock := at;
      var i := CheckoutIndex(checkouts, id);
      if i == |checkouts| {
        return Threw;
      }
      AgeCheckout(i, at);
      if checkouts[i].status == Pending || checkouts[i].status == RequiresAction {
        SetCheckout(i, checkouts[i].(status := Cancelled), at);
      }
      return Done;
    }

    method SettleOne(id: Id, at: Time) returns (reply: Reply)
      requires Valid() && at >= clock
      modifies this
      ensures (Abs(), reply) == Step(cfg, old(Abs()), CallSettleNow(id), at) && Valid()
    {
      hide DemoInvariants.Valid, Age, AgeRefund;
      StepValid(cfg, Abs(), CallSettleNow(id), at);
      clock := at;
      var i := CheckoutIndex(checkouts, id);
      if i < |checkouts| && checkouts[i].status == Processing {
        checkouts := checkouts[i := checkouts[i].(settleAt := Some(at))];
        AgeCheckout(i, at);
        return Done;
      }
      var j := RefundIndex(refunds, id);
      if j < |refunds| && refunds[j].status == RefundPending {
        refunds := refunds[j := refunds[j].(settleAt := at)];
        AgeOneRefund(j, at);
        return Done;
      }
      return Threw;
    }

    method OpenDispute(ref: Id, closes: bool, at: Time) returns (reply: Reply)
      requires Valid() && at >= clock
      modifies this
      ensures (Abs(), reply) == Step(cfg, old(Abs()), CallDispute(ref, closes), at) && Valid()
    {
      hide DemoInvariants.Valid, ValidBut, RecordsOk, HistoryOk, EventFor;
      StepValid(cfg, Abs(), CallDispute(ref, closes), at);
      clock := at;
      var i := FindPayment(ref);
      if i == |checkouts| {
        return Threw;
      }
      EmitEvent(if closes then DisputeClosed else DisputeCreated, OfDispute, Some(checkouts[i]), None, at);
      return Done;
    }

    method MakeRefundAtProvider(ref: Id, amount: string, at: Time) returns (reply: Reply)
      requires Valid() && at >= clock
      modifies this
      ensures (Abs(), reply) == Step(cfg, old(Abs()), CallRefundAtProvider(ref, amount), at) && Valid()
    {
      hide DemoInvariants.Valid, ValidBut, RecordsOk, HistoryOk, EventFor;
      StepValid(cfg, Abs(), CallRefundAtProvider(ref, amount), at);
      clock := at;
      var i := FindPayment(ref);
      if i == |checkouts| || checkouts[i].takenCurrency.None? {
        return Threw;
      }
      var id := NextId(Re);
      var key := NextId(Dash);
      var refund := Refund(id, ref, amount, checkouts[i].takenCurrency.value, RefundSucceeded, None, at, Drawn(key));
      refunds := refunds + [refund];
      EmitEvent(RefundIs(RefundSucceeded), OfRefund, None, Some(refund), at);
      return Made(id);
    }

    method FailOneRefund(id: Id, at: Time) returns (reply: Reply)
      requires Valid() && at >= clock
      modifies this
      ensures (Abs(), reply) == Step(cfg, old(Abs()), CallFailRefund(id), at) && Valid()
    {
      hide DemoInvariants.Valid, AgeRefund, EventFor;
      StepValid(cfg, Abs(), CallFailRefund(id), at);
      clock := at;
      var j := RefundIndex(refunds, id);
      if j == |refunds| {
        return Threw;
      }
      AgeOneRefund(j, at);
      refunds := refunds[j := refunds[j].(status := RefundFailed, failureMessage := Some("The card was closed."))];
      EmitEvent(RefundIs(RefundFailed), OfRefund, None, Some(refunds[j]), at);
      return Done;
    }

    method MarkOneDelivered(id: Id, ghost at: Time)
      requires Valid() && at >= clock
      modifies this
      ensures Abs() == Step(cfg, old(Abs()), CallMarkDelivered(id), at).0 && Valid()
    {
      hide DemoInvariants.Valid;
      StepValid(cfg, Abs(), CallMarkDelivered(id), at);
      clock := at;
      var k := 0;
      while k < |events| && events[k].event.id != id
        invariant k <= |events| && forall n :: 0 <= n < k ==> events[n].event.id != id
      {
        k := k + 1;
      }
      if k < |events| {
        events := events[k := events[k].(delivered := true)];
      }
    }

    method FindAttempt(attempt: string, at: Time) returns (reply: Reply)
      requires Valid() && at >= clock
      modifies this
      ensures (Abs(), reply) == Step(cfg, old(Abs()), CallCheckoutForAttempt(attempt), at) && Valid()
    {
      hide DemoInvariants.Valid, Age;
      StepValid(cfg, Abs(), CallCheckoutForAttempt(attempt), at);
      clock := at;
      var i := 0;
      while i < |checkouts| && checkouts[i].attemptId != attempt
        invariant i <= |checkouts| && forall k :: 0 <= k < i ==> checkouts[k].attemptId != attempt
      {
        i := i + 1;
      }
      if i == |checkouts| {
        return Found(None);
      }
      AgeCheckout(i, at);
      return Found(Some(checkouts[i]));
    }
  }
}
