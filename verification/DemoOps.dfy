/** Every operation of the demo payment service keeps its invariant, so every run does. */
module DemoOps {
  import opened Wrappers
  import opened PaymentDemo
  import opened DemoInvariants
  import opened DemoSteps
  import PaymentMoney
  import Digits

  // ---- what a refund may be -----------------------------------------------

  /** `refundedSoFar` writes exactly the units counted. */
  lemma RefundedSoFarUnits(rs: seq<Refund>, ref: Id, currency: string)
    ensures PaymentMoney.Units(RefundedSoFar(rs, ref, currency), Exponent(currency)) == Some(RefundedUnits(rs, ref, Exponent(currency)))
  {
    hide PaymentMoney.MinorToDecimal, PaymentMoney.Units, PaymentMoney.Parse, Exponent, RefundedUnits;
    var n := RefundedUnits(rs, ref, Exponent(currency));
    PaymentMoney.WrittenUnits(PaymentMoney.MinorToDecimal(Digits.Numeral(n), Exponent(currency)), n, Exponent(currency));
  }

  /** Units at `exponent` places, as units at six. */
  function Scaled(units: nat, exponent: nat): nat
    requires exponent <= 6
  {
    units * Digits.Pow10(6 - exponent)
  }

  /** The room a payment has left, at the six places `compareAmounts` compares at. */
  ghost predicate HasRoom(taken: string, refunded: nat, amount: string, exponent: nat)
    requires exponent <= 6
  {
    var t, a := PaymentMoney.Units(taken, exponent), PaymentMoney.Units(amount, 6);
    && t.Some? && a.Some?
    && refunded <= t.value
    && 0 < a.value <= Scaled(t.value - refunded, exponent)
  }

  /** A refund is taken exactly when it is more than nothing and no more than what is left. */
  lemma FitsIsRoom(taken: string, refunded: string, amount: string, exponent: nat)
    requires exponent <= 6 && PaymentMoney.Units(refunded, exponent).Some?
    ensures Fits(taken, refunded, amount, exponent) <==> HasRoom(taken, PaymentMoney.Units(refunded, exponent).value, amount, exponent)
  {
    hide PaymentMoney.Units, PaymentMoney.SubtractAmounts, PaymentMoney.Parse, Digits.Pow10;
    PaymentMoney.SubtractAmountsExact(taken, refunded, exponent);
    PaymentMoney.UnitsOfZero(6);
    var left := PaymentMoney.SubtractAmounts(taken, refunded, exponent);
    if left.Some? {
      PaymentMoney.UnitsFiner(left.value, exponent, 6 - exponent);
    }
  }

  /** What a refund that fits is counted as leaves the total within what was taken. */
  lemma RoomIsCounted(taken: string, refunded: nat, amount: string, exponent: nat)
    requires exponent <= 6 && HasRoom(taken, refunded, amount, exponent)
    ensures PaymentMoney.Units(taken, exponent).Some?
    ensures PaymentMoney.Units(amount, exponent).Some? ==>
              refunded + PaymentMoney.Units(amount, exponent).value <= PaymentMoney.Units(taken, exponent).value
    ensures refunded <= PaymentMoney.Units(taken, exponent).value
  {
    hide PaymentMoney.Units, Digits.Pow10;
    if PaymentMoney.Units(amount, exponent).Some? {
      var u, left := PaymentMoney.Units(amount, exponent).value, PaymentMoney.Units(taken, exponent).value - refunded;
      PaymentMoney.UnitsFiner(amount, exponent, 6 - exponent);
      if left < u {
        Digits.MulLess(left, u, Digits.Pow10(6 - exponent));
      }
    }
  }

  // ---- one refund more ----------------------------------------------------

  lemma AddRefundKeys(rs: seq<Refund>, r: Refund, byKey: map<string, Id>)
    requires RefundKeysOk(rs, byKey) && (r.key.Given? ==> r.key.text !in byKey)
    ensures RefundKeysOk(rs + [r], if r.key.Given? then byKey[r.key.text := r.id] else byKey)
  {
    var now := rs + [r];
    forall k | k in (if r.key.Given? then byKey[r.key.text := r.id] else byKey)
      ensures exists n :: 0 <= n < |now| && now[n].key == Given(k)
    {
      if r.key == Given(k) {
        assert now[|rs|].key == Given(k);
      } else {
        var n :| 0 <= n < |rs| && rs[n].key == Given(k);
        assert now[n].key == Given(k);
      }
    }
  }

  /** Asked through the API of a payment that succeeded, with room for it; or made in the dashboard. */
  ghost predicate MayAdd(cs: seq<Checkout>, rs: seq<Refund>, r: Refund) {
    r.key.Given? ==>
      exists i :: 0 <= i < |cs| && PaidFor(cs[i], r) && cs[i].takenAmount.Some?
                  && RefundedUnits(rs, r.paymentRef, Exponent(r.currency)) + Counted(r, Exponent(r.currency)) <= TakenUnits(cs[i])
  }

  lemma AddRefundMoney(cs: seq<Checkout>, rs: seq<Refund>, r: Refund, drawn: nat)
    requires CheckoutIdsOk(cs, drawn) && MoneyOk(cs, rs, {}) && MayAdd(cs, rs, r)
    ensures MoneyOk(cs, rs + [r], {})
  {
    var now := rs + [r];
    forall n | 0 <= n < |now| && now[n].key.Given?
      ensures exists i :: 0 <= i < |cs| && PaidFor(cs[i], now[n])
    {
      if n < |rs| {
        assert now[n] == rs[n];
      }
    }
    forall i | 0 <= i < |cs|
      ensures Conserves(cs[i], now)
    {
      if cs[i].paymentRef.Some? && cs[i].takenAmount.Some? && cs[i].takenCurrency.Some? {
        AddRefundConserves(cs, rs, r, drawn, i);
      }
    }
  }

  lemma AddRefundConserves(cs: seq<Checkout>, rs: seq<Refund>, r: Refund, drawn: nat, i: nat)
    requires CheckoutIdsOk(cs, drawn) && MayAdd(cs, rs, r)
    requires i < |cs| && cs[i].paymentRef.Some? && cs[i].takenAmount.Some? && cs[i].takenCurrency.Some? && Conserves(cs[i], rs)
    ensures Conserves(cs[i], rs + [r])
  {
    hide RefundedUnits, PostedUnits, Counted, Exponent, TakenUnits;
    var ref, e := cs[i].paymentRef.value, Exponent(cs[i].takenCurrency.value);
    PostedSnoc(rs, r, ref, e);
    if r.key.Given? && r.paymentRef == ref {
      var k :| 0 <= k < |cs| && PaidFor(cs[k], r) && cs[k].takenAmount.Some?
               && RefundedUnits(rs, r.paymentRef, Exponent(r.currency)) + Counted(r, Exponent(r.currency)) <= TakenUnits(cs[k]);
      assert k == i;
      PostedWithinRefunded(rs, ref, e);
    }
  }

  lemma AddRefundRecords(cs: seq<Checkout>, byKey: map<string, Id>, rs: seq<Refund>, refundByKey: map<string, Id>, drawn: nat, r: Refund)
    requires RecordsOk(cs, byKey, rs, refundByKey, drawn, {}) && MayAdd(cs, rs, r)
    requires r.id.draw < drawn && r.paymentRef.draw < drawn && (forall j :: 0 <= j < |rs| ==> rs[j].id != r.id)
    requires r.key.Given? ==> r.key.text !in refundByKey
    ensures RecordsOk(cs, byKey, rs + [r], if r.key.Given? then refundByKey[r.key.text := r.id] else refundByKey, drawn + 1, {})
  {
    assert RefundIdsOk(rs + [r], drawn + 1) && CheckoutIdsOk(cs, drawn + 1);
    hide KeysOk, RefundKeysOk, MoneyOk, MayAdd, CheckoutIdsOk;
    AddRefundKeys(rs, r, refundByKey);
    AddRefundMoney(cs, rs, r, drawn);
  }

  lemma AddRefundHistory(cfg: Config, s: State, r: Refund)
    requires HistoryOk(cfg, s) && r.id.draw < s.drawn && RefundTrace(s.history, r.id) == []
    requires r.status == RefundPending || r.status == RefundSucceeded
    ensures HistoryOk(cfg, AddRefund(s, r, s.clock))
  {
    hide LogOk, TracesOk, RefundTracesOk, EventFor;
    var e := EventFor(s.drawn, RefundIs(r.status), OfRefund, None, Some(r), s.clock);
    LogMore(cfg, s.events, s.history, s.drawn, s.clock, e);
    TracesApart(s.checkouts, s.history, s.drawn, e);
    RefundTracesOpen(s.refunds, r, s.history, s.drawn, e);
  }

  /** `r` is the next id drawn. */
  lemma AddRefundValid(cfg: Config, s: State, r: Refund, draws: nat)
    requires Valid(cfg, s) && r.id.draw == s.drawn && draws >= 1 && r.paymentRef.draw < s.drawn
    requires r.status == RefundPending || r.status == RefundSucceeded
    requires MayAdd(s.checkouts, s.refunds, r) && (r.key.Given? ==> r.key.text !in s.refundByKey)
    ensures Valid(cfg, AddRefund(s.(drawn := s.drawn + draws), r, s.clock))
  {
    var t := s.(drawn := s.drawn + draws);
    NextIds(cfg, s, draws);
    assert RefundTrace(s.history, r.id) == [] && forall j :: 0 <= j < |s.refunds| ==> s.refunds[j].id != r.id;
    hide RecordsOk, HistoryOk, EventFor, MayAdd, RefundTrace;
    AddRefundRecords(t.checkouts, t.checkoutByKey, t.refunds, t.refundByKey, t.drawn, r);
    AddRefundHistory(cfg, t, r);
  }

  lemma NextIds(cfg: Config, s: State, draws: nat)
    requires Valid(cfg, s)
    ensures Valid(cfg, s.(drawn := s.drawn + draws))
  {
    hide KeysOk, RefundKeysOk, ShapesOk, MoneyOk, Trace, RefundTrace;
  }

  // ---- disputes, deliveries, settling early -------------------------------

  lemma DisputeHistory(cfg: Config, s: State, e: Event)
    requires HistoryOk(cfg, s) && e.kind == OfDispute && e.id.draw == s.drawn && e.occurredAt == s.clock
    ensures HistoryOk(cfg, Log(s, e))
  {
    hide LogOk, TracesOk, RefundTracesOk;
    LogMore(cfg, s.events, s.history, s.drawn, s.clock, e);
    TracesApart(s.checkouts, s.history, s.drawn, e);
    RefundTracesApart(s.refunds, s.history, s.drawn, e);
  }

  lemma DisputeValid(cfg: Config, s: State, ref: Id, closes: bool)
    requires Valid(cfg, s)
    ensures Valid(cfg, Dispute(s, ref, closes, s.clock).0)
  {
    hide RecordsOk, HistoryOk, EventFor;
    var i := PaymentIndex(s.checkouts, ref);
    if i < |s.checkouts| {
      NextIds(cfg, s, 1);
      DisputeHistory(cfg, s, EventFor(s.drawn, if closes then DisputeClosed else DisputeCreated, OfDispute, Some(s.checkouts[i]), None, s.clock));
    }
  }

  lemma MarkDeliveredValid(cfg: Config, s: State, id: Id)
    requires Valid(cfg, s)
    ensures Valid(cfg, MarkDelivered(s, id))
  {
    hide RecordsOk, TracesOk, RefundTracesOk;
  }

  lemma SettleAtConserves(cs: seq<Checkout>, rs: seq<Refund>, i: nat, c: Checkout)
    requires MoneyOk(cs, rs, {}) && i < |cs| && c == cs[i].(settleAt := c.settleAt)
    ensures MoneyOk(cs[i := c], rs, {})
  {
    var now := cs[i := c];
    assert forall r: Refund :: PaidFor(c, r) == PaidFor(cs[i], r);
    forall j | 0 <= j < |rs| && rs[j].key.Given?
      ensures exists k :: 0 <= k < |now| && PaidFor(now[k], rs[j])
    {
      var k :| 0 <= k < |cs| && PaidFor(cs[k], rs[j]);
      assert PaidFor(now[k], rs[j]);
    }
    assert Conserves(c, rs);
    hide Conserves;
    assert forall k :: 0 <= k < |now| && k != i ==> now[k] == cs[k];
  }

  /** Setting when a processing checkout settles changes nothing the invariant reads. */
  lemma SettleAtValid(cfg: Config, s: State, i: nat, at: Time)
    requires Valid(cfg, s) && i < |s.checkouts|
    ensures Valid(cfg, s.(checkouts := s.checkouts[i := s.checkouts[i].(settleAt := Some(at))]))
  {
    hide RecordsOk, HistoryOk;
    SettleAtRecords(s.checkouts, s.checkoutByKey, s.refunds, s.refundByKey, s.drawn, i, s.checkouts[i].(settleAt := Some(at)));
    SettleAtHistory(cfg, s, i, at);
  }

  lemma SettleAtRecords(cs: seq<Checkout>, byKey: map<string, Id>, rs: seq<Refund>, refundByKey: map<string, Id>, drawn: nat, i: nat, c: Checkout)
    requires RecordsOk(cs, byKey, rs, refundByKey, drawn, {}) && i < |cs| && c == cs[i].(settleAt := c.settleAt) && c.settleAt.Some?
    ensures RecordsOk(cs[i := c], byKey, rs, refundByKey, drawn, {})
  {
    assert CheckoutIdsOk(cs[i := c], drawn) && ShapesOk(cs[i := c]);
    hide CheckoutIdsOk, KeysOk, RefundKeysOk, ShapesOk, MoneyOk, RefundIdsOk;
    ChangeKeys(cs, i, c, byKey);
    SettleAtConserves(cs, rs, i, c);
  }

  lemma SettleAtHistory(cfg: Config, s: State, i: nat, at: Time)
    requires HistoryOk(cfg, s) && i < |s.checkouts|
    ensures HistoryOk(cfg, s.(checkouts := s.checkouts[i := s.checkouts[i].(settleAt := Some(at))]))
  {
    hide LogOk, RefundTracesOk, Trace, Lawful;
  }

  lemma RefundSettleAtValid(cfg: Config, s: State, j: nat, at: Time)
    requires Valid(cfg, s) && j < |s.refunds|
    ensures Valid(cfg, s.(refunds := s.refunds[j := s.refunds[j].(settleAt := at)]))
  {
    var rs, r := s.refunds, s.refunds[j].(settleAt := at);
    assert RefundTracesOk(rs[j := r], s.history, s.drawn);
    hide RecordsOk, LogOk, TracesOk, RefundTracesOk;
    ChangeRefundRecords(s.checkouts, s.checkoutByKey, rs, s.refundByKey, s.drawn, j, r);
  }
}
