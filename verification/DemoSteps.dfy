/** Every step of the demo payment service keeps its invariant. */
module DemoSteps {
  import opened Wrappers
  import opened PaymentDemo
  import opened DemoInvariants

  // ---- sums of refunds ----------------------------------------------------

  lemma PostedSnoc(rs: seq<Refund>, r: Refund, ref: Id, exponent: nat)
    ensures PostedUnits(rs + [r], ref, exponent) == PostedUnits(rs, ref, exponent) + PostedWeight(r, ref, exponent)
  {
    assert (rs + [r])[..|rs|] == rs;
  }

  lemma {:induction false} PostedUpdate(rs: seq<Refund>, j: nat, r: Refund, ref: Id, exponent: nat)
    requires j < |rs|
    ensures PostedUnits(rs[j := r], ref, exponent) + PostedWeight(rs[j], ref, exponent)
         == PostedUnits(rs, ref, exponent) + PostedWeight(r, ref, exponent)
  {
    hide PostedWeight;
    var init := rs[..|rs| - 1];
    if j == |rs| - 1 {
      assert rs[j := r][..|rs| - 1] == init;
    } else {
      assert rs[j := r][..|rs| - 1] == init[j := r];
      PostedUpdate(init, j, r, ref, exponent);
    }
  }

  lemma {:induction false} PostedRemove(rs: seq<Refund>, j: nat, ref: Id, exponent: nat)
    requires j < |rs|
    ensures PostedUnits(RemoveAt(rs, j), ref, exponent) + PostedWeight(rs[j], ref, exponent) == PostedUnits(rs, ref, exponent)
  {
    hide PostedWeight;
    var init, last := rs[..|rs| - 1], rs[|rs| - 1];
    if j == |rs| - 1 {
      assert RemoveAt(rs, j) == init;
    } else {
      assert RemoveAt(rs, j) == RemoveAt(init, j) + [last];
      PostedSnoc(RemoveAt(init, j), last, ref, exponent);
      PostedRemove(init, j, ref, exponent);
    }
  }

  lemma {:induction false} PostedNone(rs: seq<Refund>, ref: Id, exponent: nat)
    requires forall j :: 0 <= j < |rs| && rs[j].key.Given? ==> rs[j].paymentRef != ref
    ensures PostedUnits(rs, ref, exponent) == 0
  {
    if rs != [] {
      PostedNone(rs[..|rs| - 1], ref, exponent);
    }
  }

  lemma {:induction false} PostedWithinRefunded(rs: seq<Refund>, ref: Id, exponent: nat)
    ensures PostedUnits(rs, ref, exponent) <= RefundedUnits(rs, ref, exponent)
  {
    if rs != [] {
      PostedWithinRefunded(rs[..|rs| - 1], ref, exponent);
    }
  }

  // ---- checkouts ----------------------------------------------------------

  lemma TickValid(cfg: Config, s: State, at: Time)
    requires Valid(cfg, s) && at >= s.clock
    ensures Valid(cfg, s.(clock := at))
  {
  }

  lemma DrawValid(cfg: Config, s: State)
    requires Valid(cfg, s)
    ensures Valid(cfg, Draw(s))
  {
  }

  ghost predicate FreshRef(cs: seq<Checkout>, rs: seq<Refund>, drawn: nat, ref: Id) {
    && ref.draw < drawn
    && (forall i :: 0 <= i < |cs| ==> cs[i].paymentRef != Some(ref))
    && (forall j :: 0 <= j < |rs| ==> rs[j].paymentRef != ref)
  }

  /** A checkout that has not succeeded has no refund asked through the API. */
  lemma NoRefundBeforeSuccess(cs: seq<Checkout>, rs: seq<Refund>, i: nat, drawn: nat, gone: set<Id>)
    requires CheckoutIdsOk(cs, drawn) && MoneyOk(cs, rs, gone)
    requires i < |cs| && cs[i].status != Succeeded && cs[i].paymentRef.Some?
    ensures forall j :: 0 <= j < |rs| && rs[j].key.Given? ==> rs[j].paymentRef != cs[i].paymentRef.value
  {
    forall j | 0 <= j < |rs| && rs[j].key.Given?
      ensures rs[j].paymentRef != cs[i].paymentRef.value
    {
      if rs[j].paymentRef !in gone {
        var k :| 0 <= k < |cs| && PaidFor(cs[k], rs[j]);
        assert k < i || i < k;
      }
    }
  }

  lemma ChangeMoney(cs: seq<Checkout>, rs: seq<Refund>, drawn: nat, i: nat, c: Checkout, gone: set<Id>)
    requires CheckoutIdsOk(cs, drawn) && MoneyOk(cs, rs, gone)
    requires i < |cs| && cs[i].status != Succeeded
    requires c.paymentRef == cs[i].paymentRef || (gone == {} && c.paymentRef.Some? && FreshRef(cs, rs, drawn, c.paymentRef.value))
    ensures MoneyOk(cs[i := c], rs, gone)
  {
    var now := cs[i := c];
    forall j | 0 <= j < |rs| && rs[j].key.Given? && rs[j].paymentRef !in gone
      ensures exists k :: 0 <= k < |now| && PaidFor(now[k], rs[j])
    {
      var k :| 0 <= k < |cs| && PaidFor(cs[k], rs[j]);
      assert PaidFor(now[k], rs[j]);
    }
    if c.paymentRef.Some? && c.takenAmount.Some? && c.takenCurrency.Some? {
      if cs[i].paymentRef == c.paymentRef {
        NoRefundBeforeSuccess(cs, rs, i, drawn, gone);
      }
      PostedNone(rs, c.paymentRef.value, Exponent(c.takenCurrency.value));
    }
    hide Conserves;
    assert forall k :: 0 <= k < |now| && k != i ==> now[k] == cs[k];
  }

  lemma ChangeIds(cs: seq<Checkout>, i: nat, c: Checkout, drawn: nat)
    requires CheckoutIdsOk(cs, drawn) && i < |cs| && c.id == cs[i].id
    requires c.paymentRef == cs[i].paymentRef
             || (c.paymentRef.Some? && c.paymentRef.value.draw < drawn && forall k :: 0 <= k < |cs| ==> cs[k].paymentRef != c.paymentRef)
    ensures CheckoutIdsOk(cs[i := c], drawn + 1)
  {
  }

  lemma ChangeKeys(cs: seq<Checkout>, i: nat, c: Checkout, byKey: map<string, Id>)
    requires KeysOk(cs, byKey) && i < |cs| && c.id == cs[i].id && c.key == cs[i].key
    ensures KeysOk(cs[i := c], byKey)
  {
    var now := cs[i := c];
    forall k | k in byKey
      ensures exists j :: 0 <= j < |now| && now[j].key == k
    {
      var j :| 0 <= j < |cs| && cs[j].key == k;
      assert now[j].key == k;
    }
  }

  lemma ChangeFacts(cs: seq<Checkout>, rs: seq<Refund>, i: nat, c: Checkout, drawn: nat)
    requires CheckoutIdsOk(cs, drawn) && RefundIdsOk(rs, drawn) && ShapesOk(cs)
    requires i < |cs| && c.id == cs[i].id && ShapeOk(c) && Follows(cs[i].status, c.status)
    ensures ShapesOk(cs[i := c]) && RefundIdsOk(rs, drawn + 1)
    ensures c.id.draw < drawn && forall k :: 0 <= k < |cs| && k != i ==> cs[k].id != c.id
    ensures cs[i].status != Succeeded
  {
    hide ShapeOk;
  }

  /** What the invariant says of one checkout. */
  lemma RecordsAt(cs: seq<Checkout>, byKey: map<string, Id>, rs: seq<Refund>, refundByKey: map<string, Id>, drawn: nat, gone: set<Id>, i: nat)
    requires RecordsOk(cs, byKey, rs, refundByKey, drawn, gone) && i < |cs|
    ensures ShapeOk(cs[i]) && cs[i].id.draw < drawn
    ensures forall k :: 0 <= k < |cs| && k != i ==> cs[k].id != cs[i].id
  {
  }

  lemma ChangeRecords(cs: seq<Checkout>, byKey: map<string, Id>, rs: seq<Refund>, refundByKey: map<string, Id>, drawn: nat,
                      i: nat, c: Checkout, gone: set<Id>)
    requires RecordsOk(cs, byKey, rs, refundByKey, drawn, gone) && i < |cs|
    requires MayBecome(cs, rs, drawn, i, c, gone)
    ensures RecordsOk(cs[i := c], byKey, rs, refundByKey, drawn + 1, gone)
  {
    hide CheckoutIdsOk, RefundIdsOk, KeysOk, RefundKeysOk, ShapesOk, MoneyOk, ShapeOk, Follows;
    ChangeFacts(cs, rs, i, c, drawn);
    ChangeMoney(cs, rs, drawn, i, c, gone);
    ChangeIds(cs, i, c, drawn);
    ChangeKeys(cs, i, c, byKey);
  }

  lemma ChangeHistory(cfg: Config, s: State, i: nat, c: Checkout)
    requires HistoryOk(cfg, s) && i < |s.checkouts| && c.id == s.checkouts[i].id && c.id.draw < s.drawn
    requires forall k :: 0 <= k < |s.checkouts| && k != i ==> s.checkouts[k].id != c.id
    requires Follows(s.checkouts[i].status, c.status)
    ensures HistoryOk(cfg, Change(s, i, c, s.clock))
  {
    hide LogOk, TracesOk, RefundTracesOk, EventFor, Follows;
    var e := EventFor(s.drawn, CheckoutIs(c.status), OfCheckout, Some(c), None, s.clock);
    LogMore(cfg, s.events, s.history, s.drawn, s.clock, e);
    TracesMove(s.checkouts, i, c, s.history, s.drawn, e);
    RefundTracesApart(s.refunds, s.history, s.drawn, e);
  }

  /** What makes `c` the next form of the checkout at `i`. */
  ghost predicate MayBecome(cs: seq<Checkout>, rs: seq<Refund>, drawn: nat, i: nat, c: Checkout, gone: set<Id>)
    requires i < |cs|
  {
    && c.id == cs[i].id && c.key == cs[i].key && ShapeOk(c)
    && Follows(cs[i].status, c.status)
    && (c.paymentRef == cs[i].paymentRef || (gone == {} && c.paymentRef.Some? && FreshRef(cs, rs, drawn, c.paymentRef.value)))
  }

  /** A checkout moves to a status that may follow its own. */
  lemma ChangeValid(cfg: Config, s: State, i: nat, c: Checkout, gone: set<Id>)
    requires ValidBut(cfg, s, gone) && i < |s.checkouts| && MayBecome(s.checkouts, s.refunds, s.drawn, i, c, gone)
    ensures ValidBut(cfg, Change(s, i, c, s.clock), gone)
  {
    hide RecordsOk, HistoryOk, EventFor;
    ChangeRecords(s.checkouts, s.checkoutByKey, s.refunds, s.refundByKey, s.drawn, i, c, gone);
    RecordsAt(s.checkouts, s.checkoutByKey, s.refunds, s.refundByKey, s.drawn, gone, i);
    ChangeHistory(cfg, s, i, c);
  }

  lemma AgeValid(cfg: Config, s: State, i: nat, gone: set<Id>)
    requires ValidBut(cfg, s, gone) && i < |s.checkouts|
    ensures ValidBut(cfg, Age(s, i, s.clock), gone)
  {
    hide RecordsOk, HistoryOk, Change;
    var c := s.checkouts[i];
    RecordsAt(s.checkouts, s.checkoutByKey, s.refunds, s.refundByKey, s.drawn, gone, i);
    if c.status == Processing && c.settleAt.Some? && s.clock >= c.settleAt.value {
      ChangeValid(cfg, s, i, c.(status := Succeeded, settledAt := c.settleAt), gone);
    } else if (c.status == Pending || c.status == RequiresAction) && s.clock >= c.expiresAt {
      ChangeValid(cfg, s, i, c.(status := Expired), gone);
    }
  }

  // ---- opening a checkout -------------------------------------------------

  lemma AddKeys(cs: seq<Checkout>, c: Checkout, byKey: map<string, Id>)
    requires KeysOk(cs, byKey) && c.key !in byKey
    ensures KeysOk(cs + [c], byKey[c.key := c.id])
  {
    var now, keys := cs + [c], byKey[c.key := c.id];
    forall k | k in keys
      ensures exists j :: 0 <= j < |now| && now[j].key == k
    {
      if k == c.key {
        assert now[|cs|].key == k;
      } else {
        var j :| 0 <= j < |cs| && cs[j].key == k;
        assert now[j].key == k;
      }
    }
  }

  lemma AddMoney(cs: seq<Checkout>, rs: seq<Refund>, c: Checkout)
    requires MoneyOk(cs, rs, {}) && c.paymentRef.None?
    ensures MoneyOk(cs + [c], rs, {})
  {
    var now := cs + [c];
    forall j | 0 <= j < |rs| && rs[j].key.Given?
      ensures exists k :: 0 <= k < |now| && PaidFor(now[k], rs[j])
    {
      var k :| 0 <= k < |cs| && PaidFor(cs[k], rs[j]);
      assert PaidFor(now[k], rs[j]);
    }
    assert Conserves(c, rs);
    hide Conserves;
    assert forall k :: 0 <= k < |cs| ==> now[k] == cs[k];
  }

  lemma AddRecords(cs: seq<Checkout>, byKey: map<string, Id>, rs: seq<Refund>, refundByKey: map<string, Id>, drawn: nat, c: Checkout)
    requires RecordsOk(cs, byKey, rs, refundByKey, drawn, {})
    requires c.key !in byKey && ShapeOk(c) && c.status == Pending && c.id.draw == drawn
    ensures RecordsOk(cs + [c], byKey[c.key := c.id], rs, refundByKey, drawn + 2, {})
  {
    assert CheckoutIdsOk(cs + [c], drawn + 2);
    assert c.paymentRef.None?;
    hide KeysOk, RefundKeysOk, MoneyOk, ShapeOk;
    AddKeys(cs, c, byKey);
    AddMoney(cs, rs, c);
  }

  lemma OpenHistory(cfg: Config, s: State, c: Checkout)
    requires HistoryOk(cfg, s) && c.id.draw == s.drawn && c.status == Pending
    ensures HistoryOk(cfg, AddCheckout(s, c, s.clock))
  {
    hide LogOk, TracesOk, RefundTracesOk, EventFor, Trace;
    OpenIds(cfg, s, c.id);
    var e := EventFor(s.drawn + 1, CheckoutIs(Pending), OfCheckout, Some(c), None, s.clock);
    LogMore(cfg, s.events, s.history, s.drawn + 1, s.clock, e);
    TracesOpen(s.checkouts, c, s.history, s.drawn + 1, e);
    RefundTracesApart(s.refunds, s.history, s.drawn + 1, e);
  }

  lemma OpenIds(cfg: Config, s: State, id: Id)
    requires HistoryOk(cfg, s) && id.draw == s.drawn
    ensures LogOk(cfg, s.events, s.history, s.drawn + 1, s.clock)
    ensures TracesOk(s.checkouts, s.history, s.drawn + 1) && Trace(s.history, id) == []
    ensures RefundTracesOk(s.refunds, s.history, s.drawn + 1)
  {
    hide Trace, RefundTrace, Lawful, RefundLawful;
  }

  lemma AddCheckoutValid(cfg: Config, s: State, c: Checkout)
    requires Valid(cfg, s) && c.key !in s.checkoutByKey && ShapeOk(c) && c.status == Pending && c.id.draw == s.drawn
    ensures Valid(cfg, AddCheckout(s, c, s.clock))
  {
    hide RecordsOk, HistoryOk, EventFor, ShapeOk;
    AddRecords(s.checkouts, s.checkoutByKey, s.refunds, s.refundByKey, s.drawn, c);
    OpenHistory(cfg, s, c);
  }

  // ---- refunds ------------------------------------------------------------

  lemma RefundRecordsAt(cs: seq<Checkout>, byKey: map<string, Id>, rs: seq<Refund>, refundByKey: map<string, Id>, drawn: nat, gone: set<Id>, j: nat)
    requires RecordsOk(cs, byKey, rs, refundByKey, drawn, gone) && j < |rs|
    ensures rs[j].id.draw < drawn
    ensures forall k :: 0 <= k < |rs| && k != j ==> rs[k].id != rs[j].id
  {
  }

  /** Same refund, possibly failed since: what it was weighs no less. */
  ghost predicate SameRefund(a: Refund, b: Refund) {
    a.id == b.id && a.key == b.key && a.paymentRef == b.paymentRef && a.amount == b.amount && a.currency == b.currency && (Stands(b) ==> Stands(a))
  }

  lemma ChangeRefundConserves(c: Checkout, rs: seq<Refund>, j: nat, r: Refund)
    requires j < |rs| && SameRefund(rs[j], r) && Conserves(c, rs)
    ensures Conserves(c, rs[j := r])
  {
    if c.paymentRef.Some? && c.takenAmount.Some? && c.takenCurrency.Some? {
      PostedUpdate(rs, j, r, c.paymentRef.value, Exponent(c.takenCurrency.value));
    }
  }

  lemma ChangeRefundMoney(cs: seq<Checkout>, rs: seq<Refund>, j: nat, r: Refund)
    requires MoneyOk(cs, rs, {}) && j < |rs| && SameRefund(rs[j], r)
    ensures MoneyOk(cs, rs[j := r], {})
  {
    var now := rs[j := r];
    hide Conserves;
    forall i | 0 <= i < |cs|
      ensures Conserves(cs[i], now)
    {
      ChangeRefundConserves(cs[i], rs, j, r);
    }
    forall n | 0 <= n < |now| && now[n].key.Given?
      ensures exists i :: 0 <= i < |cs| && PaidFor(cs[i], now[n])
    {
      var i :| 0 <= i < |cs| && PaidFor(cs[i], rs[n]);
      assert PaidFor(cs[i], now[n]);
    }
  }

  lemma ChangeRefundKeys(rs: seq<Refund>, j: nat, r: Refund, byKey: map<string, Id>)
    requires RefundKeysOk(rs, byKey) && j < |rs| && r.id == rs[j].id && r.key == rs[j].key
    ensures RefundKeysOk(rs[j := r], byKey)
  {
    var now := rs[j := r];
    forall k | k in byKey
      ensures exists n :: 0 <= n < |now| && now[n].key == Given(k)
    {
      var n :| 0 <= n < |rs| && rs[n].key == Given(k);
      assert now[n].key == Given(k);
    }
  }

  lemma ChangeRefundRecords(cs: seq<Checkout>, byKey: map<string, Id>, rs: seq<Refund>, refundByKey: map<string, Id>, drawn: nat, j: nat, r: Refund)
    requires RecordsOk(cs, byKey, rs, refundByKey, drawn, {}) && j < |rs| && SameRefund(rs[j], r)
    ensures RecordsOk(cs, byKey, rs[j := r], refundByKey, drawn, {})
    ensures RecordsOk(cs, byKey, rs[j := r], refundByKey, drawn + 1, {})
  {
    assert RefundIdsOk(rs[j := r], drawn);
    hide KeysOk, RefundKeysOk, MoneyOk, SameRefund;
    ChangeRefundMoney(cs, rs, j, r);
    ChangeRefundKeys(rs, j, r, refundByKey);
  }

  lemma ChangeRefundHistory(cfg: Config, s: State, j: nat, r: Refund)
    requires HistoryOk(cfg, s) && j < |s.refunds| && r.id == s.refunds[j].id && r.id.draw < s.drawn
    requires forall k :: 0 <= k < |s.refunds| && k != j ==> s.refunds[k].id != r.id
    requires RefundFollows(s.refunds[j].status, r.status)
    ensures HistoryOk(cfg, ChangeRefund(s, j, r, s.clock))
  {
    hide LogOk, TracesOk, RefundTracesOk, EventFor, RefundFollows;
    var e := EventFor(s.drawn, RefundIs(r.status), OfRefund, None, Some(r), s.clock);
    LogMore(cfg, s.events, s.history, s.drawn, s.clock, e);
    TracesApart(s.checkouts, s.history, s.drawn, e);
    RefundTracesMove(s.refunds, j, r, s.history, s.drawn, e);
  }

  lemma ChangeRefundValid(cfg: Config, s: State, j: nat, r: Refund)
    requires Valid(cfg, s) && j < |s.refunds| && SameRefund(s.refunds[j], r) && RefundFollows(s.refunds[j].status, r.status)
    ensures Valid(cfg, ChangeRefund(s, j, r, s.clock))
  {
    hide RecordsOk, HistoryOk, EventFor, RefundFollows;
    RefundRecordsAt(s.checkouts, s.checkoutByKey, s.refunds, s.refundByKey, s.drawn, {}, j);
    ChangeRefundRecords(s.checkouts, s.checkoutByKey, s.refunds, s.refundByKey, s.drawn, j, r);
    ChangeRefundHistory(cfg, s, j, r);
  }

  lemma AgeRefundValid(cfg: Config, s: State, j: nat)
    requires Valid(cfg, s) && j < |s.refunds|
    ensures Valid(cfg, AgeRefund(s, j, s.clock))
  {
    hide ValidBut, ChangeRefund;
    var r := s.refunds[j];
    if r.status == RefundPending && s.clock >= r.settleAt {
      ChangeRefundValid(cfg, s, j, r.(status := RefundSucceeded));
    }
  }
}
