/** What a customer's steps come to at the demo payment service, from one operation to the next. */
module DemoFlows {
  import opened Wrappers
  import opened PaymentDemo
  import opened DemoTheorems

  /** The checkout can still be paid at `at`. */
  predicate Payable(c: Checkout, at: Time) {
    (c.status == Pending || c.status == RequiresAction) && at < c.expiresAt
  }

  predicate Apart(cs: seq<Checkout>) {
    forall j, k :: 0 <= j < k < |cs| ==> cs[j].id != cs[k].id
  }

  lemma ApartTail(cs: seq<Checkout>, i: nat)
    requires Apart(cs) && i < |cs|
    ensures Apart(cs[1..]) && (forall k :: 0 <= k < |cs[1..]| ==> cs[1..][k].id != cs[0].id) && (i > 0 ==> cs[1..][i - 1] == cs[i] && cs[i].id != cs[0].id)
  {
  }

  lemma KeptAtItsPlace(cfg: Config, s: State, i: nat)
    requires Reachable(cfg, s) && i < |s.checkouts|
    ensures CheckoutIndex(s.checkouts, s.checkouts[i].id) == i
    ensures Apart(s.checkouts)
  {
    ReachableValid(cfg, s);
  }

  // ---- reading through HTTP, which forgets first ---------------------------

  lemma KeptStep(cfg: Config, cs: seq<Checkout>, at: Time)
    requires cs != []
    ensures Kept(cfg, cs, at) == if LongOver(cfg, cs[0], at) then Kept(cfg, cs[1..], at) else [Aged(cs[0], at)] + Kept(cfg, cs[1..], at)
  {
    hide Aged, LongOver;
    assert [] + Kept(cfg, cs[1..], at) == Kept(cfg, cs[1..], at);
  }

  lemma {:induction false} KeptOthers(cfg: Config, cs: seq<Checkout>, at: Time, id: Id)
    requires forall k :: 0 <= k < |cs| ==> cs[k].id != id
    ensures CheckoutIndex(Kept(cfg, cs, at), id) == |Kept(cfg, cs, at)|
    decreases |cs|
  {
    if cs == [] {
      assert Kept(cfg, cs, at) == [];
    } else {
      hide Aged, LongOver, Kept, CheckoutIndex;
      KeptStep(cfg, cs, at);
      AgedKeeps(cs[0], at);
      KeptOthers(cfg, cs[1..], at, id);
      FirstOr(Aged(cs[0], at), Kept(cfg, cs[1..], at), id);
    }
  }

  lemma FirstOr(c: Checkout, rest: seq<Checkout>, id: Id)
    ensures CheckoutIndex([c] + rest, id) == if c.id == id then 0 else 1 + CheckoutIndex(rest, id)
  {
    assert ([c] + rest)[1..] == rest;
  }

  /** After forgetting a checkout is found, aged, exactly when it is not over. */
  lemma {:induction false} KeptFinds(cfg: Config, cs: seq<Checkout>, at: Time, i: nat)
    requires i < |cs| && Apart(cs)
    ensures var kept, c := Kept(cfg, cs, at), Aged(cs[i], at);
            var k := CheckoutIndex(kept, cs[i].id);
            if LongOver(cfg, cs[i], at) then k == |kept| else k < |kept| && kept[k] == c
    decreases |cs|
  {
    hide Aged, LongOver, Apart, Kept, CheckoutIndex;
    ApartTail(cs, i);
    KeptStep(cfg, cs, at);
    AgedKeeps(cs[0], at);
    FirstOr(Aged(cs[0], at), Kept(cfg, cs[1..], at), cs[i].id);
    if i == 0 {
      KeptOthers(cfg, cs[1..], at, cs[0].id);
    } else {
      KeptFinds(cfg, cs[1..], at, i - 1);
    }
  }

  lemma AgedTwice(c: Checkout, at: Time)
    ensures Aged(Aged(c, at), at) == Aged(c, at)
  {
  }

  /** What reading one answers: it as the clock has left it, or nothing once it is over and there was time to forget it. */
  function ReadOf(cfg: Config, s: State, c: Checkout, at: Time): Reply {
    if !Throttled(s, at) && LongOver(cfg, c, at) then Error(404, NotFound) else Answer(200, CheckoutBody(Aged(c, at)))
  }

  lemma HttpReads(cfg: Config, s: State, i: nat, later: Time)
    requires Reachable(cfg, s) && i < |s.checkouts| && later >= s.clock
    ensures Step(cfg, s, CallHttp(true, true, GetCheckout(s.checkouts[i].id)), later).1 == ReadOf(cfg, s, s.checkouts[i], later)
  {
    hide Reachable, Forget, Aged, LongOver, Kept, ReadCheckout;
    var s0 := s.(clock := later);
    var t := Forget(cfg, s0, later);
    KeptAtItsPlace(cfg, s, i);
    AgedKeeps(s.checkouts[i], later);
    AgedTwice(s.checkouts[i], later);
    ForgetAtRead(cfg, s0, i, later);
    ReadAnswers(t, s.checkouts[i].id, later);
  }

  lemma ForgetAtRead(cfg: Config, s: State, i: nat, at: Time)
    requires i < |s.checkouts| && CheckoutIndex(s.checkouts, s.checkouts[i].id) == i
    requires Apart(s.checkouts)
    ensures var t := Forget(cfg, s, at);
            var k := CheckoutIndex(t.checkouts, s.checkouts[i].id);
            if Throttled(s, at) then k < |t.checkouts| && t.checkouts[k] == s.checkouts[i]
            else if LongOver(cfg, s.checkouts[i], at) then k == |t.checkouts|
            else k < |t.checkouts| && t.checkouts[k] == Aged(s.checkouts[i], at)
  {
    hide Aged, LongOver, Kept, DropCheckoutsFrom, DropRefundsFrom, RecentEvents;
    if !Throttled(s, at) {
      ForgetDropsExactly(cfg, s, at);
      KeptFinds(cfg, s.checkouts, at, i);
    }
  }

  lemma ReadAnswers(t: State, id: Id, at: Time)
    ensures var k := CheckoutIndex(t.checkouts, id);
            ReadCheckout(t, id, at).1 == if k == |t.checkouts| then Error(404, NotFound) else Answer(200, CheckoutBody(Aged(t.checkouts[k], at)))
  {
    hide Age, Aged;
    var k := CheckoutIndex(t.checkouts, id);
    if k < |t.checkouts| {
      AgeIsAged(t, k, at);
    }
  }

  function Chosen(override_: Option<string>, asked: string): string {
    match override_ case Some(text) => text case None => asked
  }

  /** What the hosted page's payment leaves, read at `later`: nothing else of the checkout has changed. */
  ghost predicate ReadsAsPaid(cfg: Config, before: Checkout, after: Checkout, card: Card, amount: Option<string>, currency: Option<string>, at: Time, later: Time) {
    && after.id == before.id && after.attemptId == before.attemptId && after.key == before.key && after.expiresAt == before.expiresAt
    && after.amount == before.amount && after.currency == before.currency
    && match card
       case Fails => after.status == Failed && after.paymentRef == before.paymentRef && after.settledAt == before.settledAt
       case Succeeds =>
         && after.status == Succeeded && after.settledAt == Some(at) && after.paidWith == Some(CARD)
         && after.takenAmount == Some(Chosen(amount, before.amount)) && after.takenCurrency == Some(Chosen(currency, before.currency))
       case NeedsAStep =>
         && after.status == (if later < before.expiresAt then RequiresAction else Expired) && after.settledAt == before.settledAt
         && after.takenAmount == Some(Chosen(amount, before.amount)) && after.takenCurrency == Some(Chosen(currency, before.currency))
       case SettlesLate =>
         && after.status == (if later < at + cfg.settleAfter then Processing else Succeeded)
         && after.settledAt == (if later < at + cfg.settleAfter then before.settledAt else Some(at + cfg.settleAfter))
         && after.paidWith == Some(BANK_DEBIT)
         && after.takenAmount == Some(Chosen(amount, before.amount)) && after.takenCurrency == Some(Chosen(currency, before.currency))
  }

  /** The checkout right after the payment. */
  function PaidCheckout(cfg: Config, c: Checkout, ref: Id, card: Card, amount: Option<string>, currency: Option<string>, at: Time): Checkout {
    if card == Fails then c.(status := Failed, failureMessage := Some("The demo card was declined."))
    else Paying(cfg, c, ref, card, amount, currency, at)
  }

  lemma PaysInPlace(cfg: Config, s: State, i: nat, card: Card, amount: Option<string>, currency: Option<string>, at: Time)
    requires i < |s.checkouts| && CheckoutIndex(s.checkouts, s.checkouts[i].id) == i && Payable(s.checkouts[i], at)
    ensures var (paid, done) := PayWith(cfg, s, s.checkouts[i].id, card, amount, currency, at);
            && done == Done && paid.refunds == s.refunds
            && paid.checkouts == s.checkouts[i := PaidCheckout(cfg, s.checkouts[i], Id(Pay, s.drawn), card, amount, currency, at)]
  {
    hide EventFor, Paying;
    assert Age(s, i, at) == s;
  }

  lemma AgedAsPaid(cfg: Config, c: Checkout, ref: Id, card: Card, amount: Option<string>, currency: Option<string>, at: Time, later: Time)
    requires (c.status == Pending || c.status == RequiresAction) && at < c.expiresAt
    ensures var paid := PaidCheckout(cfg, c, ref, card, amount, currency, at);
            && paid.id == c.id && ReadsAsPaid(cfg, c, Aged(paid, later), card, amount, currency, at, later)
            && (card != Fails ==> Aged(paid, later).paymentRef == Some(ref))
  {
  }

  /**
   * A payment, then a read at any later time. Unless the checkout was forgotten, which it is exactly when it is over and the
   * last clean-up a minute ago: an overridden amount or currency is what was taken and otherwise what was asked for, and a late
   * payment settles when it was due, whenever that is noticed. No other checkout and no refund changes by paying.
   */
  lemma PayThenRead(cfg: Config, s: State, i: nat, card: Card, amount: Option<string>, currency: Option<string>, at: Time, later: Time)
    requires Reachable(cfg, s) && i < |s.checkouts| && s.clock <= at <= later && Payable(s.checkouts[i], at)
    ensures var (paid, done) := Step(cfg, s, CallPay(s.checkouts[i].id, card, amount, currency), at);
            var read := Step(cfg, paid, CallHttp(true, true, GetCheckout(s.checkouts[i].id)), later).1;
            && done == Done
            && |paid.checkouts| == |s.checkouts|
            && read == ReadOf(cfg, paid, paid.checkouts[i], later)
            && ReadsAsPaid(cfg, s.checkouts[i], Aged(paid.checkouts[i], later), card, amount, currency, at, later)
            && (card != Fails ==> paid.checkouts[i].paymentRef == Some(Id(Pay, s.drawn)))
            && (forall k :: 0 <= k < |s.checkouts| && k != i ==> paid.checkouts[k] == s.checkouts[k])
            && paid.refunds == s.refunds
  {
    hide PayWith, Http, Aged, PaidCheckout, ReadsAsPaid, ReadOf, Reachable;
    var c, s0 := s.checkouts[i], s.(clock := at);
    var op := CallPay(c.id, card, amount, currency);
    KeptAtItsPlace(cfg, s, i);
    PaysInPlace(cfg, s0, i, card, amount, currency, at);
    AgedAsPaid(cfg, c, Id(Pay, s.drawn), card, amount, currency, at, later);
    AgedKeeps(PaidCheckout(cfg, c, Id(Pay, s.drawn), card, amount, currency, at), later);
    ReachableNext(cfg, s, op, at);
    HttpReads(cfg, Step(cfg, s, op, at).0, i, later);
  }

  /** No checkout or refund ever had the reference a new payment gets. */
  lemma PaymentIsNew(cfg: Config, s: State)
    requires Reachable(cfg, s)
    ensures forall k :: 0 <= k < |s.checkouts| ==> s.checkouts[k].paymentRef != Some(Id(Pay, s.drawn))
    ensures forall j :: 0 <= j < |s.refunds| ==> s.refunds[j].paymentRef != Id(Pay, s.drawn)
  {
    ReachableValid(cfg, s);
  }

  // ---- refunds ------------------------------------------------------------

  /** A refund as it is once the clock has been read. */
  function AgedRefund(r: Refund, at: Time): Refund {
    if r.status == RefundPending && at >= r.settleAt then r.(status := RefundSucceeded) else r
  }

  /** A checkout paid under this reference is over. */
  ghost predicate PaymentOver(cfg: Config, s: State, ref: Id, at: Time) {
    exists i :: 0 <= i < |s.checkouts| && s.checkouts[i].paymentRef == Some(ref) && LongOver(cfg, s.checkouts[i], at)
  }

  lemma {:induction false} GoneExactly(cfg: Config, cs: seq<Checkout>, at: Time, i: nat)
    requires i < |cs| && cs[i].paymentRef.Some? && LongOver(cfg, cs[i], at)
    ensures cs[i].paymentRef.value in GonePayments(cfg, cs, at)
    decreases |cs|
  {
    hide Aged, LongOver;
    if i > 0 {
      assert cs[1..][i - 1] == cs[i];
      GoneExactly(cfg, cs[1..], at, i - 1);
    }
  }

  lemma GoneWhenOver(cfg: Config, s: State, ref: Id, at: Time)
    ensures ref in GonePayments(cfg, s.checkouts, at) <==> PaymentOver(cfg, s, ref, at)
  {
    hide GonePayments, Aged, LongOver;
    if PaymentOver(cfg, s, ref, at) {
      var i :| 0 <= i < |s.checkouts| && s.checkouts[i].paymentRef == Some(ref) && LongOver(cfg, s.checkouts[i], at);
      GoneExactly(cfg, s.checkouts, at, i);
    }
    if ref in GonePayments(cfg, s.checkouts, at) {
      GoneOnlyDropped(cfg, s.checkouts, at, ref);
    }
  }

  lemma FirstRefundOr(r: Refund, rest: seq<Refund>, id: Id)
    ensures RefundIndex([r] + rest, id) == if r.id == id then 0 else 1 + RefundIndex(rest, id)
  {
    assert ([r] + rest)[1..] == rest;
  }

  lemma KeptRefundsStep(rs: seq<Refund>, gone: set<Id>)
    requires rs != []
    ensures KeptRefunds(rs, gone) == if rs[0].paymentRef in gone then KeptRefunds(rs[1..], gone) else [rs[0]] + KeptRefunds(rs[1..], gone)
  {
    assert [] + KeptRefunds(rs[1..], gone) == KeptRefunds(rs[1..], gone);
  }

  lemma {:induction false} OtherRefundsKept(rs: seq<Refund>, gone: set<Id>, id: Id)
    requires forall k :: 0 <= k < |rs| ==> rs[k].id != id
    ensures RefundIndex(KeptRefunds(rs, gone), id) == |KeptRefunds(rs, gone)|
    decreases |rs|
  {
    if rs == [] {
      assert KeptRefunds(rs, gone) == [];
    } else {
      hide KeptRefunds, RefundIndex;
      KeptRefundsStep(rs, gone);
      OtherRefundsKept(rs[1..], gone, id);
      FirstRefundOr(rs[0], KeptRefunds(rs[1..], gone), id);
    }
  }

  predicate RefundsDiffer(rs: seq<Refund>) {
    forall i, k :: 0 <= i < k < |rs| ==> rs[i].id != rs[k].id
  }

  lemma RefundsTail(rs: seq<Refund>, j: nat)
    requires RefundsDiffer(rs) && j < |rs|
    ensures RefundsDiffer(rs[1..]) && (forall k :: 0 <= k < |rs[1..]| ==> rs[1..][k].id != rs[0].id) && (j > 0 ==> rs[1..][j - 1] == rs[j] && rs[j].id != rs[0].id)
  {
  }

  /** After forgetting a refund is found exactly when its payment was not dropped. */
  lemma {:induction false} RefundFound(rs: seq<Refund>, gone: set<Id>, j: nat)
    requires j < |rs| && RefundsDiffer(rs)
    ensures var kept := KeptRefunds(rs, gone);
            var k := RefundIndex(kept, rs[j].id);
            if rs[j].paymentRef in gone then k == |kept| else k < |kept| && kept[k] == rs[j]
    decreases |rs|
  {
    hide RefundsDiffer, KeptRefunds, RefundIndex;
    RefundsTail(rs, j);
    KeptRefundsStep(rs, gone);
    FirstRefundOr(rs[0], KeptRefunds(rs[1..], gone), rs[j].id);
    if j == 0 {
      OtherRefundsKept(rs[1..], gone, rs[0].id);
    } else {
      RefundFound(rs[1..], gone, j - 1);
    }
  }

  lemma RefundsApart(cfg: Config, s: State)
    requires Reachable(cfg, s)
    ensures RefundsDiffer(s.refunds)
  {
    ReachableValid(cfg, s);
  }

  /** What reading a refund answers: it as the clock has left it, or nothing once its payment is over and there was time to forget it. */
  ghost function ReadOfRefund(cfg: Config, s: State, r: Refund, at: Time): Reply {
    if !Throttled(s, at) && PaymentOver(cfg, s, r.paymentRef, at) then Error(404, NotFound) else Answer(200, RefundBody(AgedRefund(r, at)))
  }

  lemma ForgetAtRefund(cfg: Config, s: State, j: nat, at: Time)
    requires j < |s.refunds| && RefundsDiffer(s.refunds)
    ensures var t := Forget(cfg, s, at);
            var k := RefundIndex(t.refunds, s.refunds[j].id);
            if !Throttled(s, at) && PaymentOver(cfg, s, s.refunds[j].paymentRef, at) then k == |t.refunds|
            else k < |t.refunds| && t.refunds[k] == s.refunds[j]
  {
    hide PaymentOver, GonePayments, KeptRefunds, DropCheckoutsFrom, DropRefundsFrom, RecentEvents, Kept;
    if Throttled(s, at) {
      RefundFound(s.refunds, {}, j);
      NoneDropped(s.refunds);
    } else {
      ForgetDropsExactly(cfg, s, at);
      GoneWhenOver(cfg, s, s.refunds[j].paymentRef, at);
      RefundFound(s.refunds, GonePayments(cfg, s.checkouts, at), j);
    }
  }

  lemma {:induction false} NoneDropped(rs: seq<Refund>)
    ensures KeptRefunds(rs, {}) == rs
    decreases |rs|
  {
    if rs != [] {
      NoneDropped(rs[1..]);
    }
  }

  lemma ReadRefundAnswers(t: State, id: Id, at: Time)
    ensures var k := RefundIndex(t.refunds, id);
            ReadRefund(t, id, at).1 == if k == |t.refunds| then Error(404, NotFound) else Answer(200, RefundBody(AgedRefund(t.refunds[k], at)))
  {
    hide EventFor;
  }

  lemma HttpReadsRefund(cfg: Config, s: State, j: nat, later: Time)
    requires Reachable(cfg, s) && j < |s.refunds| && later >= s.clock
    ensures Step(cfg, s, CallHttp(true, true, GetRefund(s.refunds[j].id)), later).1 == ReadOfRefund(cfg, s, s.refunds[j], later)
  {
    hide Reachable, Forget, PaymentOver, AgedRefund, ReadRefund;
    var s0 := s.(clock := later);
    RefundsApart(cfg, s);
    ForgetAtRefund(cfg, s0, j, later);
    ReadRefundAnswers(Forget(cfg, s0, later), s.refunds[j].id, later);
    SameOver(cfg, s, s0, s.refunds[j].paymentRef, later);
  }

  lemma SameOver(cfg: Config, s: State, t: State, ref: Id, at: Time)
    requires s.checkouts == t.checkouts
    ensures PaymentOver(cfg, s, ref, at) == PaymentOver(cfg, t, ref, at)
  {
    hide LongOver, Aged;
  }

  // ---- forgetting makes no key ---------------------------------------------

  lemma {:induction false} DropsNoRefundKey(cfg: Config, s: State, i: nat, gone: set<Id>, at: Time)
    requires i <= |s.checkouts|
    ensures DropCheckoutsFrom(cfg, s, i, gone, at).0.refundByKey == s.refundByKey
    decreases |s.checkouts| - i
  {
    hide Over, Gone, EventFor;
    if i < |s.checkouts| {
      var t := Age(s, i, at);
      if Over(cfg, t.checkouts[i], at) {
        DropsNoRefundKey(cfg, DropCheckout(t, i), i, Gone(gone, t.checkouts[i]), at);
      } else {
        DropsNoRefundKey(cfg, t, i + 1, gone, at);
      }
    }
  }

  lemma {:induction false} DropsKeysOnly(s: State, j: nat, gone: set<Id>, key: string)
    requires j <= |s.refunds| && key !in s.refundByKey
    ensures key !in DropRefundsFrom(s, j, gone).refundByKey
    decreases |s.refunds| - j
  {
    if j < |s.refunds| {
      if s.refunds[j].paymentRef in gone {
        DropsKeysOnly(DropRefund(s, j), j, gone, key);
      } else {
        DropsKeysOnly(s, j + 1, gone, key);
      }
    }
  }

  lemma ForgetMakesNoKey(cfg: Config, s: State, at: Time, key: string)
    requires key !in s.refundByKey
    ensures key !in Forget(cfg, s, at).refundByKey
  {
    hide DropCheckoutsFrom, DropRefundsFrom, RecentEvents;
    var s0 := s.(forgotAt := Some(at));
    DropsNoRefundKey(cfg, s0, 0, {}, at);
    var (t, gone) := DropCheckoutsFrom(cfg, s0, 0, {}, at);
    DropsKeysOnly(t, 0, gone, key);
  }

  /** A refund that is made is the last one, and of what was asked. */
  lemma MakesRefund(cfg: Config, s: State, r: Request, at: Time)
    requires r.PostRefund? && r.key.Some? && r.key.value !in s.refundByKey
    requires CreateRefund(cfg, s, r, at).1.Answer? && CreateRefund(cfg, s, r, at).1.status == 200
    ensures var (made, reply) := CreateRefund(cfg, s, r, at);
            && reply.body.RefundBody?
            && var refund := reply.body.refund;
               && made.refunds == s.refunds + [refund]
               && refund.status == RefundPending && refund.settleAt == at + cfg.settleAfter
               && refund.amount == r.amount && refund.currency == r.refundCurrency && refund.paymentRef == r.paymentRef
  {
    hide Fits, RefundedSoFar, Exponent, EventFor;
  }

  /**
   * A refund taken under a new key, then read at any later time: pending until it is due and then succeeded, of the amount asked;
   * or forgotten, exactly when its payment is over and the last clean-up a minute ago.
   */
  lemma RefundThenRead(cfg: Config, s: State, r: Request, at: Time, later: Time)
    requires Reachable(cfg, s) && s.clock <= at <= later && r.PostRefund? && r.key.Some? && r.key.value !in s.refundByKey
    requires Step(cfg, s, CallHttp(true, true, r), at).1.Answer? && Step(cfg, s, CallHttp(true, true, r), at).1.status == 200
    ensures var (made, reply) := Step(cfg, s, CallHttp(true, true, r), at);
            && reply.body.RefundBody?
            && var refund := reply.body.refund;
               && Step(cfg, made, CallHttp(true, true, GetRefund(refund.id)), later).1 == ReadOfRefund(cfg, made, refund, later)
               && AgedRefund(refund, later) == refund.(status := if later < at + cfg.settleAfter then RefundPending else RefundSucceeded)
               && refund.amount == r.amount && refund.currency == r.refundCurrency && refund.paymentRef == r.paymentRef
  {
    hide Reachable, Forget, CreateRefund, ReadRefund, ReadOfRefund;
    var t := Forget(cfg, s.(clock := at), at);
    ForgetMakesNoKey(cfg, s.(clock := at), at, r.key.value);
    MakesRefund(cfg, t, r, at);
    ReachableNext(cfg, s, CallHttp(true, true, r), at);
    HttpReadsRefund(cfg, Step(cfg, s, CallHttp(true, true, r), at).0, |t.refunds|, later);
  }
}
