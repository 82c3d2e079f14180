/**
 * What each HTTP call to the demo payment service answers and leaves: the clean-up that runs first, and then the route, in the
 * fields of the records themselves.
 */
module DemoHttp {
  import opened Wrappers
  import opened PaymentDemo
  import opened DemoInvariants
  import opened DemoForget
  import opened DemoOps
  import opened DemoLog
  import opened DemoTheorems
  import opened DemoFlows
  import opened DemoOutcomes

  // ---- the clean-up -------------------------------------------------------

  /** The state every route starts from. */
  function Cleaned(cfg: Config, s: State, at: Time): State {
    Forget(cfg, s.(clock := at), at)
  }

  lemma CleanedValid(cfg: Config, s: State, at: Time)
    requires Reachable(cfg, s) && at >= s.clock
    ensures Valid(cfg, Cleaned(cfg, s, at)) && Cleaned(cfg, s, at).clock == at
  {
    hide Reachable, Valid, Forget;
    ReachableValid(cfg, s);
    TickIsValid(cfg, s, at);
    ForgetValid(cfg, s.(clock := at));
  }

  lemma TickIsValid(cfg: Config, s: State, at: Time)
    requires Valid(cfg, s) && at >= s.clock
    ensures Valid(cfg, s.(clock := at))
  {
    hide RecordsOk, TracesOk, RefundTracesOk;
  }

  lemma OverOnceAged(cfg: Config, c: Checkout, at: Time)
    ensures var a := Aged(c, at);
            LongOver(cfg, c, at) <==>
            || (a.status == Succeeded && a.settledAt.Some? && at > a.settledAt.value + cfg.keepPaid)
            || (a.status != Succeeded && a.status != Processing && at > a.expiresAt + cfg.lifetime)
  {
  }

  lemma GoneOrThere(cs: seq<Checkout>, id: Id)
    ensures CheckoutIndex(cs, id) == |cs| <==> forall k :: 0 <= k < |cs| ==> cs[k].id != id
  {
    hide CheckoutIndex;
  }

  /** A checkout is gone after a clean-up exactly when it was paid longer than `keepPaid` ago, or is a lifetime past its expiry. */
  lemma ForgottenExactlyWhen(cfg: Config, s: State, i: nat, at: Time)
    requires Reachable(cfg, s) && i < |s.checkouts| && at >= s.clock && !Throttled(s, at)
    ensures var c := Aged(s.checkouts[i], at);
            (forall k :: 0 <= k < |Cleaned(cfg, s, at).checkouts| ==> Cleaned(cfg, s, at).checkouts[k].id != c.id) <==>
            || (c.status == Succeeded && c.settledAt.Some? && at > c.settledAt.value + cfg.keepPaid)
            || (c.status != Succeeded && c.status != Processing && at > c.expiresAt + cfg.lifetime)
  {
    hide Reachable, Forget, Kept, Aged, LongOver, CheckoutIndex;
    KeptAtItsPlace(cfg, s, i);
    AgedKeeps(s.checkouts[i], at);
    ForgetAtRead(cfg, s.(clock := at), i, at);
    OverOnceAged(cfg, s.checkouts[i], at);
    GoneOrThere(Cleaned(cfg, s, at).checkouts, s.checkouts[i].id);
  }

  /** Which events are kept after a clean-up: exactly those no older than a lifetime. */
  lemma RecentEventsKept(cfg: Config, s: State, at: Time, p: nat)
    requires Reachable(cfg, s) && at >= s.clock && !Throttled(s, at) && p < |Cleaned(cfg, s, at).history|
    ensures var t := Cleaned(cfg, s, at); p >= Dropped(t) <==> at - t.history[p].occurredAt <= cfg.lifetime
  {
    hide Reachable, Valid;
    CleanedValid(cfg, s, at);
    KeptAreRecent(cfg, s.(clock := at), at);
    LogAt(cfg, Cleaned(cfg, s, at), p);
  }

  lemma {:induction false} RecentAre(es: seq<Logged>, lifetime: nat, at: Time)
    ensures forall k :: 0 <= k < |RecentEvents(es, lifetime, at)| ==> at - RecentEvents(es, lifetime, at)[k].event.occurredAt <= lifetime
  {
    if es != [] {
      RecentAre(es[1..], lifetime, at);
    }
  }

  lemma KeptAreRecent(cfg: Config, s: State, at: Time)
    requires !Throttled(s, at)
    ensures var t := Forget(cfg, s, at); forall k :: 0 <= k < |t.events| ==> at - t.events[k].event.occurredAt <= cfg.lifetime
  {
    hide RecentEvents, DropCheckoutsFrom, DropRefundsFrom;
    var (t, gone) := DropCheckoutsFrom(cfg, s.(forgotAt := Some(at)), 0, {}, at);
    RecentAre(DropRefundsFrom(t, 0, gone).events, cfg.lifetime, at);
  }

  lemma LogAt(cfg: Config, t: State, p: nat)
    requires Valid(cfg, t) && p < |t.history|
    ensures p < Dropped(t) ==> t.clock - t.history[p].occurredAt > cfg.lifetime
    ensures p >= Dropped(t) ==> t.events[p - Dropped(t)].event == t.history[p]
  {
    hide RecordsOk, TracesOk, RefundTracesOk;
  }

  /** One call in a minute cleans up, at most; in between nothing is dropped. */
  lemma CleansUpOnceAMinute(cfg: Config, s: State, host: bool, demoKey: bool, r: Request, at: Time)
    ensures Step(cfg, s, CallHttp(host, demoKey, r), at).0.forgotAt == if s.forgotAt.Some? && at - s.forgotAt.value < 60000 then s.forgotAt else Some(at)
    ensures s.forgotAt.Some? && at - s.forgotAt.value < 60000 ==> Cleaned(cfg, s, at) == s.(clock := at)
  {
    hide CreateCheckout, ReadCheckout, Expire, CreateRefund, ReadRefund, ListEvents, DropCheckoutsFrom, DropRefundsFrom, RecentEvents;
  }

  /** And no other operation does. */
  lemma OnlyHttpCleansUp(cfg: Config, s: State, op: Op, at: Time)
    requires !op.CallHttp?
    ensures Step(cfg, s, op, at).0.forgotAt == s.forgotAt
  {
    hide PayWith, FinishStep, Cancel, SettleNow, Dispute, RefundAtProvider, FailRefund, MarkDelivered, CheckoutForAttempt;
  }

  // ---- who may ask --------------------------------------------------------

  /** A call to another host, or without a demo key, is refused whatever it asks; the clean-up has run. */
  lemma Refused(cfg: Config, s: State, demoKey: bool, r: Request, at: Time)
    ensures Step(cfg, s, CallHttp(false, demoKey, r), at) == (Cleaned(cfg, s, at), Error(404, NotFound))
    ensures Step(cfg, s, CallHttp(true, false, r), at) == (Cleaned(cfg, s, at), Error(401, CredentialsRefused))
  {
    hide Forget;
  }

  // ---- checkouts ----------------------------------------------------------

  ghost predicate HasKey(s: State, key: string) {
    exists k :: 0 <= k < |s.checkouts| && s.checkouts[k].key == key
  }

  lemma KeysAreKept(cfg: Config, s: State, key: string)
    requires Valid(cfg, s)
    ensures key in s.checkoutByKey <==> HasKey(s, key)
  {
    hide HistoryOk, MoneyOk, ShapesOk, RefundKeysOk, RefundIdsOk, CheckoutIdsOk;
  }

  /** Making a checkout: refused without a key, answered with its own checkout for a key that is kept, and else a new one. */
  lemma Creates(cfg: Config, s: State, r: Request, at: Time)
    requires Reachable(cfg, s) && at >= s.clock && r.PostCheckout?
    ensures var f := Cleaned(cfg, s, at);
            var (t, reply) := Step(cfg, s, CallHttp(true, true, r), at);
            && (r.key.None? ==> t == f && reply == Error(400, InvalidRequest))
            && (forall k :: 0 <= k < |f.checkouts| && r.key == Some(f.checkouts[k].key) ==>
                  && reply == Answer(200, CheckoutBody(Aged(f.checkouts[k], at)))
                  && CheckoutBecomes(f, t, k, Aged(f.checkouts[k], at), AgeReport(f.drawn, f.checkouts[k], at)))
            && (r.key.Some? && !HasKey(f, r.key.value) ==>
                  var c := Checkout(Id(Cs, f.drawn), r.attemptId, r.amount, r.currency, r.methods, Pending, None, None, None, None, None, None, None,
                                    at + cfg.lifetime, r.key.value, r.successUrl);
                  && reply == Answer(200, CheckoutBody(c))
                  && t.checkouts == f.checkouts + [c] && t.refunds == f.refunds && t.refundByKey == f.refundByKey
                  && t.checkoutByKey == f.checkoutByKey[r.key.value := c.id]
                  && t.history == f.history + [Report(f.drawn + 1, c, at)])
  {
    hide Reachable, Valid, Forget, Age, Aged;
    CleanedValid(cfg, s, at);
    var f := Cleaned(cfg, s, at);
    if r.key.Some? {
      KeysAreKept(cfg, f, r.key.value);
    }
    forall k | 0 <= k < |f.checkouts| && r.key == Some(f.checkouts[k].key)
      ensures var (t, reply) := CreateCheckout(cfg, f, r, at);
              && reply == Answer(200, CheckoutBody(Aged(f.checkouts[k], at)))
              && CheckoutBecomes(f, t, k, Aged(f.checkouts[k], at), AgeReport(f.drawn, f.checkouts[k], at))
    {
      KeyOfCheckout(cfg, f, k);
      AgedOnly(f, k, at);
    }
  }

  /** A new checkout, and a read of it at any later time: as it was made until it expires, and 404 a lifetime after that. */
  lemma CreateThenRead(cfg: Config, s: State, r: Request, at: Time, later: Time)
    requires Reachable(cfg, s) && s.clock <= at <= later && r.PostCheckout? && r.key.Some? && !HasKey(Cleaned(cfg, s, at), r.key.value)
    ensures var (made, reply) := Step(cfg, s, CallHttp(true, true, r), at);
            && reply.Answer? && reply.body.CheckoutBody?
            && var c := reply.body.checkout;
               && c.attemptId == r.attemptId && c.amount == r.amount && c.currency == r.currency && c.status == Pending
               && Step(cfg, made, CallHttp(true, true, GetCheckout(c.id)), later).1 ==
                  (if !Throttled(made, later) && later > at + cfg.lifetime + cfg.lifetime then Error(404, NotFound)
                   else if later >= at + cfg.lifetime then Answer(200, CheckoutBody(c.(status := Expired)))
                   else Answer(200, CheckoutBody(c)))
  {
    hide Reachable, Forget, Throttled;
    Creates(cfg, s, r, at);
    ReachableNext(cfg, s, CallHttp(true, true, r), at);
    hide Step;
    var made := Step(cfg, s, CallHttp(true, true, r), at).0;
    HttpReads(cfg, made, |made.checkouts| - 1, later);
  }

  lemma Expires(s: State, k: nat, at: Time)
    requires k < |s.checkouts| && CheckoutIndex(s.checkouts, s.checkouts[k].id) == k
    ensures var c := Aged(s.checkouts[k], at);
            var (t, reply) := Expire(s, c.id, at);
            if c.status == Succeeded || c.status == Processing then
              reply == Error(409, AlreadyCompleted) && CheckoutBecomes(s, t, k, c, AgeReport(s.drawn, s.checkouts[k], at))
            else if c.status == Pending || c.status == RequiresAction then
              var over := c.(status := Expired);
              reply == Answer(200, CheckoutBody(over)) && CheckoutBecomes(s, t, k, over, [Report(s.drawn, over, at)])
            else
              reply == Answer(200, CheckoutBody(c)) && CheckoutBecomes(s, t, k, c, AgeReport(s.drawn, s.checkouts[k], at))
  {
    hide Age, Change;
    var c := Aged(s.checkouts[k], at);
    AgedOnly(s, k, at);
    Changed(s, k, c.(status := Expired), at);
  }

  /** Expiring a checkout: it expires if it can still be paid, is left alone if it is over, and is refused once it has completed. */
  lemma HttpExpires(cfg: Config, s: State, i: nat, at: Time)
    requires Reachable(cfg, s) && i < |s.checkouts| && at >= s.clock
    ensures var f, c := Cleaned(cfg, s, at), Aged(s.checkouts[i], at);
            var k := CheckoutIndex(f.checkouts, c.id);
            var (t, reply) := Step(cfg, s, CallHttp(true, true, ExpireCheckout(c.id)), at);
            if !Throttled(s, at) && LongOver(cfg, s.checkouts[i], at) then t == f && reply == Error(404, NotFound)
            else
              && k < |f.checkouts| && Aged(f.checkouts[k], at) == c
              && if c.status == Succeeded || c.status == Processing then
                   reply == Error(409, AlreadyCompleted) && CheckoutBecomes(f, t, k, c, AgeReport(f.drawn, f.checkouts[k], at))
                 else if c.status == Pending || c.status == RequiresAction then
                   var over := c.(status := Expired);
                   reply == Answer(200, CheckoutBody(over)) && CheckoutBecomes(f, t, k, over, [Report(f.drawn, over, at)])
                 else
                   reply == Answer(200, CheckoutBody(c)) && CheckoutBecomes(f, t, k, c, AgeReport(f.drawn, f.checkouts[k], at))
  {
    hide Reachable, Forget, Aged, LongOver, Expire, CheckoutBecomes;
    var f, c := Cleaned(cfg, s, at), s.checkouts[i];
    KeptAtItsPlace(cfg, s, i);
    AgedKeeps(c, at);
    AgedTwice(c, at);
    ForgetAtRead(cfg, s.(clock := at), i, at);
    var k := CheckoutIndex(f.checkouts, c.id);
    if k < |f.checkouts| {
      Expires(f, k, at);
    } else {
      ExpiresNone(f, c.id, at);
    }
  }

  lemma ExpiresNone(s: State, id: Id, at: Time)
    requires CheckoutIndex(s.checkouts, id) == |s.checkouts|
    ensures Expire(s, id, at) == (s, Error(404, NotFound))
  {
  }

  /** Reading one, by either route, leaves it as the clock has and changes no other; a route that is none ages it too, and answers 404. */
  lemma ReadsOne(cfg: Config, s: State, id: Id, k: nat, at: Time)
    requires Reachable(cfg, s) && at >= s.clock && k < |Cleaned(cfg, s, at).checkouts| && Cleaned(cfg, s, at).checkouts[k].id == id
    ensures var f := Cleaned(cfg, s, at);
            var c, reports := Aged(f.checkouts[k], at), AgeReport(f.drawn, f.checkouts[k], at);
            && CheckoutBecomes(f, Step(cfg, s, CallHttp(true, true, GetCheckout(id)), at).0, k, c, reports)
            && Step(cfg, s, CallHttp(true, true, GetCheckout(id)), at).1 == Answer(200, CheckoutBody(c))
            && Step(cfg, s, CallHttp(true, true, CompleteCheckout(id)), at) == Step(cfg, s, CallHttp(true, true, GetCheckout(id)), at)
            && CheckoutBecomes(f, Step(cfg, s, CallHttp(true, true, OtherCheckoutRoute(id)), at).0, k, c, reports)
            && Step(cfg, s, CallHttp(true, true, OtherCheckoutRoute(id)), at).1 == Error(404, NotFound)
  {
    hide Reachable, Valid, Forget, Age, Aged;
    CleanedValid(cfg, s, at);
    var f := Cleaned(cfg, s, at);
    PlaceOfCheckout(cfg, f, k);
    AgedOnly(f, k, at);
  }

  lemma PlaceOfCheckout(cfg: Config, s: State, i: nat)
    requires Valid(cfg, s) && i < |s.checkouts|
    ensures CheckoutIndex(s.checkouts, s.checkouts[i].id) == i
  {
    hide HistoryOk, MoneyOk, ShapesOk, RefundKeysOk, RefundIdsOk, KeysOk;
  }

  /** The same of a refund. */
  lemma ReadsRefund(cfg: Config, s: State, id: Id, j: nat, at: Time)
    requires Reachable(cfg, s) && at >= s.clock && j < |Cleaned(cfg, s, at).refunds| && Cleaned(cfg, s, at).refunds[j].id == id
    ensures var f := Cleaned(cfg, s, at);
            var r, (t, reply) := AgedRefund(f.refunds[j], at), Step(cfg, s, CallHttp(true, true, GetRefund(id)), at);
            && RefundBecomes(f, t, j, r, if r == f.refunds[j] then [] else [RefundReport(f.drawn, r, at)])
            && reply == Answer(200, RefundBody(r))
  {
    hide Reachable, Valid, Forget, AgeRefund, AgedRefund;
    CleanedValid(cfg, s, at);
    var f := Cleaned(cfg, s, at);
    PlaceOfRefund(cfg, f, j);
    AgedRefundOnly(f, j, at);
  }

  lemma PlaceOfRefund(cfg: Config, s: State, j: nat)
    requires Valid(cfg, s) && j < |s.refunds|
    ensures RefundIndex(s.refunds, s.refunds[j].id) == j
  {
    hide HistoryOk, MoneyOk, ShapesOk, RefundKeysOk, CheckoutIdsOk, KeysOk;
  }

  /** The routes that touch no record. */
  lemma OtherRoutes(cfg: Config, s: State, at: Time)
    ensures Step(cfg, s, CallHttp(true, true, GetAccount), at) == (Cleaned(cfg, s, at), Answer(200, AccountBody))
    ensures Step(cfg, s, CallHttp(true, true, GetMethods), at) == (Cleaned(cfg, s, at), Answer(200, MethodsBody))
    ensures Step(cfg, s, CallHttp(true, true, OtherRoute), at) == (Cleaned(cfg, s, at), Error(404, NotFound))
  {
    hide Forget;
  }

  // ---- refunds ------------------------------------------------------------

  ghost predicate HasRefundKey(s: State, key: string) {
    exists j :: 0 <= j < |s.refunds| && s.refunds[j].key == Given(key)
  }

  lemma RefundKeysAreKept(cfg: Config, s: State, key: string)
    requires Valid(cfg, s)
    ensures key in s.refundByKey <==> HasRefundKey(s, key)
  {
    hide HistoryOk, MoneyOk, ShapesOk, KeysOk, RefundIdsOk, CheckoutIdsOk;
  }

  lemma AgedRefundOnly(s: State, j: nat, at: Time)
    requires j < |s.refunds|
    ensures var r := s.refunds[j];
            RefundBecomes(s, AgeRefund(s, j, at), j, AgedRefund(r, at), if AgedRefund(r, at) == r then [] else [RefundReport(s.drawn, AgedRefund(r, at), at)])
  {
    assert s.refunds[j := s.refunds[j]] == s.refunds;
  }

  /** A key that is missing, that is kept, or of no payment. */
  lemma RefundsNothing(cfg: Config, s: State, r: Request, at: Time)
    requires Reachable(cfg, s) && at >= s.clock && r.PostRefund?
    ensures var f := Cleaned(cfg, s, at);
            var (t, reply) := Step(cfg, s, CallHttp(true, true, r), at);
            && (r.key.None? ==> t == f && reply == Error(400, InvalidRequest))
            && (forall j :: 0 <= j < |f.refunds| && r.key.Some? && f.refunds[j].key == Given(r.key.value) ==>
                  && reply == Answer(200, RefundBody(AgedRefund(f.refunds[j], at)))
                  && |t.refunds| == |f.refunds| && t.refunds == f.refunds[j := AgedRefund(f.refunds[j], at)] && t.checkouts == f.checkouts)
            && (r.key.Some? && !HasRefundKey(f, r.key.value) && (forall i :: 0 <= i < |f.checkouts| ==> f.checkouts[i].paymentRef != Some(r.paymentRef)) ==>
                  t == f && reply == Error(404, NotFound))
  {
    hide Reachable, Valid, Forget, AgeRefund, AgedRefund;
    CleanedValid(cfg, s, at);
    var f := Cleaned(cfg, s, at);
    if r.key.Some? {
      RefundKeysAreKept(cfg, f, r.key.value);
    }
    forall j | 0 <= j < |f.refunds| && r.key.Some? && f.refunds[j].key == Given(r.key.value)
      ensures var (t, reply) := CreateRefund(cfg, f, r, at);
              && reply == Answer(200, RefundBody(AgedRefund(f.refunds[j], at)))
              && t.refunds == f.refunds[j := AgedRefund(f.refunds[j], at)] && t.checkouts == f.checkouts
    {
      KeyOfRefund(cfg, f, j);
      AgedRefundOnly(f, j, at);
    }
  }

  /** The three conditions of a refund, of the payment as the clock has left it. */
  ghost predicate Refundable(f: State, r: Request, c: Checkout)
    requires r.PostRefund?
  {
    var e := Exponent(r.refundCurrency);
    c.status == Succeeded && c.takenAmount.Some? && c.takenCurrency == Some(r.refundCurrency)
    && HasRoom(c.takenAmount.value, RefundedUnits(f.refunds, r.paymentRef, e), r.amount, e)
  }

  /** What a refund asked of the payment `c` leaves of `f`, with `events` reported before it. */
  ghost predicate RefundsOf(cfg: Config, f: State, t: State, reply: Reply, r: Request, c: Checkout, events: seq<Event>, at: Time)
    requires r.PostRefund? && r.key.Some?
  {
    if Refundable(f, r, c) then
      var draw := f.drawn + |events|;
      var made := Refund(Id(Re, draw), r.paymentRef, r.amount, r.refundCurrency, RefundPending, None, at + cfg.settleAfter, Given(r.key.value));
      && reply == Answer(200, RefundBody(made)) && t.refunds == f.refunds + [made]
      && t.refundByKey == f.refundByKey[r.key.value := made.id]
      && t.history == f.history + events + [RefundReport(draw + 1, made, at)]
    else reply == Error(409, RefundRefused) && t.refunds == f.refunds && t.history == f.history + events
  }

  lemma Added(s: State, r: Refund, at: Time)
    requires r.key.Given?
    ensures var t := AddRefund(Draw(s), r, at);
            && t.refunds == s.refunds + [r] && t.checkouts == s.checkouts && t.refundByKey == s.refundByKey[r.key.text := r.id]
            && t.history == s.history + [RefundReport(s.drawn + 1, r, at)]
  {
  }

  lemma AgedState(s: State, i: nat, at: Time)
    requires i < |s.checkouts|
    ensures var t := Age(s, i, at);
            && t.checkouts == s.checkouts[i := Aged(s.checkouts[i], at)] && t.refunds == s.refunds && t.refundByKey == s.refundByKey
            && t.history == s.history + AgeReport(s.drawn, s.checkouts[i], at)
            && t.drawn == s.drawn + |AgeReport(s.drawn, s.checkouts[i], at)|
  {
    hide Age, AgeReport, Aged;
    AgedOnly(s, i, at);
    DrawnByAgeing(s, i, at);
  }

  lemma RefundableIs(f: State, r: Request, c: Checkout)
    requires r.PostRefund?
    ensures Refundable(f, r, c) <==>
            c.status == Succeeded && c.takenAmount.Some? && c.takenCurrency == Some(r.refundCurrency)
            && Fits(c.takenAmount.value, RefundedSoFar(f.refunds, r.paymentRef, r.refundCurrency), r.amount, Exponent(r.refundCurrency))
  {
    hide Fits, HasRoom, RefundedSoFar, RefundedUnits, Exponent;
    RefundedSoFarUnits(f.refunds, r.paymentRef, r.refundCurrency);
    if c.takenAmount.Some? {
      FitsIsRoom(c.takenAmount.value, RefundedSoFar(f.refunds, r.paymentRef, r.refundCurrency), r.amount, Exponent(r.refundCurrency));
    }
  }

  lemma RefundAccepted(cfg: Config, f: State, r: Request, i: nat, at: Time)
    requires r.PostRefund? && r.key.Some? && r.key.value !in f.refundByKey
    requires i < |f.checkouts| && PaymentIndex(f.checkouts, r.paymentRef) == i && Refundable(f, r, Aged(f.checkouts[i], at))
    ensures var c, (t, reply) := Aged(f.checkouts[i], at), CreateRefund(cfg, f, r, at);
            t.checkouts == f.checkouts[i := c] && RefundsOf(cfg, f, t, reply, r, c, AgeReport(f.drawn, f.checkouts[i], at), at)
  {
    hide Age, Aged, AgeReport, Fits, RefundedSoFar, Exponent, PaymentIndex, AddRefund, Draw, Refundable, HasRoom, RefundedUnits;
    AgedState(f, i, at);
    var t := Age(f, i, at);
    Added(t, Refund(Id(Re, t.drawn), r.paymentRef, r.amount, r.refundCurrency, RefundPending, None, at + cfg.settleAfter, Given(r.key.value)), at);
    RefundableIs(f, r, Aged(f.checkouts[i], at));
  }

  lemma RefundDeclined(cfg: Config, f: State, r: Request, i: nat, at: Time)
    requires r.PostRefund? && r.key.Some? && r.key.value !in f.refundByKey
    requires i < |f.checkouts| && PaymentIndex(f.checkouts, r.paymentRef) == i && !Refundable(f, r, Aged(f.checkouts[i], at))
    ensures var c, (t, reply) := Aged(f.checkouts[i], at), CreateRefund(cfg, f, r, at);
            t.checkouts == f.checkouts[i := c] && RefundsOf(cfg, f, t, reply, r, c, AgeReport(f.drawn, f.checkouts[i], at), at)
  {
    hide Age, Aged, AgeReport, Fits, RefundedSoFar, Exponent, PaymentIndex, AddRefund, Draw, Refundable, HasRoom, RefundedUnits;
    AgedState(f, i, at);
    RefundableIs(f, r, Aged(f.checkouts[i], at));
  }

  lemma RefundTaken(cfg: Config, f: State, r: Request, i: nat, at: Time)
    requires r.PostRefund? && r.key.Some? && r.key.value !in f.refundByKey
    requires i < |f.checkouts| && PaymentIndex(f.checkouts, r.paymentRef) == i
    ensures var c, (t, reply) := Aged(f.checkouts[i], at), CreateRefund(cfg, f, r, at);
            t.checkouts == f.checkouts[i := c] && RefundsOf(cfg, f, t, reply, r, c, AgeReport(f.drawn, f.checkouts[i], at), at)
  {
    hide Aged, AgeReport, CreateRefund, Refundable, RefundsOf, PaymentIndex;
    if Refundable(f, r, Aged(f.checkouts[i], at)) {
      RefundAccepted(cfg, f, r, i, at);
    } else {
      RefundDeclined(cfg, f, r, i, at);
    }
  }

  /** What is asked of a payment that is kept: taken exactly when it has succeeded, in its currency, and there is room. */
  lemma Refunds(cfg: Config, s: State, r: Request, i: nat, at: Time)
    requires Reachable(cfg, s) && at >= s.clock && r.PostRefund? && r.key.Some? && !HasRefundKey(Cleaned(cfg, s, at), r.key.value)
    requires i < |Cleaned(cfg, s, at).checkouts| && Cleaned(cfg, s, at).checkouts[i].paymentRef == Some(r.paymentRef)
    ensures var f := Cleaned(cfg, s, at);
            var c, (t, reply) := Aged(f.checkouts[i], at), Step(cfg, s, CallHttp(true, true, r), at);
            t.checkouts == f.checkouts[i := c] && RefundsOf(cfg, f, t, reply, r, c, AgeReport(f.drawn, f.checkouts[i], at), at)
  {
    hide Reachable, Valid, Forget, Aged, RefundsOf, CreateRefund, AgeReport;
    CleanedValid(cfg, s, at);
    var f := Cleaned(cfg, s, at);
    RefundKeysAreKept(cfg, f, r.key.value);
    PlaceOfPayment(cfg, f, i);
    RefundTaken(cfg, f, r, i, at);
  }

  lemma DrawnByAgeing(s: State, i: nat, at: Time)
    requires i < |s.checkouts|
    ensures Age(s, i, at).drawn == s.drawn + |AgeReport(s.drawn, s.checkouts[i], at)|
  {
  }

  lemma PlaceOfPayment(cfg: Config, s: State, i: nat)
    requires Valid(cfg, s) && i < |s.checkouts| && s.checkouts[i].paymentRef.Some?
    ensures PaymentIndex(s.checkouts, s.checkouts[i].paymentRef.value) == i
  {
    hide HistoryOk, KeysOk, RefundKeysOk, ShapesOk, MoneyOk;
  }

  // ---- missed events ------------------------------------------------------

  lemma {:induction false} AgesAll(s: State, i: nat, at: Time)
    requires i <= |s.checkouts|
    ensures var t := AgeFrom(s, i, at);
            && t.refunds == s.refunds && |t.checkouts| == |s.checkouts|
            && forall k :: 0 <= k < |s.checkouts| ==> t.checkouts[k] == if k < i then s.checkouts[k] else Aged(s.checkouts[k], at)
    decreases |s.checkouts| - i
  {
    hide Age, Aged;
    if i < |s.checkouts| {
      AgeIsAged(s, i, at);
      AgesAll(Age(s, i, at), i + 1, at);
    }
  }

  lemma {:induction false} AgesAllRefunds(s: State, j: nat, at: Time)
    requires j <= |s.refunds|
    ensures var t := AgeRefundsFrom(s, j, at);
            && t.checkouts == s.checkouts && |t.refunds| == |s.refunds|
            && forall k :: 0 <= k < |s.refunds| ==> t.refunds[k] == if k < j then s.refunds[k] else AgedRefund(s.refunds[k], at)
    decreases |s.refunds| - j
  {
    hide AgeRefund, AgedRefund, RefundBecomes;
    if j < |s.refunds| {
      AgedRefundAt(s, j, at);
      AgesAllRefunds(AgeRefund(s, j, at), j + 1, at);
    }
  }

  lemma AgedRefundAt(s: State, j: nat, at: Time)
    requires j < |s.refunds|
    ensures AgeRefund(s, j, at).refunds == s.refunds[j := AgedRefund(s.refunds[j], at)] && AgeRefund(s, j, at).checkouts == s.checkouts
  {
    hide AgeRefund, AgedRefund;
    AgedRefundOnly(s, j, at);
  }

  /** Nothing that is due is left undone. */
  ghost predicate NothingDue(t: State, at: Time) {
    && (forall k :: 0 <= k < |t.refunds| ==> !(t.refunds[k].status == RefundPending && t.refunds[k].settleAt <= at))
    && (forall k :: 0 <= k < |t.checkouts| ==>
          && !(t.checkouts[k].status == Processing && t.checkouts[k].settleAt.Some? && t.checkouts[k].settleAt.value <= at)
          && !((t.checkouts[k].status == Pending || t.checkouts[k].status == RequiresAction) && t.checkouts[k].expiresAt <= at))
  }

  /** `t` is `f` as the clock has left it. */
  ghost predicate AllAged(f: State, t: State, at: Time) {
    && |t.checkouts| == |f.checkouts| && (forall k :: 0 <= k < |f.checkouts| ==> t.checkouts[k] == Aged(f.checkouts[k], at))
    && |t.refunds| == |f.refunds| && (forall k :: 0 <= k < |f.refunds| ==> t.refunds[k] == AgedRefund(f.refunds[k], at))
  }

  lemma AgedNothingDue(f: State, t: State, at: Time)
    requires AllAged(f, t, at)
    ensures NothingDue(t, at)
  {
    forall k | 0 <= k < |t.refunds|
      ensures !(t.refunds[k].status == RefundPending && t.refunds[k].settleAt <= at)
    {
      assert t.refunds[k] == AgedRefund(f.refunds[k], at);
    }
    forall k | 0 <= k < |t.checkouts|
      ensures !(t.checkouts[k].status == Processing && t.checkouts[k].settleAt.Some? && t.checkouts[k].settleAt.value <= at)
      ensures !((t.checkouts[k].status == Pending || t.checkouts[k].status == RequiresAction) && t.checkouts[k].expiresAt <= at)
    {
      assert t.checkouts[k] == Aged(f.checkouts[k], at);
    }
  }

  /** Before a page of events is read every checkout and every refund that is kept is as the clock has left it: nothing due is left undone. */
  lemma EventsAfterAgeing(cfg: Config, s: State, after: Option<Id>, at: Time)
    ensures var f := Cleaned(cfg, s, at);
            var (t, reply) := Step(cfg, s, CallHttp(true, true, GetEvents(after)), at);
            && reply == Answer(200, PageOf(t.events, after))
            && NothingDue(t, at)
            && AllAged(f, t, at)
  {
    hide Forget, AgeFrom, AgeRefundsFrom, PageOf, Aged, AgedRefund, NothingDue;
    var f := Cleaned(cfg, s, at);
    AgesAll(f, 0, at);
    AgesAllRefunds(AgeFrom(f, 0, at), 0, at);
    AgedNothingDue(f, AgeRefundsFrom(AgeFrom(f, 0, at), 0, at), at);
  }

  /** Which refunds are kept by a clean-up, each as it was: those of which no payment was dropped. */
  lemma RefundsKept(cfg: Config, s: State, at: Time, j: nat)
    requires j < |s.refunds|
    ensures (Throttled(s, at) || !PaymentOver(cfg, s, s.refunds[j].paymentRef, at)) ==> s.refunds[j] in Cleaned(cfg, s, at).refunds
    ensures forall k :: 0 <= k < |Cleaned(cfg, s, at).refunds| ==> Cleaned(cfg, s, at).refunds[k] in s.refunds
  {
    hide Forget, KeptRefunds, GonePayments, PaymentOver, Kept;
    var s0 := s.(clock := at);
    SameOver(cfg, s, s0, s.refunds[j].paymentRef, at);
    if Throttled(s, at) {
      CleansUpOnceAMinute(cfg, s, true, true, GetAccount, at);
    } else {
      ForgetDropsExactly(cfg, s0, at);
      var gone := GonePayments(cfg, s0.checkouts, at);
      GoneWhenOver(cfg, s0, s.refunds[j].paymentRef, at);
      KeptRefundsAre(s.refunds, gone);
      if s.refunds[j].paymentRef !in gone {
        KeptRefundsHas(s.refunds, gone, j);
      }
    }
  }

  lemma {:induction false} KeptRefundsAre(rs: seq<Refund>, gone: set<Id>)
    ensures forall k :: 0 <= k < |KeptRefunds(rs, gone)| ==> KeptRefunds(rs, gone)[k] in rs && KeptRefunds(rs, gone)[k].paymentRef !in gone
  {
    if rs != [] {
      KeptRefundsAre(rs[1..], gone);
    }
  }

  // ---- deliveries ---------------------------------------------------------

  /** Of the events kept exactly those are delivered that were before, and the one that is marked now; no new one is. */
  lemma DeliveredExactlyWhenMarked(cfg: Config, s: State, op: Op, at: Time, p: nat)
    requires Reachable(cfg, s) && at >= s.clock && Dropped(Step(cfg, s, op, at).0) <= p < |Step(cfg, s, op, at).0.history|
    ensures var t := Step(cfg, s, op, at).0; Delivered(t, p) <==> Delivered(s, p) || (op.CallMarkDelivered? && t.history[p].id == op.event)
  {
    hide Reachable, Valid, Step;
    ReachableValid(cfg, s);
    if op.CallMarkDelivered? {
      MarksOne(cfg, s, op.event, at, p);
    } else {
      StepExtends(cfg, s, op, at);
      KeptDelivered(s, Step(cfg, s, op, at).0, p);
    }
  }

  lemma KeptDelivered(s: State, t: State, p: nat)
    requires Keeps(s, t) && Dropped(t) <= p
    ensures Delivered(t, p) <==> Delivered(s, p)
  {
    hide Delivered;
  }

  lemma MarksPlace(s: State, id: Id, p: nat)
    requires 0 <= Dropped(s) <= p < |s.history|
    requires forall k :: 0 <= k < |s.events| ==> s.events[k].event == s.history[Dropped(s) + k]
    requires forall k :: 0 <= k < |s.history| && s.history[k].id == s.history[p].id ==> k == p
    ensures Delivered(MarkDelivered(s, id), p) <==> Delivered(s, p) || s.history[p].id == id
  {
    hide EventIndex;
    var k := EventIndex(s.events, id);
    assert s.events[p - Dropped(s)].event == s.history[p];
    if k < |s.events| {
      assert s.events[k].event == s.history[Dropped(s) + k];
    }
  }

  lemma LogPlaces(cfg: Config, s: State, p: nat)
    requires Valid(cfg, s) && p < |s.history|
    ensures 0 <= Dropped(s)
    ensures forall k :: 0 <= k < |s.events| ==> s.events[k].event == s.history[Dropped(s) + k]
    ensures forall k :: 0 <= k < |s.history| && s.history[k].id == s.history[p].id ==> k == p
  {
    hide RecordsOk, TracesOk, RefundTracesOk;
  }

  lemma MarksOne(cfg: Config, s: State, id: Id, at: Time, p: nat)
    requires Valid(cfg, s) && Dropped(Step(cfg, s, CallMarkDelivered(id), at).0) <= p < |Step(cfg, s, CallMarkDelivered(id), at).0.history|
    ensures var t := Step(cfg, s, CallMarkDelivered(id), at).0; Delivered(t, p) <==> Delivered(s, p) || t.history[p].id == id
  {
    hide Valid, EventIndex;
    var s0 := s.(clock := at);
    assert MarkDelivered(s0, id).history == s.history && Dropped(MarkDelivered(s0, id)) == Dropped(s);
    LogPlaces(cfg, s, p);
    MarksPlace(s0, id, p);
  }
}
