/** The event log over whole runs: it only grows, it tells every status, and a client paging through it sees each event once. */
module DemoLog {
  import opened Wrappers
  import opened PaymentDemo
  import opened DemoInvariants
  import opened DemoSteps
  import opened DemoForget

  // ---- runs ---------------------------------------------------------------

  datatype Call = Call(op: Op, at: Time)

  /** The clock never goes back. */
  predicate InOrder(clock: Time, calls: seq<Call>)
    decreases |calls|
  {
    calls == [] || (calls[0].at >= clock && InOrder(calls[0].at, calls[1..]))
  }

  function Run(cfg: Config, s: State, calls: seq<Call>): State
    decreases |calls|
  {
    if calls == [] then s else Run(cfg, Step(cfg, s, calls[0].op, calls[0].at).0, calls[1..])
  }

  // ---- how one step changes the log ---------------------------------------

  /** How many events of the history are no longer kept. */
  function Dropped(s: State): int {
    |s.history| - |s.events|
  }

  /** The event at place `p` of the history is kept and its webhook was delivered. */
  predicate Delivered(s: State, p: int) {
    0 <= p - Dropped(s) < |s.events| && s.events[p - Dropped(s)].delivered
  }

  /** The history of `t` continues that of `s`; nothing forgotten comes back, and what was delivered stays so while kept. */
  ghost predicate Extends(s: State, t: State) {
    && s.history <= t.history
    && 0 <= Dropped(s) <= Dropped(t)
    && (forall p :: Dropped(t) <= p && Delivered(s, p) ==> Delivered(t, p))
  }

  /** The same log, possibly with one event more at its end. */
  ghost predicate OneMore(s: State, t: State) {
    || (t.history == s.history && t.events == s.events)
    || (exists e :: t.history == s.history + [e] && t.events == s.events + [Logged(e, false)])
  }

  lemma OneMoreExtends(s: State, t: State)
    requires OneMore(s, t) && |s.events| <= |s.history|
    ensures Extends(s, t) && |t.events| <= |t.history|
  {
  }

  lemma ExtendsTransitive(s: State, t: State, u: State)
    requires Extends(s, t) && Extends(t, u)
    ensures Extends(s, u)
  {
  }

  lemma SameLogExtends(s: State, t: State)
    requires Dropped(s) >= 0 && t.events == s.events && t.history == s.history
    ensures Extends(s, t)
  {
  }

  /** What only a payment reports is not among what is reported: a step asked for, or the bank at work. */
  predicate Quiet(e: Event) {
    e.what.CheckoutIs? ==> e.what.checkout == Pending || Terminal(e.what.checkout)
  }

  /** The log goes on, and nothing in it is delivered that was not: what is new least of all. */
  ghost predicate Keeps(s: State, t: State) {
    Extends(s, t) && forall p :: Delivered(t, p) ==> Delivered(s, p)
  }

  /** Everything new is quiet. */
  ghost predicate Calm(s: State, t: State) {
    forall p :: |s.history| <= p < |t.history| ==> Quiet(t.history[p])
  }

  ghost predicate Grows(s: State, t: State) {
    Keeps(s, t) && Calm(s, t)
  }

  ghost predicate OneQuiet(s: State, t: State) {
    OneMore(s, t) && (|t.history| > |s.history| ==> Quiet(t.history[|s.history|]))
  }

  lemma OneMoreGrows(s: State, t: State)
    requires OneQuiet(s, t) && |s.events| <= |s.history|
    ensures Grows(s, t) && |t.events| <= |t.history|
  {
    OneMoreExtends(s, t);
  }

  lemma OneMoreKeeps(s: State, t: State)
    requires OneMore(s, t) && |s.events| <= |s.history|
    ensures Keeps(s, t) && |t.events| <= |t.history|
  {
    OneMoreExtends(s, t);
  }

  lemma KeepsTransitive(s: State, t: State, u: State)
    requires Keeps(s, t) && Keeps(t, u)
    ensures Keeps(s, u)
  {
    ExtendsTransitive(s, t, u);
    hide Extends, Delivered;
  }

  lemma GrowsTransitive(s: State, t: State, u: State)
    requires Grows(s, t) && Grows(t, u)
    ensures Grows(s, u)
  {
    KeepsTransitive(s, t, u);
    assert forall p :: 0 <= p < |t.history| ==> u.history[p] == t.history[p];
  }

  lemma ChangeOneQuiet(s: State, i: nat, c: Checkout, at: Time)
    requires i < |s.checkouts| && Terminal(c.status)
    ensures OneQuiet(s, Change(s, i, c, at))
  {
    var e := EventFor(s.drawn, CheckoutIs(c.status), OfCheckout, Some(c), None, at);
    assert Change(s, i, c, at).history == s.history + [e];
  }

  lemma ChangeRefundOneQuiet(s: State, j: nat, r: Refund, at: Time)
    requires j < |s.refunds|
    ensures OneQuiet(s, ChangeRefund(s, j, r, at))
  {
    var e := EventFor(s.drawn, RefundIs(r.status), OfRefund, None, Some(r), at);
    assert ChangeRefund(s, j, r, at).history == s.history + [e];
  }

  lemma AgeGrows(s: State, i: nat, at: Time)
    requires i < |s.checkouts| && Dropped(s) >= 0
    ensures Grows(s, Age(s, i, at))
  {
    hide Change, OneQuiet;
    var c := s.checkouts[i];
    ChangeOneQuiet(s, i, c.(status := Succeeded, settledAt := c.settleAt), at);
    ChangeOneQuiet(s, i, c.(status := Expired), at);
    OneMoreGrows(s, Change(s, i, c.(status := Succeeded, settledAt := c.settleAt), at));
    OneMoreGrows(s, Change(s, i, c.(status := Expired), at));
  }

  lemma AgeRefundGrows(s: State, j: nat, at: Time)
    requires j < |s.refunds| && Dropped(s) >= 0
    ensures Grows(s, AgeRefund(s, j, at))
  {
    hide ChangeRefund, OneQuiet;
    var r := s.refunds[j].(status := RefundSucceeded);
    ChangeRefundOneQuiet(s, j, r, at);
    OneMoreGrows(s, ChangeRefund(s, j, r, at));
  }

  lemma {:induction false} AgeFromGrows(s: State, i: nat, at: Time)
    requires i <= |s.checkouts| && Dropped(s) >= 0
    ensures Grows(s, AgeFrom(s, i, at))
    decreases |s.checkouts| - i
  {
    hide Age;
    if i < |s.checkouts| {
      AgeGrows(s, i, at);
      hide Grows;
      DroppedStays(s, Age(s, i, at));
      AgeFromGrows(Age(s, i, at), i + 1, at);
      GrowsTransitive(s, Age(s, i, at), AgeFrom(s, i, at));
    }
  }

  lemma DroppedStays(s: State, t: State)
    requires Grows(s, t)
    ensures Extends(s, t) && Keeps(s, t) && 0 <= Dropped(s) <= Dropped(t)
  {
  }

  lemma {:induction false} AgeRefundsFromGrows(s: State, j: nat, at: Time)
    requires j <= |s.refunds| && Dropped(s) >= 0
    ensures Grows(s, AgeRefundsFrom(s, j, at))
    decreases |s.refunds| - j
  {
    hide AgeRefund, Grows;
    if j < |s.refunds| {
      AgeRefundGrows(s, j, at);
      DroppedStays(s, AgeRefund(s, j, at));
      AgeRefundsFromGrows(AgeRefund(s, j, at), j + 1, at);
      GrowsTransitive(s, AgeRefund(s, j, at), AgeRefundsFrom(s, j, at));
    } else {
      SameLogGrows(s, s);
    }
  }

  lemma SameLogGrows(s: State, t: State)
    requires Dropped(s) >= 0 && t.events == s.events && t.history == s.history
    ensures Grows(s, t)
  {
  }

  lemma {:induction false} DropCheckoutsGrows(cfg: Config, s: State, i: nat, gone: set<Id>, at: Time)
    requires i <= |s.checkouts| && Dropped(s) >= 0
    ensures Grows(s, DropCheckoutsFrom(cfg, s, i, gone, at).0)
    decreases |s.checkouts| - i
  {
    hide Age, Grows, Over, Gone;
    if i == |s.checkouts| {
      SameLogGrows(s, s);
    } else {
      var t := Age(s, i, at);
      AgeGrows(s, i, at);
      DroppedStays(s, t);
      if Over(cfg, t.checkouts[i], at) {
        DropCheckoutsGrows(cfg, DropCheckout(t, i), i, Gone(gone, t.checkouts[i]), at);
        SameLogGrows(t, DropCheckout(t, i));
        GrowsTransitive(t, DropCheckout(t, i), DropCheckoutsFrom(cfg, s, i, gone, at).0);
      } else {
        DropCheckoutsGrows(cfg, t, i + 1, gone, at);
      }
      GrowsTransitive(s, t, DropCheckoutsFrom(cfg, s, i, gone, at).0);
    }
  }

  lemma {:induction false} DropRefundsLog(s: State, j: nat, gone: set<Id>)
    requires j <= |s.refunds|
    ensures var t := DropRefundsFrom(s, j, gone); t.events == s.events && t.history == s.history
    decreases |s.refunds| - j
  {
    if j < |s.refunds| {
      if s.refunds[j].paymentRef in gone {
        DropRefundsLog(DropRefund(s, j), j, gone);
      } else {
        DropRefundsLog(s, j + 1, gone);
      }
    }
  }

  /** A log of which the oldest are dropped. */
  lemma SuffixGrows(s: State, t: State, n: nat)
    requires |s.events| <= |s.history| && n <= |s.events| && t.history == s.history && t.events == s.events[n..]
    ensures Grows(s, t)
  {
    assert forall k :: 0 <= k < |t.events| ==> t.events[k] == s.events[n + k];
    assert Dropped(t) == Dropped(s) + n;
  }

  lemma RecentGrows(cfg: Config, s: State, at: Time)
    requires LogOk(cfg, s.events, s.history, s.drawn, s.clock)
    ensures Grows(s, s.(events := RecentEvents(s.events, cfg.lifetime, at)))
  {
    hide Grows, RecentEvents;
    EventsSorted(cfg, s.events, s.history, s.drawn, s.clock);
    RecentIsSuffix(s.events, cfg.lifetime, at);
    var kept := RecentEvents(s.events, cfg.lifetime, at);
    SuffixGrows(s, s.(events := kept), |s.events| - |kept|);
  }

  lemma ForgetGrows(cfg: Config, s: State)
    requires Valid(cfg, s)
    ensures Grows(s, Forget(cfg, s, s.clock))
  {
    hide RecordsOk, TracesOk, RefundTracesOk, Grows, RecentEvents;
    if s.forgotAt.None? || s.clock - s.forgotAt.value >= FORGET_EVERY_MS {
      var s0 := s.(forgotAt := Some(s.clock));
      var (t, gone) := DropCheckoutsFrom(cfg, s0, 0, {}, s.clock);
      DropCheckoutsGrows(cfg, s0, 0, {}, s.clock);
      DropCheckoutsValid(cfg, s0, 0, {});
      DropRefundsLog(t, 0, gone);
      DropRefundsValid(cfg, t, 0, gone);
      var u := DropRefundsFrom(t, 0, gone);
      RecentGrows(cfg, u, s.clock);
      SameLogGrows(s, s0);
      SameLogGrows(t, u);
      GrowsTransitive(s, s0, t);
      GrowsTransitive(s, t, u);
      GrowsTransitive(s, u, Forget(cfg, s, s.clock));
    } else {
      SameLogGrows(s, s);
    }
  }

  // ---- every operation ----------------------------------------------------

  /** `t` extends `s` through an aged form of it and at most one event more. */
  lemma AgedThenOneQuiet(s: State, i: nat, at: Time, t: State)
    requires i < |s.checkouts| && Dropped(s) >= 0 && OneQuiet(Age(s, i, at), t)
    ensures Grows(s, t)
  {
    hide Age, Grows, OneQuiet;
    AgeGrows(s, i, at);
    DroppedStays(s, Age(s, i, at));
    OneMoreGrows(Age(s, i, at), t);
    GrowsTransitive(s, Age(s, i, at), t);
  }

  lemma AddRefundOneQuiet(s: State, draws: nat, r: Refund, at: Time)
    ensures OneQuiet(s, AddRefund(s.(drawn := s.drawn + draws), r, at))
  {
    var e := EventFor(s.drawn + draws, RefundIs(r.status), OfRefund, None, Some(r), at);
    assert AddRefund(s.(drawn := s.drawn + draws), r, at).history == s.history + [e];
  }

  lemma CreateCheckoutGrows(cfg: Config, s: State, r: Request, at: Time)
    requires r.PostCheckout? && Dropped(s) >= 0
    ensures Grows(s, CreateCheckout(cfg, s, r, at).0)
  {
    SameLogGrows(s, s);
    if r.key.Some? {
      if r.key.value in s.checkoutByKey {
        hide Age, Grows;
        var i := CheckoutIndex(s.checkouts, s.checkoutByKey[r.key.value]);
        if i < |s.checkouts| {
          AgeGrows(s, i, at);
        }
      } else {
        hide Grows;
        var c := OpenCheckout(cfg, s, r, at);
        var e := EventFor(s.drawn + 1, CheckoutIs(Pending), OfCheckout, Some(c), None, at);
        assert AddCheckout(s, c, at).history == s.history + [e];
        OneMoreGrows(s, AddCheckout(s, c, at));
      }
    }
  }

  lemma ReadCheckoutGrows(s: State, id: Id, at: Time)
    requires Dropped(s) >= 0
    ensures Grows(s, ReadCheckout(s, id, at).0)
  {
    hide Age, Grows;
    SameLogGrows(s, s);
    var i := CheckoutIndex(s.checkouts, id);
    if i < |s.checkouts| {
      AgeGrows(s, i, at);
    }
  }

  lemma ExpireGrows(s: State, id: Id, at: Time)
    requires Dropped(s) >= 0
    ensures Grows(s, Expire(s, id, at).0)
  {
    hide Age, Grows, Change;
    SameLogGrows(s, s);
    var i := CheckoutIndex(s.checkouts, id);
    if i < |s.checkouts| {
      var t := Age(s, i, at);
      ChangeOneQuiet(t, i, t.checkouts[i].(status := Expired), at);
      AgedThenOneQuiet(s, i, at, Expire(s, id, at).0);
    }
  }

  lemma CreateRefundGrows(cfg: Config, s: State, r: Request, at: Time)
    requires r.PostRefund? && Dropped(s) >= 0
    ensures Grows(s, CreateRefund(cfg, s, r, at).0)
  {
    hide Age, AgeRefund, Grows, AddRefund, Fits, RefundedSoFar, Exponent;
    SameLogGrows(s, s);
    if r.key.Some? {
      if r.key.value in s.refundByKey {
        var j := RefundIndex(s.refunds, s.refundByKey[r.key.value]);
        if j < |s.refunds| {
          AgeRefundGrows(s, j, at);
        }
      } else {
        var i := PaymentIndex(s.checkouts, r.paymentRef);
        if i < |s.checkouts| {
          var t := Age(s, i, at);
          AddRefundOneQuiet(t, 1, Refund(Id(Re, t.drawn), r.paymentRef, r.amount, r.refundCurrency, RefundPending, None, at + cfg.settleAfter, Given(r.key.value)), at);
          AgedThenOneQuiet(s, i, at, CreateRefund(cfg, s, r, at).0);
        }
      }
    }
  }

  lemma ReadRefundGrows(s: State, id: Id, at: Time)
    requires Dropped(s) >= 0
    ensures Grows(s, ReadRefund(s, id, at).0)
  {
    hide AgeRefund, Grows;
    SameLogGrows(s, s);
    var j := RefundIndex(s.refunds, id);
    if j < |s.refunds| {
      AgeRefundGrows(s, j, at);
    }
  }

  lemma ListEventsGrows(s: State, after: Option<Id>, at: Time)
    requires Dropped(s) >= 0
    ensures Grows(s, ListEvents(s, after, at).0)
  {
    hide AgeFrom, AgeRefundsFrom, Grows, PageOf;
    AgeFromGrows(s, 0, at);
    DroppedStays(s, AgeFrom(s, 0, at));
    AgeRefundsFromGrows(AgeFrom(s, 0, at), 0, at);
    GrowsTransitive(s, AgeFrom(s, 0, at), ListEvents(s, after, at).0);
  }

  lemma RouteGrows(cfg: Config, s: State, r: Request, at: Time)
    requires Dropped(s) >= 0
    ensures r.PostCheckout? ==> Grows(s, CreateCheckout(cfg, s, r, at).0)
    ensures r.GetCheckout? || r.CompleteCheckout? || r.OtherCheckoutRoute? ==> Grows(s, ReadCheckout(s, r.id, at).0)
    ensures r.ExpireCheckout? ==> Grows(s, Expire(s, r.id, at).0)
    ensures r.PostRefund? ==> Grows(s, CreateRefund(cfg, s, r, at).0)
    ensures r.GetRefund? ==> Grows(s, ReadRefund(s, r.id, at).0)
    ensures r.GetEvents? ==> Grows(s, ListEvents(s, r.after, at).0)
    ensures Grows(s, s)
  {
    hide Grows, CreateCheckout, ReadCheckout, Expire, CreateRefund, ReadRefund, ListEvents;
    SameLogGrows(s, s);
    match r
    case PostCheckout(_, _, _, _, _, _) => CreateCheckoutGrows(cfg, s, r, at);
    case GetCheckout(id) => ReadCheckoutGrows(s, id, at);
    case CompleteCheckout(id) => ReadCheckoutGrows(s, id, at);
    case ExpireCheckout(id) => ExpireGrows(s, id, at);
    case OtherCheckoutRoute(id) => ReadCheckoutGrows(s, id, at);
    case PostRefund(_, _, _, _) => CreateRefundGrows(cfg, s, r, at);
    case GetRefund(id) => ReadRefundGrows(s, id, at);
    case GetEvents(after) => ListEventsGrows(s, after, at);
    case _ =>
  }

  lemma HttpGrows(cfg: Config, s: State, host: bool, demoKey: bool, r: Request)
    requires Valid(cfg, s)
    ensures Grows(s, Http(cfg, s, host, demoKey, r, s.clock).0)
  {
    hide Valid, Forget, Grows, CreateCheckout, ReadCheckout, Expire, CreateRefund, ReadRefund, ListEvents;
    var t := Forget(cfg, s, s.clock);
    ForgetGrows(cfg, s);
    DroppedStays(s, t);
    RouteGrows(cfg, t, r, s.clock);
    GrowsTransitive(s, t, Http(cfg, s, host, demoKey, r, s.clock).0);
  }

  lemma PayKeeps(cfg: Config, s: State, id: Id, card: Card, amount: Option<string>, currency: Option<string>, at: Time)
    requires Dropped(s) >= 0
    ensures Keeps(s, PayWith(cfg, s, id, card, amount, currency, at).0)
  {
    hide Age, Extends, Keeps, Grows, Taken;
    SameLogGrows(s, s);
    DroppedStays(s, s);
    var i := CheckoutIndex(s.checkouts, id);
    if i < |s.checkouts| {
      var t, u := Age(s, i, at), PayWith(cfg, s, id, card, amount, currency, at).0;
      assert OneMore(t, u) by {
        if |u.history| > |t.history| {
          var e := u.history[|t.history|];
          assert u.history == t.history + [e];
        }
      }
      AgeGrows(s, i, at);
      DroppedStays(s, t);
      OneMoreKeeps(t, u);
      KeepsTransitive(s, t, u);
    }
  }

  lemma FinishStepGrows(s: State, id: Id, at: Time)
    requires Dropped(s) >= 0
    ensures Grows(s, FinishStep(s, id, at).0) && Grows(s, Cancel(s, id, at).0)
  {
    hide Age, Grows, Change;
    SameLogGrows(s, s);
    var i := CheckoutIndex(s.checkouts, id);
    if i < |s.checkouts| {
      var t := Age(s, i, at);
      ChangeOneQuiet(t, i, t.checkouts[i].(status := Succeeded, settledAt := Some(at)), at);
      ChangeOneQuiet(t, i, t.checkouts[i].(status := Cancelled), at);
      AgedThenOneQuiet(s, i, at, FinishStep(s, id, at).0);
      AgedThenOneQuiet(s, i, at, Cancel(s, id, at).0);
    }
  }

  lemma SettleNowGrows(s: State, id: Id, at: Time)
    requires Dropped(s) >= 0
    ensures Grows(s, SettleNow(s, id, at).0)
  {
    hide Age, AgeRefund, Grows;
    SameLogGrows(s, s);
    var i, j := CheckoutIndex(s.checkouts, id), RefundIndex(s.refunds, id);
    if i < |s.checkouts| && s.checkouts[i].status == Processing {
      var t := s.(checkouts := s.checkouts[i := s.checkouts[i].(settleAt := Some(at))]);
      AgeGrows(t, i, at);
      SameLogGrows(s, t);
      GrowsTransitive(s, t, Age(t, i, at));
    } else if j < |s.refunds| && s.refunds[j].status == RefundPending {
      var t := s.(refunds := s.refunds[j := s.refunds[j].(settleAt := at)]);
      AgeRefundGrows(t, j, at);
      SameLogGrows(s, t);
      GrowsTransitive(s, t, AgeRefund(t, j, at));
    }
  }

  lemma DashboardGrows(s: State, ref: Id, closes: bool, amount: string, at: Time)
    requires Dropped(s) >= 0
    ensures Grows(s, Dispute(s, ref, closes, at).0) && Grows(s, RefundAtProvider(s, ref, amount, at).0)
  {
    hide Grows;
    SameLogGrows(s, s);
    var i := PaymentIndex(s.checkouts, ref);
    if i < |s.checkouts| {
      var e := EventFor(s.drawn, if closes then DisputeClosed else DisputeCreated, OfDispute, Some(s.checkouts[i]), None, at);
      assert Dispute(s, ref, closes, at).0.history == s.history + [e];
      OneMoreGrows(s, Dispute(s, ref, closes, at).0);
      if s.checkouts[i].takenCurrency.Some? {
        AddRefundOneQuiet(s, 2, Refund(Id(Re, s.drawn), ref, amount, s.checkouts[i].takenCurrency.value, RefundSucceeded, None, at, Drawn(Id(Dash, s.drawn + 1))), at);
        OneMoreGrows(s, RefundAtProvider(s, ref, amount, at).0);
      }
    }
  }

  lemma FailRefundGrows(s: State, id: Id, at: Time)
    requires Dropped(s) >= 0
    ensures Grows(s, FailRefund(s, id, at).0)
  {
    hide AgeRefund, Grows, ChangeRefund;
    SameLogGrows(s, s);
    var j := RefundIndex(s.refunds, id);
    if j < |s.refunds| {
      var t := AgeRefund(s, j, at);
      AgeRefundGrows(s, j, at);
      DroppedStays(s, t);
      ChangeRefundOneQuiet(t, j, t.refunds[j].(status := RefundFailed, failureMessage := Some("The card was closed.")), at);
      OneMoreGrows(t, FailRefund(s, id, at).0);
      GrowsTransitive(s, t, FailRefund(s, id, at).0);
    }
  }

  lemma MarkExtends(s: State, event: Id)
    requires Dropped(s) >= 0
    ensures Extends(s, MarkDelivered(s, event)) && Calm(s, MarkDelivered(s, event))
  {
  }

  lemma FindGrows(s: State, attempt: string, at: Time)
    requires Dropped(s) >= 0
    ensures Grows(s, CheckoutForAttempt(s, attempt, at).0)
  {
    hide Age, Grows;
    SameLogGrows(s, s);
    var i := AttemptIndex(s.checkouts, attempt);
    if i < |s.checkouts| {
      AgeGrows(s, i, at);
    }
  }

  lemma OtherStepGrows(cfg: Config, s: State, op: Op, at: Time)
    requires Valid(cfg, s) && s.clock == at && !op.CallPay? && !op.CallMarkDelivered?
    ensures Grows(s, Step(cfg, s, op, at).0)
  {
    hide ValidBut, Extends, Keeps, Calm, Grows, Http, FinishStep, Cancel, SettleNow, Dispute, RefundAtProvider, FailRefund, CheckoutForAttempt;
    LogKept(cfg, s);
    assert s.(clock := at) == s;
    match op {
      case CallHttp(host, demoKey, request) => HttpGrows(cfg, s, host, demoKey, request);
      case CallFinishStep(id) => FinishStepGrows(s, id, at);
      case CallCancel(id) => FinishStepGrows(s, id, at);
      case CallSettleNow(id) => SettleNowGrows(s, id, at);
      case CallDispute(ref, closes) => DashboardGrows(s, ref, closes, "", at);
      case CallRefundAtProvider(ref, amount) => DashboardGrows(s, ref, false, amount, at);
      case CallFailRefund(id) => FailRefundGrows(s, id, at);
      case CallCheckoutForAttempt(attempt) => FindGrows(s, attempt, at);
    }
  }

  /** Every operation only ever adds to the history; only a payment adds what is not quiet, and only `markDelivered` delivers. */
  lemma StepExtends(cfg: Config, s: State, op: Op, at: Time)
    requires Valid(cfg, s) && at >= s.clock
    ensures Extends(s, Step(cfg, s, op, at).0)
    ensures !op.CallPay? ==> Calm(s, Step(cfg, s, op, at).0)
    ensures !op.CallMarkDelivered? ==> Keeps(s, Step(cfg, s, op, at).0)
  {
    hide ValidBut, Http, PayWith, FinishStep, Cancel, SettleNow, Dispute, RefundAtProvider, FailRefund, MarkDelivered, CheckoutForAttempt;
    TickValid(cfg, s, at);
    var t := s.(clock := at);
    LogKept(cfg, s);
    match op {
      case CallPay(id, card, amount, currency) => PayKeeps(cfg, t, id, card, amount, currency, at);
      case CallMarkDelivered(id) => MarkExtends(t, id);
      case _ => OtherStepGrows(cfg, t, op, at);
    }
  }

  lemma LogKept(cfg: Config, s: State)
    requires Valid(cfg, s)
    ensures Dropped(s) >= 0
  {
  }
}
