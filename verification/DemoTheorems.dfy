/** What every run of the demo payment service promises: of statuses, keys and forgetting. */
module DemoTheorems {
  import opened Wrappers
  import opened PaymentDemo
  import opened DemoInvariants
  import opened DemoRuns
  import opened DemoLog

  lemma {:induction false} RunValid(cfg: Config, s: State, calls: seq<Call>)
    requires Valid(cfg, s) && InOrder(s.clock, calls)
    ensures Valid(cfg, Run(cfg, s, calls)) && Extends(s, Run(cfg, s, calls))
    decreases |calls|
  {
    hide Valid, Extends, Step;
    LogKept(cfg, s);
    SameLogExtends(s, s);
    if calls != [] {
      var t := Step(cfg, s, calls[0].op, calls[0].at).0;
      StepValid(cfg, s, calls[0].op, calls[0].at);
      StepExtends(cfg, s, calls[0].op, calls[0].at);
      RunValid(cfg, t, calls[1..]);
      ExtendsTransitive(s, t, Run(cfg, s, calls));
    }
  }

  lemma InitialValid(cfg: Config, clock: Time)
    ensures Valid(cfg, Initial(clock))
  {
  }

  /** Every state a new backend can reach, by any calls at any times in order. */
  ghost predicate Reachable(cfg: Config, s: State) {
    exists clock, calls :: InOrder(clock, calls) && s == Run(cfg, Initial(clock), calls)
  }

  lemma ReachableValid(cfg: Config, s: State)
    requires Reachable(cfg, s)
    ensures Valid(cfg, s)
  {
    var clock, calls :| InOrder(clock, calls) && s == Run(cfg, Initial(clock), calls);
    hide Valid;
    InitialValid(cfg, clock);
    RunValid(cfg, Initial(clock), calls);
  }

  lemma {:induction false} RunOneMore(cfg: Config, s: State, calls: seq<Call>, call: Call)
    requires InOrder(s.clock, calls) && call.at >= Run(cfg, s, calls).clock
    ensures InOrder(s.clock, calls + [call]) && Run(cfg, s, calls + [call]) == Step(cfg, Run(cfg, s, calls), call.op, call.at).0
    decreases |calls|
  {
    hide Step;
    if calls != [] {
      assert (calls + [call])[1..] == calls[1..] + [call];
      RunOneMore(cfg, Step(cfg, s, calls[0].op, calls[0].at).0, calls[1..], call);
    }
  }

  lemma ReachableNext(cfg: Config, s: State, op: Op, at: Time)
    requires Reachable(cfg, s) && at >= s.clock
    ensures Reachable(cfg, Step(cfg, s, op, at).0)
  {
    hide Step;
    var clock, calls :| InOrder(clock, calls) && s == Run(cfg, Initial(clock), calls);
    RunOneMore(cfg, Initial(clock), calls, Call(op, at));
  }

  // ---- the event log determines the state ---------------------------------

  /** `e` reports a status of the checkout `id`. */
  ghost predicate Reports(e: Event, id: Id) {
    e.kind == OfCheckout && e.checkoutRef == Some(id) && e.what.CheckoutIs?
  }

  lemma {:induction false} LastReport(history: seq<Event>, id: Id) returns (m: nat)
    requires Trace(history, id) != []
    ensures m < |history| && Reports(history[m], id)
    ensures history[m].what.checkout == Trace(history, id)[|Trace(history, id)| - 1]
    ensures forall k :: m < k < |history| ==> !Reports(history[k], id)
  {
    var before := history[..|history| - 1];
    if Reports(history[|history| - 1], id) {
      m := |history| - 1;
    } else {
      m := LastReport(before, id);
      assert forall k :: m < k < |before| ==> !Reports(before[k], id);
    }
  }

  lemma TraceAt(cfg: Config, s: State, i: nat)
    requires Valid(cfg, s) && i < |s.checkouts|
    ensures var t := Trace(s.history, s.checkouts[i].id); t != [] && t[|t| - 1] == s.checkouts[i].status && Lawful(t)
  {
    hide RecordsOk, LogOk, RefundTracesOk, Trace, Lawful;
  }

  /** A live checkout's status is the one its last event names. */
  lemma StatusIsLastReport(cfg: Config, s: State, i: nat)
    requires Reachable(cfg, s) && i < |s.checkouts|
    ensures exists m :: 0 <= m < |s.history| && Reports(s.history[m], s.checkouts[i].id)
                        && s.history[m].what.checkout == s.checkouts[i].status
                        && forall k :: m < k < |s.history| ==> !Reports(s.history[k], s.checkouts[i].id)
  {
    hide Valid, Reachable, Trace, Lawful;
    ReachableValid(cfg, s);
    TraceAt(cfg, s, i);
    var m := LastReport(s.history, s.checkouts[i].id);
  }

  /** What may be reported of a checkout after the status `a` was: nothing after an end, only success while processing. */
  predicate MayPrecede(a: CheckoutStatus, b: CheckoutStatus) {
    !Terminal(a) && (a == Processing ==> b == Succeeded) && b != Pending
  }

  lemma {:induction false} ReportsInOrder(history: seq<Event>, id: Id, j: nat, k: nat)
    requires Lawful(Trace(history, id))
    requires j < k < |history| && Reports(history[j], id) && Reports(history[k], id)
    ensures MayPrecede(history[j].what.checkout, history[k].what.checkout)
  {
    var before, last := history[..|history| - 1], history[|history| - 1];
    var t := Trace(before, id);
    assert before[j] == history[j];
    assert Lawful(t) by {
      if Reports(last, id) {
        assert Trace(history, id)[..|t|] == t;
      }
    }
    if k < |history| - 1 {
      ReportsInOrder(before, id, j, k);
    } else {
      TraceHas(before, id, j);
      var m := LastReport(before, id);
      assert Follows(before[m].what.checkout, last.what.checkout) by {
        assert Trace(history, id) == t + [last.what.checkout];
      }
      if j < m {
        ReportsInOrder(before, id, j, m);
      }
    }
  }

  lemma {:induction false} TraceHas(history: seq<Event>, id: Id, j: nat)
    requires j < |history| && Reports(history[j], id)
    ensures Trace(history, id) != []
  {
    if j < |history| - 1 {
      TraceHas(history[..|history| - 1], id, j);
    }
  }

  /** Of any checkout ever made, live or forgotten: at most one report of an end, and none after it. */
  lemma EndsAreFinal(cfg: Config, s: State, id: Id, j: nat, k: nat)
    requires Reachable(cfg, s)
    requires j < k < |s.history| && Reports(s.history[j], id) && Reports(s.history[k], id)
    ensures MayPrecede(s.history[j].what.checkout, s.history[k].what.checkout)
  {
    ReachableValid(cfg, s);
    ReportsInOrder(s.history, id, j, k);
  }

  lemma {:induction false} LawfulAt(trace: seq<CheckoutStatus>, k: nat)
    requires Lawful(trace) && 0 < k < |trace|
    ensures Follows(trace[k - 1], trace[k])
  {
    if k < |trace| - 1 {
      LawfulAt(trace[..|trace| - 1], k);
    }
  }

  /** One report after another of a checkout is a change of status, or a step asked for once more. */
  lemma EveryReportIsAChange(cfg: Config, s: State, id: Id, k: nat)
    requires Reachable(cfg, s) && 0 < k < |Trace(s.history, id)|
    ensures Trace(s.history, id)[k - 1] != Trace(s.history, id)[k] || Trace(s.history, id)[k] == RequiresAction
  {
    ReachableValid(cfg, s);
    LawfulAt(Trace(s.history, id), k);
  }

  lemma {:induction false} TracePrefix(before: seq<Event>, after: seq<Event>, id: Id)
    requires before <= after
    ensures Trace(before, id) <= Trace(after, id)
  {
    if |before| < |after| {
      TracePrefix(before, after[..|after| - 1], id);
    } else {
      assert before == after;
    }
  }

  lemma FinalTrace(trace: seq<CheckoutStatus>, longer: seq<CheckoutStatus>)
    requires trace != [] && trace <= longer && Lawful(longer)
    ensures Terminal(trace[|trace| - 1]) ==> longer == trace
    ensures trace[|trace| - 1] == Processing ==> longer == trace || longer == trace + [Succeeded]
  {
    if |longer| > |trace| {
      LawfulAt(longer, |trace|);
      if |longer| > |trace| + 1 {
        LawfulAt(longer, |trace| + 1);
      }
    }
  }

  /** Succeeded, failed, cancelled and expired are kept for ever; processing can only become succeeded. */
  lemma Absorbing(cfg: Config, s: State, calls: seq<Call>, i: nat, j: nat)
    requires Reachable(cfg, s) && InOrder(s.clock, calls)
    requires i < |s.checkouts| && j < |Run(cfg, s, calls).checkouts| && Run(cfg, s, calls).checkouts[j].id == s.checkouts[i].id
    ensures var was, now := s.checkouts[i].status, Run(cfg, s, calls).checkouts[j].status;
            && (Terminal(was) ==> now == was)
            && (was == Processing ==> now == Processing || now == Succeeded)
  {
    hide Run, Trace, Lawful, RecordsOk, LogOk, RefundTracesOk;
    ReachableValid(cfg, s);
    RunValid(cfg, s, calls);
    var t, id := Run(cfg, s, calls), s.checkouts[i].id;
    TracePrefix(s.history, t.history, id);
    FinalTrace(Trace(s.history, id), Trace(t.history, id));
  }

  // ---- one report a step --------------------------------------------------

  /** What a longer history tells beyond a shorter one is told by its new events. */
  lemma {:induction false} TraceNew(before: seq<Event>, after: seq<Event>, id: Id, k: nat) returns (p: nat)
    requires before <= after && |Trace(before, id)| <= k < |Trace(after, id)|
    ensures |before| <= p < |after| && Reports(after[p], id) && after[p].what.checkout == Trace(after, id)[k]
  {
    assert after[..|before|] == before && after[..|after|] == after;
    assert |before| < |after|;
    if k < |Trace(after[..|after| - 1], id)| {
      p := TraceNew(before, after[..|after| - 1], id, k);
    } else {
      p := |after| - 1;
    }
  }

  /** Quiet events report a checkout once at most, and then its end. */
  lemma QuietReportsOnce(before: seq<Event>, after: seq<Event>, id: Id)
    requires before <= after && Trace(before, id) != [] && Lawful(Trace(after, id))
    requires forall p :: |before| <= p < |after| ==> Quiet(after[p])
    ensures var was, now := Trace(before, id), Trace(after, id);
            was <= now && |now| <= |was| + 1 && (|now| > |was| ==> Terminal(now[|was|]))
  {
    hide Trace, Lawful;
    var was, now := Trace(before, id), Trace(after, id);
    TracePrefix(before, after, id);
    if |now| > |was| {
      var p := TraceNew(before, after, id, |was|);
      LawfulAt(now, |was|);
      assert Quiet(after[p]);
      FinalTrace(now[..|was| + 1], now);
    }
  }

  /** Aging reports what it changes: an end. */
  lemma AgeReports(s: State, i: nat, at: Time)
    requires i < |s.checkouts|
    ensures var c, t := s.checkouts[i], Age(s, i, at);
            && (Aged(c, at) == c ==> t.history == s.history)
            && (Aged(c, at) != c ==>
                  && Terminal(Aged(c, at).status) && |t.history| == |s.history| + 1 && s.history <= t.history
                  && Reports(t.history[|s.history|], c.id) && t.history[|s.history|].what.checkout == Aged(c, at).status)
  {
  }

  lemma ChangeReports(s: State, i: nat, c: Checkout, at: Time)
    requires i < |s.checkouts|
    ensures var u := Change(s, i, c, at);
            && |u.history| == |s.history| + 1 && s.history <= u.history
            && Reports(u.history[|s.history|], c.id) && u.history[|s.history|].what.checkout == c.status
  {
  }

  /** What a payment, or an attempt at one, puts in the log: one event at most, of its own checkout. */
  lemma PayReports(cfg: Config, s: State, id: Id, card: Card, amount: Option<string>, currency: Option<string>, at: Time)
    requires CheckoutIndex(s.checkouts, id) < |s.checkouts|
    ensures var c := s.checkouts[CheckoutIndex(s.checkouts, id)];
            var u := PayWith(cfg, s, id, card, amount, currency, at).0;
            && s.history <= u.history && |u.history| <= |s.history| + 1
            && (|u.history| > |s.history| ==> Reports(u.history[|s.history|], id))
            && (|u.history| > |s.history| && u.history[|s.history|].what.checkout == RequiresAction ==> card == NeedsAStep && Aged(c, at) == c)
            && (card == NeedsAStep && Aged(c, at).status == RequiresAction ==>
                  |u.history| > |s.history| && u.history[|s.history|].what.checkout == RequiresAction)
  {
    hide Age, Aged, Change, Reports;
    var i := CheckoutIndex(s.checkouts, id);
    var t := Age(s, i, at);
    AgeReports(s, i, at);
    AgeIsAged(s, i, at);
    var c := t.checkouts[i];
    if c.status == Pending || c.status == RequiresAction {
      if card == Fails {
        ChangeReports(t, i, c.(status := Failed, failureMessage := Some("The demo card was declined.")), at);
      } else {
        ChangeReports(Draw(t), i, Paying(cfg, c, Id(Pay, t.drawn), card, amount, currency, at), at);
      }
    }
  }

  /** The step a checkout asks for is asked for again. */
  ghost predicate AsksAgain(op: Op, c: Checkout, at: Time) {
    op.CallPay? && op.checkout == c.id && op.card == NeedsAStep && Aged(c, at).status == RequiresAction
  }

  /** Whatever is called, and whatever it ages and forgets on the way: at most one more report of each checkout. */
  lemma OneReportAStep(cfg: Config, s: State, op: Op, at: Time, i: nat)
    requires Valid(cfg, s) && at >= s.clock && i < |s.checkouts|
    ensures var was, now := Trace(s.history, s.checkouts[i].id), Trace(Step(cfg, s, op, at).0.history, s.checkouts[i].id);
            && was != [] && was <= now && |now| <= |was| + 1
            && (|now| > |was| && now[|was|] == was[|was| - 1] ==> AsksAgain(op, s.checkouts[i], at))
            && (AsksAgain(op, s.checkouts[i], at) ==> |now| > |was|)
  {
    hide Trace, Lawful, Step, PayWith, Valid, Extends, Aged;
    var t, id := Step(cfg, s, op, at).0, s.checkouts[i].id;
    StepValid(cfg, s, op, at);
    StepExtends(cfg, s, op, at);
    TraceAt(cfg, s, i);
    LawfulTrace(cfg, t, id);
    HistoryPrefix(s, t);
    TracePrefix(s.history, t.history, id);
    if op.CallPay? {
      PaysOnce(cfg, s, op, at, i);
    } else {
      QuietReportsOnce(s.history, t.history, id);
      var was, now := Trace(s.history, id), Trace(t.history, id);
      if |now| > |was| {
        LawfulAt(now, |was|);
      }
    }
  }

  lemma HistoryPrefix(s: State, t: State)
    requires Extends(s, t)
    ensures s.history <= t.history
  {
  }

  lemma LawfulTrace(cfg: Config, s: State, id: Id)
    requires Valid(cfg, s)
    ensures Lawful(Trace(s.history, id))
  {
    hide RecordsOk, LogOk, RefundTracesOk, Trace, Lawful;
  }

  lemma PlaceOfId(cfg: Config, s: State, i: nat)
    requires Valid(cfg, s) && i < |s.checkouts|
    ensures CheckoutIndex(s.checkouts, s.checkouts[i].id) == i
  {
    hide HistoryOk, MoneyOk, ShapesOk, RefundKeysOk, RefundIdsOk;
  }

  lemma PaysOnce(cfg: Config, s: State, op: Op, at: Time, i: nat)
    requires Valid(cfg, s) && i < |s.checkouts| && op.CallPay?
    requires Lawful(Trace(Step(cfg, s, op, at).0.history, s.checkouts[i].id)) && Trace(s.history, s.checkouts[i].id) != []
    ensures var was, now := Trace(s.history, s.checkouts[i].id), Trace(Step(cfg, s, op, at).0.history, s.checkouts[i].id);
            && |now| <= |was| + 1
            && (|now| > |was| && now[|was|] == was[|was| - 1] ==> AsksAgain(op, s.checkouts[i], at))
            && (AsksAgain(op, s.checkouts[i], at) ==> |now| > |was|)
  {
    hide Lawful, Trace, PayWith, Valid, Aged;
    PlaceOfId(cfg, s, i);
    var s0, t, id := s.(clock := at), Step(cfg, s, op, at).0, s.checkouts[i].id;
    assert t == PayWith(cfg, s0, op.checkout, op.card, op.amount, op.currency, at).0;
    var k := CheckoutIndex(s.checkouts, op.checkout);
    if k < |s.checkouts| {
      PayReports(cfg, s0, op.checkout, op.card, op.amount, op.currency, at);
      TraceAt(cfg, s, i);
      TraceGrows(s.history, t.history, id);
      var was, now := Trace(s.history, id), Trace(t.history, id);
      if |now| > |was| {
        LawfulAt(now, |was|);
      }
    } else {
      NothingPaid(cfg, s0, op.checkout, op.card, op.amount, op.currency, at);
    }
  }

  lemma NothingPaid(cfg: Config, s: State, id: Id, card: Card, amount: Option<string>, currency: Option<string>, at: Time)
    requires CheckoutIndex(s.checkouts, id) == |s.checkouts|
    ensures PayWith(cfg, s, id, card, amount, currency, at).0 == s
  {
  }

  /** One event more, or none, is one report more, or none. */
  lemma TraceGrows(before: seq<Event>, after: seq<Event>, id: Id)
    requires before <= after && |after| <= |before| + 1
    ensures Trace(after, id) == Trace(before, id) + (if |after| > |before| && Reports(after[|before|], id) then [after[|before|].what.checkout] else [])
  {
    if |after| > |before| {
      assert after[..|after| - 1] == before;
    } else {
      assert after == before;
    }
  }

  /** A kept checkout is reported exactly when its status changes, and when the step it asks for is asked for once more. */
  lemma ReportedExactlyWhenChanged(cfg: Config, s: State, op: Op, at: Time, i: nat, j: nat)
    requires Reachable(cfg, s) && at >= s.clock && i < |s.checkouts|
    requires j < |Step(cfg, s, op, at).0.checkouts| && Step(cfg, s, op, at).0.checkouts[j].id == s.checkouts[i].id
    ensures var c, d := s.checkouts[i], Step(cfg, s, op, at).0.checkouts[j];
            var was, now := Trace(s.history, c.id), Trace(Step(cfg, s, op, at).0.history, c.id);
            now == was + if d.status != c.status || AsksAgain(op, c, at) then [d.status] else []
  {
    hide Trace, Lawful, Step, Valid, AsksAgain, Reachable;
    ReachableValid(cfg, s);
    StepValid(cfg, s, op, at);
    TraceAt(cfg, s, i);
    TraceAt(cfg, Step(cfg, s, op, at).0, j);
    OneReportAStep(cfg, s, op, at, i);
  }

  // ---- idempotency keys ---------------------------------------------------

  lemma KeyOfCheckout(cfg: Config, s: State, i: nat)
    requires Valid(cfg, s) && i < |s.checkouts|
    ensures s.checkouts[i].key in s.checkoutByKey && CheckoutIndex(s.checkouts, s.checkoutByKey[s.checkouts[i].key]) == i
  {
    hide HistoryOk, MoneyOk, ShapesOk, RefundKeysOk, RefundIdsOk;
    assert s.checkoutByKey[s.checkouts[i].key] == s.checkouts[i].id;
  }

  lemma KeyOfRefund(cfg: Config, s: State, j: nat)
    requires Valid(cfg, s) && j < |s.refunds| && s.refunds[j].key.Given?
    ensures var key := s.refunds[j].key.text; key in s.refundByKey && RefundIndex(s.refunds, s.refundByKey[key]) == j
  {
    hide HistoryOk, MoneyOk, ShapesOk, KeysOk, CheckoutIdsOk;
    assert s.refundByKey[s.refunds[j].key.text] == s.refunds[j].id;
  }

  lemma AgeKeepsKeys(s: State, i: nat, at: Time)
    requires i < |s.checkouts|
    ensures var t := Age(s, i, at); t.checkoutByKey == s.checkoutByKey && t.refundByKey == s.refundByKey
  {
  }

  /** While a checkout is kept its key answers with it and with nothing else, and a repeat makes nothing. */
  lemma RepeatedCheckoutKey(cfg: Config, s: State, i: nat, r: Request)
    requires Reachable(cfg, s) && i < |s.checkouts| && r.PostCheckout? && r.key == Some(s.checkouts[i].key)
    ensures var (t, reply) := CreateCheckout(cfg, s, r, s.clock);
            && t == Age(s, i, s.clock)
            && reply == Answer(200, CheckoutBody(t.checkouts[i]))
            && |t.checkouts| == |s.checkouts| && t.refunds == s.refunds && t.checkoutByKey == s.checkoutByKey
            && t.checkouts[i].id == s.checkouts[i].id
  {
    hide Valid, Age;
    ReachableValid(cfg, s);
    KeyOfCheckout(cfg, s, i);
    AgeIsAged(s, i, s.clock);
    AgeKeepsKeys(s, i, s.clock);
    AgedKeeps(s.checkouts[i], s.clock);
  }

  /** A key not kept makes one checkout, with an id no event has named. */
  lemma NewCheckoutKey(cfg: Config, s: State, r: Request)
    requires Reachable(cfg, s) && r.PostCheckout? && r.key.Some? && r.key.value !in s.checkoutByKey
    ensures var (t, reply) := CreateCheckout(cfg, s, r, s.clock);
            var c := Checkout(Id(Cs, s.drawn), r.attemptId, r.amount, r.currency, r.methods, Pending, None, None, None, None, None, None, None,
                              s.clock + cfg.lifetime, r.key.value, r.successUrl);
            && t.checkouts == s.checkouts + [c]
            && reply == Answer(200, CheckoutBody(c))
            && t.checkoutByKey == s.checkoutByKey[r.key.value := c.id]
            && Trace(s.history, c.id) == []
  {
    hide Reachable, Valid, Trace;
    ReachableValid(cfg, s);
    NeverNamed(cfg, s, Id(Cs, s.drawn));
  }

  lemma NeverNamed(cfg: Config, s: State, id: Id)
    requires Valid(cfg, s) && id.draw >= s.drawn
    ensures Trace(s.history, id) == []
  {
    hide RecordsOk, LogOk, RefundTracesOk, Trace, Lawful;
  }

  /** No two kept checkouts share a key, and no two kept refunds asked through the API do. */
  lemma OneRecordPerKey(cfg: Config, s: State, i: nat, j: nat)
    requires Reachable(cfg, s)
    ensures i < j < |s.checkouts| ==> s.checkouts[i].key != s.checkouts[j].key
    ensures i < j < |s.refunds| && s.refunds[i].key.Given? ==> s.refunds[i].key != s.refunds[j].key
  {
    ReachableValid(cfg, s);
  }

  lemma RepeatedRefundKey(cfg: Config, s: State, j: nat, r: Request)
    requires Reachable(cfg, s) && j < |s.refunds| && r.PostRefund? && r.key.Some? && s.refunds[j].key == Given(r.key.value)
    ensures var (t, reply) := CreateRefund(cfg, s, r, s.clock);
            && t == AgeRefund(s, j, s.clock)
            && reply == Answer(200, RefundBody(t.refunds[j]))
            && |t.refunds| == |s.refunds| && t.checkouts == s.checkouts && t.refundByKey == s.refundByKey
            && t.refunds[j].id == s.refunds[j].id
  {
    hide Valid;
    ReachableValid(cfg, s);
    KeyOfRefund(cfg, s, j);
  }

  // ---- what forgetting drops ----------------------------------------------

  /** A checkout as it is once the clock has been read. */
  function Aged(c: Checkout, at: Time): Checkout {
    if c.status == Processing && c.settleAt.Some? && at >= c.settleAt.value then c.(status := Succeeded, settledAt := c.settleAt)
    else if (c.status == Pending || c.status == RequiresAction) && at >= c.expiresAt then c.(status := Expired)
    else c
  }

  /**
   * Nobody can ask about it any more: paid longer than `keepPaid` ago, or never paid and a lifetime past its expiry. A late
   * payment counts as paid when it was due to settle, and one not due yet is never over.
   */
  predicate LongOver(cfg: Config, c: Checkout, at: Time) {
    match c.status
    case Succeeded => c.settledAt.Some? && at > c.settledAt.value + cfg.keepPaid
    case Processing => c.settleAt.Some? && at > c.settleAt.value + cfg.keepPaid
    case _ => at > c.expiresAt + cfg.lifetime
  }

  lemma OverIs(cfg: Config, c: Checkout, at: Time)
    ensures Over(cfg, Aged(c, at), at) <==> LongOver(cfg, c, at)
  {
  }

  /** Those not long over, each aged, in order. */
  function Kept(cfg: Config, cs: seq<Checkout>, at: Time): seq<Checkout> {
    if cs == [] then []
    else (if LongOver(cfg, cs[0], at) then [] else [Aged(cs[0], at)]) + Kept(cfg, cs[1..], at)
  }

  function GonePayments(cfg: Config, cs: seq<Checkout>, at: Time): set<Id> {
    if cs == [] then {}
    else (if LongOver(cfg, cs[0], at) then Gone({}, cs[0]) else {}) + GonePayments(cfg, cs[1..], at)
  }

  function KeptRefunds(rs: seq<Refund>, gone: set<Id>): seq<Refund> {
    if rs == [] then [] else (if rs[0].paymentRef in gone then [] else [rs[0]]) + KeptRefunds(rs[1..], gone)
  }

  lemma AgeIsAged(s: State, i: nat, at: Time)
    requires i < |s.checkouts|
    ensures Age(s, i, at).checkouts == s.checkouts[i := Aged(s.checkouts[i], at)]
    ensures Age(s, i, at).refunds == s.refunds
  {
  }

  lemma {:induction false} DropsCheckouts(cfg: Config, s: State, i: nat, gone: set<Id>, at: Time)
    requires i <= |s.checkouts|
    ensures var (t, more) := DropCheckoutsFrom(cfg, s, i, gone, at);
            && t.checkouts == s.checkouts[..i] + Kept(cfg, s.checkouts[i..], at)
            && more == gone + GonePayments(cfg, s.checkouts[i..], at)
            && t.refunds == s.refunds
    decreases |s.checkouts| - i
  {
    hide Age, Over, LongOver, Aged, Gone;
    if i < |s.checkouts| {
      OverIs(cfg, s.checkouts[i], at);
      AgeIsAged(s, i, at);
      AgedKeeps(s.checkouts[i], at);
      var t, rest := Age(s, i, at), s.checkouts[i..];
      var c := Aged(s.checkouts[i], at);
      assert rest[0] == s.checkouts[i] && rest[1..] == s.checkouts[i + 1..];
      if Over(cfg, c, at) {
        var u := DropCheckout(t, i);
        DropsCheckouts(cfg, u, i, Gone(gone, c), at);
        assert u.checkouts[..i] == s.checkouts[..i] && u.checkouts[i..] == rest[1..];
        GoneSum(gone, c, rest[0], GonePayments(cfg, rest[1..], at));
      } else {
        DropsCheckouts(cfg, t, i + 1, gone, at);
        assert t.checkouts[..i + 1] == s.checkouts[..i] + [c] && t.checkouts[i + 1..] == rest[1..];
      }
    }
  }

  lemma GoneSum(gone: set<Id>, aged: Checkout, c: Checkout, more: set<Id>)
    requires aged.paymentRef == c.paymentRef
    ensures Gone(gone, aged) + more == gone + (Gone({}, c) + more)
  {
  }

  lemma AgedKeeps(c: Checkout, at: Time)
    ensures Aged(c, at).paymentRef == c.paymentRef && Aged(c, at).id == c.id && Aged(c, at).expiresAt == c.expiresAt
  {
  }

  lemma {:induction false} DropsRefunds(s: State, j: nat, gone: set<Id>)
    requires j <= |s.refunds|
    ensures DropRefundsFrom(s, j, gone).refunds == s.refunds[..j] + KeptRefunds(s.refunds[j..], gone)
    ensures DropRefundsFrom(s, j, gone).checkouts == s.checkouts
    decreases |s.refunds| - j
  {
    if j < |s.refunds| {
      var rest := s.refunds[j..];
      assert rest[0] == s.refunds[j] && rest[1..] == s.refunds[j + 1..];
      if s.refunds[j].paymentRef in gone {
        var u := DropRefund(s, j);
        DropsRefunds(u, j, gone);
        assert u.refunds[..j] == s.refunds[..j] && u.refunds[j..] == rest[1..];
      } else {
        DropsRefunds(s, j + 1, gone);
        assert s.refunds[..j + 1] == s.refunds[..j] + [rest[0]];
      }
    }
  }

  predicate Throttled(s: State, at: Time) {
    s.forgotAt.Some? && at - s.forgotAt.value < FORGET_EVERY_MS
  }

  /** Forgetting keeps exactly the checkouts not over, and the refunds whose payment was not dropped with one. */
  lemma ForgetDropsExactly(cfg: Config, s: State, at: Time)
    requires !Throttled(s, at)
    ensures Forget(cfg, s, at).checkouts == Kept(cfg, s.checkouts, at)
    ensures Forget(cfg, s, at).refunds == KeptRefunds(s.refunds, GonePayments(cfg, s.checkouts, at))
  {
    hide Kept, GonePayments, KeptRefunds;
    var s0 := s.(forgotAt := Some(at));
    DropsCheckouts(cfg, s0, 0, {}, at);
    var (t, gone) := DropCheckoutsFrom(cfg, s0, 0, {}, at);
    assert s0.checkouts[0..] == s.checkouts && s0.checkouts[..0] + Kept(cfg, s.checkouts, at) == Kept(cfg, s.checkouts, at);
    assert {} + GonePayments(cfg, s.checkouts, at) == GonePayments(cfg, s.checkouts, at);
    DropsRefunds(t, 0, gone);
    assert t.refunds[0..] == s.refunds && t.refunds[..0] + KeptRefunds(s.refunds, gone) == KeptRefunds(s.refunds, gone);
  }

  lemma {:induction false} KeptHas(cfg: Config, cs: seq<Checkout>, at: Time, i: nat)
    requires i < |cs| && !LongOver(cfg, cs[i], at)
    ensures Aged(cs[i], at) in Kept(cfg, cs, at)
  {
    hide LongOver, Aged;
    if i > 0 {
      KeptHas(cfg, cs[1..], at, i - 1);
    }
  }

  /**
   * Forgetting never loses a payment on its way, a checkout that can still be paid, or one paid within `keepPaid`:
   * each is still there, as the clock has left it.
   */
  lemma ForgetIsSafe(cfg: Config, s: State, i: nat, at: Time)
    requires Reachable(cfg, s) && i < |s.checkouts| && at >= s.clock && !Throttled(s, at)
    requires var c := Aged(s.checkouts[i], at);
             || c.status == Processing
             || (at <= c.expiresAt + cfg.lifetime && c.status != Succeeded)
             || (c.status == Succeeded && c.settledAt.Some? && at <= c.settledAt.value + cfg.keepPaid)
    ensures Aged(s.checkouts[i], at) in Forget(cfg, s, at).checkouts
  {
    hide Forget, Kept;
    ForgetDropsExactly(cfg, s, at);
    KeptHas(cfg, s.checkouts, at, i);
  }

  lemma {:induction false} GoneOnlyDropped(cfg: Config, cs: seq<Checkout>, at: Time, ref: Id)
    requires ref in GonePayments(cfg, cs, at)
    ensures exists i :: 0 <= i < |cs| && cs[i].paymentRef == Some(ref) && LongOver(cfg, cs[i], at)
  {
    hide LongOver, Aged;
    if !(LongOver(cfg, cs[0], at) && cs[0].paymentRef == Some(ref)) {
      GoneOnlyDropped(cfg, cs[1..], at, ref);
      var i :| 0 <= i < |cs[1..]| && cs[1..][i].paymentRef == Some(ref) && LongOver(cfg, cs[1..][i], at);
      assert cs[i + 1] == cs[1..][i];
    }
  }

  lemma {:induction false} KeptRefundsHas(rs: seq<Refund>, gone: set<Id>, j: nat)
    requires j < |rs| && rs[j].paymentRef !in gone
    ensures rs[j] in KeptRefunds(rs, gone)
  {
    if j > 0 {
      KeptRefundsHas(rs[1..], gone, j - 1);
    }
  }

  /** A refund is dropped only together with a checkout it was paid from. */
  lemma RefundsGoWithTheirPayment(cfg: Config, s: State, j: nat, at: Time)
    requires !Throttled(s, at) && j < |s.refunds| && s.refunds[j] !in Forget(cfg, s, at).refunds
    ensures exists i :: 0 <= i < |s.checkouts| && s.checkouts[i].paymentRef == Some(s.refunds[j].paymentRef) && LongOver(cfg, s.checkouts[i], at)
  {
    hide Forget, KeptRefunds, GonePayments, Aged, LongOver;
    ForgetDropsExactly(cfg, s, at);
    var gone := GonePayments(cfg, s.checkouts, at);
    if s.refunds[j].paymentRef !in gone {
      KeptRefundsHas(s.refunds, gone, j);
    } else {
      GoneOnlyDropped(cfg, s.checkouts, at, s.refunds[j].paymentRef);
    }
  }

  /** The moment a checkout was paid is known exactly when it has succeeded: the fallback in `forget` is never taken. */
  lemma SettledWhenSucceeded(cfg: Config, s: State, i: nat)
    requires Reachable(cfg, s) && i < |s.checkouts|
    ensures s.checkouts[i].settledAt.Some? <==> s.checkouts[i].status == Succeeded
  {
    ReachableValid(cfg, s);
  }
}
