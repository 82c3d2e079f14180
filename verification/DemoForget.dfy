/** Forgetting: exactly what it drops, and that it keeps the invariant. */
module DemoForget {
  import opened Wrappers
  import opened PaymentDemo
  import opened DemoInvariants
  import opened DemoSteps

  // ---- the records --------------------------------------------------------

  lemma RemoveAtElements<T>(xs: seq<T>, i: nat)
    requires i < |xs|
    ensures var now := RemoveAt(xs, i);
            |now| == |xs| - 1 && forall k :: 0 <= k < |now| ==> now[k] == if k < i then xs[k] else xs[k + 1]
  {
  }

  lemma DropKeys(cs: seq<Checkout>, i: nat, byKey: map<string, Id>, drawn: nat)
    requires KeysOk(cs, byKey) && CheckoutIdsOk(cs, drawn) && i < |cs|
    ensures KeysOk(RemoveAt(cs, i), byKey - {cs[i].key})
  {
    hide CheckoutIdsOk;
    var now, left := RemoveAt(cs, i), byKey - {cs[i].key};
    RemoveAtElements(cs, i);
    OtherIds(cs, i, drawn);
    forall k | 0 <= k < |now|
      ensures now[k].key in left && left[now[k].key] == now[k].id
    {
      assert now[k] == cs[if k < i then k else k + 1];
    }
    forall k | k in left
      ensures exists j :: 0 <= j < |now| && now[j].key == k
    {
      var j :| 0 <= j < |cs| && cs[j].key == k;
      assert now[if j < i then j else j - 1] == cs[j];
    }
  }

  lemma OtherIds(cs: seq<Checkout>, i: nat, drawn: nat)
    requires CheckoutIdsOk(cs, drawn) && i < |cs|
    ensures forall k :: 0 <= k < |cs| && k != i ==> cs[k].id != cs[i].id
  {
  }

  lemma DropIds(cs: seq<Checkout>, i: nat, drawn: nat)
    requires CheckoutIdsOk(cs, drawn) && i < |cs|
    ensures CheckoutIdsOk(RemoveAt(cs, i), drawn)
  {
    RemoveAtElements(cs, i);
  }

  /** A payer that is not dropped stays. */
  lemma PayerStays(cs: seq<Checkout>, i: nat, r: Refund)
    requires i < |cs| && cs[i].paymentRef != Some(r.paymentRef) && exists k :: 0 <= k < |cs| && PaidFor(cs[k], r)
    ensures exists k :: 0 <= k < |RemoveAt(cs, i)| && PaidFor(RemoveAt(cs, i)[k], r)
  {
    RemoveAtElements(cs, i);
    var k :| 0 <= k < |cs| && PaidFor(cs[k], r);
    var n := if k < i then k else k - 1;
    assert RemoveAt(cs, i)[n] == cs[k];
  }

  lemma OtherPayments(cs: seq<Checkout>, i: nat, gone: set<Id>, drawn: nat)
    requires CheckoutIdsOk(cs, drawn) && i < |cs|
    requires forall k :: 0 <= k < |cs| && cs[k].paymentRef.Some? ==> cs[k].paymentRef.value !in gone
    ensures var now := RemoveAt(cs, i);
            forall k :: 0 <= k < |now| && now[k].paymentRef.Some? ==> now[k].paymentRef.value !in Gone(gone, cs[i])
  {
    RemoveAtElements(cs, i);
  }

  lemma DropMoney(cs: seq<Checkout>, rs: seq<Refund>, i: nat, gone: set<Id>, drawn: nat)
    requires CheckoutIdsOk(cs, drawn) && MoneyOk(cs, rs, gone) && i < |cs|
    ensures MoneyOk(RemoveAt(cs, i), rs, Gone(gone, cs[i]))
  {
    hide Conserves, CheckoutIdsOk, PaidFor;
    RemoveAtElements(cs, i);
    OtherPayments(cs, i, gone, drawn);
    forall j | 0 <= j < |rs| && rs[j].key.Given? && rs[j].paymentRef !in Gone(gone, cs[i])
      ensures exists k :: 0 <= k < |RemoveAt(cs, i)| && PaidFor(RemoveAt(cs, i)[k], rs[j])
    {
      PayerStays(cs, i, rs[j]);
    }
  }

  lemma DropRecords(cs: seq<Checkout>, byKey: map<string, Id>, rs: seq<Refund>, refundByKey: map<string, Id>, drawn: nat, i: nat, gone: set<Id>)
    requires RecordsOk(cs, byKey, rs, refundByKey, drawn, gone) && i < |cs|
    ensures RecordsOk(RemoveAt(cs, i), byKey - {cs[i].key}, rs, refundByKey, drawn, Gone(gone, cs[i]))
  {
    RemoveAtElements(cs, i);
    assert ShapesOk(RemoveAt(cs, i)) by { hide ShapeOk; }
    hide CheckoutIdsOk, RefundIdsOk, KeysOk, RefundKeysOk, ShapesOk, MoneyOk, RemoveAt, Gone;
    DropKeys(cs, i, byKey, drawn);
    DropIds(cs, i, drawn);
    DropMoney(cs, rs, i, gone, drawn);
  }

  lemma DropHistory(cfg: Config, s: State, i: nat)
    requires HistoryOk(cfg, s) && i < |s.checkouts|
    ensures HistoryOk(cfg, DropCheckout(s, i))
  {
    hide LogOk, RefundTracesOk, Trace, Lawful;
    RemoveAtElements(s.checkouts, i);
  }

  lemma DropCheckoutValid(cfg: Config, s: State, i: nat, gone: set<Id>)
    requires ValidBut(cfg, s, gone) && i < |s.checkouts|
    ensures ValidBut(cfg, DropCheckout(s, i), Gone(gone, s.checkouts[i]))
  {
    hide RecordsOk, HistoryOk, RemoveAt, Gone;
    DropRecords(s.checkouts, s.checkoutByKey, s.refunds, s.refundByKey, s.drawn, i, gone);
    DropHistory(cfg, s, i);
  }

  lemma DropRefundKeys(rs: seq<Refund>, j: nat, byKey: map<string, Id>, drawn: nat)
    requires RefundKeysOk(rs, byKey) && RefundIdsOk(rs, drawn) && j < |rs|
    ensures RefundKeysOk(RemoveAt(rs, j), if rs[j].key.Given? then byKey - {rs[j].key.text} else byKey)
  {
    var now, left := RemoveAt(rs, j), if rs[j].key.Given? then byKey - {rs[j].key.text} else byKey;
    RemoveAtElements(rs, j);
    OtherRefundIds(rs, j, drawn);
    hide RemoveAt, RefundIdsOk;
    forall k | 0 <= k < |now| && now[k].key.Given?
      ensures now[k].key.text in left && left[now[k].key.text] == now[k].id
    {
      assert now[k] == rs[if k < j then k else k + 1];
    }
    forall k | k in left
      ensures exists n :: 0 <= n < |now| && now[n].key == Given(k)
    {
      var n :| 0 <= n < |rs| && rs[n].key == Given(k);
      assert now[if n < j then n else n - 1] == rs[n];
    }
  }

  lemma OtherRefundIds(rs: seq<Refund>, j: nat, drawn: nat)
    requires RefundIdsOk(rs, drawn) && j < |rs|
    ensures forall k :: 0 <= k < |rs| && k != j ==> rs[k].id != rs[j].id
  {
  }

  lemma DropRefundMoney(cs: seq<Checkout>, rs: seq<Refund>, j: nat, gone: set<Id>)
    requires MoneyOk(cs, rs, gone) && j < |rs|
    ensures MoneyOk(cs, RemoveAt(rs, j), gone)
  {
    var now := RemoveAt(rs, j);
    RemoveAtElements(rs, j);
    hide RemoveAt, PostedUnits, TakenUnits, Exponent;
    forall i | 0 <= i < |cs| && cs[i].paymentRef.Some? && cs[i].takenAmount.Some? && cs[i].takenCurrency.Some?
      ensures Conserves(cs[i], now)
    {
      assert Conserves(cs[i], rs);
      PostedRemove(rs, j, cs[i].paymentRef.value, Exponent(cs[i].takenCurrency.value));
    }
  }

  lemma DropRefundRecords(cs: seq<Checkout>, byKey: map<string, Id>, rs: seq<Refund>, refundByKey: map<string, Id>, drawn: nat, j: nat, gone: set<Id>)
    requires RecordsOk(cs, byKey, rs, refundByKey, drawn, gone) && j < |rs|
    ensures RecordsOk(cs, byKey, RemoveAt(rs, j), if rs[j].key.Given? then refundByKey - {rs[j].key.text} else refundByKey, drawn, gone)
  {
    RemoveAtElements(rs, j);
    hide KeysOk, RefundKeysOk, MoneyOk, CheckoutIdsOk, ShapesOk, RemoveAt;
    DropRefundKeys(rs, j, refundByKey, drawn);
    DropRefundMoney(cs, rs, j, gone);
  }

  lemma DropRefundHistory(cfg: Config, s: State, j: nat)
    requires HistoryOk(cfg, s) && j < |s.refunds|
    ensures HistoryOk(cfg, DropRefund(s, j))
  {
    hide LogOk, TracesOk, RefundTrace, RefundLawful;
    RemoveAtElements(s.refunds, j);
  }

  lemma DropRefundValid(cfg: Config, s: State, j: nat, gone: set<Id>)
    requires ValidBut(cfg, s, gone) && j < |s.refunds|
    ensures ValidBut(cfg, DropRefund(s, j), gone)
  {
    hide RecordsOk, HistoryOk, RemoveAt;
    DropRefundRecords(s.checkouts, s.checkoutByKey, s.refunds, s.refundByKey, s.drawn, j, gone);
    DropRefundHistory(cfg, s, j);
  }

  // ---- the loops ----------------------------------------------------------

  lemma {:induction false} DropCheckoutsValid(cfg: Config, s: State, i: nat, gone: set<Id>)
    requires ValidBut(cfg, s, gone) && i <= |s.checkouts|
    ensures var (t, more) := DropCheckoutsFrom(cfg, s, i, gone, s.clock); ValidBut(cfg, t, more)
    decreases |s.checkouts| - i
  {
    hide ValidBut, Age, DropCheckout, Gone, Over;
    if i < |s.checkouts| {
      AgeValid(cfg, s, i, gone);
      var t := Age(s, i, s.clock);
      if Over(cfg, t.checkouts[i], s.clock) {
        DropCheckoutValid(cfg, t, i, gone);
        DropCheckoutKeeps(t, i);
        DropCheckoutsValid(cfg, DropCheckout(t, i), i, Gone(gone, t.checkouts[i]));
      } else {
        DropCheckoutsValid(cfg, t, i + 1, gone);
      }
    }
  }

  lemma AgeKeeps(s: State, i: nat, at: Time)
    requires i < |s.checkouts|
    ensures var t := Age(s, i, at); t.refunds == s.refunds && t.refundByKey == s.refundByKey
  {
  }

  lemma DropCheckoutKeeps(s: State, i: nat)
    requires i < |s.checkouts|
    ensures var t := DropCheckout(s, i); |t.checkouts| == |s.checkouts| - 1
  {
  }

  lemma {:induction false} DropRefundsValid(cfg: Config, s: State, j: nat, gone: set<Id>)
    requires ValidBut(cfg, s, gone) && j <= |s.refunds| && forall k :: 0 <= k < j ==> s.refunds[k].paymentRef !in gone
    ensures Valid(cfg, DropRefundsFrom(s, j, gone))
    decreases |s.refunds| - j
  {
    hide RecordsOk, HistoryOk;
    if j == |s.refunds| {
      NoneGone(s.checkouts, s.checkoutByKey, s.refunds, s.refundByKey, s.drawn, gone);
    } else if s.refunds[j].paymentRef in gone {
      DropRefundValid(cfg, s, j, gone);
      DropRefundsValid(cfg, DropRefund(s, j), j, gone);
    } else {
      DropRefundsValid(cfg, s, j + 1, gone);
    }
  }

  lemma NoneGone(cs: seq<Checkout>, byKey: map<string, Id>, rs: seq<Refund>, refundByKey: map<string, Id>, drawn: nat, gone: set<Id>)
    requires RecordsOk(cs, byKey, rs, refundByKey, drawn, gone) && forall j :: 0 <= j < |rs| ==> rs[j].paymentRef !in gone
    ensures RecordsOk(cs, byKey, rs, refundByKey, drawn, {})
  {
    hide KeysOk, RefundKeysOk, ShapesOk, Conserves, PaidFor;
  }

  // ---- the events ---------------------------------------------------------

  /** In emission order, what is too old is a prefix: forgetting only ever drops that prefix. */
  lemma {:induction false} RecentIsSuffix(es: seq<Logged>, lifetime: nat, at: Time)
    requires forall j, k :: 0 <= j < k < |es| ==> es[j].event.occurredAt <= es[k].event.occurredAt
    ensures var kept := RecentEvents(es, lifetime, at);
            && |kept| <= |es| && kept == es[|es| - |kept|..]
            && (forall k :: 0 <= k < |es| - |kept| ==> at - es[k].event.occurredAt > lifetime)
            && (forall k :: |es| - |kept| <= k < |es| ==> at - es[k].event.occurredAt <= lifetime)
  {
    if es != [] {
      RecentIsSuffix(es[1..], lifetime, at);
      var kept := RecentEvents(es[1..], lifetime, at);
      if at - es[0].event.occurredAt <= lifetime {
        assert forall k :: 0 <= k < |es[1..]| ==> es[1..][k] == es[k + 1];
        assert |kept| == |es[1..]|;
      } else {
        assert forall k :: 1 <= k < |es| ==> es[1..][k - 1] == es[k];
        assert es[1..][|es| - 1 - |kept|..] == es[|es| - |kept|..];
      }
    }
  }

  lemma EventsSorted(cfg: Config, events: seq<Logged>, history: seq<Event>, drawn: nat, clock: Time)
    requires LogOk(cfg, events, history, drawn, clock)
    ensures forall j, k :: 0 <= j < k < |events| ==> events[j].event.occurredAt <= events[k].event.occurredAt
  {
  }

  lemma RecentLog(cfg: Config, events: seq<Logged>, history: seq<Event>, drawn: nat, clock: Time)
    requires LogOk(cfg, events, history, drawn, clock)
    ensures LogOk(cfg, RecentEvents(events, cfg.lifetime, clock), history, drawn, clock)
  {
    EventsSorted(cfg, events, history, drawn, clock);
    RecentIsSuffix(events, cfg.lifetime, clock);
    hide RecentEvents;
    var kept := RecentEvents(events, cfg.lifetime, clock);
    var d, off := |events| - |kept|, |history| - |events|;
    forall k | 0 <= k < |history| - |kept|
      ensures clock - history[k].occurredAt > cfg.lifetime
    {
      if k >= off {
        assert events[k - off].event == history[k];
      }
    }
  }

  lemma ForgetValid(cfg: Config, s: State)
    requires Valid(cfg, s)
    ensures Valid(cfg, Forget(cfg, s, s.clock))
  {
    hide RecordsOk, TracesOk, RefundTracesOk, LogOk;
    if s.forgotAt.None? || s.clock - s.forgotAt.value >= FORGET_EVERY_MS {
      var s0 := s.(forgotAt := Some(s.clock));
      var (t, gone) := DropCheckoutsFrom(cfg, s0, 0, {}, s.clock);
      DropCheckoutsValid(cfg, s0, 0, {});
      DropRefundsValid(cfg, t, 0, gone);
      var u := DropRefundsFrom(t, 0, gone);
      RecentLog(cfg, u.events, u.history, u.drawn, u.clock);
    }
  }
}
