/**
 * Conservation: what is refunded of a payment, and what was taken.
 *
 * The backend counts a refund in the smallest unit of its currency, and one that cannot be held there counts as nothing.
 * So it keeps its promise exactly as long as every refund that stands can be held in its currency's units.
 */
module DemoRefunds {
  import opened Wrappers
  import opened Digits
  import opened PaymentDemo
  import opened DemoInvariants
  import opened DemoOps
  import opened DemoLog
  import opened DemoTheorems
  import PaymentMoney

  // ---- exact sums ---------------------------------------------------------

  /** The exact sum, at six places, of the refunds asked through the API that stand for a payment. */
  ghost function PostedExact(rs: seq<Refund>, ref: Id): nat {
    if rs == [] then 0
    else
      var last := rs[|rs| - 1];
      PostedExact(rs[..|rs| - 1], ref) + (if Posted(last, ref) then ExactUnits(last.amount) else 0)
  }

  /** A refund standing for `ref`, neither failed nor cancelled, that was asked through the API. */
  predicate Posted(r: Refund, ref: Id) {
    r.paymentRef == ref && r.status != RefundFailed && r.status != RefundCancelled && r.key.Given?
  }

  ghost predicate Holdable(r: Refund, exponent: nat) {
    PaymentMoney.Units(r.amount, exponent).Some?
  }

  lemma CountedExactly(r: Refund, exponent: nat)
    requires exponent <= 6
    ensures Scaled(Counted(r, exponent), exponent) <= ExactUnits(r.amount)
    ensures Holdable(r, exponent) ==> Scaled(Counted(r, exponent), exponent) == ExactUnits(r.amount)
    ensures !Holdable(r, exponent) ==> Counted(r, exponent) == 0
  {
    hide PaymentMoney.Units, Pow10;
    if Holdable(r, exponent) {
      PaymentMoney.UnitsFiner(r.amount, exponent, 6 - exponent);
    }
  }

  lemma ScaledZero(exponent: nat)
    requires exponent <= 6
    ensures Scaled(0, exponent) == 0
  {
  }

  lemma ScaledSum(a: nat, b: nat, exponent: nat)
    requires exponent <= 6
    ensures Scaled(a + b, exponent) == Scaled(a, exponent) + Scaled(b, exponent)
  {
  }

  /** Counting never overstates what is refunded; it is exact when every refund that stands can be held. */
  lemma {:induction false} CountingIsExact(rs: seq<Refund>, ref: Id, exponent: nat)
    requires exponent <= 6
    ensures Scaled(PostedUnits(rs, ref, exponent), exponent) <= PostedExact(rs, ref)
    ensures (forall j :: 0 <= j < |rs| && Posted(rs[j], ref) ==> Holdable(rs[j], exponent)) ==>
              Scaled(PostedUnits(rs, ref, exponent), exponent) == PostedExact(rs, ref)
  {
    hide Scaled, Counted, ExactUnits, Holdable;
    ScaledZero(exponent);
    if rs != [] {
      var init, last := rs[..|rs| - 1], rs[|rs| - 1];
      CountingIsExact(init, ref, exponent);
      CountedExactly(last, exponent);
      ScaledSum(PostedUnits(init, ref, exponent), PostedWeight(last, ref, exponent), exponent);
      assert forall j :: 0 <= j < |init| ==> init[j] == rs[j];
    }
  }

  /** One refund that cannot be held, and the count falls short. */
  lemma {:induction false} CountingFallsShort(rs: seq<Refund>, ref: Id, exponent: nat, j: nat)
    requires exponent <= 6 && j < |rs| && Posted(rs[j], ref) && !Holdable(rs[j], exponent) && ExactUnits(rs[j].amount) > 0
    ensures Scaled(PostedUnits(rs, ref, exponent), exponent) < PostedExact(rs, ref)
  {
    hide Scaled, Counted, ExactUnits, Holdable;
    ScaledZero(exponent);
    var init, last := rs[..|rs| - 1], rs[|rs| - 1];
    CountedExactly(last, exponent);
    ScaledSum(PostedUnits(init, ref, exponent), PostedWeight(last, ref, exponent), exponent);
    if j < |init| {
      CountingFallsShort(init, ref, exponent, j);
    } else {
      CountingIsExact(init, ref, exponent);
    }
  }

  // ---- conservation over every run ----------------------------------------

  predicate HasTaken(c: Checkout) {
    c.paymentRef.Some? && c.takenAmount.Some? && c.takenCurrency.Some?
  }

  function ExponentOf(c: Checkout): (e: nat)
    requires HasTaken(c)
    ensures e <= 3
  {
    Exponent(c.takenCurrency.value)
  }

  /** Every refund standing for the payment that was asked through the API can be held in its currency's units. */
  ghost predicate AllHoldable(rs: seq<Refund>, c: Checkout)
    requires HasTaken(c)
  {
    forall j :: 0 <= j < |rs| && Posted(rs[j], c.paymentRef.value) ==> Holdable(rs[j], ExponentOf(c))
  }

  /** No more is refunded through the API than was taken, exactly. */
  ghost predicate WithinTaken(rs: seq<Refund>, c: Checkout)
    requires HasTaken(c)
  {
    PostedExact(rs, c.paymentRef.value) <= ExactUnits(c.takenAmount.value)
  }

  lemma ScaledOrder(a: nat, b: nat, exponent: nat)
    requires exponent <= 6
    ensures a <= b <==> Scaled(a, exponent) <= Scaled(b, exponent)
  {
    if a < b { MulLess(a, b, Pow10(6 - exponent)); }
    if b < a { MulLess(b, a, Pow10(6 - exponent)); }
  }

  /**
   * In every reachable state, whatever was called: while each refund standing for a payment can be held in the
   * currency's units, the exact sum of those asked through the API is no more than what was taken.
   */
  lemma RefundsWithinTaken(cfg: Config, s: State, i: nat)
    requires Reachable(cfg, s) && i < |s.checkouts| && HasTaken(s.checkouts[i]) && AllHoldable(s.refunds, s.checkouts[i])
    ensures WithinTaken(s.refunds, s.checkouts[i])
  {
    hide Reachable, AllHoldable, WithinTaken, Conserves;
    ConservedAt(cfg, s, i);
    CountedWithinTaken(s.checkouts[i], s.refunds);
  }

  lemma CountedWithinTaken(c: Checkout, rs: seq<Refund>)
    requires HasTaken(c) && Conserves(c, rs) && AllHoldable(rs, c)
    ensures WithinTaken(rs, c)
  {
    hide Scaled, ExactUnits, Holdable, Posted, PostedUnits, PostedExact, Exponent, TakenUnits, Stands, Counted;
    var ref, e := c.paymentRef.value, ExponentOf(c);
    CountingIsExact(rs, ref, e);
    TakenScaled(c, e);
    ScaledOrder(PostedUnits(rs, ref, e), TakenUnits(c), e);
  }

  lemma ConservedAt(cfg: Config, s: State, i: nat)
    requires Reachable(cfg, s) && i < |s.checkouts|
    ensures Conserves(s.checkouts[i], s.refunds)
  {
    ReachableValid(cfg, s);
    hide HistoryOk, KeysOk, RefundKeysOk, Conserves;
  }

  lemma TakenScaled(c: Checkout, e: nat)
    requires HasTaken(c) && e == ExponentOf(c)
    ensures Scaled(TakenUnits(c), e) <= ExactUnits(c.takenAmount.value)
    ensures PaymentMoney.Units(c.takenAmount.value, e).Some? ==> Scaled(TakenUnits(c), e) == ExactUnits(c.takenAmount.value)
  {
    hide PaymentMoney.Units, Pow10, Exponent;
    if PaymentMoney.Units(c.takenAmount.value, e).Some? {
      PaymentMoney.UnitsFiner(c.takenAmount.value, e, 6 - e);
    }
  }

  // ---- when the promise can be broken -------------------------------------

  /** The backend would take a refund of `amount` of the payment `c`, in its own currency. */
  ghost predicate WouldTake(rs: seq<Refund>, c: Checkout, amount: string)
    requires HasTaken(c)
  {
    Fits(c.takenAmount.value, RefundedSoFar(rs, c.paymentRef.value, c.takenCurrency.value), amount, ExponentOf(c))
  }

  /** Whatever refund is taken next, no more than was taken is refunded. */
  ghost predicate NextRefundConserves(rs: seq<Refund>, c: Checkout)
    requires HasTaken(c)
  {
    forall amount :: WouldTake(rs, c, amount) ==> PostedExact(rs, c.paymentRef.value) + ExactUnits(amount) <= ExactUnits(c.takenAmount.value)
  }

  ghost predicate OnlyPosted(rs: seq<Refund>, ref: Id) {
    forall j :: 0 <= j < |rs| && rs[j].paymentRef == ref ==> rs[j].key.Given?
  }

  lemma {:induction false} RefundedIsPosted(rs: seq<Refund>, ref: Id, exponent: nat)
    requires OnlyPosted(rs, ref)
    ensures RefundedUnits(rs, ref, exponent) == PostedUnits(rs, ref, exponent)
  {
    if rs != [] {
      var init := rs[..|rs| - 1];
      assert forall j :: 0 <= j < |init| ==> init[j] == rs[j];
      RefundedIsPosted(init, ref, exponent);
    }
  }

  /** What the backend takes, in exact six-place units. */
  lemma WouldTakeIsRoom(rs: seq<Refund>, c: Checkout, amount: string)
    requires HasTaken(c) && PaymentMoney.Units(c.takenAmount.value, ExponentOf(c)).Some?
    ensures var n, t, a := RefundedUnits(rs, c.paymentRef.value, ExponentOf(c)), TakenUnits(c), ExactUnits(amount);
            WouldTake(rs, c, amount) <==> n <= t && 0 < a <= Scaled(t - n, ExponentOf(c))
  {
    hide RefundedSoFar, Fits, RefundedUnits, Exponent, Scaled, PaymentMoney.Units;
    var refunded := RefundedSoFar(rs, c.paymentRef.value, c.takenCurrency.value);
    RefundedSoFarUnits(rs, c.paymentRef.value, c.takenCurrency.value);
    FitsIsRoom(c.takenAmount.value, refunded, amount, ExponentOf(c));
  }

  lemma HoldableConserves(rs: seq<Refund>, c: Checkout)
    requires HasTaken(c) && PaymentMoney.Units(c.takenAmount.value, ExponentOf(c)).Some?
    requires OnlyPosted(rs, c.paymentRef.value) && AllHoldable(rs, c)
    ensures NextRefundConserves(rs, c)
  {
    hide Exponent, PostedUnits, RefundedUnits, PostedExact, Posted, PaymentMoney.Units, Scaled, TakenUnits, ExactUnits, WouldTake, Holdable, OnlyPosted;
    var ref, e := c.paymentRef.value, ExponentOf(c);
    RefundedIsPosted(rs, ref, e);
    CountingIsExact(rs, ref, e);
    TakenScaled(c, e);
    var n, t := RefundedUnits(rs, ref, e), TakenUnits(c);
    forall amount | WouldTake(rs, c, amount)
      ensures PostedExact(rs, ref) + ExactUnits(amount) <= ExactUnits(c.takenAmount.value)
    {
      WouldTakeIsRoom(rs, c, amount);
      ScaledSum(n, t - n, e);
    }
  }

  lemma UnholdableOverdraws(rs: seq<Refund>, c: Checkout, j: nat)
    requires HasTaken(c) && PaymentMoney.Units(c.takenAmount.value, ExponentOf(c)).Some?
    requires OnlyPosted(rs, c.paymentRef.value) && WithinTaken(rs, c)
    requires j < |rs| && Posted(rs[j], c.paymentRef.value) && !Holdable(rs[j], ExponentOf(c)) && ExactUnits(rs[j].amount) > 0
    ensures !NextRefundConserves(rs, c)
  {
    hide Exponent, PostedUnits, RefundedUnits, PostedExact, Posted, PaymentMoney.Units, Scaled, TakenUnits, ExactUnits, WouldTake, Holdable, OnlyPosted;
    var ref, e := c.paymentRef.value, ExponentOf(c);
    RefundedIsPosted(rs, ref, e);
    CountingFallsShort(rs, ref, e, j);
    TakenScaled(c, e);
    var n, t := RefundedUnits(rs, ref, e), TakenUnits(c);
    ScaledOrder(t, n, e);
    ScaledOrder(t - n, 0, e);
    ScaledZero(e);
    var amount := AmountOf(t - n, e);
    WouldTakeIsRoom(rs, c, amount);
    ScaledSum(n, t - n, e);
  }

  /** The text of `n` units. */
  lemma AmountOf(n: nat, e: nat) returns (amount: string)
    requires e <= 6
    ensures ExactUnits(amount) == Scaled(n, e)
  {
    hide PaymentMoney.MinorToDecimal, PaymentMoney.Units, PaymentMoney.Parse, Numeral, Pow10;
    PaymentMoney.WrittenUnits(PaymentMoney.MinorToDecimal(Numeral(n), e), n, e);
    amount := PaymentMoney.MinorToDecimal(Numeral(n), e).value;
    PaymentMoney.UnitsFiner(amount, e, 6 - e);
  }

  /** A payment whose amount cannot be held in its currency's units accepts no refund. */
  lemma UnheldTakesNothing(rs: seq<Refund>, c: Checkout, amount: string)
    requires HasTaken(c) && PaymentMoney.Units(c.takenAmount.value, ExponentOf(c)).None?
    ensures !WouldTake(rs, c, amount)
  {
    hide RefundedSoFar, Exponent, PaymentMoney.Units, PaymentMoney.CompareAmounts;
    PaymentMoney.SubtractAmountsExact(c.takenAmount.value, RefundedSoFar(rs, c.paymentRef.value, c.takenCurrency.value), ExponentOf(c));
  }

  /**
   * Of a payment refunded only through the API, and so far within what was taken: the next refund taken keeps it so,
   * whatever its amount, exactly when every refund standing can be held in the currency's units, or none is taken at all
   * because the payment's own amount cannot.
   */
  lemma ConservesExactlyWhenHoldable(cfg: Config, s: State, i: nat)
    requires Reachable(cfg, s) && i < |s.checkouts| && HasTaken(s.checkouts[i])
    requires OnlyPosted(s.refunds, s.checkouts[i].paymentRef.value) && WithinTaken(s.refunds, s.checkouts[i])
    ensures NextRefundConserves(s.refunds, s.checkouts[i]) <==>
            AllHoldable(s.refunds, s.checkouts[i]) || PaymentMoney.Units(s.checkouts[i].takenAmount.value, ExponentOf(s.checkouts[i])).None?
  {
    hide Reachable, ExponentOf, PaymentMoney.Units, NextRefundConserves, WithinTaken, OnlyPosted, Posted, Holdable, ExactUnits;
    var c := s.checkouts[i];
    if PaymentMoney.Units(c.takenAmount.value, ExponentOf(c)).None? {
      UnheldConserves(s.refunds, c);
    } else if AllHoldable(s.refunds, c) {
      HoldableConserves(s.refunds, c);
    } else {
      var j :| 0 <= j < |s.refunds| && Posted(s.refunds[j], c.paymentRef.value) && !Holdable(s.refunds[j], ExponentOf(c));
      PostedIsSomething(cfg, s, j, c.paymentRef.value);
      UnholdableOverdraws(s.refunds, c, j);
    }
  }

  lemma UnheldConserves(rs: seq<Refund>, c: Checkout)
    requires HasTaken(c) && PaymentMoney.Units(c.takenAmount.value, ExponentOf(c)).None?
    ensures NextRefundConserves(rs, c)
  {
    hide WouldTake, PaymentMoney.Units, Exponent, ExactUnits, PostedExact;
    forall amount ensures !WouldTake(rs, c, amount) {
      UnheldTakesNothing(rs, c, amount);
    }
  }

  /** Every refund asked through the API is of more than nothing. */
  lemma PostedIsSomething(cfg: Config, s: State, j: nat, ref: Id)
    requires Reachable(cfg, s) && j < |s.refunds| && Posted(s.refunds[j], ref)
    ensures ExactUnits(s.refunds[j].amount) > 0
  {
    ReachableValid(cfg, s);
    hide HistoryOk, KeysOk, RefundKeysOk, ShapesOk, Conserves, ExactUnits;
    assert exists i :: 0 <= i < |s.checkouts| && PaidFor(s.checkouts[i], s.refunds[j]);
  }

  // ---- what one call does to the room left --------------------------------

  ghost function RefundedWeight(r: Refund, ref: Id, exponent: nat): nat {
    if r.paymentRef == ref && Stands(r) then Counted(r, exponent) else 0
  }

  lemma RefundedSnoc(rs: seq<Refund>, r: Refund, ref: Id, exponent: nat)
    ensures RefundedUnits(rs + [r], ref, exponent) == RefundedUnits(rs, ref, exponent) + RefundedWeight(r, ref, exponent)
  {
    assert (rs + [r])[..|rs|] == rs;
  }

  lemma {:induction false} RefundedUpdate(rs: seq<Refund>, j: nat, r: Refund, ref: Id, exponent: nat)
    requires j < |rs|
    ensures RefundedUnits(rs[j := r], ref, exponent) + RefundedWeight(rs[j], ref, exponent)
         == RefundedUnits(rs, ref, exponent) + RefundedWeight(r, ref, exponent)
  {
    hide RefundedWeight, RefundedUnits;
    var init, last := rs[..|rs| - 1], rs[|rs| - 1];
    assert rs == init + [last];
    RefundedSnoc(init, last, ref, exponent);
    if j == |rs| - 1 {
      assert rs[j := r] == init + [r];
      RefundedSnoc(init, r, ref, exponent);
    } else {
      assert rs[j := r] == init[j := r] + [last];
      RefundedSnoc(init[j := r], last, ref, exponent);
      RefundedUpdate(init, j, r, ref, exponent);
    }
  }

  /** A refund that fails gives back exactly its own room, to its own payment, and changes no other refund. */
  lemma FailGivesBackItsRoom(s: State, j: nat, ref: Id, exponent: nat)
    requires j < |s.refunds| && RefundIndex(s.refunds, s.refunds[j].id) == j && Stands(s.refunds[j])
    ensures var t := FailRefund(s, s.refunds[j].id, s.clock).0;
            && RefundedUnits(t.refunds, ref, exponent) + RefundedWeight(s.refunds[j], ref, exponent) == RefundedUnits(s.refunds, ref, exponent)
            && |t.refunds| == |s.refunds| && t.refunds[j].status == RefundFailed && t.checkouts == s.checkouts
            && forall k :: 0 <= k < |s.refunds| && k != j ==> t.refunds[k] == s.refunds[k]
  {
    hide RefundedUnits, Counted, EventFor;
    var t := FailRefund(s, s.refunds[j].id, s.clock).0;
    assert t.refunds == s.refunds[j := t.refunds[j]];
    RefundedUpdate(s.refunds, j, t.refunds[j], ref, exponent);
  }

  /**
   * Of a live payment, with a key not used yet and in the currency taken: a refund is made exactly when it is more than
   * nothing and within what the refunds standing leave.
   */
  lemma RefundTakenExactlyWhenRoom(cfg: Config, s: State, i: nat, r: Request)
    requires Reachable(cfg, s) && r.PostRefund? && r.key.Some? && r.key.value !in s.refundByKey
    requires i < |s.checkouts| && s.checkouts[i].status == Succeeded && s.checkouts[i].paymentRef == Some(r.paymentRef)
    requires s.checkouts[i].takenAmount.Some? && s.checkouts[i].takenCurrency == Some(r.refundCurrency)
    ensures var (t, reply) := CreateRefund(cfg, s, r, s.clock);
            var e := Exponent(r.refundCurrency);
            if HasRoom(s.checkouts[i].takenAmount.value, RefundedUnits(s.refunds, r.paymentRef, e), r.amount, e) then
              && |t.refunds| == |s.refunds| + 1 && t.refunds[..|s.refunds|] == s.refunds
              && reply == Answer(200, RefundBody(t.refunds[|s.refunds|]))
              && t.refunds[|s.refunds|].paymentRef == r.paymentRef && t.refunds[|s.refunds|].amount == r.amount
              && t.refunds[|s.refunds|].status == RefundPending && t.refunds[|s.refunds|].settleAt == s.clock + cfg.settleAfter
              && t.refundByKey == s.refundByKey[r.key.value := t.refunds[|s.refunds|].id]
            else t == s && reply == Error(409, RefundRefused)
  {
    hide RefundedSoFar, Fits, RefundedUnits, HasRoom, Exponent, Reachable, EventFor;
    PaymentFound(cfg, s, i, r.paymentRef);
    RefundedSoFarUnits(s.refunds, r.paymentRef, r.refundCurrency);
    FitsIsRoom(s.checkouts[i].takenAmount.value, RefundedSoFar(s.refunds, r.paymentRef, r.refundCurrency), r.amount, Exponent(r.refundCurrency));
  }

  lemma PaymentFound(cfg: Config, s: State, i: nat, ref: Id)
    requires Reachable(cfg, s) && i < |s.checkouts| && s.checkouts[i].paymentRef == Some(ref)
    ensures PaymentIndex(s.checkouts, ref) == i
  {
    ReachableValid(cfg, s);
    hide HistoryOk, KeysOk, RefundKeysOk, ShapesOk, MoneyOk;
  }

  // ---- a run that refunds more than was taken -----------------------------

  const ONE_YEN := PostCheckout(Some("order"), "attempt", "1", "JPY", [], None)

  function NineTenths(key: string): Request {
    PostRefund(Some(key), Id(Pay, 2), "0.9", "JPY")
  }

  const DEMO := Config(1000, 1000000, 1000000)

  lemma OneYen()
    ensures PaymentMoney.Units("1", 0) == Some(1)
    ensures ExactUnits("1") == 1000000
  {
    PaymentMoney.ParseIsGrammar("1", PaymentMoney.Decimal("1", ""));
    var kept: string := "";
    assert PaymentMoney.PadEnd(kept, 0) == "" && "1" + "" == "1";
    assert Value("1") == 1;
    Zeros6();
    assert PaymentMoney.PadEnd(kept, 6) == "000000" && "1" + "000000" == "1000000";
    ValueConcat("1", "000000");
    Million();
  }

  lemma Zeros6()
    ensures Zeros(6) == "000000" && Value("000000") == 0
  {
    ValueZero("000000");
  }

  lemma Million()
    ensures Pow10(6) == 1000000
  {
    assert Pow10(3) == 1000;
  }

  lemma NineTenthsParsed()
    ensures PaymentMoney.Parse("0.9") == Some(PaymentMoney.Decimal("0", "9"))
  {
    assert PaymentMoney.Print(PaymentMoney.Decimal("0", "9")) == "0.9";
    PaymentMoney.ParseIsGrammar("0.9", PaymentMoney.Decimal("0", "9"));
  }

  lemma NineTenthsNotHeld()
    ensures PaymentMoney.Units("0.9", 0) == None
  {
    hide PaymentMoney.Parse;
    NineTenthsParsed();
    var fraction := "9";
    assert fraction[0..] == fraction && fraction[0] == '9' && PaymentMoney.HasNonZero(fraction[0..]);
  }

  lemma NineTenthsAtSix()
    ensures ExactUnits("0.9") == 900000
  {
    hide PaymentMoney.Parse;
    NineTenthsParsed();
    var fraction := "9";
    assert fraction[..1] == fraction && fraction[1..] == "";
    assert Zeros(5) == "00000" && PaymentMoney.PadEnd(fraction, 6) == "900000";
    assert StripZeros("0" + "900000") == ("0" + "900000")[1..] == "900000";
    assert fraction + "00000" == "900000";
    ValueConcat(fraction, "00000");
    ValueZero("00000");
    assert Pow10(5) == 100000 && Value(fraction) == 9;
  }

  lemma NineTenthsOfAYen()
    ensures PaymentMoney.Units("0.9", 0) == None
    ensures ExactUnits("0.9") == 900000
  {
    hide PaymentMoney.Units;
    NineTenthsNotHeld();
    NineTenthsAtSix();
  }

  /** One yen, taken. */
  predicate OneYenTaken(s: State) {
    && s.clock == 0 && s.forgotAt == Some(0)
    && |s.checkouts| == 1
    && var c := s.checkouts[0];
       c.status == Succeeded && c.paymentRef == Some(Id(Pay, 2)) && c.takenAmount == Some("1") && c.takenCurrency == Some("JPY")
  }

  lemma OneYenOpens(s: State)
    requires s == Step(DEMO, Initial(0), CallHttp(true, true, ONE_YEN), 0).0
    ensures s.clock == 0 && s.forgotAt == Some(0) && s.drawn == 2 && s.refunds == [] && s.refundByKey == map[]
    ensures s.checkouts == [OpenCheckout(DEMO, Initial(0), ONE_YEN, 0)]
  {
  }

  lemma OneYenPays(s: State, t: State)
    requires s.clock == 0 && s.forgotAt == Some(0) && s.drawn == 2 && s.checkouts == [OpenCheckout(DEMO, Initial(0), ONE_YEN, 0)]
    requires t == Step(DEMO, s, CallPay(Id(Cs, 0), Succeeds, None, None), 0).0
    ensures OneYenTaken(t) && t.refunds == s.refunds && t.refundByKey == s.refundByKey
  {
    assert CheckoutIndex(s.checkouts, Id(Cs, 0)) == 0;
  }

  /** Nine tenths of it, while what was asked back before counts as nothing. */
  lemma NineTenthsTaken(s: State, key: string)
    requires Reachable(DEMO, s) && OneYenTaken(s) && RefundedUnits(s.refunds, Id(Pay, 2), 0) == 0 && key !in s.refundByKey
    ensures var t := Step(DEMO, s, CallHttp(true, true, NineTenths(key)), 0).0;
            && OneYenTaken(t) && RefundedUnits(t.refunds, Id(Pay, 2), 0) == 0
            && PostedExact(t.refunds, Id(Pay, 2)) == PostedExact(s.refunds, Id(Pay, 2)) + 900000
            && t.refundByKey.Keys == s.refundByKey.Keys + {key}
            && (OnlyPosted(s.refunds, Id(Pay, 2)) ==> OnlyPosted(t.refunds, Id(Pay, 2)))
  {
    hide Reachable, RefundedUnits, HasRoom, PaymentMoney.Units, Fits, PostedExact, Exponent;
    var t := Step(DEMO, s, CallHttp(true, true, NineTenths(key)), 0).0;
    assert s.(clock := 0) == s && t == CreateRefund(DEMO, s, NineTenths(key), 0).0;
    NineTenthsHasRoom();
    RefundTakenExactlyWhenRoom(DEMO, s, 0, NineTenths(key));
    CreateKeepsPaid(s, key);
    var r := t.refunds[|s.refunds|];
    assert t.refunds == s.refunds + [r];
    NineTenthsCount(s.refunds, r);
  }

  lemma CreateKeepsPaid(s: State, key: string)
    requires OneYenTaken(s)
    ensures var t := CreateRefund(DEMO, s, NineTenths(key), 0).0; OneYenTaken(t)
  {
    hide Fits, RefundedSoFar, Exponent;
  }

  lemma NineTenthsHasRoom()
    ensures Exponent("JPY") == 0 && HasRoom("1", 0, "0.9", 0)
  {
    hide PaymentMoney.Units;
    Million();
    OneYen();
    NineTenthsOfAYen();
  }

  lemma NineTenthsCount(rs: seq<Refund>, r: Refund)
    requires r.paymentRef == Id(Pay, 2) && r.amount == "0.9" && r.status == RefundPending
    ensures RefundedUnits(rs + [r], Id(Pay, 2), 0) == RefundedUnits(rs, Id(Pay, 2), 0)
    ensures r.key.Given? ==> PostedExact(rs + [r], Id(Pay, 2)) == PostedExact(rs, Id(Pay, 2)) + 900000
  {
    hide PaymentMoney.Units;
    NineTenthsOfAYen();
    assert (rs + [r])[..|rs|] == rs;
  }

  /** Reachable with one yen taken and one yen and eight tenths refunded: refunds finer than the currency are not counted. */
  lemma FinerRefundsOverdraw() returns (s: State)
    ensures Reachable(DEMO, s) && |s.checkouts| == 1 && HasTaken(s.checkouts[0])
    ensures OnlyPosted(s.refunds, s.checkouts[0].paymentRef.value)
    ensures ExactUnits(s.checkouts[0].takenAmount.value) == 1000000
    ensures PostedExact(s.refunds, s.checkouts[0].paymentRef.value) == 1800000
  {
    hide Step, ExactUnits, PaymentMoney.Units;
    var s0 := Initial(0);
    assert Reachable(DEMO, s0) by {
      assert InOrder(0, []) && Run(DEMO, s0, []) == s0;
    }
    hide Reachable;
    OneYen();
    var s1 := Step(DEMO, s0, CallHttp(true, true, ONE_YEN), 0).0;
    ReachableNext(DEMO, s0, CallHttp(true, true, ONE_YEN), 0);
    OneYenOpens(s1);
    var s2 := Step(DEMO, s1, CallPay(Id(Cs, 0), Succeeds, None, None), 0).0;
    ReachableNext(DEMO, s1, CallPay(Id(Cs, 0), Succeeds, None, None), 0);
    OneYenPays(s1, s2);
    var s3 := Step(DEMO, s2, CallHttp(true, true, NineTenths("first")), 0).0;
    ReachableNext(DEMO, s2, CallHttp(true, true, NineTenths("first")), 0);
    NineTenthsTaken(s2, "first");
    s := Step(DEMO, s3, CallHttp(true, true, NineTenths("second")), 0).0;
    ReachableNext(DEMO, s3, CallHttp(true, true, NineTenths("second")), 0);
    assert "second" != "first";
    NineTenthsTaken(s3, "second");
  }
}
