/*
 * The virtual printer driver (Simple): an in-memory coupon with an item table
 * keyed by a growing item id, the open / totalized / paid flags, the till's
 * reduction flag and the global "printer off" switch.
 *
 * What the virtual printer draws on its window is not modelled; only the
 * state and the values returned or raised are.
 */
module VirtualPrinter {
  import opened Common

  /** An item of the coupon: its id, quantity and unit price. */
  datatype CouponItem = CouponItem(id: nat, quantity: real, value: real)

  /** get_total_value() */
  function TotalValue(item: CouponItem): real { item.quantity * item.value }

  /** The sum of the items' total values, in table order. */
  function ItemsTotal(items: seq<CouponItem>): real
  {
    if items == [] then 0.0 else ItemsTotal(items[..|items| - 1]) + TotalValue(items[|items| - 1])
  }

  /** The item table's keys are increasing in insertion order, so no id is there twice. */
  predicate IdsIncreasing(items: seq<CouponItem>)
  {
    forall i, j :: 0 <= i < j < |items| ==> items[i].id < items[j].id
  }

  /** item_id in self._items */
  predicate HasId(items: seq<CouponItem>, id: int)
  {
    exists i :: 0 <= i < |items| && items[i].id == id
  }

  /** self._items.pop(item_id): the table without that id, the others in their order. */
  function RemoveId(items: seq<CouponItem>, id: int): (r: seq<CouponItem>)
    ensures !HasId(r, id)
    ensures forall x :: x in r <==> x in items && x.id != id
    ensures IdsIncreasing(items) ==> IdsIncreasing(r)
    ensures |r| <= |items|
  {
    if items == [] then []
    else
      var rest := RemoveId(items[1..], id);
      RemoveIdMembers(items, id, rest);
      RemoveIdOrder(items, id, rest);
      if items[0].id == id then rest else [items[0]] + rest
  }

  /** A table with increasing ids still has them without its first item. */
  lemma TailIncreasing(items: seq<CouponItem>)
    requires items != [] && IdsIncreasing(items)
    ensures IdsIncreasing(items[1..])
  {
    var tail := items[1..];
    forall i, j | 0 <= i < j < |tail|
      ensures tail[i].id < tail[j].id
    {
      assert tail[i] == items[i + 1] && tail[j] == items[j + 1];
    }
  }

  /** One step of RemoveId: the id is absent and exactly the other items remain. */
  lemma RemoveIdMembers(items: seq<CouponItem>, id: int, rest: seq<CouponItem>)
    requires items != []
    requires !HasId(rest, id)
    requires forall x :: x in rest <==> x in items[1..] && x.id != id
    ensures var r := if items[0].id == id then rest else [items[0]] + rest;
      !HasId(r, id) && forall x :: x in r <==> x in items && x.id != id
  {
    assert items == [items[0]] + items[1..];
    if items[0].id != id {
      var r := [items[0]] + rest;
      forall i | 0 <= i < |r|
        ensures r[i].id != id
      {
        if i > 0 {
          assert r[i] == rest[i - 1];
        }
      }
    }
  }

  /** One step of RemoveId: keeping the first item in front of the tail's removal keeps ids increasing. */
  lemma RemoveIdOrder(items: seq<CouponItem>, id: int, rest: seq<CouponItem>)
    requires items != []
    requires forall x :: x in rest ==> x in items[1..]
    requires IdsIncreasing(items[1..]) ==> IdsIncreasing(rest)
    ensures var r := if items[0].id == id then rest else [items[0]] + rest;
      IdsIncreasing(items) ==> IdsIncreasing(r)
  {
    var tail := items[1..];
    if IdsIncreasing(items) {
      TailIncreasing(items);
    }
    if IdsIncreasing(items) && items[0].id != id {
      var r := [items[0]] + rest;
      forall i, j | 0 <= i < j < |r|
        ensures r[i].id < r[j].id
      {
        assert r[j] == rest[j - 1] && r[j] in tail;
        var k :| 0 <= k < |tail| && tail[k] == r[j];
        assert tail[k] == items[k + 1];
        if i > 0 {
          assert r[i] == rest[i - 1];
        }
      }
    }
  }

  /** Removing an id takes exactly one item out of a table with increasing ids. */
  lemma {:induction false} RemoveOne(items: seq<CouponItem>, id: int)
    requires IdsIncreasing(items) && HasId(items, id)
    ensures |RemoveId(items, id)| == |items| - 1
  {
    if items[0].id == id {
      assert !HasId(items[1..], id) by {
        forall i | 0 <= i < |items[1..]| ensures items[1..][i].id != id {
          assert items[1..][i] == items[i + 1];
        }
      }
      RemoveAbsent(items[1..], id);
    } else {
      var i :| 0 <= i < |items| && items[i].id == id;
      assert items[1..][i - 1] == items[i];
      RemoveOne(items[1..], id);
    }
  }

  /** Removing an id that is not there changes nothing. */
  lemma {:induction false} RemoveAbsent(items: seq<CouponItem>, id: int)
    requires !HasId(items, id)
    ensures RemoveId(items, id) == items
  {
    if items != [] {
      assert items[0].id != id;
      assert !HasId(items[1..], id) by {
        forall i | 0 <= i < |items[1..]| ensures items[1..][i].id != id {
          assert items[1..][i] == items[i + 1];
        }
      }
      RemoveAbsent(items[1..], id);
      assert [items[0]] + items[1..] == items;
    }
  }

  /**
   * Decimal.quantize(Decimal('.01')) under the default context
   * (ROUND_HALF_EVEN): the nearest multiple of 0.01, ties to an even count
   * of cents.
   */
  function QuantizeCents(x: real): (r: real)
    ensures (r * 100.0).Floor as real == r * 100.0
    ensures -0.005 <= r - x <= 0.005
  {
    var k := RoundHalfEven(x * 100.0);
    var r := k as real / 100.0;
    assert r * 100.0 == k as real;
    assert (k as real).Floor == k;
    assert r - x == (k as real - x * 100.0) / 100.0;
    r
  }

  /** An amount already in whole cents is left as it is. */
  lemma QuantizeWholeCents(k: int)
    ensures QuantizeCents(k as real / 100.0) == k as real / 100.0
  {
    assert (k as real / 100.0) * 100.0 == k as real;
  }

  /** Rounding half to even is symmetric: quantizing -x gives minus the quantized x. */
  lemma QuantizeNegate(x: real)
    ensures QuantizeCents(-x) == -QuantizeCents(x)
  {
    var y := x * 100.0;
    var n := y.Floor;
    var m := (-x * 100.0).Floor;
    assert -x * 100.0 == -y;
    if y == n as real {
      assert m == -n;
    } else {
      assert m == -n - 1;
      assert -y - m as real == 1.0 - (y - n as real);
      assert (m % 2 == 0) == (n % 2 != 0);
    }
  }

  /** A running total with the percentage discount and surcharge of it applied, each quantized to cents. */
  function Adjusted(base: real, discount: real, surcharge: real): real
  {
    base + (QuantizeCents(-(base * discount / 100.0)) + QuantizeCents(base * surcharge / 100.0))
  }

  /**
   * The value coupon_totalize leaves in totalized_value, starting from the
   * value the field held before: the item totals are added to it, then the
   * adjustments of that sum.
   */
  function TotalizeFrom(prior: real, items: seq<CouponItem>, discount: real, surcharge: real): real
  {
    Adjusted(prior + ItemsTotal(items), discount, surcharge)
  }

  /** With no discount or surcharge the total is exactly the sum of quantity times price. */
  lemma PlainTotal(items: seq<CouponItem>)
    ensures TotalizeFrom(0.0, items, 0.0, 0.0) == ItemsTotal(items)
  {
    QuantizeWholeCents(0);
  }

  /** An appended item adds its quantity times price to the items total. */
  lemma ItemsTotalAppend(items: seq<CouponItem>, item: CouponItem)
    ensures ItemsTotal(items + [item]) == ItemsTotal(items) + item.quantity * item.value
  {
    assert (items + [item])[..|items|] == items;
  }

  /** A coupon of one item totals that item's quantity times price. */
  lemma SingleItemTotal(item: CouponItem)
    ensures ItemsTotal([item]) == item.quantity * item.value
  {
    assert [item][..0] == [];
  }

  /**
   * A totalize that fails its "greater than zero" test has already added to
   * totalized_value, and the next totalize adds to that: a 10.00 item with a
   * 200% discount fails at -10.00, and retrying without a discount then
   * fails at 0.00 although the same coupon totalized afresh gives 10.00.
   */
  lemma RetryKeepsFailedTotal()
    ensures TotalizeFrom(0.0, [CouponItem(1, 1.0, 10.0)], 200.0, 0.0) == -10.0
    ensures TotalizeFrom(-10.0, [CouponItem(1, 1.0, 10.0)], 0.0, 0.0) == 0.0
    ensures TotalizeFrom(0.0, [CouponItem(1, 1.0, 10.0)], 0.0, 0.0) == 10.0
  {
    var items := [CouponItem(1, 1.0, 10.0)];
    assert items[..0] == [];
    assert ItemsTotal(items) == 10.0;
    hide ItemsTotal, Adjusted;
    AdjustedByWholeCents(10.0, 200.0, 0.0, -2000, 0);
    AdjustedByWholeCents(0.0, 0.0, 0.0, 0, 0);
    AdjustedByWholeCents(10.0, 0.0, 0.0, 0, 0);
  }

  /** Adjustments that are already whole cents are applied exactly. */
  lemma AdjustedByWholeCents(base: real, discount: real, surcharge: real, d: int, s: int)
    requires -(base * discount / 100.0) == d as real / 100.0
    requires base * surcharge / 100.0 == s as real / 100.0
    ensures Adjusted(base, discount, surcharge) == base + d as real / 100.0 + s as real / 100.0
  {
    QuantizeWholeCents(d);
    QuantizeWholeCents(s);
  }

  /** The payment method codes the constants describe ('M', 'C', 'B', 'R', 'D', 'F', 'G'). */
  predicate KnownPaymentMethod(m: string)
  {
    m in {"M", "C", "B", "R", "D", "F", "G"}
  }

  class Simple {
    /** The module-level _printer_off switch. */
    var off: bool
    var tillClosed: bool
    var isCouponOpened: bool
    var itemsQuantity: nat
    var isCouponTotalized: bool
    var totalizedValue: real
    var hasPayments: bool
    var paymentsTotal: real
    var items: seq<CouponItem>
    var isCentralized: bool

    /**
     * The coupon invariant: a totalized coupon is open, payments only follow
     * totalize, and every item id is one of the ids handed out so far, in
     * increasing order.
     */
    predicate Valid()
      reads this
    {
      (isCouponTotalized ==> isCouponOpened)
      && (!isCouponTotalized ==> !hasPayments && paymentsTotal == 0.0)
      && (!isCouponOpened ==> itemsQuantity == 0 && items == [])
      && IdsIncreasing(items)
      && (forall i :: 0 <= i < |items| ==> 1 <= items[i].id <= itemsQuantity)
    }

    /** The fields _reset_flags gives a coupon. */
    predicate CouponReset()
      reads this
    {
      !isCouponOpened && itemsQuantity == 0 && !isCouponTotalized && totalizedValue == 0.0
      && !hasPayments && paymentsTotal == 0.0 && items == [] && !isCentralized
    }

    /** A fresh printer; savedTillClosed is the flag read back from the state file, if any. */
    constructor (savedTillClosed: Option<bool>)
      ensures Valid() && CouponReset() && !off
      ensures tillClosed == (savedTillClosed.Some? && savedTillClosed.value)
    {
      off := false;
      tillClosed := savedTillClosed.Some? && savedTillClosed.value;
      isCouponOpened := false;
      itemsQuantity := 0;
      isCouponTotalized := false;
      totalizedValue := 0.0;
      hasPayments := false;
      paymentsTotal := 0.0;
      items := [];
      isCentralized := false;
    }

    /** _reset_flags() */
    method ResetFlags()
      modifies this
      ensures Valid() && CouponReset()
      ensures off == old(off) && tillClosed == old(tillClosed)
    {
      isCouponOpened := false;
      itemsQuantity := 0;
      isCouponTotalized := false;
      totalizedValue := 0.0;
      hasPayments := false;
      paymentsTotal := 0.0;
      items := [];
      isCentralized := false;
    }

    /** set_off(off) */
    method SetOff(o: bool)
      modifies this
      ensures off == o
      ensures tillClosed == old(tillClosed) && isCouponOpened == old(isCouponOpened)
      ensures itemsQuantity == old(itemsQuantity) && isCouponTotalized == old(isCouponTotalized)
      ensures totalizedValue == old(totalizedValue) && hasPayments == old(hasPayments)
      ensures paymentsTotal == old(paymentsTotal) && items == old(items) && isCentralized == old(isCentralized)
    {
      off := o;
    }

    /** coupon_open(): refused while off or with a coupon already open, otherwise opens one. */
    method CouponOpen() returns (r: Result<Unit>)
      requires Valid()
      modifies this
      ensures Valid()
      ensures old(off) ==> r == Err(Raise(PrinterOfflineError))
      ensures !old(off) && old(isCouponOpened) ==> r == Err(Raise(CouponOpenError))
      ensures r.Ok? <==> !old(off) && !old(isCouponOpened)
      ensures isCouponOpened == (old(isCouponOpened) || r.Ok?)
      ensures off == old(off) && tillClosed == old(tillClosed)
      ensures itemsQuantity == old(itemsQuantity) && isCouponTotalized == old(isCouponTotalized)
      ensures totalizedValue == old(totalizedValue) && hasPayments == old(hasPayments)
      ensures paymentsTotal == old(paymentsTotal) && items == old(items) && isCentralized == old(isCentralized)
    {
      if off {
        return Err(Raise(PrinterOfflineError));
      }
      if isCouponOpened {
        return Err(Raise(CouponOpenError));
      }
      isCouponOpened := true;
      r := Ok(Unit);
    }

    /**
     * coupon_add_item(): on an open, untotalized coupon the next id is handed
     * out and the item is stored under it. The other arguments of the source
     * only reach the printed text.
     */
    method CouponAddItem(quantity: real, price: real) returns (r: Result<nat>)
      requires Valid()
      modifies this
      ensures Valid()
      ensures old(off) ==> r == Err(Raise(PrinterOfflineError))
      ensures !old(off) && !old(isCouponOpened) ==> r == Err(Raise(CouponOpenError))
      ensures !old(off) && old(isCouponOpened) && old(isCouponTotalized) ==> r == Err(Raise(ItemAdditionError))
      ensures r.Ok? <==> !old(off) && old(isCouponOpened) && !old(isCouponTotalized)
      ensures r.Ok? ==> r.value == old(itemsQuantity) + 1 && itemsQuantity == r.value &&
                        items == old(items) + [CouponItem(r.value, quantity, price)] &&
                        !HasId(old(items), r.value)
      ensures r.Err? ==> itemsQuantity == old(itemsQuantity) && items == old(items)
      ensures off == old(off) && tillClosed == old(tillClosed) && isCouponOpened == old(isCouponOpened)
      ensures isCouponTotalized == old(isCouponTotalized) && totalizedValue == old(totalizedValue)
      ensures hasPayments == old(hasPayments) && paymentsTotal == old(paymentsTotal)
      ensures isCentralized == old(isCentralized)
    {
      if off {
        return Err(Raise(PrinterOfflineError));
      }
      if !isCouponOpened {
        return Err(Raise(CouponOpenError));
      }
      if isCouponTotalized {
        return Err(Raise(ItemAdditionError));
      }
      itemsQuantity := itemsQuantity + 1;
      var itemId := itemsQuantity;
      items := items + [CouponItem(itemId, quantity, price)];
      r := Ok(itemId);
    }

    /** coupon_cancel_item(item_id): an unknown id or a totalized coupon is a CancelItemError. */
    method CouponCancelItem(itemId: int) returns (r: Result<Unit>)
      requires Valid()
      modifies this
      ensures Valid()
      ensures old(off) ==> r == Err(Raise(PrinterOfflineError))
      ensures !old(off) && !old(isCouponOpened) ==> r == Err(Raise(CouponOpenError))
      ensures !old(off) && old(isCouponOpened) && (!HasId(old(items), itemId) || old(isCouponTotalized)) ==>
                r == Err(Raise(CancelItemError))
      ensures r.Ok? <==> !old(off) && old(isCouponOpened) && HasId(old(items), itemId) && !old(isCouponTotalized)
      ensures items == if r.Ok? then RemoveId(old(items), itemId) else old(items)
      ensures r.Ok? ==> |items| == |old(items)| - 1 && !HasId(items, itemId)
      ensures off == old(off) && tillClosed == old(tillClosed) && isCouponOpened == old(isCouponOpened)
      ensures itemsQuantity == old(itemsQuantity) && isCouponTotalized == old(isCouponTotalized)
      ensures totalizedValue == old(totalizedValue) && hasPayments == old(hasPayments)
      ensures paymentsTotal == old(paymentsTotal) && isCentralized == old(isCentralized)
    {
      if off {
        return Err(Raise(PrinterOfflineError));
      }
      if !isCouponOpened {
        return Err(Raise(CouponOpenError));
      }
      if !HasId(items, itemId) {
        return Err(Raise(CancelItemError));
      }
      if isCouponTotalized {
        return Err(Raise(CancelItemError));
      }
      RemoveOne(items, itemId);
      items := RemoveId(items, itemId);
      r := Ok(Unit);
    }

    /** coupon_cancel(): resets the coupon whether one is open or not; only an off printer refuses. */
    method CouponCancel() returns (r: Result<Unit>)
      requires Valid()
      modifies this
      ensures Valid()
      ensures r == if old(off) then Err(Raise(PrinterOfflineError)) else Ok(Unit)
      ensures r.Ok? ==> CouponReset()
      ensures r.Err? ==> isCouponOpened == old(isCouponOpened) && itemsQuantity == old(itemsQuantity) &&
                         isCouponTotalized == old(isCouponTotalized) && totalizedValue == old(totalizedValue) &&
                         hasPayments == old(hasPayments) && paymentsTotal == old(paymentsTotal) &&
                         items == old(items) && isCentralized == old(isCentralized)
      ensures off == old(off) && tillClosed == old(tillClosed)
    {
      if off {
        return Err(Raise(PrinterOfflineError));
      }
      ResetFlags();
      r := Ok(Unit);
    }

    /**
     * coupon_totalize(discount, surcharge): refused unless an item was ever
     * added to the open coupon and it is not yet totalized. The item totals
     * are then added into totalized_value one by one and the quantized
     * adjustments applied; a result that is not positive raises
     * CouponTotalizeError but stays in totalized_value.
     */
    method CouponTotalize(discount: real, surcharge: real) returns (r: Result<real>)
      requires Valid()
      modifies this
      ensures Valid()
      ensures old(off) ==> r == Err(Raise(PrinterOfflineError))
      ensures !old(off) && !old(isCouponOpened) ==> r == Err(Raise(CouponOpenError))
      ensures !old(off) && old(isCouponOpened) && (old(itemsQuantity) == 0 || old(isCouponTotalized)) ==>
                r == Err(Raise(CouponTotalizeError))
      ensures totalizedValue ==
                if !old(off) && old(isCouponOpened) && old(itemsQuantity) != 0 && !old(isCouponTotalized)
                then TotalizeFrom(old(totalizedValue), items, discount, surcharge)
                else old(totalizedValue)
      ensures r.Ok? <==> !old(off) && old(isCouponOpened) && old(itemsQuantity) != 0 &&
                         !old(isCouponTotalized) && totalizedValue > 0.0
      ensures r.Ok? ==> r.value == totalizedValue
      ensures r.Err? && !old(off) && old(isCouponOpened) && old(itemsQuantity) != 0 && !old(isCouponTotalized) ==>
                r == Err(Raise(CouponTotalizeError))
      ensures isCouponTotalized == (old(isCouponTotalized) || r.Ok?)
      ensures off == old(off) && tillClosed == old(tillClosed) && isCouponOpened == old(isCouponOpened)
      ensures itemsQuantity == old(itemsQuantity) && items == old(items)
      ensures hasPayments == old(hasPayments) && paymentsTotal == old(paymentsTotal)
      ensures isCentralized == old(isCentralized)
    {
      if off {
        return Err(Raise(PrinterOfflineError));
      }
      if !isCouponOpened {
        return Err(Raise(CouponOpenError));
      }
      if itemsQuantity == 0 {
        return Err(Raise(CouponTotalizeError));
      }
      if isCouponTotalized {
        return Err(Raise(CouponTotalizeError));
      }
      var total := totalizedValue;
      var i := 0;
      while i < |items|
        invariant 0 <= i <= |items|
        invariant total == old(totalizedValue) + ItemsTotal(items[..i])
      {
        assert items[..i + 1][..i] == items[..i];
        total := total + TotalValue(items[i]);
        i := i + 1;
      }
      assert items[..i] == items;
      var surchargeValue := total * surcharge / 100.0;
      var discountValue := total * discount / 100.0;
      totalizedValue := total + (QuantizeCents(-discountValue) + QuantizeCents(surchargeValue));
      assert totalizedValue == Adjusted(total, discount, surcharge);
      if !(totalizedValue > 0.0) {
        return Err(Raise(CouponTotalizeError));
      }
      isCouponTotalized := true;
      r := Ok(totalizedValue);
    }

    /**
     * coupon_add_payment(method, value): only on a totalized coupon; the
     * amount is counted and the remainder returned. An unknown method code
     * raises KeyError, but only after the amount was counted.
     */
    method CouponAddPayment(paymentMethod: string, value: real) returns (r: Result<real>)
      requires Valid()
      modifies this
      ensures Valid()
      ensures old(off) ==> r == Err(Raise(PrinterOfflineError))
      ensures !old(off) && !old(isCouponTotalized) ==> r == Err(Raise(PaymentAdditionError))
      ensures !old(off) && old(isCouponTotalized) ==>
                paymentsTotal == old(paymentsTotal) + value && hasPayments &&
                r == if KnownPaymentMethod(paymentMethod) then Ok(totalizedValue - paymentsTotal)
                     else Err(Raise(KeyError))
      ensures old(off) || !old(isCouponTotalized) ==>
                paymentsTotal == old(paymentsTotal) && hasPayments == old(hasPayments)
      ensures off == old(off) && tillClosed == old(tillClosed) && isCouponOpened == old(isCouponOpened)
      ensures itemsQuantity == old(itemsQuantity) && isCouponTotalized == old(isCouponTotalized)
      ensures totalizedValue == old(totalizedValue) && items == old(items)
      ensures isCentralized == old(isCentralized)
    {
      if off {
        return Err(Raise(PrinterOfflineError));
      }
      if !isCouponTotalized {
        return Err(Raise(PaymentAdditionError));
      }
      paymentsTotal := paymentsTotal + value;
      hasPayments := true;
      if !KnownPaymentMethod(paymentMethod) {
        return Err(Raise(KeyError));
      }
      r := Ok(totalizedValue - paymentsTotal);
    }

    /**
     * coupon_close(): CloseCouponError unless the open coupon is totalized,
     * has a payment and is paid in full; on success every coupon field is
     * reset and 0 is returned.
     */
    method CouponClose() returns (r: Result<int>)
      requires Valid()
      modifies this
      ensures Valid()
      ensures old(off) ==> r == Err(Raise(PrinterOfflineError))
      ensures !old(off) && !old(isCouponOpened) ==> r == Err(Raise(CouponOpenError))
      ensures !old(off) && old(isCouponOpened) &&
              (!old(isCouponTotalized) || !old(hasPayments) || old(totalizedValue) > old(paymentsTotal)) ==>
                r == Err(Raise(CloseCouponError))
      ensures r.Ok? <==> !old(off) && old(isCouponOpened) && old(isCouponTotalized) && old(hasPayments) &&
                         old(totalizedValue) <= old(paymentsTotal)
      ensures r.Ok? ==> r.value == 0 && CouponReset()
      ensures r.Err? ==> isCouponOpened == old(isCouponOpened) && itemsQuantity == old(itemsQuantity) &&
                         isCouponTotalized == old(isCouponTotalized) && totalizedValue == old(totalizedValue) &&
                         hasPayments == old(hasPayments) && paymentsTotal == old(paymentsTotal) &&
                         items == old(items) && isCentralized == old(isCentralized)
      ensures off == old(off) && tillClosed == old(tillClosed)
    {
      if off {
        return Err(Raise(PrinterOfflineError));
      }
      if !isCouponOpened {
        return Err(Raise(CouponOpenError));
      }
      if !isCouponTotalized {
        return Err(Raise(CloseCouponError));
      }
      if !hasPayments {
        return Err(Raise(CloseCouponError));
      }
      if totalizedValue > paymentsTotal {
        return Err(Raise(CloseCouponError));
      }
      ResetFlags();
      r := Ok(0);
    }

    /** summarize() (and open_till(), which calls it): a reading X clears the till's reduction flag. */
    method Summarize() returns (r: Result<Unit>)
      requires Valid()
      modifies this
      ensures Valid()
      ensures r == if old(off) then Err(Raise(PrinterOfflineError)) else Ok(Unit)
      ensures tillClosed == (old(tillClosed) && old(off))
      ensures off == old(off) && isCouponOpened == old(isCouponOpened)
      ensures itemsQuantity == old(itemsQuantity) && isCouponTotalized == old(isCouponTotalized)
      ensures totalizedValue == old(totalizedValue) && hasPayments == old(hasPayments)
      ensures paymentsTotal == old(paymentsTotal) && items == old(items) && isCentralized == old(isCentralized)
    {
      if off {
        return Err(Raise(PrinterOfflineError));
      }
      tillClosed := false;
      r := Ok(Unit);
    }

    /** close_till(): a second reduction Z before the next reading X is a DriverError. */
    method CloseTill() returns (r: Result<Unit>)
      requires Valid()
      modifies this
      ensures Valid()
      ensures old(off) ==> r == Err(Raise(PrinterOfflineError))
      ensures !old(off) && old(tillClosed) ==> r == Err(Raise(DriverError))
      ensures r.Ok? <==> !old(off) && !old(tillClosed)
      ensures tillClosed == (old(tillClosed) || r.Ok?)
      ensures off == old(off) && isCouponOpened == old(isCouponOpened)
      ensures itemsQuantity == old(itemsQuantity) && isCouponTotalized == old(isCouponTotalized)
      ensures totalizedValue == old(totalizedValue) && hasPayments == old(hasPayments)
      ensures paymentsTotal == old(paymentsTotal) && items == old(items) && isCentralized == old(isCentralized)
    {
      if off {
        return Err(Raise(PrinterOfflineError));
      }
      if tillClosed {
        return Err(Raise(DriverError));
      }
      tillClosed := true;
      r := Ok(Unit);
    }
  }

  /**
   * Totalizing takes the surcharge as a percentage: a 10.00 item with
   * surcharge 1 totals 10.10, where the coupon tests expect the 11.00 of an
   * absolute surcharge.
   */
  lemma SurchargeIsPercentage()
    ensures TotalizeFrom(0.0, [CouponItem(1, 1.0, 10.0)], 0.0, 1.0) == 10.1
  {
    var items := [CouponItem(1, 1.0, 10.0)];
    assert items[..0] == [];
    assert ItemsTotal(items) == 10.0;
    hide ItemsTotal, Adjusted;
    AdjustedByWholeCents(10.0, 0.0, 1.0, 0, 10);
  }

  /**
   * The cancel-item flow of the coupon tests: an unknown id and a second
   * cancel of the same id fail, the next item gets a fresh id, and the
   * coupon then totalizes, takes a payment and closes.
   */
  method CancelItemScenario() returns (first: Result<nat>, unknown: Result<Unit>, again: Result<Unit>,
                                        second: Result<nat>, total: Result<real>, closed: Result<int>)
    ensures first == Ok(1) && unknown == Err(Raise(CancelItemError)) && again == Err(Raise(CancelItemError))
    ensures second == Ok(2) && total == Ok(10.0) && closed == Ok(0)
  {
    hide RemoveId, ItemsTotal, TotalizeFrom, Adjusted, QuantizeCents, RoundHalfEven;
    var p := new Simple(None);
    var opening := p.CouponOpen();
    first := p.CouponAddItem(1.0, 10.0);
    unknown := p.CouponCancelItem(first.value + 9);
    var cancelled := p.CouponCancelItem(first.value);
    again := p.CouponCancelItem(first.value);
    second := p.CouponAddItem(1.0, 10.0);
    assert [CouponItem(1, 1.0, 10.0)][0].id == 1;
    RemoveOne([CouponItem(1, 1.0, 10.0)], 1);
    assert p.items == [CouponItem(2, 1.0, 10.0)];
    PlainTotal(p.items);
    SingleItemTotal(CouponItem(2, 1.0, 10.0));
    total := p.CouponTotalize(0.0, 0.0);
    var paid := p.CouponAddPayment("M", 100.0);
    closed := p.CouponClose();
  }

  /** A reduction Z twice in a row fails; a reading X in between lets the second one through. */
  method TillScenario() returns (twice: Result<Unit>, afterReading: Result<Unit>)
    ensures twice == Err(Raise(DriverError)) && afterReading.Ok?
  {
    var p := new Simple(None);
    var z := p.CloseTill();
    twice := p.CloseTill();
    var x := p.Summarize();
    afterReading := p.CloseTill();
  }

  /** Every checked operation raises PrinterOfflineError while the printer is off. */
  method OfflineScenario() returns (opening: Result<Unit>, closed: Result<int>, reduced: Result<Unit>)
    ensures opening == Err(Raise(PrinterOfflineError))
    ensures closed == Err(Raise(PrinterOfflineError))
    ensures reduced == Err(Raise(PrinterOfflineError))
  {
    var p := new Simple(None);
    p.SetOff(true);
    opening := p.CouponOpen();
    closed := p.CouponClose();
    reduced := p.CloseTill();
  }
}
