/*
 * FiscalPrinter, the vendor-neutral coupon layer: it checks the arguments and
 * the order of the calls, delegates to a driver, and keeps three fields of
 * its own (totalized flag, totalized value, payments total).
 *
 * The driver is an oracle: each method takes the reply the driver gives
 * (a value or an exception) as a parameter, and the printer records every
 * call it delegates in `calls`, so a contract can say whether the driver was
 * reached at all.
 */
module Fiscal {
  import opened Common

  datatype UnitType = Weight | Meters | Liters | EmptyUnit | CustomUnit

  datatype TaxType = Icms | Substitution | Exemption | NoTax | Service | CustomTax

  /** The arguments of add_item. Text is passed on unconverted (the charset conversion is not modelled). */
  datatype Item = Item(
    code: string, description: string, price: real, taxcode: TaxType,
    quantity: real, unit: UnitType, discount: real, surcharge: real, unitDesc: string)

  /** The calls FiscalPrinter delegates to its driver. */
  datatype DriverCall =
    | Setup
    | AddItemCall(item: Item)
    | TotalizeCall(discount: real, surcharge: real, taxcode: TaxType)
    | AddPaymentCall(paymentMethod: string, value: real, description: string)
    | CancelCall
    | CancelItemCall(id: int)
    | CloseCall(message: string)
    | ReadMemoryCall(start: Date, end: Date)
    | ReadMemoryToSerialCall(start: Date, end: Date)
    | ReadMemoryByReductionsCall(first: int, last: int)

  /** The unit rule: only CUSTOM takes a unit description, and then one of exactly two characters. */
  predicate UnitDescValid(unit: UnitType, unitDesc: string)
  {
    if unit == CustomUnit then |unitDesc| == 2 else unitDesc == []
  }

  /** Arguments add_item lets through to the driver (given an untotalized coupon). */
  predicate ItemAccepted(item: Item)
  {
    !(item.discount != 0.0 && item.surcharge != 0.0)
    && UnitDescValid(item.unit, item.unitDesc)
    && item.price != 0.0
    && item.surcharge >= 0.0 && item.discount >= 0.0
  }

  /** The checks of add_item, in the order they are made: the exception raised, or None. */
  function AddItemCheck(totalized: bool, item: Item): (r: Option<Exception>)
    ensures totalized ==> r == Some(Raise(AlreadyTotalized))
    ensures r.None? <==> !totalized && ItemAccepted(item)
    ensures r.Some? && !totalized ==> r.value.cls in {TypeError, ValueError, InvalidValue}
  {
    if totalized then Some(Raise(AlreadyTotalized))
    else if item.discount != 0.0 && item.surcharge != 0.0 then Some(Raise(TypeError))
    else if item.unit != CustomUnit && item.unitDesc != [] then Some(Raise(ValueError))
    else if item.unit == CustomUnit && item.unitDesc == [] then Some(Raise(ValueError))
    else if item.unit == CustomUnit && |item.unitDesc| != 2 then Some(Raise(ValueError))
    else if item.price == 0.0 then Some(Raise(InvalidValue))
    else if item.surcharge < 0.0 then Some(Raise(ValueError))
    else if item.discount < 0.0 then Some(Raise(ValueError))
    else None
  }

  /** Discount and surcharge together are a TypeError, whatever else is wrong with the item. */
  lemma DiscountWithSurcharge(item: Item)
    requires item.discount != 0.0 && item.surcharge != 0.0
    ensures AddItemCheck(false, item) == Some(Raise(TypeError))
  { }

  /** A unit description that breaks the unit rule is a ValueError, unless discount and surcharge clash first. */
  lemma UnitRule(item: Item)
    requires !(item.discount != 0.0 && item.surcharge != 0.0)
    requires !UnitDescValid(item.unit, item.unitDesc)
    ensures AddItemCheck(false, item) == Some(Raise(ValueError))
  { }

  /** Only a zero price is refused (InvalidValue); a negative price reaches the driver. */
  lemma OnlyZeroPriceRefused(item: Item)
    requires !(item.discount != 0.0 && item.surcharge != 0.0) && UnitDescValid(item.unit, item.unitDesc)
    ensures item.price == 0.0 ==> AddItemCheck(false, item) == Some(Raise(InvalidValue))
    ensures item.price < 0.0 && item.surcharge >= 0.0 && item.discount >= 0.0 ==> AddItemCheck(false, item) == None
  { }

  /** A negative surcharge or discount is a ValueError once the earlier checks pass. */
  lemma NegativeAdjustmentRefused(item: Item)
    requires !(item.discount != 0.0 && item.surcharge != 0.0) && UnitDescValid(item.unit, item.unitDesc)
    requires item.price != 0.0
    requires item.surcharge < 0.0 || item.discount < 0.0
    ensures AddItemCheck(false, item) == Some(Raise(ValueError))
  { }

  /** The checks of totalize; they do not look at the printer's state. */
  function TotalizeCheck(discount: real, surcharge: real, taxcode: TaxType): (r: Option<Exception>)
    ensures discount != 0.0 && surcharge != 0.0 ==> r == Some(Raise(TypeError))
    ensures r.None? <==> !(discount != 0.0 && surcharge != 0.0) && !(surcharge != 0.0 && taxcode == NoTax)
    ensures r.Some? ==> r.value.cls in {TypeError, ValueError}
  {
    if discount != 0.0 && surcharge != 0.0 then Some(Raise(TypeError))
    else if surcharge != 0.0 && taxcode == NoTax then Some(Raise(ValueError))
    else None
  }

  /** The checks of close: the exception raised, or None. */
  function CloseCheck(totalized: bool, totalizedValue: real, paymentsTotal: real): (r: Option<Exception>)
    ensures r.None? <==> totalized && paymentsTotal != 0.0 && totalizedValue <= paymentsTotal
    ensures r.Some? ==> r.value == Raise(CloseCouponError)
  {
    if !totalized then Some(Raise(CloseCouponError))
    else if paymentsTotal == 0.0 then Some(Raise(CloseCouponError))
    else if totalizedValue > paymentsTotal then Some(Raise(CloseCouponError))
    else None
  }

  /** The assertion of till_read_memory and till_read_memory_to_serial. */
  function ReadMemoryCheck(start: Date, end: Date, today: Date): (r: Option<Exception>)
    ensures r.None? <==> DateLe(start, end) && DateLe(end, today)
    ensures r.Some? ==> r.value == Raise(AssertionError)
  {
    if DateLe(start, end) && DateLe(end, today) then None else Some(Raise(AssertionError))
  }

  /** The assertion of till_read_memory_by_reductions. */
  function ReductionsCheck(first: int, last: int): (r: Option<Exception>)
    ensures r.None? <==> 0 < first <= last
    ensures r.Some? ==> r.value == Raise(AssertionError)
  {
    if last >= first > 0 then None else Some(Raise(AssertionError))
  }

  class FiscalPrinter {
    var totalized: bool
    var totalizedValue: real
    var paymentsTotal: real
    var setupComplete: bool
    /** The driver calls made so far, oldest first. */
    var calls: seq<DriverCall>

    /** Payments and the totalized value are only ever non-zero on a totalized coupon. */
    predicate Valid()
      reads this
    {
      !totalized ==> totalizedValue == 0.0 && paymentsTotal == 0.0
    }

    /** The initial state; a driver setup that raises is logged away and only clears setup_complete. */
    constructor (setupReply: Result<Unit>)
      ensures Valid()
      ensures !totalized && totalizedValue == 0.0 && paymentsTotal == 0.0
      ensures setupComplete == setupReply.Ok?
      ensures calls == [Setup]
    {
      totalized := false;
      totalizedValue := 0.0;
      paymentsTotal := 0.0;
      setupComplete := setupReply.Ok?;
      calls := [Setup];
    }

    /** Sets the three coupon fields back to their initial values. */
    method Reset()
      modifies this
      ensures !totalized && totalizedValue == 0.0 && paymentsTotal == 0.0
      ensures setupComplete == old(setupComplete) && calls == old(calls)
      ensures Valid()
    {
      totalized := false;
      paymentsTotal := 0.0;
      totalizedValue := 0.0;
    }

    /** add_item: the checks, then the driver's reply (the new item id) or its exception. */
    method AddItem(item: Item, reply: Result<int>) returns (r: Result<int>)
      modifies this
      ensures AddItemCheck(old(totalized), item).Some? ==>
        r == Err(AddItemCheck(old(totalized), item).value) && calls == old(calls)
      ensures AddItemCheck(old(totalized), item).None? ==>
        r == reply && calls == old(calls) + [AddItemCall(item)]
      ensures totalized == old(totalized) && totalizedValue == old(totalizedValue)
      ensures paymentsTotal == old(paymentsTotal) && setupComplete == old(setupComplete)
    {
      var check := AddItemCheck(totalized, item);
      if check.Some? {
        return Err(check.value);
      }
      calls := calls + [AddItemCall(item)];
      r := reply;
    }

    /**
     * totalize: the argument checks, then the driver; a reply marks the coupon
     * totalized with the value the driver gave. A coupon already totalized is
     * not refused.
     */
    method Totalize(discount: real, surcharge: real, taxcode: TaxType, reply: Result<real>) returns (r: Result<real>)
      modifies this
      ensures TotalizeCheck(discount, surcharge, taxcode).Some? ==>
        r == Err(TotalizeCheck(discount, surcharge, taxcode).value) && calls == old(calls)
      ensures TotalizeCheck(discount, surcharge, taxcode).None? ==>
        r == reply && calls == old(calls) + [TotalizeCall(discount, surcharge, taxcode)]
      ensures r.Ok? ==> totalized && totalizedValue == r.value
      ensures r.Err? ==> totalized == old(totalized) && totalizedValue == old(totalizedValue)
      ensures paymentsTotal == old(paymentsTotal) && setupComplete == old(setupComplete)
      ensures old(Valid()) && r.Err? ==> Valid()
    {
      var check := TotalizeCheck(discount, surcharge, taxcode);
      if check.Some? {
        return Err(check.value);
      }
      calls := calls + [TotalizeCall(discount, surcharge, taxcode)];
      r := reply;
      if reply.Ok? {
        totalized := true;
        totalizedValue := reply.value;
      }
    }

    /** add_payment: refused before totalize; the amount is counted only once the driver returns. */
    method AddPayment<T>(paymentMethod: string, value: real, description: string, reply: Result<T>) returns (r: Result<T>)
      modifies this
      ensures !old(totalized) ==> r == Err(Raise(PaymentAdditionError)) && calls == old(calls)
      ensures old(totalized) ==> r == reply && calls == old(calls) + [AddPaymentCall(paymentMethod, value, description)]
      ensures paymentsTotal == if r.Ok? then old(paymentsTotal) + value else old(paymentsTotal)
      ensures totalized == old(totalized) && totalizedValue == old(totalizedValue)
      ensures setupComplete == old(setupComplete)
      ensures old(Valid()) ==> Valid()
    {
      if !totalized {
        return Err(Raise(PaymentAdditionError));
      }
      calls := calls + [AddPaymentCall(paymentMethod, value, description)];
      r := reply;
      if reply.Ok? {
        paymentsTotal := paymentsTotal + value;
      }
    }

    /** cancel: the driver first; only when it returns are the coupon fields reset. */
    method Cancel<T>(reply: Result<T>) returns (r: Result<T>)
      modifies this
      ensures r == reply && calls == old(calls) + [CancelCall]
      ensures r.Ok? ==> !totalized && totalizedValue == 0.0 && paymentsTotal == 0.0
      ensures r.Err? ==> totalized == old(totalized) && totalizedValue == old(totalizedValue) &&
                         paymentsTotal == old(paymentsTotal)
      ensures setupComplete == old(setupComplete)
      ensures old(Valid()) ==> Valid()
    {
      calls := calls + [CancelCall];
      r := reply;
      if reply.Ok? {
        Reset();
      }
    }

    /** cancel_item: handed to the driver unchecked. */
    method CancelItem<T>(id: int, reply: Result<T>) returns (r: Result<T>)
      modifies this
      ensures r == reply && calls == old(calls) + [CancelItemCall(id)]
      ensures totalized == old(totalized) && totalizedValue == old(totalizedValue)
      ensures paymentsTotal == old(paymentsTotal) && setupComplete == old(setupComplete)
    {
      calls := calls + [CancelItemCall(id)];
      r := reply;
    }

    /** close: CloseCouponError without reaching the driver unless totalized and paid in full; reset on success. */
    method Close<T>(message: string, reply: Result<T>) returns (r: Result<T>)
      modifies this
      ensures CloseCheck(old(totalized), old(totalizedValue), old(paymentsTotal)).Some? ==>
        r == Err(Raise(CloseCouponError)) && calls == old(calls) &&
        totalized == old(totalized) && totalizedValue == old(totalizedValue) && paymentsTotal == old(paymentsTotal)
      ensures CloseCheck(old(totalized), old(totalizedValue), old(paymentsTotal)).None? ==>
        r == reply && calls == old(calls) + [CloseCall(message)]
      ensures r.Ok? ==> !totalized && totalizedValue == 0.0 && paymentsTotal == 0.0
      ensures r.Err? ==> totalized == old(totalized) && totalizedValue == old(totalizedValue) &&
                         paymentsTotal == old(paymentsTotal)
      ensures setupComplete == old(setupComplete)
      ensures old(Valid()) ==> Valid()
    {
      var check := CloseCheck(totalized, totalizedValue, paymentsTotal);
      if check.Some? {
        return Err(check.value);
      }
      calls := calls + [CloseCall(message)];
      r := reply;
      if reply.Ok? {
        Reset();
      }
    }

    /** till_read_memory: start <= end <= today is asserted before the driver is called. */
    method TillReadMemory<T>(start: Date, end: Date, today: Date, reply: Result<T>) returns (r: Result<T>)
      modifies this
      ensures ReadMemoryCheck(start, end, today).Some? ==> r == Err(Raise(AssertionError)) && calls == old(calls)
      ensures ReadMemoryCheck(start, end, today).None? ==> r == reply && calls == old(calls) + [ReadMemoryCall(start, end)]
      ensures totalized == old(totalized) && totalizedValue == old(totalizedValue)
      ensures paymentsTotal == old(paymentsTotal) && setupComplete == old(setupComplete)
    {
      var check := ReadMemoryCheck(start, end, today);
      if check.Some? {
        return Err(check.value);
      }
      calls := calls + [ReadMemoryCall(start, end)];
      r := reply;
    }

    /** till_read_memory_to_serial: the same assertion, another driver call. */
    method TillReadMemoryToSerial<T>(start: Date, end: Date, today: Date, reply: Result<T>) returns (r: Result<T>)
      modifies this
      ensures ReadMemoryCheck(start, end, today).Some? ==> r == Err(Raise(AssertionError)) && calls == old(calls)
      ensures ReadMemoryCheck(start, end, today).None? ==>
        r == reply && calls == old(calls) + [ReadMemoryToSerialCall(start, end)]
      ensures totalized == old(totalized) && totalizedValue == old(totalizedValue)
      ensures paymentsTotal == old(paymentsTotal) && setupComplete == old(setupComplete)
    {
      var check := ReadMemoryCheck(start, end, today);
      if check.Some? {
        return Err(check.value);
      }
      calls := calls + [ReadMemoryToSerialCall(start, end)];
      r := reply;
    }

    /** till_read_memory_by_reductions: asserts end >= start > 0; the driver's value is dropped. */
    method TillReadMemoryByReductions<T>(first: int, last: int, reply: Result<T>) returns (r: Result<Unit>)
      modifies this
      ensures ReductionsCheck(first, last).Some? ==> r == Err(Raise(AssertionError)) && calls == old(calls)
      ensures ReductionsCheck(first, last).None? ==> calls == old(calls) + [ReadMemoryByReductionsCall(first, last)]
      ensures ReductionsCheck(first, last).None? ==> r == if reply.Ok? then Ok(Unit) else Err(reply.error)
      ensures totalized == old(totalized) && totalizedValue == old(totalizedValue)
      ensures paymentsTotal == old(paymentsTotal) && setupComplete == old(setupComplete)
    {
      var check := ReductionsCheck(first, last);
      if check.Some? {
        return Err(check.value);
      }
      calls := calls + [ReadMemoryByReductionsCall(first, last)];
      r := if reply.Ok? then Ok(Unit) else Err(reply.error);
    }
  }

  /**
   * A whole sale on a cooperative driver: an item, totalize, a payment that
   * covers the total, close. Totalizing twice is accepted, and the printer
   * ends where it started.
   */
  method SaleScenario() returns (closed: Result<Unit>, second: Result<real>)
    ensures closed == Ok(Unit)
    ensures second == Ok(10.0)
  {
    var p := new FiscalPrinter(Ok(Unit));
    var item := Item("123", "Monitor LG Flatron T910B", 10.0, Icms, 1.0, EmptyUnit, 0.0, 0.0, "");
    var id := p.AddItem(item, Ok(1));
    var total := p.Totalize(0.0, 0.0, Icms, Ok(10.0));
    second := p.Totalize(0.0, 0.0, Icms, Ok(10.0));
    var late := p.AddItem(item, Ok(2));
    assert late == Err(Raise(AlreadyTotalized));
    var paid := p.AddPayment("money", 10.0, "", Ok(0.0));
    closed := p.Close("", Ok(Unit));
    assert !p.totalized && p.paymentsTotal == 0.0;
  }

  /**
   * The close flow of the coupon tests: closing before totalize, without
   * payments and with too small a payment all fail without reaching the
   * driver; a payment that covers the total lets the coupon close.
   */
  method CloseScenario() returns (early: Result<Unit>, unpaid: Result<Unit>, short: Result<Unit>, closed: Result<Unit>)
    ensures early == Err(Raise(CloseCouponError)) && unpaid == Err(Raise(CloseCouponError))
    ensures short == Err(Raise(CloseCouponError)) && closed == Ok(Unit)
  {
    var p := new FiscalPrinter(Ok(Unit));
    var item := Item("987654", "Monitor LG 775N", 10.0, NoTax, 1.0, EmptyUnit, 0.0, 0.0, "");
    var id := p.AddItem(item, Ok(1));
    early := p.Close("", Ok(Unit));
    var total := p.Totalize(0.0, 0.0, NoTax, Ok(10.0));
    unpaid := p.Close("", Ok(Unit));
    var five := p.AddPayment("M", 5.0, "", Ok(5.0));
    short := p.Close("", Ok(Unit));
    var hundred := p.AddPayment("M", 100.0, "", Ok(-95.0));
    closed := p.Close("", Ok(Unit));
    assert |p.calls| == 6;
  }
}
