/*
 * Driver constant tables (BaseDriverConstants) and the tax constant lookup of
 * BasePrinter.
 */
module PrinterBase {
  import opened Common
  import Fiscal

  /** The arguments a driver's coupon_add_item receives; taxcode is the device's tax code as text. */
  datatype ItemArgs = ItemArgs(
    code: string, description: string, price: real, taxcode: string, quantity: real,
    unit: Fiscal.UnitType, discount: real, surcharge: real, unitDesc: string)

  /** A driver's _constants dict: identifier to device value, in insertion order. */
  datatype Constants<K, V> = Constants(entries: seq<(K, V)>)

  /** A dict never holds a key twice. */
  predicate ValidConstants<K(==), V>(c: Constants<K, V>)
  {
    forall i, j :: 0 <= i < j < |c.entries| ==> c.entries[i].0 != c.entries[j].0
  }

  /** get_items(): the table's identifiers, in order. */
  function GetItems<K, V>(c: Constants<K, V>): (r: seq<K>)
    ensures |r| == |c.entries|
    ensures forall i :: 0 <= i < |r| ==> r[i] == c.entries[i].0
  {
    seq(|c.entries|, i requires 0 <= i < |c.entries| => c.entries[i].0)
  }

  /** _constants[identifier], when the identifier is in the table. */
  function Lookup<K(==), V>(entries: seq<(K, V)>, id: K): (r: Option<V>)
    ensures r.None? <==> forall i :: 0 <= i < |entries| ==> entries[i].0 != id
    ensures r.Some? ==> exists i :: 0 <= i < |entries| && entries[i] == (id, r.value)
  {
    if |entries| == 0 then None
    else if entries[0].0 == id then Some(entries[0].1)
    else
      var r := Lookup(entries[1..], id);
      assert r.Some? ==> exists i :: 0 <= i < |entries[1..]| && entries[1..][i] == (id, r.value);
      assert forall i :: 1 <= i < |entries| ==> entries[i] == entries[1..][i - 1];
      r
  }

  /**
   * get_value(identifier, default): the mapped constant; an unknown identifier
   * gives the default when one is passed and raises ValueError otherwise.
   */
  function GetValue<K(==), V>(c: Constants<K, V>, id: K, default: Option<V>): (r: Result<V>)
    ensures id in GetItems(c) ==> r.Ok? && exists i :: 0 <= i < |c.entries| && c.entries[i] == (id, r.value)
    ensures id !in GetItems(c) && default.Some? ==> r == Ok(default.value)
    ensures id !in GetItems(c) && default.None? ==> r == Err(Raise(ValueError))
  {
    match Lookup(c.entries, id)
    case Some(v) => Ok(v)
    case None =>
      if default.Some? then Ok(default.value) else Err(Raise(ValueError))
  }

  /** In a valid table, get_value gives back the value stored with each listed item. */
  lemma GetValueOfItem<K, V>(c: Constants<K, V>, i: nat, default: Option<V>)
    requires ValidConstants(c) && i < |c.entries|
    ensures GetItems(c)[i] == c.entries[i].0
    ensures GetValue(c, GetItems(c)[i], default) == Ok(c.entries[i].1)
  {
    var r := GetValue(c, c.entries[i].0, default);
    assert c.entries[i].0 in GetItems(c);
    var j :| 0 <= j < |c.entries| && c.entries[j] == (c.entries[i].0, r.value);
    assert j == i;
  }

  /** The position of the first tuple whose enum is item, or |taxes| when there is none. */
  function FirstMatch<E(==), C, V>(taxes: seq<(E, C, V)>, item: E): (k: nat)
    ensures k <= |taxes|
    ensures k < |taxes| ==> taxes[k].0 == item
    ensures forall j :: 0 <= j < k ==> taxes[j].0 != item
  {
    if |taxes| == 0 || taxes[0].0 == item then 0
    else 1 + FirstMatch(taxes[1..], item)
  }

  /** get_tax_constant(item): the constant of the first (enum, constant, value) whose enum is item, else None. */
  function GetTaxConstant<E(==), C, V>(taxes: seq<(E, C, V)>, item: E): (r: Option<C>)
    ensures r.None? <==> forall i :: 0 <= i < |taxes| ==> taxes[i].0 != item
    ensures r.Some? ==> exists i :: (0 <= i < |taxes| && taxes[i].0 == item && taxes[i].1 == r.value &&
      forall j :: 0 <= j < i ==> taxes[j].0 != item)
  {
    var k := FirstMatch(taxes, item);
    if k < |taxes| then Some(taxes[k].1) else None
  }

  /** The unit a driver sends: the caller's description for CUSTOM, else the unit's code in the constants table. */
  function UnitText(consts: Constants<Fiscal.UnitType, string>, unit: Fiscal.UnitType, unitDesc: string): Result<string>
  {
    if unit == Fiscal.CustomUnit then Ok(unitDesc) else GetValue(consts, unit, None)
  }
}
