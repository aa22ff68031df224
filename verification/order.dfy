/** The order accumulator: an insertion-ordered dictionary from menu item to
    quantity, grown by `add_item` and summed by `calculate_total`. */
module Orders {
  import opened Dicts
  import opened Catalog

  /** The quantity of `item` in the order, 0 when it has no entry. */
  function QuantityOf(d: Dict<MenuItem, int>, item: MenuItem): int {
    if item in d.values then d.values[item] else 0
  }

  /** The order invariant: each item has at most one entry, and every
      quantity is at least one. */
  ghost predicate WellFormed(d: Dict<MenuItem, int>) {
    d.Valid() && forall k | k in d.values :: d.values[k] >= 1
  }

  /** The order `d` after `add_item(item, quantity)`. A non-positive quantity
      changes nothing. Otherwise the item's quantity rises by `quantity`
      (starting from 0 for a new entry), a new entry goes last, the order of
      the existing entries is kept, and no other entry changes. */
  function Added(d: Dict<MenuItem, int>, item: MenuItem, quantity: int): (r: Dict<MenuItem, int>)
    ensures quantity <= 0 ==> r == d
    ensures quantity > 0 ==> r.Get(item) == Some(QuantityOf(d, item) + quantity)
    ensures quantity > 0 ==> r.keys == if item in d.values then d.keys else d.keys + [item]
    ensures forall k | k != item :: r.Get(k) == d.Get(k)
    ensures WellFormed(d) ==> WellFormed(r)
  {
    if quantity <= 0 then d
    else
      var r := if item in d.values then d.Set(item, d.values[item] + quantity) else d.Set(item, quantity);
      SetValidWhen(d, item, r.values[item]);
      r
  }

  /** Keeps `Added` free of a requires: assignment preserves validity whenever
      the dictionary was valid. */
  lemma SetValidWhen(d: Dict<MenuItem, int>, k: MenuItem, v: int)
    ensures d.Valid() ==> d.Set(k, v).Valid()
  {
    if d.Valid() {
      SetValid(d, k, v);
    }
  }

  /** Sum of price × quantity over `keys`, in cents, reading each quantity
      from `values` (an item without a quantity contributes nothing). */
  function LineTotals(keys: seq<MenuItem>, values: map<MenuItem, int>): int {
    if keys == [] then 0
    else
      var k := keys[|keys| - 1];
      LineTotals(keys[..|keys| - 1], values) + k.price * (if k in values then values[k] else 0)
  }

  /** `calculate_total()`: price × quantity summed over the entries, in cents. */
  function Total(d: Dict<MenuItem, int>): int {
    LineTotals(d.keys, d.values)
  }

  /** No negative quantity, no negative sum. */
  lemma {:induction false} LineTotalsNonNegative(keys: seq<MenuItem>, values: map<MenuItem, int>)
    requires forall k | k in values :: values[k] >= 0
    ensures LineTotals(keys, values) >= 0
  {
    if keys != [] {
      LineTotalsNonNegative(keys[..|keys| - 1], values);
    }
  }

  /** Changing the quantity of an item that is not among `keys` leaves their sum alone. */
  lemma {:induction false} LineTotalsOther(keys: seq<MenuItem>, values: map<MenuItem, int>, k: MenuItem, v: int)
    requires k !in keys
    ensures LineTotals(keys, values[k := v]) == LineTotals(keys, values)
  {
    if keys != [] {
      LineTotalsOther(keys[..|keys| - 1], values, k, v);
    }
  }

  /** Raising the quantity of one listed item by `q` raises the sum by its
      price times `q`. */
  lemma {:induction false} LineTotalsUpdate(keys: seq<MenuItem>, values: map<MenuItem, int>, k: MenuItem, q: int)
    requires forall i, j :: 0 <= i < j < |keys| ==> keys[i] != keys[j]
    requires k in keys && k in values
    ensures LineTotals(keys, values[k := values[k] + q]) == LineTotals(keys, values) + k.price * q
  {
    var init := keys[..|keys| - 1];
    if keys[|keys| - 1] == k {
      assert k !in init;
      LineTotalsOther(init, values, k, values[k] + q);
      assert k.price * (values[k] + q) == k.price * values[k] + k.price * q;
    } else {
      LineTotalsUpdate(init, values, k, q);
    }
  }

  /** Raising the quantity of an item already in the order by `q` raises the
      total by its price times `q`. */
  lemma TotalSetPresent(d: Dict<MenuItem, int>, item: MenuItem, q: int)
    requires d.Valid() && item in d.values
    ensures Total(d.Set(item, d.values[item] + q)) == Total(d) + item.price * q
  {
    LineTotalsUpdate(d.keys, d.values, item, q);
  }

  /** Adding a new entry raises the total by its price times its quantity. */
  lemma TotalSetAbsent(d: Dict<MenuItem, int>, item: MenuItem, v: int)
    requires d.Valid() && item !in d.values
    ensures Total(d.Set(item, v)) == Total(d) + item.price * v
  {
    var keys := d.keys + [item];
    assert keys[..|keys| - 1] == d.keys;
    LineTotalsOther(d.keys, d.values, item, v);
  }

  /** An accepted request is one assignment of the new quantity. */
  lemma AddedIsSet(d: Dict<MenuItem, int>, item: MenuItem, quantity: int)
    requires quantity > 0
    ensures Added(d, item, quantity) == d.Set(item, QuantityOf(d, item) + quantity)
  {
  }

  /** `add_item` raises the total by price × quantity when the quantity is
      positive, and leaves it unchanged otherwise. */
  lemma TotalAdded(d: Dict<MenuItem, int>, item: MenuItem, quantity: int)
    requires d.Valid()
    ensures Total(Added(d, item, quantity)) == Total(d) + (if quantity > 0 then item.price * quantity else 0)
  {
    if quantity > 0 {
      AddedIsSet(d, item, quantity);
      if item in d.values {
        TotalSetPresent(d, item, quantity);
      } else {
        TotalSetAbsent(d, item, quantity);
      }
    }
  }

  /** The order `d` after `add_item` on each (item, quantity) request in turn. */
  function Replay(d: Dict<MenuItem, int>, adds: seq<(MenuItem, int)>): (r: Dict<MenuItem, int>)
    ensures WellFormed(d) ==> WellFormed(r)
    decreases |adds|
  {
    if adds == [] then d else Replay(Added(d, adds[0].0, adds[0].1), adds[1..])
  }

  /** The total quantity of `item` over the requests that `add_item` accepts. */
  function Cumulative(adds: seq<(MenuItem, int)>, item: MenuItem): int {
    if adds == [] then 0
    else (if adds[0].0 == item && adds[0].1 > 0 then adds[0].1 else 0) + Cumulative(adds[1..], item)
  }

  /** Price × quantity summed over the requests that `add_item` accepts. */
  function AcceptedValue(adds: seq<(MenuItem, int)>): int {
    if adds == [] then 0
    else (if adds[0].1 > 0 then adds[0].0.price * adds[0].1 else 0) + AcceptedValue(adds[1..])
  }

  /** Price × cumulative quantity, summed over `items`. */
  function PerItem(items: seq<MenuItem>, adds: seq<(MenuItem, int)>): int {
    if items == [] then 0
    else
      var k := items[|items| - 1];
      PerItem(items[..|items| - 1], adds) + k.price * Cumulative(adds, k)
  }

  /** A sequence of requests raises each item's quantity by the sum of the
      accepted requests for it, and gives it an entry exactly when it had
      one or some positive quantity of it was requested. */
  lemma {:induction false} ReplayQuantity(d: Dict<MenuItem, int>, adds: seq<(MenuItem, int)>, item: MenuItem)
    requires WellFormed(d)
    ensures item in Replay(d, adds).values <==> item in d.values || Cumulative(adds, item) > 0
    ensures QuantityOf(Replay(d, adds), item) == QuantityOf(d, item) + Cumulative(adds, item)
    decreases |adds|
  {
    if adds != [] {
      ReplayQuantity(Added(d, adds[0].0, adds[0].1), adds[1..], item);
    }
  }

  /** A sequence of requests raises the total by the value of the accepted ones. */
  lemma {:induction false} ReplayTotal(d: Dict<MenuItem, int>, adds: seq<(MenuItem, int)>)
    requires WellFormed(d)
    ensures Total(Replay(d, adds)) == Total(d) + AcceptedValue(adds)
    decreases |adds|
  {
    if adds != [] {
      TotalAdded(d, adds[0].0, adds[0].1);
      ReplayTotal(Added(d, adds[0].0, adds[0].1), adds[1..]);
    }
  }

  lemma {:induction false} LineTotalsPerItem(keys: seq<MenuItem>, values: map<MenuItem, int>, adds: seq<(MenuItem, int)>)
    requires forall k | k in keys :: k in values && values[k] == Cumulative(adds, k)
    ensures LineTotals(keys, values) == PerItem(keys, adds)
  {
    if keys != [] {
      LineTotalsPerItem(keys[..|keys| - 1], values, adds);
    }
  }

  /** Starting from an empty order, the total after a sequence of requests is
      the sum, over the distinct items ordered, of price × cumulative quantity;
      and the items ordered are exactly those with a positive cumulative quantity. */
  lemma ReplayTotalPerItem(adds: seq<(MenuItem, int)>)
    ensures var d := Replay(EmptyDict(), adds);
            && (forall k :: k in d.values <==> Cumulative(adds, k) > 0)
            && Total(d) == PerItem(d.keys, adds)
  {
    var d := Replay(EmptyDict(), adds);
    forall k
      ensures (k in d.values <==> Cumulative(adds, k) > 0) && QuantityOf(d, k) == Cumulative(adds, k)
    {
      ReplayQuantity(EmptyDict(), adds, k);
    }
    LineTotalsPerItem(d.keys, d.values, adds);
  }

  class Order {
    var items: Dict<MenuItem, int>

    ghost predicate Valid()
      reads this
    {
      WellFormed(items)
    }

    /** `Order()`: an empty order. */
    constructor ()
      ensures Valid()
      ensures items == EmptyDict()
    {
      items := EmptyDict();
    }

    /** `add_item`: `added` tells whether the request was accepted (the
        source reports a rejection when the quantity is not positive). */
    method AddItem(menuItem: MenuItem, quantity: int) returns (added: bool)
      requires Valid()
      modifies this
      ensures Valid()
      ensures added <==> quantity > 0
      ensures items == Added(old(items), menuItem, quantity)
    {
      if quantity <= 0 {
        return false;
      }
      ghost var before := items;
      if menuItem in items.values {
        items := items.Set(menuItem, items.values[menuItem] + quantity);
      } else {
        items := items.Set(menuItem, quantity);
      }
      AddedIsSet(before, menuItem, quantity);
      added := true;
    }

    /** `calculate_total`: walks the entries in insertion order, adding
        price × quantity. */
    method CalculateTotal() returns (total: int)
      requires Valid()
      ensures total == Total(items)
      ensures total >= 0
    {
      total := 0;
      var i := 0;
      while i < |items.keys|
        invariant 0 <= i <= |items.keys|
        invariant total == LineTotals(items.keys[..i], items.values)
      {
        var item := items.keys[i];
        total := total + item.price * items.values[item];
        assert items.keys[..i + 1][..i] == items.keys[..i];
        i := i + 1;
      }
      assert items.keys[..i] == items.keys;
      LineTotalsNonNegative(items.keys, items.values);
    }
  }
}
