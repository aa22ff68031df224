/** The menu catalog: a fixed table from lower-cased name to menu item,
    built once when the menu is created and only read afterwards. */
module Catalog {
  import opened Dicts
  import opened Text

  /** A menu item: its display name and its price in cents (8.99 is 899). */
  datatype MenuItem = MenuItem(name: string, price: nat)

  /** The built-in list of (name, price) pairs, in loading order. */
  const MenuData: seq<(string, nat)> :=
    [("Burger", 899), ("Fries", 349), ("Soda", 199), ("Salad", 750), ("Pizza Slice", 400)]

  /** Every key of the catalog is the lower-cased name of the item stored under it. */
  ghost predicate KeyedByLowerName(d: Dict<string, MenuItem>) {
    forall k | k in d.values :: Lower(d.values[k].name) == k
  }

  /** The catalog `d` after `items[name.lower()] = MenuItem(name, price)`
      for each pair of `data`, in order. */
  function Loaded(d: Dict<string, MenuItem>, data: seq<(string, nat)>): (r: Dict<string, MenuItem>)
  {
    if data == [] then d
    else
      var (name, price) := data[|data| - 1];
      Loaded(d, data[..|data| - 1]).Set(Lower(name), MenuItem(name, price))
  }

  /** Loading keeps the dictionary well formed. */
  lemma {:induction false} LoadedValid(d: Dict<string, MenuItem>, data: seq<(string, nat)>)
    requires d.Valid()
    ensures Loaded(d, data).Valid()
  {
    if data != [] {
      var (name, price) := data[|data| - 1];
      LoadedValid(d, data[..|data| - 1]);
      SetValid(Loaded(d, data[..|data| - 1]), Lower(name), MenuItem(name, price));
    }
  }

  /** Loading one more pair is one more assignment. */
  lemma LoadedPrefix(d: Dict<string, MenuItem>, data: seq<(string, nat)>, n: nat)
    requires n < |data|
    ensures Loaded(d, data[..n + 1]) == Loaded(d, data[..n]).Set(Lower(data[n].0), MenuItem(data[n].0, data[n].1))
  {
    assert data[..n + 1][..n] == data[..n];
  }

  /** Loading keeps every key equal to the lower-cased name of its item. */
  lemma {:induction false} LoadedKeyedByLowerName(d: Dict<string, MenuItem>, data: seq<(string, nat)>)
    requires d.Valid() && KeyedByLowerName(d)
    ensures KeyedByLowerName(Loaded(d, data))
  {
    if data != [] {
      var (name, price) := data[|data| - 1];
      LoadedKeyedByLowerName(d, data[..|data| - 1]);
      LowerIdempotent(name);
    }
  }

  /** Loading adds exactly the lower-cased names of `data` to the keys of `d`. */
  lemma {:induction false} LoadedKeys(d: Dict<string, MenuItem>, data: seq<(string, nat)>)
    requires d.Valid()
    ensures Loaded(d, data).values.Keys == d.values.Keys + set i | 0 <= i < |data| :: Lower(data[i].0)
  {
    if data != [] {
      var init := data[..|data| - 1];
      LoadedKeys(d, init);
      assert (set i | 0 <= i < |data| :: Lower(data[i].0))
          == (set i | 0 <= i < |init| :: Lower(init[i].0)) + {Lower(data[|data| - 1].0)};
    }
  }

  /** The five built-in entries, keyed by lower-cased name, in loading order. */
  function BuiltIn(): Dict<string, MenuItem>
  {
    Dict(["burger", "fries", "soda", "salad", "pizza slice"],
         map["burger" := MenuItem("Burger", 899), "fries" := MenuItem("Fries", 349),
             "soda" := MenuItem("Soda", 199), "salad" := MenuItem("Salad", 750),
             "pizza slice" := MenuItem("Pizza Slice", 400)])
  }

  /** The lower-cased forms of the five built-in names. */
  lemma LowerMenuNames()
    ensures Lower("Burger") == "burger" && Lower("Fries") == "fries" && Lower("Soda") == "soda"
    ensures Lower("Salad") == "salad" && Lower("Pizza Slice") == "pizza slice"
  {
    LowerIs("Burger", "burger");
    LowerIs("Fries", "fries");
    LowerIs("Soda", "soda");
    LowerIs("Salad", "salad");
    LowerIs("Pizza Slice", "pizza slice");
  }

  lemma LowerIs(s: string, t: string)
    requires |s| == |t| && forall i :: 0 <= i < |s| ==> LowerChar(s[i]) == t[i]
    ensures Lower(s) == t
  {
  }

  /** Loading a pair whose name lowers to a key not yet present appends
      that key with the item built from the pair. */
  lemma LoadedAppend(d: Dict<string, MenuItem>, data: seq<(string, nat)>, p: (string, nat))
    requires Lower(p.0) !in Loaded(d, data).values
    ensures Loaded(d, data + [p]).keys == Loaded(d, data).keys + [Lower(p.0)]
    ensures Loaded(d, data + [p]).values == Loaded(d, data).values[Lower(p.0) := MenuItem(p.0, p.1)]
  {
    assert (data + [p])[..|data|] == data;
  }

  /** The first three built-in pairs load as three entries in order. */
  lemma LoadedFirstThree()
    ensures Loaded(EmptyDict(), MenuData[..3])
         == Dict(["burger", "fries", "soda"],
                 map["burger" := MenuItem("Burger", 899), "fries" := MenuItem("Fries", 349),
                     "soda" := MenuItem("Soda", 199)])
  {
    LowerMenuNames();
    var d0: Dict<string, MenuItem> := EmptyDict();
    var data := MenuData;
    assert data[..0] + [data[0]] == data[..1];
    LoadedAppend(d0, data[..0], data[0]);
    assert data[..1] + [data[1]] == data[..2];
    LoadedAppend(d0, data[..1], data[1]);
    assert data[..2] + [data[2]] == data[..3];
    LoadedAppend(d0, data[..2], data[2]);
  }

  /** Loading the built-in list into an empty catalog gives exactly the five
      built-in entries, each under its lower-cased name, in loading order. */
  lemma LoadedMenuData()
    ensures Loaded(EmptyDict(), MenuData) == BuiltIn()
  {
    LowerMenuNames();
    LoadedFirstThree();
    var d0: Dict<string, MenuItem> := EmptyDict();
    var data := MenuData;
    assert data[..3] + [data[3]] == data[..4];
    LoadedAppend(d0, data[..3], data[3]);
    assert data[..4] + [data[4]] == data;
    LoadedAppend(d0, data[..4], data[4]);
  }

  /** The built-in catalog is well formed: five distinct keys, each the
      lower-cased name of the item stored under it. */
  lemma BuiltInWellFormed()
    ensures BuiltIn().Valid() && KeyedByLowerName(BuiltIn())
  {
    LoadedMenuData();
    LoadedValid(EmptyDict(), MenuData);
    LoadedKeyedByLowerName(EmptyDict(), MenuData);
  }

  class Menu {
    var items: Dict<string, MenuItem>

    ghost predicate Valid()
      reads this
    {
      items.Valid() && KeyedByLowerName(items)
    }

    /** `Menu()`: an empty table filled by `_load_menu`. */
    constructor ()
      ensures Valid()
      ensures items == BuiltIn()
    {
      items := EmptyDict();
      new;
      LoadMenu();
      LoadedMenuData();
      BuiltInWellFormed();
    }

    /** `_load_menu`: insert each built-in pair under its lower-cased name. */
    method LoadMenu()
      modifies this
      ensures items == Loaded(old(items), MenuData)
    {
      var i := 0;
      while i < |MenuData|
        invariant 0 <= i <= |MenuData|
        invariant items == Loaded(old(items), MenuData[..i])
      {
        var (name, price) := MenuData[i];
        items := items.Set(Lower(name), MenuItem(name, price));
        LoadedPrefix(old(items), MenuData, i);
        i := i + 1;
      }
      assert MenuData[..i] == MenuData;
    }

    /** `get_item`: the item stored under the lower-cased name, or None.
        Any item found has the lower-cased name that was asked for. */
    function GetItem(name: string): (r: Option<MenuItem>)
      reads this
      ensures Valid() && r.Some? ==> Lower(r.value.name) == Lower(name)
    {
      items.Get(Lower(name))
    }
  }

  /** Lookup ignores case: a name and its lower-cased form find the same entry. */
  lemma GetItemIgnoresCase(menu: Menu, name: string)
    ensures menu.GetItem(name) == menu.GetItem(Lower(name))
  {
    LowerIdempotent(name);
  }

  /** Lookup finds an item exactly when the catalog stores it and its
      lower-cased name matches the lower-cased query: never a different item. */
  lemma GetItemFinds(menu: Menu, name: string, item: MenuItem)
    requires menu.Valid()
    ensures menu.GetItem(name) == Some(item) <==> item in menu.items.values.Values && Lower(item.name) == Lower(name)
  {
    if item in menu.items.values.Values && Lower(item.name) == Lower(name) {
      var k :| k in menu.items.values && menu.items.values[k] == item;
      assert k == Lower(name);
    }
  }

  /** On the built-in table, lookup succeeds exactly for the five names, in any case. */
  lemma GetItemBuiltIn(menu: Menu, name: string)
    requires menu.items == BuiltIn()
    ensures menu.GetItem(name).Some? <==> Lower(name) in {"burger", "fries", "soda", "salad", "pizza slice"}
    ensures Lower(name) == "burger" ==> menu.GetItem(name) == Some(MenuItem("Burger", 899))
    ensures Lower(name) == "pizza slice" ==> menu.GetItem(name) == Some(MenuItem("Pizza Slice", 400))
  {
  }
}
