/** Concrete sessions against the built-in menu. */
module Scenarios {
  import opened Dicts
  import opened Text
  import opened Catalog
  import opened Orders
  import opened Console

  /** "DONE" ends the loop: the keyword is matched in any case. */
  lemma ParseDone()
    ensures Parse("DONE") == Done
  {
    StripUnchanged("DONE");
    LowerIs("DONE", "done");
  }

  /** A tab is not a separator: "Soda\t1" holds no space, so it is
      reported as malformed. */
  lemma TabIsNoSeparator()
    ensures Parse("Soda\t1") == NoSpace
  {
    var line := "Soda\t1";
    StripUnchanged(line);
    assert Strip(line) == line;
    assert line[0] == 'S' && line[1] == 'o' && line[2] == 'd' && line[3] == 'a' && line[4] == '\t' && line[5] == '1';
    assert ' ' !in line;
    assert Lower(line) != "done" && Lower(line) != "menu" by {
      assert |Lower(line)| == 6;
    }
    ParseNoSpace(line);
  }

  /** One turn of the loop: a request that does not end it is acted on,
      and the loop goes on with the rest. */
  lemma SessionCons(menu: Menu, order: Dict<MenuItem, int>, request: Request, rest: seq<Request>,
                    outcome: Outcome, next: Dict<MenuItem, int>)
    requires Apply(menu, order, request) == (outcome, next) && !outcome.Finished?
    ensures Session(menu, order, [request] + rest)
         == ([outcome] + Session(menu, next, rest).0, Session(menu, next, rest).1, Session(menu, next, rest).2)
  {
    assert ([request] + rest)[1..] == rest;
  }

  /** Two of one item then one of another: two entries in that order. */
  lemma TwoItemsOrder(x: MenuItem, y: MenuItem)
    requires x != y
    ensures var d := Added(Added(EmptyDict(), x, 2), y, 1);
            d.keys == [x, y] && Total(d) == x.price * 2 + y.price
  {
    var d0: Dict<MenuItem, int> := EmptyDict();
    var d1 := Added(d0, x, 2);
    assert d1.keys == [x] && d1.Get(y) == None;
    TotalAdded(d0, x, 2);
    TotalAdded(d1, y, 1);
    assert Total(d0) == 0;
    assert y.price * 1 == y.price;
  }

  /** One of an item then two more of it: one entry of three. */
  lemma SameItemTwiceOrder(x: MenuItem)
    ensures var d := Added(Added(EmptyDict(), x, 1), x, 2);
            d.keys == [x] && d.Get(x) == Some(3) && Total(d) == x.price * 3
  {
    var d0: Dict<MenuItem, int> := EmptyDict();
    var d1 := Added(d0, x, 1);
    assert d1.keys == [x] && d1.Get(x) == Some(1);
    TotalAdded(d0, x, 1);
    TotalAdded(d1, x, 2);
    assert Total(d0) == 0;
    assert x.price * 1 + x.price * 2 == x.price * 3;
  }

  /** A last accepted request followed by "done". */
  lemma SessionAddThenDone(menu: Menu, order: Dict<MenuItem, int>, b: string, y: MenuItem, q: int)
    requires menu.GetItem(b) == Some(y) && q > 0
    ensures Session(menu, order, [Wants(b, q), Done]) == ([ItemAdded(y, q), Finished], Added(order, y, q), true)
  {
    var next := Added(order, y, q);
    assert Session(menu, next, [Done]) == ([Finished], next, true);
    SessionCons(menu, order, Wants(b, q), [Done], ItemAdded(y, q), next);
    assert [Wants(b, q)] + [Done] == [Wants(b, q), Done];
    assert [ItemAdded(y, q)] + [Finished] == [ItemAdded(y, q), Finished];
  }

  /** A last accepted request, then the input ends. */
  lemma SessionAddThenEnd(menu: Menu, order: Dict<MenuItem, int>, b: string, y: MenuItem, q: int)
    requires menu.GetItem(b) == Some(y) && q > 0
    ensures Session(menu, order, [Wants(b, q)]) == ([ItemAdded(y, q)], Added(order, y, q), false)
  {
    var next := Added(order, y, q);
    assert Session(menu, next, []) == ([], next, false);
    SessionCons(menu, order, Wants(b, q), [], ItemAdded(y, q), next);
    assert [Wants(b, q)] + [] == [Wants(b, q)];
    assert [ItemAdded(y, q)] + [] == [ItemAdded(y, q)];
  }

  /** Two of the first item and one of the second, then "done". */
  lemma SessionTwoItems(menu: Menu, a: string, b: string, x: MenuItem, y: MenuItem)
    requires menu.GetItem(a) == Some(x) && menu.GetItem(b) == Some(y) && x != y
    ensures var r := Session(menu, EmptyDict(), [Wants(a, 2), Wants(b, 1), Done]);
            && r.0 == [ItemAdded(x, 2), ItemAdded(y, 1), Finished]
            && r.2
            && r.1.keys == [x, y]
            && Total(r.1) == x.price * 2 + y.price
  {
    var d0: Dict<MenuItem, int> := EmptyDict();
    var d1 := Added(d0, x, 2);
    SessionAddThenDone(menu, d1, b, y, 1);
    SessionCons(menu, d0, Wants(a, 2), [Wants(b, 1), Done], ItemAdded(x, 2), d1);
    assert [Wants(a, 2)] + [Wants(b, 1), Done] == [Wants(a, 2), Wants(b, 1), Done];
    assert [ItemAdded(x, 2)] + [ItemAdded(y, 1), Finished] == [ItemAdded(x, 2), ItemAdded(y, 1), Finished];
    TwoItemsOrder(x, y);
  }

  /** One of an item, then two more of the same item named differently. */
  lemma SessionSameItemTwice(menu: Menu, a: string, b: string, x: MenuItem)
    requires menu.GetItem(a) == Some(x) && menu.GetItem(b) == Some(x)
    ensures var r := Session(menu, EmptyDict(), [Wants(a, 1), Wants(b, 2)]);
            && !r.2
            && r.1.keys == [x]
            && r.1.Get(x) == Some(3)
            && Total(r.1) == x.price * 3
  {
    var d0: Dict<MenuItem, int> := EmptyDict();
    var d1 := Added(d0, x, 1);
    SessionAddThenEnd(menu, d1, b, x, 2);
    SessionCons(menu, d0, Wants(a, 1), [Wants(b, 2)], ItemAdded(x, 1), d1);
    assert [Wants(a, 1)] + [Wants(b, 2)] == [Wants(a, 1), Wants(b, 2)];
    SameItemTwiceOrder(x);
  }

  /** A trimmed item name, a space and one digit are read as a request
      for that many of that name. */
  lemma ParseDigitLine(name: string, d: nat, line: string)
    requires name != [] && !IsSpace(name[0]) && !IsSpace(name[|name| - 1])
    requires d < 10 && line == name + [' ', DigitChar(d)]
    ensures Parse(line) == Wants(name, d)
  {
    assert Decimal(d) == [DigitChar(d)];
    assert line == name + " " + Decimal(d);
    ParseOrderLine(name, d);
  }

  /** "Burger 2" is a request for two of "Burger". */
  lemma ParseBurgerLine()
    ensures Parse("Burger 2") == Wants("Burger", 2)
  {
    ParseDigitLine("Burger", 2, "Burger 2");
  }

  /** "fries 1" is a request for one of "fries". */
  lemma ParseFriesLine()
    ensures Parse("fries 1") == Wants("fries", 1)
  {
    ParseDigitLine("fries", 1, "fries 1");
  }

  /** The keyword "done" is read as the end of the loop. */
  lemma ParseDoneLine()
    ensures Parse("done") == Done
  {
    StripUnchanged("done");
    LowerIs("done", "done");
  }

  /** "Pizza Slice 1" is a request for one of "Pizza Slice": the space
      inside the name stays part of the name. */
  lemma ParsePizzaSliceLine()
    ensures Parse("Pizza Slice 1") == Wants("Pizza Slice", 1)
  {
    ParseDigitLine("Pizza Slice", 1, "Pizza Slice 1");
  }

  /** "pizza slice 2" is a request for two of "pizza slice". */
  lemma ParseLowerPizzaSliceLine()
    ensures Parse("pizza slice 2") == Wants("pizza slice", 2)
  {
    ParseDigitLine("pizza slice", 2, "pizza slice 2");
  }

  /** The lines "Burger 2", "fries 1" and "done" are read as two requests
      and the keyword. */
  lemma BurgerAndFriesLines()
    ensures [Parse("Burger 2"), Parse("fries 1"), Parse("done")] == [Wants("Burger", 2), Wants("fries", 1), Done]
  {
    ParseBurgerLine();
    ParseFriesLine();
    ParseDoneLine();
  }

  /** The input "Burger 2", "fries 1", "done": two entries in order, and a
      total of 2 × 8.99 + 3.49 = 21.47. */
  lemma BurgerAndFries(menu: Menu)
    requires menu.items == BuiltIn()
    ensures var r := Session(menu, EmptyDict(), [Parse("Burger 2"), Parse("fries 1"), Parse("done")]);
            && r.0 == [ItemAdded(MenuItem("Burger", 899), 2), ItemAdded(MenuItem("Fries", 349), 1), Finished]
            && r.2
            && r.1.keys == [MenuItem("Burger", 899), MenuItem("Fries", 349)]
            && Total(r.1) == 2147
  {
    BurgerAndFriesLines();
    LowerMenuNames();
    LowerIs("fries", "fries");
    GetItemBuiltIn(menu, "Burger");
    GetItemBuiltIn(menu, "fries");
    SessionTwoItems(menu, "Burger", "fries", MenuItem("Burger", 899), MenuItem("Fries", 349));
  }

  /** The input "Pizza Slice 1", "pizza slice 2": one entry of three
      slices, not two entries, worth 3 × 4.00 = 12.00; the input then ends
      without "done". */
  lemma PizzaTwice(menu: Menu)
    requires menu.items == BuiltIn()
    ensures var r := Session(menu, EmptyDict(), [Parse("Pizza Slice 1"), Parse("pizza slice 2")]);
            && !r.2
            && r.1.keys == [MenuItem("Pizza Slice", 400)]
            && r.1.Get(MenuItem("Pizza Slice", 400)) == Some(3)
            && Total(r.1) == 1200
  {
    ParsePizzaSliceLine();
    ParseLowerPizzaSliceLine();
    LowerMenuNames();
    LowerIs("pizza slice", "pizza slice");
    GetItemBuiltIn(menu, "Pizza Slice");
    GetItemBuiltIn(menu, "pizza slice");
    SessionSameItemTwice(menu, "Pizza Slice", "pizza slice", MenuItem("Pizza Slice", 400));
  }
}
