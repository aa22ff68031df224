/** The command loop of `main`: each input line is trimmed, matched against
    the keywords "done" and "menu", and otherwise read as an item name and a
    quantity separated by the last space. Only a request that names a menu
    item and carries an integer reaches `add_item`. */
module Console {
  import opened Dicts
  import opened Text
  import opened Catalog
  import opened Orders

  /** How the loop reads one input line, before the menu is consulted. */
  datatype Request =
    | Done                                // "done" in any case: leave the loop
    | ShowMenu                            // "menu" in any case: show the menu again
    | NoSpace                             // nothing to split into name and quantity
    | NotAnInteger                        // the text after the last space is not an integer
    | Wants(name: string, quantity: int)  // an item name and an integer quantity

  /** What one input line leads to: the message the loop reports, or the end of the loop. */
  datatype Outcome =
    | Finished                                  // "done": the loop ends
    | MenuShown                                 // "menu": the menu is shown again
    | InvalidFormat                             // no space to split the line at
    | InvalidQuantity                           // the text after the last space is not an integer
    | ItemNotFound(name: string)                // the name is not on the menu
    | NonPositiveQuantity                       // add_item refused a quantity below one
    | ItemAdded(item: MenuItem, quantity: int)  // add_item accepted the request

  /** The trimmed line is "done" in some mix of cases. */
  predicate IsDone(line: string) {
    Lower(Strip(line)) == "done"
  }

  /** The trimmed line is "menu" in some mix of cases. */
  predicate IsMenu(line: string) {
    Lower(Strip(line)) == "menu"
  }

  /** The reading of one input line: keywords first, then the split at the
      last space, then `int()` on the trimmed text after it. The name is the
      trimmed text before the last space; it may itself hold spaces. */
  function Parse(line: string): Request
  {
    var command := Strip(line);
    if Lower(command) == "done" then Done
    else if Lower(command) == "menu" then ShowMenu
    else
      var parts := RSplitSpace(command);
      if |parts| < 2 then NoSpace
      else
        match ParseInt(Strip(parts[1]))
        case None => NotAnInteger
        case Some(quantity) => Wants(Strip(parts[0]), quantity)
  }

  /** A trimmed name, a space and a word without whitespace are read as
      that name and whatever `int()` makes of the word. */
  lemma ParseNameAndWord(name: string, word: string)
    requires name != [] && !IsSpace(name[0]) && !IsSpace(name[|name| - 1])
    requires word != [] && !IsSpace(word[0]) && !IsSpace(word[|word| - 1]) && ' ' !in word
    ensures Parse(name + " " + word)
         == match ParseInt(word) case None => NotAnInteger case Some(q) => Wants(name, q)
  {
    var line := name + " " + word;
    StripUnchanged(line);
    StripUnchanged(name);
    StripUnchanged(word);
    assert Lower(line) != "done" && Lower(line) != "menu" by {
      assert Lower(line)[|name|] == ' ';
    }
    RSplitAtLastSpace(name, word);
  }

  /** A name with no whitespace at either end, a space and the decimal form
      of an integer is read back as that name and that integer, unless the
      integer has too many digits for `int()`. */
  lemma ParseOrderLine(name: string, quantity: int)
    requires name != [] && !IsSpace(name[0]) && !IsSpace(name[|name| - 1])
    ensures Parse(name + " " + Decimal(quantity))
         == if WithinDigitLimit(quantity) then Wants(name, quantity) else NotAnInteger
  {
    DecimalHasNoSpace(quantity);
    ParseNameAndWord(name, Decimal(quantity));
    ParseIntDecimal(quantity);
  }

  /** The keywords are recognised in any case and with any surrounding
      whitespace, and before anything else. */
  lemma ParseKeywords(line: string)
    ensures Parse(line).Done? <==> IsDone(line)
    ensures Parse(line).ShowMenu? <==> IsMenu(line)
  {
  }

  /** A line that is no keyword is reported as malformed exactly when it
      holds no space once trimmed. */
  lemma ParseNoSpace(line: string)
    ensures Parse(line).NoSpace? <==> !IsDone(line) && !IsMenu(line) && ' ' !in Strip(line)
  {
    RSplitSpaceJoins(Strip(line));
  }

  /** The name of a request is already trimmed. */
  lemma ParseNameTrimmed(line: string)
    ensures Parse(line).Wants? ==> Strip(Parse(line).name) == Parse(line).name
  {
    if Parse(line).Wants? {
      StripIdempotent(RSplitSpace(Strip(line))[0]);
    }
  }

  /** One pass of the loop on a line read as `request`, with the catalog of
      `menu` and the order `order`: the outcome and the order afterwards.
      Only a request for a catalog item reaches `add_item`, with the
      catalog's own item; every other line leaves the order as it was. */
  function Apply(menu: Menu, order: Dict<MenuItem, int>, request: Request): (r: (Outcome, Dict<MenuItem, int>))
    reads menu
    ensures r.0.Finished? <==> request.Done?
    ensures r.0.MenuShown? <==> request.ShowMenu?
    ensures r.0.InvalidFormat? <==> request.NoSpace?
    ensures r.0.InvalidQuantity? <==> request.NotAnInteger?
    ensures r.0.ItemNotFound? <==> request.Wants? && menu.GetItem(request.name).None?
    ensures r.0.ItemNotFound? ==> r.0.name == request.name
    ensures r.0.NonPositiveQuantity? <==>
      request.Wants? && menu.GetItem(request.name).Some? && request.quantity <= 0
    ensures r.0.ItemAdded? <==>
      request.Wants? && menu.GetItem(request.name).Some? && request.quantity > 0
    ensures r.0.ItemAdded? ==>
      && menu.GetItem(request.name) == Some(r.0.item)
      && r.0.quantity == request.quantity
      && r.1 == Added(order, r.0.item, r.0.quantity)
    ensures !r.0.ItemAdded? ==> r.1 == order
  {
    match request
    case Done => (Finished, order)
    case ShowMenu => (MenuShown, order)
    case NoSpace => (InvalidFormat, order)
    case NotAnInteger => (InvalidQuantity, order)
    case Wants(name, quantity) =>
      match menu.GetItem(name)
      case None => (ItemNotFound(name), order)
      case Some(item) =>
        (if quantity > 0 then ItemAdded(item, quantity) else NonPositiveQuantity,
         Added(order, item, quantity))
  }

  /** No line breaks the order invariant: quantities stay at least one and
      entries stay distinct. */
  lemma ApplyKeepsWellFormed(menu: Menu, order: Dict<MenuItem, int>, request: Request)
    requires WellFormed(order)
    ensures WellFormed(Apply(menu, order, request).1)
  {
  }

  /** Whatever a line adds is an item of the catalog whose lower-cased name
      is the lower-cased name that was typed. */
  lemma ApplyAddsCatalogItem(menu: Menu, order: Dict<MenuItem, int>, request: Request)
    requires menu.Valid()
    ensures var r := Apply(menu, order, request);
            r.0.ItemAdded? ==> r.0.item in menu.items.values.Values && Lower(r.0.item.name) == Lower(request.name)
  {
    var r := Apply(menu, order, request);
    if r.0.ItemAdded? {
      GetItemFinds(menu, request.name, r.0.item);
    }
  }

  /** A line raises the running total by price × quantity when it adds an
      item, and leaves it alone otherwise. */
  lemma ApplyTotal(menu: Menu, order: Dict<MenuItem, int>, request: Request)
    requires WellFormed(order)
    ensures var r := Apply(menu, order, request);
            Total(r.1) == Total(order) + if r.0.ItemAdded? then r.0.item.price * r.0.quantity else 0
  {
    var r := Apply(menu, order, request);
    if r.0.ItemAdded? {
      TotalAdded(order, r.0.item, r.0.quantity);
    }
  }

  /** Typing a menu name in any case, a space and a positive count adds
      that many of the catalog's item to the order; a count too long for
      `int()` is reported as an invalid quantity instead. */
  lemma OrderLineAdds(menu: Menu, order: Dict<MenuItem, int>, name: string, quantity: int, item: MenuItem)
    requires name != [] && !IsSpace(name[0]) && !IsSpace(name[|name| - 1])
    requires menu.GetItem(name) == Some(item) && quantity > 0
    ensures Apply(menu, order, Parse(name + " " + Decimal(quantity)))
         == if WithinDigitLimit(quantity) then (ItemAdded(item, quantity), Added(order, item, quantity))
            else (InvalidQuantity, order)
  {
    ParseOrderLine(name, quantity);
  }

  /** Every input line read as a request, in order. */
  function Parsed(lines: seq<string>): (requests: seq<Request>)
    ensures |requests| == |lines|
    ensures forall i :: 0 <= i < |lines| ==> requests[i] == Parse(lines[i])
  {
    seq(|lines|, i requires 0 <= i < |lines| => Parse(lines[i]))
  }

  /** The loop fed the requests `requests` from the order `order`, until
      "done" or the end of the input: the outcomes in order, the final
      order, and whether "done" was read. */
  function Session(menu: Menu, order: Dict<MenuItem, int>, requests: seq<Request>): (r: (seq<Outcome>, Dict<MenuItem, int>, bool))
    reads menu
    ensures |r.0| <= |requests|
    ensures !r.2 ==> |r.0| == |requests|
    decreases |requests|
  {
    if requests == [] then ([], order, false)
    else
      var (outcome, next) := Apply(menu, order, requests[0]);
      if outcome.Finished? then ([outcome], next, true)
      else
        var rest := Session(menu, next, requests[1..]);
        ([outcome] + rest.0, rest.1, rest.2)
  }

  /** The loop ends at the first "done" and nowhere else: every request
      before it is acted on, the last outcome is `Finished`, and the
      requests after it are never read. Without "done" every request is
      acted on. */
  lemma {:induction false} SessionStopsAtDone(menu: Menu, order: Dict<MenuItem, int>, requests: seq<Request>)
    ensures var r := Session(menu, order, requests);
            && (r.2 <==> exists i :: 0 <= i < |requests| && requests[i].Done?)
            && (r.2 ==> |r.0| > 0 && requests[|r.0| - 1].Done? && r.0[|r.0| - 1] == Finished)
            && (forall i :: 0 <= i < |r.0| ==> (r.0[i] == Finished <==> requests[i].Done?))
    decreases |requests|
  {
    if requests != [] {
      var (outcome, next) := Apply(menu, order, requests[0]);
      if !outcome.Finished? {
        var rest := Session(menu, next, requests[1..]);
        SessionStopsAtDone(menu, next, requests[1..]);
        assert Session(menu, order, requests) == ([outcome] + rest.0, rest.1, rest.2);
        assert forall i :: 1 <= i < |requests| ==> requests[1..][i - 1] == requests[i];
        assert !requests[0].Done?;
      }
    }
  }

  /** The (item, quantity) requests that `add_item` accepted, in order. */
  function Accepted(outcomes: seq<Outcome>): seq<(MenuItem, int)> {
    if outcomes == [] then []
    else
      (if outcomes[0].ItemAdded? then [(outcomes[0].item, outcomes[0].quantity)] else [])
      + Accepted(outcomes[1..])
  }

  /** The order a session leaves is the starting order with the accepted
      requests applied in turn: no other line changes it. */
  lemma {:induction false} SessionReplays(menu: Menu, order: Dict<MenuItem, int>, requests: seq<Request>)
    ensures var r := Session(menu, order, requests); r.1 == Replay(order, Accepted(r.0))
    decreases |requests|
  {
    if requests != [] {
      var (outcome, next) := Apply(menu, order, requests[0]);
      if outcome.Finished? {
        assert Accepted([outcome]) == [] + Accepted([]);
      } else {
        SessionReplays(menu, next, requests[1..]);
        var rest := Session(menu, next, requests[1..]);
        assert ([outcome] + rest.0)[1..] == rest.0;
        if outcome.ItemAdded? {
          var adds := [(outcome.item, outcome.quantity)] + Accepted(rest.0);
          assert Accepted([outcome] + rest.0) == adds;
          assert adds[1..] == Accepted(rest.0);
        } else {
          assert Accepted([outcome] + rest.0) == Accepted(rest.0);
        }
      }
    }
  }

  /** The total printed after a session that starts from an empty order is
      the sum, over the distinct items ordered, of price × the cumulative
      quantity accepted for it, which is also the value of the accepted
      requests. */
  lemma SessionTotal(menu: Menu, requests: seq<Request>)
    ensures var r := Session(menu, EmptyDict(), requests);
            && WellFormed(r.1)
            && Total(r.1) == PerItem(r.1.keys, Accepted(r.0))
            && Total(r.1) == AcceptedValue(Accepted(r.0))
  {
    var r := Session(menu, EmptyDict(), requests);
    SessionReplays(menu, EmptyDict(), requests);
    ReplayTotalPerItem(Accepted(r.0));
    ReplayTotal(EmptyDict(), Accepted(r.0));
  }

  /** The loop's result once `outcomes` have been reported and `order`
      reached, with the requests `rest` still to come. */
  function Resume(menu: Menu, outcomes: seq<Outcome>, order: Dict<MenuItem, int>, rest: seq<Request>): (seq<Outcome>, Dict<MenuItem, int>, bool)
    reads menu
  {
    var r := Session(menu, order, rest);
    (outcomes + r.0, r.1, r.2)
  }

  /** One turn of the loop: the next request is acted on; unless it ends
      the loop, the loop goes on with the rest from the new order. */
  lemma ResumeStep(menu: Menu, outcomes: seq<Outcome>, order: Dict<MenuItem, int>, rest: seq<Request>,
                   outcome: Outcome, next: Dict<MenuItem, int>)
    requires rest != [] && Apply(menu, order, rest[0]) == (outcome, next)
    ensures Resume(menu, outcomes, order, rest)
         == if outcome.Finished? then (outcomes + [outcome], next, true)
            else Resume(menu, outcomes + [outcome], next, rest[1..])
  {
    if !outcome.Finished? {
      var r := Session(menu, next, rest[1..]);
      assert outcomes + ([outcome] + r.0) == (outcomes + [outcome]) + r.0;
    }
  }

  /** One pass of the body of the `while True` loop: read `line` and act on it. */
  method Dispatch(menu: Menu, order: Order, line: string) returns (outcome: Outcome)
    requires order.Valid()
    modifies order
    ensures order.Valid()
    ensures (outcome, order.items) == Apply(menu, old(order.items), Parse(line))
  {
    var request := Parse(line);
    match request
    case Done => outcome := Finished;
    case ShowMenu => outcome := MenuShown;
    case NoSpace => outcome := InvalidFormat;
    case NotAnInteger => outcome := InvalidQuantity;
    case Wants(name, quantity) =>
      var menuItem := menu.GetItem(name);
      if menuItem.None? {
        outcome := ItemNotFound(name);
      } else {
        var added := order.AddItem(menuItem.value, quantity);
        outcome := if added then ItemAdded(menuItem.value, quantity) else NonPositiveQuantity;
      }
  }

  /** The `while True` loop of `main` over the input `lines`. At "done" the
      loop ends and the total is computed; input that ends before "done"
      ends the program with no total. */
  method RunSession(menu: Menu, order: Order, lines: seq<string>) returns (outcomes: seq<Outcome>, total: Option<int>)
    requires order.Valid()
    modifies order
    ensures order.Valid()
    ensures var r := Session(menu, old(order.items), Parsed(lines));
            outcomes == r.0 && order.items == r.1 && (total.Some? <==> r.2)
    ensures total.Some? ==> total.value == Total(order.items)
  {
    ghost var requests := Parsed(lines);
    outcomes := [];
    var done := false;
    var i := 0;
    assert requests[i..] == requests && outcomes + Session(menu, order.items, requests).0 == Session(menu, order.items, requests).0;
    while i < |lines| && !done
      invariant 0 <= i <= |lines|
      invariant order.Valid()
      invariant Session(menu, old(order.items), requests)
             == if done then (outcomes, order.items, true) else Resume(menu, outcomes, order.items, requests[i..])
      decreases |lines| - i
    {
      ghost var before := order.items;
      var outcome := Dispatch(menu, order, lines[i]);
      assert requests[i..][0] == requests[i];
      ResumeStep(menu, outcomes, before, requests[i..], outcome, order.items);
      assert requests[i..][1..] == requests[i + 1..];
      outcomes := outcomes + [outcome];
      done := outcome.Finished?;
      i := i + 1;
    }
    if done {
      var t := order.CalculateTotal();
      total := Some(t);
    } else {
      assert requests[i..] == [];
      total := None;
    }
  }
}
