# Food order system — a Dafny model

`order_system.py` is a console program for ordering food. A `Menu` holds
five built-in items keyed by their lower-cased names. An `Order` maps each
menu item to a quantity. The `main` loop reads lines such as `Burger 2`,
`menu` or `done`. At `done` the order is summarised and its total printed.

This project models that core in Dafny:

- `dicts.dfy` (module `Dicts`): Python's insertion-ordered `dict`, as the
  program uses it. Lookup is `Get`. Assignment is `Set`, which overwrites a
  present key in place or appends a new key at the end.
- `text.dfy` (module `Text`): the string operations the loop relies on.
  These are `strip()`, `lower()`, `rsplit(' ', 1)` and `int()` on a
  literal.
- `menu.dfy` (module `Catalog`): `MenuItem` and the `Menu` class. Its
  constructor runs the `_load_menu` loop, and `GetItem` models `get_item`.
- `order.dfy` (module `Orders`): the `Order` class. `AddItem` and
  `CalculateTotal` are proved against the specification functions `Added`
  and `Total`. Lemmas cover sequences of requests.
- `console.dfy` (module `Console`): one pass of the `while True` loop, in
  two steps:
  - `Parse` reads a line into a `Request`;
  - `Apply` acts on the request and returns an `Outcome` and the new order.

  `Session` runs the loop over a sequence of requests. The methods
  `Dispatch` and `RunSession` are the imperative loop, proved against
  `Apply` and `Session`.
- `scenarios.dfy` (module `Scenarios`): concrete sessions against the
  built-in menu.

Prices are integer cents, so 8.99 is 899. The input lines are a parameter
of `RunSession`. The result of a session is:

- the outcomes, one per line acted on;
- the final order;
- the total, present only when `done` was read.

## Model

| member | source | states |
|---|---|---|
| Dicts.Dict.Set | order_system.py:51-54 | `d[k] = v`: the new mapping is the old one with `k` bound to `v`; a present key keeps its position, a new key is appended last |
| Dicts.Dict.Get | order_system.py:37 | `d.get(k)`: the value under `k`, or `None`; used by `Menu.GetItem`, whose lemmas state its contract |
| Dicts.EmptyDict | order_system.py:13 | `{}`: a well-formed dictionary with no keys and no values |
| Dicts.SetValid | order_system.py:51-54 | assignment keeps every key listed once, and keeps exactly the mapped keys listed |
| Catalog.Menu.constructor | order_system.py:12-14 | a new menu holds exactly the five built-in entries, in loading order, each under its lower-cased name |
| Catalog.Loaded | order_system.py:25-26 | the catalog after assigning each pair in turn under its lower-cased name; its contract is stated by `LoadedValid`, `LoadedKeyedByLowerName`, `LoadedKeys` and `LoadedMenuData` |
| Catalog.Menu.LoadMenu | order_system.py:16-26 | the loop leaves the catalog equal to the old catalog with each built-in pair assigned in turn under `name.lower()` |
| Catalog.LoadedValid | order_system.py:25-26 | loading keeps the catalog a well-formed dictionary |
| Catalog.LoadedKeyedByLowerName | order_system.py:25-26 | after loading, every key is the lower-cased name of the item stored under it |
| Catalog.LoadedKeys | order_system.py:25-26 | loading adds exactly the lower-cased names of the data to the key set |
| Catalog.LoadedMenuData | order_system.py:18-26 | loading the built-in list into an empty catalog yields the five entries burger, fries, soda, salad, pizza slice with prices 899, 349, 199, 750, 400 |
| Catalog.BuiltInWellFormed | order_system.py:18-26 | the built-in catalog has distinct keys, each the lower-cased name of its item |
| Catalog.Menu.GetItem | order_system.py:35-37 | an item found by lookup has the same lower-cased name as the query |
| Catalog.GetItemIgnoresCase | order_system.py:35-37 | a name and its lower-cased form find the same entry |
| Catalog.GetItemFinds | order_system.py:35-37 | lookup returns `item` exactly when the catalog stores `item` and its lower-cased name equals the lower-cased query |
| Catalog.GetItemBuiltIn | order_system.py:35-37 | on the built-in catalog, lookup succeeds exactly for the five names in any case |
| Orders.Added | order_system.py:45-54 | a quantity ≤ 0 leaves the order unchanged; otherwise the item's quantity rises by the amount, from 0 if it was absent; a new entry goes last; other entries are unchanged; the order invariant is kept |
| Orders.Order.AddItem | order_system.py:45-55 | reports acceptance exactly when the quantity is positive, leaves the order equal to `Added` of the old order, and keeps quantities ≥ 1 with no duplicate entries |
| Orders.AddedIsSet | order_system.py:51-54 | an accepted request is one assignment of old quantity + amount |
| Orders.TotalAdded | order_system.py:45-62 | `add_item` raises `calculate_total()` by price × quantity when the quantity is positive, and by nothing otherwise |
| Orders.TotalSetPresent | order_system.py:51-52 | raising an existing entry by `q` raises the total by price × `q` |
| Orders.TotalSetAbsent | order_system.py:53-54 | a new entry raises the total by its price × quantity |
| Orders.LineTotalsNonNegative | order_system.py:57-62 | with no negative quantity the total is not negative |
| Orders.Order.constructor | order_system.py:41-43 | `Order()`: an empty, well-formed order |
| Orders.Total | order_system.py:57-62 | Σ price × quantity over the entries in insertion order; its contract is stated by `TotalAdded`, `ReplayTotal`, `ReplayTotalPerItem` and `LineTotalsNonNegative` |
| Orders.Order.CalculateTotal | order_system.py:57-62 | the loop over the entries returns Σ price × quantity (`Total`), which is non-negative |
| Orders.Replay | order_system.py:45-55 | a sequence of `add_item` calls keeps the order invariant |
| Orders.ReplayQuantity | order_system.py:45-55 | after a sequence of requests, each item's quantity is its old quantity plus the sum of its accepted amounts, and it has an entry exactly when it had one or some positive amount was requested |
| Orders.ReplayTotal | order_system.py:45-62 | a sequence of requests raises the total by Σ price × amount over the accepted ones |
| Orders.ReplayTotalPerItem | order_system.py:45-62 | from an empty order, the ordered items are exactly those with positive cumulative amount, and the total is Σ price × cumulative amount over them |
| Text.IsSpace | order_system.py:92 | the characters `str.strip()` removes, as `str.isspace()` defines them: ASCII whitespace, U+001C-U+001F and the Unicode spaces; used by `strip()` at lines 92 and 106-107 |
| Text.SkipSpaces | order_system.py:92 | where `lstrip` cuts: everything skipped is whitespace and the next character is not |
| Text.SkipSpacesBack | order_system.py:92 | where `rstrip` cuts: everything cut is whitespace and the last kept character is not |
| Text.Strip | order_system.py:92 | `strip()` neither starts nor ends with whitespace |
| Text.StripCutsWhitespace | order_system.py:92 | `strip()` is a slice of its input, and everything removed on either side is whitespace |
| Text.StripUnchanged | order_system.py:106-107 | a string without whitespace at either end is its own `strip()` |
| Text.StripIdempotent | order_system.py:106 | stripping twice equals stripping once |
| Text.Lower | order_system.py:26 | `lower()` keeps the length, maps each character through ASCII lower-casing, and leaves no upper-case ASCII letter |
| Text.LowerIdempotent | order_system.py:37 | lower-casing twice equals lower-casing once |
| Text.LastIndexOf | order_system.py:101 | the found index holds the character, and nothing after it (before the bound) does |
| Text.RSplitSpace | order_system.py:101 | `rsplit(' ', 1)` yields one or two parts |
| Text.RSplitSpaceJoins | order_system.py:101-102 | the split yields two parts exactly when the string has a space; the parts joined by a space give back the string, and the second part has no space |
| Text.RSplitAtLastSpace | order_system.py:101 | splitting `a + " " + b`, where `b` has no space, yields `[a, b]` |
| Text.ParseInt | order_system.py:107 | `int()` on the stripped text after the last space: `None` stands for the `ValueError` caught at lines 116-117; its contract is stated by `ParseIntAccepts` and `ParseIntDecimal` |
| Text.ParseIntAccepts | order_system.py:107 | `int()` succeeds exactly on an optional sign followed by one to 4300 ASCII digits (CPython's default digit limit); a minus sign gives a value ≤ 0, otherwise ≥ 0 |
| Text.NatDecimal | order_system.py:107 | `str(n)` of a natural number is non-empty and all digits |
| Text.DecimalHasNoSpace | order_system.py:101-107 | `str(n)` has no space and no whitespace at its ends |
| Text.DigitsValueNatDecimal | order_system.py:107 | the digits of `str(n)` denote `n` |
| Text.ParseIntDecimal | order_system.py:107 | `int(str(n)) == n` for every integer of at most 4300 digits; a longer decimal form is refused |
| Console.ParseKeywords | order_system.py:92-98 | a line is read as `done` or as `menu` exactly when, stripped and lower-cased, it equals that keyword |
| Console.ParseNoSpace | order_system.py:101-104 | a non-keyword line is malformed exactly when its stripped form has no space |
| Console.ParseNameTrimmed | order_system.py:106 | a requested name is already stripped |
| Console.ParseNameAndWord | order_system.py:92-107 | a stripped name, a space and a word without spaces parse as that name plus the result of `int()` on the word |
| Console.Parse | order_system.py:92-107 | the reading of one line: keywords, then the split at the last space, then `int()`; its contract is stated by `ParseKeywords`, `ParseNoSpace`, `ParseNameTrimmed`, `ParseNameAndWord` and `ParseOrderLine` |
| Console.ParseOrderLine | order_system.py:92-107 | `name + " " + str(q)` parses back to a request for `q` of `name` when `str(q)` has at most 4300 digits, and is an invalid quantity otherwise |
| Console.Apply | order_system.py:94-117 | each request leads to its own outcome (done, menu, bad format, bad quantity, not found, rejected, added); only a positive quantity for a catalog item changes the order, by `Added` with the catalog's item |
| Console.ApplyKeepsWellFormed | order_system.py:109-117 | no line breaks the order invariant |
| Console.ApplyAddsCatalogItem | order_system.py:109-112 | anything added is a catalog item whose lower-cased name is the lower-cased typed name |
| Console.ApplyTotal | order_system.py:109-117 | a line raises the total by price × quantity when it adds an item, and leaves it unchanged otherwise |
| Console.OrderLineAdds | order_system.py:92-117 | typing a menu name, a space and a positive count adds that many of the catalog item; a count of more than 4300 digits is reported as an invalid quantity and leaves the order unchanged |
| Console.Session | order_system.py:90-119 | the loop reports at most one outcome per request, and one for each when `done` is never read |
| Console.SessionStopsAtDone | order_system.py:94-95 | the loop ends at the first `done` and nowhere else; its last outcome is `Finished`, and later requests are never read |
| Console.SessionReplays | order_system.py:90-119 | a session's final order is the starting order with the accepted requests applied in turn |
| Console.SessionTotal | order_system.py:90-124 | from an empty order, the final order is well formed and its total is Σ price × cumulative quantity over the distinct items, which is also the value of the accepted requests |
| Console.ResumeStep | order_system.py:90-119 | one turn of the loop acts on the next request and, unless that ends the loop, continues with the rest |
| Console.Dispatch | order_system.py:92-117 | one pass of the loop body leaves the outcome and order that `Apply` gives for the parsed line, keeping the order invariant |
| Console.RunSession | order_system.py:84-124 | the loop over the input gives `Session`'s outcomes and final order; a total exists exactly when `done` was read, and it is `calculate_total()` of the final order |
| Scenarios.ParseDone | order_system.py:94 | `DONE` ends the loop |
| Scenarios.SessionCons | order_system.py:90-119 | a request that does not end the loop is acted on, and the loop continues with the rest |
| Scenarios.TwoItemsOrder | order_system.py:45-62 | two of one item then one of another give two entries in that order |
| Scenarios.SameItemTwiceOrder | order_system.py:51-52 | ordering the same item twice gives one entry with the summed quantity |
| Scenarios.SessionAddThenDone | order_system.py:90-112 | an accepted request followed by `done` |
| Scenarios.SessionAddThenEnd | order_system.py:90-112 | an accepted request, then the input ends |
| Scenarios.SessionTwoItems | order_system.py:90-124 | two requests for different items, then `done`: two entries in request order |
| Scenarios.SessionSameItemTwice | order_system.py:90-124 | two requests for the same item under different spellings: one entry |
| Scenarios.TabIsNoSeparator | order_system.py:101-104 | the line `Soda\t1` holds no space, so it is reported as malformed |
| Scenarios.ParseDigitLine | order_system.py:92-107 | a trimmed name, a space and one digit are read as a request for that many of that name |
| Scenarios.BurgerAndFriesLines | order_system.py:92-107 | the lines `Burger 2`, `fries 1` and `done` are read as two requests and the keyword |
| Scenarios.BurgerAndFries | order_system.py:84-124 | the input lines `Burger 2`, `fries 1`, `done`: outcomes added, added, finished; two entries [Burger, Fries], total 2147 cents |
| Scenarios.PizzaTwice | order_system.py:84-124 | the input lines `Pizza Slice 1` then `pizza slice 2`: one entry of 3, total 1200 cents, no `done` |

## Left out

- Printing is not modelled: `MenuItem.__str__`, `display_menu`, `display_order`, the prompts and every message. The outcome of each line stands for its message.
- Prices are exact integer cents, not floats. The float rounding of `total += item.price * quantity` and the `.2f` formatting are not modelled.
- `input()` is not modelled. The lines are a parameter of `RunSession`.
- End of input is not an implicit `done`: `input()` (line 92) is outside the `try`, so `EOFError` ends the program with no summary; the model ends the session with no total (`None`).
- The catch-all `except Exception` (lines 118-119) is not modelled. Once the line has been parsed, nothing in the loop body can raise any other exception.
- Text.Lower: ASCII letters only. Python's `str.lower()` also lower-cases non-ASCII letters.
- Text.ParseIntAccepts: accepts only an optional sign followed by ASCII digits. Python's `int()` also accepts underscores between digits and non-ASCII decimal digits. Surrounding whitespace never reaches `int()`, because line 107 strips the text first, as the model does.
- Text.ParseIntAccepts: the digit limit is fixed at CPython's default of 4300, which applies from CPython 3.10.7 and 3.11. A program started with a different `sys.set_int_max_str_digits` setting, or an earlier 3.10 release, accepts other lengths.
- Console.RunSession: the total is exact. In the source, a quantity beyond the float range (about 1.8e308) makes `item.price * quantity` raise `OverflowError` in `display_order` (line 123), which is outside the `try`, so the program ends with no total. The model still returns the exact total.
- `MenuItem` is modelled as a value, not by object identity. Python's `MenuItem` hashes by identity, but an order only ever holds the catalog's own objects, so identity and value equality agree.
- The quantity follows the last space character (`rsplit(' ', 1)`, line 101), not the last run of whitespace, so `Soda\t1` is reported as malformed.
