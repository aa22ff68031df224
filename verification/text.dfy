/** The string operations the command loop relies on: str.strip, str.lower,
    str.rsplit(' ', 1) and int() on a decimal literal. */
module Text {
  import opened Dicts

  /** Python's str.isspace for one character: ASCII whitespace, the
      separators U+001C..U+001F, and the Unicode spaces Python counts. */
  predicate IsSpace(c: char) {
    var n := c as int;
    || n == 0x20 || 0x09 <= n <= 0x0D || 0x1C <= n <= 0x1F
    || n == 0x85 || n == 0xA0 || n == 0x1680 || 0x2000 <= n <= 0x200A
    || n == 0x2028 || n == 0x2029 || n == 0x202F || n == 0x205F || n == 0x3000
  }

  /** Index of the first non-whitespace character of `s` at or after `i`,
      or `|s|` when there is none: where `lstrip()` cuts. */
  function SkipSpaces(s: string, i: nat): (j: nat)
    requires i <= |s|
    ensures i <= j <= |s|
    ensures forall k :: i <= k < j ==> IsSpace(s[k])
    ensures j < |s| ==> !IsSpace(s[j])
    decreases |s| - i
  {
    if i < |s| && IsSpace(s[i]) then SkipSpaces(s, i + 1) else i
  }

  /** One past the last non-whitespace character of `s[i..j]`, or `i` when
      there is none: where `rstrip()` cuts. */
  function SkipSpacesBack(s: string, i: nat, j: nat): (k: nat)
    requires i <= j <= |s|
    ensures i <= k <= j
    ensures forall m :: k <= m < j ==> IsSpace(s[m])
    ensures k > i ==> !IsSpace(s[k - 1])
    decreases j
  {
    if j > i && IsSpace(s[j - 1]) then SkipSpacesBack(s, i, j - 1) else j
  }

  /** `s.strip()`: the result neither starts nor ends with whitespace. */
  function Strip(s: string): (r: string)
    ensures r == [] || (!IsSpace(r[0]) && !IsSpace(r[|r| - 1]))
  {
    var i := SkipSpaces(s, 0);
    s[i..SkipSpacesBack(s, i, |s|)]
  }

  /** `strip()` removes whitespace only: the result is a slice of `s`, and
      everything cut off on either side of it is whitespace. */
  lemma StripCutsWhitespace(s: string)
    ensures exists i :: 0 <= i <= |s| - |Strip(s)| && Strip(s) <= s[i..]
                        && (forall k :: 0 <= k < i ==> IsSpace(s[k]))
                        && (forall k :: i + |Strip(s)| <= k < |s| ==> IsSpace(s[k]))
  {
    var i := SkipSpaces(s, 0);
    var j := SkipSpacesBack(s, i, |s|);
    assert Strip(s) == s[i..j];
    assert Strip(s) <= s[i..];
  }

  /** A string with no whitespace at either end is its own `strip()`. */
  lemma StripUnchanged(s: string)
    requires s == [] || (!IsSpace(s[0]) && !IsSpace(s[|s| - 1]))
    ensures Strip(s) == s
  {
    if s != [] {
      assert SkipSpaces(s, 0) == 0;
      assert SkipSpacesBack(s, 0, |s|) == |s|;
    }
  }

  /** Stripping twice is stripping once. */
  lemma StripIdempotent(s: string)
    ensures Strip(Strip(s)) == Strip(s)
  {
    StripUnchanged(Strip(s));
  }

  /** ASCII upper-case letters map to lower case; every other character is kept. */
  function LowerChar(c: char): char {
    if 'A' <= c <= 'Z' then (c as int - 'A' as int + 'a' as int) as char else c
  }

  /** `s.lower()`, restricted to ASCII letters. */
  function Lower(s: string): (r: string)
    ensures |r| == |s|
    ensures forall i :: 0 <= i < |s| ==> r[i] == LowerChar(s[i])
    ensures forall i :: 0 <= i < |r| ==> !('A' <= r[i] <= 'Z')
  {
    seq(|s|, i requires 0 <= i < |s| => LowerChar(s[i]))
  }

  /** Lower-casing twice is lower-casing once. */
  lemma {:induction false} LowerIdempotent(s: string)
    ensures Lower(Lower(s)) == Lower(s)
  {
    var l := Lower(s);
    assert forall i :: 0 <= i < |l| ==> LowerChar(l[i]) == l[i];
  }

  /** Index of the last occurrence of `c` in `s[..j]`, if any. */
  function LastIndexOf(s: string, c: char, j: nat): (r: Option<nat>)
    requires j <= |s|
    ensures r.Some? ==> r.value < j && s[r.value] == c
    ensures forall k :: (if r.Some? then r.value + 1 else 0) <= k < j ==> s[k] != c
    decreases j
  {
    if j == 0 then None
    else if s[j - 1] == c then Some(j - 1)
    else LastIndexOf(s, c, j - 1)
  }

  /** `s.rsplit(' ', 1)`: `[s]` when `s` holds no space, otherwise the text
      before and the text after its last space. */
  function RSplitSpace(s: string): (parts: seq<string>)
    ensures |parts| == 1 || |parts| == 2
  {
    match LastIndexOf(s, ' ', |s|)
    case None => [s]
    case Some(i) => [s[..i], s[i + 1..]]
  }

  /** `rsplit(' ', 1)` splits exactly when there is a space; the two parts
      joined by a space give back `s`, and the second part holds no space. */
  lemma RSplitSpaceJoins(s: string)
    ensures var parts := RSplitSpace(s);
            && (|parts| == 1 <==> ' ' !in s)
            && (|parts| == 1 ==> parts[0] == s)
            && (|parts| == 2 ==> parts[0] + " " + parts[1] == s && ' ' !in parts[1])
  {
    match LastIndexOf(s, ' ', |s|)
    case None =>
    case Some(i) =>
      var tail := s[i + 1..];
      assert s[..i] + " " + tail == s;
      assert forall k :: 0 <= k < |tail| ==> tail[k] == s[i + 1 + k];
  }

  /** Splitting `a + " " + b` at its last space, when `b` holds no space,
      gives back `a` and `b`. */
  lemma RSplitAtLastSpace(a: string, b: string)
    requires ' ' !in b
    ensures RSplitSpace(a + " " + b) == [a, b]
  {
    var s := a + " " + b;
    assert s[|a|] == ' ';
    assert forall k :: 0 <= k < |b| ==> s[|a| + 1 + k] == b[k];
    var r := LastIndexOf(s, ' ', |s|);
    assert r == Some(|a|);
    assert s[..|a|] == a && s[|a| + 1..] == b;
  }

  predicate IsDigit(c: char) {
    '0' <= c <= '9'
  }

  predicate AllDigits(s: string) {
    forall i :: 0 <= i < |s| ==> IsDigit(s[i])
  }

  /** The number a string of decimal digits denotes. */
  function DigitsValue(s: string): nat
    requires AllDigits(s)
  {
    if s == [] then 0 else DigitsValue(s[..|s| - 1]) * 10 + (s[|s| - 1] as int - '0' as int)
  }

  /** CPython's default limit on the number of digits `int()` converts
      from a decimal string; a longer literal raises ValueError. */
  const MaxStrDigits: nat := 4300

  /** What `int()` accepts here: an optional sign followed by one to
      `MaxStrDigits` ASCII digits. */
  predicate IsIntLiteral(s: string) {
    && |s| > 0
    && var digits := if s[0] == '+' || s[0] == '-' then s[1..] else s;
       digits != [] && AllDigits(digits) && |digits| <= MaxStrDigits
  }

  /** `int(s)` on an already stripped string: None stands for the ValueError. */
  function ParseInt(s: string): Option<int>
  {
    if s == [] then None
    else
      var negative := s[0] == '-';
      var digits := if s[0] == '+' || negative then s[1..] else s;
      if digits != [] && AllDigits(digits) && |digits| <= MaxStrDigits then
        var magnitude: int := DigitsValue(digits);
        Some(if negative then -magnitude else magnitude)
      else None
  }

  /** `int()` succeeds exactly on integer literals, and the sign of the
      literal is the sign of the value. */
  lemma ParseIntAccepts(s: string)
    ensures ParseInt(s).Some? <==> IsIntLiteral(s)
    ensures ParseInt(s).Some? && s[0] == '-' ==> ParseInt(s).value <= 0
    ensures ParseInt(s).Some? && s[0] != '-' ==> ParseInt(s).value >= 0
  {
  }

  function DigitChar(d: nat): (c: char)
    requires d < 10
    ensures IsDigit(c) && c as int - '0' as int == d
  {
    ('0' as int + d) as char
  }

  /** `str(n)` for a natural number: its decimal digits, no leading zeros. */
  function NatDecimal(n: nat): (s: string)
    ensures s != [] && AllDigits(s)
  {
    if n < 10 then [DigitChar(n)] else NatDecimal(n / 10) + [DigitChar(n % 10)]
  }

  /** `str(n)` */
  function Decimal(n: int): string {
    if n < 0 then "-" + NatDecimal(-n) else NatDecimal(n)
  }

  /** `str(n)` is non-empty and is all digits after an optional minus sign,
      so it holds no whitespace. */
  lemma DecimalHasNoSpace(n: int)
    ensures var s := Decimal(n); s != [] && ' ' !in s && !IsSpace(s[0]) && !IsSpace(s[|s| - 1])
  {
    var s := Decimal(n);
    if n < 0 {
      assert s == "-" + NatDecimal(-n);
    }
    assert forall i :: 0 <= i < |s| ==> s[i] == '-' || IsDigit(s[i]);
  }

  lemma {:induction false} DigitsValueNatDecimal(n: nat)
    ensures DigitsValue(NatDecimal(n)) == n
  {
    if n >= 10 {
      var s := NatDecimal(n);
      assert s[..|s| - 1] == NatDecimal(n / 10);
      DigitsValueNatDecimal(n / 10);
    }
  }

  /** The decimal form of `n` has at most `MaxStrDigits` digits. */
  predicate WithinDigitLimit(n: int) {
    |NatDecimal(if n < 0 then -n else n)| <= MaxStrDigits
  }

  /** `int(str(n)) == n` for every integer within the digit limit; beyond
      it `int()` refuses the decimal form. */
  lemma ParseIntDecimal(n: int)
    ensures ParseInt(Decimal(n)) == if WithinDigitLimit(n) then Some(n) else None
  {
    var s := Decimal(n);
    if n < 0 {
      var digits := NatDecimal(-n);
      assert s[0] == '-' && s[1..] == digits;
      DigitsValueNatDecimal(-n);
    } else {
      assert IsDigit(s[0]);
      DigitsValueNatDecimal(n);
    }
  }
}
