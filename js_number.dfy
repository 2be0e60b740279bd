/** Conversions between integers and text as the application uses them:
    `Number.prototype.toString()` on quantities, `parseInt(text, 10)` on the
    quantity box, and the 24-digit lower-case hexadecimal text of an item
    identifier (`String(itemId)`). */
module JsNumber {
  import opened Common
  import JsText

  /** The digit characters, in value order, up to base 16. */
  const Digits: string := "0123456789abcdef"

  predicate IsDecimalDigit(c: char)
  {
    '0' <= c <= '9'
  }

  /** The value of a digit character: its position in `Digits`. */
  function DigitValue(c: char): (d: nat)
    ensures d < 16
  {
    if '0' <= c <= '9' then c as int - '0' as int
    else if 'a' <= c <= 'f' then c as int - 'a' as int + 10
    else 0
  }

  /** `c` is a digit of `base`. */
  predicate IsDigitIn(c: char, base: nat)
  {
    ('0' <= c <= '9' || 'a' <= c <= 'f') && DigitValue(c) < base
  }

  /** Euclidean division by a base splits `n` into its last digit and the rest. */
  lemma DivMod(n: nat, base: nat)
    requires 2 <= base
    ensures n % base < base
    ensures (n / base) * base + n % base == n
    ensures n >= base ==> n / base < n
    ensures n < base ==> n / base == 0 && n % base == n
  {
  }

  lemma DigitRoundTrip(d: nat)
    requires d < 16
    ensures IsDigitIn(Digits[d], d + 1) && DigitValue(Digits[d]) == d
  {
  }

  /** `n` written in `base`, most significant digit first, left-padded with
      zeros to at least `width` digits. */
  function Render(n: nat, base: nat, width: nat): (r: string)
    requires 2 <= base <= 16
    ensures |r| >= 1 && |r| >= width
    ensures forall i :: 0 <= i < |r| ==> IsDigitIn(r[i], base)
    decreases n, width
  {
    DivMod(n, base);
    DigitRoundTrip(n % base);
    if n < base && width <= 1 then [Digits[n]]
    else Render(n / base, base, if width == 0 then 0 else width - 1) + [Digits[n % base]]
  }

  /** The number a string of digits denotes in `base`. */
  function Value(s: string, base: nat): nat
  {
    if s == [] then 0 else Value(s[..|s| - 1], base) * base + DigitValue(s[|s| - 1])
  }

  /** Reading back what `Render` wrote gives the number again. */
  lemma {:induction false} ValueOfRender(n: nat, base: nat, width: nat)
    requires 2 <= base <= 16
    ensures Value(Render(n, base, width), base) == n
    decreases n, width
  {
    DivMod(n, base);
    DigitRoundTrip(n % base);
    var r := Render(n, base, width);
    if n < base && width <= 1 {
      assert r[..0] == [];
    } else {
      var w := if width == 0 then 0 else width - 1;
      ValueOfRender(n / base, base, w);
      assert r[..|r| - 1] == Render(n / base, base, w);
    }
  }

  /** Different numbers are written differently in a fixed base and width. */
  lemma RenderInjective(m: nat, n: nat, base: nat, width: nat)
    requires 2 <= base <= 16
    requires Render(m, base, width) == Render(n, base, width)
    ensures m == n
  {
    ValueOfRender(m, base, width);
    ValueOfRender(n, base, width);
  }

  /** `String(itemId)`: an item identifier as 24 lower-case hexadecimal
      digits, the text form of a 12-byte object identifier. */
  function IdText(id: nat): (r: string)
    ensures |r| >= 24
  {
    Render(id, 16, 24)
  }

  /** Distinct identifiers have distinct texts, so the payload encoded into an
      item's code names exactly one item. */
  lemma IdTextInjective(a: nat, b: nat)
    requires IdText(a) == IdText(b)
    ensures a == b
  {
    RenderInjective(a, b, 16, 24);
  }

  /** `n.toString()` for an integer `n`. */
  function IntToString(n: int): (r: string)
    ensures r != []
  {
    if n < 0 then "-" + Render(-n, 10, 1) else Render(n, 10, 1)
  }

  /** The longest prefix of `s` made of decimal digits. */
  function DigitPrefix(s: string): (r: string)
    ensures |r| <= |s| && r == s[..|r|]
    ensures forall i :: 0 <= i < |r| ==> IsDecimalDigit(r[i])
    ensures |r| < |s| ==> !IsDecimalDigit(s[|r|])
  {
    if s != [] && IsDecimalDigit(s[0]) then [s[0]] + DigitPrefix(s[1..]) else []
  }

  /** `parseInt(s, 10)`: skip leading white space, read an optional sign,
      then the longest run of decimal digits; `None` stands for `NaN`,
      the outcome when there is no digit at all. */
  function ParseInt(s: string): Option<int>
  {
    ParseSigned(JsText.TrimStart(s))
  }

  /** An optional sign, then the digits. */
  function ParseSigned(t: string): Option<int>
  {
    if t != [] && t[0] == '-' then
      var r := ParseDigits(t[1..]);
      if r.Some? then Some(-r.value) else None
    else if t != [] && t[0] == '+' then ParseDigits(t[1..])
    else ParseDigits(t)
  }

  /** The value of the longest leading run of decimal digits, if there is
      at least one. */
  function ParseDigits(t: string): Option<int>
  {
    var digits := DigitPrefix(t);
    if digits == [] then None else Some(Value(digits, 10))
  }

  lemma DecimalDigitsAreDigits(s: string)
    requires forall i :: 0 <= i < |s| ==> IsDigitIn(s[i], 10)
    ensures DigitPrefix(s) == s
  {
    var p := DigitPrefix(s);
    assert |p| == |s|;
  }

  /** A run of decimal digits reads as its value. */
  lemma ParseIntOfDigits(digits: string)
    requires digits != [] && DigitPrefix(digits) == digits
    ensures ParseInt(digits) == Some(Value(digits, 10) as int)
  {
    assert IsDecimalDigit(digits[0]);
    JsText.VisibleNotSpace(digits[0]);
    assert JsText.LeadingSpaces(digits) == 0;
    assert JsText.TrimStart(digits) == digits;
    assert digits[0] != '-' && digits[0] != '+';
    assert ParseSigned(digits) == ParseDigits(digits);
  }

  /** A minus sign followed by a run of decimal digits reads as the
      negated value. */
  lemma ParseIntOfNegated(digits: string)
    requires digits != [] && DigitPrefix(digits) == digits
    ensures ParseInt("-" + digits) == Some(-(Value(digits, 10) as int))
  {
    var s := "-" + digits;
    assert s[0] == '-' && s[1..] == digits;
    JsText.VisibleNotSpace(s[0]);
    assert JsText.LeadingSpaces(s) == 0;
    assert JsText.TrimStart(s) == s;
    var v := Value(digits, 10) as int;
    assert ParseDigits(s[1..]) == Some(v);
    assert ParseSigned(s) == Some(-v);
    assert ParseInt(s) == ParseSigned(s);
  }

  /** `parseInt` reads back exactly the integer that `toString` wrote. */
  lemma ParseIntOfToString(n: int)
    ensures ParseInt(IntToString(n)) == Some(n)
  {
    var m := if n < 0 then -n else n;
    var digits := Render(m, 10, 1);
    ValueOfRender(m, 10, 1);
    DecimalDigitsAreDigits(digits);
    if n < 0 {
      ParseIntOfNegated(digits);
    } else {
      ParseIntOfDigits(digits);
    }
  }
}
