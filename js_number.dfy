/** `parseInt(text)` with no radix argument, as section 19.2.5 of ECMA-262 defines it: skip
    leading whitespace, read an optional sign, switch to base 16 after a `0x` or `0X` prefix,
    then read the longest run of digits; no digits at all gives NaN, modelled as `None`. */
module JsNumber {
  import opened Wrappers
  import opened Text

  /** The value of `c` as a digit of the given radix, if it is one. */
  function DigitValue(c: char, radix: nat): (r: Option<nat>)
    ensures r.Some? ==> r.value < radix
  {
    var v :=
      if '0' <= c <= '9' then c as int - '0' as int
      else if 'a' <= c <= 'z' then c as int - 'a' as int + 10
      else if 'A' <= c <= 'Z' then c as int - 'A' as int + 10
      else 36;
    if v < radix then Some(v) else None
  }

  /** Length of the longest prefix of `s` made of digits of the radix. */
  function DigitRun(s: string, radix: nat): (k: nat)
    ensures k <= |s|
    ensures forall i :: 0 <= i < k ==> DigitValue(s[i], radix).Some?
    ensures k < |s| ==> DigitValue(s[k], radix).None?
  {
    if s == [] || DigitValue(s[0], radix).None? then 0 else 1 + DigitRun(s[1..], radix)
  }

  /** The number a run of digits denotes, most significant digit first. */
  function DigitsValue(s: string, radix: nat): nat
    requires forall i :: 0 <= i < |s| ==> DigitValue(s[i], radix).Some?
  {
    if s == [] then 0
    else
      var init := s[..|s| - 1];
      assert forall i :: 0 <= i < |init| ==> init[i] == s[i];
      var high := DigitsValue(init, radix);
      assert high * radix >= 0;
      high * radix + DigitValue(s[|s| - 1], radix).value
  }

  /** `parseInt(s)`: `None` stands for NaN. The result is an exact integer, where JavaScript
      would round a value beyond 2^53 to the nearest double. */
  function ParseInt(s: string): Option<int> {
    var t := TrimStart(s);
    if t != [] && t[0] == '-' then ParseUnsigned(t[1..], true)
    else if t != [] && t[0] == '+' then ParseUnsigned(t[1..], false)
    else ParseUnsigned(t, false)
  }

  /** The part of `parseInt` after the sign: the radix prefix and the run of digits. */
  function ParseUnsigned(u: string, negative: bool): Option<int> {
    var hex := |u| >= 2 && u[0] == '0' && (u[1] == 'x' || u[1] == 'X');
    var radix := if hex then 16 else 10;
    var w := if hex then u[2..] else u;
    var k := DigitRun(w, radix);
    if k == 0 then None
    else
      var magnitude: int := DigitsValue(w[..k], radix);
      Some(if negative then -magnitude else magnitude)
  }

  /** The decimal digits of `n` read back as `n`. */
  lemma {:induction false} DigitsValueDecimal(n: nat)
    ensures forall i :: 0 <= i < |Decimal(n)| ==> DigitValue(Decimal(n)[i], 10).Some?
    ensures DigitsValue(Decimal(n), 10) == n
  {
    if n >= 10 {
      DigitsValueDecimal(n / 10);
      var d := Decimal(n);
      assert d[..|d| - 1] == Decimal(n / 10);
    }
  }

  /** A decimal string followed by nothing, or by a character that is neither a digit nor a
      letter, parses as its number: `parseInt(String(n))` is `n`, and trailing text is ignored.
      (A letter matters: "0" followed by "x1" reads as the hexadecimal "0x1".) */
  lemma ParseIntDecimal(n: nat, rest: string)
    requires rest == [] || DigitValue(rest[0], 36).None?
    ensures ParseInt(Decimal(n) + rest) == Some(n)
  {
    var d := Decimal(n);
    var s := d + rest;
    assert s[0] == d[0] && '0' <= d[0] <= '9';
    TrimStartKeeps(s);
    assert ParseInt(s) == ParseUnsigned(s, false);
    DecimalDigits(n, rest);
  }

  /** The unsigned part of the lemma above: no radix prefix, and the digit run is `n`. */
  lemma DecimalDigits(n: nat, rest: string)
    requires rest == [] || DigitValue(rest[0], 36).None?
    ensures ParseUnsigned(Decimal(n) + rest, false) == Some(n)
  {
    var d := Decimal(n);
    var s := d + rest;
    DigitsValueDecimal(n);
    if |d| >= 2 {
      assert s[1] == d[1];
    }
    assert !(|s| >= 2 && s[0] == '0' && (s[1] == 'x' || s[1] == 'X'));
    DigitRunPrefix(d, rest, 10);
    assert s[..|d|] == d;
  }

  /** The digit run of a string of digits followed by a non-digit is exactly that string. */
  lemma {:induction false} DigitRunPrefix(d: string, rest: string, radix: nat)
    requires forall i :: 0 <= i < |d| ==> DigitValue(d[i], radix).Some?
    requires rest == [] || DigitValue(rest[0], radix).None?
    ensures DigitRun(d + rest, radix) == |d|
  {
    if d != [] {
      assert (d + rest)[1..] == d[1..] + rest;
      DigitRunPrefix(d[1..], rest, radix);
    } else {
      assert d + rest == rest;
    }
  }

  /** `parseInt(undefined)` converts its argument to the text "undefined", which is NaN. */
  lemma ParseIntUndefined()
    ensures ParseInt("undefined") == None
  {
    TrimStartKeeps("undefined");
  }
}
