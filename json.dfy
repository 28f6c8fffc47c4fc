/** `JSON.parse` as far as the redraft page needs it: whether a text is one JSON value
    (section 2 of RFC 8259) surrounded by optional whitespace, and, when that value is a string
    (section 7), the text it denotes. `Quote` is `JSON.stringify` on a string, the encoding the
    streaming protocol uses for its text parts. */
module Json {
  import opened Wrappers

  /** What parsing a whole text gives: not JSON, a JSON string, or another JSON value. */
  datatype Parsed = Invalid | JsonText(text: string) | OtherValue

  /** A value read from position `i` on: what it is, and where it ends. */
  datatype Item = StringItem(text: string) | OtherItem
  datatype Scan = Fail | Scanned(item: Item, next: nat)

  /** Insignificant whitespace: space, tab, line feed, carriage return. */
  predicate IsWs(c: char) {
    c == ' ' || c == '\t' || c == '\n' || c == '\r'
  }

  function SkipWs(s: string, i: nat): (j: nat)
    requires i <= |s|
    ensures i <= j <= |s|
    ensures forall k :: i <= k < j ==> IsWs(s[k])
    ensures j == |s| || !IsWs(s[j])
    decreases |s| - i
  {
    if i < |s| && IsWs(s[i]) then SkipWs(s, i + 1) else i
  }

  function HexDigit(c: char): Option<nat> {
    if '0' <= c <= '9' then Some(c as int - '0' as int)
    else if 'a' <= c <= 'f' then Some(c as int - 'a' as int + 10)
    else if 'A' <= c <= 'F' then Some(c as int - 'A' as int + 10)
    else None
  }

  /** The code unit written by four hex digits at `i`. */
  function Hex4(s: string, i: nat): (r: Option<nat>)
    ensures r.Some? ==> i + 4 <= |s| && r.value < 0x10000
  {
    if i + 4 > |s| then None
    else match (HexDigit(s[i]), HexDigit(s[i + 1]), HexDigit(s[i + 2]), HexDigit(s[i + 3]))
      case (Some(a), Some(b), Some(c), Some(d)) =>
        if a < 16 && b < 16 && c < 16 && d < 16 then Some(((a * 16 + b) * 16 + c) * 16 + d) else None
      case _ => None
  }

  /** The escape after a backslash at `i - 1`: the character it stands for and where the text
      resumes. A `\u` escape of a high surrogate followed by a `\u` escape of a low surrogate
      is one character; a surrogate on its own cannot be a character here and becomes U+FFFD. */
  function Escape(s: string, i: nat): (r: Option<(char, nat)>)
    requires i <= |s|
    ensures r.Some? ==> i < r.value.1 <= |s|
  {
    if i == |s| then None
    else
      var e := s[i];
      if e == '"' || e == '\\' || e == '/' then Some((e, i + 1))
      else if e == 'b' then Some(('\U{0008}', i + 1))
      else if e == 'f' then Some(('\U{000C}', i + 1))
      else if e == 'n' then Some(('\n', i + 1))
      else if e == 'r' then Some(('\r', i + 1))
      else if e == 't' then Some(('\t', i + 1))
      else if e == 'u' then
        match Hex4(s, i + 1)
        case None => None
        case Some(v) =>
          if 0xD800 <= v <= 0xDBFF && i + 11 <= |s| && s[i + 5] == '\\' && s[i + 6] == 'u'
             && Hex4(s, i + 7).Some? && 0xDC00 <= Hex4(s, i + 7).value <= 0xDFFF then
            Some(((0x10000 + (v - 0xD800) * 1024 + (Hex4(s, i + 7).value - 0xDC00)) as char, i + 11))
          else if 0xD800 <= v <= 0xDFFF then Some(('\U{FFFD}', i + 5))
          else Some((v as char, i + 5))
      else None
  }

  /** The rest of a string whose opening quote is at `i - 1`; `acc` holds what was read. */
  function ParseString(s: string, i: nat, acc: string): (r: Scan)
    requires i <= |s|
    ensures r.Scanned? ==> i < r.next <= |s| && r.item.StringItem?
    decreases |s| - i
  {
    if i == |s| then Fail
    else if s[i] == '"' then Scanned(StringItem(acc), i + 1)
    else if s[i] == '\\' then
      match Escape(s, i + 1)
      case None => Fail
      case Some((c, j)) => ParseString(s, j, acc + [c])
    else if s[i] < ' ' then Fail
    else ParseString(s, i + 1, acc + [s[i]])
  }

  predicate IsDigit(c: char) {
    '0' <= c <= '9'
  }

  /** The end of the run of digits starting at `i`. */
  function Digits(s: string, i: nat): (j: nat)
    requires i <= |s|
    ensures i <= j <= |s|
    decreases |s| - i
  {
    if i < |s| && IsDigit(s[i]) then Digits(s, i + 1) else i
  }

  /** A number: optional minus, `0` or a digit run not starting with `0`, an optional
      fraction, an optional exponent. */
  function ParseNumber(s: string, i: nat): (r: Scan)
    requires i <= |s|
    ensures r.Scanned? ==> i < r.next <= |s|
  {
    var a := if i < |s| && s[i] == '-' then i + 1 else i;
    if a == |s| || !IsDigit(s[a]) then Fail
    else
      var b := if s[a] == '0' then a + 1 else Digits(s, a);
      var c := if b < |s| && s[b] == '.' then (if b + 1 < |s| && IsDigit(s[b + 1]) then Digits(s, b + 1) else 0) else b;
      if c == 0 then Fail
      else
        var d := if c < |s| && (s[c] == 'e' || s[c] == 'E') then c + 1 else c;
        var d' := if d > c && d < |s| && (s[d] == '+' || s[d] == '-') then d + 1 else d;
        if d > c && (d' == |s| || !IsDigit(s[d'])) then Fail
        else Scanned(OtherItem, if d > c then Digits(s, d') else c)
  }

  /** One of `true`, `false`, `null` at `i`. */
  function ParseLiteral(s: string, i: nat, word: string): (r: Scan)
    requires i <= |s| && word != []
    ensures r.Scanned? ==> i < r.next <= |s|
  {
    if i + |word| <= |s| && s[i..i + |word|] == word then Scanned(OtherItem, i + |word|) else Fail
  }

  /** A value at `i`. */
  function ParseValue(s: string, i: nat): (r: Scan)
    requires i <= |s|
    ensures r.Scanned? ==> i < r.next <= |s|
    decreases |s| - i, 0
  {
    if i == |s| then Fail
    else if s[i] == '"' then ParseString(s, i + 1, "")
    else if s[i] == '[' then ParseArray(s, i + 1)
    else if s[i] == '{' then ParseObject(s, i + 1)
    else if s[i] == 't' then ParseLiteral(s, i, "true")
    else if s[i] == 'f' then ParseLiteral(s, i, "false")
    else if s[i] == 'n' then ParseLiteral(s, i, "null")
    else ParseNumber(s, i)
  }

  /** The rest of an array whose `[` is at `i - 1`. */
  function ParseArray(s: string, i: nat): (r: Scan)
    requires i <= |s|
    ensures r.Scanned? ==> i < r.next <= |s| && r.item == OtherItem
    decreases |s| - i, 2
  {
    var j := SkipWs(s, i);
    if j < |s| && s[j] == ']' then Scanned(OtherItem, j + 1) else ParseElements(s, j)
  }

  /** Array elements from `i` on, up to and including the closing `]`. */
  function ParseElements(s: string, i: nat): (r: Scan)
    requires i <= |s|
    ensures r.Scanned? ==> i < r.next <= |s| && r.item == OtherItem
    decreases |s| - i, 1
  {
    match ParseValue(s, i)
    case Fail => Fail
    case Scanned(_, k) =>
      var j := SkipWs(s, k);
      if j == |s| then Fail
      else if s[j] == ']' then Scanned(OtherItem, j + 1)
      else if s[j] == ',' then ParseElements(s, SkipWs(s, j + 1))
      else Fail
  }

  /** The rest of an object whose `{` is at `i - 1`. */
  function ParseObject(s: string, i: nat): (r: Scan)
    requires i <= |s|
    ensures r.Scanned? ==> i < r.next <= |s| && r.item == OtherItem
    decreases |s| - i, 2
  {
    var j := SkipWs(s, i);
    if j < |s| && s[j] == '}' then Scanned(OtherItem, j + 1) else ParseMembers(s, j)
  }

  /** Object members from `i` on, each a string key, `:` and a value, up to and including
      the closing `}`. */
  function ParseMembers(s: string, i: nat): (r: Scan)
    requires i <= |s|
    ensures r.Scanned? ==> i < r.next <= |s| && r.item == OtherItem
    decreases |s| - i, 1
  {
    if i == |s| || s[i] != '"' then Fail
    else
      match ParseString(s, i + 1, "")
      case Fail => Fail
      case Scanned(_, k) =>
        var colon := SkipWs(s, k);
        if colon == |s| || s[colon] != ':' then Fail
        else
          match ParseValue(s, SkipWs(s, colon + 1))
          case Fail => Fail
          case Scanned(_, m) =>
            var j := SkipWs(s, m);
            if j == |s| then Fail
            else if s[j] == '}' then Scanned(OtherItem, j + 1)
            else if s[j] == ',' then ParseMembers(s, SkipWs(s, j + 1))
            else Fail
  }

  /** `JSON.parse(text)`: one value, with only whitespace around it. */
  function Parse(text: string): Parsed {
    match ParseValue(text, SkipWs(text, 0))
    case Fail => Invalid
    case Scanned(item, k) =>
      if SkipWs(text, k) != |text| then Invalid
      else if item.StringItem? then JsonText(item.text) else OtherValue
  }

  // ----- JSON.stringify on strings -----

  /** The lower-case hexadecimal digit for a value below 16. */
  function HexChar(v: nat): (c: char)
    requires v < 16
    ensures HexDigit(c) == Some(v)
  {
    if v < 10 then ('0' as int + v) as char else ('a' as int + v - 10) as char
  }

  /** How `JSON.stringify` writes one character inside a string. */
  function EscapeChar(c: char): (r: string)
    ensures r != [] && '\n' !in r
  {
    if c == '"' then "\\\""
    else if c == '\\' then "\\\\"
    else if c == '\U{0008}' then "\\b"
    else if c == '\U{000C}' then "\\f"
    else if c == '\n' then "\\n"
    else if c == '\r' then "\\r"
    else if c == '\t' then "\\t"
    else if c < ' ' then "\\u00" + [HexChar(c as int / 16), HexChar(c as int % 16)]
    else [c]
  }

  function EscapeText(t: string): (r: string)
    ensures '\n' !in r
  {
    if t == [] then "" else EscapeChar(t[0]) + EscapeText(t[1..])
  }

  /** Text without quotes, backslashes or control characters is written as it is. */
  lemma {:induction false} EscapePlain(t: string)
    requires forall i :: 0 <= i < |t| ==> t[i] != '"' && t[i] != '\\' && t[i] >= ' '
    ensures EscapeText(t) == t
  {
    if t != [] {
      EscapePlain(t[1..]);
      assert [t[0]] + t[1..] == t;
    }
  }

  /** `JSON.stringify(t)` for a string `t`. */
  function Quote(t: string): (r: string)
    ensures '\n' !in r
  {
    "\"" + EscapeText(t) + "\""
  }

  /** A control character without a short escape is written `\u00` and two hex digits. */
  lemma ParseUnicodeEscape(s: string, i: nat, c: char, acc: string)
    requires c < ' ' && c != '\U{0008}' && c != '\U{000C}' && c != '\n' && c != '\r' && c != '\t'
    requires i + 6 <= |s| && s[i..i + 6] == EscapeChar(c)
    ensures ParseString(s, i, acc) == ParseString(s, i + 6, acc + [c])
  {
    var hi, lo := c as int / 16, c as int % 16;
    assert s[i] == '\\' && s[i + 1] == 'u' && s[i + 2] == '0' && s[i + 3] == '0';
    assert s[i + 4] == HexChar(hi) && s[i + 5] == HexChar(lo);
    assert Hex4(s, i + 2) == Some(c as int);
  }

  /** Reading one escaped character moves past its escape and appends the character. */
  lemma ParseEscapedChar(s: string, i: nat, c: char, acc: string)
    requires i + |EscapeChar(c)| <= |s| && s[i..i + |EscapeChar(c)|] == EscapeChar(c)
    ensures ParseString(s, i, acc) == ParseString(s, i + |EscapeChar(c)|, acc + [c])
  {
    var e := EscapeChar(c);
    assert s[i] == e[0];
    if c < ' ' && c != '\U{0008}' && c != '\U{000C}' && c != '\n' && c != '\r' && c != '\t' {
      ParseUnicodeEscape(s, i, c, acc);
    } else if |e| == 2 {
      assert s[i + 1] == e[1];
    }
  }

  lemma SliceHalves(s: string, i: nat, a: string, b: string)
    requires i + |a + b| <= |s| && s[i..i + |a + b|] == a + b
    ensures s[i..i + |a|] == a && s[i + |a|..i + |a| + |b|] == b
  {
    assert s[i..i + |a|] == (a + b)[..|a|];
    assert s[i + |a|..i + |a| + |b|] == (a + b)[|a|..];
  }

  /** A quote ends the string. */
  lemma ParseClosingQuote(s: string, i: nat, acc: string)
    requires i < |s| && s[i] == '"'
    ensures ParseString(s, i, acc) == Scanned(StringItem(acc), i + 1)
  {
  }

  /** `s` holds, from `i` on, the escaped characters of `t` and then a closing quote. */
  predicate EscapedAt(s: string, i: nat, t: string)
    decreases |t|
  {
    if t == [] then i < |s| && s[i] == '"'
    else
      var e := EscapeChar(t[0]);
      i + |e| <= |s| && s[i..i + |e|] == e && EscapedAt(s, i + |e|, t[1..])
  }

  /** A prefix, the escaped text of `t` and a closing quote: `t` is escaped right after the
      prefix. */
  lemma {:induction false} EscapedAfter(pre: string, t: string)
    ensures EscapedAt(pre + EscapeText(t) + "\"", |pre|, t)
    decreases |t|
  {
    if t == [] {
      assert (pre + EscapeText(t) + "\"")[|pre|] == '"';
    } else {
      var e := EscapeChar(t[0]);
      var s := pre + EscapeText(t) + "\"";
      assert s == (pre + e) + EscapeText(t[1..]) + "\"" by {
        EscapeTextCons(t);
        Regroup(pre, e, EscapeText(t[1..]), "\"");
      }
      EscapedAfter(pre + e, t[1..]);
      assert s[|pre|..|pre| + |e|] == e by {
        SliceMiddle(pre, e, EscapeText(t[1..]) + "\"");
        Regroup(pre, e, EscapeText(t[1..]), "\"");
      }
      EscapedAtStep(s, |pre|, t);
    }
  }

  lemma Regroup(a: string, b: string, c: string, d: string)
    ensures a + (b + c) + d == (a + b) + c + d
    ensures (a + b) + c + d == a + b + (c + d)
  {
  }

  lemma SliceMiddle(a: string, b: string, c: string)
    ensures (a + b + c)[|a|..|a| + |b|] == b
  {
  }

  /** One escape at `i`, then the rest of the text. */
  lemma EscapedAtStep(s: string, i: nat, t: string)
    requires t != []
    requires i + |EscapeChar(t[0])| <= |s| && s[i..i + |EscapeChar(t[0])|] == EscapeChar(t[0])
    requires EscapedAt(s, i + |EscapeChar(t[0])|, t[1..])
    ensures EscapedAt(s, i, t)
  {
  }

  /** The escaped text of `t` followed by a closing quote reads back as `t`. */
  lemma {:induction false} ParseEscapedText(s: string, i: nat, t: string, acc: string)
    requires EscapedAt(s, i, t)
    ensures i + |EscapeText(t)| < |s|
    ensures ParseString(s, i, acc) == Scanned(StringItem(acc + t), i + |EscapeText(t)| + 1)
    decreases |t|
  {
    if t == [] {
      ParseClosingQuote(s, i, acc);
      assert acc + t == acc;
    } else {
      EscapedAtFirst(s, i, t);
      ParseEscapedText(s, i + |EscapeChar(t[0])|, t[1..], acc + [t[0]]);
      ParseStep(s, i, t, acc);
    }
  }

  /** What `EscapedAt` says about the first character. */
  lemma EscapedAtFirst(s: string, i: nat, t: string)
    requires t != [] && EscapedAt(s, i, t)
    ensures i + |EscapeChar(t[0])| <= |s| && s[i..i + |EscapeChar(t[0])|] == EscapeChar(t[0])
    ensures EscapedAt(s, i + |EscapeChar(t[0])|, t[1..])
  {
  }

  /** The induction step: what the rest reads as gives what the whole reads as. */
  lemma ParseStep(s: string, i: nat, t: string, acc: string)
    requires t != [] && i + |EscapeChar(t[0])| <= |s| && s[i..i + |EscapeChar(t[0])|] == EscapeChar(t[0])
    requires i + |EscapeChar(t[0])| + |EscapeText(t[1..])| < |s|
    requires ParseString(s, i + |EscapeChar(t[0])|, acc + [t[0]])
             == Scanned(StringItem(acc + [t[0]] + t[1..]), i + |EscapeChar(t[0])| + |EscapeText(t[1..])| + 1)
    ensures i + |EscapeText(t)| < |s|
    ensures ParseString(s, i, acc) == Scanned(StringItem(acc + t), i + |EscapeText(t)| + 1)
  {
    EscapeTextLength(t);
    ParseFirstChar(s, i, t, acc);
  }

  /** The step: the first character's escape, then the rest. */
  lemma ParseFirstChar(s: string, i: nat, t: string, acc: string)
    requires t != [] && i + |EscapeChar(t[0])| <= |s|
    requires s[i..i + |EscapeChar(t[0])|] == EscapeChar(t[0])
    requires ParseString(s, i + |EscapeChar(t[0])|, acc + [t[0]])
             == Scanned(StringItem(acc + [t[0]] + t[1..]), i + |EscapeChar(t[0])| + |EscapeText(t[1..])| + 1)
    ensures ParseString(s, i, acc) == Scanned(StringItem(acc + t), i + |EscapeText(t)| + 1)
  {
    RestScanned(s, i, t, acc);
    ParseEscapedChar(s, i, t[0], acc);
  }

  /** The scan of the rest, restated in terms of the whole text. */
  lemma RestScanned(s: string, i: nat, t: string, acc: string)
    requires t != [] && i + |EscapeChar(t[0])| <= |s|
    requires ParseString(s, i + |EscapeChar(t[0])|, acc + [t[0]])
             == Scanned(StringItem(acc + [t[0]] + t[1..]), i + |EscapeChar(t[0])| + |EscapeText(t[1..])| + 1)
    ensures ParseString(s, i + |EscapeChar(t[0])|, acc + [t[0]])
            == Scanned(StringItem(acc + t), i + |EscapeText(t)| + 1)
  {
    EscapeTextLength(t);
    AppendFirst(acc, t);
  }

  lemma EscapeTextCons(t: string)
    requires t != []
    ensures EscapeText(t) == EscapeChar(t[0]) + EscapeText(t[1..])
  {
  }

  lemma EscapeTextLength(t: string)
    requires t != []
    ensures |EscapeText(t)| == |EscapeChar(t[0])| + |EscapeText(t[1..])|
  {
  }

  lemma AppendFirst(acc: string, t: string)
    requires t != []
    ensures acc + [t[0]] + t[1..] == acc + t
  {
  }

  /** Round trip: `JSON.parse(JSON.stringify(t))` is `t`. */
  lemma ParseQuote(t: string)
    ensures Parse(Quote(t)) == JsonText(t)
  {
    var q := Quote(t);
    EscapedAfter("\"", t);
    ParseEscapedText(q, 1, t, "");
    assert "" + t == t;
  }
}
