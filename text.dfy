/** String helpers with JavaScript's meaning: `trim`, `startsWith`, `split` on one character,
    `join`, and the decimal rendering of a non-negative integer. */
module Text {

  /** The code points ECMAScript counts as WhiteSpace or LineTerminator: the characters
      `String.prototype.trim` removes and `parseInt` skips. */
  predicate IsJsWhitespace(c: char) {
    || c == '\t' || c == '\n' || c == '\U{000B}' || c == '\U{000C}' || c == '\r' || c == ' '
    || c == '\U{00A0}' || c == '\U{1680}' || ('\U{2000}' <= c <= '\U{200A}')
    || c == '\U{2028}' || c == '\U{2029}' || c == '\U{202F}' || c == '\U{205F}'
    || c == '\U{3000}' || c == '\U{FEFF}'
  }

  predicate AllWhitespace(s: string) {
    forall i :: 0 <= i < |s| ==> IsJsWhitespace(s[i])
  }

  /** Drops leading whitespace. */
  function TrimStart(s: string): (r: string)
    ensures |r| <= |s| && r == s[|s| - |r|..]
    ensures AllWhitespace(s[..|s| - |r|])
    ensures r == [] || !IsJsWhitespace(r[0])
  {
    if s != [] && IsJsWhitespace(s[0]) then TrimStart(s[1..]) else s
  }

  /** Drops trailing whitespace. */
  function TrimEnd(s: string): (r: string)
    ensures |r| <= |s| && r == s[..|r|]
    ensures AllWhitespace(s[|r|..])
    ensures r == [] || !IsJsWhitespace(r[|r| - 1])
  {
    if s != [] && IsJsWhitespace(s[|s| - 1]) then TrimEnd(s[..|s| - 1]) else s
  }

  /** A string that does not start with whitespace has nothing to drop at its start. */
  lemma TrimStartKeeps(s: string)
    requires s == [] || !IsJsWhitespace(s[0])
    ensures TrimStart(s) == s
  {
  }

  /** `s.trim()`. */
  function Trim(s: string): string {
    TrimEnd(TrimStart(s))
  }

  /** `!s.trim()`: nothing but whitespace, so that the trimmed string is empty, hence falsy
      (`BlankIffTrimEmpty`). */
  predicate IsBlank(s: string) {
    AllWhitespace(s)
  }

  /** `s.trim()` is empty exactly when every character of `s` is whitespace. */
  lemma BlankIffTrimEmpty(s: string)
    ensures IsBlank(s) <==> Trim(s) == ""
  {
    var t := TrimStart(s);
    if !AllWhitespace(s) {
      var i :| 0 <= i < |s| && !IsJsWhitespace(s[i]);
      assert t[i - (|s| - |t|)] == s[i];
    }
  }

  /** `s.startsWith(p)`. */
  predicate StartsWith(s: string, p: string) {
    |p| <= |s| && s[..|p|] == p
  }

  /** `needle` occurs in `hay` starting at index `i`. */
  predicate OccursAt(needle: string, hay: string, i: int) {
    0 <= i <= |hay| - |needle| && hay[i..i + |needle|] == needle
  }

  /** `needle` occurs somewhere in `hay`. */
  ghost predicate IsInfix(needle: string, hay: string) {
    exists i :: OccursAt(needle, hay, i)
  }

  /** The middle of a three-part concatenation occurs right after the first part. */
  lemma OccursAfter(a: string, m: string, b: string)
    ensures OccursAt(m, a + m + b, |a|)
  {
    assert (a + m + b)[|a|..|a| + |m|] == m;
  }

  /** An occurrence in `b` is an occurrence in `a + b`, shifted by `|a|`. */
  lemma OccursShift(m: string, a: string, b: string, i: int)
    requires OccursAt(m, b, i)
    ensures OccursAt(m, a + b, |a| + i)
  {
    assert (a + b)[|a| + i..|a| + i + |m|] == b[i..i + |m|];
  }

  /** An occurrence of `m + t` starts with an occurrence of `m`. */
  lemma OccursPrefix(m: string, t: string, s: string, i: int)
    requires OccursAt(m + t, s, i)
    ensures OccursAt(m, s, i)
  {
    assert s[i..i + |m|] == (m + t)[..|m|];
  }

  /** Indexing past a prefix lands in the suffix. */
  lemma IndexAfter(a: string, t: string, k: nat)
    requires k < |t|
    ensures (a + t)[|a| + k] == t[k]
  {
  }

  /** A string whose first character does not occur in `hay` is not part of it. */
  lemma NotInfixByFirstChar(m: string, hay: string)
    requires m != [] && m[0] !in hay
    ensures !IsInfix(m, hay)
  {
    forall i | 0 <= i <= |hay| - |m| ensures !OccursAt(m, hay, i) {
      assert hay[i..i + |m|][0] == hay[i];
    }
  }

  /** No occurrence of `m` in `a + b` unless one lies inside `a` or inside `b`, provided no
      occurrence can straddle the boundary: either `a` holds no first character of `m`, or `b`
      starts with a character `m` does not contain. */
  lemma NotInfixConcat(m: string, a: string, b: string)
    requires m != []
    requires !IsInfix(m, a) && !IsInfix(m, b)
    requires m[0] !in a || (b != [] && b[0] !in m)
    ensures !IsInfix(m, a + b)
  {
    var s := a + b;
    forall i | 0 <= i <= |s| - |m| ensures !OccursAt(m, s, i) {
      if i + |m| <= |a| {
        assert !OccursAt(m, a, i);
        assert a[i..i + |m|] == s[i..i + |m|];
      } else if i >= |a| {
        assert !OccursAt(m, b, i - |a|);
        assert b[i - |a|..i - |a| + |m|] == s[i..i + |m|];
      } else if m[0] !in a {
        assert s[i..i + |m|][0] == a[i];
      } else {
        assert s[i..i + |m|][|a| - i] == b[0];
      }
    }
  }

  /** `s.split(sep)` for a one-character separator: never empty, and the pieces hold no `sep`. */
  function Split(s: string, sep: char): (parts: seq<string>)
    ensures |parts| >= 1
    ensures forall k :: 0 <= k < |parts| ==> sep !in parts[k]
  {
    if s == [] then [""]
    else
      var rest := Split(s[1..], sep);
      if s[0] == sep then [""] + rest
      else [[s[0]] + rest[0]] + rest[1..]
  }

  /** `parts.join(sep)`. */
  function Join(parts: seq<string>, sep: string): string {
    if |parts| == 0 then ""
    else if |parts| == 1 then parts[0]
    else parts[0] + sep + Join(parts[1..], sep)
  }

  /** Splitting and joining again gives back the original string. */
  lemma {:induction false} JoinSplit(s: string, sep: char)
    ensures Join(Split(s, sep), [sep]) == s
  {
    if s != [] {
      var rest := Split(s[1..], sep);
      JoinSplit(s[1..], sep);
      if s[0] == sep {
        assert Split(s, sep) == [""] + rest;
        assert ([""] + rest)[1..] == rest;
      } else {
        var parts := Split(s, sep);
        assert parts == [[s[0]] + rest[0]] + rest[1..];
        if |rest| == 1 {
          assert parts == [[s[0]] + rest[0]];
        } else {
          assert parts[1..] == rest[1..];
          assert Join(rest, [sep]) == rest[0] + [sep] + Join(rest[1..], [sep]);
        }
      }
    }
  }

  /** The first part of a join is a prefix of it. */
  lemma JoinStartsWithFirst(parts: seq<string>, sep: string)
    requires |parts| >= 1
    ensures StartsWith(Join(parts, sep), parts[0])
  {
    if |parts| > 1 {
      assert Join(parts, sep)[..|parts[0]|] == parts[0];
    }
  }

  /** Every part of a join occurs in it. */
  lemma {:induction false} JoinHoldsPart(parts: seq<string>, sep: string, k: nat)
    requires k < |parts|
    ensures IsInfix(parts[k], Join(parts, sep))
  {
    if |parts| == 1 {
      assert OccursAt(parts[0], Join(parts, sep), 0);
    } else if k == 0 {
      OccursAfter([], parts[0], sep + Join(parts[1..], sep));
      assert [] + parts[0] + (sep + Join(parts[1..], sep)) == Join(parts, sep);
    } else {
      JoinHoldsPart(parts[1..], sep, k - 1);
      var rest := Join(parts[1..], sep);
      var i :| OccursAt(parts[k], rest, i);
      OccursShift(parts[k], parts[0] + sep, rest, i);
    }
  }

  /** A string that occurs in no part of a join, and that shares no character with the
      separator, does not occur in the join either. */
  lemma {:induction false} JoinLacks(parts: seq<string>, sep: string, m: string)
    requires m != [] && sep != []
    requires forall k :: 0 <= k < |parts| ==> !IsInfix(m, parts[k])
    requires forall i :: 0 <= i < |sep| ==> sep[i] !in m
    ensures !IsInfix(m, Join(parts, sep))
  {
    if |parts| == 0 {
      assert !OccursAt(m, "", 0);
    } else if |parts| > 1 {
      var rest := Join(parts[1..], sep);
      JoinLacks(parts[1..], sep, m);
      assert m[0] !in sep;
      NotInfixByFirstChar(m, sep);
      NotInfixConcat(m, sep, rest);
      assert !IsInfix(m, parts[0]);
      NotInfixConcat(m, parts[0], sep + rest);
      assert Join(parts, sep) == parts[0] + (sep + rest);
    }
  }

  /** A piece free of the separator comes out of `split` whole, in front of the rest. */
  lemma {:induction false} SplitAfterPiece(u: string, sep: char, d: string)
    requires sep !in u
    ensures Split(u + [sep] + d, sep) == [u] + Split(d, sep)
  {
    if u == [] {
      assert u + [sep] + d == [sep] + d;
      assert ([sep] + d)[1..] == d;
    } else {
      var s := u + [sep] + d;
      assert s[1..] == u[1..] + [sep] + d;
      SplitAfterPiece(u[1..], sep, d);
      assert [u[0]] + u[1..] == u;
    }
  }

  /** A string free of the separator splits into itself alone. */
  lemma {:induction false} SplitNoSeparator(s: string, sep: char)
    requires sep !in s
    ensures Split(s, sep) == [s]
  {
    if s != [] {
      SplitNoSeparator(s[1..], sep);
      assert [s[0]] + s[1..] == s;
    }
  }

  /** Number of occurrences of `c` in `s`. */
  function Count(s: string, c: char): nat {
    if s == [] then 0 else (if s[0] == c then 1 else 0) + Count(s[1..], c)
  }

  lemma {:induction false} CountConcat(a: string, b: string, c: char)
    ensures Count(a + b, c) == Count(a, c) + Count(b, c)
  {
    if a == [] {
      assert a + b == b;
    } else {
      assert (a + b)[1..] == a[1..] + b;
      CountConcat(a[1..], b, c);
    }
  }

  function DigitChar(d: nat): (c: char)
    requires d < 10
    ensures '0' <= c <= '9' && c as int - '0' as int == d
  {
    ('0' as int + d) as char
  }

  /** The decimal rendering of `n`, as `${n}` and `n.toString()` write an integer. */
  function Decimal(n: nat): (r: string)
    ensures r != []
    ensures forall i :: 0 <= i < |r| ==> '0' <= r[i] <= '9'
    ensures |r| > 1 ==> r[0] != '0'
  {
    if n < 10 then [DigitChar(n)] else Decimal(n / 10) + [DigitChar(n % 10)]
  }
}
