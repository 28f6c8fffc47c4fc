/** UTF-8 as the session routes use it: `Buffer.from(text)` encodes a string, and
    `buffer.toString()` decodes bytes with the WHATWG decoder, which turns each maximal
    ill-formed subsequence into one U+FFFD. */
module Utf8 {

  newtype byte = b: int | 0 <= b < 256

  const Replacement: char := '\U{FFFD}'

  /** The one to four bytes of a scalar value. */
  function EncodeChar(c: char): (bs: seq<byte>)
    ensures 1 <= |bs| <= 4
  {
    var n := c as int;
    if n < 0x80 then [n as byte]
    else if n < 0x800 then [(0xC0 + n / 64) as byte, (0x80 + n % 64) as byte]
    else if n < 0x10000 then
      [(0xE0 + n / 4096) as byte, (0x80 + (n / 64) % 64) as byte, (0x80 + n % 64) as byte]
    else
      [(0xF0 + n / 262144) as byte, (0x80 + (n / 4096) % 64) as byte,
       (0x80 + (n / 64) % 64) as byte, (0x80 + n % 64) as byte]
  }

  /** `Buffer.from(s)`: the encodings of the characters, one after another. */
  function Encode(s: string): seq<byte> {
    if s == [] then [] else EncodeChar(s[0]) + Encode(s[1..])
  }

  /** How many continuation bytes a lead byte announces; 0 for a byte that cannot lead. */
  function Needed(lead: byte): nat {
    if 0xC2 <= lead <= 0xDF then 1
    else if 0xE0 <= lead <= 0xEF then 2
    else if 0xF0 <= lead <= 0xF4 then 3
    else 0
  }

  /** Whether `b` may follow `lead` as its `k`-th continuation byte: the first one has the
      narrowed ranges that rule out overlong forms, surrogates and values past U+10FFFF. */
  predicate Acceptable(lead: byte, k: nat, b: byte) {
    if k == 0 && lead == 0xE0 then 0xA0 <= b <= 0xBF
    else if k == 0 && lead == 0xED then 0x80 <= b <= 0x9F
    else if k == 0 && lead == 0xF0 then 0x90 <= b <= 0xBF
    else if k == 0 && lead == 0xF4 then 0x80 <= b <= 0x8F
    else 0x80 <= b <= 0xBF
  }

  /** The `n` bytes after the lead are all acceptable continuation bytes. */
  predicate Continues(bs: seq<byte>, n: nat)
    requires 1 <= n <= 3 && |bs| >= n + 1
  {
    && Acceptable(bs[0], 0, bs[1])
    && (n >= 2 ==> Acceptable(bs[0], 1, bs[2]))
    && (n >= 3 ==> Acceptable(bs[0], 2, bs[3]))
  }

  /** How many acceptable continuation bytes follow the lead, up to `n`: the decoder stops at
      the first byte that is not acceptable, or at the end of the input. */
  function Run(bs: seq<byte>, n: nat): (k: nat)
    requires |bs| >= 1 && 1 <= n <= 3
    ensures k <= n && 1 + k <= |bs|
    ensures k == n <==> (|bs| >= n + 1 && Continues(bs, n))
  {
    if |bs| < 2 || !Acceptable(bs[0], 0, bs[1]) then 0
    else if n == 1 then 1
    else if |bs| < 3 || !Acceptable(bs[0], 1, bs[2]) then 1
    else if n == 2 then 2
    else if |bs| < 4 || !Acceptable(bs[0], 2, bs[3]) then 2
    else 3
  }

  /** The scalar value of a well-formed sequence of `n + 1` bytes. */
  function Scalar(bs: seq<byte>, n: nat): int
    requires 1 <= n <= 3 && |bs| >= n + 1
  {
    if n == 1 then (bs[0] as int - 0xC0) * 64 + (bs[1] as int - 0x80)
    else if n == 2 then
      (bs[0] as int - 0xE0) * 4096 + (bs[1] as int - 0x80) * 64 + (bs[2] as int - 0x80)
    else
      (bs[0] as int - 0xF0) * 262144 + (bs[1] as int - 0x80) * 4096
      + (bs[2] as int - 0x80) * 64 + (bs[3] as int - 0x80)
  }

  /** Every sequence the decoder accepts denotes a Unicode scalar value. */
  lemma ScalarIsChar(bs: seq<byte>, n: nat)
    requires 1 <= n <= 3 && |bs| >= n + 1 && Needed(bs[0]) == n && Continues(bs, n)
    ensures 0x80 <= Scalar(bs, n) < 0xD800 || 0xE000 <= Scalar(bs, n) <= 0x10FFFF
  {
  }

  /** `buffer.toString()`: a well-formed sequence becomes its character; a lead byte followed
      by too few acceptable bytes, or a byte that cannot lead, becomes one U+FFFD, and
      decoding resumes at the first byte not consumed. */
  function Decode(bs: seq<byte>): string
    decreases |bs|
  {
    if bs == [] then []
    else if bs[0] < 0x80 then [bs[0] as int as char] + Decode(bs[1..])
    else
      var n := Needed(bs[0]);
      if n == 0 then [Replacement] + Decode(bs[1..])
      else
        var k := Run(bs, n);
        if k == n then
          ScalarIsChar(bs, n);
          [Scalar(bs, n) as char] + Decode(bs[1 + n..])
        else [Replacement] + Decode(bs[1 + k..])
  }

  /** Decoding the encoding of one character followed by anything gives that character,
      then the decoding of the rest. */
  lemma DecodeEncodeChar(c: char, rest: seq<byte>)
    ensures Decode(EncodeChar(c) + rest) == [c] + Decode(rest)
  {
    var e := EncodeChar(c);
    var bs := e + rest;
    var v := c as int;
    if v < 0x80 {
      assert bs[1..] == rest;
    } else {
      var n := |e| - 1;
      assert bs[..|e|] == e;
      ContinuationsAccepted(c);
      assert Needed(bs[0]) == n;
      assert Run(bs, n) == n;
      assert Scalar(bs, n) == v by {
        ScalarOfEncoding(c, bs);
      }
      assert bs[1 + n..] == rest;
    }
  }

  /** The bytes `EncodeChar` writes after the lead are all acceptable to the decoder. */
  lemma ContinuationsAccepted(c: char)
    requires c as int >= 0x80
    ensures Needed(EncodeChar(c)[0]) == |EncodeChar(c)| - 1
    ensures Continues(EncodeChar(c), |EncodeChar(c)| - 1)
  {
    var n := c as int;
    if n < 0x800 {
      assert 2 <= n / 64 < 32;
    } else if n < 0x10000 {
      assert n / 4096 < 16;
      if n / 4096 == 0 {
        assert (n / 64) % 64 >= 32;
      }
      if n / 4096 == 13 {
        assert n < 0xD800;
        assert (n / 64) % 64 < 32;
      }
    } else {
      assert n / 262144 <= 4;
      if n / 262144 == 0 {
        assert 16 <= n / 4096 < 64;
      }
      if n / 262144 == 4 {
        assert (n / 4096) % 64 < 16;
      }
    }
  }

  /** The decoder's arithmetic undoes the encoder's. */
  lemma ScalarOfEncoding(c: char, bs: seq<byte>)
    requires c as int >= 0x80
    requires |bs| >= |EncodeChar(c)| && bs[..|EncodeChar(c)|] == EncodeChar(c)
    ensures Scalar(bs, |EncodeChar(c)| - 1) == c as int
  {
    var n := c as int;
    if n < 0x800 {
      ScalarOfTwo(n, bs);
    } else if n < 0x10000 {
      ScalarOfThree(n, bs);
    } else {
      ScalarOfFour(n, bs);
    }
  }

  lemma ScalarOfTwo(n: int, bs: seq<byte>)
    requires 0x80 <= n < 0x800 && |bs| >= 2
    requires bs[0] as int == 0xC0 + n / 64 && bs[1] as int == 0x80 + n % 64
    ensures Scalar(bs, 1) == n
  {
    assert n == (n / 64) * 64 + n % 64;
  }

  lemma ScalarOfThree(n: int, bs: seq<byte>)
    requires 0x800 <= n < 0x10000 && |bs| >= 3
    requires bs[0] as int == 0xE0 + n / 4096 && bs[1] as int == 0x80 + (n / 64) % 64
    requires bs[2] as int == 0x80 + n % 64
    ensures Scalar(bs, 2) == n
  {
    assert n == (n / 4096) * 4096 + ((n / 64) % 64) * 64 + n % 64;
  }

  lemma ScalarOfFour(n: int, bs: seq<byte>)
    requires 0x10000 <= n < 0x110000 && |bs| >= 4
    requires bs[0] as int == 0xF0 + n / 262144 && bs[1] as int == 0x80 + (n / 4096) % 64
    requires bs[2] as int == 0x80 + (n / 64) % 64 && bs[3] as int == 0x80 + n % 64
    ensures Scalar(bs, 3) == n
  {
    assert n == (n / 262144) * 262144 + ((n / 4096) % 64) * 4096 + ((n / 64) % 64) * 64 + n % 64;
  }

  /** Decoding an encoding gives back the string: the round trip of a session token's text. */
  lemma {:induction false} DecodeEncode(s: string)
    ensures Decode(Encode(s)) == s
  {
    if s != [] {
      DecodeEncodeChar(s[0], Encode(s[1..]));
      DecodeEncode(s[1..]);
    }
  }

  /** ASCII characters encode to their own code, one byte each. */
  lemma EncodeAscii(c: char)
    requires c as int < 0x80
    ensures EncodeChar(c) == [c as int as byte]
  {
  }

  /** Encoding distributes over concatenation. */
  lemma {:induction false} EncodeConcat(a: string, b: string)
    ensures Encode(a + b) == Encode(a) + Encode(b)
  {
    if a != [] {
      assert (a + b)[1..] == a[1..] + b;
      EncodeConcat(a[1..], b);
    } else {
      assert a + b == b;
    }
  }
}
