/** Base64 as the session token uses it: `Buffer.toString("base64")` writes the padded
    alphabet of section 4 of RFC 4648, and `Buffer.from(text, "base64")` reads leniently, the
    way Node's decoder does: it looks at the low byte of each UTF-16 code unit, accepts both
    the standard and the URL-safe alphabet, skips every other character, stops at the first
    `=`, and turns a trailing group of two or three characters into one or two bytes. */
module Base64 {
  import opened Wrappers
  import opened Utf8

  /** A 6-bit value: what one base64 character stands for. */
  newtype sextet = v: int | 0 <= v < 64

  /** The character for a 6-bit value. */
  function SextetChar(v: sextet): (c: char)
    ensures c as int < 0x80 && c != '='
  {
    if v < 26 then ('A' as int + v as int) as char
    else if v < 52 then ('a' as int + (v as int - 26)) as char
    else if v < 62 then ('0' as int + (v as int - 52)) as char
    else if v == 62 then '+'
    else '/'
  }

  /** The 6-bit value of a byte, if the decoder accepts it as an alphabet character. */
  function SextetValue(b: int): Option<sextet> {
    if 'A' as int <= b <= 'Z' as int then Some((b - 'A' as int) as sextet)
    else if 'a' as int <= b <= 'z' as int then Some((b - 'a' as int + 26) as sextet)
    else if '0' as int <= b <= '9' as int then Some((b - '0' as int + 52) as sextet)
    else if b == '+' as int || b == '-' as int then Some(62)
    else if b == '/' as int || b == '_' as int then Some(63)
    else None
  }

  /** The four 6-bit values of a group of three bytes; a short final group is filled with
      zero bits, as section 4 of RFC 4648 prescribes. */
  function S0(b0: byte): sextet { (b0 as int / 4) as sextet }
  function S1(b0: byte, b1: byte): sextet { ((b0 as int % 4) * 16 + b1 as int / 16) as sextet }
  function S2(b1: byte, b2: byte): sextet { ((b1 as int % 16) * 4 + b2 as int / 64) as sextet }
  function S3(b2: byte): sextet { (b2 as int % 64) as sextet }

  /** `buffer.toString("base64")`: groups of three bytes, the last group padded with `=`. */
  function Encode(bs: seq<byte>): (s: string)
    ensures |s| == 4 * ((|bs| + 2) / 3)
  {
    if |bs| == 0 then ""
    else if |bs| == 1 then [SextetChar(S0(bs[0])), SextetChar(S1(bs[0], 0)), '=', '=']
    else if |bs| == 2 then
      [SextetChar(S0(bs[0])), SextetChar(S1(bs[0], bs[1])), SextetChar(S2(bs[1], 0)), '=']
    else
      [SextetChar(S0(bs[0])), SextetChar(S1(bs[0], bs[1])), SextetChar(S2(bs[1], bs[2])),
       SextetChar(S3(bs[2]))] + Encode(bs[3..])
  }

  /** The low byte of each UTF-16 code unit of `s`, the only part the decoder looks at. */
  function LowBytes(s: string): seq<int> {
    if s == [] then []
    else
      var c := s[0] as int;
      var head := if c < 0x10000 then [c % 256]
                  else [(0xD800 + (c - 0x10000) / 1024) % 256, (0xDC00 + (c - 0x10000) % 1024) % 256];
      head + LowBytes(s[1..])
  }

  /** The values of the accepted characters, up to the first `=`. */
  function Sextets(units: seq<int>): seq<sextet> {
    if units == [] || units[0] == '=' as int then []
    else
      match SextetValue(units[0])
      case Some(v) => [v] + Sextets(units[1..])
      case None => Sextets(units[1..])
  }

  /** Bytes from 6-bit values: four values give three bytes; a trailing three give two, a
      trailing two give one, and a trailing single value gives nothing. */
  function FromSextets(vs: seq<sextet>): seq<byte> {
    if |vs| < 2 then []
    else
      var first := (vs[0] as int * 4 + vs[1] as int / 16) as byte;
      if |vs| == 2 then [first]
      else
        var second := ((vs[1] as int % 16) * 16 + vs[2] as int / 4) as byte;
        if |vs| == 3 then [first, second]
        else [first, second, ((vs[2] as int % 4) * 64 + vs[3] as int) as byte] + FromSextets(vs[4..])
  }

  /** `Buffer.from(s, "base64")`. */
  function Decode(s: string): seq<byte> {
    FromSextets(Sextets(LowBytes(s)))
  }

  lemma {:induction false} LowBytesConcat(a: string, b: string)
    ensures LowBytes(a + b) == LowBytes(a) + LowBytes(b)
  {
    if a == [] {
      assert a + b == b;
    } else {
      assert (a + b)[1..] == a[1..] + b;
      LowBytesConcat(a[1..], b);
    }
  }

  /** An ASCII string's low bytes are its character codes. */
  lemma {:induction false} LowBytesAscii(s: string)
    requires forall i :: 0 <= i < |s| ==> s[i] as int < 0x80
    ensures |LowBytes(s)| == |s|
    ensures forall i :: 0 <= i < |s| ==> LowBytes(s)[i] == s[i] as int
  {
    if s != [] {
      LowBytesAscii(s[1..]);
    }
  }

  /** The decoder reads back the value of every character the encoder writes. */
  lemma SextetCharValue(v: sextet)
    ensures SextetValue(SextetChar(v) as int) == Some(v)
  {
  }

  /** One accepted character in front of more units reads as its value. */
  lemma SextetsCons(v: sextet, rest: seq<int>)
    ensures Sextets([SextetChar(v) as int] + rest) == [v] + Sextets(rest)
  {
    SextetCharValue(v);
    assert ([SextetChar(v) as int] + rest)[1..] == rest;
  }

  /** Decoding stops at `=`. */
  lemma SextetsPad(rest: seq<int>)
    ensures Sextets(['=' as int] + rest) == []
  {
  }

  /** Four encoder characters in front of more text read as their four values. */
  lemma SextetsOfQuad(v0: sextet, v1: sextet, v2: sextet, v3: sextet, rest: string)
    ensures Sextets(LowBytes([SextetChar(v0), SextetChar(v1), SextetChar(v2), SextetChar(v3)] + rest))
         == [v0, v1, v2, v3] + Sextets(LowBytes(rest))
  {
    var l := LowBytes(rest);
    var c0, c1, c2, c3 := SextetChar(v0) as int, SextetChar(v1) as int, SextetChar(v2) as int, SextetChar(v3) as int;
    QuadLowBytes(v0, v1, v2, v3, rest);
    SextetsCons(v3, l);
    SextetsCons(v2, [c3] + l);
    SextetsCons(v1, [c2] + ([c3] + l));
    SextetsCons(v0, [c1] + ([c2] + ([c3] + l)));
  }

  /** Four encoder characters in front of more text have their codes as low bytes. */
  lemma QuadLowBytes(v0: sextet, v1: sextet, v2: sextet, v3: sextet, rest: string)
    ensures LowBytes([SextetChar(v0), SextetChar(v1), SextetChar(v2), SextetChar(v3)] + rest)
         == [SextetChar(v0) as int] + ([SextetChar(v1) as int] + ([SextetChar(v2) as int]
            + ([SextetChar(v3) as int] + LowBytes(rest))))
  {
    var q := [SextetChar(v0), SextetChar(v1), SextetChar(v2), SextetChar(v3)];
    LowBytesConcat(q, rest);
    LowBytesAscii(q);
  }

  /** The decoder's bit arithmetic undoes the encoder's, byte by byte. */
  lemma GroupArithmetic(b0: byte, b1: byte, b2: byte)
    ensures S0(b0) as int * 4 + S1(b0, b1) as int / 16 == b0 as int
    ensures (S1(b0, b1) as int % 16) * 16 + S2(b1, b2) as int / 4 == b1 as int
    ensures (S2(b1, b2) as int % 4) * 64 + S3(b2) as int == b2 as int
  {
  }

  /** The values read back from a padded group of one byte. */
  lemma SextetsOfOne(b0: byte)
    ensures Sextets(LowBytes(Encode([b0]))) == [S0(b0), S1(b0, 0)]
  {
    var v0, v1 := S0(b0), S1(b0, 0);
    var s := Encode([b0]);
    var c1 := SextetChar(v1) as int;
    LowBytesAscii(s);
    assert LowBytes(s) == [SextetChar(v0) as int] + ([c1] + ['=' as int, '=' as int]);
    SextetsPad(['=' as int]);
    SextetsCons(v1, ['=' as int, '=' as int]);
    SextetsCons(v0, [c1] + ['=' as int, '=' as int]);
  }

  /** The values read back from a padded group of two bytes. */
  lemma SextetsOfTwo(b0: byte, b1: byte)
    ensures Sextets(LowBytes(Encode([b0, b1]))) == [S0(b0), S1(b0, b1), S2(b1, 0)]
  {
    var v0, v1, v2 := S0(b0), S1(b0, b1), S2(b1, 0);
    var s := Encode([b0, b1]);
    var c1, c2 := SextetChar(v1) as int, SextetChar(v2) as int;
    LowBytesAscii(s);
    assert LowBytes(s) == [SextetChar(v0) as int] + ([c1] + ([c2] + ['=' as int]));
    SextetsPad([]);
    SextetsCons(v2, ['=' as int]);
    SextetsCons(v1, [c2] + ['=' as int]);
    SextetsCons(v0, [c1] + ([c2] + ['=' as int]));
  }

  /** A trailing pair of values gives one byte, a trailing triple two. */
  lemma FromSextetsTail(b0: byte, b1: byte)
    ensures FromSextets([S0(b0), S1(b0, 0)]) == [b0]
    ensures FromSextets([S0(b0), S1(b0, b1), S2(b1, 0)]) == [b0, b1]
  {
    GroupArithmetic(b0, 0, 0);
    GroupArithmetic(b0, b1, 0);
  }

  /** A full group of values gives its three bytes, then the rest. */
  lemma FromSextetsGroup(b0: byte, b1: byte, b2: byte, rest: seq<sextet>)
    ensures FromSextets([S0(b0), S1(b0, b1), S2(b1, b2), S3(b2)] + rest) == [b0, b1, b2] + FromSextets(rest)
  {
    var vs := [S0(b0), S1(b0, b1), S2(b1, b2), S3(b2)] + rest;
    assert vs[0] == S0(b0) && vs[1] == S1(b0, b1) && vs[2] == S2(b1, b2) && vs[3] == S3(b2);
    assert vs[4..] == rest;
    GroupArithmetic(b0, b1, b2);
    FromSextetsUnfold(vs);
  }

  /** Four or more values: the first four give three bytes, then the rest is decoded. */
  lemma FromSextetsUnfold(vs: seq<sextet>)
    requires |vs| >= 4
    ensures FromSextets(vs)
         == [(vs[0] as int * 4 + vs[1] as int / 16) as byte,
             ((vs[1] as int % 16) * 16 + vs[2] as int / 4) as byte,
             ((vs[2] as int % 4) * 64 + vs[3] as int) as byte] + FromSextets(vs[4..])
  {
  }

  /** Decoding what the encoder wrote gives back the bytes. */
  lemma {:induction false} DecodeEncode(bs: seq<byte>)
    ensures Decode(Encode(bs)) == bs
  {
    if |bs| == 1 {
      SextetsOfOne(bs[0]);
      FromSextetsTail(bs[0], 0);
      assert bs == [bs[0]];
    } else if |bs| == 2 {
      SextetsOfTwo(bs[0], bs[1]);
      FromSextetsTail(bs[0], bs[1]);
      assert bs == [bs[0], bs[1]];
    } else if |bs| >= 3 {
      var rest := Encode(bs[3..]);
      SextetsOfQuad(S0(bs[0]), S1(bs[0], bs[1]), S2(bs[1], bs[2]), S3(bs[2]), rest);
      FromSextetsGroup(bs[0], bs[1], bs[2], Sextets(LowBytes(rest)));
      DecodeEncode(bs[3..]);
      assert bs == [bs[0], bs[1], bs[2]] + bs[3..];
    }
  }

  /** The encoder writes only alphabet characters and `=` padding. */
  lemma {:induction false} EncodeAlphabet(bs: seq<byte>)
    ensures forall i :: 0 <= i < |Encode(bs)| ==>
              Encode(bs)[i] == '=' || SextetValue(Encode(bs)[i] as int).Some?
  {
    if |bs| >= 3 {
      EncodeAlphabet(bs[3..]);
      var q := [SextetChar(S0(bs[0])), SextetChar(S1(bs[0], bs[1])), SextetChar(S2(bs[1], bs[2])),
                SextetChar(S3(bs[2]))];
      var rest := Encode(bs[3..]);
      forall i | 0 <= i < |q + rest|
        ensures (q + rest)[i] == '=' || SextetValue((q + rest)[i] as int).Some?
      {
        if i >= 4 {
          assert (q + rest)[i] == rest[i - 4];
        }
      }
    }
  }
}
