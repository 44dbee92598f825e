/** Unpadded base64url (section 5 of RFC 4648), read as leniently as Node's Buffer reads it. */
module Base64Url {
  import opened BigEndian

  predicate InAlphabet(c: char) { 'A' <= c <= 'Z' || 'a' <= c <= 'z' || '0' <= c <= '9' || c == '_' || c == '-' }

  predicate IsText(s: string) { forall c | c in s :: InAlphabet(c) }

  function Digit(v: int): (c: char)
    requires 0 <= v < 64
    ensures InAlphabet(c)
  {
    if v < 26 then 'A' + v as char
    else if v < 52 then 'a' + (v - 26) as char
    else if v < 62 then '0' + (v - 52) as char
    else if v == 62 then '-' else '_'
  }

  function Value(c: char): (v: int)
    requires InAlphabet(c)
    ensures 0 <= v < 64
  {
    if 'A' <= c <= 'Z' then (c - 'A') as int
    else if 'a' <= c <= 'z' then (c - 'a') as int + 26
    else if '0' <= c <= '9' then (c - '0') as int + 52
    else if c == '-' then 62 else 63
  }

  lemma {:induction false} DigitValue(v: int)
    requires 0 <= v < 64
    ensures Value(Digit(v)) == v
  {
  }

  /** The digits are the capital letters, the small letters, the decimal digits, the hyphen and the underscore. */
  lemma {:induction false} Alphabet(v: int)
    requires 0 <= v < 64
    ensures Digit(0) == 'A' && Digit(26) == 'a' && Digit(52) == '0' && Digit(62) == '-' && Digit(63) == '_'
    ensures v !in {25, 51, 61, 62, 63} ==> Digit(v + 1) as int == Digit(v) as int + 1
  {
  }

  /** The digits of one, two and three bytes. */
  function Double(b0: byte): (s: string)
    ensures |s| == 2 && IsText(s)
  {
    [Digit(b0 / 4), Digit(b0 % 4 * 16)]
  }

  function Triple(b0: byte, b1: byte): (s: string)
    ensures |s| == 3 && IsText(s)
  {
    [Digit(b0 / 4), Digit(b0 % 4 * 16 + b1 / 16), Digit(b1 % 16 * 4)]
  }

  function Quad(b0: byte, b1: byte, b2: byte): (s: string)
    ensures |s| == 4 && IsText(s)
  {
    [Digit(b0 / 4), Digit(b0 % 4 * 16 + b1 / 16), Digit(b1 % 16 * 4 + b2 / 64), Digit(b2 % 64)]
  }

  function Encode(bs: seq<byte>): (s: string)
    ensures IsText(s)
    ensures |s| == (4 * |bs| + 2) / 3
  {
    if bs == [] then ""
    else if |bs| == 1 then Double(bs[0])
    else if |bs| == 2 then Triple(bs[0], bs[1])
    else Quad(bs[0], bs[1], bs[2]) + Encode(bs[3..])
  }

  /** A lone last character and the unused bits of the last one are ignored. */
  function Decode(s: string): (bs: seq<byte>)
    requires IsText(s)
    ensures |bs| == 3 * |s| / 4
  {
    if |s| < 2 then []
    else
      var b0 := Value(s[0]) * 4 + Value(s[1]) / 16;
      if |s| == 2 then [b0]
      else
        var b1 := Value(s[1]) % 16 * 16 + Value(s[2]) / 4;
        if |s| == 3 then [b0, b1]
        else
          var b2 := Value(s[2]) % 4 * 64 + Value(s[3]);
          [b0, b1, b2] + Decode(s[4..])
  }

  /** The three bytes of four digits' values. */
  function Bytes(v0: int, v1: int, v2: int, v3: int): (int, int, int) {
    (v0 * 4 + v1 / 16, v1 % 16 * 16 + v2 / 4, v2 % 4 * 64 + v3)
  }

  lemma {:induction false} Place(high: int, low16: int, low4: int)
    requires 0 <= low16 < 16 && 0 <= low4 < 4
    ensures (high * 16 + low16) / 16 == high && (high * 16 + low16) % 16 == low16
    ensures (high * 4 + low4) / 4 == high && (high * 4 + low4) % 4 == low4
  {
  }

  lemma {:induction false} Regroup(b0: byte, b1: byte, b2: byte)
    ensures Bytes(b0 / 4, b0 % 4 * 16 + b1 / 16, b1 % 16 * 4 + b2 / 64, b2 % 64) == (b0, b1, b2)
  {
    Place(b0 % 4, b1 / 16, 0);
    Place(b1 % 16, 0, b2 / 64);
  }

  lemma {:induction false} DecodeShort(s: string)
    requires IsText(s)
    ensures |s| == 2 ==> Decode(s) == [Bytes(Value(s[0]), Value(s[1]), 0, 0).0]
    ensures |s| == 3 ==> Decode(s) == [Bytes(Value(s[0]), Value(s[1]), Value(s[2]), 0).0,
                                       Bytes(Value(s[0]), Value(s[1]), Value(s[2]), 0).1]
  {
    hide Value;
  }

  lemma {:induction false} DecodeLong(s: string)
    requires IsText(s) && |s| >= 4
    ensures IsText(s[4..])
    ensures var b := Bytes(Value(s[0]), Value(s[1]), Value(s[2]), Value(s[3]));
            Decode(s)[0] == b.0 && Decode(s)[1] == b.1 && Decode(s)[2] == b.2 && Decode(s)[3..] == Decode(s[4..])
  {
    hide Value;
  }

  lemma {:induction false} DecodeDouble(b0: byte)
    ensures Decode(Double(b0)) == [b0]
  {
    hide Digit, Value, Decode, Bytes;
    DecodeShort(Double(b0));
    Regroup(b0, 0, 0);
    DigitValue(b0 / 4);
    DigitValue(b0 % 4 * 16);
  }

  lemma {:induction false} DecodeTriple(b0: byte, b1: byte)
    ensures Decode(Triple(b0, b1)) == [b0, b1]
  {
    hide Digit, Value, Decode, Bytes;
    DecodeShort(Triple(b0, b1));
    Regroup(b0, b1, 0);
    DigitValue(b0 / 4);
    DigitValue(b0 % 4 * 16 + b1 / 16);
    DigitValue(b1 % 16 * 4);
  }

  lemma {:induction false} QuadValues(b0: byte, b1: byte, b2: byte)
    ensures var q := Quad(b0, b1, b2); Bytes(Value(q[0]), Value(q[1]), Value(q[2]), Value(q[3])) == (b0, b1, b2)
  {
    hide Digit, Value, Bytes;
    Regroup(b0, b1, b2);
    DigitValue(b0 / 4);
    DigitValue(b0 % 4 * 16 + b1 / 16);
    DigitValue(b1 % 16 * 4 + b2 / 64);
    DigitValue(b2 % 64);
  }

  lemma {:induction false} DecodeQuad(b0: byte, b1: byte, b2: byte, rest: string)
    requires IsText(rest)
    ensures IsText(Quad(b0, b1, b2) + rest) && Decode(Quad(b0, b1, b2) + rest) == [b0, b1, b2] + Decode(rest)
  {
    hide Quad, Value, Decode, Bytes;
    var s := Quad(b0, b1, b2) + rest;
    QuadValues(b0, b1, b2);
    assert s[4..] == rest;
    DecodeLong(s);
    var all := Decode(s);
    assert all == [all[0], all[1], all[2]] + all[3..];
  }

  /** Four digits are the number three bytes are, the first digit and byte the most significant ones. */
  lemma {:induction false} QuadIsNumber(b0: byte, b1: byte, b2: byte)
    ensures var q := Quad(b0, b1, b2);
            ((Value(q[0]) * 64 + Value(q[1])) * 64 + Value(q[2])) * 64 + Value(q[3]) == (b0 * 256 + b1) * 256 + b2
  {
    hide Digit, Value;
    DigitValue(b0 / 4);
    DigitValue(b0 % 4 * 16 + b1 / 16);
    DigitValue(b1 % 16 * 4 + b2 / 64);
    DigitValue(b2 % 64);
  }

  /** Decoding undoes encoding. */
  lemma {:induction false} RoundTrip(bs: seq<byte>)
    ensures Decode(Encode(bs)) == bs
  {
    hide Double, Triple, Quad;
    if |bs| == 1 {
      DecodeDouble(bs[0]);
      hide Decode;
    } else if |bs| == 2 {
      DecodeTriple(bs[0], bs[1]);
      hide Decode;
    } else if |bs| > 2 {
      hide Decode;
      RoundTrip(bs[3..]);
      DecodeQuad(bs[0], bs[1], bs[2], Encode(bs[3..]));
      assert bs == [bs[0], bs[1], bs[2]] + bs[3..];
    }
  }

  /** Different bytes never share an encoding. */
  lemma {:induction false} Injective(a: seq<byte>, b: seq<byte>)
    requires Encode(a) == Encode(b)
    ensures a == b
  {
    RoundTrip(a);
    RoundTrip(b);
  }
}
