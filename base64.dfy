/** Standard base64 with '=' padding (section 4 of RFC 4648), as produced by
    Python's `base64.b64encode(...).decode('utf-8')`. `Decode` is a strict
    inverse used to state that encoding loses nothing: it accepts only the
    alphabet, whole quanta, padding in the last quantum, and zero bits where
    that padding leaves some of a character unused. */
module Base64 {
  import opened Wrappers

  type Byte = x: int | 0 <= x < 256

  /** The alphabet of section 4 of RFC 4648, written by ranges. */
  function IndexToChar(i: int): (c: char)
    requires 0 <= i < 64
  {
    if i < 26 then ('A' as int + i) as char
    else if i < 52 then ('a' as int + (i - 26)) as char
    else if i < 62 then ('0' as int + (i - 52)) as char
    else if i == 62 then '+'
    else '/'
  }

  predicate IsAlphabetChar(c: char) {
    ('A' <= c <= 'Z') || ('a' <= c <= 'z') || ('0' <= c <= '9') || c == '+' || c == '/'
  }

  function CharToIndex(c: char): (i: int)
    requires IsAlphabetChar(c)
  {
    if 'A' <= c <= 'Z' then c as int - 'A' as int
    else if 'a' <= c <= 'z' then c as int - 'a' as int + 26
    else if '0' <= c <= '9' then c as int - '0' as int + 52
    else if c == '+' then 62
    else 63
  }

  lemma CharIndexRoundTrip(i: int)
    requires 0 <= i < 64
    ensures IsAlphabetChar(IndexToChar(i)) && CharToIndex(IndexToChar(i)) == i
  {
  }

  /** Three bytes become four alphabet characters. */
  function EncodeBlock(b0: Byte, b1: Byte, b2: Byte): string {
    [IndexToChar(b0 / 4), IndexToChar((b0 % 4) * 16 + b1 / 16),
     IndexToChar((b1 % 16) * 4 + b2 / 64), IndexToChar(b2 % 64)]
  }

  function Encode(b: seq<Byte>): (s: string)
    decreases |b|
  {
    if |b| == 0 then ""
    else if |b| == 1 then
      [IndexToChar(b[0] / 4), IndexToChar((b[0] % 4) * 16), '=', '=']
    else if |b| == 2 then
      [IndexToChar(b[0] / 4), IndexToChar((b[0] % 4) * 16 + b[1] / 16),
       IndexToChar((b[1] % 16) * 4), '=']
    else EncodeBlock(b[0], b[1], b[2]) + Encode(b[3..])
  }

  /** Four alphabet characters back to three bytes. */
  function DecodeBlock(q: string): (r: seq<Byte>)
    requires |q| == 4 && forall k :: 0 <= k < 4 ==> IsAlphabetChar(q[k])
  {
    var c0, c1, c2, c3 := CharToIndex(q[0]), CharToIndex(q[1]), CharToIndex(q[2]), CharToIndex(q[3]);
    [c0 * 4 + c1 / 16, (c1 % 16) * 16 + c2 / 4, (c2 % 4) * 64 + c3]
  }

  /** The last quantum: four alphabet characters, or two or three followed by
      padding whose unused low bits are zero. */
  function DecodeLast(q: string): (r: Option<seq<Byte>>)
    requires |q| == 4
  {
    if forall k :: 0 <= k < 4 ==> IsAlphabetChar(q[k]) then Some(DecodeBlock(q))
    else if IsAlphabetChar(q[0]) && IsAlphabetChar(q[1]) && q[2] == '=' && q[3] == '='
            && CharToIndex(q[1]) % 16 == 0 then
      var c0, c1 := CharToIndex(q[0]), CharToIndex(q[1]);
      Some([c0 * 4 + c1 / 16])
    else if IsAlphabetChar(q[0]) && IsAlphabetChar(q[1]) && IsAlphabetChar(q[2]) && q[3] == '='
            && CharToIndex(q[2]) % 4 == 0 then
      var c0, c1, c2 := CharToIndex(q[0]), CharToIndex(q[1]), CharToIndex(q[2]);
      Some([c0 * 4 + c1 / 16, (c1 % 16) * 16 + c2 / 4])
    else None
  }

  function Decode(s: string): (r: Option<seq<Byte>>)
    decreases |s|
  {
    if |s| == 0 then Some([])
    else if |s| < 4 then None
    else if |s| == 4 then DecodeLast(s)
    else if forall k :: 0 <= k < 4 ==> IsAlphabetChar(s[k]) then
      match Decode(s[4..])
      case None => None
      case Some(rest) => Some(DecodeBlock(s[..4]) + rest)
    else None
  }

  /** The bit regrouping of one full quantum, undone. */
  lemma BlockArith(b0: Byte, b1: Byte, b2: Byte)
    ensures var c1, c2 := (b0 % 4) * 16 + b1 / 16, (b1 % 16) * 4 + b2 / 64;
            (b0 / 4) * 4 + c1 / 16 == b0 && (c1 % 16) * 16 + c2 / 4 == b1 && (c2 % 4) * 64 + b2 % 64 == b2
  {
    var c1, c2 := (b0 % 4) * 16 + b1 / 16, (b1 % 16) * 4 + b2 / 64;
    assert c1 / 16 == b0 % 4 && c1 % 16 == b1 / 16;
    assert c2 / 4 == b1 % 16 && c2 % 4 == b2 / 64;
  }

  lemma BlockRoundTrip(b0: Byte, b1: Byte, b2: Byte)
    ensures var q := EncodeBlock(b0, b1, b2);
            (forall k :: 0 <= k < 4 ==> IsAlphabetChar(q[k])) && DecodeBlock(q) == [b0, b1, b2]
  {
    var i0, i1, i2, i3 := b0 / 4, (b0 % 4) * 16 + b1 / 16, (b1 % 16) * 4 + b2 / 64, b2 % 64;
    CharIndexRoundTrip(i0);
    CharIndexRoundTrip(i1);
    CharIndexRoundTrip(i2);
    CharIndexRoundTrip(i3);
    BlockArith(b0, b1, b2);
    var q := EncodeBlock(b0, b1, b2);
    assert q == [IndexToChar(i0), IndexToChar(i1), IndexToChar(i2), IndexToChar(i3)];
    assert DecodeBlock(q) == [i0 * 4 + i1 / 16, (i1 % 16) * 16 + i2 / 4, (i2 % 4) * 64 + i3];
  }

  lemma OneByteArith(b0: Byte)
    ensures (b0 / 4) * 4 + ((b0 % 4) * 16) / 16 == b0
  {
  }

  lemma TwoByteArith(b0: Byte, b1: Byte)
    ensures var c1 := (b0 % 4) * 16 + b1 / 16;
            (b0 / 4) * 4 + c1 / 16 == b0 && (c1 % 16) * 16 + ((b1 % 16) * 4) / 4 == b1
  {
  }

  /** Decoding a quantum of two characters and "==". */
  lemma DecodeLastOne(s: string, i0: int, i1: int)
    requires 0 <= i0 < 64 && 0 <= i1 < 64 && i1 % 16 == 0
    requires s == [IndexToChar(i0), IndexToChar(i1), '=', '=']
    ensures DecodeLast(s) == Some([i0 * 4 + i1 / 16])
  {
    CharIndexRoundTrip(i0);
    CharIndexRoundTrip(i1);
    assert !IsAlphabetChar(s[3]);
  }

  /** Decoding a quantum of three characters and "=". */
  lemma DecodeLastTwo(s: string, i0: int, i1: int, i2: int)
    requires 0 <= i0 < 64 && 0 <= i1 < 64 && 0 <= i2 < 64 && i2 % 4 == 0
    requires s == [IndexToChar(i0), IndexToChar(i1), IndexToChar(i2), '=']
    ensures DecodeLast(s) == Some([i0 * 4 + i1 / 16, (i1 % 16) * 16 + i2 / 4])
  {
    CharIndexRoundTrip(i0);
    CharIndexRoundTrip(i1);
    CharIndexRoundTrip(i2);
    assert !IsAlphabetChar(s[3]);
  }

  /** The final quantum for one leftover byte. */
  lemma DecodeEncodeOne(b: seq<Byte>)
    requires |b| == 1
    ensures Decode(Encode(b)) == Some(b)
  {
    var i0, i1 := b[0] / 4, (b[0] % 4) * 16;
    OneByteArith(b[0]);
    var s := Encode(b);
    assert s == [IndexToChar(i0), IndexToChar(i1), '=', '='];
    DecodeLastOne(s, i0, i1);
    assert |s| == 4 && Decode(s) == DecodeLast(s);
    assert [i0 * 4 + i1 / 16] == b;
  }

  /** The final quantum for two leftover bytes. */
  lemma DecodeEncodeTwo(b: seq<Byte>)
    requires |b| == 2
    ensures Decode(Encode(b)) == Some(b)
  {
    var b0, b1 := b[0], b[1];
    var i0, i1, i2 := b0 / 4, (b0 % 4) * 16 + b1 / 16, (b1 % 16) * 4;
    var s := Encode(b);
    assert s == [IndexToChar(i0), IndexToChar(i1), IndexToChar(i2), '='];
    DecodeLastTwo(s, i0, i1, i2);
    assert |s| == 4 && Decode(s) == DecodeLast(s);
    TwoByteArith(b0, b1);
    var d0, d1 := i0 * 4 + i1 / 16, (i1 % 16) * 16 + i2 / 4;
    assert d0 == b0 && d1 == b1;
    assert [d0, d1] == b;
  }

  /** A single full quantum. */
  lemma DecodeEncodeThree(b: seq<Byte>)
    requires |b| == 3
    ensures Decode(Encode(b)) == Some(b)
  {
    var q := EncodeBlock(b[0], b[1], b[2]);
    BlockRoundTrip(b[0], b[1], b[2]);
    assert Encode(b[3..]) == "";
    assert Encode(b) == q + Encode(b[3..]) == q;
    assert |q| == 4 && Decode(q) == DecodeLast(q) == Some(DecodeBlock(q));
    assert b == [b[0], b[1], b[2]];
  }

  /** Encoding never loses information: the strict decoder recovers the input. */
  lemma {:induction false} DecodeEncode(b: seq<Byte>)
    ensures Decode(Encode(b)) == Some(b)
    decreases |b|
  {
    if |b| == 1 {
      DecodeEncodeOne(b);
    } else if |b| == 2 {
      DecodeEncodeTwo(b);
    } else if |b| == 3 {
      DecodeEncodeThree(b);
    } else if |b| > 3 {
      var q := EncodeBlock(b[0], b[1], b[2]);
      var rest := Encode(b[3..]);
      BlockRoundTrip(b[0], b[1], b[2]);
      DecodeEncode(b[3..]);
      EncodeLength(b[3..]);
      var s := Encode(b);
      assert s == q + rest;
      assert s[..4] == q && s[4..] == rest && |s| > 4;
      assert b == [b[0], b[1], b[2]] + b[3..];
    }
  }

  /** Four output characters for every started group of three input bytes:
      in particular the encoding is empty exactly when the input is. */
  lemma {:induction false} EncodeLength(b: seq<Byte>)
    ensures |Encode(b)| == 4 * ((|b| + 2) / 3)
    decreases |b|
  {
    if |b| >= 3 {
      EncodeLength(b[3..]);
    }
  }

  /** Every output character is in the alphabet or is padding. */
  lemma {:induction false} EncodeAlphabet(b: seq<Byte>)
    ensures forall k :: 0 <= k < |Encode(b)| ==> IsAlphabetChar(Encode(b)[k]) || Encode(b)[k] == '='
    decreases |b|
  {
    if |b| == 1 {
      CharIndexRoundTrip(b[0] / 4);
      CharIndexRoundTrip((b[0] % 4) * 16);
    } else if |b| == 2 {
      CharIndexRoundTrip(b[0] / 4);
      CharIndexRoundTrip((b[0] % 4) * 16 + b[1] / 16);
      CharIndexRoundTrip((b[1] % 16) * 4);
    } else if |b| >= 3 {
      BlockRoundTrip(b[0], b[1], b[2]);
      EncodeAlphabet(b[3..]);
      var q := EncodeBlock(b[0], b[1], b[2]);
      assert Encode(b) == q + Encode(b[3..]);
    }
  }

  lemma EncodeEmptyIff(b: seq<Byte>)
    ensures Encode(b) == "" <==> b == []
  {
    EncodeLength(b);
  }
}
