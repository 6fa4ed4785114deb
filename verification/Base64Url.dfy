/** Unpadded base64url, section 5 of RFC 4648. */
module Base64Url {
  import opened Wrappers

  type byte = n: nat | n < 256

  function Symbol(v: nat): char
    requires v < 64
  {
    if v < 26 then (v + 'A' as int) as char
    else if v < 52 then (v - 26 + 'a' as int) as char
    else if v < 62 then (v - 52 + '0' as int) as char
    else if v == 62 then '-'
    else '_'
  }

  function SymbolValue(c: char): (v: Option<nat>)
    ensures v.Some? ==> v.value < 64
  {
    if 'A' <= c <= 'Z' then Some(c as int - 'A' as int)
    else if 'a' <= c <= 'z' then Some(c as int - 'a' as int + 26)
    else if '0' <= c <= '9' then Some(c as int - '0' as int + 52)
    else if c == '-' then Some(62)
    else if c == '_' then Some(63)
    else None
  }

  lemma {:induction false} SymbolRoundTrip(v: nat)
    requires v < 64
    ensures SymbolValue(Symbol(v)) == Some(v)
  {
  }

  // The four six-bit groups of three bytes, and the three bytes of four groups.

  function Six0(x: byte): (v: nat)
    ensures v < 64
  {
    x / 4
  }

  function Six1(x: byte, y: byte): (v: nat)
    ensures v < 64
  {
    x % 4 * 16 + y / 16
  }

  function Six2(y: byte, z: byte): (v: nat)
    ensures v < 64
  {
    y % 16 * 4 + z / 64
  }

  function Six3(z: byte): (v: nat)
    ensures v < 64
  {
    z % 64
  }

  function Byte0(a: nat, b: nat): (x: byte)
    requires a < 64 && b < 64
  {
    a * 4 + b / 16
  }

  function Byte1(b: nat, c: nat): (x: byte)
    requires b < 64 && c < 64
  {
    b % 16 * 16 + c / 4
  }

  function Byte2(c: nat, d: nat): (x: byte)
    requires c < 64 && d < 64
  {
    c % 4 * 64 + d
  }

  lemma GroupArithmetic(x: byte, y: byte, z: byte)
    ensures Byte0(Six0(x), Six1(x, y)) == x
    ensures Byte1(Six1(x, y), Six2(y, z)) == y
    ensures Byte2(Six2(y, z), Six3(z)) == z
    ensures Six1(x, 0) % 16 == 0 && Six2(y, 0) % 4 == 0
  {
  }

  function Encode(data: seq<byte>): string {
    if |data| == 0 then ""
    else if |data| == 1 then [Symbol(Six0(data[0])), Symbol(Six1(data[0], 0))]
    else if |data| == 2 then
      [Symbol(Six0(data[0])), Symbol(Six1(data[0], data[1])), Symbol(Six2(data[1], 0))]
    else
      [Symbol(Six0(data[0])), Symbol(Six1(data[0], data[1])), Symbol(Six2(data[1], data[2])), Symbol(Six3(data[2]))]
      + Encode(data[3..])
  }

  /** Left-over bits of the last group must be zero. */
  function DecodeTail(text: string): Option<seq<byte>>
    requires |text| < 4
  {
    if |text| == 0 then Some([])
    else if |text| == 1 then None
    else
      match (SymbolValue(text[0]), SymbolValue(text[1]))
      case (Some(a), Some(b)) =>
        if |text| == 2 then (if b % 16 == 0 then Some([Byte0(a, b)]) else None)
        else
          (match SymbolValue(text[2])
           case Some(c) => if c % 4 == 0 then Some([Byte0(a, b), Byte1(b, c)]) else None
           case None => None)
      case _ => None
  }

  function Decode(text: string): Option<seq<byte>>
    decreases |text|
  {
    if |text| < 4 then DecodeTail(text)
    else
      match (SymbolValue(text[0]), SymbolValue(text[1]), SymbolValue(text[2]), SymbolValue(text[3]), Decode(text[4..]))
      case (Some(a), Some(b), Some(c), Some(d), Some(rest)) => Some([Byte0(a, b), Byte1(b, c), Byte2(c, d)] + rest)
      case _ => None
  }

  lemma {:induction false} DecodeGroup(a: nat, b: nat, c: nat, d: nat, rest: string)
    requires a < 64 && b < 64 && c < 64 && d < 64 && Decode(rest).Some?
    ensures Decode([Symbol(a), Symbol(b), Symbol(c), Symbol(d)] + rest)
            == Some([Byte0(a, b), Byte1(b, c), Byte2(c, d)] + Decode(rest).value)
  {
    hide Symbol, SymbolValue, Byte0, Byte1, Byte2;
    var text := [Symbol(a), Symbol(b), Symbol(c), Symbol(d)] + rest;
    assert text[4..] == rest;
    SymbolRoundTrip(a);
    SymbolRoundTrip(b);
    SymbolRoundTrip(c);
    SymbolRoundTrip(d);
  }

  lemma {:induction false} TailRoundTrip(data: seq<byte>)
    requires |data| < 3
    ensures Decode(Encode(data)) == Some(data)
  {
    hide Symbol, SymbolValue, Byte0, Byte1, Byte2, Six0, Six1, Six2;
    if |data| > 0 {
      var x := data[0];
      var y := if |data| > 1 then data[1] else 0;
      GroupArithmetic(x, y, 0);
      SymbolRoundTrip(Six0(x));
      SymbolRoundTrip(Six1(x, y));
      SymbolRoundTrip(Six2(y, 0));
      assert data == if |data| == 1 then [x] else [x, y];
    }
  }

  /** Decoding undoes encoding. */
  lemma {:induction false} RoundTrip(data: seq<byte>)
    ensures Decode(Encode(data)) == Some(data)
    decreases |data|
  {
    hide Symbol, SymbolValue, Byte0, Byte1, Byte2, Six0, Six1, Six2, Six3;
    if |data| < 3 {
      TailRoundTrip(data);
    } else {
      var x, y, z := data[0], data[1], data[2];
      RoundTrip(data[3..]);
      GroupArithmetic(x, y, z);
      DecodeGroup(Six0(x), Six1(x, y), Six2(y, z), Six3(z), Encode(data[3..]));
      assert data == [x, y, z] + data[3..];
    }
  }

  /** Three bytes become four symbols, rounded up without padding. */
  lemma {:induction false} EncodedLength(data: seq<byte>)
    ensures |Encode(data)| == (4 * |data| + 2) / 3
    decreases |data|
  {
    if |data| >= 3 {
      EncodedLength(data[3..]);
    }
  }

  lemma SymbolIsUnique(c: char)
    requires SymbolValue(c).Some?
    ensures Symbol(SymbolValue(c).value) == c
  {
  }

  lemma {:induction false} GroupIsUnique(a: nat, b: nat, c: nat, d: nat)
    requires a < 64 && b < 64 && c < 64 && d < 64
    ensures Six0(Byte0(a, b)) == a && Six1(Byte0(a, b), Byte1(b, c)) == b
    ensures Six2(Byte1(b, c), Byte2(c, d)) == c && Six3(Byte2(c, d)) == d
    ensures b % 16 == 0 ==> Six1(Byte0(a, b), 0) == b
    ensures c % 4 == 0 ==> Six2(Byte1(b, c), 0) == c
  {
  }

  lemma {:induction false} TailIsUnique(text: string)
    requires |text| < 4 && DecodeTail(text).Some?
    ensures Encode(DecodeTail(text).value) == text
  {
    hide Symbol, SymbolValue, Byte0, Byte1, Byte2, Six0, Six1, Six2, Six3;
    if |text| == 2 {
      var a, b := SymbolValue(text[0]).value, SymbolValue(text[1]).value;
      SymbolIsUnique(text[0]);
      SymbolIsUnique(text[1]);
      GroupIsUnique(a, b, 0, 0);
      assert DecodeTail(text).value == [Byte0(a, b)];
      assert text == [text[0], text[1]];
    } else if |text| == 3 {
      var a, b, c := SymbolValue(text[0]).value, SymbolValue(text[1]).value, SymbolValue(text[2]).value;
      SymbolIsUnique(text[0]);
      SymbolIsUnique(text[1]);
      SymbolIsUnique(text[2]);
      GroupIsUnique(a, b, c, 0);
      assert DecodeTail(text).value == [Byte0(a, b), Byte1(b, c)];
      assert text == [text[0], text[1], text[2]];
    }
  }

  /** Strictness: a text that decodes at all is the one text that encodes the result. */
  lemma {:induction false} DecodedTextIsUnique(text: string)
    requires Decode(text).Some?
    ensures Encode(Decode(text).value) == text
    decreases |text|
  {
    if |text| < 4 {
      TailIsUnique(text);
    } else {
      hide Symbol, SymbolValue, Byte0, Byte1, Byte2, Six0, Six1, Six2, Six3;
      DecodedTextIsUnique(text[4..]);
      SymbolIsUnique(text[0]);
      SymbolIsUnique(text[1]);
      SymbolIsUnique(text[2]);
      SymbolIsUnique(text[3]);
      GroupIsUnique(SymbolValue(text[0]).value, SymbolValue(text[1]).value,
                    SymbolValue(text[2]).value, SymbolValue(text[3]).value);
      var data, rest := Decode(text).value, Decode(text[4..]).value;
      assert data[3..] == rest;
      assert text == text[..4] + text[4..];
    }
  }
}
