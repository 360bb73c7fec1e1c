/** The base64 and hex decoders. Characters and bytes are 8-bit vectors, and the bit buffer of the
    base64 decoder is the 32-bit word of the program, which drops its high bits. */
module Codecs {
  import opened Common

  type Byte = bv8

  // Base64

  const INVALID: Byte := 255
  const PAD: Byte := 254
  const EQUALS: Byte := 61

  predicate IsBlank(c: Byte) {
    c == 10 || c == 13 || c == 32 || c == 9
  }

  /** The decoding table. It lists 128 entries of 256; the rest are zero. */
  function Value(c: Byte): Byte {
    if 65 <= c <= 90 then c - 65
    else if 97 <= c <= 122 then c - 71
    else if 48 <= c <= 57 then c + 4
    else if c == 43 then 62
    else if c == 47 then 63
    else if c == EQUALS then PAD
    else if c >= 128 then 0
    else INVALID
  }

  function Pushed(buffer: bv32, v: Byte): bv32 {
    (buffer << 6) | (v as bv32)
  }

  function LowByte(buffer: bv32, bits: bv32): Byte
    requires bits < 32
  {
    ((buffer >> bits) & 0xFF) as Byte
  }

  /** What the decoder still emits for `text` when its buffer holds `bits` unread bits. */
  function DecodedFrom(text: seq<Byte>, buffer: bv32, bits: bv32): Option<seq<Byte>>
    requires bits < 8
  {
    if text == [] then Some([])
    else if IsBlank(text[0]) then DecodedFrom(text[1..], buffer, bits)
    else
      var v := Value(text[0]);
      if v == INVALID then None
      else if v == PAD then Some([])
      else
        var next := Pushed(buffer, v);
        if bits + 6 >= 8 then Prepend(LowByte(next, bits - 2), DecodedFrom(text[1..], next, bits - 2))
        else DecodedFrom(text[1..], next, bits + 6)
  }

  function Prepend(b: Byte, r: Option<seq<Byte>>): Option<seq<Byte>> {
    match r
    case Some(bytes) => Some([b] + bytes)
    case None => None
  }

  method DecodeBase64(encoded: seq<Byte>) returns (r: Option<seq<Byte>>)
    ensures r == DecodedFrom(encoded, 0, 0)
  {
    var out: seq<Byte> := [];
    var buffer: bv32 := 0;
    var bits: bv32 := 0;
    assert encoded[0..] == encoded;
    JoinedNothing([], DecodedFrom(encoded, 0, 0));
    for i := 0 to |encoded|
      invariant bits < 8
      invariant DecodedFrom(encoded, 0, 0) == Joined(out, DecodedFrom(encoded[i..], buffer, bits))
    {
      var c := encoded[i];
      assert encoded[i..][1..] == encoded[i + 1..];
      if IsBlank(c) {
        continue;
      }
      var v := Value(c);
      if v == INVALID {
        return None;
      }
      if v == PAD {
        assert out + [] == out;
        break;
      }
      buffer := Pushed(buffer, v);
      bits := bits + 6;
      if bits >= 8 {
        bits := bits - 8;
        JoinedPrepend(out, LowByte(buffer, bits), DecodedFrom(encoded[i + 1..], buffer, bits));
        out := out + [LowByte(buffer, bits)];
      }
    }
    assert out + [] == out;
    r := Some(out);
  }

  lemma JoinedNothing(none: seq<Byte>, r: Option<seq<Byte>>)
    requires none == []
    ensures Joined(none, r) == r
  {
    if r.Some? {
      assert none + r.value == r.value;
    }
  }

  function Joined(out: seq<Byte>, r: Option<seq<Byte>>): Option<seq<Byte>> {
    match r
    case Some(bytes) => Some(out + bytes)
    case None => None
  }

  lemma JoinedPrepend(out: seq<Byte>, b: Byte, r: Option<seq<Byte>>)
    ensures Joined(out, Prepend(b, r)) == Joined(out + [b], r)
  {
    if r.Some? {
      assert out + ([b] + r.value) == out + [b] + r.value;
    }
  }

  // The encoding of section 4 of RFC 4648

  function Symbol(v: Byte): Byte
    requires v < 64
  {
    if v < 26 then v + 65 else if v < 52 then v + 71 else if v < 62 then v - 4 else if v == 62 then 43 else 47
  }

  function Sextet0(a: Byte): Byte { a >> 2 }

  function Sextet1(a: Byte, b: Byte): Byte { ((a & 3) << 4) | (b >> 4) }

  function Sextet2(b: Byte, c: Byte): Byte { ((b & 15) << 2) | (c >> 6) }

  function Sextet3(c: Byte): Byte { c & 63 }

  lemma SextetsFit(a: Byte, b: Byte, c: Byte)
    ensures Sextet0(a) < 64 && Sextet1(a, b) < 64 && Sextet2(b, c) < 64 && Sextet3(c) < 64
  {
  }

  function Encoded(bytes: seq<Byte>, padded: bool): seq<Byte> {
    if bytes == [] then []
    else if |bytes| == 1 then
      SextetsFit(bytes[0], 0, 0);
      [Symbol(Sextet0(bytes[0])), Symbol(Sextet1(bytes[0], 0))] + if padded then [EQUALS, EQUALS] else []
    else if |bytes| == 2 then
      SextetsFit(bytes[0], bytes[1], 0);
      [Symbol(Sextet0(bytes[0])), Symbol(Sextet1(bytes[0], bytes[1])), Symbol(Sextet2(bytes[1], 0))]
      + if padded then [EQUALS] else []
    else
      SextetsFit(bytes[0], bytes[1], bytes[2]);
      [Symbol(Sextet0(bytes[0])), Symbol(Sextet1(bytes[0], bytes[1])),
       Symbol(Sextet2(bytes[1], bytes[2])), Symbol(Sextet3(bytes[2]))]
      + Encoded(bytes[3..], padded)
  }

  /** Which characters are skipped, which end the text, and which are foreign to it: of the first
      128, all but letters, digits, plus, slash, the padding sign and the four blanks. */
  lemma AlphabetExactly(c: Byte)
    ensures IsBlank(c) <==> c == 9 || c == 10 || c == 13 || c == 32
    ensures Value(c) == PAD <==> c == 61
    ensures Foreign(c) <==>
            && c < 128 && !(65 <= c <= 90) && !(97 <= c <= 122) && !(48 <= c <= 57)
            && c != 43 && c != 47 && c != 61 && c != 9 && c != 10 && c != 13 && c != 32
  {
  }

  /** The symbols in the order of their values: A to Z, a to z, 0 to 9, plus, slash. */
  lemma SymbolsInOrder(v: Byte)
    requires v < 64
    ensures v < 26 ==> Symbol(v) == 65 + v
    ensures 26 <= v < 52 ==> Symbol(v) == 97 + (v - 26)
    ensures 52 <= v < 62 ==> Symbol(v) == 48 + (v - 52)
    ensures v == 62 ==> Symbol(v) == 43
    ensures v == 63 ==> Symbol(v) == 47
  {
  }

  lemma SymbolValue(v: Byte)
    requires v < 64
    ensures Value(Symbol(v)) == v && !IsBlank(Symbol(v))
  {
  }

  /** Whatever the buffer held before, the bytes of a group come out unchanged. */
  lemma GroupBytes(buffer: bv32, a: Byte, b: Byte, c: Byte)
    ensures var p := Pushed(Pushed(buffer, Sextet0(a)), Sextet1(a, b));
            var q := Pushed(p, Sextet2(b, c));
            LowByte(p, 4) == a && LowByte(q, 2) == b && LowByte(Pushed(q, Sextet3(c)), 0) == c
  {
  }

  lemma DecodeSymbol(v: Byte, rest: seq<Byte>, buffer: bv32, bits: bv32)
    requires v < 64 && bits < 8
    ensures DecodedFrom([Symbol(v)] + rest, buffer, bits)
         == if bits >= 2 then Prepend(LowByte(Pushed(buffer, v), bits - 2), DecodedFrom(rest, Pushed(buffer, v), bits - 2))
            else DecodedFrom(rest, Pushed(buffer, v), bits + 6)
  {
    SymbolValue(v);
    assert ([Symbol(v)] + rest)[1..] == rest;
  }

  lemma DecodeEnd(end: seq<Byte>, buffer: bv32, bits: bv32)
    requires (end == [] || end[0] == EQUALS) && bits < 8
    ensures DecodedFrom(end, buffer, bits) == Some([])
  {
  }

  /** A whole group of four symbols gives its three bytes. */
  lemma DecodeGroup(a: Byte, b: Byte, c: Byte, rest: seq<Byte>, buffer: bv32) returns (after: bv32)
    ensures Sextet0(a) < 64 && Sextet1(a, b) < 64 && Sextet2(b, c) < 64 && Sextet3(c) < 64
    ensures DecodedFrom([Symbol(Sextet0(a)), Symbol(Sextet1(a, b)), Symbol(Sextet2(b, c)), Symbol(Sextet3(c))] + rest, buffer, 0)
         == Prepend(a, Prepend(b, Prepend(c, DecodedFrom(rest, after, 0))))
  {
    hide DecodedFrom, Symbol, Pushed, LowByte, Sextet0, Sextet1, Sextet2, Sextet3;
    SextetsFit(a, b, c);
    GroupBytes(buffer, a, b, c);
    var v0, v1, v2, v3 := Sextet0(a), Sextet1(a, b), Sextet2(b, c), Sextet3(c);
    var p := Pushed(buffer, v0);
    var q := Pushed(p, v1);
    var r := Pushed(q, v2);
    after := Pushed(r, v3);
    DecodeSymbol(v0, [Symbol(v1), Symbol(v2), Symbol(v3)] + rest, buffer, 0);
    DecodeSymbol(v1, [Symbol(v2), Symbol(v3)] + rest, p, 6);
    DecodeSymbol(v2, [Symbol(v3)] + rest, q, 4);
    DecodeSymbol(v3, rest, r, 2);
    assert [Symbol(v2)] + ([Symbol(v3)] + rest) == [Symbol(v2), Symbol(v3)] + rest;
    assert [Symbol(v1)] + ([Symbol(v2), Symbol(v3)] + rest) == [Symbol(v1), Symbol(v2), Symbol(v3)] + rest;
    assert [Symbol(v0)] + ([Symbol(v1), Symbol(v2), Symbol(v3)] + rest)
        == [Symbol(v0), Symbol(v1), Symbol(v2), Symbol(v3)] + rest;
  }

  lemma DecodeTwo(a: Byte, b: Byte, end: seq<Byte>, buffer: bv32)
    requires end == [] || end[0] == EQUALS
    ensures Sextet0(a) < 64 && Sextet1(a, b) < 64 && Sextet2(b, 0) < 64
    ensures DecodedFrom([Symbol(Sextet0(a)), Symbol(Sextet1(a, b)), Symbol(Sextet2(b, 0))] + end, buffer, 0) == Some([a, b])
  {
    hide DecodedFrom, Symbol, Pushed, LowByte, Sextet0, Sextet1, Sextet2;
    SextetsFit(a, b, 0);
    GroupBytes(buffer, a, b, 0);
    var v0, v1, v2 := Sextet0(a), Sextet1(a, b), Sextet2(b, 0);
    var p := Pushed(buffer, v0);
    DecodeSymbol(v0, [Symbol(v1), Symbol(v2)] + end, buffer, 0);
    DecodeSymbol(v1, [Symbol(v2)] + end, p, 6);
    DecodeSymbol(v2, end, Pushed(p, v1), 4);
    DecodeEnd(end, Pushed(Pushed(p, v1), v2), 2);
    assert [Symbol(v1)] + ([Symbol(v2)] + end) == [Symbol(v1), Symbol(v2)] + end;
    assert [Symbol(v0)] + ([Symbol(v1), Symbol(v2)] + end) == [Symbol(v0), Symbol(v1), Symbol(v2)] + end;
    assert [b] + [] == [b] && [a] + [b] == [a, b];
  }

  lemma DecodeOne(a: Byte, end: seq<Byte>, buffer: bv32)
    requires end == [] || end[0] == EQUALS
    ensures Sextet0(a) < 64 && Sextet1(a, 0) < 64
    ensures DecodedFrom([Symbol(Sextet0(a)), Symbol(Sextet1(a, 0))] + end, buffer, 0) == Some([a])
  {
    hide DecodedFrom, Symbol, Pushed, LowByte, Sextet0, Sextet1;
    SextetsFit(a, 0, 0);
    GroupBytes(buffer, a, 0, 0);
    var v0, v1 := Sextet0(a), Sextet1(a, 0);
    DecodeSymbol(v0, [Symbol(v1)] + end, buffer, 0);
    DecodeSymbol(v1, end, Pushed(buffer, v0), 6);
    DecodeEnd(end, Pushed(Pushed(buffer, v0), v1), 4);
    assert [Symbol(v0)] + ([Symbol(v1)] + end) == [Symbol(v0), Symbol(v1)] + end;
    assert [a] + [] == [a];
  }

  lemma {:induction false} DecodeEncoded(bytes: seq<Byte>, padded: bool, buffer: bv32)
    ensures DecodedFrom(Encoded(bytes, padded), buffer, 0) == Some(bytes)
  {
    hide DecodedFrom, Symbol, Sextet0, Sextet1, Sextet2, Sextet3;
    if bytes == [] {
      DecodeEnd([], buffer, 0);
    } else if |bytes| == 1 {
      DecodeOne(bytes[0], if padded then [EQUALS, EQUALS] else [], buffer);
      assert bytes == [bytes[0]];
    } else if |bytes| == 2 {
      DecodeTwo(bytes[0], bytes[1], if padded then [EQUALS] else [], buffer);
      assert bytes == [bytes[0], bytes[1]];
    } else {
      var after := DecodeGroup(bytes[0], bytes[1], bytes[2], Encoded(bytes[3..], padded), buffer);
      DecodeEncoded(bytes[3..], padded, after);
      assert bytes == [bytes[0]] + ([bytes[1]] + ([bytes[2]] + bytes[3..]));
    }
  }

  function Stripped(text: seq<Byte>): seq<Byte> {
    if text == [] then []
    else if IsBlank(text[0]) then Stripped(text[1..])
    else [text[0]] + Stripped(text[1..])
  }

  lemma {:induction false} BlanksIgnored(text: seq<Byte>, buffer: bv32, bits: bv32)
    requires bits < 8
    ensures DecodedFrom(text, buffer, bits) == DecodedFrom(Stripped(text), buffer, bits)
  {
    hide Pushed, LowByte, Value;
    if text != [] {
      if !IsBlank(text[0]) {
        assert Stripped(text)[1..] == Stripped(text[1..]);
        var next := Pushed(buffer, Value(text[0]));
        if bits + 6 >= 8 {
          BlanksIgnored(text[1..], next, bits - 2);
        } else {
          BlanksIgnored(text[1..], next, bits + 6);
        }
      } else {
        BlanksIgnored(text[1..], buffer, bits);
      }
    }
  }

  /** Decoding inverts encoding for every byte sequence, with blanks anywhere and with or without
      padding. */
  lemma Base64RoundTrip(bytes: seq<Byte>, text: seq<Byte>, padded: bool)
    requires Stripped(text) == Encoded(bytes, padded)
    ensures DecodedFrom(text, 0, 0) == Some(bytes)
  {
    BlanksIgnored(text, 0, 0);
    DecodeEncoded(bytes, padded, 0);
  }

  /** Decoding fails exactly when a character outside the alphabet stands before the first '='. */
  lemma {:induction false} Base64FailsExactly(text: seq<Byte>, buffer: bv32, bits: bv32)
    requires bits < 8
    ensures DecodedFrom(text, buffer, bits) == None <==>
            exists i | 0 <= i < |text| :: Foreign(text[i]) && EQUALS !in text[..i]
  {
    hide Pushed, LowByte;
    if text != [] {
      var rest := text[1..];
      if !Foreign(text[0]) && text[0] != EQUALS {
        var next := if IsBlank(text[0]) then buffer else Pushed(buffer, Value(text[0]));
        var left := if IsBlank(text[0]) then bits else if bits + 6 >= 8 then bits - 2 else bits + 6;
        Base64FailsExactly(rest, next, left);
        if i :| 0 <= i < |rest| && Foreign(rest[i]) && EQUALS !in rest[..i] {
          assert text[..i + 1] == [text[0]] + rest[..i];
          assert Foreign(text[i + 1]);
        }
        if i :| 0 <= i < |text| && Foreign(text[i]) && EQUALS !in text[..i] {
          assert text[..i] == [text[0]] + rest[..i - 1];
          assert Foreign(rest[i - 1]);
        }
      } else if text[0] == EQUALS {
        assert forall i | 0 < i <= |text| :: text[..i][0] == EQUALS;
      } else {
        assert text[..0] == [];
      }
    }
  }

  predicate Foreign(c: Byte) {
    !IsBlank(c) && Value(c) == INVALID
  }

  /** Characters above 127 are not rejected: each is read as the letter A. */
  lemma {:induction false} HighBytesReadAsA(text: seq<Byte>, buffer: bv32, bits: bv32)
    requires bits < 8
    ensures DecodedFrom(text, buffer, bits) == DecodedFrom(LettersFor(text), buffer, bits)
  {
    hide Pushed, LowByte;
    if text != [] {
      assert LettersFor(text)[1..] == LettersFor(text[1..]);
      var next := Pushed(buffer, Value(text[0]));
      if IsBlank(text[0]) {
        HighBytesReadAsA(text[1..], buffer, bits);
      } else if bits + 6 >= 8 {
        HighBytesReadAsA(text[1..], next, bits - 2);
      } else {
        HighBytesReadAsA(text[1..], next, bits + 6);
      }
    }
  }

  function LettersFor(text: seq<Byte>): seq<Byte> {
    if text == [] then [] else [if text[0] >= 128 then 65 else text[0]] + LettersFor(text[1..])
  }

  // Hex

  const NOT_HEX: Byte := 255

  function Nibble(c: Byte): Byte {
    if 48 <= c <= 57 then c - 48
    else if 97 <= c <= 102 then c - 87
    else if 65 <= c <= 70 then c - 55
    else NOT_HEX
  }

  predicate IsHex(c: Byte) {
    Nibble(c) != NOT_HEX
  }

  /** The digits of both letter cases and their values. */
  lemma DigitsExactly(c: Byte)
    ensures IsHex(c) <==> 48 <= c <= 57 || 65 <= c <= 70 || 97 <= c <= 102
    ensures IsHex(c) ==> Nibble(c) == if c <= 57 then c - 48 else if c <= 70 then c - 65 + 10 else c - 97 + 10
  {
  }

  function ByteOf(hi: Byte, lo: Byte): Byte {
    (Nibble(hi) << 4) | Nibble(lo)
  }

  /** The byte each pair of digits stands for. */
  function BytesOf(hex: seq<Byte>): seq<Byte>
    requires |hex| % 2 == 0
  {
    seq(|hex| / 2, i requires 0 <= i < |hex| / 2 => ByteOf(hex[2 * i], hex[2 * i + 1]))
  }

  predicate AllHex(hex: seq<Byte>) {
    forall i | 0 <= i < |hex| :: IsHex(hex[i])
  }

  datatype HexError = BadLength | BadCharacter

  /** Two digits a byte; the length is checked before the characters. */
  method DecodeHexBytes(hex: seq<Byte>, expected: nat) returns (r: Result<seq<Byte>, HexError>)
    ensures r == Err(BadLength) <==> |hex| != expected * 2
    ensures r == Err(BadCharacter) <==> |hex| == expected * 2 && !AllHex(hex)
    ensures r.Ok? ==> r.value == BytesOf(hex)
  {
    hide ByteOf, Nibble;
    if |hex| != expected * 2 {
      return Err(BadLength);
    }
    var out := new Byte[expected](_ => 0);
    for i := 0 to expected
      invariant forall j | 0 <= j < 2 * i :: IsHex(hex[j])
      invariant forall j | 0 <= j < i :: out[j] == ByteOf(hex[2 * j], hex[2 * j + 1])
    {
      if !IsHex(hex[i * 2]) || !IsHex(hex[i * 2 + 1]) {
        return Err(BadCharacter);
      }
      out[i] := ByteOf(hex[i * 2], hex[i * 2 + 1]);
    }
    return Ok(out[..]);
  }

  /** The digest decoder takes exactly 64 characters. */
  method FromHex(hex: seq<Byte>) returns (r: Result<seq<Byte>, HexError>)
    ensures r == Err(BadLength) <==> |hex| != 64
    ensures r == Err(BadCharacter) <==> |hex| == 64 && !AllHex(hex)
    ensures r.Ok? ==> r.value == BytesOf(hex)
  {
    r := DecodeHexBytes(hex, 32);
  }

  function Digit(v: Byte): Byte
    requires v < 16
  {
    if v < 10 then v + 48 else v + 87
  }

  lemma DigitsInOrder(v: Byte)
    requires v < 16
    ensures Digit(v) == if v < 10 then 48 + v else 97 + (v - 10)
  {
  }

  lemma NibblesFit(b: Byte)
    ensures b >> 4 < 16 && b & 15 < 16
  {
  }

  function HexOf(b: Byte): seq<Byte> {
    NibblesFit(b);
    [Digit(b >> 4), Digit(b & 15)]
  }

  /** The lower-case encoding of section 8 of RFC 4648. */
  function Hex(bytes: seq<Byte>): seq<Byte> {
    if bytes == [] then [] else Hex(bytes[..|bytes| - 1]) + HexOf(bytes[|bytes| - 1])
  }

  method ToHex(digest: seq<Byte>) returns (text: seq<Byte>)
    ensures text == Hex(digest)
  {
    text := [];
    for i := 0 to |digest|
      invariant text == Hex(digest[..i])
    {
      assert digest[..i + 1][..i] == digest[..i];
      text := text + HexOf(digest[i]);
    }
    assert digest[..|digest|] == digest;
  }

  lemma {:induction false} HexDigits(bytes: seq<Byte>)
    ensures |Hex(bytes)| == 2 * |bytes|
    ensures forall i | 0 <= i < |bytes| ::
              Hex(bytes)[2 * i] == HexOf(bytes[i])[0] && Hex(bytes)[2 * i + 1] == HexOf(bytes[i])[1]
  {
    hide HexOf;
    if bytes != [] {
      HexDigits(bytes[..|bytes| - 1]);
      HexOfLength(bytes[|bytes| - 1]);
    }
  }

  lemma HexOfLength(b: Byte)
    ensures |HexOf(b)| == 2
  {
  }

  function Lower(c: Byte): Byte {
    if 65 <= c <= 90 then c + 32 else c
  }

  lemma DigitsInvert(b: Byte)
    ensures |HexOf(b)| == 2 && IsHex(HexOf(b)[0]) && IsHex(HexOf(b)[1]) && ByteOf(HexOf(b)[0], HexOf(b)[1]) == b
  {
  }

  lemma CaseIrrelevant(a: Byte, b: Byte)
    requires Lower(a) == Lower(b) && IsHex(b)
    ensures IsHex(a) && Nibble(a) == Nibble(b)
  {
  }

  /** The text is the encoding of the bytes with each letter in either case. */
  ghost predicate HexTextOf(text: seq<Byte>, bytes: seq<Byte>) {
    |text| == |Hex(bytes)| && forall j | 0 <= j < |text| :: Lower(text[j]) == Lower(Hex(bytes)[j])
  }

  lemma PairInverts(bytes: seq<Byte>, text: seq<Byte>, i: nat)
    requires HexTextOf(text, bytes) && |text| == 2 * |bytes| && i < |bytes|
    ensures IsHex(text[2 * i]) && IsHex(text[2 * i + 1]) && ByteOf(text[2 * i], text[2 * i + 1]) == bytes[i]
  {
    hide HexOf, IsHex, Lower, Nibble;
    HexDigits(bytes);
    DigitsInvert(bytes[i]);
    CaseIrrelevant(text[2 * i], Hex(bytes)[2 * i]);
    CaseIrrelevant(text[2 * i + 1], Hex(bytes)[2 * i + 1]);
  }

  /** Decoding inverts encoding, whatever the letter case of each character: the text has the
      right length and only digits, so the decoders accept it, and they return the bytes. */
  lemma HexRoundTrip(bytes: seq<Byte>, text: seq<Byte>)
    requires HexTextOf(text, bytes)
    ensures |text| == 2 * |bytes| && AllHex(text) && BytesOf(text) == bytes
  {
    hide HexOf, IsHex, Lower, Nibble, ByteOf, HexTextOf;
    HexTextLength(bytes, text);
    forall j | 0 <= j < |text| ensures IsHex(text[j]) {
      PairInverts(bytes, text, j / 2);
    }
    forall i | 0 <= i < |bytes| ensures ByteOf(text[2 * i], text[2 * i + 1]) == bytes[i] {
      PairInverts(bytes, text, i);
    }
  }

  lemma HexTextLength(bytes: seq<Byte>, text: seq<Byte>)
    requires HexTextOf(text, bytes)
    ensures |text| == 2 * |bytes|
  {
    HexDigits(bytes);
  }

  lemma ByteOfInverts(hi: Byte, lo: Byte)
    requires IsHex(hi) && IsHex(lo)
    ensures HexOf(ByteOf(hi, lo)) == [Lower(hi), Lower(lo)]
  {
  }

  /** Conversely, encoding what was decoded gives the text back in lower case. */
  lemma HexTextRoundTrip(hex: seq<Byte>)
    requires |hex| % 2 == 0 && AllHex(hex)
    ensures |Hex(BytesOf(hex))| == |hex| && forall j | 0 <= j < |hex| :: Hex(BytesOf(hex))[j] == Lower(hex[j])
  {
    hide IsHex, ByteOf, Lower, HexOf;
    HexDigits(BytesOf(hex));
    forall j | 0 <= j < |hex| ensures Hex(BytesOf(hex))[j] == Lower(hex[j]) {
      var i := j / 2;
      assert BytesOf(hex)[i] == ByteOf(hex[2 * i], hex[2 * i + 1]);
      ByteOfInverts(hex[2 * i], hex[2 * i + 1]);
    }
  }
}
