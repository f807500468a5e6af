/** `BASE64URL_NOPAD` of the `data_encoding` crate: the URL- and filename-safe alphabet of
    section 5 of RFC 4648, without `=` padding, with strict decoding (a length that leaves
    one symbol over, a symbol outside the alphabet, or non-zero bits left over in the last
    symbol are errors). The validator uses it to decode the bundler's RSA modulus and the
    receipt signatures; a JSON Web Key serialises its modulus with the same encoding. */
module Base64Url {

  import opened Wrappers
  import opened Text

  /** The kinds of `data_encoding::DecodeError`; the error position is not modelled. */
  datatype DecodeKind = Length | Symbol | Trailing

  datatype DecodeError = DecodeError(kind: DecodeKind)

  predicate IsSextet(v: int) { 0 <= v < 64 }

  predicate AllSextets(vs: seq<int>) {
    forall i :: 0 <= i < |vs| ==> IsSextet(vs[i])
  }

  /** The alphabet: A-Z, a-z, 0-9, '-', '_'. */
  function SymbolOf(v: int): (c: char)
    requires IsSextet(v)
    ensures c as int < 0x80
  {
    if v < 26 then (65 + v) as char
    else if v < 52 then (97 + v - 26) as char
    else if v < 62 then (48 + v - 52) as char
    else if v == 62 then '-'
    else '_'
  }

  /** The value of one input byte, or None when it is not in the alphabet. */
  function ValueOf(b: byte): (r: Option<int>)
    ensures r.Some? ==> IsSextet(r.value) && SymbolOf(r.value) as int == b
  {
    if 65 <= b <= 90 then Some(b - 65)
    else if 97 <= b <= 122 then Some(b - 71)
    else if 48 <= b <= 57 then Some(b + 4)
    else if b == 45 then Some(62)
    else if b == 95 then Some(63)
    else None
  }

  lemma ValueOfSymbol(v: int)
    requires IsSextet(v)
    ensures ValueOf(SymbolOf(v) as int) == Some(v)
  {
  }

  // ---------------------------------------------------------------------------
  // Encoding: every 3 bytes become 4 symbols; a last group of 1 or 2 bytes becomes
  // 2 or 3 symbols whose unused low bits are zero.

  function EncodeSextets(b: seq<byte>): (vs: seq<int>)
    ensures AllSextets(vs)
    ensures |vs| % 4 != 1
    decreases |b|
  {
    if |b| == 0 then []
    else if |b| == 1 then [b[0] / 4, (b[0] % 4) * 16]
    else if |b| == 2 then [b[0] / 4, (b[0] % 4) * 16 + b[1] / 16, (b[1] % 16) * 4]
    else [b[0] / 4, (b[0] % 4) * 16 + b[1] / 16, (b[1] % 16) * 4 + b[2] / 64, b[2] % 64]
         + EncodeSextets(b[3..])
  }

  /** `BASE64URL_NOPAD.encode(b)`. */
  function Encode(b: seq<byte>): (s: string)
    ensures IsAscii(s)
  {
    var vs := EncodeSextets(b);
    seq(|vs|, i requires 0 <= i < |vs| => SymbolOf(vs[i]))
  }

  // ---------------------------------------------------------------------------
  // Decoding

  /** The bits a last group of 2 or 3 symbols does not use must be zero. */
  predicate TrailingBitsClear(vs: seq<int>)
    requires AllSextets(vs)
  {
    (|vs| % 4 == 2 ==> vs[|vs| - 1] % 16 == 0) && (|vs| % 4 == 3 ==> vs[|vs| - 1] % 4 == 0)
  }

  function DecodeSextets(vs: seq<int>): (b: seq<byte>)
    requires AllSextets(vs) && |vs| % 4 != 1
    decreases |vs|
  {
    if |vs| == 0 then []
    else if |vs| == 2 then [vs[0] * 4 + vs[1] / 16]
    else if |vs| == 3 then [vs[0] * 4 + vs[1] / 16, (vs[1] % 16) * 16 + vs[2] / 4]
    else [vs[0] * 4 + vs[1] / 16, (vs[1] % 16) * 16 + vs[2] / 4, (vs[2] % 4) * 64 + vs[3]]
         + DecodeSextets(vs[4..])
  }

  predicate AllInAlphabet(input: seq<byte>) {
    forall i :: 0 <= i < |input| ==> ValueOf(input[i]).Some?
  }

  /** `BASE64URL_NOPAD.decode(input)`: the length is checked first, then the symbols,
      then the bits left over in the last symbol. */
  function Decode(input: seq<byte>): (r: Result<seq<byte>, DecodeError>)
    ensures r.Success? ==> |input| % 4 != 1 && AllInAlphabet(input)
    ensures r.Failure? && r.error.kind == Length <==> |input| % 4 == 1
    ensures r.Failure? && r.error.kind == Symbol <==> |input| % 4 != 1 && !AllInAlphabet(input)
  {
    if |input| % 4 == 1 then Failure(DecodeError(Length))
    else if !AllInAlphabet(input) then Failure(DecodeError(Symbol))
    else
      var vs := seq(|input|, i requires 0 <= i < |input| => ValueOf(input[i]).value);
      if !TrailingBitsClear(vs) then Failure(DecodeError(Trailing))
      else Success(DecodeSextets(vs))
  }

  // ---------------------------------------------------------------------------
  // Round trips

  lemma Place(hi: int, lo: int, k: int)
    requires k == 4 || k == 16 || k == 64
    requires 0 <= lo < k
    ensures (hi * k + lo) / k == hi && (hi * k + lo) % k == lo
  {
  }

  /** One group of three bytes goes through four symbols and back. */
  lemma GroupOfThree(b0: byte, b1: byte, b2: byte)
    ensures var v1 := (b0 % 4) * 16 + b1 / 16;
            var v2 := (b1 % 16) * 4 + b2 / 64;
            (b0 / 4) * 4 + v1 / 16 == b0 && (v1 % 16) * 16 + v2 / 4 == b1 && (v2 % 4) * 64 + b2 % 64 == b2
  {
    Place(b0 % 4, b1 / 16, 16);
    Place(b1 % 16, b2 / 64, 4);
  }

  /** One group of four symbols goes through three bytes and back. */
  lemma GroupOfFour(v0: int, v1: int, v2: int, v3: int)
    requires IsSextet(v0) && IsSextet(v1) && IsSextet(v2) && IsSextet(v3)
    ensures var b0 := v0 * 4 + v1 / 16;
            var b1 := (v1 % 16) * 16 + v2 / 4;
            var b2 := (v2 % 4) * 64 + v3;
            0 <= b0 < 256 && 0 <= b1 < 256 && 0 <= b2 < 256 &&
            b0 / 4 == v0 && (b0 % 4) * 16 + b1 / 16 == v1 && (b1 % 16) * 4 + b2 / 64 == v2 && b2 % 64 == v3
  {
    Place(v0, v1 / 16, 4);
    Place(v1 % 16, v2 / 4, 16);
    Place(v2 % 4, v3, 64);
  }

  /** A group of three or more bytes: four symbols, then the encoding of the rest. */
  lemma EncodeSextetsTail(b: seq<byte>)
    requires |b| >= 3
    ensures |EncodeSextets(b)| == 4 + |EncodeSextets(b[3..])|
    ensures EncodeSextets(b)[4..] == EncodeSextets(b[3..])
  {
  }

  /** Dropping a leading group of four symbols keeps the last group and its bits. */
  lemma TrailingBitsClearTail(vs: seq<int>)
    requires AllSextets(vs) && |vs| >= 4
    ensures AllSextets(vs[4..])
    ensures TrailingBitsClear(vs[4..]) ==> TrailingBitsClear(vs)
  {
    var tail := vs[4..];
    assert |tail| % 4 == |vs| % 4;
    if |tail| > 0 {
      assert tail[|tail| - 1] == vs[|vs| - 1];
    }
  }

  lemma {:induction false} EncodedTrailingBitsClear(b: seq<byte>)
    ensures TrailingBitsClear(EncodeSextets(b))
    decreases |b|
  {
    if |b| >= 3 {
      EncodeSextetsTail(b);
      EncodedTrailingBitsClear(b[3..]);
      TrailingBitsClearTail(EncodeSextets(b));
    }
  }

  lemma {:induction false} DecodeEncodeSextets(b: seq<byte>)
    ensures DecodeSextets(EncodeSextets(b)) == b
    decreases |b|
  {
    var vs := EncodeSextets(b);
    if |b| == 1 {
      Place(b[0] % 4, 0, 16);
    } else if |b| == 2 {
      GroupOfThree(b[0], b[1], 0);
    } else if |b| >= 3 {
      GroupOfThree(b[0], b[1], b[2]);
      var tail := EncodeSextets(b[3..]);
      assert vs[4..] == tail;
      calc {
        DecodeSextets(vs);
        [vs[0] * 4 + vs[1] / 16, (vs[1] % 16) * 16 + vs[2] / 4, (vs[2] % 4) * 64 + vs[3]] + DecodeSextets(tail);
        { DecodeEncodeSextets(b[3..]); }
        b[..3] + b[3..];
      }
    }
  }

  /** A last group of two or three symbols with clear trailing bits decodes to one or
      two bytes that encode back to it. */
  lemma EncodeDecodeShort(vs: seq<int>)
    requires AllSextets(vs) && (|vs| == 2 || |vs| == 3) && TrailingBitsClear(vs)
    ensures EncodeSextets(DecodeSextets(vs)) == vs
  {
    if |vs| == 2 {
      EncodeDecodePair(vs[0], vs[1]);
      assert vs == [vs[0], vs[1]];
    } else {
      EncodeDecodeTriple(vs[0], vs[1], vs[2]);
      assert vs == [vs[0], vs[1], vs[2]];
    }
  }

  lemma EncodeDecodePair(v0: int, v1: int)
    requires IsSextet(v0) && IsSextet(v1) && v1 % 16 == 0
    ensures EncodeSextets(DecodeSextets([v0, v1])) == [v0, v1]
  {
    GroupOfFour(v0, v1, 0, 0);
  }

  lemma EncodeDecodeTriple(v0: int, v1: int, v2: int)
    requires IsSextet(v0) && IsSextet(v1) && IsSextet(v2) && v2 % 4 == 0
    ensures EncodeSextets(DecodeSextets([v0, v1, v2])) == [v0, v1, v2]
  {
    GroupOfFour(v0, v1, v2, 0);
  }

  /** Four symbols decode to three bytes that encode back to them. */
  lemma EncodeDecodeQuad(q: seq<int>)
    requires AllSextets(q) && |q| == 4
    ensures |DecodeSextets(q)| == 3 && EncodeSextets(DecodeSextets(q)) == q
  {
    GroupOfFour(q[0], q[1], q[2], q[3]);
    assert q[4..] == [];
  }

  /** Decoding splits after the first four symbols. */
  lemma DecodeSextetsSplit(vs: seq<int>)
    requires AllSextets(vs) && |vs| >= 4 && |vs| % 4 != 1
    ensures DecodeSextets(vs) == DecodeSextets(vs[..4]) + DecodeSextets(vs[4..])
  {
    assert vs[..4][4..] == [];
  }

  /** Encoding splits after the first three bytes. */
  lemma EncodeSextetsSplit(x: seq<byte>, y: seq<byte>)
    requires |x| == 3
    ensures EncodeSextets(x + y) == EncodeSextets(x) + EncodeSextets(y)
  {
    var b := x + y;
    assert b[0] == x[0] && b[1] == x[1] && b[2] == x[2] && b[3..] == y && x[3..] == [];
  }

  /** The symbols after a leading group of four are again a sequence that decodes. */
  lemma SextetsTail(vs: seq<int>)
    requires AllSextets(vs) && |vs| >= 4 && |vs| % 4 != 1
    ensures AllSextets(vs[..4]) && AllSextets(vs[4..]) && |vs[4..]| % 4 != 1
  {
  }

  /** Encoding bytes that split after three splits the same way. */
  lemma EncodeConcat(d: seq<byte>, x: seq<byte>, y: seq<byte>)
    requires d == x + y && |x| == 3
    ensures EncodeSextets(d) == EncodeSextets(x) + EncodeSextets(y)
  {
    EncodeSextetsSplit(x, y);
  }

  /** Decoding and re-encoding splits after the first four symbols. */
  lemma EncodeDecodeSplit(vs: seq<int>)
    requires AllSextets(vs) && |vs| >= 4 && |vs| % 4 != 1
    requires |DecodeSextets(vs[..4])| == 3
    ensures EncodeSextets(DecodeSextets(vs)) == EncodeSextets(DecodeSextets(vs[..4])) + EncodeSextets(DecodeSextets(vs[4..]))
  {
    SextetsTail(vs);
    DecodeSextetsSplit(vs);
    EncodeConcat(DecodeSextets(vs), DecodeSextets(vs[..4]), DecodeSextets(vs[4..]));
  }

  /** Re-encoding the bytes of a leading group of four symbols gives those symbols. */
  lemma EncodeDecodeGroup(vs: seq<int>)
    requires AllSextets(vs) && |vs| >= 4 && |vs| % 4 != 1
    ensures EncodeSextets(DecodeSextets(vs)) == vs[..4] + EncodeSextets(DecodeSextets(vs[4..]))
  {
    EncodeDecodeQuad(vs[..4]);
    EncodeDecodeSplit(vs);
  }

  lemma {:induction false} EncodeDecodeSextets(vs: seq<int>)
    requires AllSextets(vs) && |vs| % 4 != 1 && TrailingBitsClear(vs)
    ensures EncodeSextets(DecodeSextets(vs)) == vs
    decreases |vs|
  {
    if |vs| == 2 || |vs| == 3 {
      EncodeDecodeShort(vs);
    } else if |vs| >= 4 {
      var tail := vs[4..];
      assert TrailingBitsClear(tail) by {
        assert |tail| % 4 == |vs| % 4;
        if |tail| > 0 { assert tail[|tail| - 1] == vs[|vs| - 1]; }
      }
      EncodeDecodeSextets(tail);
      EncodeDecodeGroup(vs);
      assert vs == vs[..4] + tail;
    }
  }

  /** Decoding what was encoded gives back the bytes. */
  lemma DecodeEncode(b: seq<byte>)
    ensures Decode(Utf8(Encode(b))) == Success(b)
  {
    var s := Encode(b);
    var vs := EncodeSextets(b);
    Utf8OfAscii(s);
    var input := Utf8(s);
    forall i | 0 <= i < |input|
      ensures ValueOf(input[i]) == Some(vs[i])
    {
      ValueOfSymbol(vs[i]);
    }
    var decoded := seq(|input|, i requires 0 <= i < |input| => ValueOf(input[i]).value);
    assert decoded == vs;
    DecodeEncodeSextets(b);
    EncodedTrailingBitsClear(b);
  }

  /** Encoding what was decoded gives back the text: decoding is strict, so every
      accepted text is the one canonical encoding of its bytes. */
  lemma EncodeDecode(s: string, b: seq<byte>)
    requires Decode(Utf8(s)) == Success(b)
    ensures Encode(b) == s
  {
    var input := Utf8(s);
    forall i | 0 <= i < |input|
      ensures input[i] < 0x80
    {
      assert ValueOf(input[i]).Some?;
    }
    AsciiOfUtf8(s);
    Utf8OfAscii(s);
    var vs := seq(|input|, i requires 0 <= i < |input| => ValueOf(input[i]).value);
    EncodeDecodeSextets(vs);
    var e := Encode(b);
    assert |e| == |s|;
    forall i | 0 <= i < |s|
      ensures e[i] == s[i]
    {
      assert SymbolOf(vs[i]) as int == input[i];
    }
  }
}
