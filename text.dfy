/** Text helpers the validator relies on from Rust's standard library: the bytes of a
    `String` (`as_bytes`, UTF-8) and the decimal text of an integer (`to_string`,
    `format!("{}")`). */
module Text {

  import opened Wrappers

  type byte = b: int | 0 <= b < 256

  /** A Rust `char` is a Unicode scalar value, and so is a Dafny `char`. */
  predicate IsAscii(s: string) {
    forall i :: 0 <= i < |s| ==> s[i] as int < 0x80
  }

  /** UTF-8 encoding of one scalar value: one to four bytes. */
  function Utf8Char(c: char): (r: seq<byte>)
    ensures 1 <= |r| <= 4
    ensures (|r| == 1) == (c as int < 0x80)
    ensures c as int < 0x80 ==> r == [c as int]
    ensures c as int >= 0x80 ==> forall i :: 0 <= i < |r| ==> r[i] >= 0x80
  {
    var v := c as int;
    if v < 0x80 then [v]
    else if v < 0x800 then [0xC0 + v / 64, 0x80 + v % 64]
    else if v < 0x1_0000 then [0xE0 + v / 4096, 0x80 + (v / 64) % 64, 0x80 + v % 64]
    else [0xF0 + v / 262144, 0x80 + (v / 4096) % 64, 0x80 + (v / 64) % 64, 0x80 + v % 64]
  }

  /** `s.as_bytes()`. */
  function Utf8(s: string): seq<byte>
  {
    if s == [] then [] else Utf8Char(s[0]) + Utf8(s[1..])
  }

  lemma {:induction false} Utf8Append(a: string, b: string)
    ensures Utf8(a + b) == Utf8(a) + Utf8(b)
  {
    if a != [] {
      assert (a + b)[0] == a[0] && (a + b)[1..] == a[1..] + b;
      Utf8Append(a[1..], b);
      calc {
        Utf8(a + b);
        Utf8Char(a[0]) + Utf8(a[1..] + b);
        Utf8Char(a[0]) + (Utf8(a[1..]) + Utf8(b));
      }
    } else {
      assert a + b == b;
    }
  }

  /** The bytes of an ASCII string are its code points, one byte per character. */
  lemma {:induction false} Utf8OfAscii(s: string)
    requires IsAscii(s)
    ensures |Utf8(s)| == |s|
    ensures forall i :: 0 <= i < |s| ==> Utf8(s)[i] == s[i] as int
  {
    if s != [] {
      Utf8OfAscii(s[1..]);
    }
  }

  /** Conversely, a string whose bytes are all below 0x80 is ASCII. */
  lemma {:induction false} AsciiOfUtf8(s: string)
    requires forall i :: 0 <= i < |Utf8(s)| ==> Utf8(s)[i] < 0x80
    ensures IsAscii(s)
  {
    if s != [] {
      var head := Utf8Char(s[0]);
      assert Utf8(s) == head + Utf8(s[1..]);
      assert Utf8(s)[0] == head[0];
      forall i | 0 <= i < |Utf8(s[1..])|
        ensures Utf8(s[1..])[i] < 0x80
      {
        assert Utf8(s[1..])[i] == Utf8(s)[|head| + i];
      }
      AsciiOfUtf8(s[1..]);
    }
  }

  /** `std::str::from_utf8` restricted to what the validator can go on with: every
      caller that decodes bytes to text then needs ASCII, so anything else is `None`. */
  function AsciiText(bytes: seq<byte>): (r: Option<string>)
    ensures r.Some? <==> forall i :: 0 <= i < |bytes| ==> bytes[i] < 0x80
    ensures r.Some? ==> IsAscii(r.value) && Utf8(r.value) == bytes
  {
    if forall i :: 0 <= i < |bytes| ==> bytes[i] < 0x80 then
      var s := seq(|bytes|, i requires 0 <= i < |bytes| => bytes[i] as char);
      Utf8OfAscii(s);
      Some(s)
    else
      None
  }

  // ---------------------------------------------------------------------------
  // Decimal text

  predicate IsDigit(c: char) { '0' <= c <= '9' }

  predicate AllDigits(s: string) {
    forall i :: 0 <= i < |s| ==> IsDigit(s[i])
  }

  function DigitChar(d: nat): (c: char)
    requires d < 10
    ensures IsDigit(c)
  {
    (48 + d) as char
  }

  /** `n.to_string()` for an unsigned integer. */
  function DecimalText(n: nat): (r: string)
    ensures |r| >= 1 && AllDigits(r)
    ensures r[0] == '0' ==> n == 0
  {
    if n < 10 then [DigitChar(n)] else DecimalText(n / 10) + [DigitChar(n % 10)]
  }

  /** The value a string of decimal digits denotes. */
  function DigitsValue(s: string): nat
    requires AllDigits(s)
  {
    if s == [] then 0 else DigitsValue(s[..|s| - 1]) * 10 + (s[|s| - 1] as int - 48)
  }

  /** Reading the decimal text back yields the number. */
  lemma {:induction false} DecimalTextRoundTrip(n: nat)
    ensures DigitsValue(DecimalText(n)) == n
  {
    if n >= 10 {
      var r := DecimalText(n);
      assert r[..|r| - 1] == DecimalText(n / 10);
      DecimalTextRoundTrip(n / 10);
    }
  }

  /** Distinct numbers have distinct decimal texts. */
  lemma DecimalTextInjective(m: nat, n: nat)
    requires DecimalText(m) == DecimalText(n)
    ensures m == n
  {
    DecimalTextRoundTrip(m);
    DecimalTextRoundTrip(n);
  }

  /** `format!("{}", i)` for a signed integer. */
  function SignedText(i: int): (r: string)
    ensures i >= 0 ==> r == DecimalText(i)
    ensures i < 0 ==> |r| >= 2 && r[0] == '-' && r[1..] == DecimalText(-i)
  {
    if i >= 0 then DecimalText(i) else "-" + DecimalText(-i)
  }
}
