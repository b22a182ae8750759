/**
 Hexadecimal text: byte strings ("0x" and two digits a byte, as `Buffer.toString("hex")` and the
 `Reader` class write them) and numbers ("0x" and `toString(16)`).
 */
module Hex {
  import opened Wrappers
  import opened Binary
  import Seqs

  predicate IsHexChar(c: char) {
    '0' <= c <= '9' || 'a' <= c <= 'f' || 'A' <= c <= 'F'
  }

  predicate IsLower(c: char) {
    '0' <= c <= '9' || 'a' <= c <= 'f'
  }

  function DigitOf(v: nat): (c: char)
    requires v < 16
    ensures IsLower(c) && ValueOf(c) == v
  {
    if v < 10 then '0' + v as char else 'a' + (v - 10) as char
  }

  function ValueOf(c: char): (v: nat)
    requires IsHexChar(c)
    ensures v < 16
  {
    if c <= '9' then (c - '0') as nat
    else if c <= 'F' then (c - 'A') as nat + 10
    else (c - 'a') as nat + 10
  }

  lemma {:induction false} DigitOfValue(c: char)
    requires IsHexChar(c)
    ensures DigitOf(ValueOf(c)) == c <==> IsLower(c)
  {
  }

  predicate AllHex(s: string) {
    forall i :: 0 <= i < |s| ==> IsHexChar(s[i])
  }

  predicate AllLower(s: string) {
    forall i :: 0 <= i < |s| ==> IsLower(s[i])
  }

  // ----- byte strings -----

  function Encode(b: Bytes): (s: string)
    ensures |s| == 2 * |b|
  {
    if b == [] then "" else [DigitOf(b[0] / 16), DigitOf(b[0] % 16)] + Encode(b[1..])
  }

  lemma {:induction false} EncodeIsLower(b: Bytes)
    ensures AllLower(Encode(b)) && AllHex(Encode(b))
  {
    if b != [] {
      EncodeIsLower(b[1..]);
    }
  }

  function Decode(s: string): (b: Bytes)
    requires AllHex(s) && |s| % 2 == 0
    ensures |b| == |s| / 2
  {
    if s == "" then [] else [16 * ValueOf(s[0]) + ValueOf(s[1])] + Decode(s[2..])
  }

  lemma {:induction false} DecodeOfEncode(b: Bytes)
    ensures AllHex(Encode(b)) && Decode(Encode(b)) == b
  {
    EncodeIsLower(b);
    if b != [] {
      DecodeOfEncode(b[1..]);
      assert Encode(b)[2..] == Encode(b[1..]);
      assert [b[0]] + b[1..] == b;
    }
  }

  lemma {:induction false} EncodeOfCons(v: Byte, b: Bytes)
    ensures Encode([v] + b) == [DigitOf(v / 16), DigitOf(v % 16)] + Encode(b)
  {
    Seqs.TailOfCons(v, b);
  }

  lemma {:induction false} PairOfDigits(c: char, d: char)
    requires IsLower(c) && IsLower(d)
    ensures var v := 16 * ValueOf(c) + ValueOf(d); DigitOf(v / 16) == c && DigitOf(v % 16) == d
  {
    DigitOfValue(c);
    DigitOfValue(d);
  }

  lemma {:induction false} EncodeOfPair(c: char, d: char, b: Bytes)
    requires IsLower(c) && IsLower(d)
    ensures Encode([16 * ValueOf(c) + ValueOf(d)] + b) == [c, d] + Encode(b)
  {
    PairOfDigits(c, d);
    EncodeOfCons(16 * ValueOf(c) + ValueOf(d), b);
  }

  lemma {:induction false} DecodeStep(s: string)
    requires AllHex(s) && |s| % 2 == 0 && s != ""
    ensures AllHex(s[2..]) && Decode(s) == [16 * ValueOf(s[0]) + ValueOf(s[1])] + Decode(s[2..])
  {
  }

  lemma {:induction false} EncodeOfDecodeLower(s: string)
    requires AllLower(s) && |s| % 2 == 0
    ensures AllHex(s) && Encode(Decode(s)) == s
  {
    if s != "" {
      EncodeOfDecodeLower(s[2..]);
      DecodeStep(s);
      EncodeOfPair(s[0], s[1], Decode(s[2..]));
      assert s == [s[0], s[1]] + s[2..];
    }
  }

  /** Decoding forgets letter case and nothing else. */
  lemma {:induction false} EncodeOfDecode(s: string)
    requires AllHex(s) && |s| % 2 == 0
    ensures Encode(Decode(s)) == s <==> AllLower(s)
  {
    EncodeIsLower(Decode(s));
    if AllLower(s) {
      EncodeOfDecodeLower(s);
    }
  }

  lemma {:induction false} EncodeConcat(a: Bytes, b: Bytes)
    ensures Encode(a + b) == Encode(a) + Encode(b)
  {
    if a == [] {
      assert a + b == b;
    } else {
      EncodeConcat(a[1..], b);
      Seqs.TailOfConcat(a, b);
      Seqs.Assoc([DigitOf(a[0] / 16), DigitOf(a[0] % 16)], Encode(a[1..]), Encode(b));
    }
  }

  function ToHex(b: Bytes): string {
    "0x" + Encode(b)
  }

  lemma {:induction false} DigitAlphabet(v: nat)
    requires v < 16
    ensures DigitOf(v) == "0123456789abcdef"[v]
  {
    assert v == 0 || v == 1 || v == 2 || v == 3 || v == 4 || v == 5 || v == 6 || v == 7
        || v == 8 || v == 9 || v == 10 || v == 11 || v == 12 || v == 13 || v == 14 || v == 15;
  }

  lemma {:induction false} EncodeAt(b: Bytes, i: nat)
    requires i < |b|
    ensures Encode(b)[2 * i] == DigitOf(b[i] / 16) && Encode(b)[2 * i + 1] == DigitOf(b[i] % 16)
  {
    if i > 0 {
      EncodeAt(b[1..], i - 1);
      assert Encode(b)[2..] == Encode(b[1..]);
    }
  }

  /** Two lower-case digits for every byte, the high one first. */
  lemma {:induction false} HexText(b: Bytes, i: nat)
    requires i < |b|
    ensures |ToHex(b)| == 2 + 2 * |b| && ToHex(b)[..2] == "0x"
    ensures ToHex(b)[2 + 2 * i] == "0123456789abcdef"[b[i] / 16]
    ensures ToHex(b)[3 + 2 * i] == "0123456789abcdef"[b[i] % 16]
  {
    EncodeAt(b, i);
    DigitAlphabet(b[i] / 16);
    DigitAlphabet(b[i] % 16);
  }

  function HexTexts(list: seq<Bytes>): (t: seq<string>)
    ensures |t| == |list|
  {
    seq(|list|, i requires 0 <= i < |list| => ToHex(list[i]))
  }

  /** `Buffer.from(text, "hex")`: stops at the first pair that is not two hex digits. */
  function BufferFrom(s: string): Bytes {
    if |s| < 2 || !IsHexChar(s[0]) || !IsHexChar(s[1]) then []
    else [16 * ValueOf(s[0]) + ValueOf(s[1])] + BufferFrom(s[2..])
  }

  lemma {:induction false} BufferFromOfEncode(b: Bytes)
    ensures BufferFrom(Encode(b)) == b
  {
    if b != [] {
      BufferFromOfEncode(b[1..]);
      assert Encode(b)[2..] == Encode(b[1..]);
      assert [b[0]] + b[1..] == b;
    }
  }

  lemma {:induction false} BufferFromOfToHex(b: Bytes)
    ensures BufferFrom(ToHex(b)[2..]) == b
  {
    BufferFromOfEncode(b);
    assert ToHex(b)[2..] == Encode(b);
  }

  /** `new Reader(text)`: an even number of hex digits after "0x", or an exception. */
  function FromHex(s: string): (r: Result<Bytes>)
  {
    if |s| >= 2 && s[..2] == "0x" && |s| % 2 == 0 && AllHex(s[2..]) then Ok(Decode(s[2..]))
    else Err("Reader: not a hex string")
  }

  /** Text that `FromHex` then `ToHex` leaves alone. */
  predicate CanonicalHex(s: string) {
    |s| >= 2 && s[..2] == "0x" && |s| % 2 == 0 && AllLower(s[2..])
  }

  lemma {:induction false} FromHexOfToHex(b: Bytes)
    ensures FromHex(ToHex(b)) == Ok(b)
    ensures CanonicalHex(ToHex(b))
  {
    DecodeOfEncode(b);
    EncodeIsLower(b);
    assert ToHex(b)[2..] == Encode(b);
  }

  lemma {:induction false} ToHexOfFromHex(s: string)
    requires FromHex(s).Ok?
    ensures ToHex(FromHex(s).value) == s <==> CanonicalHex(s)
  {
    EncodeOfDecode(s[2..]);
    assert s == "0x" + s[2..];
    var t := ToHex(FromHex(s).value);
    assert t[2..] == Encode(Decode(s[2..]));
  }

  // ----- numbers -----

  function Digits(n: nat): (s: string)
    ensures |s| > 0 && AllLower(s)
    ensures s[0] == '0' <==> n == 0
  {
    if n < 16 then [DigitOf(n)] else Digits(n / 16) + [DigitOf(n % 16)]
  }

  function ParseDigits(s: string): nat
    requires AllHex(s)
  {
    if s == "" then 0 else ParseDigits(s[..|s| - 1]) * 16 + ValueOf(s[|s| - 1])
  }

  lemma {:induction false} ParseOfDigits(n: nat)
    ensures ParseDigits(Digits(n)) == n
  {
    var s := Digits(n);
    if n < 16 {
      assert s[..|s| - 1] == "";
    } else {
      ParseOfDigits(n / 16);
      assert s[..|s| - 1] == Digits(n / 16);
    }
  }

  predicate MinimalDigits(s: string) {
    s == "0" || (|s| > 0 && s[0] != '0' && AllLower(s))
  }

  lemma {:induction false} DigitsAreMinimal(n: nat)
    ensures MinimalDigits(Digits(n))
  {
    if n == 0 {
      assert Digits(0) == "0";
    }
  }

  lemma {:induction false} DigitsOfParse(s: string)
    requires AllHex(s) && |s| > 0
    ensures Digits(ParseDigits(s)) == s <==> MinimalDigits(s)
  {
    DigitsAreMinimal(ParseDigits(s));
    if MinimalDigits(s) && s != "0" {
      DigitsOfMinimal(s);
    }
  }

  lemma {:induction false} DigitsOfMinimal(s: string)
    requires AllLower(s) && |s| > 0 && s[0] != '0'
    ensures ParseDigits(s) > 0 && Digits(ParseDigits(s)) == s
  {
    var init, last := s[..|s| - 1], s[|s| - 1];
    var n := ParseDigits(s);
    DigitOfValue(last);
    if init == "" {
      assert ParseDigits(init) == 0;
      assert s == [last];
      assert ValueOf(last) > 0;
    } else {
      DigitsOfMinimal(init);
      assert n / 16 == ParseDigits(init) && n % 16 == ValueOf(last);
      assert init + [last] == s;
    }
  }

  lemma {:induction false} ParseConcat(a: string, b: string)
    requires AllHex(a) && AllHex(b)
    ensures AllHex(a + b)
    ensures |b| == 2 ==> ParseDigits(a + b) == ParseDigits(a) * 256 + 16 * ValueOf(b[0]) + ValueOf(b[1])
  {
    if |b| == 2 {
      var s := a + b;
      assert s[..|s| - 1] == a + [b[0]];
      assert (a + [b[0]])[..|a|] == a;
      assert ParseDigits(a + [b[0]]) == ParseDigits(a) * 16 + ValueOf(b[0]);
    }
  }

  /** Reading hex text of bytes as a number is reading the bytes big endian. */
  lemma {:induction false} ParseOfEncode(b: Bytes)
    ensures AllHex(Encode(b)) && ParseDigits(Encode(b)) == FromBE(b)
  {
    EncodeIsLower(b);
    if b != [] {
      var init, last := b[..|b| - 1], b[|b| - 1];
      ParseOfEncode(init);
      EncodeConcat(init, [last]);
      assert init + [last] == b;
      assert Encode([last]) == [DigitOf(last / 16), DigitOf(last % 16)] by {
        assert [last][1..] == [];
      }
      ParseConcat(Encode(init), Encode([last]));
    }
  }

  function ToHexNumber(n: nat): string {
    "0x" + Digits(n)
  }

  /** `BigInt(text)` on "0x" text; an empty digit string is a SyntaxError. */
  function ParseHexNumber(s: string): Result<nat> {
    if |s| > 2 && s[..2] == "0x" && AllHex(s[2..]) then Ok(ParseDigits(s[2..]))
    else Err("BigInt: SyntaxError")
  }

  /** Text that `ParseHexNumber` then `ToHexNumber` leaves alone. */
  predicate CanonicalHexNumber(s: string) {
    |s| > 2 && s[..2] == "0x" && MinimalDigits(s[2..])
  }

  lemma {:induction false} ParseOfToHexNumber(n: nat)
    ensures ParseHexNumber(ToHexNumber(n)) == Ok(n)
    ensures CanonicalHexNumber(ToHexNumber(n))
  {
    ParseOfDigits(n);
    DigitsAreMinimal(n);
    assert ToHexNumber(n)[2..] == Digits(n);
  }

  lemma {:induction false} ToHexNumberOfParse(s: string)
    requires ParseHexNumber(s).Ok?
    ensures ToHexNumber(ParseHexNumber(s).value) == s <==> CanonicalHexNumber(s)
  {
    DigitsOfParse(s[2..]);
    assert s == "0x" + s[2..];
    var t := ToHexNumber(ParseHexNumber(s).value);
    assert t[2..] == Digits(ParseDigits(s[2..]));
  }

  /** A non-empty byte string's hex text, read as a number. */
  lemma {:induction false} ParseOfToHex(b: Bytes)
    requires b != []
    ensures ParseHexNumber(ToHex(b)) == Ok(FromBE(b))
  {
    ParseOfEncode(b);
    assert ToHex(b)[2..] == Encode(b);
  }
}
