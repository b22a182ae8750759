/**
 Recursive Length Prefix for a list of byte strings, the only shape a legacy transaction uses.
 Both directions follow Appendix B of the Ethereum Yellow Paper; the decoder accepts canonical input only.
 */
module Rlp {
  import opened Wrappers
  import opened Binary
  import Seqs

  const STRING_BASE: nat := 0x80
  const LIST_BASE: nat := 0xc0

  predicate Base(base: nat) {
    base == STRING_BASE || base == LIST_BASE
  }

  // ----- encoding -----

  /** Appendix B gives no encoding from 2^64 bytes on. */
  predicate EncodableLength(len: nat) {
    |ToBE(len)| <= 8
  }

  function Header(base: nat, len: nat): (h: Bytes)
    requires Base(base) && EncodableLength(len)
    ensures 1 <= |h| <= 9
  {
    if len < 56 then [base + len] else [base + 55 + |ToBE(len)|] + ToBE(len)
  }

  predicate SelfEncoding(b: Bytes) {
    |b| == 1 && b[0] < STRING_BASE
  }

  function EncodeString(b: Bytes): (e: Bytes)
    requires EncodableLength(|b|)
    ensures |e| >= 1
  {
    if SelfEncoding(b) then b else Header(STRING_BASE, |b|) + b
  }

  predicate EncodableStrings(fields: seq<Bytes>) {
    forall i :: 0 <= i < |fields| ==> EncodableLength(|fields[i]|)
  }

  function EncodeStrings(fields: seq<Bytes>): Bytes
    requires EncodableStrings(fields)
  {
    if fields == [] then [] else EncodeString(fields[0]) + EncodeStrings(fields[1..])
  }

  predicate Encodable(fields: seq<Bytes>) {
    EncodableStrings(fields) && EncodableLength(|EncodeStrings(fields)|)
  }

  function EncodeList(fields: seq<Bytes>): Bytes
    requires Encodable(fields)
  {
    var payload := EncodeStrings(fields);
    Header(LIST_BASE, |payload|) + payload
  }

  // ----- decoding -----

  /** The payload length and the size of the header. */
  function ReadHeader(base: nat, raw: Bytes): Result<(nat, nat)>
    requires Base(base)
    requires raw != [] && base <= raw[0] < base + 64
  {
    var t := raw[0] - base;
    if t < 56 then Ok((t, 1)) else
    var k := t - 55;
    if |raw| < 1 + k then Err("rlp: truncated length") else
    var len := FromBE(raw[1..1 + k]);
    if !Minimal(raw[1..1 + k]) then Err("rlp: extra zeros")
    else if len < 56 then Err("rlp: long form for a short payload")
    else Ok((len, 1 + k))
  }

  /** The first string of `raw`, and what follows it. */
  function ReadString(raw: Bytes): (r: Result<(Bytes, Bytes)>)
    ensures r.Ok? ==> |r.value.1| < |raw|
  {
    if raw == [] then Err("rlp: truncated")
    else if raw[0] < STRING_BASE then Ok((raw[..1], raw[1..]))
    else if raw[0] >= LIST_BASE then Err("rlp: nested list")
    else
      var (len, h) :- ReadHeader(STRING_BASE, raw);
      if |raw| < h + len then Err("rlp: truncated string")
      else if SelfEncoding(raw[h..h + len]) then Err("rlp: byte must be self encoded")
      else Ok((raw[h..h + len], raw[h + len..]))
  }

  function ReadStrings(raw: Bytes): Result<seq<Bytes>>
    decreases |raw|
  {
    if raw == [] then Ok([]) else
    var (field, rest) :- ReadString(raw);
    var fields :- ReadStrings(rest);
    Ok([field] + fields)
  }

  function DecodeList(raw: Bytes): Result<seq<Bytes>> {
    if raw == [] || raw[0] < LIST_BASE then Err("rlp: not a list") else
    var (len, h) :- ReadHeader(LIST_BASE, raw);
    if |raw| != h + len then Err("rlp: invalid remainder") else ReadStrings(raw[h..])
  }

  // ----- Appendix B -----

  /** A length in the long form: between one and eight bytes, big endian, no leading zero. */
  predicate LongForm(e: Bytes, first: nat, len: nat, payload: Bytes) {
    var k := |e| - 1 - |payload|;
    && 1 <= k <= 8
    && e[0] == first + k && FromBE(e[1..1 + k]) == len && Minimal(e[1..1 + k]) && e[1 + k..] == payload
  }

  lemma {:induction false} LongHeader(base: nat, len: nat, payload: Bytes)
    requires Base(base) && EncodableLength(len) && len >= 56
    ensures LongForm(Header(base, len) + payload, base + 55, len, payload)
  {
    FromBEOfToBE(len);
    var k, e := |ToBE(len)|, Header(base, len) + payload;
    Seqs.Middle([base + 55 + k], ToBE(len), payload);
    assert e[1..1 + k] == ToBE(len) && e[1 + k..] == payload;
  }

  /** Strings, as R_b of the Yellow Paper says. */
  lemma {:induction false} StringForm(b: Bytes)
    requires EncodableLength(|b|)
    ensures |b| == 1 && b[0] < 128 ==> EncodeString(b) == b
    ensures !(|b| == 1 && b[0] < 128) && |b| < 56 ==> EncodeString(b) == [128 + |b|] + b
    ensures |b| >= 56 ==> LongForm(EncodeString(b), 183, |b|, b)
  {
    if |b| >= 56 {
      LongHeader(STRING_BASE, |b|, b);
    }
  }

  /** Lists, as R_l says: the payload is the strings' encodings one after the other. */
  lemma {:induction false} ListForm(fields: seq<Bytes>)
    requires Encodable(fields)
    ensures var payload := EncodeStrings(fields);
            && (|payload| < 56 ==> EncodeList(fields) == [192 + |payload|] + payload)
            && (|payload| >= 56 ==> LongForm(EncodeList(fields), 247, |payload|, payload))
  {
    if |EncodeStrings(fields)| >= 56 {
      LongHeader(LIST_BASE, |EncodeStrings(fields)|, EncodeStrings(fields));
    }
  }

  /** Everything shorter than 2^64 bytes can be encoded. */
  lemma {:induction false} LengthLimit(len: nat)
    ensures EncodableLength(len) <==> len < 0x1_0000_0000_0000_0000
  {
    WordLimits();
    if len < UINT64_LIMIT {
      ToBELength(len, U64);
    } else {
      ToBEAtLeast(len, U64);
    }
  }

  // ----- each direction undoes the other -----

  lemma {:induction false} ReadHeaderOfHeader(base: nat, len: nat, rest: Bytes)
    requires Base(base) && EncodableLength(len)
    ensures var raw := Header(base, len) + rest;
            base <= raw[0] < base + 64 && ReadHeader(base, raw) == Ok((len, |Header(base, len)|))
  {
    var raw := Header(base, len) + rest;
    if len >= 56 {
      var k := |ToBE(len)|;
      FromBEOfToBE(len);
      LongHeaderParts(base + 55 + k, ToBE(len), rest);
    }
  }

  lemma {:induction false} LongHeaderParts(first: Byte, len: Bytes, rest: Bytes)
    ensures var raw := [first] + len + rest; raw[0] == first && raw[1..1 + |len|] == len
  {
    Seqs.Middle([first], len, rest);
  }

  lemma {:induction false} HeaderOfReadHeader(base: nat, raw: Bytes)
    requires Base(base)
    requires raw != [] && base <= raw[0] < base + 64
    requires ReadHeader(base, raw).Ok?
    ensures var (len, h) := ReadHeader(base, raw).value;
            EncodableLength(len) && h <= |raw| && raw[..h] == Header(base, len)
  {
    var (len, h) := ReadHeader(base, raw).value;
    var t := raw[0] - base;
    if t < 56 {
      ToBELength(len, 1) by {
        WordLimits();
      }
    } else {
      ToBEOfFromBE(raw[1..h]);
      Seqs.Join(raw, 0, 1, h);
      assert raw[0..1] == [raw[0]];
    }
  }

  lemma {:induction false} ReadStringOfHeader(b: Bytes, rest: Bytes)
    requires EncodableLength(|b|) && !SelfEncoding(b)
    ensures ReadString(Header(STRING_BASE, |b|) + (b + rest)) == Ok((b, rest))
  {
    var header := Header(STRING_BASE, |b|);
    var raw := header + (b + rest);
    ReadHeaderOfHeader(STRING_BASE, |b|, b + rest);
    assert raw[|header|..|header| + |b|] == b;
    assert raw[|header| + |b|..] == rest;
  }

  lemma {:induction false} ReadStringOfByte(b: Bytes, rest: Bytes)
    requires SelfEncoding(b)
    ensures ReadString(b + rest) == Ok((b, rest))
  {
    assert (b + rest)[..1] == b && (b + rest)[1..] == rest;
  }

  lemma {:induction false} ReadStringOfEncode(b: Bytes, rest: Bytes)
    requires EncodableLength(|b|)
    ensures ReadString(EncodeString(b) + rest) == Ok((b, rest))
  {
    if SelfEncoding(b) {
      ReadStringOfByte(b, rest);
    } else {
      assert EncodeString(b) + rest == Header(STRING_BASE, |b|) + (b + rest);
      ReadStringOfHeader(b, rest);
    }
  }

  lemma {:induction false} EncodeOfReadString(raw: Bytes)
    requires ReadString(raw).Ok?
    ensures var (b, rest) := ReadString(raw).value;
            EncodableLength(|b|) && raw == EncodeString(b) + rest
  {
    var (b, rest) := ReadString(raw).value;
    if raw[0] < STRING_BASE {
      ToBELength(1, 1) by {
        WordLimits();
      }
      assert raw == raw[..1] + raw[1..];
    } else {
      HeaderOfReadHeader(STRING_BASE, raw);
      var (len, h) := ReadHeader(STRING_BASE, raw).value;
      assert raw == raw[..h] + raw[h..h + len] + raw[h + len..];
    }
  }

  lemma {:induction false} ReadStringsOfEncode(fields: seq<Bytes>)
    requires EncodableStrings(fields)
    ensures ReadStrings(EncodeStrings(fields)) == Ok(fields)
  {
    if fields != [] {
      ReadStringOfEncode(fields[0], EncodeStrings(fields[1..]));
      ReadStringsOfEncode(fields[1..]);
      assert [fields[0]] + fields[1..] == fields;
    }
  }

  lemma {:induction false} EncodeOfReadStrings(raw: Bytes)
    requires ReadStrings(raw).Ok?
    ensures EncodableStrings(ReadStrings(raw).value)
    ensures EncodeStrings(ReadStrings(raw).value) == raw
    decreases |raw|
  {
    if raw != [] {
      EncodeOfReadString(raw);
      var (field, rest) := ReadString(raw).value;
      EncodeOfReadStrings(rest);
      var fields := ReadStrings(raw).value;
      assert fields[1..] == ReadStrings(rest).value;
    }
  }

  lemma {:induction false} DecodeOfEncode(fields: seq<Bytes>)
    requires Encodable(fields)
    ensures DecodeList(EncodeList(fields)) == Ok(fields)
  {
    var payload := EncodeStrings(fields);
    ReadHeaderOfHeader(LIST_BASE, |payload|, payload);
    ReadStringsOfEncode(fields);
    Seqs.Parts(Header(LIST_BASE, |payload|), payload);
  }

  lemma {:induction false} EncodeOfDecode(raw: Bytes)
    requires DecodeList(raw).Ok?
    ensures Encodable(DecodeList(raw).value) && raw == EncodeList(DecodeList(raw).value)
  {
    HeaderOfReadHeader(LIST_BASE, raw);
    var (len, h) := ReadHeader(LIST_BASE, raw).value;
    EncodeOfReadStrings(raw[h..]);
    Seqs.Split(raw, h);
  }

  /** The decoder accepts exactly the encoder's outputs, and inverts it. */
  lemma {:induction false} DecodeInvertsEncode(raw: Bytes, fields: seq<Bytes>)
    ensures DecodeList(raw) == Ok(fields) <==> Encodable(fields) && raw == EncodeList(fields)
  {
    if Encodable(fields) && raw == EncodeList(fields) {
      DecodeOfEncode(fields);
    }
    if DecodeList(raw) == Ok(fields) {
      EncodeOfDecode(raw);
    }
  }

  lemma {:induction false} EncodeListInjective(a: seq<Bytes>, b: seq<Bytes>)
    requires Encodable(a) && Encodable(b)
    ensures EncodeList(a) == EncodeList(b) <==> a == b
  {
    DecodeInvertsEncode(EncodeList(a), a);
    DecodeInvertsEncode(EncodeList(a), b);
  }
}
