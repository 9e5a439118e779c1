/** Base16 (section 8 of RFC 4648) as the `hex` crate implements it:
    lowercase output, case-insensitive input, and a decoder that rejects an
    odd number of digits before it looks at any character, then reports the
    first character that is not a hexadecimal digit together with its
    position. */
module Hex {
  import opened Primitives

  /** The `hex` crate's `FromHexError`, reduced to the two failures its
      decoder can report for a string input. */
  datatype HexError =
    | OddLength
    | InvalidChar(c: char, index: nat)

  /** The `to_string()` rendering of a `HexError`, as `decode_hex` returns it.
      The wording is the crate's and is not modelled; only which error it
      renders is. */
  datatype HexErrorText = Rendered(cause: HexError)

  predicate IsHexChar(c: char) {
    || '0' <= c <= '9'
    || 'a' <= c <= 'f'
    || 'A' <= c <= 'F'
  }

  predicate IsLowerHexChar(c: char) {
    '0' <= c <= '9' || 'a' <= c <= 'f'
  }

  /** The value of one hexadecimal digit, either case. */
  function DigitValue(c: char): (v: nat)
    requires IsHexChar(c)
    ensures v < 16
  {
    if '0' <= c <= '9' then c as int - '0' as int
    else if 'a' <= c <= 'f' then c as int - 'a' as int + 10
    else c as int - 'A' as int + 10
  }

  /** The lowercase digit for a value below 16. */
  function HexDigit(n: nat): (c: char)
    requires n < 16
    ensures IsLowerHexChar(c)
    ensures DigitValue(c) == n
  {
    if n < 10 then ('0' as int + n) as char else ('a' as int + n - 10) as char
  }


  /** ASCII lowercasing: 'A'..'Z' become 'a'..'z', everything else stays. */
  function ToLowerAscii(c: char): char {
    if 'A' <= c <= 'Z' then (c as int - 'A' as int + 'a' as int) as char else c
  }

  /** Lowering a digit gives the encoder's digit for its value. */
  lemma LowerDigit(c: char)
    requires IsHexChar(c)
    ensures IsHexChar(ToLowerAscii(c))
    ensures ToLowerAscii(c) == HexDigit(DigitValue(c))
    ensures DigitValue(ToLowerAscii(c)) == DigitValue(c)
  {
  }

  function LowerCase(s: string): (r: string)
    ensures |r| == |s|
    ensures forall i :: 0 <= i < |s| ==> r[i] == ToLowerAscii(s[i])
  {
    seq(|s|, i requires 0 <= i < |s| => ToLowerAscii(s[i]))
  }

  /** The byte written by the digit pair `hi lo`. */
  function PairValue(hi: char, lo: char): byte
    requires IsHexChar(hi) && IsHexChar(lo)
  {
    16 * DigitValue(hi) + DigitValue(lo)
  }

  /** A pair's byte splits back into the pair's digit values. */
  lemma PairDigits(hi: char, lo: char)
    requires IsHexChar(hi) && IsHexChar(lo)
    ensures PairValue(hi, lo) / 16 == DigitValue(hi)
    ensures PairValue(hi, lo) % 16 == DigitValue(lo)
  {
  }

  lemma EvenOrOdd(j: nat)
    ensures j == 2 * (j / 2) || j == 2 * (j / 2) + 1
  {
  }

  /** `bytes_to_hex`: two lowercase digits per byte, high nibble first. */
  function BytesToHex(bytes: seq<byte>): (hex: string)
    ensures |hex| == 2 * |bytes|
    ensures forall i :: 0 <= i < |hex| ==> IsLowerHexChar(hex[i])
    ensures forall i :: 0 <= i < |bytes| ==>
      hex[2 * i] == HexDigit(bytes[i] / 16) && hex[2 * i + 1] == HexDigit(bytes[i] % 16)
  {
    if |bytes| == 0 then []
    else
      var rest := BytesToHex(bytes[1..]);
      var hex := [HexDigit(bytes[0] / 16), HexDigit(bytes[0] % 16)] + rest;
      assert forall i :: 1 <= i < |bytes| ==>
        hex[2 * i] == rest[2 * (i - 1)] && hex[2 * i + 1] == rest[2 * (i - 1) + 1];
      hex
  }

  /** Decodes the digit pairs of `hex[from..]`; errors report absolute
      positions in `hex`. */
  function DecodePairs(hex: string, from: nat): (r: Result<seq<byte>, HexError>)
    requires from <= |hex| && (|hex| - from) % 2 == 0
    ensures r.Ok? <==> forall j :: from <= j < |hex| ==> IsHexChar(hex[j])
    ensures r.Ok? ==> |r.value| == (|hex| - from) / 2
    ensures r.Ok? ==> forall i :: 0 <= i < |r.value| ==>
      r.value[i] == PairValue(hex[from + 2 * i], hex[from + 2 * i + 1])
    ensures r.Err? ==> r.error.InvalidChar?
    ensures r.Err? ==> from <= r.error.index < |hex|
    ensures r.Err? ==> hex[r.error.index] == r.error.c && !IsHexChar(r.error.c)
    ensures r.Err? ==> forall j :: from <= j < r.error.index ==> IsHexChar(hex[j])
    decreases |hex| - from
  {
    if from == |hex| then Ok([])
    else if !IsHexChar(hex[from]) then Err(InvalidChar(hex[from], from))
    else if !IsHexChar(hex[from + 1]) then Err(InvalidChar(hex[from + 1], from + 1))
    else
      match DecodePairs(hex, from + 2)
      case Err(e) => Err(e)
      case Ok(rest) =>
        var bytes := [PairValue(hex[from], hex[from + 1])] + rest;
        assert forall i :: 1 <= i < |bytes| ==> bytes[i] == rest[i - 1];
        Ok(bytes)
  }

  /** `hex_to_bytes`: the crate's `hex::decode` with its structured error. */
  function HexToBytes(hex: string): (r: Result<seq<byte>, HexError>)
    ensures r.Ok? <==> |hex| % 2 == 0 && forall j :: 0 <= j < |hex| ==> IsHexChar(hex[j])
    ensures r.Ok? ==> |r.value| == |hex| / 2
    ensures r.Ok? ==> forall i :: 0 <= i < |r.value| ==>
      r.value[i] == PairValue(hex[2 * i], hex[2 * i + 1])
    ensures r == Err(OddLength) <==> |hex| % 2 == 1
    ensures r.Err? && r.error.InvalidChar? ==>
      && r.error.index < |hex|
      && hex[r.error.index] == r.error.c
      && !IsHexChar(r.error.c)
      && forall j :: 0 <= j < r.error.index ==> IsHexChar(hex[j])
  {
    if |hex| % 2 != 0 then Err(OddLength) else DecodePairs(hex, 0)
  }

  /** `decode_hex`: the same decoder, with the error turned into its text. */
  function DecodeHex(hex: string): (r: Result<seq<byte>, HexErrorText>)
    ensures r.Ok? <==> |hex| % 2 == 0 && forall j :: 0 <= j < |hex| ==> IsHexChar(hex[j])
    ensures r == Err(Rendered(OddLength)) <==> |hex| % 2 == 1
  {
    match HexToBytes(hex)
    case Ok(bytes) => Ok(bytes)
    case Err(e) => Err(Rendered(e))
  }

  /** The two decoders accept the same strings, return the same bytes, and
      fail for the same reason; only the error's representation differs. */
  lemma DecodersAgree(hex: string)
    ensures DecodeHex(hex).Ok? <==> HexToBytes(hex).Ok?
    ensures DecodeHex(hex).Ok? ==> DecodeHex(hex).value == HexToBytes(hex).value
    ensures DecodeHex(hex).Err? ==> DecodeHex(hex).error == Rendered(HexToBytes(hex).error)
  {
  }

  /** Decoding what the encoder wrote gives back the bytes. */
  lemma {:induction false} HexRoundTrip(bytes: seq<byte>)
    ensures HexToBytes(BytesToHex(bytes)) == Ok(bytes)
    ensures DecodeHex(BytesToHex(bytes)) == Ok(bytes)
  {
    var hex := BytesToHex(bytes);
    var r := HexToBytes(hex);
    assert r.Ok?;
    forall i | 0 <= i < |bytes|
      ensures r.value[i] == bytes[i]
    {
      assert r.value[i] == 16 * (bytes[i] / 16) + bytes[i] % 16;
    }
    assert r.value == bytes;
  }

  /** Encoding what the decoder accepted gives back the input with its
      uppercase digits lowered. */
  lemma {:induction false} EncodeDecoded(hex: string)
    requires HexToBytes(hex).Ok?
    ensures BytesToHex(HexToBytes(hex).value) == LowerCase(hex)
  {
    var bytes := HexToBytes(hex).value;
    var out := BytesToHex(bytes);
    var lower := LowerCase(hex);
    forall i | 0 <= i < |bytes|
      ensures out[2 * i] == lower[2 * i] && out[2 * i + 1] == lower[2 * i + 1]
    {
      PairDigits(hex[2 * i], hex[2 * i + 1]);
      LowerDigit(hex[2 * i]);
      LowerDigit(hex[2 * i + 1]);
    }
    forall j | 0 <= j < |hex|
      ensures out[j] == lower[j]
    {
      EvenOrOdd(j);
    }
    assert out == lower;
  }

  /** Input case does not matter: a string and its lowercased form are
      accepted together and decode to the same bytes. */
  lemma DecodeIgnoresCase(hex: string)
    ensures HexToBytes(LowerCase(hex)).Ok? <==> HexToBytes(hex).Ok?
    ensures HexToBytes(hex).Ok? ==> HexToBytes(LowerCase(hex)) == HexToBytes(hex)
  {
    var lower := LowerCase(hex);
    forall j | 0 <= j < |hex|
      ensures IsHexChar(lower[j]) <==> IsHexChar(hex[j])
      ensures IsHexChar(hex[j]) ==> DigitValue(lower[j]) == DigitValue(hex[j])
    {
      if IsHexChar(hex[j]) {
        LowerDigit(hex[j]);
      }
    }
    if HexToBytes(hex).Ok? {
      var a := HexToBytes(hex).value;
      var b := HexToBytes(lower).value;
      assert |a| == |b|;
      forall i | 0 <= i < |a|
        ensures a[i] == b[i]
      {
        assert a[i] == PairValue(hex[2 * i], hex[2 * i + 1]);
        assert b[i] == PairValue(lower[2 * i], lower[2 * i + 1]);
      }
      assert a == b;
    }
  }
}
