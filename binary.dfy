/** The body of a STEP binary literal (ISO 10303-21:2002, clause 6.4.6): the
    text between the two double quotes, one padding digit followed by
    upper-case hexadecimal digits, read as an unsigned number and its exact
    bit count. */
module BinaryCodec {
  import opened Results
  import opened Numerals

  /** A decoded binary literal: its value and the number of bits it spells. */
  datatype BitString = BitString(value: nat, bits: nat)

  /** Decodes s[i..end]. Only the padding digit `0` (no unused leading bits)
      is part of this model; `1`, `2` and `3` are reported as Unsupported. */
  function DecodeBinaryFrom(s: seq<char>, i: nat, end: nat): (r: Result<BitString>)
    requires i <= end <= |s|
    ensures r.Success? ==> r.value.value < Pow(2, r.value.bits)
    ensures r.Success? ==> r.value.bits == 4 * (end - i - 1)
    ensures r.Success? <==> i < end && s[i] == '0' && AllDigits(s, i + 1, end, Hex)
  {
    if i == end then Failure(DecodeError(i, "missing padding digit"))
    else if s[i] == '0' then
      match NumeralValue(s, i + 1, end, Hex)
      case None => Failure(DecodeError(i + 1, "hex digit"))
      case Some(v) =>
        HexDigitsAreNibbles(end - i - 1);
        Success(BitString(v, 4 * (end - i - 1)))
    else if '1' <= s[i] <= '3' then Failure(Unsupported(i, "padding"))
    else Failure(DecodeError(i, "padding digit 0 to 3"))
  }

  /** The decoder's contract: the raw text between the two double quotes in. */
  function DecodeBinary(body: seq<char>): Result<BitString> {
    DecodeBinaryFrom(body, 0, |body|)
  }

  /** A bit string that a binary literal with padding digit 0 can spell. */
  predicate Encodable(b: BitString) {
    b.bits % 4 == 0 && b.value < Pow(2, b.bits)
  }

  /** The partner of the decoder: padding digit 0, then bits / 4 hex digits. */
  function EncodeBinary(b: BitString): seq<char> {
    "0" + NumeralText(b.value, b.bits / 4, Hex)
  }

  /** The round trip: decoding an encoded bit string gives it back. */
  lemma DecodeEncodeBinary(b: BitString, s: seq<char>, i: nat, end: nat)
    requires Encodable(b)
    requires i <= end <= |s| && s[i..end] == EncodeBinary(b)
    ensures DecodeBinaryFrom(s, i, end) == Success(b)
  {
    var w := b.bits / 4;
    assert s[i] == s[i..end][0];
    assert s[i + 1..i + 1 + w] == NumeralText(b.value, w, Hex) by {
      assert s[i + 1..i + 1 + w] == s[i..end][1..];
    }
    HexDigitsAreNibbles(w);
    NumeralRoundTrip(b.value, w, Hex, s, i + 1);
  }
}
