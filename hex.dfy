/** Base16 text of a byte string, as `Convert.ToHexString` writes it (two upper-case digits
    per byte, high nibble first, section 8 of RFC 4648), and the lower-cased form the supplier
    store keeps as a file's SHA-256 digest. */
module Hex {
  import opened Text
  import opened Records

  const UPPER_DIGITS: string := "0123456789ABCDEF"
  const LOWER_DIGITS: string := "0123456789abcdef"

  /** Two digits per byte, high nibble first, taken from the 16-letter alphabet `digits`. */
  function Base16(bs: seq<byte>, digits: string): (s: string)
    requires |digits| == 16
    ensures |s| == 2 * |bs|
  {
    if bs == [] then [] else [digits[bs[0] / 16], digits[bs[0] % 16]] + Base16(bs[1..], digits)
  }

  /** Byte `j` is written at positions `2j` and `2j + 1`. */
  lemma {:induction false} Base16At(bs: seq<byte>, digits: string, j: nat)
    requires |digits| == 16 && j < |bs|
    ensures Base16(bs, digits)[2 * j] == digits[bs[j] / 16]
    ensures Base16(bs, digits)[2 * j + 1] == digits[bs[j] % 16]
  {
    if j > 0 {
      var rest := Base16(bs[1..], digits);
      assert Base16(bs, digits)[2 * j] == rest[2 * (j - 1)];
      assert Base16(bs, digits)[2 * j + 1] == rest[2 * (j - 1) + 1];
      Base16At(bs[1..], digits, j - 1);
    }
  }

  /** `Convert.ToHexString(bytes)`. */
  function ToHexString(bs: seq<byte>): string {
    Base16(bs, UPPER_DIGITS)
  }

  /** `Convert.ToHexString(bytes).ToLowerInvariant()`: the digest text the store keeps. */
  function DigestText(bs: seq<byte>): string {
    LowerAscii(ToHexString(bs))
  }

  predicate IsLowerHexDigit(c: char) {
    '0' <= c <= '9' || 'a' <= c <= 'f'
  }

  /** Lower-case base16 text: an even number of lower-case hexadecimal digits. */
  predicate IsLowerHexText(s: string) {
    |s| % 2 == 0 && forall i :: 0 <= i < |s| ==> IsLowerHexDigit(s[i])
  }

  /** The value of a lower-case hexadecimal digit. */
  function DigitValue(c: char): (v: nat)
    requires IsLowerHexDigit(c)
    ensures v < 16
  {
    if c <= '9' then c as int - '0' as int else c as int - 'a' as int + 10
  }

  /** Each upper-case digit lower-cases to the lower-case digit of the same value, which is a
      lower-case hexadecimal digit that reads back as that value. */
  lemma DigitTables(d: nat)
    requires d < 16
    ensures ToLowerAscii(UPPER_DIGITS[d]) == LOWER_DIGITS[d]
    ensures IsLowerHexDigit(LOWER_DIGITS[d]) && DigitValue(LOWER_DIGITS[d]) == d
  {
    if d < 10 {
      assert UPPER_DIGITS[d] == LOWER_DIGITS[d] == ('0' as int + d) as char;
    } else {
      assert UPPER_DIGITS[d] == ('A' as int + d - 10) as char;
      assert LOWER_DIGITS[d] == ('a' as int + d - 10) as char;
    }
  }

  /** Lower-casing the upper-case text is the same as writing lower-case digits. */
  lemma DigestTextLower(bs: seq<byte>)
    ensures DigestText(bs) == Base16(bs, LOWER_DIGITS)
  {
    var u := ToHexString(bs);
    var l := Base16(bs, LOWER_DIGITS);
    forall i | 0 <= i < |u| ensures ToLowerAscii(u[i]) == l[i] {
      var j := i / 2;
      Base16At(bs, UPPER_DIGITS, j);
      Base16At(bs, LOWER_DIGITS, j);
      DigitTables(bs[j] / 16);
      DigitTables(bs[j] % 16);
      assert i == 2 * j || i == 2 * j + 1;
    }
  }

  /** The stored digest text is lower-case hexadecimal, two characters per byte; for a
      SHA-256 digest of 32 bytes that is 64 characters. */
  lemma DigestTextShape(bs: seq<byte>)
    ensures |DigestText(bs)| == 2 * |bs|
    ensures IsLowerHexText(DigestText(bs))
  {
    DigestTextLower(bs);
    var s := Base16(bs, LOWER_DIGITS);
    forall i | 0 <= i < |s| ensures IsLowerHexDigit(s[i]) {
      var j := i / 2;
      Base16At(bs, UPPER_DIGITS, j);
      Base16At(bs, LOWER_DIGITS, j);
      DigitTables(bs[j] / 16);
      DigitTables(bs[j] % 16);
      assert i == 2 * j || i == 2 * j + 1;
    }
  }

  /** Reads back lower-case base16 text. */
  function Unhex(s: string): (bs: seq<byte>)
    requires IsLowerHexText(s)
  {
    if s == [] then [] else [DigitValue(s[0]) * 16 + DigitValue(s[1])] + Unhex(s[2..])
  }

  lemma {:induction false} UnhexBase16(bs: seq<byte>)
    ensures IsLowerHexText(Base16(bs, LOWER_DIGITS)) && Unhex(Base16(bs, LOWER_DIGITS)) == bs
  {
    DigestTextShape(bs);
    DigestTextLower(bs);
    if bs != [] {
      var s := Base16(bs, LOWER_DIGITS);
      assert s[2..] == Base16(bs[1..], LOWER_DIGITS);
      UnhexBase16(bs[1..]);
      DigitTables(bs[0] / 16);
      DigitTables(bs[0] % 16);
    }
  }

  /** Reading the digest text back gives the digest. */
  lemma UnhexDigestText(bs: seq<byte>)
    ensures IsLowerHexText(DigestText(bs)) && Unhex(DigestText(bs)) == bs
  {
    DigestTextLower(bs);
    UnhexBase16(bs);
  }

  /** Different digests have different texts. */
  lemma DigestTextInjective(a: seq<byte>, b: seq<byte>)
    requires DigestText(a) == DigestText(b)
    ensures a == b
  {
    UnhexDigestText(a);
    UnhexDigestText(b);
  }
}
