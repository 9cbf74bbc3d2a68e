/** The two text conversions the card services rely on, specified directly:
    ASCII decoding of bytes (System.Text.Encoding.ASCII) and the hyphenated
    upper-case hex form of a byte array (System.BitConverter.ToString). */
module Text {
  import opened Pcsc

  /** ASCII decoding of one byte: 7-bit values map to the character with the
      same code, every other byte to the replacement character '?'. */
  function AsciiChar(b: byte): (c: char)
    ensures b < 0x80 ==> c as int == b as int
    ensures b >= 0x80 ==> c == '?'
  {
    if b < 0x80 then b as int as char else '?'
  }

  /** ASCII decoding of a byte sequence, one character per byte. */
  function AsciiString(bytes: seq<byte>): (s: string)
    ensures |s| == |bytes|
    ensures forall i :: 0 <= i < |bytes| ==> s[i] == AsciiChar(bytes[i])
  {
    if bytes == [] then "" else [AsciiChar(bytes[0])] + AsciiString(bytes[1..])
  }

  /** The byte encoding of a 7-bit string, the partner of AsciiString. */
  function AsciiBytes(s: string): (bytes: seq<byte>)
    requires forall i :: 0 <= i < |s| ==> s[i] as int < 0x80
    ensures |bytes| == |s|
  {
    seq(|s|, i requires 0 <= i < |s| => s[i] as int as byte)
  }

  /** Decoding then encoding 7-bit bytes gives the bytes back. */
  lemma AsciiRoundTrip(bytes: seq<byte>)
    requires forall i :: 0 <= i < |bytes| ==> bytes[i] < 0x80
    ensures forall i :: 0 <= i < |bytes| ==> AsciiString(bytes)[i] as int < 0x80
    ensures AsciiBytes(AsciiString(bytes)) == bytes
  {
    var s := AsciiString(bytes);
    forall i | 0 <= i < |bytes|
      ensures s[i] as int == bytes[i] as int
    {
      assert s[i] == AsciiChar(bytes[i]);
    }
  }

  const HexDigits: string := "0123456789ABCDEF"

  function HexDigit(n: int): (c: char)
    requires 0 <= n < 16
  {
    HexDigits[n]
  }

  /** The value of an upper-case hex digit, the partner of HexDigit. */
  function HexValue(c: char): (n: int)
    ensures 0 <= n < 16
  {
    if '0' <= c <= '9' then c as int - '0' as int
    else if 'A' <= c <= 'F' then c as int - 'A' as int + 10
    else 0
  }

  lemma HexDigitValue(n: int)
    requires 0 <= n < 16
    ensures HexValue(HexDigit(n)) == n
    ensures HexDigit(n) != '-'
  {
  }

  /** The two hex digits of a byte, high nibble first. */
  function HexPair(b: byte): (s: string)
    ensures |s| == 2
  {
    [HexDigit(b as int / 16), HexDigit(b as int % 16)]
  }

  /** One character of the hex form: position k belongs to byte k / 3 and is
      its high digit, its low digit or the separator after it. */
  ghost predicate HexCharAt(bytes: seq<byte>, s: string, k: int)
    requires 0 <= k < |s| && 0 <= k / 3 < |bytes|
  {
    if k % 3 == 0 then s[k] == HexDigit(bytes[k / 3] as int / 16)
    else if k % 3 == 1 then s[k] == HexDigit(bytes[k / 3] as int % 16)
    else s[k] == '-'
  }

  /** The bytes as two-digit upper-case hex pairs separated by '-', as
      BitConverter.ToString renders them; empty input gives the empty
      string. */
  function HexString(bytes: seq<byte>): (s: string)
    ensures bytes == [] ==> s == ""
    ensures bytes != [] ==> |s| == 3 * |bytes| - 1
  {
    if bytes == [] then ""
    else if |bytes| == 1 then HexPair(bytes[0])
    else HexPair(bytes[0]) + "-" + HexString(bytes[1..])
  }

  /** Every character of the hex form is the digit or separator its
      position calls for. */
  lemma {:induction false} HexStringAt(bytes: seq<byte>, k: int)
    requires 0 <= k < |HexString(bytes)|
    ensures k / 3 < |bytes| && HexCharAt(bytes, HexString(bytes), k)
  {
    var s := HexString(bytes);
    if 3 <= k {
      var rest := HexString(bytes[1..]);
      assert s == HexPair(bytes[0]) + "-" + rest;
      HexStringAt(bytes[1..], k - 3);
      assert s[k] == rest[k - 3];
      assert (k - 3) / 3 == k / 3 - 1 && (k - 3) % 3 == k % 3;
    }
  }

  /** Reads the bytes back from their hex form. */
  function ParseHexString(s: string): (bytes: seq<byte>)
  {
    seq((|s| + 1) / 3, i requires 0 <= i < (|s| + 1) / 3 =>
      if 3 * i + 1 < |s| then (16 * HexValue(s[3 * i]) + HexValue(s[3 * i + 1])) as byte else 0)
  }

  /** The hex form determines the bytes: parsing it gives them back. */
  lemma HexStringRoundTrip(bytes: seq<byte>)
    ensures ParseHexString(HexString(bytes)) == bytes
  {
    var s := HexString(bytes);
    var r := ParseHexString(s);
    assert |r| == |bytes|;
    forall i | 0 <= i < |bytes|
      ensures r[i] == bytes[i]
    {
      HexStringAt(bytes, 3 * i);
      HexStringAt(bytes, 3 * i + 1);
      assert (3 * i) / 3 == i && (3 * i) % 3 == 0;
      assert (3 * i + 1) / 3 == i && (3 * i + 1) % 3 == 1;
      HexDigitValue(bytes[i] as int / 16);
      HexDigitValue(bytes[i] as int % 16);
    }
  }

  /** Hyphens stand exactly at the positions 2, 5, 8, ... between pairs. */
  lemma HexSeparators(bytes: seq<byte>, k: int)
    requires 0 <= k < |HexString(bytes)|
    ensures HexString(bytes)[k] == '-' <==> k % 3 == 2
  {
    HexStringAt(bytes, k);
    if k % 3 == 0 {
      HexDigitValue(bytes[k / 3] as int / 16);
    } else if k % 3 == 1 {
      HexDigitValue(bytes[k / 3] as int % 16);
    }
  }
}
