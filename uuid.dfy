/** The textual form of a 16-byte UUID, as `uuid.UUID.String()` produces it:
    lower-case hexadecimal in groups of 8-4-4-4-12 digits separated by dashes
    (section 4 of RFC 9562). `ParseCanonical` is a reference inverse of that form,
    used to state that the form loses nothing. */
module Uuid {
  import opened Wrappers

  type byte = x: int | 0 <= x < 256

  /** `uuid.UUID` is a `[16]byte`. */
  type UUID = s: seq<byte> | |s| == 16 witness seq(16, i => 0)

  /** The value of one hexadecimal digit, upper- or lower-case. */
  function DigitValue(c: char): (v: Option<int>)
    ensures v.Some? ==> 0 <= v.value < 16
  {
    if '0' <= c <= '9' then Some(c as int - '0' as int)
    else if 'a' <= c <= 'f' then Some(c as int - 'a' as int + 10)
    else if 'A' <= c <= 'F' then Some(c as int - 'A' as int + 10)
    else None
  }

  /** A digit of the lower-case hexadecimal alphabet. */
  predicate IsLowerHexDigit(c: char)
  {
    '0' <= c <= '9' || 'a' <= c <= 'f'
  }

  /** The lower-case digit for a nibble. */
  function HexDigit(n: int): (c: char)
    requires 0 <= n < 16
    ensures DigitValue(c) == Some(n)
    ensures IsLowerHexDigit(c)
  {
    if n < 10 then ('0' as int + n) as char else ('a' as int + n - 10) as char
  }

  /** Two lower-case digits per byte, high nibble first (Go's `hex.Encode`). */
  function HexEncode(bs: seq<byte>): (s: string)
    ensures |s| == 2 * |bs|
    ensures forall i :: 0 <= i < |s| ==> IsLowerHexDigit(s[i])
  {
    if bs == [] then []
    else [HexDigit(bs[0] / 16), HexDigit(bs[0] % 16)] + HexEncode(bs[1..])
  }

  /** Reads pairs of hexadecimal digits back into bytes. */
  function HexDecode(s: string): (r: Option<seq<byte>>)
    ensures r.Some? ==> 2 * |r.value| == |s|
  {
    if |s| == 0 then Some([])
    else if |s| == 1 then None
    else match (DigitValue(s[0]), DigitValue(s[1]), HexDecode(s[2..]))
      case (Some(hi), Some(lo), Some(rest)) => Some([hi * 16 + lo] + rest)
      case _ => None
  }

  /** `uuid.UUID.String()`. */
  function UuidString(u: UUID): (s: string)
    ensures |s| == 36
    ensures s[8] == '-' && s[13] == '-' && s[18] == '-' && s[23] == '-'
    ensures forall i :: 0 <= i < 36 && i != 8 && i != 13 && i != 18 && i != 23 ==> IsLowerHexDigit(s[i])
  {
    HexEncode(u[..4]) + "-" + HexEncode(u[4..6]) + "-" + HexEncode(u[6..8]) + "-"
      + HexEncode(u[8..10]) + "-" + HexEncode(u[10..])
  }

  /** Accepts exactly the 36-character dashed form and returns the bytes it spells. */
  function ParseCanonical(s: string): Option<UUID>
  {
    if |s| != 36 || s[8] != '-' || s[13] != '-' || s[18] != '-' || s[23] != '-' then None
    else match HexDecode(s[..8] + s[9..13] + s[14..18] + s[19..23] + s[24..])
      case Some(bs) => if |bs| == 16 then Some(bs) else None
      case None => None
  }

  lemma {:induction false} HexEncodeAppend(a: seq<byte>, b: seq<byte>)
    ensures HexEncode(a + b) == HexEncode(a) + HexEncode(b)
  {
    if a != [] {
      assert (a + b)[1..] == a[1..] + b;
      HexEncodeAppend(a[1..], b);
    } else {
      assert a + b == b;
    }
  }

  /** Decoding undoes encoding. */
  lemma {:induction false} HexRoundTrip(bs: seq<byte>)
    ensures HexDecode(HexEncode(bs)) == Some(bs)
  {
    if bs != [] {
      var s := HexEncode(bs);
      assert s[2..] == HexEncode(bs[1..]);
      HexRoundTrip(bs[1..]);
      assert bs[0] / 16 * 16 + bs[0] % 16 == bs[0];
      assert [bs[0]] + bs[1..] == bs;
    }
  }

  /** The string form of a UUID gives back that UUID. */
  lemma UuidStringRoundTrip(u: UUID)
    ensures ParseCanonical(UuidString(u)) == Some(u)
  {
    var s := UuidString(u);
    var g0, g1, g2, g3, g4 := HexEncode(u[..4]), HexEncode(u[4..6]), HexEncode(u[6..8]),
      HexEncode(u[8..10]), HexEncode(u[10..]);
    assert s == g0 + "-" + g1 + "-" + g2 + "-" + g3 + "-" + g4;
    assert s[..8] == g0;
    assert s[9..13] == g1;
    assert s[14..18] == g2;
    assert s[19..23] == g3;
    assert s[24..] == g4;
    HexEncodeAppend(u[..4], u[4..6]);
    assert u[..4] + u[4..6] == u[..6];
    HexEncodeAppend(u[..6], u[6..8]);
    assert u[..6] + u[6..8] == u[..8];
    HexEncodeAppend(u[..8], u[8..10]);
    assert u[..8] + u[8..10] == u[..10];
    HexEncodeAppend(u[..10], u[10..]);
    assert u[..10] + u[10..] == u;
    assert g0 + g1 + g2 + g3 + g4 == HexEncode(u);
    HexRoundTrip(u);
  }

  /** Different UUIDs have different string forms. */
  lemma UuidStringInjective(u1: UUID, u2: UUID)
    ensures UuidString(u1) == UuidString(u2) ==> u1 == u2
  {
    UuidStringRoundTrip(u1);
    UuidStringRoundTrip(u2);
  }
}
