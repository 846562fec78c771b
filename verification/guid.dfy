/**
 * GUID text and byte forms, as Python's `uuid` module produces them for the
 * plugin: `uuid.UUID(text).bytes_le` when the table is loaded, and
 * `str(uuid.UUID(bytes_le=b))` when a match is reported.
 *
 * `bytes_le` is the layout of section 4.1.2 of RFC 4122 with the first three
 * fields (time_low, time_mid, time_hi_and_version) stored little-endian and
 * the eight clock_seq/node bytes kept in written order.
 */
module Guid {
  import opened Wrappers
  import Text

  type byte = b: int | 0 <= b < 256

  predicate IsHexDigit(c: char) {
    '0' <= c <= '9' || 'a' <= c <= 'f' || 'A' <= c <= 'F'
  }

  predicate AllHex(s: string) {
    forall i | 0 <= i < |s| :: IsHexDigit(s[i])
  }

  function HexValue(c: char): (v: nat)
    requires IsHexDigit(c)
    ensures v < 16
  {
    if '0' <= c <= '9' then c as int - '0' as int
    else if 'a' <= c <= 'f' then c as int - 'a' as int + 10
    else c as int - 'A' as int + 10
  }

  /** The lower-case digit `'%x'` prints for `v`. */
  function HexDigit(v: nat): (c: char)
    requires v < 16
    ensures IsHexDigit(c) && HexValue(c) == v
    ensures c != '-' && c != ':' && c != 'u' && c != '{' && c != '}'
  {
    if v < 10 then ('0' as int + v) as char else ('a' as int + v - 10) as char
  }

  function HexByte(hi: char, lo: char): byte
    requires IsHexDigit(hi) && IsHexDigit(lo)
  {
    16 * HexValue(hi) + HexValue(lo)
  }

  /** Big-endian reading of an even-length hex string, two digits per byte. */
  function DecodeHex(h: string): (r: seq<byte>)
    requires |h| % 2 == 0 && AllHex(h)
    ensures |r| == |h| / 2
    decreases |h|
  {
    if |h| == 0 then [] else [HexByte(h[0], h[1])] + DecodeHex(h[2..])
  }

  /** Lower-case hex text of `b`, two digits per byte. */
  function EncodeHex(b: seq<byte>): (h: string)
    ensures |h| == 2 * |b| && AllHex(h)
    ensures forall i | 0 <= i < |h| :: h[i] != '-' && h[i] != ':' && h[i] != 'u' && h[i] != '{' && h[i] != '}'
    decreases |b|
  {
    if |b| == 0 then [] else [HexDigit(b[0] / 16), HexDigit(b[0] % 16)] + EncodeHex(b[1..])
  }

  function Reverse<T>(s: seq<T>): (r: seq<T>)
    ensures |r| == |s|
    ensures forall i | 0 <= i < |s| :: r[i] == s[|s| - 1 - i]
    decreases |s|
  {
    if |s| == 0 then [] else Reverse(s[1..]) + [s[0]]
  }

  /**
   * Converts between the big-endian byte order of the 32 hex digits and the
   * `bytes_le` order: the first three RFC 4122 fields are byte-reversed, the
   * last eight bytes stay put. The conversion is its own inverse.
   */
  function SwapFields(b: seq<byte>): (r: seq<byte>)
    requires |b| == 16
    ensures |r| == 16
    ensures forall i | 0 <= i < 16 :: r[i] == b[SwapIndex(i)]
  {
    Reverse(b[..4]) + Reverse(b[4..6]) + Reverse(b[6..8]) + b[8..]
  }

  /** Where byte `i` of the `bytes_le` form sits in big-endian order. */
  function SwapIndex(i: nat): nat
    requires i < 16
  {
    if i < 4 then 3 - i else if i < 6 then 9 - i else if i < 8 then 13 - i else i
  }

  /** `uuid.UUID(text)` keeps, of its argument, what this function returns. */
  function Normalize(s: string): string {
    var noPrefix := Text.RemoveAll(Text.RemoveAll(s, "urn:"), "uuid:");
    Text.RemoveAll(Text.Strip(noPrefix, {'{', '}'}), "-")
  }

  /**
   * `uuid.UUID(text).bytes_le`, or `None` where `uuid.UUID` raises: the
   * normalised text must be exactly 32 hex digits.
   */
  function Parse(s: string): (r: Option<seq<byte>>)
    ensures r.Some? ==> |r.value| == 16
  {
    var h := Normalize(s);
    if |h| == 32 && AllHex(h) then Some(SwapFields(DecodeHex(h))) else None
  }

  /** The canonical 8-4-4-4-12 text that `str(uuid.UUID(...))` prints, digits in either case. */
  predicate IsCanonical(s: string) {
    && |s| == 36
    && s[8] == '-' && s[13] == '-' && s[18] == '-' && s[23] == '-'
    && forall i | 0 <= i < 36 && i != 8 && i != 13 && i != 18 && i != 23 :: IsHexDigit(s[i])
  }

  /** Inserts the four hyphens of the canonical form into 32 hex digits. */
  function Hyphenate(h: string): string
    requires |h| == 32
  {
    h[..8] + "-" + h[8..12] + "-" + h[12..16] + "-" + h[16..20] + "-" + h[20..]
  }

  /** `str(uuid.UUID(bytes_le=b))`, the text reported for a match. */
  function Format(b: seq<byte>): (s: string)
    requires |b| == 16
    ensures IsCanonical(s)
  {
    var h := EncodeHex(SwapFields(b));
    HyphenateCanonical(h);
    Hyphenate(h)
  }

  lemma HyphenateCanonical(h: string)
    requires |h| == 32 && AllHex(h)
    ensures IsCanonical(Hyphenate(h))
  {
    var s := Hyphenate(h);
    forall i | 0 <= i < 36 && i != 8 && i != 13 && i != 18 && i != 23
      ensures IsHexDigit(s[i])
    {
      if i < 8 { assert s[i] == h[i]; }
      else if i < 13 { assert s[i] == h[i - 1]; }
      else if i < 18 { assert s[i] == h[i - 2]; }
      else if i < 23 { assert s[i] == h[i - 3]; }
      else { assert s[i] == h[i - 4]; }
    }
  }

  /** The 32 digits of a canonical text, hyphens removed. */
  function Digits(s: string): string
    requires |s| == 36
  {
    s[..8] + s[9..13] + s[14..18] + s[19..23] + s[24..]
  }

  lemma NoHyphenInHex(g: string)
    requires AllHex(g)
    ensures Text.RemoveAll(g, "-") == g
  {
    Text.NotContainsWithoutFirstChar(g, "-");
  }

  /** Deleting hyphens around one hyphen joins what is left on either side. */
  lemma RemoveHyphenJoin(a: string, b: string)
    ensures Text.RemoveAll(a + "-" + b, "-") == Text.RemoveAll(a, "-") + Text.RemoveAll(b, "-")
  {
    Text.RemoveCharConcat(a + "-", b, '-');
    Text.RemoveCharConcat(a, "-", '-');
    Text.RemoveOwnChar('-');
  }

  /** Stripping prefixes and braces leaves a canonical text unchanged. */
  lemma PrefixesAndBracesAbsent(s: string)
    requires IsCanonical(s)
    ensures Text.Strip(Text.RemoveAll(Text.RemoveAll(s, "urn:"), "uuid:"), {'{', '}'}) == s
  {
    PrefixAbsent(s, "urn:");
    PrefixAbsent(s, "uuid:");
    NoBraceEnds(s);
  }

  /** Neither prefix can occur: both start with `u`, which is not a hex digit. */
  lemma PrefixAbsent(s: string, prefix: string)
    requires IsCanonical(s) && |prefix| > 0 && prefix[0] == 'u'
    ensures Text.RemoveAll(s, prefix) == s
  {
    NoPrefixLetter(s);
    Text.NotContainsWithoutFirstChar(s, prefix);
  }

  lemma NoBraceEnds(s: string)
    requires IsCanonical(s)
    ensures Text.Strip(s, {'{', '}'}) == s
  {
    assert IsHexDigit(s[0]) && IsHexDigit(s[35]);
  }

  lemma NoPrefixLetter(s: string)
    requires IsCanonical(s)
    ensures forall i | 0 <= i < |s| :: s[i] != 'u'
  {
  }

  /** A canonical text is its five hex groups joined by hyphens. */
  lemma CanonicalSplit(s: string)
    requires IsCanonical(s)
    ensures s == s[..8] + "-" + s[9..13] + "-" + s[14..18] + "-" + s[19..23] + "-" + s[24..]
  {
    HyphenAt(s, 0, 8, 13);
    HyphenAt(s, 0, 13, 18);
    HyphenAt(s, 0, 18, 23);
    HyphenAt(s, 0, 23, 36);
    assert s[..13] == s[..8] + "-" + s[9..13];
    assert s[..18] == s[..13] + "-" + s[14..18];
    assert s[..23] == s[..18] + "-" + s[19..23];
    assert s[..36] == s[..23] + "-" + s[24..];
  }

  lemma HyphenAt(s: string, i: nat, k: nat, j: nat)
    requires i <= k < j <= |s| && s[k] == '-'
    ensures s[i..j] == s[i..k] + "-" + s[k + 1..j]
  {
  }

  lemma RemoveHyphens(g1: string, g2: string, g3: string, g4: string, g5: string)
    requires AllHex(g1) && AllHex(g2) && AllHex(g3) && AllHex(g4) && AllHex(g5)
    ensures Text.RemoveAll(g1 + "-" + g2 + "-" + g3 + "-" + g4 + "-" + g5, "-") == g1 + g2 + g3 + g4 + g5
  {
    NoHyphenInHex(g1);
    NoHyphenInHex(g2);
    NoHyphenInHex(g3);
    NoHyphenInHex(g4);
    NoHyphenInHex(g5);
    RemoveHyphenJoin(g1, g2);
    RemoveHyphenJoin(g1 + "-" + g2, g3);
    RemoveHyphenJoin(g1 + "-" + g2 + "-" + g3, g4);
    RemoveHyphenJoin(g1 + "-" + g2 + "-" + g3 + "-" + g4, g5);
  }

  /** Normalising a canonical text only drops its four hyphens. */
  lemma NormalizeCanonical(s: string)
    requires IsCanonical(s)
    ensures Normalize(s) == Digits(s)
  {
    PrefixesAndBracesAbsent(s);
    CanonicalSplit(s);
    RemoveHyphens(s[..8], s[9..13], s[14..18], s[19..23], s[24..]);
  }

  lemma {:induction false} DecodeEncode(b: seq<byte>)
    ensures DecodeHex(EncodeHex(b)) == b
    decreases |b|
  {
    if |b| > 0 {
      var h := EncodeHex(b);
      assert h[2..] == EncodeHex(b[1..]);
      DecodeEncode(b[1..]);
      assert HexByte(h[0], h[1]) == 16 * (b[0] / 16) + b[0] % 16 == b[0];
    }
  }

  lemma SwapFieldsInvolutive(b: seq<byte>)
    requires |b| == 16
    ensures SwapFields(SwapFields(b)) == b
  {
    var r := SwapFields(SwapFields(b));
    forall i | 0 <= i < 16
      ensures r[i] == b[i]
    {
      assert SwapIndex(SwapIndex(i)) == i;
    }
  }

  lemma DigitsHyphenate(h: string)
    requires |h| == 32
    ensures Digits(Hyphenate(h)) == h
  {
    var s := Hyphenate(h);
    assert s[..8] == h[..8];
    assert s[9..13] == h[8..12];
    assert s[14..18] == h[12..16];
    assert s[19..23] == h[16..20];
    assert s[24..] == h[20..];
    assert h == h[..8] + h[8..12] + h[12..16] + h[16..20] + h[20..];
  }

  lemma AllHexDigits(s: string)
    requires IsCanonical(s)
    ensures AllHex(Digits(s))
  {
    var d := Digits(s);
    forall i | 0 <= i < 32
      ensures IsHexDigit(d[i])
    {
      if i < 8 { assert d[i] == s[i]; }
      else if i < 12 { assert d[i] == s[i + 1]; }
      else if i < 16 { assert d[i] == s[i + 2]; }
      else if i < 20 { assert d[i] == s[i + 3]; }
      else { assert d[i] == s[i + 4]; }
    }
  }

  /** A canonical text parses to the swapped big-endian reading of its 32 digits. */
  lemma ParseCanonical(s: string)
    requires IsCanonical(s)
    ensures AllHex(Digits(s))
    ensures Parse(s) == Some(SwapFields(DecodeHex(Digits(s))))
  {
    NormalizeCanonical(s);
    AllHexDigits(s);
  }

  /**
   * Round trip of line 96: the text printed for a 16-byte `bytes_le` value
   * parses back to the same bytes.
   */
  lemma FormatParseRoundTrip(b: seq<byte>)
    requires |b| == 16
    ensures Parse(Format(b)) == Some(b)
  {
    var x := SwapFields(b);
    var h := EncodeHex(x);
    ParseCanonical(Format(b));
    DigitsHyphenate(h);
    DecodeEncode(x);
    SwapFieldsInvolutive(b);
  }

  lemma {:induction false} DecodeHexConcat(a: string, b: string)
    requires |a| % 2 == 0 && AllHex(a) && |b| % 2 == 0 && AllHex(b)
    ensures AllHex(a + b) && DecodeHex(a + b) == DecodeHex(a) + DecodeHex(b)
    decreases |a|
  {
    if |a| > 0 {
      assert (a + b)[2..] == a[2..] + b;
      DecodeHexConcat(a[2..], b);
    } else {
      assert a + b == b;
    }
  }

  lemma CanonicalGroupsHex(s: string)
    requires IsCanonical(s)
    ensures AllHex(s[..8]) && AllHex(s[9..13]) && AllHex(s[14..18]) && AllHex(s[19..23]) && AllHex(s[24..])
  {
  }

  /** Decoding the 32 digits decodes each hex group in turn. */
  lemma DecodeGroups(s: string)
    requires IsCanonical(s)
    ensures AllHex(Digits(s))
    ensures AllHex(s[..8]) && AllHex(s[9..13]) && AllHex(s[14..18]) && AllHex(s[19..23]) && AllHex(s[24..])
    ensures DecodeHex(Digits(s)) == DecodeHex(s[..8]) + DecodeHex(s[9..13]) + DecodeHex(s[14..18]) + DecodeHex(s[19..23]) + DecodeHex(s[24..])
  {
    AllHexDigits(s);
    CanonicalGroupsHex(s);
    var g1, g2, g3, g4, g5 := s[..8], s[9..13], s[14..18], s[19..23], s[24..];
    DecodeHexConcat(g1 + g2 + g3 + g4, g5);
    DecodeHexConcat(g1 + g2 + g3, g4);
    DecodeHexConcat(g1 + g2, g3);
    DecodeHexConcat(g1, g2);
  }

  /** The `bytes_le` layout of a canonical text, group by group. */
  function LayoutOf(s: string): (r: seq<byte>)
    requires IsCanonical(s)
  {
    CanonicalGroupsHex(s);
    Reverse(DecodeHex(s[..8])) + Reverse(DecodeHex(s[9..13])) + Reverse(DecodeHex(s[14..18]))
      + (DecodeHex(s[19..23]) + DecodeHex(s[24..]))
  }

  /**
   * Line 85 (`bytes_le`) on a canonical GUID text: bytes 0-3, 4-5 and 6-7
   * are the first three hex groups read back to front, bytes 8-9 and 10-15
   * are the last two groups in written order.
   */
  lemma ParseLayout(s: string)
    requires IsCanonical(s)
    ensures Parse(s) == Some(LayoutOf(s))
  {
    ParseCanonical(s);
    SwappedDigitsLayout(s);
  }

  lemma SwappedDigitsLayout(s: string)
    requires IsCanonical(s)
    ensures AllHex(Digits(s))
    ensures SwapFields(DecodeHex(Digits(s))) == LayoutOf(s)
  {
    DecodeGroups(s);
    var d := DecodeHex(Digits(s));
    var a, b, c := DecodeHex(s[..8]), DecodeHex(s[9..13]), DecodeHex(s[14..18]);
    var e, f := DecodeHex(s[19..23]), DecodeHex(s[24..]);
    Regroup(a, b, c, e, f);
    SwapFieldsSplit(d, a, b, c, e + f);
  }

  lemma SwapFieldsSplit(d: seq<byte>, a: seq<byte>, b: seq<byte>, c: seq<byte>, e: seq<byte>)
    requires |a| == 4 && |b| == 2 && |c| == 2 && |e| == 8
    requires d == a + b + c + e
    ensures SwapFields(d) == Reverse(a) + Reverse(b) + Reverse(c) + e
  {
    assert d[..4] == a;
    assert d[4..6] == b;
    assert d[6..8] == c;
    assert d[8..] == e;
  }

  lemma Regroup<T>(a: seq<T>, b: seq<T>, c: seq<T>, e: seq<T>, f: seq<T>)
    ensures a + b + c + e + f == a + b + c + (e + f)
  {
  }
}
