/**
 * The license key generator: four groups of four random bytes become
 * `XXXXX-XXXXX-XXXXX-XXXXX`, each segment the first five characters of the
 * upper-cased hexadecimal encoding of one group. The random source is a
 * parameter, so the format is a deterministic function of it.
 */
module KeyGenerator {
  import opened Js

  newtype byte = b: int | 0 <= b < 256

  const SegmentCount: nat := 4
  const BytesPerSegment: nat := 4
  const SegmentLength: nat := 5
  const KeyLength: nat := 23

  /** `Buffer.toString('hex')` emits lower-case digits. */
  const LowerHexDigits: string := "0123456789abcdef"

  predicate IsUpperHex(c: char) {
    '0' <= c <= '9' || 'A' <= c <= 'F'
  }

  /** What the random source hands over: one group of four bytes per segment. */
  predicate WellFormedRandom(random: seq<seq<byte>>) {
    |random| == SegmentCount && forall i :: 0 <= i < |random| ==> |random[i]| == BytesPerSegment
  }

  predicate IsLowerHex(c: char) {
    '0' <= c <= '9' || 'a' <= c <= 'f'
  }

  /** `Buffer.toString('hex')`: two lower-case digits per byte, high nibble first. */
  function ToHex(bytes: seq<byte>): (s: string)
    ensures |s| == 2 * |bytes|
    ensures forall i :: 0 <= i < |s| ==> IsLowerHex(s[i])
    ensures forall i :: 0 <= i < |bytes| ==>
      s[2 * i] == LowerHexDigits[bytes[i] / 16] && s[2 * i + 1] == LowerHexDigits[bytes[i] % 16]
  {
    if |bytes| == 0 then ""
    else [LowerHexDigits[bytes[0] / 16], LowerHexDigits[bytes[0] % 16]] + ToHex(bytes[1..])
  }

  /** `randomBytes(4).toString('hex').toUpperCase().slice(0, 5)` for the given group. */
  function Segment(group: seq<byte>): (s: string)
    requires |group| == BytesPerSegment
    ensures |s| == SegmentLength
    ensures forall i :: 0 <= i < |s| ==> IsUpperHex(s[i])
  {
    var hex := ToHex(group);
    var upper := ToUpperCase(hex);
    assert forall i :: 0 <= i < |upper| ==> IsUpperHex(upper[i]) by {
      forall i | 0 <= i < |upper| ensures IsUpperHex(upper[i]) {
        UpperHex(hex[i]);
      }
    }
    upper[..SegmentLength]
  }

  /** Upper-casing keeps a hex digit a hex digit. */
  lemma UpperHex(c: char)
    requires IsLowerHex(c)
    ensures IsUpperHex(UpperChar(c))
  {
  }

  /** The key the generator produces from `random`. */
  function LicenseKey(random: seq<seq<byte>>): string
    requires WellFormedRandom(random)
  {
    Join(Segments(random), '-')
  }

  function Segments(random: seq<seq<byte>>): (segs: seq<string>)
    requires WellFormedRandom(random)
    ensures |segs| == SegmentCount
  {
    seq(SegmentCount, i requires 0 <= i < SegmentCount => Segment(random[i]))
  }

  /** The loop of the source: push one segment per group, then join with '-'. */
  method GenerateLicenseKey(random: seq<seq<byte>>) returns (key: string)
    requires WellFormedRandom(random)
    ensures key == LicenseKey(random)
  {
    var segments: seq<string> := [];
    for i := 0 to SegmentCount
      invariant |segments| == i
      invariant forall k :: 0 <= k < i ==> segments[k] == Segment(random[k])
    {
      var segment := Segment(random[i]);
      segments := segments + [segment];
    }
    assert segments == Segments(random);
    key := Join(segments, '-');
  }

  /** The key is the four segments with a dash between each pair. */
  lemma KeyLayout(random: seq<seq<byte>>)
    requires WellFormedRandom(random)
    ensures var s := Segments(random);
      LicenseKey(random) == s[0] + "-" + s[1] + "-" + s[2] + "-" + s[3]
  {
    var s := Segments(random);
    assert s == [s[0], s[1], s[2], s[3]];
    JoinFour(s[0], s[1], s[2], s[3]);
  }

  lemma JoinFour(a: string, b: string, c: string, d: string)
    ensures Join([a, b, c, d], '-') == a + "-" + b + "-" + c + "-" + d
  {
    assert [a, b, c, d][1..] == [b, c, d];
    assert [b, c, d][1..] == [c, d];
    assert [c, d][1..] == [d];
    assert Join([d], '-') == d;
    assert Join([c, d], '-') == c + "-" + d;
    assert Join([b, c, d], '-') == b + "-" + (c + "-" + d);
    assert Join([a, b, c, d], '-') == a + "-" + (b + "-" + (c + "-" + d));
  }

  /** Four five-character parts joined by dashes sit at indices 0, 6, 12 and 18. */
  lemma DashedParts(a: string, b: string, c: string, d: string)
    requires |a| == |b| == |c| == |d| == SegmentLength
    ensures var key := a + "-" + b + "-" + c + "-" + d;
      && |key| == KeyLength
      && key[0..5] == a && key[6..11] == b && key[12..17] == c && key[18..23] == d
  {
    var key := a + "-" + b + "-" + c + "-" + d;
    assert key == a + ("-" + b) + ("-" + c) + ("-" + d);
    assert key[0..5] == a;
    assert key[6..11] == b;
    assert key[12..17] == c;
    assert key[18..23] == d;
  }

  /** Segment `i` of the key sits at indices 6i .. 6i+5 and comes from group `i` alone. */
  lemma KeySegment(random: seq<seq<byte>>, i: nat)
    requires WellFormedRandom(random) && i < SegmentCount
    ensures |LicenseKey(random)| == KeyLength
    ensures LicenseKey(random)[6 * i .. 6 * i + SegmentLength] == Segment(random[i])
  {
    KeyLayout(random);
    var s := Segments(random);
    assert s[i] == Segment(random[i]);
    DashedParts(s[0], s[1], s[2], s[3]);
    if i == 0 {
    } else if i == 1 {
    } else if i == 2 {
    } else {
      assert i == 3;
    }
  }

  /**
   * The key is 23 characters long, has a dash at indices 5, 11 and 17 and
   * nowhere else, and every other character is an upper-case hex digit.
   */
  lemma KeyShape(random: seq<seq<byte>>)
    requires WellFormedRandom(random)
    ensures |LicenseKey(random)| == KeyLength
    ensures forall k :: 0 <= k < KeyLength ==>
      (LicenseKey(random)[k] == '-' <==> k == 5 || k == 11 || k == 17)
    ensures forall k :: 0 <= k < KeyLength && k != 5 && k != 11 && k != 17 ==>
      IsUpperHex(LicenseKey(random)[k])
  {
    KeyLayout(random);
    var s := Segments(random);
    var key := LicenseKey(random);
    forall k | 0 <= k < KeyLength
      ensures key[k] == '-' <==> k == 5 || k == 11 || k == 17
      ensures k != 5 && k != 11 && k != 17 ==> IsUpperHex(key[k])
    {
      if k < 5 {
        assert key[k] == s[0][k];
      } else if k == 5 {
      } else if k < 11 {
        assert key[k] == s[1][k - 6];
      } else if k == 11 {
      } else if k < 17 {
        assert key[k] == s[2][k - 12];
      } else if k == 17 {
      } else {
        assert key[k] == s[3][k - 18];
      }
    }
  }

  /** The value of an upper-case hex digit. */
  function HexValue(c: char): (v: nat)
    requires IsUpperHex(c)
    ensures v < 16
  {
    if c <= '9' then c as int - '0' as int else c as int - 'A' as int + 10
  }

  /**
   * What a segment still says about its group: the first two bytes whole and
   * the high nibble of the third (the slice to five characters drops the rest).
   */
  function DecodeSegment(s: string): seq<int>
    requires |s| == SegmentLength && forall i :: 0 <= i < |s| ==> IsUpperHex(s[i])
  {
    [HexValue(s[0]) * 16 + HexValue(s[1]), HexValue(s[2]) * 16 + HexValue(s[3]), HexValue(s[4])]
  }

  /** Upper-casing a lower-case hex digit gives back its value. */
  lemma HexDigitRoundTrip(n: int)
    requires 0 <= n < 16
    ensures IsUpperHex(UpperChar(LowerHexDigits[n])) && HexValue(UpperChar(LowerHexDigits[n])) == n
  {
  }

  /** Decoding a segment recovers the first 2.5 bytes of its group. */
  lemma SegmentRoundTrip(group: seq<byte>)
    requires |group| == BytesPerSegment
    ensures DecodeSegment(Segment(group)) == [group[0] as int, group[1] as int, group[2] as int / 16]
  {
    var s := Segment(group);
    var h := ToHex(group);
    assert s[0] == UpperChar(LowerHexDigits[group[0] / 16]);
    assert s[1] == UpperChar(LowerHexDigits[group[0] % 16]);
    assert s[2] == UpperChar(LowerHexDigits[group[1] / 16]);
    assert s[3] == UpperChar(LowerHexDigits[group[1] % 16]);
    assert s[4] == UpperChar(LowerHexDigits[group[2] / 16]);
    HexDigitRoundTrip(group[0] as int / 16);
    HexDigitRoundTrip(group[0] as int % 16);
    HexDigitRoundTrip(group[1] as int / 16);
    HexDigitRoundTrip(group[1] as int % 16);
    HexDigitRoundTrip(group[2] as int / 16);
  }

  /** Reading a key back: the decoded content of each of its four segments. */
  function ParseKey(key: string): seq<seq<int>>
    requires |key| == KeyLength
    requires forall k :: 0 <= k < KeyLength && k != 5 && k != 11 && k != 17 ==> IsUpperHex(key[k])
  {
    seq(SegmentCount, i requires 0 <= i < SegmentCount =>
      DecodeSegment(key[6 * i .. 6 * i + SegmentLength]))
  }

  /**
   * Parsing a generated key gives, for each segment i, the first two bytes and
   * the high nibble of the third byte of group i: the key is a deterministic
   * function of the random input, and segment i depends on group i only.
   */
  lemma KeyRoundTrip(random: seq<seq<byte>>)
    requires WellFormedRandom(random)
    ensures KeyShapeHolds(LicenseKey(random))
    ensures ParseKey(LicenseKey(random)) ==
      seq(SegmentCount, i requires 0 <= i < SegmentCount =>
        [random[i][0] as int, random[i][1] as int, random[i][2] as int / 16])
  {
    KeyShape(random);
    var key := LicenseKey(random);
    forall i | 0 <= i < SegmentCount
      ensures ParseKey(key)[i] == [random[i][0] as int, random[i][1] as int, random[i][2] as int / 16]
    {
      KeySegment(random, i);
      SegmentRoundTrip(random[i]);
    }
  }

  predicate KeyShapeHolds(key: string) {
    |key| == KeyLength &&
    forall k :: 0 <= k < KeyLength && k != 5 && k != 11 && k != 17 ==> IsUpperHex(key[k])
  }
}
