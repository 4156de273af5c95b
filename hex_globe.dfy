/**
 * The globe overlay's value helpers: decoding "#RRGGBB" colours with
 * `parseInt` and bit extraction, mixing two colours, writing a colour as a
 * CSS `rgb(...)` string, and the centroid of a GeoJSON geometry's nested
 * coordinate arrays.
 */
module HexGlobe {
  import opened Wrappers
  import opened JsNumber
  import opened Easing

  /** A colour with real components, as mixing produces them. */
  datatype Rgb = Rgb(r: real, g: real, b: real)

  /** `s.replace(c, "")` with a one-character pattern: the first occurrence only. */
  function RemoveFirst(s: string, c: char): (r: string)
    ensures c !in s ==> r == s
    ensures c in s ==> |r| == |s| - 1
  {
    if s == [] then []
    else if s[0] == c then s[1..]
    else [s[0]] + RemoveFirst(s[1..], c)
  }

  /**
   * What RemoveFirst removes: the first c, with everything before and after it
   * kept in order.
   */
  lemma {:induction false} RemoveFirstSplits(s: string, c: char)
    ensures c in s ==> exists i :: 0 <= i < |s| && s[i] == c && c !in s[..i] && RemoveFirst(s, c) == s[..i] + s[i + 1..]
    decreases |s|
  {
    if s != [] && s[0] == c {
      assert s[..0] + s[1..] == s[1..];
      assert s[0] == c && c !in s[..0] && RemoveFirst(s, c) == s[..0] + s[0 + 1..];
    } else if s != [] && c in s {
      var t := s[1..];
      assert c in t;
      RemoveFirstSplits(t, c);
      var j :| 0 <= j < |t| && t[j] == c && c !in t[..j] && RemoveFirst(t, c) == t[..j] + t[j + 1..];
      SplitBehindHead(s, c, j);
    }
  }

  /** A split of the tail at j is a split of the whole string at j + 1 when s[0] is not c. */
  lemma SplitBehindHead(s: string, c: char, j: nat)
    requires s != [] && s[0] != c && j < |s| - 1
    requires s[1..][j] == c && c !in s[1..][..j]
    requires RemoveFirst(s[1..], c) == s[1..][..j] + s[1..][j + 1..]
    ensures s[j + 1] == c && c !in s[..j + 1] && RemoveFirst(s, c) == s[..j + 1] + s[j + 2..]
  {
    var x, pre, post := [s[0]], s[1..][..j], s[1..][j + 1..];
    assert s[..j + 1] == x + pre;
    assert s[j + 2..] == post;
    assert RemoveFirst(s, c) == x + (pre + post);
    assert x + (pre + post) == (x + pre) + post;
  }

  /** `x >> k & 255` on the ToInt32 pattern: an arithmetic shift is a floor division. */
  function Byte(x: int, shift: int): (v: int)
    requires shift == 1 || shift == 256 || shift == 65536
    ensures 0 <= v <= 255
  {
    (x / shift) % 256
  }

  /**
   * `hexToRgb`: drop the first '#', parse the rest in base 16 (NaN reads as
   * 0 under the bitwise operators), and take bits 16-23, 8-15 and 0-7.
   */
  function HexToRgb(hex: string): (c: Rgb)
    ensures InByteRange(c)
    ensures c.r == c.r.Floor as real && c.g == c.g.Floor as real && c.b == c.b.Floor as real
  {
    BitsOf(ParseIntHex(RemoveFirst(hex, '#')))
  }

  /** The bitwise step of `hexToRgb` on the parsed Number (None is NaN, which ToInt32 reads as 0). */
  function BitsOf(num: Option<int>): (c: Rgb)
    ensures InByteRange(c)
  {
    var x := if num.Some? then ToInt32(num.value) else 0;
    Rgb(Byte(x, 65536) as real, Byte(x, 256) as real, Byte(x, 1) as real)
  }

  predicate InByteRange(c: Rgb) {
    0.0 <= c.r <= 255.0 && 0.0 <= c.g <= 255.0 && 0.0 <= c.b <= 255.0
  }

  /** The value of two hex digits. */
  function Pair(hi: char, lo: char): int
    requires IsHexDigit(hi) && IsHexDigit(lo)
  {
    HexDigitValue(hi) * 16 + HexDigitValue(lo)
  }

  predicate SixHexDigits(s: string) {
    |s| == 6 && forall i :: 0 <= i < 6 ==> IsHexDigit(s[i])
  }

  lemma SixDigitValue(s: string)
    requires SixHexDigits(s)
    ensures HexValue(s) == Pair(s[0], s[1]) * 65536 + Pair(s[2], s[3]) * 256 + Pair(s[4], s[5])
  {
    assert s[..1][..0] == [];
    assert HexValue(s[..1]) == HexDigitValue(s[0]);
    assert s[..2][..1] == s[..1];
    assert HexValue(s[..2]) == Pair(s[0], s[1]);
    assert s[..3][..2] == s[..2];
    assert HexValue(s[..3]) == Pair(s[0], s[1]) * 16 + HexDigitValue(s[2]);
    assert s[..4][..3] == s[..3];
    assert HexValue(s[..4]) == Pair(s[0], s[1]) * 256 + Pair(s[2], s[3]);
    assert s[..5][..4] == s[..4];
    assert HexValue(s[..5]) == (Pair(s[0], s[1]) * 256 + Pair(s[2], s[3])) * 16 + HexDigitValue(s[4]);
    assert s[..6] == s;
  }

  /** Split a 24-bit value into its three bytes. */
  lemma BytesOf(p0: int, p1: int, p2: int)
    requires 0 <= p0 < 256 && 0 <= p1 < 256 && 0 <= p2 < 256
    ensures Byte(p0 * 65536 + p1 * 256 + p2, 65536) == p0
    ensures Byte(p0 * 65536 + p1 * 256 + p2, 256) == p1
    ensures Byte(p0 * 65536 + p1 * 256 + p2, 1) == p2
  {
    var v := p0 * 65536 + p1 * 256 + p2;
    assert v / 65536 == p0;
    assert v / 256 == p0 * 256 + p1;
    assert (p0 * 256 + p1) % 256 == p1;
    assert v % 256 == p2;
  }

  /** A parse inside the signed 32-bit range decodes to that value's bytes. */
  lemma BitsOfValue(v: int)
    requires -0x8000_0000 <= v < 0x8000_0000
    ensures BitsOf(Some(v)) == Rgb(Byte(v, 65536) as real, Byte(v, 256) as real, Byte(v, 1) as real)
  {
    assert ToInt32(v) == v;
  }

  /** "RRGGBB" decodes to its three hex pairs. */
  lemma HexToRgbSixDigits(s: string)
    requires SixHexDigits(s)
    ensures HexToRgb(s) == Rgb(Pair(s[0], s[1]) as real, Pair(s[2], s[3]) as real, Pair(s[4], s[5]) as real)
  {
    assert '#' !in s by {
      forall i | 0 <= i < |s| ensures s[i] != '#' {
        assert IsHexDigit(s[i]);
      }
    }
    assert RemoveFirst(s, '#') == s;
    var p0, p1, p2 := Pair(s[0], s[1]), Pair(s[2], s[3]), Pair(s[4], s[5]);
    var v := HexValue(s);
    ParseIntHexDigits(s);
    assert ParseIntHex(RemoveFirst(s, '#')) == Some(v);
    SixDigitValue(s);
    assert v == p0 * 65536 + p1 * 256 + p2;
    BytesOf(p0, p1, p2);
    BitsOfValue(v);
    assert HexToRgb(s) == BitsOf(Some(v));
  }

  /** "#RRGGBB" decodes as "RRGGBB" does: one leading '#' is dropped. */
  lemma HexToRgbHashed(h: string)
    requires |h| == 7 && h[0] == '#' && SixHexDigits(h[1..])
    ensures HexToRgb(h) == HexToRgb(h[1..])
  {
    assert RemoveFirst(h, '#') == h[1..];
  }

  lemma HexToRgbExample()
    ensures HexToRgb("#5b7cff") == Rgb(91.0, 124.0, 255.0)
  {
    var h := "#5b7cff";
    var s := h[1..];
    assert s[0] == '5' && s[1] == 'b' && s[2] == '7' && s[3] == 'c' && s[4] == 'f' && s[5] == 'f';
    assert SixHexDigits(s);
    assert Pair(s[0], s[1]) == 91 && Pair(s[2], s[3]) == 124 && Pair(s[4], s[5]) == 255;
    HexToRgbHashed(h);
    HexToRgbSixDigits(s);
  }

  /** Only the first '#' goes: "##5b7cff" parses as NaN and decodes to black. */
  lemma DoubleHashIsBlack()
    ensures HexToRgb("##5b7cff") == Rgb(0.0, 0.0, 0.0)
  {
    var h := "##5b7cff";
    assert RemoveFirst(h, '#') == h[1..];
    var t := h[1..];
    assert !IsJsWhiteSpace(t[0]);
    assert TrimStart(t) == t;
    assert SplitSign(t) == (false, t);
    assert DropHexPrefix(t) == t;
    assert TakeWhile(t, IsHexDigit) == [];
  }

  /** Shorthand is not expanded: "#fff" is the number 0xfff, not white. */
  lemma ShorthandIsNotExpanded()
    ensures HexToRgb("#fff") == Rgb(0.0, 15.0, 255.0)
  {
    var h := "#fff";
    var s := h[1..];
    assert s[0] == 'f' && s[1] == 'f' && s[2] == 'f';
    assert RemoveFirst(h, '#') == s;
    ParseIntHexDigits(s);
    ThreeDigitValue(s);
    BytesOf(0, 15, 255);
    BitsOfValue(4095);
  }

  lemma ThreeDigitValue(s: string)
    requires |s| == 3 && s[0] == 'f' && s[1] == 'f' && s[2] == 'f'
    ensures HexValue(s) == 4095
  {
    assert s[..1][..0] == [];
    assert HexValue(s[..1]) == 15;
    assert s[..2][..1] == s[..1];
    assert HexValue(s[..2]) == 255;
    assert s[..3] == s;
  }

  /** Linear interpolation of one component. */
  function Lerp(x: real, y: real, t: real): (v: real)
    ensures t == 0.0 ==> v == x
    ensures t == 1.0 ==> v == y
    ensures 0.0 <= t <= 1.0 ==> (x <= v <= y) || (y <= v <= x)
  {
    if 0.0 <= t <= 1.0 then Ease(x, y, t) else x + (y - x) * t
  }

  /** `mixColors(a, b, t)`: each component interpolated with the same t (t is not clamped). */
  function MixColors(a: Rgb, b: Rgb, t: real): (c: Rgb)
    ensures t == 0.0 ==> c == a
    ensures t == 1.0 ==> c == b
    ensures 0.0 <= t <= 1.0 ==>
      (a.r <= c.r <= b.r || b.r <= c.r <= a.r) &&
      (a.g <= c.g <= b.g || b.g <= c.g <= a.g) &&
      (a.b <= c.b <= b.b || b.b <= c.b <= a.b)
  {
    Rgb(Lerp(a.r, b.r, t), Lerp(a.g, b.g, t), Lerp(a.b, b.b, t))
  }

  /** `rgbToCss`: each component rounded half up, in r, g, b order. */
  function RgbToCss(c: Rgb): string {
    "rgb(" + (IntToString(Round(c.r)) + (", " + (IntToString(Round(c.g)) + (", " +
      (IntToString(Round(c.b)) + ")")))))
  }

  /** A reader for what RgbToCss writes: Some of the rounded components, or None. */
  function ParseCss(s: string): Option<(int, int, int)> {
    match Expect("rgb(", s)
    case None => None
    case Some(s1) =>
      match ReadNat(s1)
      case None => None
      case Some((r, s2)) =>
        match Expect(", ", s2)
        case None => None
        case Some(s3) =>
          match ReadNat(s3)
          case None => None
          case Some((g, s4)) =>
            match Expect(", ", s4)
            case None => None
            case Some(s5) =>
              match ReadNat(s5)
              case None => None
              case Some((b, s6)) =>
                if s6 == ")" then Some((r, g, b)) else None
  }

  /** The rest of s after a literal prefix, if s starts with it. */
  function Expect(prefix: string, s: string): (r: Option<string>)
    ensures r.Some? ==> s == prefix + r.value
  {
    if |prefix| <= |s| && s[..|prefix|] == prefix then Some(s[|prefix|..]) else None
  }

  /** A maximal run of decimal digits and the rest, or None if there is none. */
  function ReadNat(s: string): Option<(int, string)> {
    var d := TakeWhile(s, IsDigit);
    if d == [] then None else Some((ParseDecimal(d), s[|d|..]))
  }

  lemma ExpectPrefix(prefix: string, t: string)
    ensures Expect(prefix, prefix + t) == Some(t)
  {
    assert (prefix + t)[..|prefix|] == prefix;
    assert (prefix + t)[|prefix|..] == t;
  }

  lemma ReadNatString(n: nat, t: string)
    requires t == [] || !IsDigit(t[0])
    ensures ReadNat(NatToString(n) + t) == Some((n, t))
  {
    var a := NatToString(n);
    TakeWhileRun(a, t, IsDigit);
    NatToStringRoundTrip(n);
    assert (a + t)[|a|..] == t;
  }

  /**
   * Round trip: reading back what RgbToCss writes gives the three rounded
   * components, in order, for any colour whose components round to
   * non-negative integers.
   */
  lemma RgbToCssReadsBack(c: Rgb)
    requires Round(c.r) >= 0 && Round(c.g) >= 0 && Round(c.b) >= 0
    ensures ParseCss(RgbToCss(c)) == Some((Round(c.r), Round(c.g), Round(c.b)))
  {
    var a, b, d := NatToString(Round(c.r)), NatToString(Round(c.g)), NatToString(Round(c.b));
    var s6 := ")";
    var s5 := d + s6;
    var s4 := ", " + s5;
    var s3 := b + s4;
    var s2 := ", " + s3;
    var s1 := a + s2;
    assert RgbToCss(c) == "rgb(" + s1;
    ExpectPrefix("rgb(", s1);
    ReadNatString(Round(c.r), s2);
    ExpectPrefix(", ", s3);
    ReadNatString(Round(c.g), s4);
    ExpectPrefix(", ", s5);
    ReadNatString(Round(c.b), s6);
  }

  /**
   * Mixing two colours of byte components (as HexToRgb yields) with t in
   * [0, 1] renders components that read back as integers in [0, 255].
   */
  lemma MixedColourInRange(a: Rgb, b: Rgb, t: real)
    requires InByteRange(a) && InByteRange(b) && 0.0 <= t <= 1.0
    ensures InByteRange(MixColors(a, b, t))
    ensures var c := MixColors(a, b, t);
      match ParseCss(RgbToCss(c))
      case Some((r, g, b)) => 0 <= r <= 255 && 0 <= g <= 255 && 0 <= b <= 255
      case None => false
  {
    var c := MixColors(a, b, t);
    RoundInByteRange(c.r);
    RoundInByteRange(c.g);
    RoundInByteRange(c.b);
    RgbToCssReadsBack(c);
  }

  lemma RoundInByteRange(x: real)
    requires 0.0 <= x <= 255.0
    ensures 0 <= Round(x) <= 255
  {
  }

  lemma RgbToCssExample()
    ensures ParseCss(RgbToCss(Rgb(91.5, 124.49, 255.0))) == Some((92, 124, 255))
  {
    RoundUnique(91.5, 92);
    RoundUnique(124.49, 124);
    RoundUnique(255.0, 255);
    RgbToCssReadsBack(Rgb(91.5, 124.49, 255.0));
  }

  /** A GeoJSON coordinate value: a number or an array of values. */
  datatype Coord = Num(v: real) | Arr(items: seq<Coord>)

  /** A feature's geometry as far as the centroid reads it; None is a missing member. */
  datatype Geometry = Geometry(coordinates: Option<Coord>)

  datatype LngLat = LngLat(lng: real, lat: real)

  /** An array whose first item is itself an array: the walk descends into it. */
  predicate Descends(pt: Coord) {
    pt.Arr? && |pt.items| > 0 && pt.items[0].Arr?
  }

  /** An array of at least two items that is not descended into: one point. */
  predicate IsPoint(pt: Coord) {
    pt.Arr? && !Descends(pt) && |pt.items| >= 2
  }

  /**
   * Every point met by the walk has a number as its second item (its first is
   * a number already, or the walk would descend).
   */
  predicate NumericPoints(coords: seq<Coord>) {
    forall i :: 0 <= i < |coords| ==>
      (Descends(coords[i]) ==> NumericPoints(coords[i].items)) &&
      (IsPoint(coords[i]) ==> coords[i].items[1].Num?)
  }

  /** The points the walk counts, in visiting order. */
  function Points(coords: seq<Coord>): seq<LngLat>
    requires NumericPoints(coords)
  {
    if coords == [] then []
    else
      var pt := coords[|coords| - 1];
      assert NumericPoints(coords[..|coords| - 1]) by {
        forall i | 0 <= i < |coords| - 1 ensures coords[..|coords| - 1][i] == coords[i] { }
      }
      Points(coords[..|coords| - 1]) +
        (if Descends(pt) then Points(pt.items)
         else if IsPoint(pt) then [LngLat(pt.items[0].v, pt.items[1].v)]
         else [])
  }

  function SumLng(ps: seq<LngLat>): real {
    if ps == [] then 0.0 else SumLng(ps[..|ps| - 1]) + ps[|ps| - 1].lng
  }

  function SumLat(ps: seq<LngLat>): real {
    if ps == [] then 0.0 else SumLat(ps[..|ps| - 1]) + ps[|ps| - 1].lat
  }

  /** The centroid the helper promises: the mean of all counted points, [0, 0] when there are none. */
  function Centroid(geometry: Option<Geometry>): LngLat
    requires geometry.Some? && geometry.value.coordinates.Some? && geometry.value.coordinates.value.Arr? ==>
      NumericPoints(geometry.value.coordinates.value.items)
  {
    if geometry.None? || geometry.value.coordinates.None? || !geometry.value.coordinates.value.Arr? then
      LngLat(0.0, 0.0)
    else
      var ps := Points(geometry.value.coordinates.value.items);
      if |ps| == 0 then LngLat(0.0, 0.0)
      else LngLat(SumLng(ps) / |ps| as real, SumLat(ps) / |ps| as real)
  }

  /**
   * The walk of `computeFeatureCentroid`: each item of the array is either
   * descended into, counted as a point, or skipped; the running sums and the
   * count are the closure's accumulators.
   */
  method Accumulate(coords: seq<Coord>, sumLng0: real, sumLat0: real, count0: int)
    returns (sumLng: real, sumLat: real, count: int)
    requires NumericPoints(coords)
    ensures sumLng == sumLng0 + SumLng(Points(coords))
    ensures sumLat == sumLat0 + SumLat(Points(coords))
    ensures count == count0 + |Points(coords)|
    decreases coords
  {
    sumLng, sumLat, count := sumLng0, sumLat0, count0;
    var i := 0;
    while i < |coords|
      invariant 0 <= i <= |coords| && NumericPoints(coords[..i])
      invariant sumLng == sumLng0 + SumLng(Points(coords[..i]))
      invariant sumLat == sumLat0 + SumLat(Points(coords[..i]))
      invariant count == count0 + |Points(coords[..i])|
    {
      var pt := coords[i];
      PointsStep(coords, i);
      if pt.Arr? && |pt.items| > 0 && pt.items[0].Arr? {
        sumLng, sumLat, count := Accumulate(pt.items, sumLng, sumLat, count);
        SumsAppend(Points(coords[..i]), Points(pt.items));
      } else if pt.Arr? && |pt.items| >= 2 {
        sumLng := sumLng + pt.items[0].v;
        sumLat := sumLat + pt.items[1].v;
        count := count + 1;
        SumsAppend(Points(coords[..i]), [LngLat(pt.items[0].v, pt.items[1].v)]);
      }
      i := i + 1;
    }
    assert coords[..i] == coords;
  }

  /** Extending the visited prefix by one item adds that item's points. */
  lemma PointsStep(coords: seq<Coord>, k: nat)
    requires NumericPoints(coords) && k < |coords|
    ensures NumericPoints(coords[..k]) && NumericPoints(coords[..k + 1])
    ensures Descends(coords[k]) ==>
      NumericPoints(coords[k].items) &&
      Points(coords[..k + 1]) == Points(coords[..k]) + Points(coords[k].items)
    ensures IsPoint(coords[k]) ==>
      coords[k].items[1].Num? &&
      Points(coords[..k + 1]) == Points(coords[..k]) + [LngLat(coords[k].items[0].v, coords[k].items[1].v)]
    ensures !Descends(coords[k]) && !IsPoint(coords[k]) ==> Points(coords[..k + 1]) == Points(coords[..k])
  {
    PrefixNumeric(coords, k);
    PrefixNumeric(coords, k + 1);
    assert coords[..k + 1][..k] == coords[..k];
    assert coords[..k + 1][k] == coords[k];
  }

  lemma PrefixNumeric(coords: seq<Coord>, k: nat)
    requires NumericPoints(coords) && k <= |coords|
    ensures NumericPoints(coords[..k])
  {
    forall i | 0 <= i < k ensures coords[..k][i] == coords[i] { }
  }

  /** The sums are additive over concatenation. */
  lemma {:induction false} SumsAppend(a: seq<LngLat>, b: seq<LngLat>)
    ensures SumLng(a + b) == SumLng(a) + SumLng(b)
    ensures SumLat(a + b) == SumLat(a) + SumLat(b)
    decreases |b|
  {
    if b != [] {
      var b' := b[..|b| - 1];
      SumsAppend(a, b');
      assert (a + b)[..|a + b| - 1] == a + b';
    } else {
      assert a + b == a;
    }
  }

  /** `computeFeatureCentroid`. */
  method ComputeFeatureCentroid(geometry: Option<Geometry>) returns (c: LngLat)
    requires geometry.Some? && geometry.value.coordinates.Some? && geometry.value.coordinates.value.Arr? ==>
      NumericPoints(geometry.value.coordinates.value.items)
    ensures c == Centroid(geometry)
  {
    if geometry.None? || geometry.value.coordinates.None? || !geometry.value.coordinates.value.Arr? {
      return LngLat(0.0, 0.0);
    }
    var sumLng, sumLat, count := Accumulate(geometry.value.coordinates.value.items, 0.0, 0.0, 0);
    if count != 0 {
      c := LngLat(sumLng / count as real, sumLat / count as real);
    } else {
      c := LngLat(0.0, 0.0);
    }
  }

  /** [0, 0] for a missing geometry, a missing or non-array `coordinates`, or no counted point. */
  lemma CentroidFallbacks(geometry: Option<Geometry>)
    requires geometry.Some? && geometry.value.coordinates.Some? && geometry.value.coordinates.value.Arr? ==>
      NumericPoints(geometry.value.coordinates.value.items)
    ensures geometry.None? ==> Centroid(geometry) == LngLat(0.0, 0.0)
    ensures geometry.Some? && geometry.value.coordinates.None? ==> Centroid(geometry) == LngLat(0.0, 0.0)
    ensures geometry.Some? && geometry.value.coordinates.Some? && geometry.value.coordinates.value.Num? ==>
      Centroid(geometry) == LngLat(0.0, 0.0)
    ensures (geometry.Some? && geometry.value.coordinates.Some? && geometry.value.coordinates.value.Arr? &&
             Points(geometry.value.coordinates.value.items) == []) ==> Centroid(geometry) == LngLat(0.0, 0.0)
  {
  }

  /** Every counted point's longitude lies in [lo, hi], and so does every latitude in [lo', hi']. */
  predicate PointsWithin(ps: seq<LngLat>, lo: real, hi: real, lo': real, hi': real) {
    forall i :: 0 <= i < |ps| ==> lo <= ps[i].lng <= hi && lo' <= ps[i].lat <= hi'
  }

  lemma {:induction false} SumLngWithin(ps: seq<LngLat>, lo: real, hi: real, lo': real, hi': real)
    requires PointsWithin(ps, lo, hi, lo', hi')
    ensures |ps| as real * lo <= SumLng(ps) <= |ps| as real * hi
  {
    if ps != [] {
      var init := ps[..|ps| - 1];
      assert PointsWithin(init, lo, hi, lo', hi') by {
        forall i | 0 <= i < |init| ensures init[i] == ps[i] { }
      }
      SumLngWithin(init, lo, hi, lo', hi');
      StepWithin(|init| as real, SumLng(init), ps[|ps| - 1].lng, lo, hi);
    }
  }

  lemma {:induction false} SumLatWithin(ps: seq<LngLat>, lo: real, hi: real, lo': real, hi': real)
    requires PointsWithin(ps, lo, hi, lo', hi')
    ensures |ps| as real * lo' <= SumLat(ps) <= |ps| as real * hi'
  {
    if ps != [] {
      var init := ps[..|ps| - 1];
      assert PointsWithin(init, lo, hi, lo', hi') by {
        forall i | 0 <= i < |init| ensures init[i] == ps[i] { }
      }
      SumLatWithin(init, lo, hi, lo', hi');
      StepWithin(|init| as real, SumLat(init), ps[|ps| - 1].lat, lo', hi');
    }
  }

  /** Adding one value within [lo, hi] to a sum of k such values. */
  lemma StepWithin(k: real, s: real, x: real, lo: real, hi: real)
    requires k * lo <= s <= k * hi && lo <= x <= hi
    ensures (k + 1.0) * lo <= s + x <= (k + 1.0) * hi
  {
    assert (k + 1.0) * lo == k * lo + lo;
    assert (k + 1.0) * hi == k * hi + hi;
  }

  lemma MeanWithin(sum: real, n: real, lo: real, hi: real)
    requires n > 0.0 && n * lo <= sum <= n * hi
    ensures lo <= sum / n <= hi
  {
    assert sum == n * (sum / n);
  }

  /** With at least one counted point, the centroid is the pair of means. */
  lemma CentroidIsMean(items: seq<Coord>)
    requires NumericPoints(items) && Points(items) != []
    ensures var ps := Points(items);
      Centroid(Some(Geometry(Some(Arr(items))))) == LngLat(SumLng(ps) / |ps| as real, SumLat(ps) / |ps| as real)
  {
  }

  /**
   * The centroid is a mean of the counted points: it lies within any bounds
   * that hold for all of them, componentwise.
   */
  lemma CentroidWithin(items: seq<Coord>, lo: real, hi: real, lo': real, hi': real)
    requires NumericPoints(items) && Points(items) != []
    requires PointsWithin(Points(items), lo, hi, lo', hi')
    ensures var c := Centroid(Some(Geometry(Some(Arr(items)))));
      lo <= c.lng <= hi && lo' <= c.lat <= hi'
  {
    CentroidIsMean(items);
    MeanLngWithin(Points(items), lo, hi, lo', hi');
    MeanLatWithin(Points(items), lo, hi, lo', hi');
  }

  lemma MeanLngWithin(ps: seq<LngLat>, lo: real, hi: real, lo': real, hi': real)
    requires ps != [] && PointsWithin(ps, lo, hi, lo', hi')
    ensures lo <= SumLng(ps) / |ps| as real <= hi
  {
    SumLngWithin(ps, lo, hi, lo', hi');
    MeanWithin(SumLng(ps), |ps| as real, lo, hi);
  }

  lemma MeanLatWithin(ps: seq<LngLat>, lo: real, hi: real, lo': real, hi': real)
    requires ps != [] && PointsWithin(ps, lo, hi, lo', hi')
    ensures lo' <= SumLat(ps) / |ps| as real <= hi'
  {
    SumLatWithin(ps, lo, hi, lo', hi');
    MeanWithin(SumLat(ps), |ps| as real, lo', hi');
  }

  /** Wrapping coordinates in one more array level changes nothing: depth is ignored. */
  lemma NestingIgnored(items: seq<Coord>)
    requires NumericPoints(items) && |items| > 0 && items[0].Arr?
    ensures NumericPoints([Arr(items)])
    ensures Points([Arr(items)]) == Points(items)
  {
    var w := [Arr(items)];
    assert w[..0] == [];
  }

  /** Items past the second are ignored, and arrays shorter than two are skipped. */
  lemma PointShapes(a: real, b: real, z: real)
    ensures NumericPoints([Arr([Num(a), Num(b), Num(z)])])
    ensures Points([Arr([Num(a), Num(b), Num(z)])]) == [LngLat(a, b)]
    ensures NumericPoints([Arr([Num(a)]), Num(b)])
    ensures Points([Arr([Num(a)]), Num(b)]) == []
  {
    var p := [Arr([Num(a), Num(b), Num(z)])];
    assert p[..0] == [];
    assert IsPoint(p[0]);
    var q := [Arr([Num(a)]), Num(b)];
    assert q[..1][..0] == [];
    assert q[..1] == [Arr([Num(a)])];
  }

  function P(lng: real, lat: real): Coord {
    Arr([Num(lng), Num(lat)])
  }

  /**
   * A closed square ring, as GeoJSON polygons repeat their first vertex: the
   * result is the mean of the vertices with the repeated one counted twice,
   * not the square's centre (1, 1).
   */
  lemma ClosedRingExample(ring: seq<Coord>)
    requires ring == [P(0.0, 0.0), P(2.0, 0.0), P(2.0, 2.0), P(0.0, 2.0), P(0.0, 0.0)]
    ensures NumericPoints([Arr(ring)])
    ensures Centroid(Some(Geometry(Some(Arr([Arr(ring)]))))) == LngLat(0.8, 0.8)
  {
    var pts := [LngLat(0.0, 0.0), LngLat(2.0, 0.0), LngLat(2.0, 2.0), LngLat(0.0, 2.0), LngLat(0.0, 0.0)];
    RingPoints(ring, pts);
    NestingIgnored(ring);
    SquareSums(pts);
    CentroidIsMean([Arr(ring)]);
  }

  lemma SquareSums(pts: seq<LngLat>)
    requires pts == [LngLat(0.0, 0.0), LngLat(2.0, 0.0), LngLat(2.0, 2.0), LngLat(0.0, 2.0), LngLat(0.0, 0.0)]
    ensures SumLng(pts) == 4.0 && SumLat(pts) == 4.0
  {
    assert pts[..1][..0] == [];
    assert pts[..2][..1] == pts[..1];
    assert pts[..3][..2] == pts[..2];
    assert pts[..4][..3] == pts[..3];
    assert pts[..5][..4] == pts[..4];
    assert SumLng(pts[..1]) == 0.0 && SumLat(pts[..1]) == 0.0;
    assert SumLng(pts[..2]) == 2.0 && SumLat(pts[..2]) == 0.0;
    assert SumLng(pts[..3]) == 4.0 && SumLat(pts[..3]) == 2.0;
    assert SumLng(pts[..4]) == 4.0 && SumLat(pts[..4]) == 4.0;
    assert pts[..5] == pts;
  }

  /** The points of a flat list of [lng, lat] pairs are those pairs. */
  lemma {:induction false} RingPoints(ring: seq<Coord>, pts: seq<LngLat>)
    requires |ring| == |pts|
    requires forall i :: 0 <= i < |ring| ==> ring[i] == P(pts[i].lng, pts[i].lat)
    ensures NumericPoints(ring) && Points(ring) == pts
  {
    if ring != [] {
      var k := |ring| - 1;
      RingPoints(ring[..k], pts[..k]);
      assert IsPoint(ring[k]);
      assert pts == pts[..k] + [pts[k]];
    }
  }
}
