/**
 The face and skin-region locator: picks the largest detected face, derives a
 forehead/cheek sample rectangle from it by fixed fractions, clamps that to the
 image, and averages the pixels under it.

 The decoder and the face detector are foreign code: the decoded image arrives
 as an `Option<Image>` (None when decoding failed) and the detector's output as
 a sequence of rectangles in the order it reported them.
 */
module Locator {
  import opened Raster

  /** Offsets and sizes of the skin sample, in tenths of the face rectangle. */
  const LeftTenths := 3
  const TopTenths := 2
  const WidthTenths := 4
  const HeightTenths := 3

  /** The three results the caller can tell apart. */
  datatype Outcome =
    | DecodeFailed
      /** No colour; `image` is the decoded image, not drawn on. */
    | NoColour(image: Image)
      /** `colour` is sampled from `image`; the display copy is `image` with
          the `face` and `roi` boxes outlined on it. */
    | Coloured(colour: Rgb, image: Image, face: Rect, roi: Rect)

  // ---------------------------------------------------------------------------
  // Choosing the face
  // ---------------------------------------------------------------------------

  /** Ordered by decreasing `key`. */
  predicate Descending<T>(t: seq<T>, key: T -> int) {
    forall i, j :: 0 <= i < j < |t| ==> key(t[j]) <= key(t[i])
  }

  /** `s[i]` has the largest `key` and no earlier element has as large a key. */
  predicate IsFirstMax<T>(s: seq<T>, key: T -> int, i: int) {
    && 0 <= i < |s|
    && (forall j :: 0 <= j < |s| ==> key(s[j]) <= key(s[i]))
    && (forall j :: 0 <= j < i ==> key(s[j]) < key(s[i]))
  }

  /** Putting an element of at least the head's key in front keeps a sequence descending. */
  lemma DescendingCons<T>(h: T, rest: seq<T>, key: T -> int)
    requires Descending(rest, key)
    requires rest == [] || key(rest[0]) <= key(h)
    ensures Descending([h] + rest, key)
  {
    var s := [h] + rest;
    forall i, j | 0 <= i < j < |s|
      ensures key(s[j]) <= key(s[i])
    {
      if i == 0 {
        assert s[j] == rest[j - 1];
        assert key(rest[j - 1]) <= key(rest[0]);
      } else {
        assert s[i] == rest[i - 1] && s[j] == rest[j - 1];
      }
    }
  }

  /** `r` is `t` with `x` inserted at index `k`, behind every element of strictly
      larger key and ahead of every element whose key does not exceed its own. */
  ghost predicate PlacedAt<T>(x: T, t: seq<T>, r: seq<T>, key: T -> int, k: int) {
    && 0 <= k <= |t|
    && r == t[..k] + [x] + t[k..]
    && (forall i :: 0 <= i < k ==> key(t[i]) > key(x))
    && (forall i :: k <= i < |t| ==> key(t[i]) <= key(x))
  }

  /** In a descending sequence whose head does not exceed `x`, `x` belongs at the front. */
  lemma PlacedAtFront<T>(x: T, t: seq<T>, key: T -> int)
    requires Descending(t, key)
    requires t == [] || key(t[0]) <= key(x)
    ensures PlacedAt(x, t, [x] + t, key, 0)
  {
    assert t[..0] == [] && t[0..] == t;
  }

  /** A placement in the tail shifts by one behind a head of larger key. */
  lemma PlacedBehindHead<T>(x: T, t: seq<T>, rest: seq<T>, key: T -> int, k: int)
    requires |t| > 0 && key(t[0]) > key(x)
    requires PlacedAt(x, t[1..], rest, key, k)
    ensures PlacedAt(x, t, [t[0]] + rest, key, k + 1)
  {
    assert t[..k + 1] == [t[0]] + t[1..][..k];
    assert t[k + 1..] == t[1..][k..];
    assert forall i :: 1 <= i < |t| ==> t[i] == t[1..][i - 1];
  }

  /** Inserts `x` into the descending sequence `t` in front of the first element
      whose key does not exceed its own, so it stays ahead of later equals. */
  function InsertDescending<T>(x: T, t: seq<T>, key: T -> int): (r: seq<T>)
    requires Descending(t, key)
    ensures |r| == |t| + 1
    ensures multiset(r) == multiset(t) + multiset{x}
    ensures Descending(r, key)
    ensures r[0] == (if t == [] || key(t[0]) <= key(x) then x else t[0])
  {
    if t == [] || key(t[0]) <= key(x) then
      DescendingCons(x, t, key);
      [x] + t
    else
      var rest := InsertDescending(x, t[1..], key);
      assert multiset(t) == multiset{t[0]} + multiset(t[1..]) by {
        assert t == [t[0]] + t[1..];
      }
      DescendingCons(t[0], rest, key);
      [t[0]] + rest
  }

  /** `x` lands in front of the first element whose key does not exceed its own:
      every element before it has a strictly larger key, so among equal keys the
      inserted element comes first. */
  lemma {:induction false} InsertDescendingPlaces<T>(x: T, t: seq<T>, key: T -> int)
    requires Descending(t, key)
    ensures exists k :: PlacedAt(x, t, InsertDescending(x, t, key), key, k)
  {
    if t == [] || key(t[0]) <= key(x) {
      assert InsertDescending(x, t, key) == [x] + t;
      PlacedAtFront(x, t, key);
    } else {
      InsertDescendingPlaces(x, t[1..], key);
      var k :| PlacedAt(x, t[1..], InsertDescending(x, t[1..], key), key, k);
      PlacedBehindHead(x, t, InsertDescending(x, t[1..], key), key, k);
      assert InsertDescending(x, t, key) == [t[0]] + InsertDescending(x, t[1..], key);
    }
  }

  /** Python's stable `sorted(s, key=key, reverse=True)`: an insertion sort that
      keeps elements of equal key in their original order. */
  function SortDescending<T>(s: seq<T>, key: T -> int): (r: seq<T>)
    ensures |r| == |s|
    ensures multiset(r) == multiset(s)
    ensures Descending(r, key)
  {
    if s == [] then
      []
    else
      assert s == [s[0]] + s[1..];
      InsertDescending(s[0], SortDescending(s[1..], key), key)
  }

  /** Extending a sequence at the front: the new element is the first maximum
      exactly when no later element has a strictly larger key. */
  lemma FirstMaxCons<T>(s: seq<T>, key: T -> int, k: int)
    requires |s| >= 2 && IsFirstMax(s[1..], key, k)
    ensures key(s[k + 1]) <= key(s[0]) ==> IsFirstMax(s, key, 0)
    ensures key(s[0]) < key(s[k + 1]) ==> IsFirstMax(s, key, k + 1)
  {
    assert forall j :: 1 <= j < |s| ==> s[j] == s[1..][j - 1];
  }

  /** The head of the stable descending sort is the first element of largest key. */
  lemma {:induction false} SortedHead<T>(s: seq<T>, key: T -> int)
    requires |s| > 0
    ensures exists i :: IsFirstMax(s, key, i) && SortDescending(s, key)[0] == s[i]
  {
    if |s| == 1 {
      assert IsFirstMax(s, key, 0);
    } else {
      var rest := s[1..];
      SortedHead(rest, key);
      var k :| IsFirstMax(rest, key, k) && SortDescending(rest, key)[0] == rest[k];
      FirstMaxCons(s, key, k);
      assert SortDescending(s, key) == InsertDescending(s[0], SortDescending(rest, key), key);
      if key(rest[k]) <= key(s[0]) {
        assert SortDescending(s, key)[0] == s[0];
      } else {
        assert SortDescending(s, key)[0] == s[k + 1];
      }
    }
  }

  /** Any two indices that are both "first maximum" coincide. */
  lemma FirstMaxUnique<T>(s: seq<T>, key: T -> int, i: int, j: int)
    requires IsFirstMax(s, key, i) && IsFirstMax(s, key, j)
    ensures i == j
  {
    assert key(s[i]) == key(s[j]);
  }

  function AreaOf(f: Rect): int {
    f.Area()
  }

  /** The face the locator samples, `sorted(faces, key=area, reverse=True)[0]`:
      the first in detector order among those of largest area. */
  function ChosenFace(faces: seq<Rect>): (face: Rect)
    requires |faces| > 0
    ensures exists i :: IsFirstMax(faces, AreaOf, i) && faces[i] == face
  {
    SortedHead(faces, AreaOf);
    SortDescending(faces, AreaOf)[0]
  }

  // ---------------------------------------------------------------------------
  // The skin sample rectangle
  // ---------------------------------------------------------------------------

  function Max(a: int, b: int): int {
    if a < b then b else a
  }

  function Min(a: int, b: int): int {
    if a < b then a else b
  }

  /** The forehead/cheek rectangle before clamping: offsets 0.3w and 0.2h, size
      0.4w by 0.3h, each fraction truncated toward zero. */
  function RawRoi(face: Rect): (roi: Rect)
    ensures face.w >= 0 && face.h >= 0 ==>
      && face.x <= roi.x && roi.x + roi.w <= face.x + face.w
      && face.y <= roi.y && roi.y + roi.h <= face.y + face.h
    ensures roi.w > 0 <==> face.w >= 3
    ensures roi.h > 0 <==> face.h >= 4
  {
    Rect(face.x + TruncTenths(LeftTenths * face.w),
         face.y + TruncTenths(TopTenths * face.h),
         TruncTenths(WidthTenths * face.w),
         TruncTenths(HeightTenths * face.h))
  }

  /** Moves a negative origin to the image edge and cuts the size so the
      rectangle ends inside a `width` x `height` image. */
  function ClampRoi(raw: Rect, width: int, height: int): (roi: Rect)
    ensures roi.x >= 0 && roi.y >= 0
    ensures roi.x + roi.w <= width && roi.y + roi.h <= height
    ensures roi.w <= raw.w && roi.h <= raw.h
    ensures raw.Within(width, height) ==> roi == raw
    ensures roi.NonEmpty() ==> roi.Within(width, height)
  {
    var x := Max(0, raw.x);
    var y := Max(0, raw.y);
    Rect(x, y, Min(raw.w, width - x), Min(raw.h, height - y))
  }

  /** The clamped skin sample rectangle of `face` in a `width` x `height` image. */
  function SkinRoi(face: Rect, width: int, height: int): Rect {
    ClampRoi(RawRoi(face), width, height)
  }

  /** A 200 x 200 face at (100, 100) in a 400 x 400 image samples (160, 140, 80, 60). */
  lemma SkinRoiExample()
    ensures SkinRoi(Rect(100, 100, 200, 200), 400, 400) == Rect(160, 140, 80, 60)
  {
  }

  /** A face narrower than 3 or shorter than 4 pixels leaves nothing to sample. */
  lemma SmallFaceHasNoSample(face: Rect, width: int, height: int)
    requires face.w <= 2 || face.h <= 3
    ensures !SkinRoi(face, width, height).NonEmpty()
  {
  }

  /** For a face inside the image the sample is non-empty exactly when the face
      is at least 3 wide and 4 high, and then no clamping happens. */
  lemma SampleExistsIff(face: Rect, width: int, height: int)
    requires face.Within(width, height)
    ensures SkinRoi(face, width, height).NonEmpty() <==> face.w >= 3 && face.h >= 4
    ensures face.w >= 3 && face.h >= 4 ==> SkinRoi(face, width, height) == RawRoi(face)
  {
    if face.w >= 3 && face.h >= 4 {
      assert RawRoi(face).Within(width, height);
    }
  }

  /** For a face with a non-negative origin the sample never leaves the face. */
  lemma SampleInsideFace(face: Rect, width: int, height: int)
    requires face.x >= 0 && face.y >= 0 && face.w >= 0 && face.h >= 0
    ensures var roi := SkinRoi(face, width, height);
      && face.x <= roi.x && roi.x + roi.w <= face.x + face.w
      && face.y <= roi.y && roi.y + roi.h <= face.y + face.h
  {
  }

  /** A face inside the image, even one touching its right or bottom edge,
      never clamps its sample to a negative size. */
  lemma ClampedSampleNotNegative(face: Rect, width: int, height: int)
    requires face.Within(width, height) && face.w >= 0 && face.h >= 0
    ensures SkinRoi(face, width, height).w >= 0 && SkinRoi(face, width, height).h >= 0
  {
  }

  // ---------------------------------------------------------------------------
  // Averaging
  // ---------------------------------------------------------------------------

  /** `roi` is a non-empty rectangle inside the well-formed image `img`. */
  predicate Sampleable(img: Image, roi: Rect) {
    img.Valid() && roi.NonEmpty() && roi.Within(img.width, img.height)
  }

  /** Sum of channel `k` over `row[lo..hi]`. */
  function RowSum(row: seq<Pixel>, k: ChannelIndex, lo: int, hi: int): (s: nat)
    requires 0 <= lo <= hi <= |row|
    ensures s <= 255 * (hi - lo)
    decreases hi - lo
  {
    if lo == hi then 0 else RowSum(row, k, lo, hi - 1) + row[hi - 1].At(k)
  }

  /** Sum of channel `k` over the first `rows` rows of `roi`. */
  function RegionSum(img: Image, k: ChannelIndex, roi: Rect, rows: int): (s: nat)
    requires Sampleable(img, roi)
    requires 0 <= rows <= roi.h
    ensures s <= 255 * (roi.w * rows)
    decreases rows
  {
    if rows == 0 then
      0
    else
      var before := RegionSum(img, k, roi, rows - 1);
      var line := RowSum(img.rows[roi.y + rows - 1], k, roi.x, roi.x + roi.w);
      assert roi.w * (rows - 1) + roi.w == roi.w * rows;
      before + line
  }

  /** Sum of channel `k` over all of `roi`. */
  function ChannelSum(img: Image, k: ChannelIndex, roi: Rect): nat
    requires Sampleable(img, roi)
  {
    RegionSum(img, k, roi, roi.h)
  }

  /** `m` is the mean of `total` over `count` items, rounded down. */
  predicate IsFloorMean(m: int, total: int, count: int) {
    m * count <= total < (m + 1) * count
  }

  /** The rounded-down mean of channel `k` over `roi`. */
  function ChannelMean(img: Image, roi: Rect, k: ChannelIndex): (m: Byte)
    requires Sampleable(img, roi)
    ensures IsFloorMean(m, ChannelSum(img, k, roi), roi.w * roi.h)
  {
    var n := roi.w * roi.h;
    var total := ChannelSum(img, k, roi);
    FloorDivIsFloorMean(total, n);
    total / n
  }

  /** Integer division of a sum of bytes by their count is their rounded-down mean, itself a byte. */
  lemma FloorDivIsFloorMean(total: int, n: int)
    requires n > 0 && 0 <= total <= 255 * n
    ensures 0 <= total / n <= 255
    ensures IsFloorMean(total / n, total, n)
  {
    var q := total / n;
    assert q * n + total % n == total;
  }

  /** The average colour of `roi`, each channel the rounded-down mean over the
      region, reordered from the decoder's (blue, green, red) to (red, green, blue):
      red is the mean of channel 2 and blue the mean of channel 0. */
  function MeanColour(img: Image, roi: Rect): (c: Rgb)
    requires Sampleable(img, roi)
    ensures IsFloorMean(c.red, ChannelSum(img, 2, roi), roi.w * roi.h)
    ensures IsFloorMean(c.green, ChannelSum(img, 1, roi), roi.w * roi.h)
    ensures IsFloorMean(c.blue, ChannelSum(img, 0, roi), roi.w * roi.h)
  {
    Rgb(ChannelMean(img, roi, Red), ChannelMean(img, roi, Green), ChannelMean(img, roi, Blue))
  }

  /** The pixels of `roi` all equal `p`. */
  predicate Uniform(img: Image, roi: Rect, p: Pixel)
    requires Sampleable(img, roi)
  {
    forall y, x :: roi.y <= y < roi.y + roi.h && roi.x <= x < roi.x + roi.w ==> img.rows[y][x] == p
  }

  lemma {:induction false} UniformRowSum(row: seq<Pixel>, k: ChannelIndex, lo: int, hi: int, p: Pixel)
    requires 0 <= lo <= hi <= |row|
    requires forall x :: lo <= x < hi ==> row[x] == p
    ensures RowSum(row, k, lo, hi) == (hi - lo) * p.At(k)
    decreases hi - lo
  {
    if lo < hi {
      UniformRowSum(row, k, lo, hi - 1, p);
    }
  }

  lemma {:induction false} UniformRegionSum(img: Image, k: ChannelIndex, roi: Rect, rows: int, p: Pixel)
    requires Sampleable(img, roi) && Uniform(img, roi, p)
    requires 0 <= rows <= roi.h
    ensures RegionSum(img, k, roi, rows) == rows * (roi.w * p.At(k))
    decreases rows
  {
    if rows > 0 {
      UniformRegionSum(img, k, roi, rows - 1, p);
      var y := roi.y + rows - 1;
      UniformRowSum(img.rows[y], k, roi.x, roi.x + roi.w, p);
      var line := roi.w * p.At(k);
      assert RegionSum(img, k, roi, rows) == RegionSum(img, k, roi, rows - 1) + line;
      assert (rows - 1) * line + line == rows * line;
    }
  }

  lemma UniformChannelMean(img: Image, roi: Rect, p: Pixel, k: ChannelIndex)
    requires Sampleable(img, roi) && Uniform(img, roi, p)
    ensures ChannelMean(img, roi, k) == p.At(k)
  {
    var v := p.At(k);
    UniformRegionSum(img, k, roi, roi.h, p);
    assert ChannelSum(img, k, roi) == roi.h * (roi.w * v);
    ConstantIsItsOwnMean(v, roi.w, roi.h);
    FloorMeanUnique(ChannelMean(img, roi, k), v, roi.h * (roi.w * v), roi.w * roi.h);
  }

  /** `count` copies of `v` average to `v`. */
  lemma ConstantIsItsOwnMean(v: int, w: int, h: int)
    requires w > 0 && h > 0
    ensures IsFloorMean(v, h * (w * v), w * h)
  {
    assert h * (w * v) == v * (w * h);
    assert (v + 1) * (w * h) == v * (w * h) + w * h;
  }

  /** A region of one colour averages to exactly that colour, channels swapped to RGB. */
  lemma UniformRegionMean(img: Image, roi: Rect, p: Pixel)
    requires Sampleable(img, roi) && Uniform(img, roi, p)
    ensures MeanColour(img, roi) == p.ToRgb()
  {
    UniformChannelMean(img, roi, p, Red);
    UniformChannelMean(img, roi, p, Green);
    UniformChannelMean(img, roi, p, Blue);
  }

  /** The rounded-down mean is unique. */
  lemma FloorMeanUnique(m: int, m': int, total: int, count: int)
    requires count > 0
    requires IsFloorMean(m, total, count) && IsFloorMean(m', total, count)
    ensures m == m'
  {
  }

  /** A row-by-row loop that computes exactly `MeanColour`. */
  method AverageSkinColour(img: Image, roi: Rect) returns (c: Rgb)
    requires Sampleable(img, roi)
    ensures c == MeanColour(img, roi)
  {
    var sb, sg, sr := 0, 0, 0;
    var j := 0;
    while j < roi.h
      invariant 0 <= j <= roi.h
      invariant sb == RegionSum(img, Blue, roi, j)
      invariant sg == RegionSum(img, Green, roi, j)
      invariant sr == RegionSum(img, Red, roi, j)
    {
      var row := img.rows[roi.y + j];
      var rb, rg, rr := 0, 0, 0;
      var i := roi.x;
      while i < roi.x + roi.w
        invariant roi.x <= i <= roi.x + roi.w
        invariant rb == RowSum(row, Blue, roi.x, i)
        invariant rg == RowSum(row, Green, roi.x, i)
        invariant rr == RowSum(row, Red, roi.x, i)
      {
        rb := rb + row[i].At(Blue);
        rg := rg + row[i].At(Green);
        rr := rr + row[i].At(Red);
        i := i + 1;
      }
      sb, sg, sr := sb + rb, sg + rg, sr + rr;
      j := j + 1;
    }
    var n := roi.w * roi.h;
    FloorDivIsFloorMean(sr, n);
    FloorDivIsFloorMean(sg, n);
    FloorDivIsFloorMean(sb, n);
    c := Rgb(sr / n, sg / n, sb / n);
  }

  // ---------------------------------------------------------------------------
  // The locator
  // ---------------------------------------------------------------------------

  /** Locates the skin sample in a decoded image and averages it. */
  function Locate(decoded: Option<Image>, faces: seq<Rect>): (r: Outcome)
    requires decoded.Some? ==> decoded.value.Valid()
    ensures r.DecodeFailed? <==> decoded.None?
    ensures r.NoColour? ==> decoded == Some(r.image)
    ensures decoded.Some? && |faces| == 0 ==> r == NoColour(decoded.value)
    ensures r.Coloured? <==>
      decoded.Some? && |faces| > 0 &&
      SkinRoi(ChosenFace(faces), decoded.value.width, decoded.value.height).NonEmpty()
    ensures r.Coloured? ==>
      && decoded == Some(r.image)
      && r.face == ChosenFace(faces)
      && r.roi == SkinRoi(r.face, r.image.width, r.image.height)
      && r.roi.NonEmpty() && r.roi.Within(r.image.width, r.image.height)
      && IsFloorMean(r.colour.red, ChannelSum(r.image, Red, r.roi), r.roi.w * r.roi.h)
      && IsFloorMean(r.colour.green, ChannelSum(r.image, Green, r.roi), r.roi.w * r.roi.h)
      && IsFloorMean(r.colour.blue, ChannelSum(r.image, Blue, r.roi), r.roi.w * r.roi.h)
  {
    match decoded
    case None => DecodeFailed
    case Some(img) =>
      if |faces| == 0 then
        NoColour(img)
      else
        var face := ChosenFace(faces);
        var roi := SkinRoi(face, img.width, img.height);
        if !roi.NonEmpty() then
          NoColour(img)
        else
          Coloured(MeanColour(img, roi), img, face, roi)
  }
}
