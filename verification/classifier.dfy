/**
 The tone classifier: maps an optional average colour to one of seven labels.
 The warm/cool axis is a first-match cascade over the hue and a linear score;
 the light/dark axis reads the HSV value alone.

 The hue is whatever OpenCV's 8-bit RGB-to-HSV conversion reports (half-scale,
 0..179); its fixed-point arithmetic is foreign code, so the classifier takes
 it as a function `hueOf` of the colour. The value is max(r, g, b).
 */
module ToneClassifier {
  import opened Raster

  /** Hue bands, in half-scale hue units. */
  const WarmHueUpTo := 20
  const WarmHueFrom := 160
  const CoolHueFrom := 80
  const CoolHueUpTo := 140

  /** The score margin 20 of the source, scaled by ten like `Score`. */
  const ScoreMargin := 200

  /** Value cut-offs: above `LightAbove` is light, above `MediumAbove` medium. */
  const LightAbove := 180
  const MediumAbove := 100

  datatype Temperature = Warm | Cool
  datatype Depth = Light | Medium | Dark
  datatype Label = Unknown | Tone(temperature: Temperature, depth: Depth)

  /** The HSV value of a colour: its largest component. */
  function Value(c: Rgb): (v: Byte)
    ensures v >= c.red && v >= c.green && v >= c.blue
    ensures v == c.red || v == c.green || v == c.blue
  {
    if c.red >= c.green && c.red >= c.blue then c.red
    else if c.green >= c.blue then c.green
    else c.blue
  }

  /** The source's warm/cool score `0.7(r-b) + 0.3(g-b)`, evaluated exactly. */
  function ExactScore(c: Rgb): real {
    (c.red - c.blue) as real * 0.7 + (c.green - c.blue) as real * 0.3
  }

  /** Ten times the warm/cool score, in integers. */
  function Score(c: Rgb): int {
    7 * (c.red - c.blue) + 3 * (c.green - c.blue)
  }

  /** The integer comparisons against +-200 decide exactly what the real
      comparisons against +-20 decide. */
  lemma ScaledScoreExact(c: Rgb)
    ensures Score(c) as real == 10.0 * ExactScore(c)
    ensures ExactScore(c) > 20.0 <==> Score(c) > ScoreMargin
    ensures ExactScore(c) < -20.0 <==> Score(c) < -ScoreMargin
  {
  }

  /** The warm/cool cascade; the first matching rule decides. */
  function TemperatureOf(c: Rgb, hue: int): Temperature {
    if hue <= WarmHueUpTo || hue >= WarmHueFrom then Warm
    else if CoolHueFrom <= hue <= CoolHueUpTo then Cool
    else if Score(c) > ScoreMargin then Warm
    else if Score(c) < -ScoreMargin then Cool
    else if c.red > c.blue then Warm
    else Cool
  }

  /** The light/dark axis from the value. */
  function DepthOf(v: int): Depth {
    if v > LightAbove then Light
    else if v > MediumAbove then Medium
    else Dark
  }

  /** Classifies an average colour; no colour means `Unknown`. */
  function Classify(c: Option<Rgb>, hueOf: Rgb -> int): (l: Label)
    ensures l == Unknown <==> c.None?
    ensures c.Some? ==> (l.temperature == Warm <==> WarmByRules(c.value, hueOf(c.value)))
    ensures c.Some? ==> (l.depth == Light <==> Value(c.value) > 180)
    ensures c.Some? ==> (l.depth == Medium <==> 100 < Value(c.value) <= 180)
    ensures c.Some? ==> (l.depth == Dark <==> Value(c.value) <= 100)
  {
    match c
    case None => Unknown
    case Some(rgb) => Tone(TemperatureOf(rgb, hueOf(rgb)), DepthOf(Value(rgb)))
  }

  // ---------------------------------------------------------------------------
  // The warm/cool axis
  // ---------------------------------------------------------------------------

  /** Independent statement of when the cascade answers Warm: a warm hue band,
      or outside the cool band a score above the margin, or a score inside the
      margin with red strictly above blue. */
  predicate WarmByRules(c: Rgb, hue: int) {
    || hue <= WarmHueUpTo
    || hue >= WarmHueFrom
    || (&& !(CoolHueFrom <= hue <= CoolHueUpTo)
        && (Score(c) > ScoreMargin || (Score(c) >= -ScoreMargin && c.red > c.blue)))
  }

  /** The hue bands take precedence over the score, all four bounds inclusive. */
  lemma HueBandsDecideFirst(c: Rgb, hueOf: Rgb -> int)
    ensures hueOf(c) <= 20 || hueOf(c) >= 160 ==> Classify(Some(c), hueOf).temperature == Warm
    ensures 80 <= hueOf(c) <= 140 ==> Classify(Some(c), hueOf).temperature == Cool
  {
  }

  /** Between the bands, a score beyond the margin decides by its sign. */
  lemma ScoreDecidesBetweenBands(c: Rgb, hueOf: Rgb -> int)
    requires 20 < hueOf(c) < 80 || 140 < hueOf(c) < 160
    ensures Score(c) > 200 ==> Classify(Some(c), hueOf).temperature == Warm
    ensures Score(c) < -200 ==> Classify(Some(c), hueOf).temperature == Cool
  {
  }

  /** Between the bands and within the margin, Warm exactly when red is
      strictly above blue; equal red and blue is Cool. */
  lemma TieBreakOnRedBlue(c: Rgb, hueOf: Rgb -> int)
    requires 20 < hueOf(c) < 80 || 140 < hueOf(c) < 160
    requires -200 <= Score(c) <= 200
    ensures Classify(Some(c), hueOf).temperature == Warm <==> c.red > c.blue
  {
  }

  // ---------------------------------------------------------------------------
  // The light/dark axis
  // ---------------------------------------------------------------------------

  /** Colours of equal value get the same depth, whatever their hue. */
  lemma DepthDependsOnlyOnValue(c: Rgb, c': Rgb, hueOf: Rgb -> int, hueOf': Rgb -> int)
    requires Value(c) == Value(c')
    ensures Classify(Some(c), hueOf).depth == Classify(Some(c'), hueOf').depth
  {
  }

  // ---------------------------------------------------------------------------
  // Label names
  // ---------------------------------------------------------------------------

  function TemperatureName(t: Temperature): string {
    match t
    case Warm => "Warm"
    case Cool => "Cool"
  }

  function DepthName(d: Depth): string {
    match d
    case Light => "Light"
    case Medium => "Medium"
    case Dark => "Dark"
  }

  /** The label text, `"<warm/cool> <light/dark>"` or `"Unknown"`. */
  function Name(l: Label): string {
    match l
    case Unknown => "Unknown"
    case Tone(t, d) => TemperatureName(t) + " " + DepthName(d)
  }

  const ToneNames: set<string> :=
    {"Warm Light", "Warm Medium", "Warm Dark", "Cool Light", "Cool Medium", "Cool Dark"}

  /** Every tone label is named by one of the six tone names. */
  lemma ToneNameListed(l: Label)
    requires l.Tone?
    ensures Name(l) in ToneNames
  {
    match l
    case Tone(t, d) =>
      match t
      case Warm => {
        match d
        case Light => assert Name(l) == "Warm Light";
        case Medium => assert Name(l) == "Warm Medium";
        case Dark => assert Name(l) == "Warm Dark";
      }
      case Cool => {
        match d
        case Light => assert Name(l) == "Cool Light";
        case Medium => assert Name(l) == "Cool Medium";
        case Dark => assert Name(l) == "Cool Dark";
      }
  }

  /** A present colour always gets one of the six tone names, never "Unknown". */
  lemma ClassifiedNameIsTone(c: Rgb, hueOf: Rgb -> int)
    ensures Name(Classify(Some(c), hueOf)) in ToneNames
    ensures Name(Classify(Some(c), hueOf)) != "Unknown"
  {
    ToneNameListed(Classify(Some(c), hueOf));
  }

  /** Different labels have different names, so a lookup by name tells them apart. */
  lemma NameInjective(l: Label, l': Label)
    requires Name(l) == Name(l')
    ensures l == l'
  {
    if l.Tone? && l'.Tone? {
      var n, n' := Name(l), Name(l');
      assert n[0] == n'[0];
      assert n[5] == n'[5];
    }
  }

  // ---------------------------------------------------------------------------
  // Worked cases
  // ---------------------------------------------------------------------------

  /** Pale warm skin (220, 200, 180): Warm Light for any hue outside the cool band. */
  lemma PaleWarmSkin(hueOf: Rgb -> int)
    requires !(80 <= hueOf(Rgb(220, 200, 180)) <= 140)
    ensures Name(Classify(Some(Rgb(220, 200, 180)), hueOf)) == "Warm Light"
  {
  }

  /** Cool mid-tone skin (90, 100, 130): Cool Medium for any hue outside the warm bands. */
  lemma CoolMidTone(hueOf: Rgb -> int)
    requires 20 < hueOf(Rgb(90, 100, 130)) < 160
    ensures Name(Classify(Some(Rgb(90, 100, 130)), hueOf)) == "Cool Medium"
  {
  }
}
