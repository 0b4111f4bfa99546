/**
 One analysis request as the window runs it: locate and average the skin
 sample, classify the average, then read the palette and the outfit
 suggestions for the label's name.
 */
module Analysis {
  import opened Raster
  import opened Locator
  import opened ToneClassifier
  import opened Catalogue

  /** The window shows eight palette swatches; those past the palette are grey. */
  const SwatchCount := 8

  /** What the window ends up showing for one image. The preview is the
      outcome's image, absent only when decoding failed. */
  datatype Report = Report(outcome: Outcome, tone: Label, name: string, paintedSwatches: nat, styles: nat)

  /** The average colour handed to the classifier, if any. */
  function AverageOf(o: Outcome): Option<Rgb> {
    if o.Coloured? then Some(o.colour) else None
  }

  /** Runs the locator, classifies its colour (none unless one was found) and
      looks the label's name up in both tables. */
  function ProcessImage(decoded: Option<Image>, faces: seq<Rect>, hueOf: Rgb -> int): (rep: Report)
    requires decoded.Some? ==> decoded.value.Valid()
    ensures rep.outcome == Locate(decoded, faces)
    ensures rep.tone == Unknown <==> !rep.outcome.Coloured?
    ensures rep.outcome.Coloured? ==> rep.tone == Classify(Some(rep.outcome.colour), hueOf)
    ensures rep.name == Name(rep.tone)
    ensures rep.outcome.Coloured? ==> rep.name in ToneNames
    ensures !rep.outcome.Coloured? ==> rep.name == "Unknown"
    ensures rep.paintedSwatches == (if rep.tone == Unknown then 5 else 8)
    ensures rep.styles == 4
  {
    var outcome := Locate(decoded, faces);
    var tone := Classify(AverageOf(outcome), hueOf);
    LookupNeverFallsBack(tone);
    assert outcome.Coloured? ==> Name(tone) in ToneNames by {
      if outcome.Coloured? {
        ClassifiedNameIsTone(outcome.colour, hueOf);
      }
    }
    var palette := LookupOrUnknown(PaletteSizes, Name(tone));
    Report(outcome, tone, Name(tone), Min(SwatchCount, palette), LookupOrUnknown(OutfitStyleCounts, Name(tone)))
  }

  /** An image without faces, or whose face is too small to sample, reports
      "Unknown" and keeps the undrawn image as its preview. */
  lemma NoFaceMeansUnknown(img: Image, faces: seq<Rect>, hueOf: Rgb -> int)
    requires img.Valid()
    requires |faces| == 0 || !SkinRoi(ChosenFace(faces), img.width, img.height).NonEmpty()
    ensures ProcessImage(Some(img), faces, hueOf).outcome == NoColour(img)
    ensures ProcessImage(Some(img), faces, hueOf).name == "Unknown"
  {
  }
}
