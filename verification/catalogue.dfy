/**
 The two lookup tables the presentation layer reads by label name: colour
 palettes and outfit recommendations. Only their keys matter to the
 classifier, so each entry is reduced to the number of items it lists.
 */
module Catalogue {
  import opened ToneClassifier

  /** Number of hex colours in each palette. */
  const PaletteSizes: map<string, nat> := map[
    "Warm Light" := 10, "Warm Medium" := 10, "Warm Dark" := 10,
    "Cool Light" := 10, "Cool Medium" := 10, "Cool Dark" := 10,
    "Unknown" := 5]

  /** Number of style suggestions in each outfit recommendation. */
  const OutfitStyleCounts: map<string, nat> := map[
    "Warm Light" := 4, "Warm Medium" := 4, "Warm Dark" := 4,
    "Cool Light" := 4, "Cool Medium" := 4, "Cool Dark" := 4,
    "Unknown" := 4]

  /** `table.get(key, table["Unknown"])`. */
  function LookupOrUnknown(table: map<string, nat>, key: string): nat
    requires "Unknown" in table
  {
    if key in table then table[key] else table["Unknown"]
  }

  /** Both tables are keyed by exactly the seven label names. */
  lemma KeysAreLabelNames(key: string)
    ensures key in PaletteSizes <==> exists l: Label :: Name(l) == key
    ensures key in OutfitStyleCounts <==> key in PaletteSizes
  {
    if key in PaletteSizes {
      if key == "Unknown" {
        assert Name(Unknown) == key;
      } else if key == "Warm Light" {
        assert Name(Tone(Warm, Light)) == key;
      } else if key == "Warm Medium" {
        assert Name(Tone(Warm, Medium)) == key;
      } else if key == "Warm Dark" {
        assert Name(Tone(Warm, Dark)) == key;
      } else if key == "Cool Light" {
        assert Name(Tone(Cool, Light)) == key;
      } else if key == "Cool Medium" {
        assert Name(Tone(Cool, Medium)) == key;
      } else {
        assert Name(Tone(Cool, Dark)) == key;
      }
    }
    if exists l: Label :: Name(l) == key {
      var l: Label :| Name(l) == key;
      LookupNeverFallsBack(l);
    }
  }

  /** Every label is a key of both tables, so neither lookup falls back to
      "Unknown": a tone label finds its own 10-colour palette, and only
      "Unknown" reads the 5-colour one. */
  lemma LookupNeverFallsBack(l: Label)
    ensures Name(l) in PaletteSizes && LookupOrUnknown(PaletteSizes, Name(l)) == PaletteSizes[Name(l)]
    ensures Name(l) in OutfitStyleCounts && LookupOrUnknown(OutfitStyleCounts, Name(l)) == OutfitStyleCounts[Name(l)]
    ensures LookupOrUnknown(PaletteSizes, Name(l)) == (if l == Unknown then 5 else 10)
  {
    if l.Tone? {
      ToneNameListed(l);
    }
  }
}
