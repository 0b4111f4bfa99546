# Skin-tone pipeline of the Korean outfit recommender, in Dafny

This project models the part of the Korean outfit recommender that turns a photograph into a skin-tone label. The window, the file dialog and the lookup texts around it are not modelled. The pipeline has two stages:

- **The locator** (`get_average_skin_color`) receives a decoded image and the face detector's rectangles. It picks the largest face, using the first in detector order among equal areas. It derives a forehead/cheek sample rectangle at 0.3w/0.2h offset with size 0.4w x 0.3h, truncating each fraction. It clamps that rectangle to the image and rejects it when empty. It then averages each channel over the rectangle and reorders the result from the decoder's BGR to RGB. The result is one of three distinguishable outcomes: decode failure, no colour (with the image undrawn), or a colour (with the face and sample boxes to outline).
- **The classifier** (`classify_skin_tone`) maps an optional colour to one of seven labels. The warm/cool axis is a first-match cascade: warm hue bands, then the cool hue band, then the score `0.7(r-b)+0.3(g-b)` against +-20, then `r > b`. The light/dark axis uses the HSV value `max(r, g, b)` with strict cut-offs at 180 and 100.

Modules:

- `Raster` (`raster.dfy`): bytes, pixels in BGR order, images, rectangles, and truncating division.
- `Locator` (`locator.dfy`): the stable area sort, the sample rectangle, channel sums and means, and `Locate`.
- `ToneClassifier` (`classifier.dfy`): `Classify` and the label names.
- `Catalogue` (`catalogue.dfy`): the key sets of the palette and outfit tables.
- `Analysis` (`analysis.dfy`): one request as `process_image` runs it.

Modelling choices:

- `int(w * 0.3)`, `int(h * 0.2)`, `int(w * 0.4)` and `int(h * 0.3)` are `TruncTenths(3 * w)` and so on. `TruncTenths` truncates toward zero, as Python's `int()` does.
- The score test `0.7(r-b)+0.3(g-b) > 20` becomes `7(r-b)+3(g-b) > 200`. `ScaledScoreExact` proves this equal to the comparison on exact reals.
- The hue is taken as a function `hueOf` of the colour. The value is computed.
- The face choice is modelled as the source computes it: a stable descending sort by area, then the head of the result. This is proved equal to "the first face of maximal area".

Two details of the code are easy to misread:

- The code truncates the sample offsets and sizes with `int()`. It does not round them.
- When the sample rectangle degenerates, the code returns the image before anything is drawn on it. No face box is drawn.

## Model

| member | source | states |
|---|---|---|
| `Raster.TruncTenths` | korean_outfit_recommender.py:71-74 | `int()` of n/10 truncates toward zero: for n >= 0 the quotient q satisfies `q*10 <= n < q*10+10`; for negative n the mirror image holds. |
| `Locator.InsertDescending` | korean_outfit_recommender.py:69 | Inserting into an area-descending list keeps it descending and adds exactly one copy of the element. The new element becomes the head when its area is at least the head's. |
| `Locator.InsertDescendingPlaces` | korean_outfit_recommender.py:69 | The new element is inserted at an index k. Every element before k has strictly larger area, and every element from k on has area at most its own. So it goes ahead of every element of equal area. |
| `Locator.SortDescending` | korean_outfit_recommender.py:69 | `sorted(..., reverse=True)` returns a permutation of the faces (same multiset and length), ordered by non-increasing area. |
| `Locator.SortedHead` | korean_outfit_recommender.py:69 | The head of the stable descending sort is the face of maximal area that comes first in detector order. Ties therefore go to the earliest face. |
| `Locator.FirstMaxUnique` | korean_outfit_recommender.py:69 | At most one index is "first of maximal area", so the chosen face is fully determined even with ties. |
| `Locator.ChosenFace` | korean_outfit_recommender.py:66-69 | With at least one candidate, the chosen face is a candidate of maximal area, and every earlier candidate has strictly smaller area. |
| `Locator.RawRoi` | korean_outfit_recommender.py:71-74 | For a face of non-negative size, the unclamped sample lies inside the face. Its width is positive iff the face is at least 3 wide, and its height is positive iff the face is at least 4 high. |
| `Locator.ClampRoi` | korean_outfit_recommender.py:76-79 | After clamping, x >= 0, y >= 0, x+w <= width and y+h <= height. The size never grows. A rectangle already inside the image is unchanged. A non-empty result lies inside the image. |
| `Locator.SkinRoiExample` | korean_outfit_recommender.py:71-79 | Face (100,100,200,200) in a 400x400 image samples (160,140,80,60). |
| `Locator.SmallFaceHasNoSample` | korean_outfit_recommender.py:71-82 | A face with w <= 2 or h <= 3 always yields an empty sample. |
| `Locator.SampleExistsIff` | korean_outfit_recommender.py:71-82 | For a face inside the image, the sample is non-empty iff w >= 3 and h >= 4, and then clamping changes nothing. |
| `Locator.SampleInsideFace` | korean_outfit_recommender.py:71-79 | For a face with non-negative origin and size, the clamped sample never leaves the face rectangle. |
| `Locator.ClampedSampleNotNegative` | korean_outfit_recommender.py:76-79 | For a face inside the image, the clamped sample never has a negative width or height, even when the face touches the right or bottom edge. |
| `Locator.RowSum` | korean_outfit_recommender.py:84-86 | The sum of one channel over a row segment is at most 255 per pixel. |
| `Locator.RegionSum` | korean_outfit_recommender.py:84-86 | The sum of one channel over the sample is at most 255 times the pixel count. |
| `Locator.FloorDivIsFloorMean` | korean_outfit_recommender.py:86-88 | Dividing a sum of bytes by its count gives the floor of the mean, and that floor is a byte. |
| `Locator.MeanColour` | korean_outfit_recommender.py:84-88 | Each component is the floor of the exact mean over the sample (`m*n <= sum < (m+1)*n`). Red comes from channel 2 and blue from channel 0 (BGR to RGB). |
| `Locator.UniformChannelMean` | korean_outfit_recommender.py:84-86 | If every pixel of the sample has the same value in a channel, the floor mean of that channel is exactly that value. |
| `Locator.UniformRegionMean` | korean_outfit_recommender.py:84-88 | A sample of one pixel colour averages to exactly that colour, with its channels reordered to RGB. |
| `Locator.AverageSkinColour` | korean_outfit_recommender.py:84-88 | Summing the sample row by row and dividing gives exactly `MeanColour`. |
| `Locator.Locate` | korean_outfit_recommender.py:57-93 | The outcome is decode failure iff decoding failed. With no faces it is `NoColour` of the undrawn image. It is `Coloured` iff there are faces and the chosen face's sample is non-empty. In that case the sample is in bounds, each component is the floor of the mean over the sample, and the colour comes from the undrawn pixels. |
| `ToneClassifier.Value` | korean_outfit_recommender.py:101-102 | The HSV value is the largest of r, g and b. |
| `ToneClassifier.ScaledScoreExact` | korean_outfit_recommender.py:104 | `7(r-b)+3(g-b)` is exactly ten times the real score, so comparing it with +-200 decides the same as comparing the real score with +-20. |
| `ToneClassifier.Classify` | korean_outfit_recommender.py:95-124 | The result is `Unknown` iff no colour is given. Otherwise it is Warm iff a warm hue band holds, or outside the cool band the score exceeds 20, or the score is within +-20 and r > b. It is Light iff V > 180, Medium iff 100 < V <= 180, and Dark iff V <= 100. |
| `ToneClassifier.HueBandsDecideFirst` | korean_outfit_recommender.py:106-109 | A hue <= 20 or >= 160 gives Warm whatever the score. A hue in [80, 140] gives Cool. All four bounds are inclusive. |
| `ToneClassifier.ScoreDecidesBetweenBands` | korean_outfit_recommender.py:110-113 | With the hue in (20,80) or (140,160), a scaled score above 200 gives Warm and one below -200 gives Cool. |
| `ToneClassifier.TieBreakOnRedBlue` | korean_outfit_recommender.py:110-115 | With the hue between the bands and the scaled score in [-200, 200], the result is Warm iff r > b strictly, so r == b gives Cool. |
| `ToneClassifier.DepthDependsOnlyOnValue` | korean_outfit_recommender.py:117-122 | Two colours of equal value get the same light/dark part, whatever their hues. |
| `ToneClassifier.ToneNameListed` | korean_outfit_recommender.py:124 | The `f"{warm_cool} {light_dark}"` name of a tone label is one of the six tone names. |
| `ToneClassifier.ClassifiedNameIsTone` | korean_outfit_recommender.py:99-124 | A given colour is always named by one of the six tone names, never "Unknown". |
| `ToneClassifier.NameInjective` | korean_outfit_recommender.py:124 | Different labels have different names. |
| `ToneClassifier.PaleWarmSkin` | korean_outfit_recommender.py:104-122 | The colour (220,200,180) is "Warm Light" for any hue outside the cool band. |
| `ToneClassifier.CoolMidTone` | korean_outfit_recommender.py:104-122 | The colour (90,100,130) is "Cool Medium" for any hue strictly between the warm bands. |
| `Catalogue.KeysAreLabelNames` | korean_outfit_recommender.py:126-220 | The palette table and the outfit table both have exactly the seven label names as keys. |
| `Catalogue.LookupNeverFallsBack` | korean_outfit_recommender.py:396-403 | Every label's name is a key of both tables, so `.get(..., table["Unknown"])` never uses its default. Tone labels get a 10-colour palette and "Unknown" gets the 5-colour one. |
| `Analysis.ProcessImage` | korean_outfit_recommender.py:377-405 | The label is Unknown iff the locator found no colour. A coloured outcome's label is the classification of the located colour. A coloured outcome is named by a tone name. Eight swatches are painted for a tone and five for "Unknown". There are four style suggestions. |
| `Analysis.NoFaceMeansUnknown` | korean_outfit_recommender.py:66-82 | An image with no face, or with a face too small to sample, reports "Unknown" and previews the undrawn image. |

## Left out

- Image decoding (`cv2.imread`), the grayscale conversion and the Haar-cascade detector (`detectMultiScale` with scale factor 1.1 and 4 neighbours) are foreign library calls. The decoded image is an `Option<Image>` input. The detector's output is an input sequence of rectangles in the order the detector reported them.
- OpenCV's fixed-point RGB-to-HSV hue is library arithmetic. The classifier takes the hue as a function `hueOf` of the colour. Only the value `max(r, g, b)` is computed.
- Drawing the face and sample boxes (`cv2.rectangle`) is a cosmetic side effect. The `Coloured` outcome records the two rectangles to draw, and its pixels are those the colour was computed from.
- The error dialog on a decode failure, the window, fonts, file dialog, thumbnailing and label updates are presentation and I/O.
- The palette hex strings and the outfit texts are static data. Each entry is reduced to the number of items it lists.
- Locator.RawRoi: `w * 0.3` and the other fractions are taken as exact tenths. For non-negative face sizes far below 2^49 the float product truncates to the same integer.
- Locator.MeanColour: the mean is exact. numpy's float64 mean agrees with it for any image small enough for its sums to stay below 2^53.
- Locator.ChosenFace: areas are compared as unbounded integers. numpy's int32 product `w * h` would wrap only for faces larger than 46340 x 46340 pixels.
- ToneClassifier.Classify: the score comparisons use exact arithmetic. Float rounding of `0.7` and `0.3` at exactly +-20 is not modelled.
