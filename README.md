# Durian plant analysis: a Dafny model

The analysis takes one photograph of a durian plant and produces several values:

- pixel measurements: the canopy bounding box and its size, the stem width and height, and the plant height;
- a greenness index;
- a health label;
- a list of nutrient or growth deficiencies, with a counteraction for each;
- growth rates against earlier measurements;
- centimetre versions of the measurements, from a red reference marker that is 30 cm on a side.

OpenCV does the image processing. It finds contours, bounding rectangles, contour areas and colour masks. This model starts after OpenCV: those results are its inputs. It models the plain-Python logic that turns them into measurements, diagnoses and rates.

Modules (one per component of `durian_plant_analysis.py`, plus one for `growth_rate_analysis.py`):

- `PlantTypes` (`plant_types.dfy`): shared values.
  - `Option`.
  - `Result`, which holds either a returned value or the Python exception raised (`ValueError`, `ZeroDivisionError`, `TypeError`, `IndexError`).
  - Points, rectangles, and contours. A contour is abstract: its OpenCV area, its OpenCV bounding rectangle, and its points.
- `PlantMetrics` (`plant_metrics.dfy`):
  - canopy size from the largest contour;
  - the greenness index;
  - `measure_stem_size`, modelled as a loop method;
  - `measure_height`, modelled as a nested-loop method.
- `PlantDiagnosis` (`plant_diagnosis.dfy`): `analyze_health`, `detect_deficiencies` and `suggest_counteractions`. String codes become datatypes, and a name function gives back each source string.
- `PlantCalibration` (`plant_calibration.dfy`): the scale factors `30/w` and `30/h`, or 0.1 when there is no marker, and the conversions to centimetres.
- `GrowthRateAnalysis` (`growth_rate.dfy`): `analyze_growth_rate(current_measurement, previous_measurements)`.
- `DurianPlantAnalysis` (`plant_analysis.dfy`):
  - the copy of the growth-rate function with its two hard-coded records;
  - `analyze_durian_plant`, run over the features OpenCV extracted from the image.

Python's `/` on two integers gives an exact ratio here: it is modelled as Dafny `real`.

Three of the source functions work by appending or updating variables in loops: `measure_stem_size`, `measure_height` and `suggest_counteractions`. Each is a `method` with loop invariants. Its `ensures` equates the result with a specification function, and lemmas prove what that function means. `detect_deficiencies` appends without a loop. It is a method too, tied to a fixed-order filter over the four rules.

Failure cases follow what the Python code does, each as an error result:

- Canopy with no contours: `max` raises `ValueError`; the model returns `Err(ValueError)`.
- Canopy size 0: the greenness division raises `ZeroDivisionError`; the model returns `Err(ZeroDivisionError)`.
- Plant height: `measure_height` returns `None` exactly when the contours hold no point at all, including when there are contours without points.
- Growth rate with an empty history: `previous_measurements[-1]` raises `IndexError`; the model returns `Err(IndexError)`.
- Growth rate when the current record has a stem and the last record has none: `None[0]` raises `TypeError`; the model returns `Err(TypeError)`.
- Missing plant height: `detect_deficiencies` raises `TypeError` on `None < 100`, so the whole analysis fails; the model returns `Err(TypeError)`.
- No reference marker: the code silently uses 0.1 cm per pixel on both axes, and so does the model.
- Thresholds: the model keeps the code's constants: 1000, 10, 100, 0.7, 0.4, and the stem window 5–50 by 50–300.

## Model

| member | source | states |
|---|---|---|
| `PlantMetrics.LargestIndex` | durian_plant_analysis.py:49 | returns the contour that `max(contours, key=contourArea)` picks: one of maximum area, and the first of those on ties |
| `PlantMetrics.ExtractCanopy` | durian_plant_analysis.py:49-56 | raises ValueError exactly when there are no contours; otherwise width and height are the bounding box of a first-largest contour and size is width × height |
| `PlantMetrics.CanopyOfFirstLargest` | durian_plant_analysis.py:49-56 | the first-largest contour is unique, so the canopy is exactly that contour's box: w, h and w·h |
| `PlantMetrics.GreennessIndex` | durian_plant_analysis.py:65-68 | raises ZeroDivisionError exactly when the canopy size is 0; otherwise index × canopy size = number of nonzero mask entries |
| `PlantMetrics.GreennessInUnitInterval` | durian_plant_analysis.py:65-68 | a mask no larger than the canopy gives an index in [0, 1]; an all-green mask covering the canopy gives 1, an all-zero mask 0 |
| `PlantMetrics.MeasureStemSize` | durian_plant_analysis.py:71-88 | the loop keeps the contours whose box lies in the inclusive window 5–50 × 50–300, and a stem is returned only when exactly one is kept |
| `PlantMetrics.StemPresentIffOneCandidate` | durian_plant_analysis.py:73-88 | a stem is returned if and only if exactly one contour qualifies, and then it is that contour's (w, h) |
| `PlantMetrics.StemAbsentWhenAmbiguous` | durian_plant_analysis.py:82-88 | two qualifying contours give no stem |
| `PlantMetrics.MeasureHeight` | durian_plant_analysis.py:91-106 | the nested loop's topmost/bottommost points are the least and greatest y seen so far; the result is max y − min y, or None without points |
| `PlantMetrics.PlantHeight` | durian_plant_analysis.py:102-106 | a returned height is never negative |
| `PlantMetrics.PlantHeightIsVerticalExtent` | durian_plant_analysis.py:91-106 | None exactly when no contour has a point; otherwise no two points are further apart vertically than the height, and some pair is exactly that far apart |
| `PlantDiagnosis.AnalyzeHealth` | durian_plant_analysis.py:159-169 | healthy iff g ≥ 0.7, moderately healthy iff 0.4 ≤ g < 0.7, unhealthy iff g < 0.4; exactly 0.7 and 0.4 fall in the upper bucket |
| `PlantDiagnosis.HealthMonotone` | durian_plant_analysis.py:159-169 | a greener plant is never labelled less healthy |
| `PlantDiagnosis.ParseDeficiency` | durian_plant_analysis.py:112-123 | a recognised code string is the name of the deficiency it denotes |
| `PlantDiagnosis.DeficiencyNameRoundTrip` | durian_plant_analysis.py:112-123 | every deficiency's code string is recognised as that deficiency |
| `PlantDiagnosis.DeficienciesCharacterized` | durian_plant_analysis.py:109-125 | each code appears iff its condition holds (greenness < 0.7, canopy < 1000, stem present with width < 10, height < 100); codes come in that fixed order, none twice, at most four |
| `PlantDiagnosis.DeficienciesRuleByRule` | durian_plant_analysis.py:109-125 | the fixed-order filter equals the four independent rule checks concatenated in source order |
| `PlantDiagnosis.DetectDeficiencies` | durian_plant_analysis.py:109-125 | raises TypeError exactly when the height is None (`None < 100`); otherwise returns the fixed-order deficiency list |
| `PlantDiagnosis.LowGreennessIffNotHealthy` | durian_plant_analysis.py:112-113 | the low-greenness code is reported exactly when analyze_health does not say healthy (both use 0.7) |
| `PlantDiagnosis.CounteractionForInjective` | durian_plant_analysis.py:172-189 | the deficiency→counteraction table is one-to-one |
| `PlantDiagnosis.ActionsForCode` | durian_plant_analysis.py:175-187 | one loop pass appends exactly the table entry of a known code and nothing for any other string |
| `PlantDiagnosis.SuggestCounteractions` | durian_plant_analysis.py:172-189 | the loop appends, code by code, what the four independent tests append |
| `PlantDiagnosis.CounteractionsFollowTable` | durian_plant_analysis.py:172-189 | the result is the table applied to the known codes in their order; unknown codes contribute nothing |
| `PlantDiagnosis.CounteractionsOfDeficiencies` | durian_plant_analysis.py:172-189 | for a list of known codes the output has the same length, and position i holds the action for code i |
| `PlantCalibration.Calibrate` | durian_plant_analysis.py:215-223 | without a marker both factors are 0.1; with one, factor × marker side = 30 on each axis, and a zero side raises ZeroDivisionError |
| `PlantCalibration.CalibratedScaleIsPositive` | durian_plant_analysis.py:215-223 | a marker with positive sides, or no marker, gives positive factors |
| `PlantCalibration.ToStemSizeCm` | durian_plant_analysis.py:228-231 | the centimetre stem is present exactly when the pixel stem is |
| `PlantCalibration.PlantHeightCm` | durian_plant_analysis.py:233 | a None height raises TypeError; a present one is converted |
| `PlantCalibration.MarkerMeasuresReferenceLength` | durian_plant_analysis.py:215-233 | after calibration, a stem or height the marker's size in pixels measures 30 cm, and a canopy box the marker's size measures 900 cm² |
| `PlantCalibration.ConversionIsInvertible` | durian_plant_analysis.py:225-233 | with a found or default scale, dividing each converted value by its factor gives back the pixel value: canopy_size_cm by the x factor (as written), the corrected area by both factors, the stem sides and the height by their axis factors |
| `PlantCalibration.CanopySizeCmAsWritten` | durian_plant_analysis.py:226 | the reported canopy_size_cm is the pixel area times the x factor alone; multiplied by the y factor it gives the area in cm² |
| `PlantCalibration.CanopySizeCmAsWrittenIsNotArea` | durian_plant_analysis.py:226 | with a 15 × 15 px marker, a 15 × 15 px canopy is reported as 450 where its area is 900 cm² |
| `PlantCalibration.CanopyAreaCmIsBoxArea` | durian_plant_analysis.py:226 | the corrected conversion equals (width in cm) × (height in cm) of the canopy box |
| `GrowthRateAnalysis.AnalyzeGrowthRate` | growth_rate_analysis.py:4-24 | raises IndexError on an empty history and TypeError for a missing stem or height it must read; otherwise each rate × len(history) = current − last; stem rates are present iff the current stem is |
| `GrowthRateAnalysis.OnlyLastRecordAndLengthMatter` | growth_rate_analysis.py:6-15 | histories with the same length and the same last record give the same result |
| `GrowthRateAnalysis.AverageDeltaSign` | growth_rate_analysis.py:6 | a rate is positive, zero or negative exactly as the trait grew, stayed or shrank |
| `GrowthRateAnalysis.RateSignFollowsChange` | growth_rate_analysis.py:6-15 | each defined rate (canopy, both stem sides, height) is positive iff the current value exceeds the last, and zero iff they are equal |
| `GrowthRateAnalysis.NoChangeNoGrowth` | growth_rate_analysis.py:6-15 | a measurement equal to the last record gives all defined rates 0 |
| `GrowthRateAnalysis.SingleRecordRate` | growth_rate_analysis.py:6 | one prior canopy of 1000 and a current 1100 give a canopy rate of 100 |
| `DurianPlantAnalysis.EmbeddedGrowthRate` | durian_plant_analysis.py:128-156 | a None height raises TypeError; the stem rates are present iff the stem is |
| `DurianPlantAnalysis.EmbeddedIsGeneralOnHardCodedHistory` | durian_plant_analysis.py:128-156 | the embedded copy equals growth_rate_analysis.py's function on the two hard-coded records: canopy rate (c − 1100)/2, stem (w − 12)/2 and (h − 110)/2, height (p − 130)/2 |
| `DurianPlantAnalysis.AnalyzeDurianPlant` | durian_plant_analysis.py:191-250 | fails exactly when there is no canopy contour (ValueError), the canopy size is 0 (ZeroDivisionError), no contour has a point (TypeError), or the marker has a zero side (ZeroDivisionError); otherwise the record holds the component measurements (canopy box, greenness, stem, height), health = analyze_health(greenness), the embedded growth rate, the deficiencies matching their rules in fixed order with one counteraction each, and the cm values converted with the marker's or the default scale: canopy size × x factor as the source writes it, stem sides and height by their axis factors |

## Findings

| source | as written | input that shows it | evidently intended | confidence | as-written member | corrected member |
|---|---|---|---|---|---|---|
| durian_plant_analysis.py:226 | `canopy_size_cm = size * pixel_to_cm_width`: an area in px² is scaled by one linear factor | a 15 × 15 px marker gives 2 cm/px; a 15 × 15 px canopy (225 px²) is 30 cm × 30 cm = 900 cm², but 450 is reported | size × x factor × y factor (cm²) | medium, not executed | `PlantCalibration.CanopySizeCmAsWrittenIsNotArea` | `PlantCalibration.CanopyAreaCmIsBoxArea` |

`AnalyzeDurianPlant` reports `canopySizeCm` as the source computes it (`CanopySizeCmAsWritten`); its contract ties that value to the corrected area `CanopyAreaCm` through the y factor.

## Left out

- The OpenCV calls are foreign image processing and are inputs of the model: `imread`, `cvtColor`, `GaussianBlur`, `Canny`, `threshold`, `findContours`, `inRange`, `countNonZero`, `boundingRect` and `contourArea`. `countNonZero` is modelled as counting the nonzero entries of the mask sequence.
- `read_image`, `preprocess_image`, `detect_edges`, `segment_image`, `analyze_nutrient_content` and `find_red_object` are all OpenCV. Only their results enter the model, as `ImageFeatures`: canopy contours, green mask, segmentation contours, and the marker rectangle or none. The edge image of `detect_edges` is computed and never used.
- A contour's area, bounding rectangle and points are independent inputs. The model does not check that the rectangle and area agree with the points, because OpenCV computes them.
- The `__main__` block and process_multiple_images.py are out of scope. They list a directory, build a pandas DataFrame and write Excel, all of which is I/O.
- Floating point is not modelled. Every ratio and conversion is an exact `real`, so rounding is not captured.
- Integers are unbounded. OpenCV's 32-bit coordinates never overflow in the model.
- `DurianPlantAnalysis.AnalyzeDurianPlant`: the record's `health`, `deficiencies` and `counteractions` are datatype values, not strings; `PlantDiagnosis.HealthName`, `PlantDiagnosis.DeficiencyName` and `PlantDiagnosis.CounteractionName` give the strings the source returns.
- `DurianPlantAnalysis.AnalyzeDurianPlant`: the source runs `detect_deficiencies` twice with the same arguments. The model does the same, but the first call's result is used only for its failure.
- `PlantMetrics.MeasureHeight`: a Python point is `point[0]`, an N×1×2 array row. The model stores the point itself.
