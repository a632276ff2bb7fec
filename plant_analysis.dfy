/** analyze_durian_plant of durian_plant_analysis.py over the features
    OpenCV extracts from one image, and the growth-rate function embedded in
    that file, which compares against two hard-coded earlier records. */
module DurianPlantAnalysis {
  import opened PlantTypes
  import opened PlantMetrics
  import opened PlantDiagnosis
  import opened PlantCalibration
  import opened GrowthRateAnalysis

  // ---------------------------------------------------------------------
  // Embedded growth rate (analyze_growth_rate of durian_plant_analysis.py)
  // ---------------------------------------------------------------------

  /** The two earlier measurements the embedded function assumes. */
  const HardCodedHistory: seq<Measurement> := [
    Measurement(1000, Some(StemSize(10, 100)), Some(120)),
    Measurement(1100, Some(StemSize(12, 110)), Some(130))
  ]

  /** Rates against the hard-coded history; a missing plant height raises
      TypeError. The history's last record has a stem, so a present stem
      always yields both stem rates. */
  function EmbeddedGrowthRate(canopySize: int, stemSize: Option<StemSize>, plantHeight: Option<int>)
    : (r: Result<GrowthRate>)
    ensures r.Err? <==> plantHeight.None?
    ensures r.Err? ==> r.error == TypeError
    ensures r.Ok? ==> && (r.value.stemWidthGrowthRate.Some? <==> stemSize.Some?)
                      && (r.value.stemHeightGrowthRate.Some? <==> stemSize.Some?)
  {
    var previous := HardCodedHistory;
    var last := previous[|previous| - 1];
    var n := |previous| as real;
    var canopyRate := (canopySize - last.canopySize) as real / n;
    var stemWidthRate :=
      if stemSize.Some? then Some((stemSize.value.width - last.stemSize.value.width) as real / n) else None;
    var stemHeightRate :=
      if stemSize.Some? then Some((stemSize.value.height - last.stemSize.value.height) as real / n) else None;
    if plantHeight.None? then Err(TypeError)
    else Ok(GrowthRate(canopyRate, stemWidthRate, stemHeightRate,
                       (plantHeight.value - last.plantHeight.value) as real / n))
  }

  /** The embedded copy is growth_rate_analysis.py's function applied to the
      hard-coded history: canopy rate (c - 1100) / 2, stem rates (w - 12) / 2
      and (h - 110) / 2, height rate (p - 130) / 2. */
  lemma EmbeddedIsGeneralOnHardCodedHistory(canopySize: int, stemSize: Option<StemSize>, plantHeight: Option<int>)
    ensures EmbeddedGrowthRate(canopySize, stemSize, plantHeight)
              == AnalyzeGrowthRate(Measurement(canopySize, stemSize, plantHeight), HardCodedHistory)
    ensures plantHeight.Some? ==>
              var r := EmbeddedGrowthRate(canopySize, stemSize, plantHeight).value;
              && r.canopyGrowthRate == (canopySize - 1100) as real / 2.0
              && r.plantHeightGrowthRate == (plantHeight.value - 130) as real / 2.0
              && (stemSize.Some? ==>
                    && r.stemWidthGrowthRate.value == (stemSize.value.width - 12) as real / 2.0
                    && r.stemHeightGrowthRate.value == (stemSize.value.height - 110) as real / 2.0)
  {
    var last := HardCodedHistory[1];
    assert HardCodedHistory[|HardCodedHistory| - 1] == last;
  }

  // ---------------------------------------------------------------------
  // The whole analysis of one image (analyze_durian_plant)
  // ---------------------------------------------------------------------

  /** What OpenCV extracts from the image for the analysis. */
  datatype ImageFeatures = ImageFeatures(
    canopyContours: seq<Contour>,  // external contours of the Canny edges
    greenMask: seq<int>,           // the green-hue mask, pixel by pixel
    contours: seq<Contour>,        // external contours of the inverted threshold
    redObject: Option<Rect>)       // the red marker's box, if one was found

  /** The dictionary analyze_durian_plant returns. */
  datatype PlantRecord = PlantRecord(
    canopySizeCm: real,
    stemSizeCm: Option<StemSizeCm>,
    plantHeightCm: real,
    canopySize: int,
    stemSize: Option<StemSize>,
    plantHeight: int,
    canopyWidth: int,
    canopyHeight: int,
    greennessIndex: real,
    growthRate: GrowthRate,
    health: Health,
    deficiencies: seq<Deficiency>,
    counteractions: seq<Counteraction>)

  /** The relations between the fields of every record the analysis returns. */
  ghost predicate ConsistentRecord(rec: PlantRecord) {
    && rec.canopySize == rec.canopyWidth * rec.canopyHeight
    && rec.plantHeight >= 0
    && (forall d :: d in rec.deficiencies <==>
          Fires(d, rec.canopySize, rec.stemSize, rec.plantHeight, rec.greennessIndex))
    && InRankOrder(rec.deficiencies)
    && ((LowGreennessIndex in rec.deficiencies) == (rec.health != Healthy))
    && |rec.counteractions| == |rec.deficiencies|
    && (forall i :: 0 <= i < |rec.deficiencies| ==> rec.counteractions[i] == CounteractionFor(rec.deficiencies[i]))
    && (rec.stemSizeCm.Some? <==> rec.stemSize.Some?)
    && (rec.growthRate.stemWidthGrowthRate.Some? <==> rec.stemSize.Some?)
    && (rec.growthRate.stemHeightGrowthRate.Some? <==> rec.stemSize.Some?)
  }

  /** The contours hold at least one point, so the height is defined. */
  predicate HasSomePoint(cs: seq<Contour>) {
    exists i :: 0 <= i < |cs| && cs[i].points != []
  }

  /** Raises ValueError without canopy contours, ZeroDivisionError for an
      empty canopy box, TypeError when no contour has a point (the height is
      None), and ZeroDivisionError for a marker box with a zero side;
      otherwise returns a record whose fields are consistent with each other
      and are the component measurements of the image. */
  method AnalyzeDurianPlant(image: ImageFeatures) returns (r: Result<PlantRecord>)
    ensures image.canopyContours == [] ==> r.Err? && r.error == ValueError
    ensures (image.canopyContours != [] && ExtractCanopy(image.canopyContours).value.size == 0)
              ==> r.Err? && r.error == ZeroDivisionError
    ensures r.Ok? <==> && image.canopyContours != []
                       && ExtractCanopy(image.canopyContours).value.size != 0
                       && HasSomePoint(image.contours)
                       && (image.redObject.Some? ==> image.redObject.value.w != 0 && image.redObject.value.h != 0)
    ensures r.Ok? ==> ConsistentRecord(r.value)
    ensures r.Ok? ==> && r.value.canopyWidth == ExtractCanopy(image.canopyContours).value.width
                      && r.value.canopyHeight == ExtractCanopy(image.canopyContours).value.height
                      && r.value.greennessIndex == GreennessIndex(image.greenMask, r.value.canopySize).value
                      && r.value.stemSize == StemOf(image.contours)
                      && Some(r.value.plantHeight) == PlantHeight(image.contours)
    ensures (&& image.canopyContours != []
             && ExtractCanopy(image.canopyContours).value.size != 0
             && !HasSomePoint(image.contours))
              ==> r.Err? && r.error == TypeError
    ensures (&& image.canopyContours != []
             && ExtractCanopy(image.canopyContours).value.size != 0
             && HasSomePoint(image.contours)
             && image.redObject.Some? && (image.redObject.value.w == 0 || image.redObject.value.h == 0))
              ==> r.Err? && r.error == ZeroDivisionError
    ensures r.Ok? ==> && r.value.health == AnalyzeHealth(r.value.greennessIndex)
                      && r.value.growthRate
                           == EmbeddedGrowthRate(r.value.canopySize, r.value.stemSize, Some(r.value.plantHeight)).value
    ensures r.Ok? ==> var s := Calibrate(image.redObject).value;
                      && r.value.canopySizeCm == CanopySizeCmAsWritten(r.value.canopySize, s)
                      && r.value.stemSizeCm == ToStemSizeCm(r.value.stemSize, s)
                      && r.value.plantHeightCm == PlantHeightCm(Some(r.value.plantHeight), s).value
  {
    PlantHeightIsVerticalExtent(image.contours);
    var canopyResult := ExtractCanopy(image.canopyContours);
    if canopyResult.Err? {
      return Err(canopyResult.error);
    }
    var canopyData := canopyResult.value;
    var greennessResult := GreennessIndex(image.greenMask, canopyData.size);
    if greennessResult.Err? {
      return Err(greennessResult.error);
    }
    var greennessIndex := greennessResult.value;

    var stemSize := MeasureStemSize(image.contours);
    var plantHeight := MeasureHeight(image.contours);

    var deficienciesResult := DetectDeficiencies(canopyData.size, stemSize, plantHeight, greennessIndex);
    if deficienciesResult.Err? {
      return Err(deficienciesResult.error);
    }

    var growthRate := EmbeddedGrowthRate(canopyData.size, stemSize, plantHeight).value;
    var health := AnalyzeHealth(greennessIndex);

    // The source detects the deficiencies a second time, with the same arguments.
    deficienciesResult := DetectDeficiencies(canopyData.size, stemSize, plantHeight, greennessIndex);
    var deficiencies := deficienciesResult.value;
    var counteractions := SuggestCounteractions(DeficiencyNames(deficiencies));

    var scaleResult := Calibrate(image.redObject);
    if scaleResult.Err? {
      return Err(scaleResult.error);
    }
    var scale := scaleResult.value;
    // The pixel area is scaled by the x factor alone, as the source does.
    var canopySizeCm := CanopySizeCmAsWritten(canopyData.size, scale);
    var stemSizeCm := ToStemSizeCm(stemSize, scale);
    var plantHeightCm := PlantHeightCm(plantHeight, scale).value;

    DeficienciesCharacterized(canopyData.size, stemSize, plantHeight.value, greennessIndex);
    LowGreennessIffNotHealthy(canopyData.size, stemSize, plantHeight.value, greennessIndex);
    CounteractionsOfDeficiencies(deficiencies);
    r := Ok(PlantRecord(
      canopySizeCm, stemSizeCm, plantHeightCm,
      canopyData.size, stemSize, plantHeight.value,
      canopyData.width, canopyData.height, greennessIndex,
      growthRate, health, deficiencies, counteractions));
  }
}
