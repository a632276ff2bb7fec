/** Pixel-to-centimetre calibration of durian_plant_analysis.py: the scale
    factors derived from the red reference marker (30 cm on a side) or the
    default factor when no marker is found, and the conversion of the
    pixel measurements with them. */
module PlantCalibration {
  import opened PlantTypes

  /** Centimetres per pixel along x (width) and along y (height). */
  datatype Scale = Scale(cmPerPixelX: real, cmPerPixelY: real)

  /** The side of the red reference marker, in centimetres. */
  const ReferenceLengthCm: real := 30.0

  /** The factor used on both axes when no marker is found. */
  const DefaultCmPerPixel: real := 0.1

  /** Scale from the marker's bounding rectangle, or the default scale;
      a rectangle with a zero side raises ZeroDivisionError. */
  function Calibrate(redObject: Option<Rect>): (r: Result<Scale>)
    ensures redObject.None? ==> r == Ok(Scale(DefaultCmPerPixel, DefaultCmPerPixel))
    ensures redObject.Some? ==> (r.Err? <==> redObject.value.w == 0 || redObject.value.h == 0)
    ensures r.Err? ==> r.error == ZeroDivisionError
    ensures redObject.Some? && r.Ok? ==>
              && r.value.cmPerPixelX * redObject.value.w as real == ReferenceLengthCm
              && r.value.cmPerPixelY * redObject.value.h as real == ReferenceLengthCm
  {
    match redObject
    case None => Ok(Scale(DefaultCmPerPixel, DefaultCmPerPixel))
    case Some(box) =>
      if box.w == 0 || box.h == 0 then Err(ZeroDivisionError)
      else Ok(Scale(ReferenceLengthCm / box.w as real, ReferenceLengthCm / box.h as real))
  }

  /** A marker with positive sides gives positive factors, as does the default. */
  lemma CalibratedScaleIsPositive(redObject: Option<Rect>)
    requires redObject.Some? ==> redObject.value.w > 0 && redObject.value.h > 0
    ensures Calibrate(redObject).Ok?
    ensures Calibrate(redObject).value.cmPerPixelX > 0.0 && Calibrate(redObject).value.cmPerPixelY > 0.0
  {
    if redObject.Some? {
      var s := Calibrate(redObject).value;
      var w := redObject.value.w as real;
      var h := redObject.value.h as real;
      assert s.cmPerPixelX * w == ReferenceLengthCm;
      assert s.cmPerPixelY * h == ReferenceLengthCm;
    }
  }

  // ---------------------------------------------------------------------
  // Conversions
  // ---------------------------------------------------------------------

  /** A stem's width and height in centimetres. */
  datatype StemSizeCm = StemSizeCm(width: real, height: real)

  /** canopy_size_cm as the source computes it: the pixel AREA scaled by
      the LINEAR x factor only, so it falls short of the area in square
      centimetres by the y factor. */
  function CanopySizeCmAsWritten(canopySize: int, scale: Scale): (r: real)
    ensures r * scale.cmPerPixelY == CanopyAreaCm(canopySize, scale)
  {
    canopySize as real * scale.cmPerPixelX
  }

  /** The canopy area in square centimetres: each pixel is cmPerPixelX wide
      and cmPerPixelY tall. */
  function CanopyAreaCm(canopySize: int, scale: Scale): real {
    canopySize as real * scale.cmPerPixelX * scale.cmPerPixelY
  }

  /** The corrected conversion is the area of the canopy box measured in
      centimetres on each side. */
  lemma CanopyAreaCmIsBoxArea(width: int, height: int, scale: Scale)
    ensures CanopyAreaCm(width * height, scale)
              == (width as real * scale.cmPerPixelX) * (height as real * scale.cmPerPixelY)
  {
    var w, h := width as real, height as real;
    calc {
      CanopyAreaCm(width * height, scale);
      (w * h) * scale.cmPerPixelX * scale.cmPerPixelY;
      { assert (w * h) * scale.cmPerPixelX == (w * scale.cmPerPixelX) * h; }
      (w * scale.cmPerPixelX) * h * scale.cmPerPixelY;
    }
  }

  /** Counterexample to the source's formula: with a 15 x 15 pixel marker
      (2 cm per pixel) a 15 x 15 pixel canopy is 30 cm x 30 cm = 900 cm^2,
      but the source reports 450. */
  lemma CanopySizeCmAsWrittenIsNotArea()
    ensures Calibrate(Some(Rect(0, 0, 15, 15))) == Ok(Scale(2.0, 2.0))
    ensures CanopyAreaCm(15 * 15, Scale(2.0, 2.0)) == 900.0
    ensures CanopySizeCmAsWritten(15 * 15, Scale(2.0, 2.0)) == 450.0
  {
  }

  /** A stem keeps its presence; each side is scaled by its axis factor. */
  function ToStemSizeCm(stem: Option<StemSize>, scale: Scale): (r: Option<StemSizeCm>)
    ensures r.Some? <==> stem.Some?
  {
    match stem
    case None => None
    case Some(s) => Some(StemSizeCm(s.width as real * scale.cmPerPixelX, s.height as real * scale.cmPerPixelY))
  }

  /** plant_height_cm; multiplying a missing height raises TypeError. */
  function PlantHeightCm(plantHeight: Option<int>, scale: Scale): (r: Result<real>)
    ensures r.Err? <==> plantHeight.None?
    ensures r.Err? ==> r.error == TypeError
  {
    match plantHeight
    case None => Err(TypeError)
    case Some(h) => Ok(h as real * scale.cmPerPixelY)
  }

  lemma ScaleUndoesDivision(length: real, pixels: real)
    requires pixels != 0.0
    ensures pixels * (length / pixels) == length
  {
  }

  /** Calibration makes the marker measure its known size: anything as wide
      or as tall as the marker in pixels measures 30 cm, and a canopy box the
      size of the marker measures 900 square centimetres. */
  lemma MarkerMeasuresReferenceLength(marker: Rect)
    requires marker.w > 0 && marker.h > 0
    ensures Calibrate(Some(marker)).Ok?
    ensures var scale := Calibrate(Some(marker)).value;
            && ToStemSizeCm(Some(StemSize(marker.w, marker.h)), scale).value.width == ReferenceLengthCm
            && ToStemSizeCm(Some(StemSize(marker.w, marker.h)), scale).value.height == ReferenceLengthCm
            && PlantHeightCm(Some(marker.h), scale).value == ReferenceLengthCm
            && CanopyAreaCm(marker.w * marker.h, scale) == ReferenceLengthCm * ReferenceLengthCm
  {
    var scale := Calibrate(Some(marker)).value;
    var w, h := marker.w as real, marker.h as real;
    assert scale == Scale(ReferenceLengthCm / w, ReferenceLengthCm / h);
    ScaleUndoesDivision(ReferenceLengthCm, w);
    ScaleUndoesDivision(ReferenceLengthCm, h);
    CanopyAreaCmIsBoxArea(marker.w, marker.h, scale);
  }

  /** With positive factors the conversion loses nothing: dividing by the
      factor gives back the pixel measurement. */
  lemma ConversionIsInvertible(redObject: Option<Rect>, canopySize: int, stem: StemSize, height: int)
    requires redObject.Some? ==> redObject.value.w > 0 && redObject.value.h > 0
    ensures var scale := Calibrate(redObject).value;
            && CanopySizeCmAsWritten(canopySize, scale) / scale.cmPerPixelX == canopySize as real
            && CanopyAreaCm(canopySize, scale) / (scale.cmPerPixelX * scale.cmPerPixelY) == canopySize as real
            && ToStemSizeCm(Some(stem), scale).value.width / scale.cmPerPixelX == stem.width as real
            && ToStemSizeCm(Some(stem), scale).value.height / scale.cmPerPixelY == stem.height as real
            && PlantHeightCm(Some(height), scale).value / scale.cmPerPixelY == height as real
  {
    CalibratedScaleIsPositive(redObject);
    var scale := Calibrate(redObject).value;
    var fx, fy := scale.cmPerPixelX, scale.cmPerPixelY;
    assert fx * fy > 0.0;
    assert canopySize as real * fx * fy == canopySize as real * (fx * fy);
  }
}
