/** growth_rate_analysis.py: the rate of change of each trait between the
    current measurement and the most recent one in the history, averaged
    over the length of the history. */
module GrowthRateAnalysis {
  import opened PlantTypes

  /** The traits of one analysed image that the growth rate compares. */
  datatype Measurement = Measurement(canopySize: int, stemSize: Option<StemSize>, plantHeight: Option<int>)

  /** Per-trait rates; the stem rates are absent when the current image has no stem. */
  datatype GrowthRate = GrowthRate(
    canopyGrowthRate: real,
    stemWidthGrowthRate: Option<real>,
    stemHeightGrowthRate: Option<real>,
    plantHeightGrowthRate: real)

  /** (current - previous[-1]) / len(previous) for one trait. */
  function AverageDelta(current: int, last: int, count: nat): real
    requires count > 0
  {
    (current - last) as real / count as real
  }

  /** previous[-1] raises IndexError on an empty history; reading the stem
      of a record without one, or subtracting a missing height, raises
      TypeError. Python evaluates canopy, then stem, then height. */
  function AnalyzeGrowthRate(current: Measurement, previous: seq<Measurement>): (r: Result<GrowthRate>)
    ensures r.Err? <==> || previous == []
                        || (current.stemSize.Some? && previous[|previous| - 1].stemSize.None?)
                        || current.plantHeight.None?
                        || previous[|previous| - 1].plantHeight.None?
    ensures r.Err? ==> r.error == (if previous == [] then IndexError else TypeError)
    ensures r.Ok? ==>
              var last := previous[|previous| - 1];
              var n := |previous| as real;
              && r.value.canopyGrowthRate * n == (current.canopySize - last.canopySize) as real
              && (r.value.stemWidthGrowthRate.Some? <==> current.stemSize.Some?)
              && (r.value.stemHeightGrowthRate.Some? <==> current.stemSize.Some?)
              && (current.stemSize.Some? ==>
                    && r.value.stemWidthGrowthRate.value * n
                         == (current.stemSize.value.width - last.stemSize.value.width) as real
                    && r.value.stemHeightGrowthRate.value * n
                         == (current.stemSize.value.height - last.stemSize.value.height) as real)
              && r.value.plantHeightGrowthRate * n
                   == (current.plantHeight.value - last.plantHeight.value) as real
  {
    if previous == [] then Err(IndexError)
    else
      var last := previous[|previous| - 1];
      var n := |previous|;
      var canopyRate := AverageDelta(current.canopySize, last.canopySize, n);
      if current.stemSize.Some? && last.stemSize.None? then Err(TypeError)
      else
        var stemWidthRate :=
          if current.stemSize.Some? then Some(AverageDelta(current.stemSize.value.width, last.stemSize.value.width, n))
          else None;
        var stemHeightRate :=
          if current.stemSize.Some? then Some(AverageDelta(current.stemSize.value.height, last.stemSize.value.height, n))
          else None;
        if current.plantHeight.None? || last.plantHeight.None? then Err(TypeError)
        else
          var heightRate := AverageDelta(current.plantHeight.value, last.plantHeight.value, n);
          Ok(GrowthRate(canopyRate, stemWidthRate, stemHeightRate, heightRate))
  }

  /** Only the last record and the number of records matter: histories that
      agree on those give the same rates whatever their earlier entries. */
  lemma OnlyLastRecordAndLengthMatter(current: Measurement, h1: seq<Measurement>, h2: seq<Measurement>)
    requires |h1| == |h2| > 0 && h1[|h1| - 1] == h2[|h2| - 1]
    ensures AnalyzeGrowthRate(current, h1) == AnalyzeGrowthRate(current, h2)
  {
  }

  /** The sign of an average delta is the sign of the change. */
  lemma AverageDeltaSign(current: int, last: int, count: nat)
    requires count > 0
    ensures AverageDelta(current, last, count) > 0.0 <==> current > last
    ensures AverageDelta(current, last, count) == 0.0 <==> current == last
    ensures AverageDelta(current, last, count) < 0.0 <==> current < last
  {
    var d, n := (current - last) as real, count as real;
    var q := AverageDelta(current, last, count);
    assert q * n == d;
    if q > 0.0 { assert q * n > 0.0; }
    if q < 0.0 { assert q * n < 0.0; }
  }

  /** Each rate is positive exactly when the trait grew since the last
      record, and zero exactly when it did not change. */
  lemma RateSignFollowsChange(current: Measurement, previous: seq<Measurement>)
    requires AnalyzeGrowthRate(current, previous).Ok?
    ensures var r := AnalyzeGrowthRate(current, previous).value;
            var last := previous[|previous| - 1];
            && (r.canopyGrowthRate > 0.0 <==> current.canopySize > last.canopySize)
            && (r.canopyGrowthRate == 0.0 <==> current.canopySize == last.canopySize)
            && (r.plantHeightGrowthRate > 0.0 <==> current.plantHeight.value > last.plantHeight.value)
            && (r.plantHeightGrowthRate == 0.0 <==> current.plantHeight.value == last.plantHeight.value)
            && (current.stemSize.Some? ==>
                  && (r.stemWidthGrowthRate.value > 0.0 <==> current.stemSize.value.width > last.stemSize.value.width)
                  && (r.stemWidthGrowthRate.value == 0.0 <==> current.stemSize.value.width == last.stemSize.value.width)
                  && (r.stemHeightGrowthRate.value > 0.0 <==> current.stemSize.value.height > last.stemSize.value.height)
                  && (r.stemHeightGrowthRate.value == 0.0 <==> current.stemSize.value.height == last.stemSize.value.height))
  {
    var last := previous[|previous| - 1];
    var n := |previous|;
    AverageDeltaSign(current.canopySize, last.canopySize, n);
    AverageDeltaSign(current.plantHeight.value, last.plantHeight.value, n);
    if current.stemSize.Some? {
      AverageDeltaSign(current.stemSize.value.width, last.stemSize.value.width, n);
      AverageDeltaSign(current.stemSize.value.height, last.stemSize.value.height, n);
    }
  }

  /** A measurement identical to the last record shows no growth. */
  lemma NoChangeNoGrowth(previous: seq<Measurement>)
    requires previous != []
    requires previous[|previous| - 1].plantHeight.Some?
    ensures var current := previous[|previous| - 1];
            var r := AnalyzeGrowthRate(current, previous);
            && r.Ok?
            && r.value.canopyGrowthRate == 0.0
            && r.value.plantHeightGrowthRate == 0.0
            && (current.stemSize.Some? ==>
                  r.value.stemWidthGrowthRate == Some(0.0) && r.value.stemHeightGrowthRate == Some(0.0))
  {
  }

  /** One prior record of canopy 1000 and a current canopy of 1100 grow by 100. */
  lemma SingleRecordRate()
    ensures var r := AnalyzeGrowthRate(Measurement(1100, None, Some(50)), [Measurement(1000, None, Some(40))]);
            && r.Ok?
            && r.value.canopyGrowthRate == 100.0
            && r.value.stemWidthGrowthRate.None?
            && r.value.plantHeightGrowthRate == 10.0
  {
  }
}
