/** The threshold rules of durian_plant_analysis.py: the health label from
    the greenness index, the deficiency list from the four measurements,
    and the counteraction suggested for each deficiency. */
module PlantDiagnosis {
  import opened PlantTypes

  // ---------------------------------------------------------------------
  // Health (analyze_health)
  // ---------------------------------------------------------------------

  datatype Health = Healthy | ModeratelyHealthy | Unhealthy

  const HealthyGreenness: real := 0.7
  const ModerateGreenness: real := 0.4

  /** The label analyze_health returns. */
  function HealthName(h: Health): string {
    match h
    case Healthy => "healthy"
    case ModeratelyHealthy => "moderately healthy"
    case Unhealthy => "unhealthy"
  }

  /** Each threshold belongs to the bucket above it. */
  function AnalyzeHealth(greenness: real): (h: Health)
    ensures h == Healthy <==> greenness >= HealthyGreenness
    ensures h == ModeratelyHealthy <==> ModerateGreenness <= greenness < HealthyGreenness
    ensures h == Unhealthy <==> greenness < ModerateGreenness
  {
    if greenness >= HealthyGreenness then Healthy
    else if greenness >= ModerateGreenness then ModeratelyHealthy
    else Unhealthy
  }

  function HealthRank(h: Health): nat {
    match h
    case Unhealthy => 0
    case ModeratelyHealthy => 1
    case Healthy => 2
  }

  /** A greener plant is never labelled less healthy. */
  lemma HealthMonotone(g1: real, g2: real)
    requires g1 <= g2
    ensures HealthRank(AnalyzeHealth(g1)) <= HealthRank(AnalyzeHealth(g2))
  {
  }

  // ---------------------------------------------------------------------
  // Deficiencies (detect_deficiencies)
  // ---------------------------------------------------------------------

  datatype Deficiency = LowGreennessIndex | SmallCanopySize | ThinStem | ShortPlantHeight

  const SmallCanopyBelow := 1000
  const ThinStemBelow := 10
  const ShortHeightBelow := 100

  /** The code string the source appends for each deficiency. */
  function DeficiencyName(d: Deficiency): string {
    match d
    case LowGreennessIndex => "low_greenness_index"
    case SmallCanopySize => "small_canopy_size"
    case ThinStem => "thin_stem"
    case ShortPlantHeight => "short_plant_height"
  }

  /** The deficiency a code string names, if any. */
  function ParseDeficiency(s: string): (d: Option<Deficiency>)
    ensures d.Some? ==> DeficiencyName(d.value) == s
  {
    if s == "low_greenness_index" then Some(LowGreennessIndex)
    else if s == "small_canopy_size" then Some(SmallCanopySize)
    else if s == "thin_stem" then Some(ThinStem)
    else if s == "short_plant_height" then Some(ShortPlantHeight)
    else None
  }

  /** Names and parsing are inverse: every deficiency has its own name. */
  lemma DeficiencyNameRoundTrip(d: Deficiency)
    ensures ParseDeficiency(DeficiencyName(d)) == Some(d)
  {
  }

  /** The position of each code in the list detect_deficiencies builds. */
  function DeficiencyRank(d: Deficiency): nat {
    match d
    case LowGreennessIndex => 0
    case SmallCanopySize => 1
    case ThinStem => 2
    case ShortPlantHeight => 3
  }

  const AllDeficiencies: seq<Deficiency> := [LowGreennessIndex, SmallCanopySize, ThinStem, ShortPlantHeight]

  /** The condition under which a deficiency is reported. */
  predicate Fires(d: Deficiency, canopySize: int, stem: Option<StemSize>, height: int, greenness: real) {
    match d
    case LowGreennessIndex => greenness < HealthyGreenness
    case SmallCanopySize => canopySize < SmallCanopyBelow
    case ThinStem => stem.Some? && stem.value.width < ThinStemBelow
    case ShortPlantHeight => height < ShortHeightBelow
  }

  /** The codes of `candidates` whose condition holds, in their order. */
  function FiringAmong(candidates: seq<Deficiency>, canopySize: int, stem: Option<StemSize>,
                       height: int, greenness: real): (ds: seq<Deficiency>)
    ensures |ds| <= |candidates|
    decreases |candidates|
  {
    if candidates == [] then []
    else
      var rest := FiringAmong(candidates[1..], canopySize, stem, height, greenness);
      if Fires(candidates[0], canopySize, stem, height, greenness) then [candidates[0]] + rest else rest
  }

  /** The filter keeps exactly the candidates whose condition holds. */
  lemma {:induction false} FiringAmongMembers(candidates: seq<Deficiency>, canopySize: int,
                                              stem: Option<StemSize>, height: int, greenness: real)
    ensures forall d :: (d in FiringAmong(candidates, canopySize, stem, height, greenness))
                          == (d in candidates && Fires(d, canopySize, stem, height, greenness))
    decreases |candidates|
  {
    if candidates != [] {
      FiringAmongMembers(candidates[1..], canopySize, stem, height, greenness);
      assert forall d :: d in candidates <==> d == candidates[0] || d in candidates[1..];
    }
  }

  /** The deficiency list: every rule evaluated independently, reported in
      the fixed order of AllDeficiencies. */
  function Deficiencies(canopySize: int, stem: Option<StemSize>, height: int, greenness: real): seq<Deficiency> {
    FiringAmong(AllDeficiencies, canopySize, stem, height, greenness)
  }

  /** Codes listed in strictly increasing rank, hence each at most once. */
  predicate InRankOrder(ds: seq<Deficiency>) {
    forall i, j :: 0 <= i < j < |ds| ==> DeficiencyRank(ds[i]) < DeficiencyRank(ds[j])
  }

  /** In a list of strictly increasing rank, a sub-list keeps that order. */
  lemma {:induction false} FiringAmongKeepsOrder(candidates: seq<Deficiency>, canopySize: int,
                                                 stem: Option<StemSize>, height: int, greenness: real)
    requires InRankOrder(candidates)
    ensures InRankOrder(FiringAmong(candidates, canopySize, stem, height, greenness))
    decreases |candidates|
  {
    if candidates != [] {
      var tail := candidates[1..];
      assert InRankOrder(tail) by {
        forall i, j | 0 <= i < j < |tail| ensures DeficiencyRank(tail[i]) < DeficiencyRank(tail[j]) {
          assert tail[i] == candidates[i + 1] && tail[j] == candidates[j + 1];
        }
      }
      FiringAmongKeepsOrder(tail, canopySize, stem, height, greenness);
      var rest := FiringAmong(tail, canopySize, stem, height, greenness);
      FiringAmongMembers(tail, canopySize, stem, height, greenness);
      forall k | 0 <= k < |rest| ensures DeficiencyRank(candidates[0]) < DeficiencyRank(rest[k]) {
        assert rest[k] in tail;
        var t :| 0 <= t < |tail| && tail[t] == rest[k];
        assert candidates[t + 1] == rest[k];
      }
      var ds := FiringAmong(candidates, canopySize, stem, height, greenness);
      if Fires(candidates[0], canopySize, stem, height, greenness) {
        assert ds == [candidates[0]] + rest;
        forall i, j | 0 <= i < j < |ds| ensures DeficiencyRank(ds[i]) < DeficiencyRank(ds[j]) {
          assert ds[j] == rest[j - 1];
          if i == 0 {
            assert ds[i] == candidates[0];
            assert DeficiencyRank(candidates[0]) < DeficiencyRank(rest[j - 1]);
          } else {
            assert ds[i] == rest[i - 1];
            assert DeficiencyRank(rest[i - 1]) < DeficiencyRank(rest[j - 1]);
          }
        }
      }
    }
  }

  /** Each code appears exactly when its condition holds, the codes come in
      the fixed order (so none twice), and there are at most four. */
  lemma DeficienciesCharacterized(canopySize: int, stem: Option<StemSize>, height: int, greenness: real)
    ensures forall d :: (d in Deficiencies(canopySize, stem, height, greenness))
                          == Fires(d, canopySize, stem, height, greenness)
    ensures InRankOrder(Deficiencies(canopySize, stem, height, greenness))
    ensures var ds := Deficiencies(canopySize, stem, height, greenness);
            forall i, j :: 0 <= i < j < |ds| ==> ds[i] != ds[j]
    ensures |Deficiencies(canopySize, stem, height, greenness)| <= 4
  {
    FiringAmongKeepsOrder(AllDeficiencies, canopySize, stem, height, greenness);
    FiringAmongMembers(AllDeficiencies, canopySize, stem, height, greenness);
    forall d ensures d in AllDeficiencies {
      assert AllDeficiencies[DeficiencyRank(d)] == d;
    }
  }

  lemma FiringAmongStep(candidates: seq<Deficiency>, canopySize: int,
                        stem: Option<StemSize>, height: int, greenness: real)
    requires candidates != []
    ensures FiringAmong(candidates, canopySize, stem, height, greenness)
              == (if Fires(candidates[0], canopySize, stem, height, greenness) then [candidates[0]] else [])
                 + FiringAmong(candidates[1..], canopySize, stem, height, greenness)
  {
  }

  /** The fixed-order filter written out rule by rule. */
  lemma DeficienciesRuleByRule(canopySize: int, stem: Option<StemSize>, height: int, greenness: real)
    ensures Deficiencies(canopySize, stem, height, greenness) ==
              (if greenness < HealthyGreenness then [LowGreennessIndex] else []) +
              (if canopySize < SmallCanopyBelow then [SmallCanopySize] else []) +
              (if stem.Some? && stem.value.width < ThinStemBelow then [ThinStem] else []) +
              (if height < ShortHeightBelow then [ShortPlantHeight] else [])
  {
    var c1 := AllDeficiencies[1..];
    var c2 := c1[1..];
    var c3 := c2[1..];
    assert c1 == [SmallCanopySize, ThinStem, ShortPlantHeight];
    assert c2 == [ThinStem, ShortPlantHeight];
    assert c3 == [ShortPlantHeight];
    FiringAmongStep(AllDeficiencies, canopySize, stem, height, greenness);
    FiringAmongStep(c1, canopySize, stem, height, greenness);
    FiringAmongStep(c2, canopySize, stem, height, greenness);
    FiringAmongStep(c3, canopySize, stem, height, greenness);
    assert c3[1..] == [];
  }

  /** The low-greenness code is reported exactly when the plant is not
      labelled healthy: both rules use the same threshold. */
  lemma LowGreennessIffNotHealthy(canopySize: int, stem: Option<StemSize>, height: int, greenness: real)
    ensures (LowGreennessIndex in Deficiencies(canopySize, stem, height, greenness))
              == (AnalyzeHealth(greenness) != Healthy)
  {
    DeficienciesCharacterized(canopySize, stem, height, greenness);
  }

  /** detect_deficiencies; comparing a missing height with 100 raises TypeError. */
  method DetectDeficiencies(canopySize: int, stemSize: Option<StemSize>, plantHeight: Option<int>,
                            greennessIndex: real)
    returns (r: Result<seq<Deficiency>>)
    ensures r.Err? <==> plantHeight.None?
    ensures r.Err? ==> r.error == TypeError
    ensures r.Ok? ==> r.value == Deficiencies(canopySize, stemSize, plantHeight.value, greennessIndex)
  {
    var deficiencies: seq<Deficiency> := [];
    if greennessIndex < HealthyGreenness {
      deficiencies := deficiencies + [LowGreennessIndex];
    }
    if canopySize < SmallCanopyBelow {
      deficiencies := deficiencies + [SmallCanopySize];
    }
    if stemSize.Some? && stemSize.value.width < ThinStemBelow {
      deficiencies := deficiencies + [ThinStem];
    }
    if plantHeight.None? {
      return Err(TypeError);
    }
    if plantHeight.value < ShortHeightBelow {
      deficiencies := deficiencies + [ShortPlantHeight];
    }
    DeficienciesRuleByRule(canopySize, stemSize, plantHeight.value, greennessIndex);
    r := Ok(deficiencies);
  }

  // ---------------------------------------------------------------------
  // Counteractions (suggest_counteractions)
  // ---------------------------------------------------------------------

  datatype Counteraction =
    | ApplyNitrogenFertilizer
    | IncreaseSunlightExposure
    | ApplyPhosphorusFertilizer
    | ApplyGrowthStimulant

  function CounteractionName(a: Counteraction): string {
    match a
    case ApplyNitrogenFertilizer => "apply_nitrogen_fertilizer"
    case IncreaseSunlightExposure => "increase_sunlight_exposure"
    case ApplyPhosphorusFertilizer => "apply_phosphorus_fertilizer"
    case ApplyGrowthStimulant => "apply_growth_stimulant"
  }

  /** The one-to-one table from deficiency to counteraction. */
  function CounteractionFor(d: Deficiency): Counteraction {
    match d
    case LowGreennessIndex => ApplyNitrogenFertilizer
    case SmallCanopySize => IncreaseSunlightExposure
    case ThinStem => ApplyPhosphorusFertilizer
    case ShortPlantHeight => ApplyGrowthStimulant
  }

  /** The table is one-to-one: distinct deficiencies get distinct actions. */
  lemma CounteractionForInjective(d1: Deficiency, d2: Deficiency)
    requires CounteractionFor(d1) == CounteractionFor(d2)
    ensures d1 == d2
  {
  }

  /** What one pass of the loop body appends: four independent tests of
      the code string. */
  function ActionsFor(code: string): seq<Counteraction> {
    (if code == "low_greenness_index" then [ApplyNitrogenFertilizer] else []) +
    (if code == "small_canopy_size" then [IncreaseSunlightExposure] else []) +
    (if code == "thin_stem" then [ApplyPhosphorusFertilizer] else []) +
    (if code == "short_plant_height" then [ApplyGrowthStimulant] else [])
  }

  /** All actions appended, code by code. */
  function Counteractions(codes: seq<string>): seq<Counteraction>
    decreases |codes|
  {
    if codes == [] then [] else Counteractions(codes[..|codes| - 1]) + ActionsFor(codes[|codes| - 1])
  }

  method SuggestCounteractions(deficiencies: seq<string>) returns (counteractions: seq<Counteraction>)
    ensures counteractions == Counteractions(deficiencies)
  {
    counteractions := [];
    for i := 0 to |deficiencies|
      invariant counteractions == Counteractions(deficiencies[..i])
    {
      var deficiency := deficiencies[i];
      if deficiency == "low_greenness_index" {
        counteractions := counteractions + [ApplyNitrogenFertilizer];
      }
      if deficiency == "small_canopy_size" {
        counteractions := counteractions + [IncreaseSunlightExposure];
      }
      if deficiency == "thin_stem" {
        counteractions := counteractions + [ApplyPhosphorusFertilizer];
      }
      if deficiency == "short_plant_height" {
        counteractions := counteractions + [ApplyGrowthStimulant];
      }
      assert deficiencies[..i + 1][..i] == deficiencies[..i];
    }
    assert deficiencies[..|deficiencies|] == deficiencies;
  }

  /** A known code yields its table entry and nothing else; any other
      string yields nothing. */
  lemma ActionsForCode(code: string)
    ensures ActionsFor(code) == match ParseDeficiency(code)
                                case Some(d) => [CounteractionFor(d)]
                                case None => []
  {
  }

  /** The known deficiencies among the code strings, in order. */
  function KnownDeficiencies(codes: seq<string>): seq<Deficiency>
    decreases |codes|
  {
    if codes == [] then []
    else
      var last := ParseDeficiency(codes[|codes| - 1]);
      KnownDeficiencies(codes[..|codes| - 1]) + (if last.Some? then [last.value] else [])
  }

  /** Counteractions are the table applied to the known codes in order:
      one action per known code, nothing for an unknown one. */
  lemma {:induction false} CounteractionsFollowTable(codes: seq<string>)
    ensures var ks := KnownDeficiencies(codes);
            |Counteractions(codes)| == |ks|
            && forall i :: 0 <= i < |ks| ==> Counteractions(codes)[i] == CounteractionFor(ks[i])
    decreases |codes|
  {
    if codes != [] {
      CounteractionsFollowTable(codes[..|codes| - 1]);
      ActionsForCode(codes[|codes| - 1]);
    }
  }

  /** The code strings of a deficiency list, as detect_deficiencies returns it. */
  function DeficiencyNames(ds: seq<Deficiency>): (names: seq<string>)
    ensures |names| == |ds|
    decreases |ds|
  {
    if ds == [] then [] else DeficiencyNames(ds[..|ds| - 1]) + [DeficiencyName(ds[|ds| - 1])]
  }

  /** For a list of known codes, such as detect_deficiencies builds, there
      is exactly one action per code, at the same position. */
  lemma {:induction false} CounteractionsOfDeficiencies(ds: seq<Deficiency>)
    ensures |Counteractions(DeficiencyNames(ds))| == |ds|
    ensures forall i :: 0 <= i < |ds| ==> Counteractions(DeficiencyNames(ds))[i] == CounteractionFor(ds[i])
    decreases |ds|
  {
    if ds != [] {
      var n := |ds| - 1;
      var names := DeficiencyNames(ds);
      assert names[..n] == DeficiencyNames(ds[..n]);
      assert names[n] == DeficiencyName(ds[n]);
      CounteractionsOfDeficiencies(ds[..n]);
      DeficiencyNameRoundTrip(ds[n]);
      ActionsForCode(names[n]);
    }
  }
}
