/** The pixel measurements of durian_plant_analysis.py that follow the
    OpenCV calls: canopy size from the largest contour, the greenness index,
    the stem size and the plant height. Contours, masks and bounding
    rectangles are inputs here; producing them is OpenCV's work. */
module PlantMetrics {
  import opened PlantTypes

  // ---------------------------------------------------------------------
  // Canopy size (extract_canopy_size, after cv2.findContours)
  // ---------------------------------------------------------------------

  /** The canopy's bounding-box width, height and size in pixels. */
  datatype Canopy = Canopy(width: int, height: int, size: int)

  /** k is the contour that Python's max(contours, key=cv2.contourArea)
      returns: one of maximum area, and the first of those. */
  ghost predicate IsFirstLargest(cs: seq<Contour>, k: int) {
    && 0 <= k < |cs|
    && (forall j :: 0 <= j < |cs| ==> cs[j].area <= cs[k].area)
    && (forall j :: 0 <= j < k ==> cs[j].area < cs[k].area)
  }

  /** The scan max() performs: a later contour replaces the current
      choice only when its area is strictly larger. */
  function LargestIndex(cs: seq<Contour>): (k: nat)
    requires |cs| > 0
    ensures IsFirstLargest(cs, k)
    decreases |cs|
  {
    if |cs| == 1 then 0
    else
      var k := LargestIndex(cs[..|cs| - 1]);
      if cs[|cs| - 1].area > cs[k].area then |cs| - 1 else k
  }

  /** Canopy of the largest contour; max() of no contours raises ValueError. */
  function ExtractCanopy(cs: seq<Contour>): (r: Result<Canopy>)
    ensures r.Err? <==> cs == []
    ensures r.Err? ==> r.error == ValueError
    ensures r.Ok? ==> r.value.size == r.value.width * r.value.height
    ensures r.Ok? ==> exists k :: IsFirstLargest(cs, k)
                        && r.value.width == cs[k].rect.w && r.value.height == cs[k].rect.h
  {
    if cs == [] then Err(ValueError)
    else
      var b := cs[LargestIndex(cs)].rect;
      Ok(Canopy(b.w, b.h, b.w * b.h))
  }

  /** The first-largest contour is unique, so the canopy is determined by it. */
  lemma CanopyOfFirstLargest(cs: seq<Contour>, k: int)
    requires IsFirstLargest(cs, k)
    ensures ExtractCanopy(cs) == Ok(Canopy(cs[k].rect.w, cs[k].rect.h, cs[k].rect.w * cs[k].rect.h))
  {
    assert LargestIndex(cs) == k;
  }

  // ---------------------------------------------------------------------
  // Greenness index (calculate_greenness_index)
  // ---------------------------------------------------------------------

  /** Number of nonzero mask entries, as cv2.countNonZero counts them. */
  function CountNonZero(mask: seq<int>): (n: nat)
    ensures n <= |mask|
    decreases |mask|
  {
    if mask == [] then 0
    else CountNonZero(mask[..|mask| - 1]) + (if mask[|mask| - 1] != 0 then 1 else 0)
  }

  lemma {:induction false} CountNonZeroAllZero(mask: seq<int>)
    requires forall i :: 0 <= i < |mask| ==> mask[i] == 0
    ensures CountNonZero(mask) == 0
    decreases |mask|
  {
    if mask != [] {
      CountNonZeroAllZero(mask[..|mask| - 1]);
    }
  }

  lemma {:induction false} CountNonZeroAllSet(mask: seq<int>)
    requires forall i :: 0 <= i < |mask| ==> mask[i] != 0
    ensures CountNonZero(mask) == |mask|
    decreases |mask|
  {
    if mask != [] {
      CountNonZeroAllSet(mask[..|mask| - 1]);
    }
  }

  /** Green pixels per canopy pixel; a canopy size of 0 raises. */
  function GreennessIndex(mask: seq<int>, canopySize: int): (r: Result<real>)
    ensures r.Err? <==> canopySize == 0
    ensures r.Err? ==> r.error == ZeroDivisionError
    ensures r.Ok? ==> r.value * canopySize as real == CountNonZero(mask) as real
  {
    if canopySize == 0 then Err(ZeroDivisionError)
    else Ok(CountNonZero(mask) as real / canopySize as real)
  }

  /** A mask no larger than the canopy gives an index in [0, 1]; an all-green
      mask covering the canopy gives exactly 1 and an all-zero mask 0. */
  lemma GreennessInUnitInterval(mask: seq<int>, canopySize: int)
    requires 0 < canopySize && |mask| <= canopySize
    ensures GreennessIndex(mask, canopySize).Ok?
    ensures 0.0 <= GreennessIndex(mask, canopySize).value <= 1.0
    ensures ((forall i :: 0 <= i < |mask| ==> mask[i] != 0) && |mask| == canopySize)
              ==> GreennessIndex(mask, canopySize).value == 1.0
    ensures (forall i :: 0 <= i < |mask| ==> mask[i] == 0)
              ==> GreennessIndex(mask, canopySize).value == 0.0
  {
    if (forall i :: 0 <= i < |mask| ==> mask[i] != 0) && |mask| == canopySize {
      CountNonZeroAllSet(mask);
    }
    if forall i :: 0 <= i < |mask| ==> mask[i] == 0 {
      CountNonZeroAllZero(mask);
    }
    RatioBounds(CountNonZero(mask) as real, canopySize as real);
  }

  /** A count no larger than the whole, over the whole, lies in [0, 1]. */
  lemma RatioBounds(part: real, whole: real)
    requires 0.0 <= part <= whole && 0.0 < whole
    ensures 0.0 <= part / whole <= 1.0
    ensures part == whole ==> part / whole == 1.0
    ensures part == 0.0 ==> part / whole == 0.0
  {
  }

  // ---------------------------------------------------------------------
  // Stem size (measure_stem_size)
  // ---------------------------------------------------------------------

  const StemMinWidth := 5
  const StemMaxWidth := 50
  const StemMinHeight := 50
  const StemMaxHeight := 300

  /** A bounding rectangle inside the inclusive stem window. */
  predicate IsStemCandidate(r: Rect) {
    StemMinWidth <= r.w <= StemMaxWidth && StemMinHeight <= r.h <= StemMaxHeight
  }

  /** The contours the loop keeps, in their original order. */
  function StemCandidates(cs: seq<Contour>): (kept: seq<Contour>)
    ensures |kept| <= |cs|
    ensures forall c :: c in kept ==> c in cs && IsStemCandidate(c.rect)
    decreases |cs|
  {
    if cs == [] then []
    else
      var last := cs[|cs| - 1];
      StemCandidates(cs[..|cs| - 1]) + (if IsStemCandidate(last.rect) then [last] else [])
  }

  /** The stem is reported only when exactly one contour qualifies. */
  function StemOf(cs: seq<Contour>): Option<StemSize> {
    var kept := StemCandidates(cs);
    if |kept| == 1 then Some(StemSize(kept[0].rect.w, kept[0].rect.h)) else None
  }

  /** i is the one and only stem candidate among the contours. */
  ghost predicate OnlyCandidate(cs: seq<Contour>, i: int) {
    && 0 <= i < |cs|
    && IsStemCandidate(cs[i].rect)
    && forall j :: 0 <= j < |cs| && j != i ==> !IsStemCandidate(cs[j].rect)
  }

  method MeasureStemSize(contours: seq<Contour>) returns (stem: Option<StemSize>)
    ensures stem == StemOf(contours)
  {
    var stemContours: seq<Contour> := [];
    for i := 0 to |contours|
      invariant stemContours == StemCandidates(contours[..i])
    {
      var r := contours[i].rect;
      if StemMinWidth <= r.w <= StemMaxWidth && StemMinHeight <= r.h <= StemMaxHeight {
        stemContours := stemContours + [contours[i]];
      }
      assert contours[..i + 1][..i] == contours[..i];
    }
    assert contours[..|contours|] == contours;
    if |stemContours| == 1 {
      var r := stemContours[0].rect;
      stem := Some(StemSize(r.w, r.h));
    } else {
      stem := None;
    }
  }

  lemma {:induction false} NoCandidatesKeepsNothing(cs: seq<Contour>)
    requires forall j :: 0 <= j < |cs| ==> !IsStemCandidate(cs[j].rect)
    ensures StemCandidates(cs) == []
    decreases |cs|
  {
    if cs != [] {
      NoCandidatesKeepsNothing(cs[..|cs| - 1]);
    }
  }

  lemma {:induction false} KeptNothingMeansNoCandidates(cs: seq<Contour>)
    requires StemCandidates(cs) == []
    ensures forall j :: 0 <= j < |cs| ==> !IsStemCandidate(cs[j].rect)
    decreases |cs|
  {
    if cs != [] {
      var p := cs[..|cs| - 1];
      assert StemCandidates(p) == [];
      KeptNothingMeansNoCandidates(p);
      forall j | 0 <= j < |cs| ensures !IsStemCandidate(cs[j].rect) {
        if j < |cs| - 1 { assert cs[j] == p[j]; }
      }
    }
  }

  lemma {:induction false} OnlyCandidateIsKept(cs: seq<Contour>, i: int)
    requires OnlyCandidate(cs, i)
    ensures StemCandidates(cs) == [cs[i]]
    decreases |cs|
  {
    var p := cs[..|cs| - 1];
    if i == |cs| - 1 {
      NoCandidatesKeepsNothing(p);
    } else {
      assert OnlyCandidate(p, i);
      OnlyCandidateIsKept(p, i);
    }
  }

  lemma {:induction false} OneKeptHasOnlyCandidate(cs: seq<Contour>)
    requires |StemCandidates(cs)| == 1
    ensures exists i :: OnlyCandidate(cs, i) && StemCandidates(cs) == [cs[i]]
    decreases |cs|
  {
    var n := |cs| - 1;
    var p := cs[..n];
    assert forall j :: 0 <= j < n ==> cs[j] == p[j];
    if IsStemCandidate(cs[n].rect) {
      assert StemCandidates(cs) == StemCandidates(p) + [cs[n]];
      assert StemCandidates(p) == [];
      KeptNothingMeansNoCandidates(p);
      assert OnlyCandidate(cs, n);
    } else {
      assert StemCandidates(cs) == StemCandidates(p);
      OneKeptHasOnlyCandidate(p);
      var i :| OnlyCandidate(p, i) && StemCandidates(p) == [p[i]];
      assert OnlyCandidate(cs, i);
    }
  }

  /** A stem is reported exactly when one contour lies in the window, and
      then it is that contour's width and height. */
  lemma StemPresentIffOneCandidate(cs: seq<Contour>)
    ensures StemOf(cs).Some? <==> exists i :: OnlyCandidate(cs, i)
    ensures forall i :: OnlyCandidate(cs, i) ==>
              StemOf(cs) == Some(StemSize(cs[i].rect.w, cs[i].rect.h))
  {
    if |StemCandidates(cs)| == 1 {
      OneKeptHasOnlyCandidate(cs);
    }
    forall i | OnlyCandidate(cs, i)
      ensures StemOf(cs) == Some(StemSize(cs[i].rect.w, cs[i].rect.h))
    {
      OnlyCandidateIsKept(cs, i);
    }
  }

  /** Two qualifying contours make the stem ambiguous, and no stem is reported. */
  lemma StemAbsentWhenAmbiguous(cs: seq<Contour>, i: int, j: int)
    requires 0 <= i < |cs| && 0 <= j < |cs| && i != j
    requires IsStemCandidate(cs[i].rect) && IsStemCandidate(cs[j].rect)
    ensures StemOf(cs) == None
  {
    forall k | 0 <= k < |cs| ensures !OnlyCandidate(cs, k) {
      if k == i { assert j != k; } else { assert i != k; }
    }
    StemPresentIffOneCandidate(cs);
  }

  // ---------------------------------------------------------------------
  // Plant height (measure_height)
  // ---------------------------------------------------------------------

  /** The y coordinates of a contour's points, in order. */
  function PointYs(ps: seq<Point>): (ys: seq<int>)
    ensures |ys| == |ps|
    ensures forall j :: 0 <= j < |ps| ==> ys[j] == ps[j].y
    decreases |ps|
  {
    if ps == [] then [] else PointYs(ps[..|ps| - 1]) + [ps[|ps| - 1].y]
  }

  /** The y coordinates of every point of every contour, in scan order. */
  function ContourYs(cs: seq<Contour>): seq<int>
    decreases |cs|
  {
    if cs == [] then [] else ContourYs(cs[..|cs| - 1]) + PointYs(cs[|cs| - 1].points)
  }

  function MinOf(s: seq<int>): (m: int)
    requires s != []
    ensures m in s && forall k :: 0 <= k < |s| ==> m <= s[k]
    decreases |s|
  {
    if |s| == 1 then s[0]
    else
      var m := MinOf(s[..|s| - 1]);
      if s[|s| - 1] < m then s[|s| - 1] else m
  }

  function MaxOf(s: seq<int>): (m: int)
    requires s != []
    ensures m in s && forall k :: 0 <= k < |s| ==> s[k] <= m
    decreases |s|
  {
    if |s| == 1 then s[0]
    else
      var m := MaxOf(s[..|s| - 1]);
      if s[|s| - 1] > m then s[|s| - 1] else m
  }

  /** Bottommost minus topmost y over all points; None when there is no point. */
  function PlantHeight(cs: seq<Contour>): (h: Option<int>)
    ensures h.Some? ==> h.value >= 0
  {
    var ys := ContourYs(cs);
    if ys == [] then None else Some(MaxOf(ys) - MinOf(ys))
  }

  /** The loop state: top and bottom are the first points of least and
      greatest y among the points scanned so far. */
  ghost predicate Tracks(top: Option<Point>, bottom: Option<Point>, ys: seq<int>) {
    && (top.None? <==> ys == [])
    && (bottom.None? <==> ys == [])
    && (ys != [] ==> top.value.y == MinOf(ys) && bottom.value.y == MaxOf(ys))
  }

  /** Scanning one more point keeps Tracks, with the updates the loop makes. */
  lemma ScanOnePoint(top: Option<Point>, bottom: Option<Point>, before: seq<int>, pts: seq<Point>, j: int)
    requires 0 <= j < |pts|
    requires Tracks(top, bottom, before + PointYs(pts[..j]))
    ensures Tracks(if top.None? || pts[j].y < top.value.y then Some(pts[j]) else top,
                   if bottom.None? || pts[j].y > bottom.value.y then Some(pts[j]) else bottom,
                   before + PointYs(pts[..j + 1]))
  {
    var seen := before + PointYs(pts[..j]);
    assert pts[..j + 1][..j] == pts[..j];
    assert before + PointYs(pts[..j + 1]) == seen + [pts[j].y];
    assert (seen + [pts[j].y])[..|seen|] == seen;
  }

  /** After its inner loop, one more contour's points have been scanned. */
  lemma ScanOneContour(cs: seq<Contour>, i: int)
    requires 0 <= i < |cs|
    ensures ContourYs(cs[..i]) + PointYs(cs[i].points[..|cs[i].points|]) == ContourYs(cs[..i + 1])
  {
    assert cs[i].points[..|cs[i].points|] == cs[i].points;
    assert cs[..i + 1][..i] == cs[..i];
  }

  method MeasureHeight(contours: seq<Contour>) returns (height: Option<int>)
    ensures height == PlantHeight(contours)
  {
    var topmost: Option<Point> := None;
    var bottommost: Option<Point> := None;
    for i := 0 to |contours|
      invariant Tracks(topmost, bottommost, ContourYs(contours[..i]))
    {
      var pts := contours[i].points;
      ghost var before := ContourYs(contours[..i]);
      assert before + PointYs(pts[..0]) == before;
      for j := 0 to |pts|
        invariant Tracks(topmost, bottommost, before + PointYs(pts[..j]))
      {
        var p := pts[j];
        ScanOnePoint(topmost, bottommost, before, pts, j);
        if topmost.None? || p.y < topmost.value.y {
          topmost := Some(p);
        }
        if bottommost.None? || p.y > bottommost.value.y {
          bottommost := Some(p);
        }
      }
      ScanOneContour(contours, i);
    }
    assert contours[..|contours|] == contours;
    if topmost.Some? && bottommost.Some? {
      height := Some(bottommost.value.y - topmost.value.y);
    } else {
      height := None;
    }
  }

  lemma {:induction false} ContourYsEmptyIffNoPoints(cs: seq<Contour>)
    ensures ContourYs(cs) == [] <==> forall i :: 0 <= i < |cs| ==> cs[i].points == []
    decreases |cs|
  {
    if cs != [] {
      var p := cs[..|cs| - 1];
      ContourYsEmptyIffNoPoints(p);
      if forall i :: 0 <= i < |cs| ==> cs[i].points == [] {
        assert forall i :: 0 <= i < |p| ==> p[i].points == [] by {
          forall i | 0 <= i < |p| ensures p[i].points == [] { assert p[i] == cs[i]; }
        }
      }
    }
  }

  lemma {:induction false} PointInContourYs(cs: seq<Contour>, i: int, j: int)
    requires 0 <= i < |cs| && 0 <= j < |cs[i].points|
    ensures cs[i].points[j].y in ContourYs(cs)
    decreases |cs|
  {
    var p := cs[..|cs| - 1];
    if i < |cs| - 1 {
      assert p[i] == cs[i];
      PointInContourYs(p, i, j);
    } else {
      assert PointYs(cs[i].points)[j] == cs[i].points[j].y;
    }
  }

  lemma {:induction false} ContourYsFromPoint(cs: seq<Contour>, y: int)
    requires y in ContourYs(cs)
    ensures exists i, j :: 0 <= i < |cs| && 0 <= j < |cs[i].points| && cs[i].points[j].y == y
    decreases |cs|
  {
    var n := |cs| - 1;
    var p := cs[..n];
    if y in ContourYs(p) {
      ContourYsFromPoint(p, y);
      var i, j :| 0 <= i < |p| && 0 <= j < |p[i].points| && p[i].points[j].y == y;
      assert cs[i] == p[i];
    } else {
      var ys := PointYs(cs[n].points);
      assert y in ys;
      var j :| 0 <= j < |ys| && ys[j] == y;
      assert cs[n].points[j].y == y;
    }
  }

  /** Height is None exactly when the contours hold no point at all;
      otherwise it is the largest vertical distance between two points,
      and some pair of points attains it. */
  lemma PlantHeightIsVerticalExtent(cs: seq<Contour>)
    ensures PlantHeight(cs).None? <==> forall i :: 0 <= i < |cs| ==> cs[i].points == []
    ensures PlantHeight(cs).Some? ==>
              forall i1, j1, i2, j2 ::
                0 <= i1 < |cs| && 0 <= j1 < |cs[i1].points| &&
                0 <= i2 < |cs| && 0 <= j2 < |cs[i2].points| ==>
                cs[i1].points[j1].y - cs[i2].points[j2].y <= PlantHeight(cs).value
    ensures PlantHeight(cs).Some? ==>
              exists i1, j1, i2, j2 ::
                0 <= i1 < |cs| && 0 <= j1 < |cs[i1].points| &&
                0 <= i2 < |cs| && 0 <= j2 < |cs[i2].points| &&
                cs[i1].points[j1].y - cs[i2].points[j2].y == PlantHeight(cs).value
  {
    ContourYsEmptyIffNoPoints(cs);
    var ys := ContourYs(cs);
    if ys != [] {
      forall i1, j1, i2, j2 |
        0 <= i1 < |cs| && 0 <= j1 < |cs[i1].points| &&
        0 <= i2 < |cs| && 0 <= j2 < |cs[i2].points|
        ensures cs[i1].points[j1].y - cs[i2].points[j2].y <= PlantHeight(cs).value
      {
        PointInContourYs(cs, i1, j1);
        PointInContourYs(cs, i2, j2);
      }
      ContourYsFromPoint(cs, MaxOf(ys));
      ContourYsFromPoint(cs, MinOf(ys));
      var i1, j1 :| 0 <= i1 < |cs| && 0 <= j1 < |cs[i1].points| && cs[i1].points[j1].y == MaxOf(ys);
      var i2, j2 :| 0 <= i2 < |cs| && 0 <= j2 < |cs[i2].points| && cs[i2].points[j2].y == MinOf(ys);
      assert cs[i1].points[j1].y - cs[i2].points[j2].y == PlantHeight(cs).value;
    }
  }
}
