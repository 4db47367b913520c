/** The rotation-invariant matcher of `image_processor` (test.py): a library of
    rotated copies of one template, matching against every copy, and the
    selection of the best-scoring copy. */
module ImageProcessor {
  import opened Imaging
  import opened Arithmetic

  /** One precomputed rotated copy of the template: `{'angle': …, 'data': …}`. */
  datatype Variant = Variant(angle: int, data: Gray)

  /** `(max_val, max_loc, angle)`: the outcome of matching one variant. */
  datatype MatchResult = MatchResult(score: real, loc: Point, angle: int)

  /** The pickle file at the processor's path, as `load_processed_templates` finds it. */
  datatype PickleFile = Missing | Stored(variants: seq<Variant>) | Unreadable

  /** The processor: its list of variants is loaded once and never changed. */
  datatype Processor = Processor(templatesList: seq<Variant>)

  // ---------------------------------------------------------------------------
  // Loading

  /** `load_processed_templates`: a missing file is an empty library; only
      `FileNotFoundError` is caught, so an unreadable file raises. */
  function LoadProcessedTemplates(file: PickleFile): (r: Result<seq<Variant>>)
    ensures file.Missing? ==> r == Ok([])
    ensures file.Stored? ==> r == Ok(file.variants)
    ensures r.Err? <==> file.Unreadable?
  {
    match file
    case Missing => Ok([])
    case Stored(vs) => Ok(vs)
    case Unreadable => Err(Unpickling)
  }

  /** `image_processor()`: the constructor loads the library from its file. */
  function NewProcessor(file: PickleFile): (r: Result<Processor>)
    ensures r.Ok? <==> !file.Unreadable?
    ensures file.Missing? ==> r == Ok(Processor([]))
    ensures r.Ok? ==> r.value.templatesList == LoadProcessedTemplates(file).value
  {
    var vs :- LoadProcessedTemplates(file);
    Ok(Processor(vs))
  }

  // ---------------------------------------------------------------------------
  // Angle enumeration: Python's `range(start, stop, step)` for a positive step

  /** Every element lies in `[start, stop)`, the first is `start` when the
      range is not empty, and each next one is `step` further. */
  function Range(start: int, stop: int, step: int): (r: seq<int>)
    requires step > 0
    ensures forall x :: x in r ==> start <= x < stop
    ensures r != [] <==> start < stop
    ensures r != [] ==> r[0] == start
    ensures forall i :: 0 < i < |r| ==> r[i] == r[i - 1] + step
    decreases stop - start
  {
    if start >= stop then [] else [start] + Range(start + step, stop, step)
  }

  /** The number of elements of a positive-step range is the ceiling of
      `(stop - start) / step`. */
  lemma {:induction false} RangeLength(start: int, stop: int, step: int)
    requires step > 0
    ensures |Range(start, stop, step)| == if start >= stop then 0 else (stop - start - 1) / step + 1
    decreases stop - start
  {
    if start < stop {
      RangeLength(start + step, stop, step);
      var n := stop - start - 1;
      if start + step < stop {
        DivShift(n, step);
      } else {
        assert 0 <= n < step;
      }
    }
  }

  /** The k-th element of a range is `start + k * step`. */
  lemma {:induction false} RangeAt(start: int, stop: int, step: int, k: nat)
    requires step > 0
    requires k < |Range(start, stop, step)|
    ensures Range(start, stop, step)[k] == start + k * step
    decreases k
  {
    if k > 0 {
      RangeAt(start + step, stop, step, k - 1);
    }
  }

  /** The elements strictly increase. */
  lemma RangeIncreasing(start: int, stop: int, step: int, i: nat, j: nat)
    requires step > 0
    requires i < j < |Range(start, stop, step)|
    ensures Range(start, stop, step)[i] < Range(start, stop, step)[j]
  {
    RangeAt(start, stop, step, i);
    RangeAt(start, stop, step, j);
    MulMonotone(i + 1, j, step);
  }

  /** Every value `start + k * step` below `stop` is an element. */
  lemma RangeComplete(start: int, stop: int, step: int, k: nat)
    requires step > 0
    requires start + k * step < stop
    ensures k < |Range(start, stop, step)|
    ensures Range(start, stop, step)[k] == start + k * step
  {
    RangeLength(start, stop, step);
    DivBound(stop - start - 1, step, k);
    MulMonotone(0, k, step);
    RangeAt(start, stop, step, k);
  }

  /** The angles `precompute_templates` iterates over: `range(0, 360, step)`.
      A zero step raises `ValueError`; a negative step yields no angle. */
  function Angles(step: int): (r: Result<seq<int>>)
    ensures r.Err? <==> step == 0
    ensures step < 0 ==> r == Ok([])
  {
    if step == 0 then Err(ZeroStep)
    else if step < 0 then Ok([])
    else Ok(Range(0, 360, step))
  }

  /** For a positive step the angles are exactly `0, step, 2 * step, …` below
      360, strictly increasing, and there are ceil(360 / step) of them. */
  lemma AnglesCoverCircle(step: int)
    requires step > 0
    ensures Angles(step).Ok?
    ensures |Angles(step).value| == (359 / step) + 1
    ensures forall k :: 0 <= k < |Angles(step).value| ==>
      Angles(step).value[k] == k * step && 0 <= Angles(step).value[k] < 360
    ensures forall i, j :: 0 <= i < j < |Angles(step).value| ==>
      Angles(step).value[i] < Angles(step).value[j]
    ensures forall k: nat :: k * step < 360 ==> k * step in Angles(step).value
  {
    var r := Range(0, 360, step);
    RangeLength(0, 360, step);
    forall k | 0 <= k < |r|
      ensures r[k] == k * step && 0 <= r[k] < 360
    {
      RangeAt(0, 360, step, k);
      assert r[k] in r;
    }
    forall i, j | 0 <= i < j < |r|
      ensures r[i] < r[j]
    {
      RangeIncreasing(0, 360, step, i, j);
    }
    forall k: nat | k * step < 360
      ensures k * step in r
    {
      RangeComplete(0, 360, step, k);
    }
  }

  /** When the step divides 360 there are exactly `360 / step` angles. */
  lemma AnglesCountWhenDivides(step: int)
    requires step > 0 && 360 % step == 0
    ensures Angles(step).Ok? && |Angles(step).value| == 360 / step
  {
    AnglesCoverCircle(step);
    var q := 360 / step;
    assert q * step == 360;
    assert (q - 1) * step == 360 - step;
    assert 359 / step == q - 1 by {
      assert (q - 1) * step <= 359 < q * step;
    }
  }

  // ---------------------------------------------------------------------------
  // Precomputation

  /** The rotation centre: the template's middle pixel, `(w // 2, h // 2)`. */
  function RotationCentre(t: Gray): (c: Point)
    ensures 0 <= c.x <= t.width && 0 <= c.y <= t.height
    ensures t.width - 1 <= 2 * c.x <= t.width && t.height - 1 <= 2 * c.y <= t.height
  {
    Point(t.width / 2, t.height / 2)
  }

  /** The variant `precompute_templates` builds for one angle: the template
      rotated about its centre, at scale 1, on a canvas of its own size. */
  function RotatedVariant(cv: OpenCv, t: Gray, angle: int): (v: Variant)
    ensures v.angle == angle
    ensures v.data.width == t.width && v.data.height == t.height
  {
    Variant(angle, WarpAffine(cv, t, RotationMatrix(RotationCentre(t), angle, 1.0), t.width, t.height))
  }

  /** `precompute_templates(template_path, angle_step)`. `loaded` is what
      `imread` returned for the path. On success, `saved` is the file written,
      and loading it gives the same library back. */
  method PrecomputeTemplates(cv: OpenCv, loaded: Option<Gray>, angleStep: int)
    returns (r: Result<seq<Variant>>, saved: Option<PickleFile>)
    ensures loaded.None? ==> r == Err(TemplateNotLoaded)
    ensures loaded.Some? ==> (r.Err? <==> angleStep == 0)
    ensures r.Err? <==> saved.None?
    ensures r.Ok? ==> loaded.Some? && Angles(angleStep).Ok?
    ensures r.Ok? ==> |r.value| == |Angles(angleStep).value|
    ensures r.Ok? ==> forall k :: 0 <= k < |r.value| ==>
      r.value[k] == RotatedVariant(cv, loaded.value, Angles(angleStep).value[k])
    ensures r.Ok? ==> LoadProcessedTemplates(saved.value) == Ok(r.value)
  {
    if loaded.None? {
      return Err(TemplateNotLoaded), None;
    }
    var template := loaded.value;
    if angleStep == 0 {
      return Err(ZeroStep), None;
    }
    var data: seq<Variant> := [];
    if angleStep > 0 {
      ghost var all := Range(0, 360, angleStep);
      var angle := 0;
      while angle < 360
        invariant angle >= 0
        invariant all == Angles(angleStep).value
        invariant |data| + |Range(angle, 360, angleStep)| == |all|
        invariant forall k :: 0 <= k < |data| ==> data[k] == RotatedVariant(cv, template, all[k])
        invariant all[|data|..] == Range(angle, 360, angleStep)
        decreases 360 - angle
      {
        ghost var n := |data|;
        assert all[n..][0] == angle;
        data := data + [RotatedVariant(cv, template, angle)];
        assert all[n + 1..] == all[n..][1..];
        angle := angle + angleStep;
      }
    }
    r := Ok(data);
    saved := Some(Stored(data));
  }

  // ---------------------------------------------------------------------------
  // Matching

  /** `match_single_template`: the variant's own angle, with the matcher's
      maximum score and its location. */
  function MatchSingleTemplate(cv: OpenCv, source: Gray, v: Variant): (m: MatchResult)
    ensures m.angle == v.angle
    ensures m.score == cv.matchPeak(source, v.data).maxVal
    ensures m.loc == cv.matchPeak(source, v.data).maxLoc
  {
    var peak := cv.matchPeak(source, v.data);
    MatchResult(peak.maxVal, peak.maxLoc, v.angle)
  }

  /** `list(executor.map(match_single_template, tasks))`: one result per
      variant, in the order of the variants. */
  function MatchAll(cv: OpenCv, source: Gray, vs: seq<Variant>): (rs: seq<MatchResult>)
    ensures |rs| == |vs|
    ensures forall i :: 0 <= i < |vs| ==> rs[i] == MatchSingleTemplate(cv, source, vs[i])
  {
    if vs == [] then [] else [MatchSingleTemplate(cv, source, vs[0])] + MatchAll(cv, source, vs[1..])
  }

  /** `i` is the first position holding a maximal score. */
  ghost predicate IsFirstBest(rs: seq<MatchResult>, i: int)
  {
    0 <= i < |rs| &&
    (forall j :: 0 <= j < |rs| ==> rs[j].score <= rs[i].score) &&
    (forall j :: 0 <= j < i ==> rs[j].score < rs[i].score)
  }

  /** Python's `max(results, key=lambda x: x[0])`: start from the first result
      and replace the current best only by a strictly higher score. It returns
      the result at the first position whose score is maximal: an element of
      the list that no score exceeds and that every earlier result scores
      strictly below. */
  function MaxByScore(rs: seq<MatchResult>): (best: MatchResult)
    requires rs != []
    ensures exists i :: IsFirstBest(rs, i) && rs[i] == best
  {
    assert IsFirstBest(rs[..1], 0);
    KeepBestIsFirstBest(rs, 0, 1);
    KeepBest(rs[0], rs[1..])
  }

  /** The scan of `max` from a current best over the remaining results: the
      outcome is the current best or one of the rest, and no score seen
      exceeds it. */
  function KeepBest(best: MatchResult, rest: seq<MatchResult>): (r: MatchResult)
    ensures r == best || r in rest
    ensures best.score <= r.score
    ensures forall x :: x in rest ==> x.score <= r.score
    decreases |rest|
  {
    if rest == [] then best
    else KeepBest(if rest[0].score > best.score then rest[0] else best, rest[1..])
  }

  lemma {:induction false} KeepBestIsFirstBest(rs: seq<MatchResult>, k: nat, m: nat)
    requires k < m <= |rs|
    requires IsFirstBest(rs[..m], k)
    ensures exists i :: IsFirstBest(rs, i) && rs[i] == KeepBest(rs[k], rs[m..])
    decreases |rs| - m
  {
    if m == |rs| {
      assert rs[..m] == rs;
      assert rs[m..] == [];
      assert IsFirstBest(rs, k);
    } else {
      assert rs[m..][0] == rs[m];
      assert rs[m..][1..] == rs[m + 1..];
      if rs[m].score > rs[k].score {
        assert IsFirstBest(rs[..m + 1], m);
        KeepBestIsFirstBest(rs, m, m + 1);
      } else {
        assert IsFirstBest(rs[..m + 1], k);
        KeepBestIsFirstBest(rs, k, m + 1);
      }
    }
  }

  /** At most one position is the first best, so the reduction is determined by
      the scores and the order of the list. */
  lemma FirstBestUnique(rs: seq<MatchResult>, i: int, j: int)
    requires IsFirstBest(rs, i) && IsFirstBest(rs, j)
    ensures i == j
  {
    assert rs[i].score <= rs[j].score <= rs[i].score;
  }

  /** `parallel_matching(source_img)`: every variant is matched, in list order,
      and the result with the highest score is returned, the first one on a
      tie; `max` of an empty list raises. */
  function ParallelMatching(cv: OpenCv, p: Processor, source: Gray): (r: Result<MatchResult>)
    ensures r.Err? <==> p.templatesList == []
    ensures r.Err? ==> r.error == EmptySequence
    ensures r.Ok? ==> exists i :: (IsFirstBest(MatchAll(cv, source, p.templatesList), i) &&
                                   r.value == MatchSingleTemplate(cv, source, p.templatesList[i]))
  {
    if p.templatesList == [] then Err(EmptySequence)
    else
      var results := MatchAll(cv, source, p.templatesList);
      Ok(MaxByScore(results))
  }

  /** Variants whose angles strictly increase, as `precompute_templates` builds them. */
  ghost predicate AnglesIncreasing(vs: seq<Variant>)
  {
    forall i, j :: 0 <= i < j < |vs| ==> vs[i].angle < vs[j].angle
  }

  /** On a library of increasing angles, the first-wins tie-break of `max`
      returns, among the variants of maximal score, the one of lowest angle. */
  lemma TieBreakLowestAngle(cv: OpenCv, p: Processor, source: Gray, j: int)
    requires AnglesIncreasing(p.templatesList)
    requires 0 <= j < |p.templatesList|
    requires ParallelMatching(cv, p, source).Ok?
    requires MatchSingleTemplate(cv, source, p.templatesList[j]).score == ParallelMatching(cv, p, source).value.score
    ensures ParallelMatching(cv, p, source).value.angle <= p.templatesList[j].angle
  {
    var best := ParallelMatching(cv, p, source).value;
    var rs := MatchAll(cv, source, p.templatesList);
    var i :| IsFirstBest(rs, i) && best == MatchSingleTemplate(cv, source, p.templatesList[i]);
    assert rs[i] == best && rs[j].score == best.score;
    assert !(rs[j].score < rs[i].score);
    assert i <= j;
  }

  /** What `precompute_templates` builds has strictly increasing angles, so a
      processor loading it breaks ties towards the lowest angle. */
  lemma PrecomputedAnglesIncrease(cv: OpenCv, t: Gray, step: int, vs: seq<Variant>)
    requires step > 0
    requires |vs| == |Angles(step).value|
    requires forall k :: 0 <= k < |vs| ==> vs[k] == RotatedVariant(cv, t, Angles(step).value[k])
    ensures AnglesIncreasing(vs)
  {
    AnglesCoverCircle(step);
  }
}
