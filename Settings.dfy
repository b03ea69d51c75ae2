/** The settings of a recurrence analysis: the time series, its embedding
    (dimension `m`, delay `t`), the neighbourhood, the Theiler corrector, the
    minimum line lengths and the kernel configuration. */
module Settings {
  import opened Neighbourhood
  import opened Slicing

  /** One entry of the kernel configuration. */
  datatype KernelConfig = KernelConfig(
    computationClass: string, neighbourhoodClass: string, className: string, kernelFileNames: seq<string>)

  /** A computation object: the name of its class and the names of the
      classes it derives from, itself first. */
  datatype Computation = Computation(className: string, ancestors: seq<string>)

  datatype Error = IndexError | ZeroDivisionError | NoOpenCLKernelsFound(className: string)

  datatype Outcome<T> = Ok(value: T) | Fail(error: Error)

  /** `d * t`, the distance from the first element of a delay vector to its
      element `d`, counted up one delay at a time. */
  function Lag(d: nat, t: nat): nat
  {
    if d == 0 then 0 else Lag(d - 1, t) + t
  }

  lemma {:induction false} LagIsProduct(d: nat, t: nat)
    ensures Lag(d, t) == d * t
  {
    if d > 0 {
      LagIsProduct(d - 1, t);
    }
  }

  lemma {:induction false} LagMonotone(d: nat, d': nat, t: nat)
    requires d <= d'
    ensures Lag(d, t) <= Lag(d', t)
    decreases d'
  {
    if d < d' {
      LagMonotone(d, d' - 1, t);
    }
  }

  /** `a * b <= c * b` for `a <= c`. */
  lemma MulLe(a: nat, c: nat, b: nat)
    requires a <= c
    ensures a * b <= c * b
  {
  }

  /** Row `k` of `count` rows of `m` elements ends within them. */
  lemma RowFits(k: nat, count: nat, m: nat)
    requires k < count
    ensures k * m + m <= count * m
  {
    MulLe(k + 1, count, m);
    assert (k + 1) * m == k * m + m;
  }

  /** `v` cut into `count` rows of `m` elements. */
  function Reshape(v: seq<real>, m: nat, count: nat): (rows: seq<seq<real>>)
    requires |v| == count * m
    ensures |rows| == count
  {
    seq(count, (k: nat) requires k < count => RowFits(k, count, m); v[k * m..k * m + m])
  }

  datatype Settings = Settings(
    timeSeries: seq<real>,
    embeddingDimension: nat,
    timeDelay: nat,
    metricIsSymmetric: bool,
    neighbourhood: Neighbourhood,
    theilerCorrector: int,
    minDiagonalLineLength: int,
    minVerticalLineLength: int,
    minWhiteVerticalLineLength: int,
    configData: seq<KernelConfig>)
  {
    /** The span of time series a delay vector covers beyond its first
        element. */
    function Offset(): int
    {
      (embeddingDimension - 1) * timeDelay
    }

    /** The number of delay vectors the time series holds. */
    function NumberOfVectors(): int
    {
      |timeSeries| - Offset()
    }

    /** The recurrence matrix is symmetric for a symmetric metric and a
        radius neighbourhood; never for FAN. */
    predicate IsMatrixSymmetric()
    {
      metricIsSymmetric && (neighbourhood.FixedRadius? || neighbourhood.RadiusCorridor?)
    }

    function DiagonalKernelName(): (name: string)
      ensures name == "diagonal_symmetric" <==> IsMatrixSymmetric()
      ensures name == "diagonal" <==> !IsMatrixSymmetric()
    {
      if IsMatrixSymmetric() then "diagonal_symmetric" else "diagonal"
    }

    /** The part of the time series that `cnt` vectors from `start` are
        built from. */
    function GetTimeSeries(start: int, cnt: int): seq<real>
    {
      Slice(timeSeries, start, start + cnt + Offset())
    }

    /** Every element of vectors `start .. start + cnt - 1` lies in the time
        series. */
    predicate VectorsInRange(start: nat, cnt: nat)
    {
      cnt == 0 || embeddingDimension == 0 || start + cnt - 1 + Lag(embeddingDimension - 1, timeDelay) < |timeSeries|
    }

    /** Elements `0 .. count - 1` of delay vector `i`: element `d` is element
        `i + d * t` of the time series. */
    function Elements(i: nat, count: nat): (v: seq<real>)
      requires count == 0 || i + Lag(count - 1, timeDelay) < |timeSeries|
      ensures |v| == count
    {
      if count == 0 then []
      else Elements(i, count - 1) + [timeSeries[i + Lag(count - 1, timeDelay)]]
    }

    lemma {:induction false} ElementsAt(i: nat, count: nat)
      requires count == 0 || i + Lag(count - 1, timeDelay) < |timeSeries|
      ensures forall d | 0 <= d < count ::
        i + Lag(d, timeDelay) < |timeSeries| && Elements(i, count)[d] == timeSeries[i + Lag(d, timeDelay)]
    {
      if count > 0 {
        assert Lag(count - 1, timeDelay) == (if count == 1 then 0 else Lag(count - 2, timeDelay) + timeDelay);
        ElementsAt(i, count - 1);
        forall d | 0 <= d < count
          ensures i + Lag(d, timeDelay) < |timeSeries| && Elements(i, count)[d] == timeSeries[i + Lag(d, timeDelay)]
        {
          if d < count - 1 {
            assert Elements(i, count)[d] == Elements(i, count - 1)[d];
          }
        }
      }
    }

    /** Delay vector `i`: elements `i, i + t, ..., i + (m - 1) * t`. */
    function DelayVector(i: nat): seq<real>
      requires VectorsInRange(i, 1)
    {
      Elements(i, embeddingDimension)
    }

    /** Vectors `start .. start + cnt - 1`, one after the other. */
    function DelayVectors(start: nat, cnt: nat): (v: seq<real>)
      requires VectorsInRange(start, cnt)
      ensures |v| == cnt * embeddingDimension
    {
      if cnt == 0 then [] else DelayVectors(start, cnt - 1) + DelayVector(start + cnt - 1)
    }

    /** The first `k` vectors begin the first `cnt`. */
    lemma {:induction false} DelayVectorsPrefix(start: nat, k: nat, cnt: nat)
      requires VectorsInRange(start, cnt) && k <= cnt
      ensures VectorsInRange(start, k)
      ensures DelayVectors(start, cnt)[..k * embeddingDimension] == DelayVectors(start, k)
    {
      if k < cnt {
        DelayVectorsPrefix(start, k, cnt - 1);
        MulLe(k, cnt - 1, embeddingDimension);
      }
    }

    /** Row `k` of the delay vectors, elements `k * m .. (k + 1) * m - 1`, is
        delay vector `start + k`. */
    lemma DelayVectorsRow(start: nat, cnt: nat, k: nat)
      requires VectorsInRange(start, cnt) && k < cnt
      ensures VectorsInRange(start + k, 1)
      ensures k * embeddingDimension + embeddingDimension <= cnt * embeddingDimension
      ensures DelayVectors(start, cnt)[k * embeddingDimension..k * embeddingDimension + embeddingDimension]
           == DelayVector(start + k)
    {
      var m := embeddingDimension;
      DelayVectorsPrefix(start, k + 1, cnt);
      MulLe(k + 1, cnt, m);
      assert (k + 1) * m == k * m + m;
      var prefix := DelayVectors(start, cnt)[..(k + 1) * m];
      assert prefix == DelayVectors(start, k) + DelayVector(start + k);
      assert DelayVectors(start, cnt)[k * m..k * m + m] == prefix[k * m..];
    }

    /** Reshaping the delay vectors into rows of `m` gives the vectors one
        per row. */
    lemma ReshapeRows(start: nat, count: nat)
      requires VectorsInRange(start, count)
      ensures forall i | start <= i < start + count ::
        VectorsInRange(i, 1) && Reshape(DelayVectors(start, count), embeddingDimension, count)[i - start] == DelayVector(i)
    {
      var m, v := embeddingDimension, DelayVectors(start, count);
      forall i | start <= i < start + count
        ensures VectorsInRange(i, 1) && Reshape(v, m, count)[i - start] == DelayVector(i)
      {
        var k := i - start;
        DelayVectorsRow(start, count, k);
        assert Reshape(v, m, count)[k] == v[k * m..k * m + m];
      }
    }

    /** Vectors `start .. start + cnt - 1`, element by element; reading past
        the end of the time series fails with an index error. */
    method GetVectors(start: nat, cnt: nat) returns (r: Outcome<seq<real>>)
      ensures r.Ok? <==> VectorsInRange(start, cnt)
      ensures r.Ok? ==> r.value == DelayVectors(start, cnt)
      ensures r.Fail? ==> r.error == IndexError
    {
      var m, t := embeddingDimension, timeDelay;
      var recurrenceVectors: seq<real> := [];
      for idx := start to start + cnt
        invariant VectorsInRange(start, idx - start)
        invariant recurrenceVectors == DelayVectors(start, idx - start)
      {
        ghost var done := recurrenceVectors;
        for dim := 0 to m
          invariant dim == 0 || idx + Lag(dim - 1, t) < |timeSeries|
          invariant recurrenceVectors == done + Elements(idx, dim)
        {
          LagIsProduct(dim, t);
          if idx + dim * t >= |timeSeries| {
            assert !VectorsInRange(start, cnt) by {
              LagMonotone(dim, m - 1, t);
            }
            return Fail(IndexError);
          }
          recurrenceVectors := recurrenceVectors + [timeSeries[idx + dim * t]];
        }
      }
      return Ok(recurrenceVectors);
    }

    /** The vectors as rows of `m` elements: row `k` is delay vector
        `start + k`. With `m == 0` the number of rows divides by zero. */
    method GetVectorsAs2dArray(start: nat, count: nat) returns (r: Outcome<seq<seq<real>>>)
      ensures r.Ok? <==> VectorsInRange(start, count) && embeddingDimension > 0
      ensures r.Ok? ==> |r.value| == count && forall i | start <= i < start + count ::
        VectorsInRange(i, 1) && r.value[i - start] == DelayVector(i)
      ensures !VectorsInRange(start, count) ==> r == Fail(IndexError)
      ensures VectorsInRange(start, count) && embeddingDimension == 0 ==> r == Fail(ZeroDivisionError)
    {
      var recurrenceVectors := GetVectors(start, count);
      if recurrenceVectors.Fail? {
        return Fail(recurrenceVectors.error);
      }
      var m := embeddingDimension;
      if m == 0 {
        return Fail(ZeroDivisionError);
      }
      ReshapeRows(start, count);
      var rows := Reshape(recurrenceVectors.value, m, count);
      return Ok(rows);
    }

    /** Whether a configuration entry is the one for `obj`: its computation
        class is among the classes of `obj`, its neighbourhood class is the
        one of these settings, and its class is the class of `obj`. */
    predicate Matches(entry: KernelConfig, obj: Computation)
    {
      && entry.computationClass in obj.ancestors
      && entry.neighbourhoodClass == ClassName(neighbourhood)
      && entry.className == obj.className
    }

    /** The kernel file names of the first configuration entry for `obj`;
        fails when no entry is for `obj`. */
    method GetKernelFileNames(obj: Computation) returns (r: Outcome<seq<string>>)
      ensures r.Ok? ==> exists i | 0 <= i < |configData| ::
        && Matches(configData[i], obj) && r.value == configData[i].kernelFileNames
        && forall j | 0 <= j < i :: !Matches(configData[j], obj)
      ensures r.Fail? <==> forall i | 0 <= i < |configData| :: !Matches(configData[i], obj)
      ensures r.Fail? ==> r.error == NoOpenCLKernelsFound(obj.className)
    {
      for i := 0 to |configData|
        invariant forall j | 0 <= j < i :: !Matches(configData[j], obj)
      {
        var element := configData[i];
        if element.computationClass in obj.ancestors && element.neighbourhoodClass == ClassName(neighbourhood)
           && element.className == obj.className
        {
          return Ok(element.kernelFileNames);
        }
      }
      return Fail(NoOpenCLKernelsFound(obj.className));
    }
  }

  /** The element of a vector `i` of a time series: element `d` lies `d * t`
      after element `0`. */
  lemma DelayVectorAt(s: Settings, i: nat, d: nat)
    requires s.VectorsInRange(i, 1) && d < s.embeddingDimension
    ensures i + d * s.timeDelay < |s.timeSeries|
    ensures s.DelayVector(i)[d] == s.timeSeries[i + d * s.timeDelay]
  {
    s.ElementsAt(i, s.embeddingDimension);
    LagIsProduct(d, s.timeDelay);
  }

  /** The offset is the lag of the last element of a delay vector; `n`
      vectors of `m` elements use up the time series exactly. */
  lemma VectorsUseUpTimeSeries(s: Settings)
    requires s.embeddingDimension >= 1 && s.NumberOfVectors() >= 0
    ensures s.Offset() == Lag(s.embeddingDimension - 1, s.timeDelay)
    ensures s.NumberOfVectors() >= 1 ==> s.VectorsInRange(0, s.NumberOfVectors())
    ensures !s.VectorsInRange(0, s.NumberOfVectors() + 1)
  {
    LagIsProduct(s.embeddingDimension - 1, s.timeDelay);
  }

  /** The part of the time series for `cnt` vectors from `start` is exactly
      long enough to build them: it holds `cnt + offset` elements, and its
      vectors `0 .. cnt - 1` are vectors `start .. start + cnt - 1`. */
  lemma TimeSeriesWindow(s: Settings, start: nat, cnt: nat)
    requires s.embeddingDimension >= 1 && start + cnt <= s.NumberOfVectors()
    ensures s.GetTimeSeries(start, cnt) == s.timeSeries[start..start + cnt + s.Offset()]
    ensures var w := s.(timeSeries := s.GetTimeSeries(start, cnt));
      && w.NumberOfVectors() == cnt
      && forall k | 0 <= k < cnt :: w.VectorsInRange(k, 1) && s.VectorsInRange(start + k, 1)
           && w.DelayVector(k) == s.DelayVector(start + k)
  {
    var m, t := s.embeddingDimension, s.timeDelay;
    LagIsProduct(m - 1, t);
    SliceBounds(s.timeSeries, start, start + cnt + s.Offset());
    var w := s.(timeSeries := s.GetTimeSeries(start, cnt));
    forall k | 0 <= k < cnt
      ensures w.VectorsInRange(k, 1) && s.VectorsInRange(start + k, 1) && w.DelayVector(k) == s.DelayVector(start + k)
    {
      ElementsShift(s, w, start, k, m);
    }
  }

  /** Elements of a vector read from a window of the time series that
      starts at `start` are those of the vector `start` places further. */
  lemma {:induction false} ElementsShift(s: Settings, w: Settings, start: nat, k: nat, count: nat)
    requires w.timeDelay == s.timeDelay && start + |w.timeSeries| <= |s.timeSeries|
    requires forall j | 0 <= j < |w.timeSeries| :: w.timeSeries[j] == s.timeSeries[start + j]
    requires count == 0 || k + Lag(count - 1, s.timeDelay) < |w.timeSeries|
    ensures count == 0 || start + k + Lag(count - 1, s.timeDelay) < |s.timeSeries|
    ensures w.Elements(k, count) == s.Elements(start + k, count)
  {
    if count > 0 {
      assert Lag(count - 1, s.timeDelay) == (if count == 1 then 0 else Lag(count - 2, s.timeDelay) + s.timeDelay);
      ElementsShift(s, w, start, k, count - 1);
    }
  }

  /** FAN never gives a symmetric matrix; a radius neighbourhood does exactly
      when the metric is symmetric. */
  lemma SymmetryOfNeighbourhoods(s: Settings)
    ensures s.neighbourhood.FAN? ==> !s.IsMatrixSymmetric()
    ensures !s.neighbourhood.FAN? ==> (s.IsMatrixSymmetric() <==> s.metricIsSymmetric)
  {
  }
}
