/**
 * `Result` and `Metrics` (slurmer/parse/metrics.py, and its identical copy
 * tcml_tools/slurmer/parse/metrics.py): a named result value with its ordering, and
 * the declarative reduction of a jobs x time array into a fixed-order list of results.
 */
module Metrics {
  import opened Wrappers
  import opened PyStr

  /** A NumPy float64 value: NaN or an exact real (infinities are not modelled). */
  datatype Float = NaN | Fin(r: real)

  /** Python `<` on floats: false whenever a NaN takes part. */
  predicate FloatLess(a: Float, b: Float)
  {
    a.Fin? && b.Fin? && a.r < b.r
  }

  /** Python `==` on floats: NaN equals nothing, not even itself. */
  predicate FloatEq(a: Float, b: Float)
  {
    a.Fin? && b.Fin? && a.r == b.r
  }

  /** A result value: a string (the "not available" text) or a number. */
  datatype Value = Text(s: string) | Number(f: Float)

  /** The class `Result`: `float_acc` is kept to render numbers with that many decimals. */
  datatype Result = Result(name: string, value: Value, floatAcc: int)

  /**
   * `Result.str`: a string value verbatim, a number through `'%.<float_acc>f'`;
   * `format` stands for that printf-style conversion, which is not modelled.
   */
  function Str(res: Result, format: (Float, int) -> string): (r: string)
    ensures res.value.Text? ==> r == res.value.s
  {
    match res.value
    case Text(s) => s
    case Number(f) => format(f, res.floatAcc)
  }

  /** `self < other`, where `other` may be `None`. */
  predicate Less(self: Result, other: Option<Result>)
  {
    if other.None? then false
    else if self.value.Text? then true
    else if other.value.value.Text? then false
    else FloatLess(self.value.f, other.value.value.f)
  }

  /** `self == other`, where `other` may be `None`. */
  predicate Equal(self: Result, other: Option<Result>)
  {
    if other.None? then false
    else if self.value.Text? && other.value.value.Text? then true
    else self.value == other.value.value && self.value.Number? && FloatEq(self.value.f, self.value.f)
  }

  /** Nothing is less than `None`, and nothing equals it. */
  lemma NoneIsBottomless(a: Result)
    ensures !Less(a, None) && !Equal(a, None)
  {
  }

  /**
   * A string-valued result is less than every result, another string result
   * included; a number is never less than a string.
   */
  lemma TextIsLeast(t: Result, n: Result)
    requires t.value.Text?
    ensures forall o :: Less(t, Some(o))
    ensures n.value.Number? ==> !Less(n, Some(t))
  {
  }

  /** Two string results are each less than the other: `<` is no strict order on them. */
  lemma TextsMutuallyLess(a: Result, b: Result)
    requires a.value.Text? && b.value.Text?
    ensures Less(a, Some(b)) && Less(b, Some(a)) && Equal(a, Some(b))
  {
  }

  /**
   * On numbers `<` and `==` follow the values: exactly one of less, equal, greater
   * holds between two non-NaN numbers, and a NaN is neither less, nor greater, nor equal.
   */
  lemma NumbersCompareByValue(a: Result, b: Result)
    requires a.value.Number? && b.value.Number?
    ensures a.value.f.Fin? && b.value.f.Fin? ==>
              (Less(a, Some(b)) <==> a.value.f.r < b.value.f.r)
              && (Equal(a, Some(b)) <==> a.value.f.r == b.value.f.r)
    ensures a.value.f.NaN? || b.value.f.NaN? ==>
              !Less(a, Some(b)) && !Less(b, Some(a)) && !Equal(a, Some(b))
  {
  }

  /** Among results without NaN, `<` is transitive. */
  lemma LessTransitive(a: Result, b: Result, c: Result)
    requires Less(a, Some(b)) && Less(b, Some(c))
    requires a.value.Number? ==> a.value.f.Fin?
    ensures Less(a, Some(c))
  {
  }

  /**
   * `max([incoming, existing])` as `Group.update_results` uses it: Python asks
   * `existing > incoming`, which `Result` answers with the reflected `incoming < existing`;
   * the later element wins only if it is strictly greater.
   */
  function Max(incoming: Result, existing: Option<Result>): (r: Result)
    ensures r == incoming || Some(r) == existing
  {
    if Less(incoming, existing) then existing.value else incoming
  }

  /**
   * What `Max` keeps: a string result never displaces an existing one; a number
   * always displaces a string; between numbers the kept value is the larger one
   * (the incoming one on ties or NaN); with nothing stored the incoming result is kept.
   */
  lemma MaxKeepsLarger(incoming: Result, existing: Option<Result>)
    ensures existing.None? ==> Max(incoming, existing) == incoming
    ensures incoming.value.Text? && existing.Some? ==> Max(incoming, existing) == existing.value
    ensures incoming.value.Number? && existing.Some? && existing.value.value.Text? ==> Max(incoming, existing) == incoming
    ensures incoming.value.Number? && existing.Some? && existing.value.value.Number? ==>
              Max(incoming, existing) == (if FloatLess(incoming.value.f, existing.value.value.f) then existing.value else incoming)
  {
  }

  /** Keeping the larger is idempotent: offering the kept result again changes nothing. */
  lemma MaxIdempotent(incoming: Result, existing: Option<Result>)
    ensures Max(Max(incoming, existing), Some(Max(incoming, existing))) == Max(incoming, existing)
  {
  }

  /** The aggregates a `Metrics` may compute, in the order `from_values` emits them. */
  datatype Aggregate = Avg | Med | MaxAvg | MinAvg | Std | MaxAll | MinAll

  /** The suffix of a result name: `'%s avg' % name` and so on. */
  function Suffix(a: Aggregate): string
  {
    match a
    case Avg => "avg"
    case Med => "med"
    case MaxAvg => "max_avg"
    case MinAvg => "min_avg"
    case Std => "std"
    case MaxAll => "max"
    case MinAll => "min"
  }

  /** The seven flags `avg, med, max_avg, min_avg, std, max, min`. */
  datatype Flags = Flags(avg: bool, med: bool, maxAvg: bool, minAvg: bool, std: bool, max: bool, min: bool)

  /** The class `Metrics`; `name` is already resolved (the key when no name string was given). */
  datatype MetricSpec = MetricSpec(
    key: string, name: string, notAvailable: Option<string>,
    firstK: Option<int>, lastK: Option<int>, floatAcc: int, replaceNan: Option<real>,
    flags: Flags)

  /** What `__init__` guarantees: `first_k` and `last_k` are never both set. */
  predicate ValidSpec(m: MetricSpec)
  {
    m.firstK.None? || m.lastK.None?
  }

  datatype MetricsError =
    | BothFirstAndLast                        // the assertion in __init__
    | NoNotAvailableValue(key: string, name: string)  // None array without a fallback
    | UndefinedDataType                       // NotImplementedError for other inputs
    | EmptyReduction                          // numpy's max/min of a zero-size array

  /**
   * `Metrics.__init__`: rejects `first_k` together with `last_k`; the name falls back
   * to the key when it is not a string (`None` here).
   */
  function NewMetrics(key: string, name: Option<string>, notAvailable: Option<string>,
                      firstK: Option<int>, lastK: Option<int>, floatAcc: int,
                      replaceNan: Option<real>, flags: Flags): (r: Outcome<MetricSpec, MetricsError>)
    ensures r.Err? <==> firstK.Some? && lastK.Some?
    ensures r.Err? ==> r.error == BothFirstAndLast
    ensures r.Ok? ==> ValidSpec(r.value) && r.value.key == key && r.value.name == name.GetOr(key)
    ensures r.Ok? ==> r.value.flags == flags && r.value.notAvailable == notAvailable
                      && r.value.firstK == firstK && r.value.lastK == lastK
                      && r.value.floatAcc == floatAcc && r.value.replaceNan == replaceNan
  {
    if firstK.Some? && lastK.Some? then Err(BothFirstAndLast)
    else Ok(MetricSpec(key, name.GetOr(key), notAvailable, firstK, lastK, floatAcc, replaceNan, flags))
  }

  /** The enabled aggregates, always in the order avg, med, max_avg, min_avg, std, max, min. */
  function Enabled(f: Flags): seq<Aggregate>
  {
    (if f.avg then [Avg] else []) + (if f.med then [Med] else []) + (if f.maxAvg then [MaxAvg] else [])
    + (if f.minAvg then [MinAvg] else []) + (if f.std then [Std] else []) + (if f.max then [MaxAll] else [])
    + (if f.min then [MinAll] else [])
  }

  /** A 2-D array: every row (job) has the same number of columns (time steps). */
  predicate Rectangular(rows: seq<seq<Float>>)
  {
    forall i :: 0 <= i < |rows| ==> |rows[i]| == |rows[0]|
  }

  /** The argument of `from_values`: an ndarray, `None`, or anything else. */
  datatype Input = Array(rows: seq<seq<Float>>) | NoneValue | Unsupported

  /** `values[:, :k]` with `k` possibly `None` (no bound). */
  function SliceToOpt(row: seq<Float>, k: Option<int>): seq<Float>
  {
    if k.None? then row else SliceTo(row, k.value)
  }

  /** Lines 93-94: `first_k` slicing only under `last_k`, then the last `last_k` columns. */
  function Truncate(m: MetricSpec, rows: seq<seq<Float>>): (v: seq<seq<Float>>)
    ensures |v| == |rows|
  {
    var v := if m.lastK.Some? then seq(|rows|, i requires 0 <= i < |rows| => SliceToOpt(rows[i], m.firstK)) else rows;
    if m.lastK.Some? then seq(|v|, i requires 0 <= i < |v| => SliceFrom(v[i], -m.lastK.value)) else v
  }

  function ReplaceNanIn(row: seq<Float>, x: real): (r: seq<Float>)
    ensures |r| == |row| && forall i :: 0 <= i < |r| ==> r[i].Fin?
  {
    seq(|row|, i requires 0 <= i < |row| => if row[i].NaN? then Fin(x) else row[i])
  }

  /** Lines 92-96: truncation, then `np.nan_to_num` when `replace_nan` is set. */
  function Prepare(m: MetricSpec, rows: seq<seq<Float>>): (v: seq<seq<Float>>)
    ensures |v| == |rows|
  {
    var t := Truncate(m, rows);
    if m.replaceNan.Some? then seq(|t|, i requires 0 <= i < |t| => ReplaceNanIn(t[i], m.replaceNan.value)) else t
  }

  function Flatten(rows: seq<seq<Float>>): seq<Float>
  {
    if rows == [] then [] else rows[0] + Flatten(rows[1..])
  }

  function Add(a: Float, b: Float): Float
  {
    if a.NaN? || b.NaN? then NaN else Fin(a.r + b.r)
  }

  function Sum(xs: seq<Float>): Float
  {
    if xs == [] then Fin(0.0) else Add(xs[0], Sum(xs[1..]))
  }

  /** `np.mean`: NaN for an empty input or when a NaN takes part. */
  function Mean(xs: seq<Float>): Float
  {
    if xs == [] then NaN
    else match Sum(xs)
      case NaN => NaN
      case Fin(s) => Fin(s / |xs| as real)
  }

  /** `np.max` of a non-empty input; a NaN anywhere makes the result NaN. */
  function MaxF(xs: seq<Float>): Float
    requires xs != []
  {
    if |xs| == 1 then xs[0]
    else
      var m := MaxF(xs[1..]);
      if xs[0].NaN? || m.NaN? then NaN else if xs[0].r >= m.r then xs[0] else m
  }

  /** `np.min` of a non-empty input; a NaN anywhere makes the result NaN. */
  function MinF(xs: seq<Float>): Float
    requires xs != []
  {
    if |xs| == 1 then xs[0]
    else
      var m := MinF(xs[1..]);
      if xs[0].NaN? || m.NaN? then NaN else if xs[0].r <= m.r then xs[0] else m
  }

  predicate NoNaN(xs: seq<Float>)
  {
    forall i :: 0 <= i < |xs| ==> xs[i].Fin?
  }

  /** Without NaN, `np.max` is an entry that no entry exceeds. */
  lemma {:induction false} MaxIsExtremum(xs: seq<Float>)
    requires xs != [] && NoNaN(xs)
    ensures MaxF(xs).Fin? && MaxF(xs) in xs
    ensures forall i :: 0 <= i < |xs| ==> xs[i].r <= MaxF(xs).r
  {
    if |xs| > 1 {
      MaxIsExtremum(xs[1..]);
      forall i | 1 <= i < |xs| ensures xs[i].r <= MaxF(xs).r {
        assert xs[i] == xs[1..][i - 1];
      }
    }
  }

  /** Without NaN, `np.min` is an entry that no entry undercuts. */
  lemma {:induction false} MinIsExtremum(xs: seq<Float>)
    requires xs != [] && NoNaN(xs)
    ensures MinF(xs).Fin? && MinF(xs) in xs
    ensures forall i :: 0 <= i < |xs| ==> MinF(xs).r <= xs[i].r
  {
    if |xs| > 1 {
      MinIsExtremum(xs[1..]);
      forall i | 1 <= i < |xs| ensures MinF(xs).r <= xs[i].r {
        assert xs[i] == xs[1..][i - 1];
      }
    }
  }

  /** Any NaN entry makes `np.max` NaN. */
  lemma {:induction false} MaxPropagatesNaN(xs: seq<Float>, i: nat)
    requires i < |xs| && xs[i].NaN?
    ensures MaxF(xs).NaN?
  {
    if |xs| > 1 && i > 0 {
      MaxPropagatesNaN(xs[1..], i - 1);
    }
  }

  lemma {:induction false} SumBounds(xs: seq<Float>, lo: real, hi: real)
    requires NoNaN(xs)
    requires forall i :: 0 <= i < |xs| ==> lo <= xs[i].r <= hi
    ensures Sum(xs).Fin? && |xs| as real * lo <= Sum(xs).r <= |xs| as real * hi
  {
    if xs != [] {
      SumBounds(xs[1..], lo, hi);
      assert xs[0].r + (|xs| - 1) as real * lo == |xs| as real * lo - lo + xs[0].r;
    }
  }

  lemma DivideBounds(n: real, lo: real, s: real, hi: real)
    requires n > 0.0 && n * lo <= s <= n * hi
    ensures lo <= s / n <= hi
  {
  }

  lemma MeanIsAverage(xs: seq<Float>)
    requires xs != [] && Sum(xs).Fin?
    ensures Mean(xs) == Fin(Sum(xs).r / |xs| as real)
  {
  }

  /** Without NaN, `np.mean` lies between `np.min` and `np.max`. */
  lemma MeanBetweenExtrema(xs: seq<Float>)
    requires xs != [] && NoNaN(xs)
    ensures MinF(xs).Fin? && MaxF(xs).Fin? && Mean(xs).Fin?
    ensures MinF(xs).r <= Mean(xs).r <= MaxF(xs).r
  {
    AverageBetweenExtrema(xs);
    MeanIsAverage(xs);
  }

  lemma AverageBetweenExtrema(xs: seq<Float>)
    requires xs != [] && NoNaN(xs)
    ensures MinF(xs).Fin? && MaxF(xs).Fin? && Sum(xs).Fin?
    ensures MinF(xs).r <= Sum(xs).r / |xs| as real <= MaxF(xs).r
  {
    MaxIsExtremum(xs);
    MinIsExtremum(xs);
    MeanBounds(xs, MinF(xs).r, MaxF(xs).r);
  }

  /** Values between `lo` and `hi` have their average between them too. */
  lemma MeanBounds(xs: seq<Float>, lo: real, hi: real)
    requires xs != [] && NoNaN(xs)
    requires forall i :: 0 <= i < |xs| ==> lo <= xs[i].r <= hi
    ensures Sum(xs).Fin? && lo <= Sum(xs).r / |xs| as real <= hi
  {
    SumBounds(xs, lo, hi);
    DivideBounds(|xs| as real, lo, Sum(xs).r, hi);
  }

  /** `np.max(v, axis=1)` / `np.min(v, axis=1)`: `None` when a row is empty (numpy raises). */
  function RowExtrema(v: seq<seq<Float>>, takeMax: bool): Option<seq<Float>>
  {
    if v == [] then Some([])
    else if v[0] == [] then None
    else match RowExtrema(v[1..], takeMax)
      case None => None
      case Some(rest) => Some([if takeMax then MaxF(v[0]) else MinF(v[0])] + rest)
  }

  /** `np.mean(v, axis=1)` */
  function RowMeans(v: seq<seq<Float>>): (r: seq<Float>)
    ensures |r| == |v|
  {
    seq(|v|, i requires 0 <= i < |v| => Mean(v[i]))
  }

  /**
   * One aggregate of the prepared array, `None` where numpy raises; `median` and
   * `std` stand for `np.median` and `np.std`, which are not modelled.
   */
  function AggregateOf(a: Aggregate, v: seq<seq<Float>>,
                       median: seq<Float> -> Float, std: seq<Float> -> Float): Option<Float>
  {
    match a
    case Avg => Some(Mean(Flatten(v)))
    case Med => Some(median(Flatten(v)))
    case MaxAvg => (match RowExtrema(v, true) case None => None case Some(e) => Some(Mean(e)))
    case MinAvg => (match RowExtrema(v, false) case None => None case Some(e) => Some(Mean(e)))
    case Std => Some(std(RowMeans(v)))
    case MaxAll => if Flatten(v) == [] then None else Some(MaxF(Flatten(v)))
    case MinAll => if Flatten(v) == [] then None else Some(MinF(Flatten(v)))
  }

  /** The results for the aggregates `aggs` in order, or the error of the first that raises. */
  function Emit(name: string, floatAcc: int, aggs: seq<Aggregate>, v: seq<seq<Float>>,
                median: seq<Float> -> Float, std: seq<Float> -> Float): Outcome<seq<Result>, MetricsError>
  {
    if aggs == [] then Ok([])
    else match AggregateOf(aggs[0], v, median, std)
      case None => Err(EmptyReduction)
      case Some(x) =>
        match Emit(name, floatAcc, aggs[1..], v, median, std)
        case Err(e) => Err(e)
        case Ok(rest) => Ok([Result(name + " " + Suffix(aggs[0]), Number(x), floatAcc)] + rest)
  }

  /** `Metrics.from_values` */
  function FromValues(m: MetricSpec, values: Input,
                      median: seq<Float> -> Float, std: seq<Float> -> Float): Outcome<seq<Result>, MetricsError>
  {
    match values
    case Unsupported => Err(UndefinedDataType)
    case NoneValue =>
      if m.notAvailable.None? then Err(NoNotAvailableValue(m.key, m.name))
      else
        var aggs := Enabled(m.flags);
        Ok(seq(|aggs|, i requires 0 <= i < |aggs| =>
          Result(m.name + " " + Suffix(aggs[i]), Text(m.notAvailable.value), m.floatAcc)))
    case Array(rows) => Emit(m.name, m.floatAcc, Enabled(m.flags), Prepare(m, rows), median, std)
  }

  /** The name every emitted result must carry, in emission order. */
  ghost predicate NamedInOrder(m: MetricSpec, rs: seq<Result>, aggs: seq<Aggregate>)
  {
    |rs| == |aggs| &&
    forall i :: 0 <= i < |rs| ==> rs[i].name == m.name + " " + Suffix(aggs[i]) && rs[i].floatAcc == m.floatAcc
  }

  lemma {:induction false} EmitNamed(m: MetricSpec, aggs: seq<Aggregate>, v: seq<seq<Float>>,
                                     median: seq<Float> -> Float, std: seq<Float> -> Float)
    requires Emit(m.name, m.floatAcc, aggs, v, median, std).Ok?
    ensures NamedInOrder(m, Emit(m.name, m.floatAcc, aggs, v, median, std).value, aggs)
    ensures forall i :: 0 <= i < |aggs| ==>
              AggregateOf(aggs[i], v, median, std).Some? &&
              Emit(m.name, m.floatAcc, aggs, v, median, std).value[i].value == Number(AggregateOf(aggs[i], v, median, std).value)
  {
    if aggs != [] {
      EmitNamed(m, aggs[1..], v, median, std);
    }
  }

  /**
   * `from_values` emits exactly one result per enabled flag, in the order avg, med,
   * max_avg, min_avg, std, max, min, named `"<name> <suffix>"`, each carrying the
   * metric's precision; with a `None` array every value is `not_available_value`.
   */
  lemma FromValuesOrder(m: MetricSpec, values: Input, median: seq<Float> -> Float, std: seq<Float> -> Float)
    requires FromValues(m, values, median, std).Ok?
    ensures NamedInOrder(m, FromValues(m, values, median, std).value, Enabled(m.flags))
    ensures values.NoneValue? ==> forall r :: r in FromValues(m, values, median, std).value ==>
              r.value == Text(m.notAvailable.value)
    ensures values.Array? ==> forall r :: r in FromValues(m, values, median, std).value ==> r.value.Number?
  {
    if values.Array? {
      EmitNamed(m, Enabled(m.flags), Prepare(m, values.rows), median, std);
    }
  }

  /**
   * The error cases of `from_values`: anything but an array or `None` raises; a
   * `None` array fails exactly when `not_available_value` is unset.
   */
  lemma FromValuesErrors(m: MetricSpec, median: seq<Float> -> Float, std: seq<Float> -> Float)
    ensures FromValues(m, Unsupported, median, std) == Err(UndefinedDataType)
    ensures FromValues(m, NoneValue, median, std).Err? <==> m.notAvailable.None?
  {
  }

  /** `first_k` never changes the outcome of a constructed `Metrics`. */
  lemma FirstKIgnored(m: MetricSpec, k: Option<int>, values: Input,
                      median: seq<Float> -> Float, std: seq<Float> -> Float)
    requires ValidSpec(m) && ValidSpec(m.(firstK := k))
    ensures FromValues(m.(firstK := k), values, median, std) == FromValues(m, values, median, std)
  {
    if m.lastK.Some? {
      assert m.(firstK := k) == m;
    } else if values.Array? {
      assert Truncate(m.(firstK := k), values.rows) == values.rows == Truncate(m, values.rows);
      assert Prepare(m.(firstK := k), values.rows) == Prepare(m, values.rows);
    }
  }

  /** With `last_k` set, only the last `last_k` columns of each row are used. */
  lemma LastKKeepsTail(m: MetricSpec, rows: seq<seq<Float>>, i: nat)
    requires ValidSpec(m) && m.lastK.Some? && m.lastK.value > 0 && i < |rows|
    ensures |Truncate(m, rows)[i]| == if m.lastK.value < |rows[i]| then m.lastK.value else |rows[i]|
    ensures Truncate(m, rows)[i] == rows[i][|rows[i]| - |Truncate(m, rows)[i]|..]
  {
    TakeLast(rows[i], m.lastK.value);
  }
}
