/**
 * `RunType`: how long a job asks for and on which Slurm partition it goes.
 * The debugging run types ask for a fixed time, the full run converts the
 * requested days, hours and minutes, optionally shortened for several GPUs,
 * into a `d-h:m:00` time and the shortest partition that fits it.
 */
module Queues {
  import opened Wrappers
  import opened PyStr

  datatype RunType = Full | Test | H1 | H4 | H8 | H16 | H24

  /** What the modelled code raises: an index past the epoch-time table, a failed `assert`. */
  datatype QueueError = IndexError | AssertionFailed

  /** Normalised epoch times with 0, 1, 2, 3 and 4 or more GPUs. */
  const EpochTime: seq<int> := [60, 60, 35, 21, 17]

  /** `is_test()` */
  predicate IsTest(rt: RunType)
  {
    rt == Test
  }

  /**
   * `efficiency(num_gpus)`: the share of the one-GPU time a run needs. The
   * count is capped at 4; a negative count indexes from the end of the table,
   * and one below -5 is past it.
   */
  function Efficiency(numGpus: int): (r: Outcome<real, QueueError>)
    ensures r.Ok? <==> numGpus >= -5
    ensures r.Ok? ==> 17.0 / 60.0 <= r.value <= 1.0
    ensures numGpus <= 1 && r.Ok? && numGpus >= 0 ==> r.value == 1.0
  {
    var n := if numGpus < |EpochTime| - 1 then numGpus else |EpochTime| - 1;
    if n < -|EpochTime| then Err(IndexError)
    else
      var i := if n < 0 then |EpochTime| + n else n;
      Ok(EpochTime[i] as real / EpochTime[0] as real)
  }

  /** More GPUs never need more time. */
  lemma EfficiencyMonotone(a: nat, b: nat)
    requires a <= b
    ensures Efficiency(b).value <= Efficiency(a).value
  {
  }

  /** `int(x)`: truncation toward zero. */
  function Trunc(x: real): (r: int)
    ensures x >= 0.0 ==> 0 <= r && r as real <= x < r as real + 1.0
    ensures x < 0.0 ==> r <= 0 && r as real - 1.0 < x <= r as real
  {
    if x >= 0.0 then x.Floor else -((-x).Floor)
  }

  /** Rounding up to the next multiple of 5 minutes. */
  function RoundUp5(t: int): (r: int)
    ensures r % 5 == 0 && t <= r < t + 5
  {
    var m := t % 5;
    if m > 0 then t + (5 - m) else t
  }

  /** Rounding up to a multiple of 5 keeps the order. */
  lemma RoundUp5Monotone(a: int, b: int)
    requires a <= b
    ensures RoundUp5(a) <= RoundUp5(b)
  {
  }

  /**
   * `scale_by_gpus(total, num_gpus, safety)`: a test run keeps its time;
   * otherwise the safety margin is kept, the rest is shortened by the GPU
   * efficiency (truncated to whole minutes) and the sum is rounded up to 5
   * minutes.
   */
  function ScaleByGpus(rt: RunType, total: int, numGpus: int, safety: int): (r: Outcome<int, QueueError>)
    ensures IsTest(rt) ==> r == Ok(total)
    ensures !IsTest(rt) ==> (r.Ok? <==> numGpus >= -5)
  {
    if IsTest(rt) then Ok(total)
    else match Efficiency(numGpus)
      case Err(e) => Err(e)
      case Ok(eff) =>
        var kept := if safety < total then safety else total;
        Ok(RoundUp5(Shortened(kept, total, eff)))
  }

  /**
   * A scaled time is a multiple of 5 minutes, keeps at least the safety
   * margin (or the whole time when that is shorter), and is never more than
   * the unscaled time rounded up to 5 minutes.
   */
  lemma ScaleBounds(rt: RunType, total: int, numGpus: int, safety: int)
    requires !IsTest(rt) && numGpus >= -5
    ensures var r := ScaleByGpus(rt, total, numGpus, safety).value;
            && r % 5 == 0
            && r >= (if safety < total then safety else total)
            && r <= RoundUp5(total)
  {
    var eff := Efficiency(numGpus).value;
    var kept := if safety < total then safety else total;
    var t := Shortened(kept, total, eff);
    assert ScaleByGpus(rt, total, numGpus, safety) == Ok(RoundUp5(t));
    RoundUp5Monotone(t, total);
  }

  /**
   * `safety + int(total * efficiency)` once `kept` minutes are set aside:
   * the kept minutes plus the shortened rest, truncated to whole minutes.
   */
  function Shortened(kept: int, total: int, eff: real): (t: int)
    requires kept <= total && 0.0 <= eff <= 1.0
    ensures kept <= t <= total
  {
    var rest := (total - kept) as real;
    Shrink(rest, eff);
    kept + Trunc(rest * eff)
  }

  /** Scaling a non-negative amount by a share of at most one. */
  lemma Shrink(x: real, e: real)
    requires x >= 0.0 && 0.0 <= e <= 1.0
    ensures 0.0 <= x * e <= x
  {
    assert x * e <= x * 1.0;
  }

  /** `divmod(total, 60)` then `divmod(hours, 24)`: floor division, as in Python. */
  function Decompose(total: int): (dhm: (int, int, int))
  {
    var hours, minutes := total / 60, total % 60;
    (hours / 24, hours % 24, minutes)
  }

  /** The parts recombine to the total, with hours below 24 and minutes below 60. */
  lemma DecomposeSpec(total: int)
    ensures var (d, h, m) := Decompose(total);
            && 0 <= h < 24 && 0 <= m < 60
            && d * 1440 + h * 60 + m == total
            && (total >= 0 ==> d >= 0)
  {
  }

  /** `'%d-%d:%d:00' % (days, hours, minutes)` */
  function TimeText(total: int): string
  {
    var (d, h, m) := Decompose(total);
    IntToString(d) + "-" + IntToString(h) + ":" + IntToString(m) + ":00"
  }

  /** The Slurm partitions a job can be placed on without an explicit queue. */
  datatype Partition = TestPartition | DayPartition | WeekPartition | MonthPartition

  /** The partition's name as Slurm knows it. */
  function PartitionName(p: Partition): string
  {
    match p
    case TestPartition => "test"
    case DayPartition => "day"
    case WeekPartition => "week"
    case MonthPartition => "month"
  }

  /**
   * The partition picked when none is given: `test` up to 15 minutes, `day`
   * up to a day, `week` up to a week, `month` beyond.
   */
  function QueueFor(total: int): (p: Partition)
    ensures p == TestPartition <==> total <= 15
    ensures p == DayPartition <==> 15 < total <= 1440
    ensures p == WeekPartition <==> 1440 < total <= 10080
    ensures p == MonthPartition <==> total > 10080
  {
    var p := TestPartition;
    var p := if total > 15 then DayPartition else p;
    var p := if total > 24 * 60 then WeekPartition else p;
    if total > 7 * 24 * 60 then MonthPartition else p
  }

  /** The fixed time of each debugging run type. */
  function FixedHours(rt: RunType): nat
    requires !rt.Full? && !rt.Test?
  {
    match rt
    case H1 => 1
    case H4 => 4
    case H8 => 8
    case H16 => 16
    case H24 => 24
  }

  /**
   * `get_time_partition(test_minutes, days, hours, minutes, queue, num_gpus,
   * safety_minutes)`: the partition and the time string.
   */
  function GetTimePartition(rt: RunType, testMinutes: int, days: int, hours: int, minutes: int,
                            queue: Option<string>, numGpus: int, safety: int): (r: Outcome<(string, string), QueueError>)
    ensures rt.Test? ==> (r.Ok? <==> testMinutes <= 15)
    ensures rt.Test? && r.Ok? ==> r.value == ("test", IntToString(testMinutes) + ":00")
    ensures !rt.Test? && !rt.Full? ==> r == Ok(("day", NatToString(FixedHours(rt)) + ":0:00"))
    ensures rt.Full? && queue.Some? && r.Ok? ==> r.value.0 == queue.value
  {
    if rt.Test? then
      if testMinutes <= 15 then Ok(("test", IntToString(testMinutes) + ":00")) else Err(AssertionFailed)
    else if !rt.Full? then Ok(("day", NatToString(FixedHours(rt)) + ":0:00"))
    else FullPartition(days * 24 * 60 + hours * 60 + minutes, queue, numGpus, safety)
  }

  /** A full run of `total` minutes: scaled unless there is one GPU, then placed. */
  function FullPartition(total: int, queue: Option<string>, numGpus: int, safety: int): (r: Outcome<(string, string), QueueError>)
    ensures queue.Some? && r.Ok? ==> r.value.0 == queue.value
  {
    if numGpus == 1 then Ok(Placed(total, queue))
    else match ScaleByGpus(Full, total, numGpus, safety)
      case Err(e) => Err(e)
      case Ok(t) => Ok(Placed(t, queue))
  }

  /** The queue (the given one, else the shortest that fits) and the time string for `t` minutes. */
  function Placed(t: int, queue: Option<string>): (string, string)
  {
    (queue.GetOr(PartitionName(QueueFor(t))), TimeText(t))
  }

  /**
   * A full run: with one GPU the requested time is used as it is; the time
   * string decomposes the (possibly scaled) total, and without an explicit
   * queue the partition is the shortest one that fits that total.
   */
  lemma FullRunSpec(days: int, hours: int, minutes: int, queue: Option<string>, numGpus: int, safety: int, testMinutes: int)
    requires numGpus >= -5
    ensures var total := days * 24 * 60 + hours * 60 + minutes;
            var t := if numGpus == 1 then total else ScaleByGpus(Full, total, numGpus, safety).value;
            var r := GetTimePartition(Full, testMinutes, days, hours, minutes, queue, numGpus, safety);
            && r.Ok?
            && r.value.1 == TimeText(t)
            && (queue.None? ==> r.value.0 == PartitionName(QueueFor(t)))
  {
    FullRunTotal(days, hours, minutes, queue, numGpus, safety, testMinutes);
    var total := days * 24 * 60 + hours * 60 + minutes;
    if numGpus == 1 {
      SingleGpuPlaced(total, queue, safety);
    } else {
      ScaledPlaced(total, queue, numGpus, safety);
    }
  }

  /** A full run is placed by its total of minutes. */
  lemma FullRunTotal(days: int, hours: int, minutes: int, queue: Option<string>, numGpus: int, safety: int, testMinutes: int)
    ensures GetTimePartition(Full, testMinutes, days, hours, minutes, queue, numGpus, safety)
         == FullPartition(days * 24 * 60 + hours * 60 + minutes, queue, numGpus, safety)
  {
  }

  /** With one GPU the total is placed unscaled. */
  lemma SingleGpuPlaced(total: int, queue: Option<string>, safety: int)
    ensures FullPartition(total, queue, 1, safety) == Ok(Placed(total, queue))
  {
  }

  /** With any other valid GPU count the scaled total is placed. */
  lemma ScaledPlaced(total: int, queue: Option<string>, numGpus: int, safety: int)
    requires numGpus != 1 && numGpus >= -5
    ensures FullPartition(total, queue, numGpus, safety) == Ok(Placed(ScaleByGpus(Full, total, numGpus, safety).value, queue))
  {
  }

  /** Different non-negative totals give different time strings. */
  lemma {:induction false} TimeTextInjective(t1: nat, t2: nat)
    requires TimeText(t1) == TimeText(t2)
    ensures t1 == t2
  {
    DecomposeSpec(t1);
    DecomposeSpec(t2);
    var (d1, h1, m1) := Decompose(t1);
    var (d2, h2, m2) := Decompose(t2);
    TimeTextPieces(d1, h1, m1);
    TimeTextPieces(d2, h2, m2);
    var s := TimeText(t1);
    var rest := Split(s, "-")[1];
    NatToStringInjective(d1, d2);
    NatToStringInjective(h1, h2);
    NatToStringInjective(m1, m2);
  }

  /** A decimal text holds neither separator of the time string. */
  lemma DigitsOnly(s: string)
    requires forall i :: 0 <= i < |s| ==> IsDigit(s[i])
    ensures '-' !in s && ':' !in s
  {
  }

  /** The time string splits on `-` into days and the rest, and the rest on `:` into hours, minutes and `00`. */
  lemma TimeTextPieces(d: nat, h: nat, m: nat)
    ensures var s := IntToString(d) + "-" + IntToString(h) + ":" + IntToString(m) + ":00";
            var rest := NatToString(h) + ":" + NatToString(m) + ":00";
            && Split(s, "-") == [NatToString(d), rest]
            && Split(rest, ":") == [NatToString(h), NatToString(m), "00"]
  {
    var D, H, M := NatToString(d), NatToString(h), NatToString(m);
    DigitsOnly(D);
    DigitsOnly(H);
    DigitsOnly(M);
    DaysPiece(D, H, M);
    RestPieces(H, M);
  }

  lemma DaysPiece(D: string, H: string, M: string)
    requires '-' !in D && '-' !in H && '-' !in M
    ensures Split(D + "-" + H + ":" + M + ":00", "-") == [D, H + ":" + M + ":00"]
  {
    var rest := H + ":" + M + ":00";
    assert '-' !in rest;
    assert D + "-" + H + ":" + M + ":00" == D + ['-'] + rest;
    SplitClean(D, rest, '-');
    SplitAbsent(rest, '-');
  }

  lemma RestPieces(H: string, M: string)
    requires ':' !in H && ':' !in M
    ensures Split(H + ":" + M + ":00", ":") == [H, M, "00"]
  {
    assert H + ":" + M + ":00" == H + [':'] + (M + [':'] + "00");
    SplitClean(H, M + [':'] + "00", ':');
    SplitClean(M, "00", ':');
    SplitAbsent("00", ':');
  }
}
