/**
 * Slurm job states as reported by `sacct`, the reading of `sacct`'s
 * output into one state, and the decision a polling callback takes on each
 * state it reads.
 */
module Callbacks {
  import opened Wrappers
  import opened PyStr

  /** The states a job can be in, in the order they are listed. */
  datatype JobState = Pending | Running | Completed | Failed | Cancelled | JobNotFound

  /** The enum value of each state. */
  function Value(s: JobState): nat
  {
    match s
    case Pending => 0
    case Running => 10
    case Completed => 20
    case Failed => 30
    case Cancelled => 40
    case JobNotFound => 50
  }

  /** Different states have different values. */
  lemma ValueInjective(a: JobState, b: JobState)
    requires Value(a) == Value(b)
    ensures a == b
  {
  }

  /** `is_terminated()`: the job has ended, or is not known. */
  predicate IsTerminated(s: JobState)
  {
    s in [Completed, Failed, Cancelled, JobNotFound]
  }

  /** The terminated states are exactly those listed after `Running`. */
  lemma TerminatedByValue(s: JobState)
    ensures IsTerminated(s) <==> Value(s) > Value(Running)
  {
  }

  /** `self.is_before(state)`: `state` is still running or pending and comes before `self`. */
  predicate IsBefore(self: JobState, state: JobState)
  {
    if IsTerminated(state) then false else Value(state) < Value(self)
  }

  /** Only pending and running states are ever before another state, and never before themselves. */
  lemma IsBeforeSpec(self: JobState, state: JobState)
    ensures IsBefore(self, state) ==> state in [Pending, Running] && state != self
    ensures IsBefore(self, state) <==> (state == Pending && self != Pending) || (state == Running && Value(self) > Value(Running))
  {
  }

  /** What the modelled code raises. */
  datatype CallbackError =
    | UnknownState(state: string)
    | StatesDiffer(jobId: string, states: seq<JobState>)

  /** The `sacct` words that all mean a failed job. */
  const FailedNames: seq<string> := ["BOOT_FAIL", "NODE_FAIL", "DEADLINE", "FAILED", "OUT_OF_MEMORY", "PREEMPTED", "TIMEOUT"]

  /** `JobState.parse(state)` */
  function Parse(state: string): (r: Outcome<JobState, CallbackError>)
    ensures r.Err? ==> r.error == UnknownState(state)
    ensures r.Ok? ==> r.value != JobNotFound
    ensures r == Ok(Failed) <==> state in FailedNames
  {
    if state in ["PENDING"] then Ok(Pending)
    else if state in ["COMPLETED"] then Ok(Completed)
    else if state in ["RUNNING"] then Ok(Running)
    else if state in FailedNames then Ok(Failed)
    else if state in ["CANCELLED"] then Ok(Cancelled)
    else Err(UnknownState(state))
  }

  /** The word `sacct` prints for a state (for a failed job, one of several). */
  function SacctName(s: JobState): string
    requires s != JobNotFound
  {
    match s
    case Pending => "PENDING"
    case Running => "RUNNING"
    case Completed => "COMPLETED"
    case Failed => "FAILED"
    case Cancelled => "CANCELLED"
  }

  /** Parsing succeeds on exactly the eleven listed words. */
  lemma ParseKnown(state: string)
    ensures Parse(state).Ok? <==> state in ["PENDING", "COMPLETED", "RUNNING", "CANCELLED"] + FailedNames
  {
  }

  /** Every state `sacct` can report is parsed back from its name. */
  lemma ParseName(s: JobState)
    requires s != JobNotFound
    ensures Parse(SacctName(s)) == Ok(s)
  {
  }

  /** The list comprehension `[cls.parse(line) for line in lines]`: the first unknown word raises. */
  function ParseAll(lines: seq<string>): (r: Outcome<seq<JobState>, CallbackError>)
    ensures r.Ok? ==> |r.value| == |lines| && forall i :: 0 <= i < |lines| ==> Parse(lines[i]) == Ok(r.value[i])
    ensures r.Err? ==> exists i :: 0 <= i < |lines| && Parse(lines[i]) == Err(r.error)
  {
    if lines == [] then Ok([])
    else match Parse(lines[0])
      case Err(e) => Err(e)
      case Ok(s) =>
        match ParseAll(lines[1..])
        case Err(e) => Err(e)
        case Ok(rest) => Ok([s] + rest)
  }

  /** Every word parses, so the comprehension does not raise. */
  lemma {:induction false} ParseAllOk(lines: seq<string>)
    requires forall i :: 0 <= i < |lines| ==> Parse(lines[i]).Ok?
    ensures ParseAll(lines).Ok?
  {
    if lines != [] {
      ParseAllOk(lines[1..]);
    }
  }

  /** `[line.strip() for line in lines]` */
  function Strips(lines: seq<string>): (r: seq<string>)
    ensures |r| == |lines| && forall i :: 0 <= i < |lines| ==> r[i] == Strip(lines[i])
  {
    if lines == [] then [] else [Strip(lines[0])] + Strips(lines[1..])
  }

  /** The characters of `str(out)` for the bytes `out`: newlines show as a backslash and `n`. */
  function Escaped(raw: string): (r: string)
    ensures '\n' !in raw ==> r == raw
  {
    if raw == [] then []
    else (if raw[0] == '\n' then "\\n" else [raw[0]]) + Escaped(raw[1..])
  }

  /** `str(out)` of a bytes value: `b'` and `'` around the escaped text. */
  function BytesText(raw: string): string
  {
    "b'" + Escaped(raw) + "'"
  }

  /** `all([s == states[0] for s in states])` */
  predicate AllSame(states: seq<JobState>)
    requires |states| >= 1
  {
    forall i :: 0 <= i < |states| ==> states[i] == states[0]
  }

  /**
   * `get_job_state(job_id)` once `sacct` has printed `raw`: no output or at
   * most three lines mean the job is not known; otherwise the two header lines
   * and the closing `'` are dropped, the rest is stripped and parsed, and all
   * of it must be the same state.
   */
  function JobStateOf(jobId: string, raw: string): (r: Outcome<JobState, CallbackError>)
    ensures raw == [] ==> r == Ok(JobNotFound)
    ensures r.Err? && r.error.StatesDiffer? ==> r.error.jobId == jobId
  {
    if |raw| == 0 then Ok(JobNotFound)
    else FromLines(jobId, Split(BytesText(raw), "\\n"))
  }

  /** The lines of the output: at most three mean the job is not known. */
  function FromLines(jobId: string, lines: seq<string>): (r: Outcome<JobState, CallbackError>)
    ensures |lines| <= 3 ==> r == Ok(JobNotFound)
    ensures |lines| > 3 ==> r == Verdict(jobId, Strips(lines)[2..|lines| - 1])
  {
    if |lines| <= 3 then Ok(JobNotFound)
    else Verdict(jobId, Strips(lines)[2..|lines| - 1])
  }

  /** The rows between the header and the closing `'`, parsed; they must all agree. */
  function Verdict(jobId: string, body: seq<string>): (r: Outcome<JobState, CallbackError>)
    requires |body| >= 1
    ensures r.Ok? ==> forall i :: 0 <= i < |body| ==> Parse(body[i]) == Ok(r.value)
    ensures r.Err? && r.error.StatesDiffer? ==> r.error.jobId == jobId
  {
    match ParseAll(body)
    case Err(e) => Err(e)
    case Ok(states) =>
      if AllSame(states) then Ok(states[0]) else Err(StatesDiffer(jobId, states))
  }

  /** Splitting off a first piece that does not hold the separator's first character. */
  lemma {:induction false} SplitOff(x: string, y: string, sep: string)
    requires |sep| > 0 && sep[0] !in x
    ensures Split(x + sep + y, sep) == [x] + Split(y, sep)
    decreases |x|
  {
    var s := x + sep + y;
    if x == [] {
      assert s[..|sep|] == sep && s[|sep|..] == y;
    } else {
      assert s[..|sep|] != sep by { assert s[0] == x[0] != sep[0]; }
      assert s[1..] == x[1..] + sep + y;
      SplitOff(x[1..], y, sep);
      assert [s[0]] + x[1..] == x;
    }
  }

  /** A string without the separator's first character is one piece. */
  lemma {:induction false} SplitNone(s: string, sep: string)
    requires |sep| > 0 && sep[0] !in s
    ensures Split(s, sep) == [s]
    decreases |s|
  {
    if |s| >= |sep| {
      assert s[..|sep|] != sep by { assert s[0] != sep[0]; }
      SplitNone(s[1..], sep);
      assert [s[0]] + s[1..] == s;
    }
  }

  /** No piece holds the given character. */
  predicate Clean(parts: seq<string>, c: char)
  {
    forall i :: 0 <= i < |parts| ==> c !in parts[i]
  }

  /** Splitting a join of clean pieces gives the pieces back. */
  lemma {:induction false} SplitJoinSep(parts: seq<string>, sep: string)
    requires |parts| >= 1 && |sep| > 0 && Clean(parts, sep[0])
    ensures Split(Join(sep, parts), sep) == parts
  {
    if |parts| == 1 {
      SplitNone(parts[0], sep);
    } else {
      SplitJoinSep(parts[1..], sep);
      SplitOff(parts[0], Join(sep, parts[1..]), sep);
      assert parts == [parts[0]] + parts[1..];
    }
  }

  lemma {:induction false} EscapedAppend(a: string, b: string)
    ensures Escaped(a + b) == Escaped(a) + Escaped(b)
    decreases |a|
  {
    if a == [] {
      assert a + b == b;
    } else {
      assert (a + b)[0] == a[0] && (a + b)[1..] == a[1..] + b;
      EscapedAppend(a[1..], b);
    }
  }

  /** Escaping newline-joined lines joins them with a backslash and `n`. */
  lemma {:induction false} EscapedJoin(lines: seq<string>)
    requires |lines| >= 1 && Clean(lines, '\n')
    ensures Escaped(Join("\n", lines)) == Join("\\n", lines)
  {
    if |lines| > 1 {
      EscapedJoin(lines[1..]);
      EscapedAppend(lines[0] + "\n", Join("\n", lines[1..]));
      EscapedAppend(lines[0], "\n");
    }
  }

  /** The lines of `str(out)`: the first carries `b'`, the last the closing `'`. */
  function Framed(lines: seq<string>): (r: seq<string>)
    requires |lines| >= 2
    ensures |r| == |lines| && forall i :: 0 < i < |lines| - 1 ==> r[i] == lines[i]
  {
    ["b'" + lines[0]] + lines[1..|lines| - 1] + [lines[|lines| - 1] + "'"]
  }

  lemma JoinFramed(lines: seq<string>, sep: string)
    requires |lines| >= 2
    ensures Join(sep, Framed(lines)) == "b'" + Join(sep, lines) + "'"
  {
    var n := |lines|;
    var g := ["b'" + lines[0]] + lines[1..];
    JoinFirst(sep, "b'", lines);
    assert Framed(lines) == g[..n - 1] + [g[n - 1] + "'"];
    JoinLast(sep, g[..n - 1], g[n - 1], "'");
    assert g[..n - 1] + [g[n - 1]] == g;
  }

  /** A prefix on the first piece is a prefix on the join. */
  lemma JoinFirst(sep: string, p: string, parts: seq<string>)
    requires |parts| >= 1
    ensures Join(sep, [p + parts[0]] + parts[1..]) == p + Join(sep, parts)
  {
    if |parts| > 1 {
      JoinCons(sep, p + parts[0], parts[1..]);
      JoinCons(sep, parts[0], parts[1..]);
      assert parts == [parts[0]] + parts[1..];
    }
  }

  /** A suffix on an appended last piece is a suffix on the join. */
  lemma {:induction false} JoinLast(sep: string, init: seq<string>, last: string, q: string)
    requires |init| >= 1
    ensures Join(sep, init + [last + q]) == Join(sep, init + [last]) + q
    decreases |init|
  {
    if |init| == 1 {
      assert (init + [last + q])[1..] == [last + q];
      assert (init + [last])[1..] == [last];
    } else {
      assert (init + [last + q])[1..] == init[1..] + [last + q];
      assert (init + [last])[1..] == init[1..] + [last];
      JoinLast(sep, init[1..], last, q);
    }
  }

  /** The lines `str(out).split("\\n")` finds in output made of clean lines. */
  lemma BytesLines(lines: seq<string>)
    requires |lines| >= 2 && Clean(lines, '\n') && Clean(lines, '\\')
    ensures Split(BytesText(Join("\n", lines)), "\\n") == Framed(lines)
  {
    EscapedJoin(lines);
    JoinFramed(lines, "\\n");
    FramedClean(lines);
    SplitJoinSep(Framed(lines), "\\n");
  }

  /** The `b'` and `'` added around the lines bring no backslash. */
  lemma FramedClean(lines: seq<string>)
    requires |lines| >= 2 && Clean(lines, '\\')
    ensures Clean(Framed(lines), '\\')
  {
    assert '\\' !in "b'" + lines[0];
    assert '\\' !in lines[|lines| - 1] + "'";
  }

  /** For clean lines, reading the output comes down to the verdict on the stripped rows. */
  lemma SacctRows(jobId: string, lines: seq<string>)
    requires |lines| >= 4 && Clean(lines, '\n') && Clean(lines, '\\')
    ensures JobStateOf(jobId, Join("\n", lines)) == Verdict(jobId, Strips(lines[2..|lines| - 1]))
  {
    SacctFramed(jobId, lines);
    MiddleRows(lines);
  }

  /** For clean lines, the output reads as the framed lines. */
  lemma SacctFramed(jobId: string, lines: seq<string>)
    requires |lines| >= 4 && Clean(lines, '\n') && Clean(lines, '\\')
    ensures JobStateOf(jobId, Join("\n", lines)) == Verdict(jobId, Strips(Framed(lines))[2..|lines| - 1])
  {
    JoinLong("\n", lines);
    BytesLines(lines);
    ReadFramed(jobId, lines);
  }

  /** Output that splits into the framed lines comes down to the verdict on their rows. */
  lemma ReadFramed(jobId: string, lines: seq<string>)
    requires |lines| >= 4 && |Join("\n", lines)| > 0
    requires Split(BytesText(Join("\n", lines)), "\\n") == Framed(lines)
    ensures JobStateOf(jobId, Join("\n", lines)) == Verdict(jobId, Strips(Framed(lines))[2..|lines| - 1])
  {
    ReadLines(jobId, Join("\n", lines), Framed(lines));
  }

  /** Output that splits into more than three lines comes down to the verdict on its rows. */
  lemma ReadLines(jobId: string, raw: string, split: seq<string>)
    requires |raw| > 0 && Split(BytesText(raw), "\\n") == split && |split| > 3
    ensures JobStateOf(jobId, raw) == Verdict(jobId, Strips(split)[2..|split| - 1])
  {
  }

  /** Two or more pieces joined hold the separator, so the join is not empty. */
  lemma JoinLong(sep: string, parts: seq<string>)
    requires |parts| >= 2 && |sep| > 0
    ensures |Join(sep, parts)| > 0
  {
    JoinCons(sep, parts[0], parts[1..]);
    assert [parts[0]] + parts[1..] == parts;
  }

  /** Framing the first and last line leaves the rows between them alone. */
  lemma MiddleRows(lines: seq<string>)
    requires |lines| >= 4
    ensures Strips(Framed(lines))[2..|lines| - 1] == Strips(lines[2..|lines| - 1])
  {
    var n := |lines|;
    var a, b := Strips(Framed(lines))[2..n - 1], Strips(lines[2..n - 1]);
    assert |a| == |b|;
    forall i | 0 <= i < |a| ensures a[i] == b[i] {
      assert a[i] == Strip(Framed(lines)[i + 2]) == Strip(lines[i + 2]);
    }
  }

  /**
   * Output of two header lines, one or more rows and a final newline whose
   * rows all name the same state reads as that state.
   */
  lemma SacctAgreeing(jobId: string, lines: seq<string>, s: JobState)
    requires |lines| >= 4 && Clean(lines, '\n') && Clean(lines, '\\')
    requires forall i :: 2 <= i < |lines| - 1 ==> Parse(Strip(lines[i])) == Ok(s)
    ensures JobStateOf(jobId, Join("\n", lines)) == Ok(s)
  {
    SacctRows(jobId, lines);
    var body := Strips(lines[2..|lines| - 1]);
    RowsParse(lines, s);
    VerdictAgreeing(jobId, body, s);
  }

  /** The stripped rows between the header and the closing line all parse to `s`. */
  lemma RowsParse(lines: seq<string>, s: JobState)
    requires |lines| >= 4
    requires forall i :: 2 <= i < |lines| - 1 ==> Parse(Strip(lines[i])) == Ok(s)
    ensures var body := Strips(lines[2..|lines| - 1]);
            |body| >= 1 && forall k :: 0 <= k < |body| ==> Parse(body[k]) == Ok(s)
  {
    var body := Strips(lines[2..|lines| - 1]);
    forall k | 0 <= k < |body| ensures Parse(body[k]) == Ok(s) {
      assert body[k] == Strip(lines[k + 2]);
    }
  }

  /** Rows that all parse to one state give that state. */
  lemma VerdictAgreeing(jobId: string, body: seq<string>, s: JobState)
    requires |body| >= 1 && forall k :: 0 <= k < |body| ==> Parse(body[k]) == Ok(s)
    ensures Verdict(jobId, body) == Ok(s)
  {
    ParseAllOk(body);
    var states := ParseAll(body).value;
    assert forall i :: 0 <= i < |states| ==> states[i] == s;
  }

  /** Stripped rows that all parse, but not to one state, raise. */
  lemma SacctDiffering(jobId: string, lines: seq<string>, i: nat, j: nat)
    requires |lines| >= 4 && Clean(lines, '\n') && Clean(lines, '\\')
    requires var rows := Strips(lines[2..|lines| - 1]);
             && (forall k :: 0 <= k < |rows| ==> Parse(rows[k]).Ok?)
             && i < |rows| && j < |rows| && Parse(rows[i]) != Parse(rows[j])
    ensures JobStateOf(jobId, Join("\n", lines)).Err?
    ensures JobStateOf(jobId, Join("\n", lines)).error.StatesDiffer?
  {
    SacctRows(jobId, lines);
    VerdictDiffering(jobId, Strips(lines[2..|lines| - 1]), i, j);
  }

  /** Rows that all parse but not to one state make the verdict raise. */
  lemma VerdictDiffering(jobId: string, body: seq<string>, i: nat, j: nat)
    requires forall k :: 0 <= k < |body| ==> Parse(body[k]).Ok?
    requires i < |body| && j < |body| && Parse(body[i]) != Parse(body[j])
    ensures ParseAll(body).Ok? && Verdict(jobId, body) == Err(StatesDiffer(jobId, ParseAll(body).value))
  {
    ParseAllOk(body);
    var states := ParseAll(body).value;
    assert states[i] != states[j];
    assert !AllSame(states);
  }

  /** Output of at most three clean lines means the job is not known. */
  lemma SacctShort(jobId: string, lines: seq<string>)
    requires 2 <= |lines| <= 3 && Clean(lines, '\n') && Clean(lines, '\\')
    ensures JobStateOf(jobId, Join("\n", lines)) == Ok(JobNotFound)
  {
    BytesLines(lines);
  }

  /** What a callback does after reading a state. */
  datatype Decision = StopAtTarget | StopAtOther | KeepPolling

  /** `PrintJobStateCallback._run_fun`: stop once the job has ended. */
  function PrintDecision(state: JobState): (d: Decision)
    ensures d != StopAtTarget
    ensures d == KeepPolling <==> state == Pending || state == Running
  {
    if IsTerminated(state) then StopAtOther
    else
      assert state == Pending || state == Running by { TerminatedByValue(state); }
      KeepPolling
  }

  /** `ReachedJobStateCallback._run_fun`, as written. */
  function ReachedDecision(target: JobState, state: JobState): (d: Decision)
    ensures d == StopAtTarget <==> state == target
  {
    if state == target then StopAtTarget
    else if IsTerminated(state) || IsBefore(target, state) then StopAtOther
    else KeepPolling
  }

  /**
   * As written, the callback keeps polling in one case only: it waits for
   * `Pending` and the job is already running.
   */
  lemma ReachedKeepsPolling(target: JobState, state: JobState)
    ensures ReachedDecision(target, state) == KeepPolling <==> target == Pending && state == Running
  {
  }

  /** A callback waiting for `Running` gives up on a job that is still pending. */
  lemma ReachedStopsBeforeTarget()
    ensures ReachedDecision(Running, Pending) == StopAtOther
    ensures ReachedDecision(Completed, Running) == StopAtOther
  {
  }

  /**
   * The decision with the comparison the right way round: give up only when
   * the job has ended or has gone past the target.
   */
  function IntendedDecision(target: JobState, state: JobState): (d: Decision)
    ensures d == StopAtTarget <==> state == target
  {
    if state == target then StopAtTarget
    else if IsTerminated(state) || IsBefore(state, target) then StopAtOther
    else KeepPolling
  }

  /**
   * The corrected callback waits exactly while the job is pending or running
   * and has not yet reached the target, and gives up otherwise.
   */
  lemma IntendedDecisionSpec(target: JobState, state: JobState)
    ensures IntendedDecision(target, state) == KeepPolling <==> !IsTerminated(state) && Value(state) < Value(target)
    ensures IntendedDecision(target, state) == StopAtOther <==> state != target && (IsTerminated(state) || Value(state) > Value(target))
  {
  }
}
