/**
 * The read-only views a `GroupManager` offers over its groups (both copies of
 * groupmanager.py): sorting by a result with separator collapsing, column
 * alignment, and the CSV and LaTeX tables as the lines they print.
 */
module Tables {
  import opened Wrappers
  import opened PyStr
  import opened Metrics
  import opened Groups
  import opened StableSort
  import opened Seqs

  /** `self.empty_result`: what a group without the sort key is sorted as. */
  const EmptyResult: Result := Result("__gm_empty__", Text("N/A"), 0)

  /** `g.results.get(sort_by, self.empty_result)` */
  function SortResult(g: Group, sortBy: string): (r: Result)
    ensures sortBy !in g.results ==> r == EmptyResult
  {
    if sortBy in g.results then g.results[sortBy] else EmptyResult
  }

  /**
   * The position of a result in the sort: string values (N/A) and NaN form the
   * lowest tier, numbers the upper tier ordered by value.
   */
  function Rank(r: Result): Key
  {
    if r.value.Number? && r.value.f.Fin? then Key(1, r.value.f.r) else Key(0, 0.0)
  }

  /**
   * The ranking agrees with `Result.__lt__` wherever that is a strict order: for
   * results without NaN that are not both strings, one ranks below the other
   * exactly when it is `<` the other.
   */
  lemma RankAgreesWithLess(a: Result, b: Result)
    requires !(a.value.Text? && b.value.Text?)
    requires a.value.Number? ==> a.value.f.Fin?
    requires b.value.Number? ==> b.value.f.Fin?
    ensures KeyLess(Rank(a), Rank(b)) <==> Less(a, Some(b))
  {
  }

  /** The sort key of `sorted(..., key=..., reverse=descending)`; `reverse` sorts on the negated key. */
  function SortRank(g: Group, sortBy: string, descending: bool): Key
  {
    if descending then Negate(Rank(SortResult(g, sortBy))) else Rank(SortResult(g, sortBy))
  }

  function SortKey(sortBy: string, descending: bool): Group -> Key
  {
    g => SortRank(g, sortBy, descending)
  }

  /** The groups in table order before collapsing: unsorted when `sort_by` is empty. */
  function SortedBy(gs: seq<Group>, sortBy: string, descending: bool): seq<Group>
  {
    if |sortBy| == 0 then gs else Sort(gs, SortKey(sortBy, descending))
  }

  /** No group's result under `sortBy` is a NaN number. */
  predicate NaNFree(gs: seq<Group>, sortBy: string)
  {
    forall g :: g in gs ==> !(SortResult(g, sortBy).value.Number? && SortResult(g, sortBy).value.f.NaN?)
  }

  /**
   * Sorting by a result: the groups are rearranged, not changed. When no
   * result is NaN, where `Result.__lt__` orders the numbers consistently, the
   * groups with finite numeric results appear in ascending order (descending
   * with `descending`), and groups with the same number keep their relative
   * order. Nothing is promised about the order among N/A groups.
   */
  lemma SortedByOrder(gs: seq<Group>, sortBy: string, descending: bool)
    requires |sortBy| > 0
    ensures multiset(SortedBy(gs, sortBy, descending)) == multiset(gs)
    ensures var s := SortedBy(gs, sortBy, descending);
            NaNFree(gs, sortBy) ==>
            forall i, j :: (0 <= i < j < |s|
              && SortResult(s[i], sortBy).value.Number? && SortResult(s[i], sortBy).value.f.Fin?
              && SortResult(s[j], sortBy).value.Number? && SortResult(s[j], sortBy).value.f.Fin?) ==>
              if descending then !Less(SortResult(s[i], sortBy), Some(SortResult(s[j], sortBy)))
              else !Less(SortResult(s[j], sortBy), Some(SortResult(s[i], sortBy)))
    ensures NaNFree(gs, sortBy) ==>
            forall k: Key :: k.tier != 0 ==>
              WithKey(SortedBy(gs, sortBy, descending), SortKey(sortBy, descending), k)
              == WithKey(gs, SortKey(sortBy, descending), k)
  {
    var key := SortKey(sortBy, descending);
    SortPerm(gs, key);
    SortSorted(gs, key);
    forall k ensures WithKey(Sort(gs, key), key, k) == WithKey(gs, key, k) {
      SortStable(gs, key, k);
    }
  }

  /**
   * With `descending`, every group holding a number comes before every group
   * whose result is missing or N/A.
   */
  lemma NumbersFirstWhenDescending(gs: seq<Group>, sortBy: string)
    requires |sortBy| > 0
    ensures var s := SortedBy(gs, sortBy, true);
            forall i, j :: (0 <= i < |s| && 0 <= j < |s| && SortResult(s[i], sortBy).value.Text?
              && SortResult(s[j], sortBy).value.Number? && SortResult(s[j], sortBy).value.f.Fin?) ==> j < i
  {
    SortSorted(gs, SortKey(sortBy, true));
    SortedNumbersFirst(Sort(gs, SortKey(sortBy, true)), sortBy);
  }

  lemma SortedNumbersFirst(s: seq<Group>, sortBy: string)
    requires Sorted(s, SortKey(sortBy, true))
    ensures forall i, j :: (0 <= i < |s| && 0 <= j < |s| && SortResult(s[i], sortBy).value.Text?
              && SortResult(s[j], sortBy).value.Number? && SortResult(s[j], sortBy).value.f.Fin?) ==> j < i
  {
    var key := SortKey(sortBy, true);
    forall i, j | 0 <= i < |s| && 0 <= j < |s| && SortResult(s[i], sortBy).value.Text?
      && SortResult(s[j], sortBy).value.Number? && SortResult(s[j], sortBy).value.f.Fin?
      ensures j < i
    {
      var ki, kj := SortRank(s[i], sortBy, true), SortRank(s[j], sortBy, true);
      assert ki == Key(0, 0.0) && kj.tier == -1;
    }
  }

  /** The collapsing loop of `sorted_results`: a separator right after a separator is dropped. */
  function Collapse(gs: seq<Group>): seq<Group>
  {
    if gs == [] then []
    else
      var last := gs[|gs| - 1];
      Collapse(gs[..|gs| - 1])
      + (if |gs| >= 2 && gs[|gs| - 2].Separator? && last.Separator? then [] else [last])
  }

  /** `sorted_results(sort_by, descending, no_consecutive_separators)`, on a copy of the list. */
  function SortedResultsOf(gs: seq<Group>, sortBy: string, descending: bool, collapse: bool): seq<Group>
  {
    var s := SortedBy(gs, sortBy, descending);
    if collapse then Collapse(s) else s
  }

  ghost predicate NoAdjacentSeparators(gs: seq<Group>)
  {
    forall i :: 0 <= i < |gs| - 1 ==> !(gs[i].Separator? && gs[i + 1].Separator?)
  }

  /** The groups that are not separators, in order. */
  function Plain(gs: seq<Group>): seq<Group>
  {
    if gs == [] then [] else (if gs[0].Group? then [gs[0]] else []) + Plain(gs[1..])
  }

  lemma {:induction false} PlainAppend(a: seq<Group>, b: seq<Group>)
    ensures Plain(a + b) == Plain(a) + Plain(b)
  {
    if a != [] {
      PlainAppend(a[1..], b);
      assert (a + b)[1..] == a[1..] + b;
    } else {
      assert a + b == b;
    }
  }

  /**
   * After collapsing no two separators are adjacent, every group that is not a
   * separator survives in its order, and the list ends in a separator exactly
   * when the input does.
   */
  lemma {:induction false} CollapseEffect(gs: seq<Group>)
    ensures NoAdjacentSeparators(Collapse(gs))
    ensures Plain(Collapse(gs)) == Plain(gs)
    ensures |Collapse(gs)| <= |gs| && (Collapse(gs) == [] <==> gs == [])
    ensures gs != [] ==> Collapse(gs)[|Collapse(gs)| - 1].Separator? == gs[|gs| - 1].Separator?
    decreases |gs|
  {
    if gs != [] {
      var init := gs[..|gs| - 1];
      var last := gs[|gs| - 1];
      CollapseEffect(init);
      var c := Collapse(init);
      var tail := if |gs| >= 2 && gs[|gs| - 2].Separator? && last.Separator? then [] else [last];
      assert Collapse(gs) == c + tail;
      PlainAppend(c, tail);
      PlainAppend(init, [last]);
      SplitLast(gs);
      if |gs| >= 2 {
        assert init[|init| - 1] == gs[|gs| - 2];
      }
    }
  }

  /** A list without adjacent separators is left as it is. */
  lemma {:induction false} CollapseKeeps(gs: seq<Group>)
    requires NoAdjacentSeparators(gs)
    ensures Collapse(gs) == gs
    decreases |gs|
  {
    if gs != [] {
      var init := gs[..|gs| - 1];
      forall i | 0 <= i < |init| - 1 ensures !(init[i].Separator? && init[i + 1].Separator?) {
        assert init[i] == gs[i] && init[i + 1] == gs[i + 1];
      }
      CollapseKeeps(init);
      if |gs| >= 2 {
        assert !(gs[|gs| - 2].Separator? && gs[|gs| - 1].Separator?);
      }
      SplitLast(gs);
    }
  }

  /** The widest entry of column `c` among `rows` (0 for rows too short to have one). */
  function MaxLen(rows: seq<seq<string>>, c: nat): nat
  {
    if rows == [] then 0
    else
      var m := MaxLen(rows[..|rows| - 1], c);
      var last := rows[|rows| - 1];
      var w := if c < |last| then |last[c]| else 0;
      if w > m then w else m
  }

  lemma {:induction false} MaxLenCovers(rows: seq<seq<string>>, c: nat)
    ensures forall j :: 0 <= j < |rows| && c < |rows[j]| ==> |rows[j][c]| <= MaxLen(rows, c)
    decreases |rows|
  {
    if rows != [] {
      MaxLenCovers(rows[..|rows| - 1], c);
      forall j | 0 <= j < |rows| - 1 && c < |rows[j]| ensures |rows[j][c]| <= MaxLen(rows, c) {
        assert rows[j] == rows[..|rows| - 1][j];
      }
    }
  }

  function Widths(rows: seq<seq<string>>, n: nat): (r: seq<nat>)
    ensures |r| == n && forall c :: 0 <= c < n ==> r[c] == MaxLen(rows, c)
  {
    seq(n, c requires 0 <= c < n => MaxLen(rows, c))
  }

  /** One line of `_align_strs`: a single field as it is, otherwise the padded fields joined by ` & `. */
  function AlignRow(fields: seq<string>, widths: seq<nat>): string
    requires |fields| == 1 || |fields| >= |widths|
  {
    if |fields| == 1 then fields[0]
    else Join(" & ", seq(|widths|, c requires 0 <= c < |widths| => PadRight(fields[c], widths[c])))
  }

  datatype TableError =
    | NoGroups         // `groups[0]` on an empty list
    | AlignIndex       // an IndexError inside `_align_strs`
    | RowFailed(cause: RenderError)

  /** `s.split('&')` for every line. */
  function SplitRows(strs: seq<string>): (rows: seq<seq<string>>)
    ensures |rows| == |strs| && forall j :: 0 <= j < |strs| ==> rows[j] == Split(strs[j], "&")
  {
    seq(|strs|, j requires 0 <= j < |strs| => Split(strs[j], "&"))
  }

  /**
   * `_align_strs(strs, '&')`: fails on an empty list, on a line with more fields
   * than the first, and on a multi-field line with fewer.
   */
  function AlignStrsOf(strs: seq<string>): (r: Outcome<seq<string>, TableError>)
    ensures r.Ok? ==> |r.value| == |strs|
  {
    if strs == [] then Err(AlignIndex)
    else
      var rows := SplitRows(strs);
      var n := |rows[0]|;
      if !(forall j :: 0 <= j < |rows| ==> |rows[j]| <= n) then Err(AlignIndex)
      else if !(forall j :: 0 <= j < |rows| ==> |rows[j]| == 1 || |rows[j]| == n) then Err(AlignIndex)
      else
        var widths := Widths(rows, n);
        Ok(seq(|rows|, j requires 0 <= j < |rows| => AlignRow(rows[j], widths)))
  }

  /** The column widths after one more line: each grows to that line's field where it is wider. */
  function Widened(lengths: seq<nat>, row: seq<string>): (r: seq<nat>)
    ensures |r| == |lengths|
    ensures forall c :: 0 <= c < |lengths| ==> lengths[c] <= r[c] && (c < |row| ==> |row[c]| <= r[c])
  {
    seq(|lengths|, c requires 0 <= c < |lengths| => if c < |row| && |row[c]| > lengths[c] then |row[c]| else lengths[c])
  }

  /** Widening by line `j` turns the widths of the first `j` lines into those of the first `j + 1`. */
  lemma WidenedStep(rows: seq<seq<string>>, j: nat, lengths: seq<nat>)
    requires j < |rows| && |rows[j]| <= |lengths|
    requires forall c :: 0 <= c < |lengths| ==> lengths[c] == MaxLen(rows[..j], c)
    ensures forall c :: 0 <= c < |lengths| ==> Widened(lengths, rows[j])[c] == MaxLen(rows[..j + 1], c)
  {
    assert rows[..j + 1][..j] == rows[..j];
  }

  /** The inner loop of `_align_strs`: widen the columns by one line, failing on a line with too many fields. */
  method WidenRow(lengths: seq<nat>, row: seq<string>) returns (r: Option<seq<nat>>)
    ensures r == if |row| > |lengths| then None else Some(Widened(lengths, row))
  {
    var out := lengths;
    var c := 0;
    while c < |row|
      invariant 0 <= c <= |row| && c <= |lengths|
      invariant |out| == |lengths|
      invariant forall x :: 0 <= x < |lengths| ==> out[x] == if x < c then Widened(lengths, row)[x] else lengths[x]
    {
      if c >= |lengths| {
        return None;
      }
      out := out[c := if |row[c]| > out[c] then |row[c]| else out[c]];
      c := c + 1;
    }
    assert out == Widened(lengths, row);
    return Some(out);
  }

  /** `_align_strs(strs, '&')` */
  method AlignStrs(strs: seq<string>) returns (r: Outcome<seq<string>, TableError>)
    ensures r == AlignStrsOf(strs)
  {
    if |strs| == 0 {
      return Err(AlignIndex);
    }
    var rows := SplitRows(strs);
    var n := |rows[0]|;
    var lengths: seq<nat> := seq(n, c => 0);
    var j := 0;
    while j < |rows|
      invariant 0 <= j <= |rows|
      invariant |lengths| == n
      invariant forall c :: 0 <= c < n ==> lengths[c] == MaxLen(rows[..j], c)
      invariant forall k :: 0 <= k < j ==> |rows[k]| <= n
    {
      var widened := WidenRow(lengths, rows[j]);
      if widened.None? {
        assert !(forall k :: 0 <= k < |rows| ==> |rows[k]| <= n) by { assert |rows[j]| > n; }
        return Err(AlignIndex);
      }
      WidenedStep(rows, j, lengths);
      lengths := widened.value;
      j := j + 1;
    }
    assert rows[..j] == rows;
    assert lengths == Widths(rows, n);
    var k := 0;
    while k < |rows|
      invariant 0 <= k <= |rows|
      invariant forall i :: 0 <= i < k ==> |rows[i]| == 1 || |rows[i]| == n
    {
      if |rows[k]| != 1 && |rows[k]| != n {
        return Err(AlignIndex);
      }
      k := k + 1;
    }
    r := Ok(seq(|rows|, i requires 0 <= i < |rows| => AlignRow(rows[i], lengths)));
  }

  lemma {:induction false} JoinSameLengths(sep: string, a: seq<string>, b: seq<string>)
    requires |a| == |b| && forall i :: 0 <= i < |a| ==> |a[i]| == |b[i]|
    ensures |Join(sep, a)| == |Join(sep, b)|
    decreases |a|
  {
    if |a| > 1 {
      JoinSameLengths(sep, a[1..], b[1..]);
    }
  }

  /** Two multi-field lines whose fields fit the widths come out equally long. */
  lemma AlignedSameLength(a: seq<string>, b: seq<string>, widths: seq<nat>)
    requires |a| == |b| == |widths| && |a| != 1
    requires forall c :: 0 <= c < |widths| ==> |a[c]| <= widths[c] && |b[c]| <= widths[c]
    ensures |AlignRow(a, widths)| == |AlignRow(b, widths)|
  {
    var n := |widths|;
    var pa := seq(n, c requires 0 <= c < n => PadRight(a[c], widths[c]));
    var pb := seq(n, c requires 0 <= c < n => PadRight(b[c], widths[c]));
    JoinSameLengths(" & ", pa, pb);
  }

  /**
   * What `_align_strs` guarantees: a line without `&` comes back unchanged; every
   * other line has each field padded to its column's widest entry, so all those
   * lines have the same length.
   */
  lemma AlignStrsAligns(strs: seq<string>)
    requires AlignStrsOf(strs).Ok?
    ensures |AlignStrsOf(strs).value| == |strs|
    ensures forall j :: 0 <= j < |strs| && '&' !in strs[j] ==> AlignStrsOf(strs).value[j] == strs[j]
    ensures forall i, j :: 0 <= i < |strs| && 0 <= j < |strs| && |Split(strs[i], "&")| != 1 && |Split(strs[j], "&")| != 1 ==>
              |AlignStrsOf(strs).value[i]| == |AlignStrsOf(strs).value[j]|
    ensures forall j, c :: 0 <= j < |strs| && |Split(strs[j], "&")| != 1 && 0 <= c < |Split(strs[j], "&")| ==>
              |Split(strs[j], "&")[c]| <= MaxLen(SplitRows(strs), c)
  {
    var rows := SplitRows(strs);
    var n := |rows[0]|;
    var widths := Widths(rows, n);
    var out := AlignStrsOf(strs).value;
    forall c | 0 <= c < n {
      MaxLenCovers(rows, c);
    }
    forall j | 0 <= j < |strs| && '&' !in strs[j] ensures out[j] == strs[j] {
      SplitAbsent(strs[j], '&');
    }
    forall i, j | 0 <= i < |strs| && 0 <= j < |strs| && |rows[i]| != 1 && |rows[j]| != 1
      ensures |out[i]| == |out[j]|
    {
      AlignedSameLength(rows[i], rows[j], widths);
    }
    forall j, c | 0 <= j < |strs| && |rows[j]| != 1 && 0 <= c < |rows[j]|
      ensures |rows[j][c]| <= MaxLen(rows, c)
    {
      MaxLenCovers(rows, c);
    }
  }

  /** The CSV rows of the groups, up to and without the first that fails. */
  function CsvRows(gs: seq<Group>, reg: Registry, ignore: seq<string>, format: (Float, int) -> string): (r: (seq<string>, Option<RenderError>))
    ensures |r.0| <= |gs| && (r.1.None? ==> |r.0| == |gs|)
    ensures forall i :: 0 <= i < |r.0| ==> CsvRow(gs[i], reg, ignore, format) == Ok(r.0[i])
    ensures r.1.Some? ==> |r.0| < |gs| && CsvRow(gs[|r.0|], reg, ignore, format) == Err(r.1.value)
  {
    if gs == [] then ([], None)
    else match CsvRow(gs[0], reg, ignore, format)
      case Err(e) => ([], Some(e))
      case Ok(line) =>
        var rest := CsvRows(gs[1..], reg, ignore, format);
        CsvRowsCons(gs, reg, ignore, format, line, rest.0, rest.1);
        ([line] + rest.0, rest.1)
  }

  lemma CsvRowsCons(gs: seq<Group>, reg: Registry, ignore: seq<string>, format: (Float, int) -> string,
                    line: string, rest: seq<string>, raised: Option<RenderError>)
    requires gs != [] && CsvRow(gs[0], reg, ignore, format) == Ok(line) && |rest| <= |gs| - 1
    requires forall i :: 0 <= i < |rest| ==> CsvRow(gs[1..][i], reg, ignore, format) == Ok(rest[i])
    requires raised.Some? ==> |rest| < |gs| - 1 && CsvRow(gs[1..][|rest|], reg, ignore, format) == Err(raised.value)
    ensures forall i :: 0 <= i < |rest| + 1 ==> CsvRow(gs[i], reg, ignore, format) == Ok(([line] + rest)[i])
    ensures raised.Some? ==> CsvRow(gs[|rest| + 1], reg, ignore, format) == Err(raised.value)
  {
    forall i | 0 <= i < |rest| + 1 ensures CsvRow(gs[i], reg, ignore, format) == Ok(([line] + rest)[i]) {
      if i > 0 {
        assert gs[1..][i - 1] == gs[i];
      }
    }
    if raised.Some? {
      assert gs[1..][|rest|] == gs[|rest| + 1];
    }
  }

  /** The lines `print_csv_table` prints, and the exception that stops it, if any. */
  datatype Printed = Printed(lines: seq<string>, raised: Option<TableError>)

  /**
   * `print_csv_table`: the header of the first group, then one row per group in
   * `sorted_results` order (collapsed in the tcml copy, not in the older one).
   */
  function CsvTable(gs: seq<Group>, reg: Registry, ignore: seq<string>, sortBy: string, descending: bool,
                    collapse: bool, format: (Float, int) -> string): (p: Printed)
    ensures gs == [] <==> p == Printed([], Some(NoGroups))
  {
    if gs == [] then Printed([], Some(NoGroups))
    else
      var rows := CsvRows(SortedResultsOf(gs, sortBy, descending, collapse), reg, ignore, format);
      Printed([CsvHeader(reg, ignore)] + rows.0, if rows.1.Some? then Some(RowFailed(rows.1.value)) else None)
  }

  /**
   * A table printed without error has the header and then one line per group
   * of the sorted list; without collapsing that is one line per group.
   */
  lemma CsvTableShape(gs: seq<Group>, reg: Registry, ignore: seq<string>, sortBy: string, descending: bool,
                      collapse: bool, format: (Float, int) -> string)
    requires CsvTable(gs, reg, ignore, sortBy, descending, collapse, format).raised.None?
    ensures var p := CsvTable(gs, reg, ignore, sortBy, descending, collapse, format);
            && |p.lines| == 1 + |SortedResultsOf(gs, sortBy, descending, collapse)|
            && p.lines[0] == CsvHeader(reg, ignore)
            && (!collapse ==> |p.lines| == 1 + |gs|)
    ensures var p := CsvTable(gs, reg, ignore, sortBy, descending, collapse, format);
            var sorted := SortedResultsOf(gs, sortBy, descending, collapse);
            forall i :: 0 <= i < |sorted| ==>
              CsvRow(sorted[i], reg, ignore, format).Ok? && p.lines[i + 1] == CsvRow(sorted[i], reg, ignore, format).value
  {
    if |sortBy| > 0 {
      SortPerm(gs, SortKey(sortBy, descending));
      assert |multiset(SortedBy(gs, sortBy, descending))| == |multiset(gs)|;
    }
  }

  /** The LaTeX rows of the groups, or the first failure. */
  function LatexRows(gs: seq<Group>, reg: Registry, ignore: seq<string>, format: (Float, int) -> string): (r: Outcome<seq<string>, RenderError>)
    ensures r.Ok? ==> |r.value| == |gs|
    ensures r.Ok? ==> forall i :: 0 <= i < |gs| ==> LatexRow(gs[i], reg, ignore, format) == Ok(r.value[i])
    ensures r.Err? ==> exists i :: (0 <= i < |gs| && LatexRow(gs[i], reg, ignore, format) == Err(r.error)
                                    && forall j :: 0 <= j < i ==> LatexRow(gs[j], reg, ignore, format).Ok?)
    ensures r.Err? <==> exists i :: 0 <= i < |gs| && LatexRow(gs[i], reg, ignore, format).Err?
  {
    if gs == [] then Ok([])
    else match LatexRow(gs[0], reg, ignore, format)
      case Err(e) => Err(e)
      case Ok(line) =>
        var rest := LatexRows(gs[1..], reg, ignore, format);
        LatexRowsCons(gs, reg, ignore, format, line, rest);
        match rest
        case Err(e) => Err(e)
        case Ok(rs) => Ok([line] + rs)
  }

  lemma LatexRowsCons(gs: seq<Group>, reg: Registry, ignore: seq<string>, format: (Float, int) -> string,
                      line: string, rest: Outcome<seq<string>, RenderError>)
    requires gs != [] && LatexRow(gs[0], reg, ignore, format) == Ok(line)
    requires rest.Ok? ==> |rest.value| == |gs| - 1
                          && forall i :: 0 <= i < |gs| - 1 ==> LatexRow(gs[1..][i], reg, ignore, format) == Ok(rest.value[i])
    requires rest.Err? ==> exists i :: (0 <= i < |gs| - 1 && LatexRow(gs[1..][i], reg, ignore, format) == Err(rest.error)
                                        && forall j :: 0 <= j < i ==> LatexRow(gs[1..][j], reg, ignore, format).Ok?)
    requires rest.Err? <==> exists i :: 0 <= i < |gs| - 1 && LatexRow(gs[1..][i], reg, ignore, format).Err?
    ensures rest.Ok? ==> forall i :: 0 <= i < |gs| ==> LatexRow(gs[i], reg, ignore, format) == Ok(([line] + rest.value)[i])
    ensures rest.Err? ==> exists i :: (0 <= i < |gs| && LatexRow(gs[i], reg, ignore, format) == Err(rest.error)
                                       && forall j :: 0 <= j < i ==> LatexRow(gs[j], reg, ignore, format).Ok?)
    ensures rest.Err? <==> exists i :: 0 <= i < |gs| && LatexRow(gs[i], reg, ignore, format).Err?
  {
    if rest.Ok? {
      forall i | 0 <= i < |gs| ensures LatexRow(gs[i], reg, ignore, format) == Ok(([line] + rest.value)[i]) {
        if i > 0 { assert gs[1..][i - 1] == gs[i]; }
      }
    } else {
      var i :| 0 <= i < |gs| - 1 && LatexRow(gs[1..][i], reg, ignore, format) == Err(rest.error)
               && forall j :: 0 <= j < i ==> LatexRow(gs[1..][j], reg, ignore, format).Ok?;
      assert gs[1..][i] == gs[i + 1];
      forall j | 0 <= j < i + 1 ensures LatexRow(gs[j], reg, ignore, format).Ok? {
        if j > 0 { assert gs[1..][j - 1] == gs[j]; }
      }
    }
  }

  /** `'c' * n` */
  function Repeat(c: char, n: nat): (r: string)
    ensures |r| == n && forall i :: 0 <= i < n ==> r[i] == c
  {
    if n == 0 then "" else [c] + Repeat(c, n - 1)
  }

  /**
   * `print_latex_table`: header and rows are built and aligned first, so nothing
   * is printed when one of them fails.
   */
  function LatexTable(gs: seq<Group>, reg: Registry, ignore: seq<string>, sortBy: string, descending: bool,
                      collapse: bool, format: (Float, int) -> string): Outcome<seq<string>, TableError>
  {
    if gs == [] then Err(NoGroups)
    else match LatexRows(SortedResultsOf(gs, sortBy, descending, collapse), reg, ignore, format)
      case Err(e) => Err(RowFailed(e))
      case Ok(rows) =>
        match AlignStrsOf([LatexHeader(reg, ignore)] + rows)
        case Err(e) => Err(e)
        case Ok(strs) => Ok(Booktabs(strs))
  }

  /** The booktabs frame: one `l` column and a `c` per `&` of the header, then the rules around header and rows. */
  function Booktabs(strs: seq<string>): seq<string>
    requires strs != []
  {
    ["\\begin{tabular}{l" + Repeat('c', Count(strs[0], '&')) + "}", "\\toprule", strs[0], "\\midrule"]
    + strs[1..] + ["\\bottomrule", "\\end{tabular}"]
  }

  lemma BooktabsShape(strs: seq<string>)
    requires strs != []
    ensures var t := Booktabs(strs);
            && |t| == 5 + |strs|
            && t[0] == "\\begin{tabular}{l" + Repeat('c', Count(strs[0], '&')) + "}"
            && t[1] == "\\toprule" && t[2] == strs[0] && t[3] == "\\midrule"
            && t[4..|t| - 2] == strs[1..]
            && t[|t| - 2] == "\\bottomrule" && t[|t| - 1] == "\\end{tabular}"
  {
  }

  /**
   * A printed LaTeX table is the booktabs frame around the aligned header and
   * one aligned line per group of the sorted list.
   */
  lemma LatexTableShape(gs: seq<Group>, reg: Registry, ignore: seq<string>, sortBy: string, descending: bool,
                        collapse: bool, format: (Float, int) -> string)
    requires LatexTable(gs, reg, ignore, sortBy, descending, collapse, format).Ok?
    ensures var t := LatexTable(gs, reg, ignore, sortBy, descending, collapse, format).value;
            && |t| == 6 + |SortedResultsOf(gs, sortBy, descending, collapse)|
            && t[1] == "\\toprule" && t[3] == "\\midrule"
            && t[|t| - 2] == "\\bottomrule" && t[|t| - 1] == "\\end{tabular}"
    ensures var t := LatexTable(gs, reg, ignore, sortBy, descending, collapse, format).value;
            var sorted := SortedResultsOf(gs, sortBy, descending, collapse);
            && LatexRows(sorted, reg, ignore, format).Ok?
            && var rows := LatexRows(sorted, reg, ignore, format).value;
            && AlignStrsOf([LatexHeader(reg, ignore)] + rows).Ok?
            && var strs := AlignStrsOf([LatexHeader(reg, ignore)] + rows).value;
            && |strs| == 1 + |sorted|
            && t[0] == "\\begin{tabular}{l" + Repeat('c', Count(strs[0], '&')) + "}"
            && t[2] == strs[0]
            && t[4..4 + |sorted|] == strs[1..]
  {
    var sorted := SortedResultsOf(gs, sortBy, descending, collapse);
    var rows := LatexRows(sorted, reg, ignore, format).value;
    var strs := AlignStrsOf([LatexHeader(reg, ignore)] + rows).value;
    BooktabsShape(strs);
  }
}
