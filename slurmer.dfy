/**
 * The text and grid helpers of the Slurm front end: the grid of parameter
 * combinations, the file-name-safe values, the `{key}` substitution in the
 * templates, the argument strings of the generated shell scripts and the
 * clustering behind `print_group_code`. The `Slurmer` class keeps the
 * user-set state those helpers read.
 */
module Slurmer {
  import opened Wrappers
  import opened PyStr
  import opened ODicts
  import opened Seqs

  /**
   * A parameter value: a string, a list of values, or any other value, which
   * the modelled code only ever turns into its `str()` text.
   */
  datatype Val = Str(s: string) | Items(items: seq<Val>) | Atom(text: string)

  /** `str(v)` */
  function Show(v: Val): string
    decreases v, 0
  {
    match v
    case Str(s) => s
    case Atom(t) => t
    case Items(vs) => "[" + Join(", ", seq(|vs|, i requires 0 <= i < |vs| => Repr(vs[i]))) + "]"
  }

  /** `repr(v)`, as a list shows its items (quotes are not escaped). */
  function Repr(v: Val): string
    decreases v, 1
  {
    if v.Str? then "'" + v.s + "'" else Show(v)
  }

  /** `JobItem`: a job's name, the parameter names it was created with, its values and its Slurm id. */
  datatype JobItem = JobItem(name: string, paramNames: seq<string>, combo: seq<Val>, slurmId: int)

  /**
   * `params_str(num)`: the `str()` of the values before position `num` joined
   * by `_`; Python's slice bound, so the default `-1` drops the last value.
   */
  function ParamsStr(job: JobItem, num: int): (r: string)
  {
    Join("_", Shows(SliceTo(job.combo, num)))
  }

  /** `[str(v) for v in vs]` */
  function Shows(vs: seq<Val>): (r: seq<string>)
    ensures |r| == |vs| && forall i :: 0 <= i < |vs| ==> r[i] == Show(vs[i])
  {
    seq(|vs|, i requires 0 <= i < |vs| => Show(vs[i]))
  }

  /** With the default `num = -1`, `params_str` names every value but the last. */
  lemma ParamsStrDefault(job: JobItem)
    requires |job.combo| >= 1
    ensures ParamsStr(job, -1) == Join("_", Shows(job.combo[..|job.combo| - 1]))
  {
    assert SliceTo(job.combo, -1) == job.combo[..|job.combo| - 1];
  }

  // ----- _safe_str ---------------------------------------------------------

  /** The number of digits at the end of `s`. */
  function TrailingDigits(s: string): (k: nat)
    ensures k <= |s|
    ensures k == 0 <==> s == [] || !IsDigit(s[|s| - 1])
  {
    if s == [] || !IsDigit(s[|s| - 1]) then 0 else 1 + TrailingDigits(s[..|s| - 1])
  }

  /** The trailing run is all digits, and the character before it is not one. */
  lemma {:induction false} TrailingDigitsSpec(s: string)
    ensures forall i :: |s| - TrailingDigits(s) <= i < |s| ==> IsDigit(s[i])
    ensures TrailingDigits(s) < |s| ==> !IsDigit(s[|s| - TrailingDigits(s) - 1])
    decreases |s|
  {
    if s != [] && IsDigit(s[|s| - 1]) {
      TrailingDigitsSpec(s[..|s| - 1]);
    }
  }

  /** `int_pattern.findall(s)`: the maximal runs of decimal digits of `s`, in order. */
  function Runs(s: string): (r: seq<string>)
    ensures forall j :: 0 <= j < |r| ==> |r[j]| > 0
    decreases |s|
  {
    if s == [] then []
    else if !IsDigit(s[|s| - 1]) then Runs(s[..|s| - 1])
    else
      var k := TrailingDigits(s);
      Runs(s[..|s| - k]) + [s[|s| - k..]]
  }

  /** The last run of digits in `s`: the last match of `\d+`. */
  function LastRun(s: string): Option<string>
  {
    var p := Runs(s);
    if |p| > 0 then Some(p[|p| - 1]) else None
  }

  /** The loop over `reversed(splits)`: the last digit run of the last piece that has one. */
  function LastRunIn(pieces: seq<string>): Option<string>
  {
    if pieces == [] then None
    else
      var p := Runs(pieces[|pieces| - 1]);
      if |p| > 0 then Some(p[|p| - 1]) else LastRunIn(pieces[..|pieces| - 1])
  }

  /** The fate of one non-iterable value in `_safe_str`. */
  function SafeText(v: string): string
  {
    if '/' in v then LastRunIn(Split(v, "/")).GetOr(v) else v
  }

  /** `_safe_str` on one value. */
  function SafeVal(v: Val): Val
    decreases v, 1
  {
    match v
    case Items(vs) => Items(SafeAll(vs))
    case Str(s) => Str(SafeText(s))
    case Atom(_) => v
  }

  /** `_safe_str(vars_)`: every value made safe, the list keeping its length. */
  function SafeAll(vs: seq<Val>): (r: seq<Val>)
    ensures |r| == |vs|
    decreases vs, 0
  {
    seq(|vs|, i requires 0 <= i < |vs| => SafeVal(vs[i]))
  }

  /** The search of `_safe_str` through the `/`-separated pieces, last piece first. */
  method LastDigitRun(pieces: seq<string>) returns (found: Option<string>)
    ensures found == LastRunIn(pieces)
  {
    var i := |pieces|;
    assert pieces[..i] == pieces;
    while i > 0
      invariant 0 <= i <= |pieces|
      invariant LastRunIn(pieces[..i]) == LastRunIn(pieces)
    {
      var p := Runs(pieces[i - 1]);
      assert pieces[..i][..i - 1] == pieces[..i - 1];
      if |p| > 0 {
        return Some(p[|p| - 1]);
      }
      i := i - 1;
    }
    return None;
  }

  /** `Slurmer._safe_str(vars_)`. */
  method SafeStr(vars: seq<Val>) returns (safe: seq<Val>)
    ensures safe == SafeAll(vars)
    decreases vars
  {
    safe := [];
    var i := 0;
    while i < |vars|
      invariant 0 <= i <= |vars|
      invariant safe == SafeAll(vars[..i])
    {
      var v := vars[i];
      var w: Val;
      if v.Items? {
        var inner := SafeStr(v.items);
        w := Items(inner);
      } else if v.Str? && '/' in v.s {
        var found := LastDigitRun(Split(v.s, "/"));
        w := Str(found.GetOr(v.s));
      } else {
        w := v;
      }
      safe := safe + [w];
      i := i + 1;
    }
    assert vars[..i] == vars;
  }

  /** A character that is not a digit separates the runs on its two sides. */
  lemma {:induction false} RunsAround(a: string, c: char, b: string)
    requires !IsDigit(c)
    ensures Runs(a + [c] + b) == Runs(a) + Runs(b)
    decreases |b|
  {
    var s := a + [c] + b;
    if b == [] {
      assert s[..|s| - 1] == a;
      RunsLastOther(s);
    } else if !IsDigit(b[|b| - 1]) {
      var b' := b[..|b| - 1];
      assert s[..|s| - 1] == a + [c] + b';
      RunsAround(a, c, b');
      RunsLastOther(s);
      RunsLastOther(b);
    } else {
      var b' := b[..|b| - TrailingDigits(b)];
      RunsAround(a, c, b');
      RunsAroundRun(a, c, b, b');
    }
  }

  /** The last run of `b` is the last run of `a + [c] + b`. */
  lemma RunsAroundRun(a: string, c: char, b: string, b': string)
    requires !IsDigit(c) && b != [] && IsDigit(b[|b| - 1]) && b' == b[..|b| - TrailingDigits(b)]
    requires Runs(a + [c] + b') == Runs(a) + Runs(b')
    ensures Runs(a + [c] + b) == Runs(a) + Runs(b)
  {
    var s := a + [c] + b;
    var k := TrailingDigits(b);
    var run := b[|b| - k..];
    TrailingAround(a, c, b);
    assert s[..|s| - k] == a + [c] + b';
    assert s[|s| - k..] == run;
    RunsLastDigit(s, a + [c] + b', run);
    RunsLastDigit(b, b', run);
    ConcatAssoc(Runs(a), Runs(b'), [run]);
  }

  lemma RunsLastOther(s: string)
    requires s != [] && !IsDigit(s[|s| - 1])
    ensures Runs(s) == Runs(s[..|s| - 1])
  {
  }

  lemma RunsLastDigit(s: string, init: string, run: string)
    requires s != [] && IsDigit(s[|s| - 1])
    requires init == s[..|s| - TrailingDigits(s)] && run == s[|s| - TrailingDigits(s)..]
    ensures Runs(s) == Runs(init) + [run]
  {
  }

  /** The digits at the end of `a + [c] + b` are those at the end of `b` when `c` is not a digit. */
  lemma {:induction false} TrailingAround(a: string, c: char, b: string)
    requires !IsDigit(c)
    ensures TrailingDigits(a + [c] + b) == TrailingDigits(b)
    decreases |b|
  {
    var s := a + [c] + b;
    if b == [] {
    } else if IsDigit(b[|b| - 1]) {
      assert s[..|s| - 1] == a + [c] + b[..|b| - 1];
      TrailingAround(a, c, b[..|b| - 1]);
    }
  }

  /** `findall` over the joined pieces finds each piece's runs, piece after piece. */
  function RunsOfPieces(pieces: seq<string>): seq<string>
  {
    if pieces == [] then [] else RunsOfPieces(pieces[..|pieces| - 1]) + Runs(pieces[|pieces| - 1])
  }

  lemma {:induction false} RunsOfJoin(pieces: seq<string>)
    requires |pieces| >= 1
    ensures Runs(Join("/", pieces)) == RunsOfPieces(pieces)
  {
    if |pieces| > 1 {
      var init := pieces[..|pieces| - 1];
      RunsOfJoin(init);
      JoinAppend("/", init, [pieces[|pieces| - 1]]);
      assert init + [pieces[|pieces| - 1]] == pieces;
      RunsAround(Join("/", init), '/', pieces[|pieces| - 1]);
    } else {
      assert RunsOfPieces(pieces) == RunsOfPieces([]) + Runs(pieces[0]);
    }
  }

  /** Searching the pieces from the last one finds the last run of all the pieces. */
  lemma {:induction false} LastRunInPieces(pieces: seq<string>)
    ensures var all := RunsOfPieces(pieces);
            LastRunIn(pieces) == if |all| > 0 then Some(all[|all| - 1]) else None
  {
    if pieces != [] {
      LastRunInPieces(pieces[..|pieces| - 1]);
    }
  }

  /**
   * A string value with a `/` becomes the last run of digits anywhere in it
   * (a run never spans a `/`), and stays as it is when it has no digit.
   */
  lemma SafeTextIsLastRun(v: string)
    ensures SafeText(v) == if '/' in v then LastRun(v).GetOr(v) else v
  {
    if '/' in v {
      JoinSplit(v, "/");
      RunsOfJoin(Split(v, "/"));
      LastRunInPieces(Split(v, "/"));
    }
  }

  /** Every run `findall` returns is a non-empty string of digits. */
  lemma {:induction false} RunsAreDigits(s: string)
    ensures forall j :: 0 <= j < |Runs(s)| ==> forall i :: 0 <= i < |Runs(s)[j]| ==> IsDigit(Runs(s)[j][i])
    decreases |s|
  {
    if s != [] {
      if !IsDigit(s[|s| - 1]) {
        RunsAreDigits(s[..|s| - 1]);
      } else {
        RunsAreDigits(s[..|s| - TrailingDigits(s)]);
        TrailingDigitsSpec(s);
      }
    }
  }

  /** A safe value is the value itself or consists of digits only. */
  lemma SafeTextDigits(v: string)
    ensures SafeText(v) == v || (|SafeText(v)| > 0 && forall i :: 0 <= i < |SafeText(v)| ==> IsDigit(SafeText(v)[i]))
  {
    SafeTextIsLastRun(v);
    RunsAreDigits(v);
  }

  // ----- _grid and _named_grid --------------------------------------------

  /** The number of combinations: the product of the lists' lengths. */
  function Product<T>(args: seq<seq<T>>): nat
  {
    if args == [] then 1 else Product(args[..|args| - 1]) * |args[|args| - 1]|
  }

  /** `[[v] for v in vs]` */
  function Singletons<T>(vs: seq<T>): (r: seq<seq<T>>)
    ensures |r| == |vs| && forall i :: 0 <= i < |vs| ==> r[i] == [vs[i]]
  {
    seq(|vs|, i requires 0 <= i < |vs| => [vs[i]])
  }

  /** `[g + [v] for g in grids]` */
  function Appended<T>(grids: seq<seq<T>>, v: T): (r: seq<seq<T>>)
    ensures |r| == |grids| && forall t :: 0 <= t < |grids| ==> r[t] == grids[t] + [v]
  {
    seq(|grids|, t requires 0 <= t < |grids| => grids[t] + [v])
  }

  /**
   * The nested loops of `_grid`: for each value of `vs` in turn, every earlier
   * combination extended by it. Every entry is an earlier combination followed
   * by one value of `vs`.
   */
  function Extend<T>(grids: seq<seq<T>>, vs: seq<T>): (r: seq<seq<T>>)
    ensures |r| == |vs| * |grids|
    ensures forall k :: 0 <= k < |r| ==> |r[k]| >= 1 && r[k][..|r[k]| - 1] in grids && r[k][|r[k]| - 1] in vs
  {
    if vs == [] then []
    else
      var r := Extend(grids, vs[..|vs| - 1]) + Appended(grids, vs[|vs| - 1]);
      assert |vs| * |grids| == (|vs| - 1) * |grids| + |grids|;
      assert forall t :: 0 <= t < |grids| ==> (grids[t] + [vs[|vs| - 1]])[..|grids[t]|] == grids[t];
      r
  }

  /** `_grid(*args)`: every combination of one value from each list, the first list varying fastest. */
  function GridOf<T>(args: seq<seq<T>>): (r: seq<seq<T>>)
    requires |args| >= 1
    ensures |r| == Product(args)
    decreases |args|
  {
    if |args| == 1 then Singletons(args[0])
    else Extend(GridOf(args[..|args| - 1]), args[|args| - 1])
  }

  /** `_grid(*args)`; with no list at all the source recurses forever, so one list is needed. */
  method Grid<T>(args: seq<seq<T>>) returns (r: seq<seq<T>>)
    requires |args| >= 1
    ensures r == GridOf(args)
    decreases |args|
  {
    if |args| == 1 {
      return Singletons(args[0]);
    }
    var grids := Grid(args[..|args| - 1]);
    var last := args[|args| - 1];
    r := [];
    var j := 0;
    while j < |last|
      invariant 0 <= j <= |last|
      invariant r == Extend(grids, last[..j])
    {
      r := AppendEach(r, grids, last[j]);
      ExtendPrefix(grids, last, j);
      j := j + 1;
    }
    assert last[..j] == last;
  }

  /** The inner loop of `_grid`: every earlier combination extended by `v`, added after `r0`. */
  method AppendEach<T>(r0: seq<seq<T>>, grids: seq<seq<T>>, v: T) returns (r: seq<seq<T>>)
    ensures r == r0 + Appended(grids, v)
  {
    r := r0;
    var t := 0;
    while t < |grids|
      invariant 0 <= t <= |grids|
      invariant r == r0 + Appended(grids[..t], v)
    {
      assert Appended(grids[..t + 1], v) == Appended(grids[..t], v) + [grids[t] + [v]];
      r := r + [grids[t] + [v]];
      t := t + 1;
    }
    assert grids[..t] == grids;
  }

  /** Extending by one more value adds that value's block at the end. */
  lemma ExtendPrefix<T>(grids: seq<seq<T>>, vs: seq<T>, j: nat)
    requires j < |vs|
    ensures Extend(grids, vs[..j + 1]) == Extend(grids, vs[..j]) + Appended(grids, vs[j])
  {
    assert vs[..j + 1][..j] == vs[..j];
  }

  /** A choice of one position in each list. */
  predicate IsChoice<T>(args: seq<seq<T>>, c: seq<nat>)
  {
    |c| == |args| && forall i :: 0 <= i < |c| ==> c[i] < |args[i]|
  }

  /** The combination a choice picks. */
  function Pick<T>(args: seq<seq<T>>, c: seq<nat>): (r: seq<T>)
    requires IsChoice(args, c)
    ensures |r| == |args| && forall i :: 0 <= i < |c| ==> r[i] == args[i][c[i]]
  {
    seq(|c|, i requires 0 <= i < |c| => args[i][c[i]])
  }

  /** The position of a choice in the grid, read as a number whose first digit changes fastest. */
  function Index<T>(args: seq<seq<T>>, c: seq<nat>): nat
    requires |c| == |args| >= 1
    decreases |c|
  {
    if |c| == 1 then c[0]
    else Index(args[..|args| - 1], c[..|c| - 1]) + Product(args[..|args| - 1]) * c[|c| - 1]
  }

  /** Entry `t` of the `j`-th block of `Extend` is combination `t` extended by value `j`. */
  lemma {:induction false} ExtendAt<T>(grids: seq<seq<T>>, vs: seq<T>, j: nat, t: nat)
    requires j < |vs| && t < |grids|
    ensures t + |grids| * j < |Extend(grids, vs)|
    ensures Extend(grids, vs)[t + |grids| * j] == grids[t] + [vs[j]]
    decreases |vs|
  {
    var init := vs[..|vs| - 1];
    BlockBound(|grids|, |vs|, j, t);
    if j < |vs| - 1 {
      ExtendAt(grids, init, j, t);
      assert init[j] == vs[j];
    }
  }

  /** Block `j` of `n` blocks of size `g` ends before the last block or is the last block. */
  lemma BlockBound(g: nat, n: nat, j: nat, t: nat)
    requires j < n && t < g
    ensures n * g == (n - 1) * g + g
    ensures j < n - 1 ==> t + g * j < (n - 1) * g
    ensures j == n - 1 ==> g * j == (n - 1) * g
  {
    if j < n - 1 {
      MulMonotone(g, j + 1, n - 1);
      assert g * (j + 1) == g * j + g;
    }
  }

  lemma {:induction false} MulMonotone(g: nat, a: nat, b: nat)
    requires a <= b
    ensures g * a <= g * b
    decreases b - a
  {
    if a < b {
      MulMonotone(g, a, b - 1);
      assert g * b == g * (b - 1) + g;
    }
  }

  /** Every choice of one value per list appears in the grid, at the position `Index` gives. */
  lemma {:induction false} GridHasEveryChoice<T>(args: seq<seq<T>>, c: seq<nat>)
    requires |args| >= 1 && IsChoice(args, c)
    ensures Index(args, c) < |GridOf(args)|
    ensures GridOf(args)[Index(args, c)] == Pick(args, c)
    decreases |args|
  {
    if |args| > 1 {
      var init, ci := args[..|args| - 1], c[..|c| - 1];
      var j := c[|c| - 1];
      assert IsChoice(init, ci);
      GridHasEveryChoice(init, ci);
      var grids := GridOf(init);
      var t := Index(init, ci);
      ExtendAt(grids, args[|args| - 1], j, t);
      assert GridOf(args) == Extend(grids, args[|args| - 1]);
      assert Index(args, c) == t + |grids| * j;
      PickLast(args, c);
      assert Extend(grids, args[|args| - 1])[t + |grids| * j] == Pick(init, ci) + [args[|args| - 1][j]];
    }
  }

  /** A choice picks the combination of its first lists followed by the value of the last. */
  lemma PickLast<T>(args: seq<seq<T>>, c: seq<nat>)
    requires |args| > 1 && IsChoice(args, c)
    ensures IsChoice(args[..|args| - 1], c[..|c| - 1])
    ensures Pick(args, c) == Pick(args[..|args| - 1], c[..|c| - 1]) + [args[|args| - 1][c[|c| - 1]]]
  {
  }

  /** Every entry of the grid takes one value from each list, in the lists' order. */
  lemma {:induction false} GridEntries<T>(args: seq<seq<T>>)
    requires |args| >= 1
    ensures forall k :: 0 <= k < |GridOf(args)| ==>
              |GridOf(args)[k]| == |args| && forall i :: 0 <= i < |args| ==> GridOf(args)[k][i] in args[i]
    decreases |args|
  {
    if |args| > 1 {
      GridEntries(args[..|args| - 1]);
      forall k | 0 <= k < |GridOf(args)|
        ensures |GridOf(args)[k]| == |args| && forall i :: 0 <= i < |args| ==> GridOf(args)[k][i] in args[i]
      {
        GridEntryStep(args, k);
      }
    }
  }

  /** An entry of the grid is an entry of the grid of the first lists followed by a value of the last. */
  lemma GridEntryStep<T>(args: seq<seq<T>>, k: nat)
    requires |args| > 1 && k < |GridOf(args)|
    requires var init := args[..|args| - 1];
             forall k :: 0 <= k < |GridOf(init)| ==>
               |GridOf(init)[k]| == |init| && forall i :: 0 <= i < |init| ==> GridOf(init)[k][i] in init[i]
    ensures |GridOf(args)[k]| == |args| && forall i :: 0 <= i < |args| ==> GridOf(args)[k][i] in args[i]
  {
    var init := args[..|args| - 1];
    var e := GridOf(args)[k];
    var g := e[..|e| - 1];
    assert g in GridOf(init);
    forall i | 0 <= i < |args| ensures e[i] in args[i] {
      if i < |args| - 1 {
        assert e[i] == g[i] && init[i] == args[i];
      }
    }
  }

  /** The job name `_named_grid` builds: the safe values' texts joined by `_`. */
  function JobName(combo: seq<Val>): string
  {
    Join("_", Shows(SafeAll(combo)))
  }

  /** `_named_grid(name_pattern, *args)`: each combination with its job name. */
  function NamedGridOf(args: seq<seq<Val>>): (r: seq<(string, seq<Val>)>)
    requires |args| >= 1
  {
    Named(GridOf(args))
  }

  /** Each combination of a grid with its job name. */
  function Named(grid: seq<seq<Val>>): (r: seq<(string, seq<Val>)>)
  {
    seq(|grid|, k requires 0 <= k < |grid| => (JobName(grid[k]), grid[k]))
  }

  lemma NamedPrefix(grid: seq<seq<Val>>, k: nat)
    requires k < |grid|
    ensures Named(grid)[..k + 1] == Named(grid)[..k] + [(JobName(grid[k]), grid[k])]
  {
    var n := Named(grid);
    assert n[..k + 1] == n[..k] + [n[k]];
  }

  /** `_named_grid`, building the names one combination after the other. */
  method NamedGrid(args: seq<seq<Val>>) returns (named: seq<(string, seq<Val>)>)
    requires |args| >= 1
    ensures named == NamedGridOf(args)
  {
    var grid := Grid(args);
    named := [];
    var k := 0;
    while k < |grid|
      invariant 0 <= k <= |grid|
      invariant named == Named(grid)[..k]
    {
      var safe := SafeStr(grid[k]);
      var name := Join("_", Shows(safe));
      assert name == JobName(grid[k]);
      NamedPrefix(grid, k);
      named := named + [(name, grid[k])];
      k := k + 1;
    }
    assert Named(grid)[..k] == Named(grid);
  }

  /**
   * The named grid pairs every combination with its name; splitting a name on
   * `_` gives back the safe values' texts as long as none of them holds a `_`.
   */
  lemma NamedGridNames(args: seq<seq<Val>>, k: nat)
    requires |args| >= 1 && k < |GridOf(args)|
    requires forall i :: 0 <= i < |GridOf(args)[k]| ==> '_' !in Show(SafeAll(GridOf(args)[k])[i])
    ensures |NamedGridOf(args)| == Product(args)
    ensures NamedGridOf(args)[k].1 == GridOf(args)[k]
    ensures Split(NamedGridOf(args)[k].0, "_") == Shows(SafeAll(GridOf(args)[k]))
  {
    GridEntries(args);
    SplitJoin(Shows(SafeAll(GridOf(args)[k])), '_');
  }

  // ----- _fully_replace and the argument strings ---------------------------

  /** `'{%s}' % k`: the placeholder for a key or a position. */
  function Placeholder(k: string): (r: string)
    ensures |r| == |k| + 2 && r[0] == '{' && r[|r| - 1] == '}'
  {
    "{" + k + "}"
  }

  /**
   * `_fully_replace(s)`: each key's placeholder replaced by the `str()` of its
   * value, one key after the other in insertion order.
   */
  function Substituted(s: string, keys: seq<string>, vals: map<string, Val>): string
    requires forall k :: k in keys ==> k in vals
  {
    if keys == [] then s
    else
      var k := keys[|keys| - 1];
      ReplaceAll(Substituted(s, keys[..|keys| - 1], vals), Placeholder(k), Show(vals[k]))
  }

  /** A text without `{` has no placeholder and passes through unchanged. */
  lemma {:induction false} SubstitutedPlain(s: string, keys: seq<string>, vals: map<string, Val>)
    requires forall k :: k in keys ==> k in vals
    requires '{' !in s
    ensures Substituted(s, keys, vals) == s
  {
    if keys != [] {
      var k := keys[|keys| - 1];
      SubstitutedPlain(s, keys[..|keys| - 1], vals);
      ReplaceAbsent(s, Placeholder(k), Show(vals[k]));
    }
  }

  /** A key that can be written inside a placeholder without ambiguity. */
  predicate BraceFree(k: string)
  {
    '{' !in k && '}' !in k
  }

  /**
   * A text holding a single placeholder, for a key mentioned in the
   * replacements, ends up with that key's value in its place, wherever the key
   * sits in the insertion order, provided no key holds a brace and no value's
   * text brings in a `{`.
   */
  lemma {:induction false} SubstitutedOne(u: string, k: string, v: string, keys: seq<string>, vals: map<string, Val>)
    requires forall j :: j in keys ==> j in vals && BraceFree(j) && '{' !in Show(vals[j])
    requires k in keys && '{' !in u && '{' !in v
    ensures Substituted(u + Placeholder(k) + v, keys, vals) == u + Show(vals[k]) + v
  {
    var init, j := keys[..|keys| - 1], keys[|keys| - 1];
    assert keys == init + [j];
    assert forall x :: x in init ==> x in keys;
    var pat, rep := Placeholder(j), Show(vals[j]);
    if k in init {
      SubstitutedOne(u, k, v, init, vals);
      var w := u + Show(vals[k]) + v;
      assert '{' !in w;
      ReplaceAbsent(w, pat, rep);
    } else {
      assert j == k;
      SubstitutedMiss(u, k, v, init, vals);
      assert u + pat + v == u + (pat + v);
      ReplaceAfterClean(u, pat + v, pat, rep);
      ReplaceAtFront(pat, v, rep);
      ReplaceAbsent(v, pat, rep);
      assert u + (rep + v) == u + rep + v;
    }
  }

  /** Replacing the placeholders of other keys leaves a single placeholder in plain text alone. */
  lemma {:induction false} SubstitutedMiss(u: string, k: string, v: string, keys: seq<string>, vals: map<string, Val>)
    requires forall j :: j in keys ==> j in vals && BraceFree(j)
    requires k !in keys && BraceFree(k) && '{' !in u && '{' !in v
    ensures Substituted(u + Placeholder(k) + v, keys, vals) == u + Placeholder(k) + v
  {
    if keys != [] {
      var init, j := keys[..|keys| - 1], keys[|keys| - 1];
      assert forall x :: x in init ==> x in keys;
      SubstitutedMiss(u, k, v, init, vals);
      var pat, rep := Placeholder(j), Show(vals[j]);
      assert u + Placeholder(k) + v == u + (Placeholder(k) + v);
      ReplaceAfterClean(u, Placeholder(k) + v, pat, rep);
      PlaceholderStays(j, k, v, rep);
    }
  }

  /** The placeholder of another brace-free key does not match at a placeholder. */
  lemma PlaceholderStays(j: string, k: string, v: string, rep: string)
    requires j != k && BraceFree(j) && BraceFree(k) && '{' !in v
    ensures ReplaceAll(Placeholder(k) + v, Placeholder(j), rep) == Placeholder(k) + v
  {
    var s, pat := Placeholder(k) + v, Placeholder(j);
    assert s[1..] == k + "}" + v;
    assert '{' !in s[1..];
    PlaceholderMismatch(j, k, v);
    ReplaceSkipsMismatch(s, pat, rep);
    ReplaceAbsent(s[1..], pat, rep);
    assert [s[0]] + s[1..] == s;
  }

  lemma PlaceholderMismatch(j: string, k: string, v: string)
    requires j != k && BraceFree(j) && BraceFree(k)
    ensures |Placeholder(j)| <= |Placeholder(k) + v| ==> (Placeholder(k) + v)[..|Placeholder(j)|] != Placeholder(j)
  {
    var s, pat := Placeholder(k) + v, Placeholder(j);
    if |pat| <= |s| {
      var t := s[..|pat|];
      if |j| < |k| {
        assert t[|j| + 1] == k[|j|] != pat[|j| + 1];
      } else if |j| > |k| {
        assert t[|k| + 1] == '}' != pat[|k| + 1];
      } else {
        var i :| 0 <= i < |k| && j[i] != k[i];
        assert t[i + 1] == k[i] != pat[i + 1];
      }
    }
  }


  /** Two distinct keys have distinct placeholders. */
  lemma PlaceholderInjective(j: string, k: string)
    requires Placeholder(j) == Placeholder(k)
    ensures j == k
  {
    assert Placeholder(j)[1..|j| + 1] == j;
    assert Placeholder(k)[1..|k| + 1] == k;
  }

  /** The placeholder of another brace-free key at the front is skipped, and the scan goes on after it. */
  lemma PlaceholderSkipped(j: string, k: string, y: string, rep: string)
    requires j != k && BraceFree(j) && BraceFree(k)
    ensures ReplaceAll(Placeholder(k) + y, Placeholder(j), rep) == Placeholder(k) + ReplaceAll(y, Placeholder(j), rep)
  {
    var s, pat := Placeholder(k) + y, Placeholder(j);
    PlaceholderMismatch(j, k, y);
    ReplaceSkipsMismatch(s, pat, rep);
    assert s[1..] == (k + "}") + y;
    ReplaceAfterClean(k + "}", y, pat, rep);
    assert [s[0]] + (k + "}") == Placeholder(k);
  }

  /** A template: the plain segments `segs`, with `slots[i]` between `segs[i]` and `segs[i + 1]`. */
  function Template(segs: seq<string>, slots: seq<string>): string
    requires |segs| == |slots| + 1
    decreases |slots|
  {
    if slots == [] then segs[0]
    else segs[0] + slots[0] + Template(segs[1..], slots[1..])
  }

  /** The placeholders of the keys `ks`, one per slot. */
  function Placeholders(ks: seq<string>): (r: seq<string>)
    ensures |r| == |ks| && forall i :: 0 <= i < |ks| ==> r[i] == Placeholder(ks[i])
  {
    seq(|ks|, i requires 0 <= i < |ks| => Placeholder(ks[i]))
  }

  /** The slots once the keys `done` are replaced: their values where the key was done, their placeholders elsewhere. */
  function SlotsAfter(ks: seq<string>, done: seq<string>, vals: map<string, Val>): (r: seq<string>)
    requires forall k :: k in done ==> k in vals
    ensures |r| == |ks|
    ensures forall i :: 0 <= i < |ks| && ks[i] in done ==> r[i] == Show(vals[ks[i]])
    ensures forall i :: 0 <= i < |ks| && ks[i] !in done ==> r[i] == Placeholder(ks[i])
  {
    seq(|ks|, i requires 0 <= i < |ks| => if ks[i] in done then Show(vals[ks[i]]) else Placeholder(ks[i]))
  }

  /** Every slot equal to `pat` becomes `rep`. */
  function Swapped(slots: seq<string>, pat: string, rep: string): (r: seq<string>)
    ensures |r| == |slots|
    ensures forall i :: 0 <= i < |slots| ==> r[i] == if slots[i] == pat then rep else slots[i]
  {
    seq(|slots|, i requires 0 <= i < |slots| => if slots[i] == pat then rep else slots[i])
  }

  /**
   * One key's replacement over a template whose slots are plain texts or
   * placeholders of brace-free keys: exactly the slots holding that key's
   * placeholder take the value, and the segments and other slots stay.
   */
  lemma {:induction false} ReplaceTemplate(segs: seq<string>, slots: seq<string>, ks: seq<string>, j: string, rep: string)
    requires |segs| == |slots| + 1 && |ks| == |slots| && Clean(segs) && BraceFree(j)
    requires forall i :: 0 <= i < |slots| ==> '{' !in slots[i] || (slots[i] == Placeholder(ks[i]) && BraceFree(ks[i]))
    ensures ReplaceAll(Template(segs, slots), Placeholder(j), rep) == Template(segs, Swapped(slots, Placeholder(j), rep))
    decreases |slots|
  {
    var pat := Placeholder(j);
    var out := Swapped(slots, pat, rep);
    if slots == [] {
      assert '{' !in segs[0];
      ReplaceAbsent(segs[0], pat, rep);
    } else {
      assert forall i :: 0 <= i < |segs| - 1 ==> segs[1..][i] == segs[i + 1];
      ReplaceTemplate(segs[1..], slots[1..], ks[1..], j, rep);
      assert Swapped(slots[1..], pat, rep) == out[1..];
      var y := Template(segs[1..], slots[1..]);
      assert '{' !in segs[0];
      if slots[0] == pat {
        ReplaceAtFront(pat, y, rep);
      } else if '{' !in slots[0] {
        ReplaceAfterClean(slots[0], y, pat, rep);
      } else {
        PlaceholderSkipped(j, ks[0], y, rep);
      }
      ReplaceArg(segs[0], slots[0], y, pat, rep, out[0]);
    }
  }

  /**
   * A template of plain segments and placeholders, for any number of
   * placeholders: each placeholder of a key among the replacements ends up
   * holding that key's value, the placeholders of other keys stay, whatever
   * the insertion order, provided no key holds a brace and no value's text
   * brings in a `{`.
   */
  lemma {:induction false} SubstitutedMany(segs: seq<string>, ks: seq<string>, keys: seq<string>, vals: map<string, Val>)
    requires |segs| == |ks| + 1 && Clean(segs)
    requires forall i :: 0 <= i < |ks| ==> BraceFree(ks[i])
    requires forall j :: j in keys ==> j in vals && BraceFree(j) && '{' !in Show(vals[j])
    ensures Substituted(Template(segs, Placeholders(ks)), keys, vals) == Template(segs, SlotsAfter(ks, keys, vals))
  {
    if keys == [] {
      assert SlotsAfter(ks, keys, vals) == Placeholders(ks);
    } else {
      var init, j := keys[..|keys| - 1], keys[|keys| - 1];
      assert keys == init + [j];
      assert forall x :: x in init ==> x in keys;
      SubstitutedMany(segs, ks, init, vals);
      var before := SlotsAfter(ks, init, vals);
      ReplaceTemplate(segs, before, ks, j, Show(vals[j]));
      SlotsAfterSnoc(ks, init, j, vals);
    }
  }

  /** Replacing key `j` in the slots after `done` gives the slots after `done + [j]`. */
  lemma SlotsAfterSnoc(ks: seq<string>, done: seq<string>, j: string, vals: map<string, Val>)
    requires forall k :: k in done + [j] ==> k in vals && '{' !in Show(vals[k])
    ensures Swapped(SlotsAfter(ks, done, vals), Placeholder(j), Show(vals[j])) == SlotsAfter(ks, done + [j], vals)
  {
    var before, after := SlotsAfter(ks, done, vals), SlotsAfter(ks, done + [j], vals);
    var pat := Placeholder(j);
    var swapped := Swapped(before, pat, Show(vals[j]));
    forall i | 0 <= i < |ks|
      ensures swapped[i] == after[i]
    {
      if ks[i] in done {
        assert pat[0] == '{';
      } else if ks[i] != j && Placeholder(ks[i]) == pat {
        PlaceholderInjective(ks[i], j);
      }
    }
  }

  /**
   * A placeholder that an earlier key's value brings in is replaced too: with
   * `a` mapped to the text `{b}` and `b` to `x`, the text `{a}` ends up as `x`.
   */
  lemma ChainedPlaceholders()
    ensures Substituted("{a}", ["a", "b"], map["a" := Str("{b}"), "b" := Str("x")]) == "x"
  {
    var vals := map["a" := Str("{b}"), "b" := Str("x")];
    assert ["a", "b"][..1] == ["a"];
    assert ["a"][..0] == [];
    assert ReplaceAll("{a}", "{a}", "{b}") == "{b}" + ReplaceAll("", "{a}", "{b}");
    assert ReplaceAll("{b}", "{b}", "x") == "x" + ReplaceAll("", "{b}", "x");
  }

  /** `' '.join('--%s={%i}' % (name, i) ...)`: one `--name={i}` per grid parameter. */
  function ArgsTemplate(names: seq<string>): string
  {
    Join(" ", seq(|names|, i requires 0 <= i < |names| => "--" + names[i] + "=" + Placeholder(NatToString(i))))
  }

  /** The loop over `enumerate(job_item.param_combination)`: `{j}` replaced by the `str()` of value `j`. */
  function Filled(t: string, combo: seq<Val>): string
  {
    if combo == [] then t
    else ReplaceAll(Filled(t, combo[..|combo| - 1]), Placeholder(NatToString(|combo| - 1)), Show(combo[|combo| - 1]))
  }

  /** The argument string of one job's shell script. */
  function JobArgs(names: seq<string>, combo: seq<Val>): string
  {
    Filled(ArgsTemplate(names), combo)
  }

  /** `set_params_sh_str` as the job loop of `create_files` builds it. */
  method FillArgs(names: seq<string>, combo: seq<Val>) returns (r: string)
    ensures r == JobArgs(names, combo)
  {
    r := ArgsTemplate(names);
    var j := 0;
    while j < |combo|
      invariant 0 <= j <= |combo|
      invariant r == Filled(ArgsTemplate(names), combo[..j])
    {
      assert combo[..j + 1][..j] == combo[..j];
      r := ReplaceAll(r, Placeholder(NatToString(j)), Show(combo[j]));
      j := j + 1;
    }
    assert combo[..j] == combo;
  }

  /** The `i`-th argument after the first `k` placeholders are filled. */
  function ArgPart(names: seq<string>, shown: seq<string>, k: nat, i: nat): string
    requires |shown| == |names| && i < |names|
  {
    "--" + names[i] + "=" + (if i < k then shown[i] else Placeholder(NatToString(i)))
  }

  function ArgParts(names: seq<string>, shown: seq<string>, k: nat): (r: seq<string>)
    requires |shown| == |names|
    ensures |r| == |names| && forall i :: 0 <= i < |names| ==> r[i] == ArgPart(names, shown, k, i)
  {
    seq(|names|, i requires 0 <= i < |names| => ArgPart(names, shown, k, i))
  }

  /** Texts without `{`. */
  predicate Clean(texts: seq<string>)
  {
    forall i :: 0 <= i < |texts| ==> '{' !in texts[i]
  }

  /** The space-joined texts from position `i` on, for the last position. */
  lemma JoinLast(ps: seq<string>, i: nat)
    requires i == |ps| - 1
    ensures Join(" ", ps[i..]) == ps[i] + ""
  {
    assert ps[i..] == [ps[i]];
  }

  /** The space-joined texts from position `i` on: text `i`, a space, and the rest joined. */
  lemma JoinAt(ps: seq<string>, i: nat)
    requires i < |ps| - 1
    ensures Join(" ", ps[i..]) == ps[i] + (" " + Join(" ", ps[i + 1..]))
  {
    assert ps[i..] == [ps[i]] + ps[i + 1..];
    JoinCons(" ", ps[i], ps[i + 1..]);
  }

  /** A placeholder for another position than the one being replaced is passed over. */
  lemma PlaceholderPasses(m: nat, k: nat, y: string, rep: string)
    requires m != k
    ensures ReplaceAll(Placeholder(NatToString(m)) + y, Placeholder(NatToString(k)), rep)
         == Placeholder(NatToString(m)) + ReplaceAll(y, Placeholder(NatToString(k)), rep)
  {
    var a, b := NatToString(m), NatToString(k);
    if a == b {
      NatToStringInjective(m, k);
    }
    BracedPasses(a, b, y, rep);
  }

  /** A braced run of digits is passed over when the pattern braces other digits. */
  lemma BracedPasses(a: string, b: string, y: string, rep: string)
    requires a != b && Digits(a) && Digits(b)
    ensures ReplaceAll(Placeholder(a) + y, Placeholder(b), rep) == Placeholder(a) + ReplaceAll(y, Placeholder(b), rep)
  {
    var pat, s, t := Placeholder(b), Placeholder(a) + y, a + "}";
    assert '{' !in t by {
      forall i | 0 <= i < |t| ensures t[i] != '{' {
        if i < |a| {
          assert IsDigit(a[i]);
        }
      }
    }
    ReplaceAfterClean(t, y, pat, rep);
    var r := ReplaceAll(y, pat, rep);
    assert s == ['{'] + (t + y) && Placeholder(a) == ['{'] + t;
    if |s| >= |pat| {
      BracedMismatch(a, b, y);
      assert ReplaceAll(s, pat, rep) == ['{'] + (t + r);
    } else {
      assert ReplaceAll(s, pat, rep) == s && r == y;
    }
    assert ['{'] + (t + r) == (['{'] + t) + r;
  }

  predicate Digits(s: string)
  {
    forall i :: 0 <= i < |s| ==> IsDigit(s[i])
  }

  /** A braced run of digits does not start with a different braced run of digits. */
  lemma BracedMismatch(a: string, b: string, y: string)
    requires a != b && Digits(a) && Digits(b) && |Placeholder(a) + y| >= |Placeholder(b)|
    ensures (Placeholder(a) + y)[..|Placeholder(b)|] != Placeholder(b)
  {
    var pat, s := Placeholder(b), Placeholder(a) + y;
    if |a| < |b| {
      assert s[|a| + 1] == '}' && pat[|a| + 1] == b[|a|];
    } else if |a| > |b| {
      assert pat[|b| + 1] == '}' && s[|b| + 1] == a[|b|];
    } else {
      assert s[1..|a| + 1] == a && pat[1..|b| + 1] == b;
    }
  }

  /** One argument, followed by the text `y`, with placeholder `k` replaced. */
  lemma {:induction false} ReplacePart(names: seq<string>, shown: seq<string>, k: nat, i: nat, y: string)
    requires |shown| == |names| && k < |names| && i < |names| && Clean(names) && Clean(shown)
    ensures ReplaceAll(ArgPart(names, shown, k, i) + y, Placeholder(NatToString(k)), shown[k])
         == ArgPart(names, shown, k + 1, i) + ReplaceAll(y, Placeholder(NatToString(k)), shown[k])
  {
    var pat, rep := Placeholder(NatToString(k)), shown[k];
    var pre := "--" + names[i] + "=";
    var slot := if i < k then shown[i] else Placeholder(NatToString(i));
    var filled := if i < k + 1 then shown[i] else Placeholder(NatToString(i));
    if i < k {
      ReplaceAfterClean(slot, y, pat, rep);
    } else if i == k {
      ReplaceAtFront(pat, y, rep);
    } else {
      PlaceholderPasses(i, k, y, rep);
    }
    ReplaceArg(pre, slot, y, pat, rep, filled);
  }

  /** The text before an argument's value has no `{`, so only the value and what follows can change. */
  lemma ReplaceArg(pre: string, slot: string, y: string, pat: string, rep: string, filled: string)
    requires |pat| > 0 && pat[0] == '{' && '{' !in pre
    requires ReplaceAll(slot + y, pat, rep) == filled + ReplaceAll(y, pat, rep)
    ensures ReplaceAll(pre + slot + y, pat, rep) == pre + filled + ReplaceAll(y, pat, rep)
  {
    assert pre + slot + y == pre + (slot + y);
    ReplaceAfterClean(pre, slot + y, pat, rep);
  }

  /** The pattern at the front is replaced, and the scan goes on after it. */
  lemma ReplaceAtFront(pat: string, y: string, rep: string)
    requires |pat| > 0
    ensures ReplaceAll(pat + y, pat, rep) == rep + ReplaceAll(y, pat, rep)
  {
    assert (pat + y)[..|pat|] == pat;
    assert (pat + y)[|pat|..] == y;
  }

  /** Replacing placeholder `k` in the arguments from position `i` on fills in argument `k`. */
  lemma {:induction false} ReplaceParts(names: seq<string>, shown: seq<string>, k: nat, i: nat)
    requires |shown| == |names| && k < |names| && i < |names| && Clean(names) && Clean(shown)
    ensures ReplaceAll(Join(" ", ArgParts(names, shown, k)[i..]), Placeholder(NatToString(k)), shown[k])
         == Join(" ", ArgParts(names, shown, k + 1)[i..])
    decreases |names| - i
  {
    var pat, rep := Placeholder(NatToString(k)), shown[k];
    var ps, qs := ArgParts(names, shown, k), ArgParts(names, shown, k + 1);
    if i == |names| - 1 {
      JoinLast(ps, i);
      JoinLast(qs, i);
      ReplacePart(names, shown, k, i, "");
    } else {
      ReplaceParts(names, shown, k, i + 1);
      JoinAt(ps, i);
      JoinAt(qs, i);
      var rest := Join(" ", ps[i + 1..]);
      ReplacePart(names, shown, k, i, " " + rest);
      ReplaceAfterClean(" ", rest, pat, rep);
    }
  }

  /** After `k` positions are filled, the template reads as the first `k` values followed by placeholders. */
  lemma {:induction false} FilledParts(names: seq<string>, combo: seq<Val>, k: nat)
    requires |combo| == |names| && k <= |names| && Clean(names) && Clean(Shows(combo))
    ensures Filled(ArgsTemplate(names), combo[..k]) == Join(" ", ArgParts(names, Shows(combo), k))
  {
    var shown := Shows(combo);
    if k == 0 {
      assert ArgParts(names, shown, 0)
          == seq(|names|, i requires 0 <= i < |names| => "--" + names[i] + "=" + Placeholder(NatToString(i)));
    } else {
      FilledParts(names, combo, k - 1);
      assert combo[..k][..k - 1] == combo[..k - 1];
      if |names| > 0 {
        ReplaceParts(names, shown, k - 1, 0);
        assert ArgParts(names, shown, k - 1)[0..] == ArgParts(names, shown, k - 1);
        assert ArgParts(names, shown, k)[0..] == ArgParts(names, shown, k);
      }
    }
  }

  /**
   * When neither the names nor the values' texts hold a `{`, a job's argument
   * string is `--name=value` for every parameter, in parameter order.
   */
  lemma JobArgsPlain(names: seq<string>, combo: seq<Val>)
    requires |combo| == |names| && Clean(names) && Clean(Shows(combo))
    ensures JobArgs(names, combo)
         == Join(" ", seq(|names|, i requires 0 <= i < |names| => "--" + names[i] + "=" + Show(combo[i])))
  {
    FilledParts(names, combo, |names|);
    assert combo[..|names|] == combo;
    assert ArgParts(names, Shows(combo), |names|)
        == seq(|names|, i requires 0 <= i < |names| => "--" + names[i] + "=" + Show(combo[i]));
  }

  // ----- shared values --------------------------------------------------------

  /** `'--%s%s%s' % v`: `--key=value`, or `--key` for a `None` value. */
  function SharedArg(k: string, v: Option<Val>): string
  {
    if v.None? then "--" + k else "--" + k + "=" + Show(v.value)
  }

  function SharedParts(d: ODict<string, Option<Val>>): (r: seq<string>)
    requires forall k :: k in d.keys ==> k in d.vals
    ensures |r| == |d.keys| && forall i :: 0 <= i < |r| ==> r[i] == SharedArg(d.keys[i], d.vals[d.keys[i]])
  {
    seq(|d.keys|, i requires 0 <= i < |d.keys| => SharedArg(d.keys[i], d.vals[d.keys[i]]))
  }

  /** `sh_shared`: the shared values as arguments, space-separated, in insertion order. */
  function SharedArgs(d: ODict<string, Option<Val>>): string
    requires forall k :: k in d.keys ==> k in d.vals
  {
    Join(" ", SharedParts(d))
  }

  /**
   * When no key and no value's text holds a space, the shared argument string
   * splits back into one argument per key, in order: `--key` exactly when the
   * value is `None`, otherwise `--key=` followed by the value's text.
   */
  lemma SharedArgsSplit(d: ODict<string, Option<Val>>)
    requires ODicts.Valid(d) && |d.keys| >= 1
    requires forall k :: k in d.keys ==> ' ' !in k && (d.vals[k].Some? ==> ' ' !in Show(d.vals[k].value))
    ensures |Split(SharedArgs(d), " ")| == |d.keys|
    ensures forall i :: 0 <= i < |d.keys| ==>
              var a, k := Split(SharedArgs(d), " ")[i], d.keys[i];
              && |a| >= |k| + 2 && a[..|k| + 2] == "--" + k
              && (a == "--" + k <==> d.vals[k].None?)
              && (d.vals[k].Some? ==> a == "--" + k + "=" + Show(d.vals[k].value))
  {
    var parts := SharedParts(d);
    forall i | 0 <= i < |parts| ensures ' ' !in parts[i] {
      SharedArgShape(d.keys[i], d.vals[d.keys[i]]);
    }
    SplitJoin(parts, ' ');
    forall i | 0 <= i < |d.keys| {
      SharedArgShape(d.keys[i], d.vals[d.keys[i]]);
    }
  }

  /** One shared argument starts with `--key`, and is exactly that for a `None` value. */
  lemma SharedArgShape(k: string, v: Option<Val>)
    ensures var a := SharedArg(k, v);
            && |a| >= |k| + 2 && a[..|k| + 2] == "--" + k
            && (a == "--" + k <==> v.None?)
            && (v.Some? ==> a == "--" + k + "=" + Show(v.value))
            && (' ' !in k && (v.Some? ==> ' ' !in Show(v.value)) ==> ' ' !in a)
  {
    var a := SharedArg(k, v);
    if v.Some? {
      assert |a| > |k| + 2;
    }
  }

  lemma RemoveKeepsValid<V>(d: ODict<string, V>, k: string)
    ensures ODicts.Valid(d) ==> ODicts.Valid(Remove(d, k))
  {
    if ODicts.Valid(d) {
      RemoveValid(d, k);
    }
  }

  /** The `pop` loop of `create_files`: every grid parameter removed from the shared values. */
  function Without(d: ODict<string, Option<Val>>, names: seq<string>): (r: ODict<string, Option<Val>>)
    ensures r.vals == d.vals - set n | n in names
    ensures ODicts.Valid(d) ==> ODicts.Valid(r)
  {
    if names == [] then d
    else
      var r := Without(d, names[..|names| - 1]);
      var last := names[|names| - 1];
      RemoveKeepsValid(r, last);
      var init := names[..|names| - 1];
      assert (set n | n in names) == (set n | n in init) + {last};
      if last in r.vals then Remove(r, last) else r
  }

  // ----- print_group_code ---------------------------------------------------------

  /** `"'%s'" % v` for a string, the value itself otherwise. */
  function Quoted(v: Val): Val
  {
    if v.Str? then Str("'" + v.s + "'") else v
  }

  /** The `(name, value)` pairs of `zip(names, vars_)` whose name is not ignored, strings quoted. */
  function NotIgnored(names: seq<string>, vars: seq<Val>, ignore: seq<string>): (r: seq<(string, Val)>)
    ensures |r| <= |names| && |r| <= |vars|
    ensures forall j :: 0 <= j < |r| ==> r[j].0 !in ignore
  {
    if names == [] || vars == [] then []
    else
      var rest := NotIgnored(names[1..], vars[1..], ignore);
      if names[0] in ignore then rest else [(names[0], Quoted(vars[0]))] + rest
  }

  /** The optional `cast_params`, applied to every pair. */
  function Cast(pairs: seq<(string, Val)>, cast: Option<(string, Val) -> (string, Val)>): (r: seq<(string, Val)>)
    ensures |r| == |pairs|
  {
    if cast.None? then pairs
    else seq(|pairs|, j requires 0 <= j < |pairs| => cast.value(pairs[j].0, pairs[j].1))
  }

  /** The group key (`index_str`) and parameter text (`params_str`) of one job. */
  function KeyAndText(names: seq<string>, vars: seq<Val>, ignore: seq<string>,
                      cast: Option<(string, Val) -> (string, Val)>): (string, string)
  {
    var pairs := Cast(NotIgnored(names, vars, ignore), cast);
    (Join("#", seq(|pairs|, j requires 0 <= j < |pairs| => Show(pairs[j].1))),
     Join(", ", seq(|pairs|, j requires 0 <= j < |pairs| => pairs[j].0 + "=" + Show(pairs[j].1))))
  }

  /** One job as the clustering sees it: its key, its parameter text and its Slurm id. */
  datatype Entry = Entry(key: string, text: string, id: int)

  function Entries(jobs: seq<JobItem>, names: seq<string>, ignore: seq<string>,
                   cast: Option<(string, Val) -> (string, Val)>): (r: seq<Entry>)
    ensures |r| == |jobs|
  {
    seq(|jobs|, i requires 0 <= i < |jobs| =>
      var kt := KeyAndText(names, jobs[i].combo, ignore, cast);
      Entry(kt.0, kt.1, jobs[i].slurmId))
  }

  function Keys(es: seq<Entry>): (r: seq<string>)
    ensures |r| == |es| && forall i :: 0 <= i < |es| ==> r[i] == es[i].key
  {
    seq(|es|, i requires 0 <= i < |es| => es[i].key)
  }

  /** `group_ids`: for each key, first seen first, the ids of its jobs. */
  function GroupIds(es: seq<Entry>): (r: ODict<string, seq<int>>)
    ensures ODicts.Valid(r)
  {
    if es == [] then Empty()
    else
      var d := GroupIds(es[..|es| - 1]);
      var e := es[|es| - 1];
      Put(d, e.key, Get(d, e.key).GetOr([]) + [e.id])
  }

  /** `group_params`: for each key, the parameter text, overwritten by every later job. */
  function GroupTexts(es: seq<Entry>): (r: ODict<string, string>)
    ensures ODicts.Valid(r)
  {
    if es == [] then Empty()
    else
      var d := GroupTexts(es[..|es| - 1]);
      var e := es[|es| - 1];
      Put(d, e.key, e.text)
  }

  /** The position of the first occurrence of `k` in `ks`, or `|ks|`. */
  function FirstAt(ks: seq<string>, k: string): (r: nat)
    ensures r <= |ks| && (r < |ks| ==> ks[r] == k) && forall p :: 0 <= p < r ==> ks[p] != k
  {
    if ks == [] then 0 else if ks[0] == k then 0 else 1 + FirstAt(ks[1..], k)
  }

  /** The ids of the jobs with key `k`, in job order. */
  function IdsWith(es: seq<Entry>, k: string): seq<int>
  {
    if es == [] then []
    else IdsWith(es[..|es| - 1], k) + (if es[|es| - 1].key == k then [es[|es| - 1].id] else [])
  }

  /** The position of the last job with key `k`. */
  function LastWith(es: seq<Entry>, k: string): (r: nat)
    requires k in Keys(es)
    ensures r < |es| && es[r].key == k && forall p :: r < p < |es| ==> es[p].key != k
  {
    if es[|es| - 1].key == k then |es| - 1
    else
      KeysSnoc(es);
      LastWith(es[..|es| - 1], k)
  }

  lemma KeysSnoc(es: seq<Entry>)
    requires es != []
    ensures Keys(es) == Keys(es[..|es| - 1]) + [es[|es| - 1].key]
  {
  }

  lemma FirstAtAppend(ks: seq<string>, x: string, k: string)
    ensures FirstAt(ks + [x], k) == if k in ks then FirstAt(ks, k) else if k == x then |ks| else |ks| + 1
  {
    var r, q := FirstAt(ks + [x], k), FirstAt(ks, k);
    if k in ks {
      assert q < |ks|;
      assert (ks + [x])[q] == k;
    } else if k == x {
      assert (ks + [x])[|ks|] == k;
    }
  }

  /** There is one group per distinct key. */
  lemma {:induction false} GroupIdsKeys(es: seq<Entry>)
    ensures forall k :: k in GroupIds(es).vals <==> k in Keys(es)
  {
    if es != [] {
      GroupIdsKeys(es[..|es| - 1]);
      KeysSnoc(es);
    }
  }

  /** Each group holds the ids of exactly the jobs with its key, in job order. */
  lemma {:induction false} GroupIdsVals(es: seq<Entry>)
    ensures forall k :: k in GroupIds(es).vals ==> GroupIds(es).vals[k] == IdsWith(es, k)
  {
    if es != [] {
      var init, e := es[..|es| - 1], es[|es| - 1];
      GroupIdsVals(init);
      GroupIdsKeys(init);
      var d, r := GroupIds(init), GroupIds(es);
      forall k | k in r.vals ensures r.vals[k] == IdsWith(es, k) {
        if k == e.key && k !in d.vals {
          IdsWithAbsent(init, k);
        }
      }
    }
  }

  /** The groups are ordered by the first appearance of their keys. */
  lemma {:induction false} GroupIdsOrder(es: seq<Entry>)
    ensures forall i, j :: 0 <= i < j < |GroupIds(es).keys| ==>
              FirstAt(Keys(es), GroupIds(es).keys[i]) < FirstAt(Keys(es), GroupIds(es).keys[j])
  {
    if es != [] {
      var init, e := es[..|es| - 1], es[|es| - 1];
      GroupIdsOrder(init);
      GroupIdsKeys(init);
      var d := GroupIds(init);
      KeysSnoc(es);
      OrderSnoc(Keys(init), e.key, d.keys, GroupIds(es).keys);
    }
  }

  /** Adding a key seen for the first time at the end keeps the keys ordered by first appearance. */
  lemma OrderSnoc(ks: seq<string>, x: string, before: seq<string>, after: seq<string>)
    requires forall i, j :: 0 <= i < j < |before| ==> FirstAt(ks, before[i]) < FirstAt(ks, before[j])
    requires forall k :: k in before ==> k in ks
    requires x in ks ==> after == before
    requires x !in ks ==> after == before + [x]
    ensures forall i, j :: 0 <= i < j < |after| ==> FirstAt(ks + [x], after[i]) < FirstAt(ks + [x], after[j])
  {
    forall k ensures FirstAt(ks + [x], k) == if k in ks then FirstAt(ks, k) else if k == x then |ks| else |ks| + 1 {
      FirstAtAppend(ks, x, k);
    }
    forall k | k in before ensures FirstAt(ks, k) < |ks| {
    }
  }

  lemma {:induction false} IdsWithAbsent(es: seq<Entry>, k: string)
    requires k !in Keys(es)
    ensures IdsWith(es, k) == []
  {
    if es != [] {
      KeysSnoc(es);
      IdsWithAbsent(es[..|es| - 1], k);
    }
  }

  /** Each group's parameter text is the one of the last job with its key, and the groups come in the same order as their ids. */
  lemma {:induction false} GroupTextsSpec(es: seq<Entry>)
    ensures GroupTexts(es).keys == GroupIds(es).keys
    ensures forall k :: k in GroupTexts(es).vals ==> k in Keys(es) && GroupTexts(es).vals[k] == es[LastWith(es, k)].text
  {
    if es != [] {
      var init, e := es[..|es| - 1], es[|es| - 1];
      GroupTextsSpec(init);
      KeysSnoc(es);
      forall k | k in GroupTexts(es).vals ensures k in Keys(es) && GroupTexts(es).vals[k] == es[LastWith(es, k)].text {
        if k != e.key {
          assert k in Keys(init);
          assert LastWith(es, k) == LastWith(init, k);
        }
      }
    }
  }

  /** `str([int(i) for i in ids])` */
  function IdList(ids: seq<int>): string
  {
    "[" + Join(", ", seq(|ids|, i requires 0 <= i < |ids| => IntToString(ids[i]))) + "]"
  }

  /** The printed lines: `gm.add_group('n<i>', <ids>, <params>)` for the `i`-th group. */
  function GroupCodeLines(es: seq<Entry>): (r: seq<string>)
    ensures |r| == |GroupIds(es).keys|
  {
    GroupTextsSpec(es);
    CodeLinesOf(GroupIds(es), GroupTexts(es))
  }

  /** Every group key has its ids and its parameter text. */
  predicate Printable(ids: ODict<string, seq<int>>, texts: ODict<string, string>)
  {
    forall i :: 0 <= i < |ids.keys| ==> ids.keys[i] in ids.vals && ids.keys[i] in texts.vals
  }

  /** The line printed for the `i`-th group. */
  function CodeLine(i: nat, ids: ODict<string, seq<int>>, texts: ODict<string, string>): string
    requires Printable(ids, texts) && i < |ids.keys|
  {
    "gm.add_group('n" + NatToString(i) + "', " + IdList(ids.vals[ids.keys[i]]) + ", " + texts.vals[ids.keys[i]] + ")"
  }

  function CodeLinesOf(ids: ODict<string, seq<int>>, texts: ODict<string, string>): (r: seq<string>)
    requires Printable(ids, texts)
    ensures |r| == |ids.keys|
  {
    seq(|ids.keys|, i requires 0 <= i < |ids.keys| => CodeLine(i, ids, texts))
  }

  lemma CodeLinesPrefix(ids: ODict<string, seq<int>>, texts: ODict<string, string>, n: nat)
    requires Printable(ids, texts) && n < |ids.keys|
    ensures CodeLinesOf(ids, texts)[..n + 1] == CodeLinesOf(ids, texts)[..n] + [CodeLine(n, ids, texts)]
  {
    var r := CodeLinesOf(ids, texts);
    assert r[..n + 1] == r[..n] + [r[n]];
  }

  // ----- create_files: the generated texts -------------------------------------

  /** The ten template replacements a new `Slurmer` starts with. */
  function DefaultReplacements(): (r: ODict<string, Val>)
    ensures ODicts.Valid(r) && |r.keys| == 10
    ensures Get(r, "partition") == Some(Str("test")) && Get(r, "time") == Some(Str("00:15:00"))
  {
    var keys := DefaultKeys();
    DefaultKeysDistinct();
    ODict(keys, map[
      "job_name" := Str("name_not_set"), "nodes" := Str("1"), "ntasks" := Str("1"),
      "cpus_per_task" := Str("4"), "mem_per_cpu" := Str("12G"), "gpus" := Str("1"),
      "partition" := Str("test"), "time" := Str("00:15:00"), "out_path" := Str("./out/"),
      "mail_type" := Str("ALL")])
  }

  function DefaultKeys(): seq<string>
  {
    ["job_name", "nodes", "ntasks", "cpus_per_task", "mem_per_cpu",
     "gpus", "partition", "time", "out_path", "mail_type"]
  }

  /** The default keys differ in length, or else in their first letter. */
  lemma DefaultKeysDistinct()
    ensures forall i, j :: 0 <= i < j < |DefaultKeys()| ==> DefaultKeys()[i] != DefaultKeys()[j]
  {
    var ks := DefaultKeys();
    assert |ks| == 10;
    assert |ks[0]| == 8 && |ks[1]| == 5 && |ks[2]| == 6 && |ks[3]| == 13 && |ks[4]| == 11;
    assert |ks[5]| == 4 && |ks[6]| == 9 && |ks[7]| == 4 && |ks[8]| == 8 && |ks[9]| == 9;
    assert ks[0][0] != ks[8][0] && ks[5][0] != ks[7][0] && ks[6][0] != ks[9][0];
  }

  /** `[p[0] for p in sh_param_values]` */
  function Names(pvs: seq<(string, seq<Val>)>): (r: seq<string>)
    ensures |r| == |pvs| && forall i :: 0 <= i < |pvs| ==> r[i] == pvs[i].0
  {
    seq(|pvs|, i requires 0 <= i < |pvs| => pvs[i].0)
  }

  /** `[p[1] for p in sh_param_values]` */
  function ValueLists(pvs: seq<(string, seq<Val>)>): (r: seq<seq<Val>>)
    ensures |r| == |pvs| && forall i :: 0 <= i < |pvs| ==> r[i] == pvs[i].1
  {
    seq(|pvs|, i requires 0 <= i < |pvs| => pvs[i].1)
  }

  /** The grid-search jobs: one per combination, named after its safe values. */
  function GridJobs(pvs: seq<(string, seq<Val>)>): (r: seq<JobItem>)
    requires |pvs| >= 1
    ensures |r| == Product(ValueLists(pvs))
  {
    var named := NamedGridOf(ValueLists(pvs));
    seq(|named|, k requires 0 <= k < |named| => JobItem(named[k].0, Names(pvs), named[k].1, -1))
  }

  /** The shell template with the extra lines, the shared arguments and the replacements filled in. */
  function ShContent(template: string, before: seq<string>, after: seq<string>,
                     shared: ODict<string, Option<Val>>, repl: ODict<string, Val>): string
    requires forall k :: k in shared.keys ==> k in shared.vals
    requires forall k :: k in repl.keys ==> k in repl.vals
  {
    var t := ReplaceAll(template, "{lines_before}", Join("\n", before));
    var t := ReplaceAll(t, "{lines_after}", Join("\n", after));
    var t := ReplaceAll(t, "{shared_values}", SharedArgs(shared));
    Substituted(t, repl.keys, repl.vals)
  }

  /** The two files written for one job: the shell script and the sbatch file, each with its path. */
  datatype Script = Script(shPath: string, sh: string, sbPath: string, sb: string)

  /** The files of one job, from the two filled templates. */
  function ScriptOf(job: JobItem, names: seq<string>, contentSh: string, contentSb: string, pastePath: string): (r: Script)
  {
    var shPath := pastePath + job.name + ".sh";
    Script(shPath,
           ReplaceAll(ReplaceAll(contentSh, "{params}", JobArgs(names, job.combo)), "{name}", job.name),
           pastePath + job.name + ".sbatch",
           ReplaceAll(ReplaceAll(contentSb, "{path}", shPath), "{name}", job.name))
  }

  /** The `pop` loop of `create_files`. */
  method DropKeys(d: ODict<string, Option<Val>>, names: seq<string>) returns (r: ODict<string, Option<Val>>)
    ensures r == Without(d, names)
  {
    r := d;
    var i := 0;
    while i < |names|
      invariant 0 <= i <= |names|
      invariant r == Without(d, names[..i])
    {
      assert names[..i + 1][..i] == names[..i];
      if names[i] in r.vals {
        r := Remove(r, names[i]);
      }
      i := i + 1;
    }
    assert names[..i] == names;
  }

  /** The grid-search loop of `create_files`: a `JobItem` per named combination. */
  method GridJobItems(pvs: seq<(string, seq<Val>)>) returns (js: seq<JobItem>)
    requires |pvs| >= 1
    ensures js == GridJobs(pvs)
  {
    var named := NamedGrid(ValueLists(pvs));
    var names := Names(pvs);
    js := [];
    var k := 0;
    while k < |named|
      invariant 0 <= k <= |named|
      invariant js == GridJobs(pvs)[..k]
    {
      js := js + [JobItem(named[k].0, names, named[k].1, -1)];
      k := k + 1;
    }
  }

  /** The job loop of `print_group_code`, filling `group_ids` and `group_params`. */
  method Cluster(es: seq<Entry>) returns (ids: ODict<string, seq<int>>, texts: ODict<string, string>)
    ensures ids == GroupIds(es) && texts == GroupTexts(es)
  {
    ids, texts := Empty(), Empty();
    var i := 0;
    while i < |es|
      invariant 0 <= i <= |es|
      invariant ids == GroupIds(es[..i]) && texts == GroupTexts(es[..i])
    {
      assert es[..i + 1][..i] == es[..i];
      ids := Put(ids, es[i].key, Get(ids, es[i].key).GetOr([]) + [es[i].id]);
      texts := Put(texts, es[i].key, es[i].text);
      i := i + 1;
    }
    assert es[..i] == es;
  }

  /** The printing loop of `print_group_code`, one line per group in order. */
  method CodeLines(es: seq<Entry>, ids: ODict<string, seq<int>>, texts: ODict<string, string>) returns (lines: seq<string>)
    requires ids == GroupIds(es) && texts == GroupTexts(es)
    ensures lines == GroupCodeLines(es)
  {
    GroupTextsSpec(es);
    assert Printable(ids, texts);
    lines := [];
    var n := 0;
    while n < |ids.keys|
      invariant 0 <= n <= |ids.keys|
      invariant lines == CodeLinesOf(ids, texts)[..n]
    {
      var k := ids.keys[n];
      CodeLinesPrefix(ids, texts, n);
      lines := lines + ["gm.add_group('n" + NatToString(n) + "', " + IdList(ids.vals[k]) + ", " + texts.vals[k] + ")"];
      n := n + 1;
    }
  }

  /**
   * A `Slurmer`: the template replacements, the grid parameters, the extra
   * shell lines, the shared values and the jobs, as the setters leave them.
   */
  class Slurmer {
    var pastePath: string
    var replacements: ODict<string, Val>
    var paramNames: seq<string>
    var paramValues: seq<(string, seq<Val>)>
    var linesBefore: seq<string>
    var linesAfter: seq<string>
    var sharedValues: ODict<string, Option<Val>>
    var jobs: seq<JobItem>

    /** The two dictionaries are well formed. */
    ghost predicate Valid()
      reads this
    {
      ODicts.Valid(replacements) && ODicts.Valid(sharedValues)
    }

    /** `Slurmer(paste_path=...)`: the default replacements, and nothing else set yet. */
    constructor(pastePath: string)
      ensures Valid()
      ensures this.pastePath == pastePath + "/" && replacements == DefaultReplacements()
      ensures paramNames == [] && paramValues == [] && linesBefore == [] && linesAfter == []
      ensures sharedValues == Empty() && jobs == []
    {
      this.pastePath := pastePath + "/";
      replacements := DefaultReplacements();
      paramNames, paramValues := [], [];
      linesBefore, linesAfter := [], [];
      sharedValues := Empty();
      jobs := [];
    }

    /** `set_str_replacements(d)`: `d` overlaid on the replacements, existing keys keeping their place. */
    method SetStrReplacements(d: ODict<string, Val>)
      requires Valid() && ODicts.Valid(d)
      modifies this`replacements
      ensures Valid()
      ensures replacements == Update(old(replacements), d)
      ensures replacements.vals == old(replacements.vals) + d.vals
      ensures |old(replacements.keys)| <= |replacements.keys|
      ensures old(replacements.keys) == replacements.keys[..|old(replacements.keys)|]
    {
      UpdateVals(replacements, d);
      replacements := Update(replacements, d);
    }

    /** `set_sh_shared_values(d)` */
    method SetShSharedValues(d: ODict<string, Option<Val>>)
      requires Valid() && ODicts.Valid(d)
      modifies this`sharedValues
      ensures Valid() && sharedValues == d
    {
      sharedValues := d;
    }

    /** `set_param_values(pvs)` */
    method SetParamValues(pvs: seq<(string, seq<Val>)>)
      modifies this`paramValues
      ensures paramValues == pvs
    {
      paramValues := pvs;
    }

    /** `add_sh_line(text, before, after)` */
    method AddShLine(text: string, before: bool, after: bool)
      modifies this`linesBefore, this`linesAfter
      ensures linesBefore == old(linesBefore) + (if before then [text] else [])
      ensures linesAfter == old(linesAfter) + (if after then [text] else [])
    {
      if before {
        linesBefore := linesBefore + [text];
      }
      if after {
        linesAfter := linesAfter + [text];
      }
    }

    /** `add_param(name, values)` */
    method AddParam(name: string, values: seq<Val>)
      modifies this`paramValues
      ensures paramValues == old(paramValues) + [(name, values)]
    {
      paramValues := paramValues + [(name, values)];
    }

    /** `add_job(name, variables)`: the job records the parameter names as they are now. */
    method AddJob(name: string, vars: seq<Val>)
      modifies this`jobs
      ensures jobs == old(jobs) + [JobItem(name, paramNames, vars, -1)]
    {
      jobs := jobs + [JobItem(name, paramNames, vars, -1)];
    }

    /** `_fully_replace(s)` */
    method FullyReplace(s: string) returns (r: string)
      requires Valid()
      ensures r == Substituted(s, replacements.keys, replacements.vals)
    {
      r := s;
      var j := 0;
      while j < |replacements.keys|
        invariant 0 <= j <= |replacements.keys|
        invariant r == Substituted(s, replacements.keys[..j], replacements.vals)
      {
        var k := replacements.keys[j];
        assert replacements.keys[..j + 1][..j] == replacements.keys[..j];
        r := ReplaceAll(r, Placeholder(k), Show(replacements.vals[k]));
        j := j + 1;
      }
      assert replacements.keys[..j] == replacements.keys;
    }

    /**
     * The bookkeeping of `create_files`: the grid parameters' names are
     * recorded, they are dropped from the shared values, and with the grid
     * search on one job per combination is added after the existing jobs.
     */
    method PrepareJobs(searchGrid: bool)
      requires Valid()
      modifies this`paramNames, this`sharedValues, this`jobs
      ensures Valid()
      ensures paramNames == Names(paramValues)
      ensures sharedValues == Without(old(sharedValues), paramNames)
      ensures jobs == old(jobs) + (if searchGrid && |paramValues| > 0 then GridJobs(paramValues) else [])
    {
      paramNames := Names(paramValues);
      sharedValues := DropKeys(sharedValues, paramNames);
      if searchGrid && |paramValues| > 0 {
        var added := GridJobItems(paramValues);
        jobs := jobs + added;
      }
    }

    /** The texts `create_files` writes, one script pair per job, from the two templates' contents. */
    method Scripts(shTemplate: string, sbTemplate: string) returns (scripts: seq<Script>)
      requires Valid()
      ensures |scripts| == |jobs|
      ensures forall i :: 0 <= i < |jobs| ==>
                scripts[i] == ScriptOf(jobs[i], paramNames,
                                       ShContent(shTemplate, linesBefore, linesAfter, sharedValues, replacements),
                                       Substituted(sbTemplate, replacements.keys, replacements.vals), pastePath)
    {
      var t := ReplaceAll(shTemplate, "{lines_before}", Join("\n", linesBefore));
      t := ReplaceAll(t, "{lines_after}", Join("\n", linesAfter));
      t := ReplaceAll(t, "{shared_values}", SharedArgs(sharedValues));
      var contentSh := FullyReplace(t);
      var contentSb := FullyReplace(sbTemplate);
      scripts := [];
      var i := 0;
      while i < |jobs|
        invariant 0 <= i <= |jobs| && |scripts| == i
        invariant forall m :: 0 <= m < i ==> scripts[m] == ScriptOf(jobs[m], paramNames, contentSh, contentSb, pastePath)
      {
        var job := jobs[i];
        var shPath := pastePath + job.name + ".sh";
        var args := FillArgs(paramNames, job.combo);
        var sh := ReplaceAll(ReplaceAll(contentSh, "{params}", args), "{name}", job.name);
        var sb := ReplaceAll(ReplaceAll(contentSb, "{path}", shPath), "{name}", job.name);
        scripts := scripts + [Script(shPath, sh, pastePath + job.name + ".sbatch", sb)];
        i := i + 1;
      }
    }

    /**
     * `create_files(search_grid)`: the jobs are prepared, then the two
     * templates' contents are turned into one script pair per job.
     */
    method CreateFiles(searchGrid: bool, shTemplate: string, sbTemplate: string) returns (scripts: seq<Script>)
      requires Valid()
      modifies this`paramNames, this`sharedValues, this`jobs
      ensures Valid()
      ensures paramNames == Names(paramValues)
      ensures sharedValues == Without(old(sharedValues), paramNames)
      ensures jobs == old(jobs) + (if searchGrid && |paramValues| > 0 then GridJobs(paramValues) else [])
      ensures |scripts| == |jobs|
      ensures forall i :: 0 <= i < |jobs| ==>
                scripts[i] == ScriptOf(jobs[i], paramNames,
                                       ShContent(shTemplate, linesBefore, linesAfter, sharedValues, replacements),
                                       Substituted(sbTemplate, replacements.keys, replacements.vals), pastePath)
    {
      PrepareJobs(searchGrid);
      scripts := Scripts(shTemplate, sbTemplate);
    }

    /**
     * The clustering of `print_group_code(ignore, cast_params)`: the printed
     * lines, one per group of jobs sharing their non-ignored values.
     */
    method GroupCode(ignore: seq<string>, cast: Option<(string, Val) -> (string, Val)>) returns (lines: seq<string>)
      ensures lines == GroupCodeLines(Entries(jobs, paramNames, ignore, cast))
    {
      var es := Entries(jobs, paramNames, ignore, cast);
      var ids, texts := Cluster(es);
      lines := CodeLines(es, ids, texts);
    }
  }
}
