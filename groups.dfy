/**
 * `Group` and `GroupSeparator` (slurmer/parse/group.py): a named set of slurm jobs
 * sharing parameters, their logged series, and the results computed over them,
 * together with the class-wide registries of parameter and result keys that
 * decide the table columns.
 *
 * A group is a value here: each operation that updates a group in place returns
 * the updated group, and the registries are passed in and returned.
 */
module Groups {
  import opened Wrappers
  import opened PyStr
  import opened ODicts
  import opened Metrics
  import opened Seqs

  /** One tensorboard scalar event `(wall_time, step, value)`. */
  datatype Sample = Sample(wallTime: real, step: int, value: Float)

  /** The logged series of one job, by metric key. */
  type JobLog = map<string, seq<Sample>>

  /**
   * `Group.all_param_keys` and `Group.all_result_keys`: insertion-ordered sets of
   * every parameter key and every result name seen so far.
   */
  datatype Registry = Registry(params: seq<string>, results: seq<string>)

  ghost predicate Distinct(s: seq<string>)
  {
    forall i, j :: 0 <= i < j < |s| ==> s[i] != s[j]
  }

  ghost predicate ValidRegistry(reg: Registry)
  {
    Distinct(reg.params) && Distinct(reg.results)
  }

  /**
   * A group or a separator. `GroupSeparator` inherits every field and every method
   * of `Group` except `update_results` and the two row builders.
   */
  datatype Group =
    | Group(name: string, ids: seq<int>, params: ODict<string, string>,
            data: ODict<int, JobLog>, results: map<string, Result>)
    | Separator(name: string, ids: seq<int>, params: ODict<string, string>,
                data: ODict<int, JobLog>, results: map<string, Result>)

  ghost predicate ValidGroup(g: Group)
  {
    Valid(g.params) && Valid(g.data)
  }

  /** `registry[k] = True`: a new key goes last, a known key stays where it is. */
  function Register(keys: seq<string>, k: string): (r: seq<string>)
    ensures forall x :: x in r <==> x in keys || x == k
    ensures |keys| <= |r| && r[..|keys|] == keys
    ensures Distinct(keys) ==> Distinct(r)
  {
    if k in keys then keys else keys + [k]
  }

  /** Registering the keys `ks` one after the other. */
  function RegisterAll(keys: seq<string>, ks: seq<string>): (r: seq<string>)
    ensures forall x :: x in r <==> x in keys || x in ks
    ensures |keys| <= |r| && r[..|keys|] == keys
    ensures Distinct(keys) ==> Distinct(r)
    decreases |ks|
  {
    if ks == [] then keys
    else
      var r := RegisterAll(Register(keys, ks[0]), ks[1..]);
      assert r[..|keys|] == r[..|Register(keys, ks[0])|][..|keys|];
      r
  }

  /**
   * `Group(name, ids, **kwargs)`: the ids keep their order, the parameters their
   * keyword order, and every parameter key is registered.
   */
  function NewGroup(name: string, ids: seq<int>, kwargs: ODict<string, string>, reg: Registry): (r: (Group, Registry))
    ensures r.0.Group? && r.0.name == name && r.0.ids == ids && r.0.params == kwargs
    ensures r.0.data.keys == [] && r.0.data.vals == map[] && r.0.results == map[]
    ensures forall k :: k in r.1.params <==> k in reg.params || k in kwargs.keys
    ensures |reg.params| <= |r.1.params| && r.1.params[..|reg.params|] == reg.params
    ensures r.1.results == reg.results
  {
    (Group(name, ids, kwargs, Empty(), map[]), reg.(params := RegisterAll(reg.params, kwargs.keys)))
  }

  /**
   * `GroupSeparator(**kwargs)`: the counter is bumped on the instance, never on the
   * class, so every separator is called `separator 0`.
   */
  function NewSeparator(kwargs: ODict<string, string>, reg: Registry): (r: (Group, Registry))
    ensures r.0.Separator? && r.0.name == "separator 0" && r.0.ids == [] && r.0.results == map[]
    ensures forall k :: k in r.1.params <==> k in reg.params || k in kwargs.keys
    ensures r.1.results == reg.results
  {
    (Separator("separator 0", [], kwargs, Empty(), map[]), reg.(params := RegisterAll(reg.params, kwargs.keys)))
  }

  /**
   * `merge(other)`: the name (and the kind) stays, the ids are concatenated, and
   * params, data and results are overlaid by the other group's.
   */
  function Merge(g: Group, other: Group): (r: Group)
    requires ValidGroup(other)
    ensures r.Group? == g.Group? && r.name == g.name && r.ids == g.ids + other.ids
    ensures r.results == g.results + other.results
    ensures ValidGroup(g) ==> ValidGroup(r)
  {
    g.(ids := g.ids + other.ids, params := Update(g.params, other.params),
       data := Update(g.data, other.data), results := g.results + other.results)
  }

  /**
   * After a merge the other group wins on every shared parameter and job, the
   * group's own parameters and jobs keep their order, and the other's new ones
   * follow.
   */
  lemma MergeOverlay(g: Group, other: Group)
    requires ValidGroup(g) && ValidGroup(other)
    ensures Merge(g, other).params.vals == g.params.vals + other.params.vals
    ensures Merge(g, other).data.vals == g.data.vals + other.data.vals
    ensures |g.params.keys| <= |Merge(g, other).params.keys|
    ensures Merge(g, other).params.keys[..|g.params.keys|] == g.params.keys
    ensures |g.data.keys| <= |Merge(g, other).data.keys|
    ensures Merge(g, other).data.keys[..|g.data.keys|] == g.data.keys
    ensures forall k :: k in Merge(g, other).params.keys <==> k in g.params.keys || k in other.params.keys
  {
    UpdateVals(g.params, other.params);
    UpdateVals(g.data, other.data);
  }

  /** `self.data[id_].update(log)` on the `defaultdict`: a job seen first gets `{}`. */
  function OverlayJob(data: ODict<int, JobLog>, id: int, log: JobLog): (r: ODict<int, JobLog>)
    ensures Valid(data) ==> Valid(r)
  {
    Put(data, id, Get(data, id).GetOr(map[]) + log)
  }

  /** `update_data(id_, data)` */
  function UpdateData(g: Group, id: int, log: JobLog): (r: Group)
    ensures r == g.(data := r.data)
    ensures r.data.vals == g.data.vals[id := (if id in g.data.vals then g.data.vals[id] else map[]) + log]
    ensures ValidGroup(g) ==> ValidGroup(r)
  {
    g.(data := OverlayJob(g.data, id, log))
  }

  /** The effect of `update_all_data` on the data, one id after the other. */
  function OverlayIds(data: ODict<int, JobLog>, ids: seq<int>, incoming: map<int, JobLog>): ODict<int, JobLog>
    decreases |ids|
  {
    if ids == [] then data
    else OverlayIds(if ids[0] in incoming then OverlayJob(data, ids[0], incoming[ids[0]]) else data, ids[1..], incoming)
  }

  /** `update_all_data(data)` */
  method UpdateAllData(g: Group, incoming: map<int, JobLog>) returns (r: Group)
    ensures r == g.(data := OverlayIds(g.data, g.ids, incoming))
  {
    var data := g.data;
    var i := 0;
    while i < |g.ids|
      invariant 0 <= i <= |g.ids|
      invariant OverlayIds(data, g.ids[i..], incoming) == OverlayIds(g.data, g.ids, incoming)
    {
      var id := g.ids[i];
      assert g.ids[i..][1..] == g.ids[i + 1..];
      if id in incoming {
        data := OverlayJob(data, id, incoming[id]);
      }
      i := i + 1;
    }
    r := g.(data := data);
  }

  /** The effect of `update_all_data` on the mapping alone, ignoring the order of the jobs. */
  ghost function OverlayMap(vals: map<int, JobLog>, ids: seq<int>, incoming: map<int, JobLog>): map<int, JobLog>
    decreases |ids|
  {
    if ids == [] then vals
    else
      var id := ids[0];
      OverlayMap(if id in incoming then vals[id := (if id in vals then vals[id] else map[]) + incoming[id]] else vals,
                 ids[1..], incoming)
  }

  lemma {:induction false} OverlayIdsVals(data: ODict<int, JobLog>, ids: seq<int>, incoming: map<int, JobLog>)
    ensures OverlayIds(data, ids, incoming).vals == OverlayMap(data.vals, ids, incoming)
    decreases |ids|
  {
    if ids != [] {
      var id := ids[0];
      OverlayIdsVals(if id in incoming then OverlayJob(data, id, incoming[id]) else data, ids[1..], incoming);
    }
  }

  /** `update_all_data` keeps the jobs already present in their order and adds new ones last. */
  lemma {:induction false} OverlayIdsKeys(data: ODict<int, JobLog>, ids: seq<int>, incoming: map<int, JobLog>)
    requires Valid(data)
    ensures Valid(OverlayIds(data, ids, incoming))
    ensures |data.keys| <= |OverlayIds(data, ids, incoming).keys|
    ensures OverlayIds(data, ids, incoming).keys[..|data.keys|] == data.keys
    decreases |ids|
  {
    if ids != [] {
      var id := ids[0];
      var next := if id in incoming then OverlayJob(data, id, incoming[id]) else data;
      OverlayIdsKeys(next, ids[1..], incoming);
      assert |data.keys| <= |next.keys| && next.keys[..|data.keys|] == data.keys;
      PrefixOfPrefix(data.keys, next.keys, OverlayIds(next, ids[1..], incoming).keys);
    }
  }

  /**
   * `update_all_data` touches exactly the group's ids present in the supplied map:
   * each such job's series are overlaid metric by metric (starting from `{}` for
   * a job seen first), and every other job is left as it was.
   */
  lemma {:induction false} OverlayMapEffect(vals: map<int, JobLog>, ids: seq<int>, incoming: map<int, JobLog>)
    ensures forall k :: k in OverlayMap(vals, ids, incoming) <==> k in vals || (k in ids && k in incoming)
    ensures forall k :: k in OverlayMap(vals, ids, incoming) && !(k in ids && k in incoming) ==>
              OverlayMap(vals, ids, incoming)[k] == vals[k]
    ensures forall k :: k in ids && k in incoming ==>
              OverlayMap(vals, ids, incoming)[k] == (if k in vals then vals[k] else map[]) + incoming[k]
    decreases |ids|
  {
    if ids != [] {
      var id := ids[0];
      var next := if id in incoming then vals[id := (if id in vals then vals[id] else map[]) + incoming[id]] else vals;
      OverlayMapEffect(next, ids[1..], incoming);
      var r := OverlayMap(vals, ids, incoming);
      assert r == OverlayMap(next, ids[1..], incoming);
      assert forall k :: k in ids <==> k == id || k in ids[1..];
      forall k | k in ids && k in incoming
        ensures r[k] == (if k in vals then vals[k] else map[]) + incoming[k]
      {
        if k == id && k in ids[1..] {
          var base: JobLog := if k in vals then vals[k] else map[];
          assert (base + incoming[k]) + incoming[k] == base + incoming[k];
        }
      }
    }
  }

  /** Updating the data twice with the same map is updating it once. */
  lemma OverlayIdsIdempotent(data: ODict<int, JobLog>, ids: seq<int>, incoming: map<int, JobLog>)
    ensures OverlayIds(OverlayIds(data, ids, incoming), ids, incoming).vals == OverlayIds(data, ids, incoming).vals
  {
    var once := OverlayIds(data, ids, incoming);
    OverlayIdsVals(data, ids, incoming);
    OverlayIdsVals(once, ids, incoming);
    OverlayMapEffect(data.vals, ids, incoming);
    OverlayMapEffect(once.vals, ids, incoming);
    var twice := OverlayIds(once, ids, incoming);
    forall k | k in twice.vals ensures twice.vals[k] == once.vals[k] {
      if k in ids && k in incoming {
        var base: JobLog := if k in data.vals then data.vals[k] else map[];
        assert once.vals[k] == base + incoming[k];
        assert (base + incoming[k]) + incoming[k] == base + incoming[k];
      }
    }
    forall k | k in twice.vals ensures k in once.vals {
      assert k in OverlayMap(once.vals, ids, incoming);
      if k in ids && k in incoming {
        assert k in OverlayMap(data.vals, ids, incoming);
      }
    }
    forall k | k in once.vals ensures k in twice.vals {
      assert k in OverlayMap(once.vals, ids, incoming);
    }
  }

  /** `np.array([v[2] for v in series])`, then `v[-last_k:]` when `last_k` is a positive int. */
  function Series(samples: seq<Sample>, lastK: Option<int>): (v: seq<Float>)
    ensures lastK.Some? && lastK.value > 0 ==> |v| <= lastK.value
    ensures |v| <= |samples|
  {
    var v := seq(|samples|, i requires 0 <= i < |samples| => samples[i].value);
    if lastK.Some? && lastK.value > 0 then
      TakeLast(v, lastK.value);
      SliceFrom(v, -lastK.value)
    else v
  }

  /** The two lists `_values` builds: the present series, and the jobs missing the key. */
  datatype Collected = Collected(rows: seq<seq<Float>>, missing: seq<int>)

  /** What `_values` has built after visiting the jobs `jobs` in order. */
  function Collect(data: ODict<int, JobLog>, jobs: seq<int>, key: string, lastK: Option<int>): Collected
    decreases |jobs|
  {
    if jobs == [] then Collected([], [])
    else
      var c := Collect(data, jobs[..|jobs| - 1], key, lastK);
      var j := jobs[|jobs| - 1];
      if j in data.vals && key in data.vals[j] then Collected(c.rows + [Series(data.vals[j][key], lastK)], c.missing)
      else Collected(c.rows, c.missing + [j])
  }

  /**
   * Every job of `jobs` lands in exactly one list: in `missing` when it lacks the
   * key, otherwise as a row; there are no rows exactly when no job has the key,
   * and with a positive `last_k` no row is longer than `last_k`.
   */
  lemma {:induction false} CollectParts(data: ODict<int, JobLog>, jobs: seq<int>, key: string, lastK: Option<int>)
    requires forall j :: j in jobs ==> j in data.vals
    ensures var c := Collect(data, jobs, key, lastK);
            && |c.rows| + |c.missing| == |jobs|
            && (forall j :: j in c.missing <==> j in jobs && key !in data.vals[j])
            && (c.rows == [] <==> forall j :: j in jobs ==> key !in data.vals[j])
            && (lastK.Some? && lastK.value > 0 ==> forall i :: 0 <= i < |c.rows| ==> |c.rows[i]| <= lastK.value)
    decreases |jobs|
  {
    if jobs != [] {
      var init := jobs[..|jobs| - 1];
      assert forall j :: j in jobs <==> j in init || j == jobs[|jobs| - 1] by {
        assert jobs == init + [jobs[|jobs| - 1]];
      }
      CollectParts(data, init, key, lastK);
    }
  }

  /** What `_values` returns: the stacked array (`None` without rows) and the missing ids. */
  datatype Gathered = Gathered(values: Option<seq<seq<Float>>>, missing: seq<int>)

  datatype GroupError =
    | RaggedSeries(key: string)        // the length assertion of `_values`
    | MetricFailed(cause: MetricsError)

  /** `_values(key, last_k)`, walking the jobs of `self.data` (not `self.ids`). */
  function ValuesOf(g: Group, key: string, lastK: Option<int>): Outcome<Gathered, GroupError>
  {
    var c := Collect(g.data, g.data.keys, key, lastK);
    if !Rectangular(c.rows) then Err(RaggedSeries(key))
    else Ok(Gathered(if c.rows == [] then None else Some(c.rows), c.missing))
  }

  /** `_values(key, last_k)` */
  method Values(g: Group, key: string, lastK: Option<int>) returns (r: Outcome<Gathered, GroupError>)
    ensures r == ValuesOf(g, key, lastK)
  {
    var rows: seq<seq<Float>> := [];
    var missing: seq<int> := [];
    var i := 0;
    while i < |g.data.keys|
      invariant 0 <= i <= |g.data.keys|
      invariant Collected(rows, missing) == Collect(g.data, g.data.keys[..i], key, lastK)
    {
      var id := g.data.keys[i];
      assert g.data.keys[..i + 1][..i] == g.data.keys[..i];
      if id in g.data.vals && key in g.data.vals[id] {
        rows := rows + [Series(g.data.vals[id][key], lastK)];
      } else {
        missing := missing + [id];
      }
      i := i + 1;
    }
    assert g.data.keys[..i] == g.data.keys;
    if !Rectangular(rows) {
      return Err(RaggedSeries(key));
    }
    r := Ok(Gathered(if rows == [] then None else Some(rows), missing));
  }

  /**
   * `_values` lists as missing exactly the jobs whose series lack the key, returns
   * `None` exactly when no job has it, and fails exactly when two present series
   * differ in length.
   */
  lemma ValuesOfMeaning(g: Group, key: string, lastK: Option<int>)
    requires ValidGroup(g)
    ensures ValuesOf(g, key, lastK).Ok? ==>
              var r := ValuesOf(g, key, lastK).value;
              && (forall j :: j in r.missing <==> j in g.data.vals && key !in g.data.vals[j])
              && (r.values.None? <==> forall j :: j in g.data.vals ==> key !in g.data.vals[j])
              && (r.values.Some? ==> Rectangular(r.values.value))
    ensures ValuesOf(g, key, lastK).Err? <==> !Rectangular(Collect(g.data, g.data.keys, key, lastK).rows)
  {
    CollectParts(g.data, g.data.keys, key, lastK);
  }

  function Lookup(results: map<string, Result>, name: string): Option<Result>
  {
    if name in results then Some(results[name]) else None
  }

  function Names(rs: seq<Result>): (r: seq<string>)
    ensures |r| == |rs| && forall i :: 0 <= i < |rs| ==> r[i] == rs[i].name
  {
    seq(|rs|, i requires 0 <= i < |rs| => rs[i].name)
  }

  /**
   * The inner loop of `update_results`: for each result, store the larger of it
   * and the stored one, and register its name.
   */
  function Absorb(results: map<string, Result>, names: seq<string>, rs: seq<Result>): (map<string, Result>, seq<string>)
    decreases |rs|
  {
    if rs == [] then (results, names)
    else
      var x := rs[0];
      Absorb(results[x.name := Max(x, Lookup(results, x.name))], Register(names, x.name), rs[1..])
  }

  /** Absorbing registers every absorbed name, after the known ones and in order. */
  lemma {:induction false} AbsorbRegisters(results: map<string, Result>, names: seq<string>, rs: seq<Result>)
    ensures forall n :: n in Absorb(results, names, rs).1 <==> n in names || n in Names(rs)
    ensures |names| <= |Absorb(results, names, rs).1| && Absorb(results, names, rs).1[..|names|] == names
    ensures Distinct(names) ==> Distinct(Absorb(results, names, rs).1)
    decreases |rs|
  {
    if rs != [] {
      var x := rs[0];
      var results' := results[x.name := Max(x, Lookup(results, x.name))];
      var names' := Register(names, x.name);
      AbsorbRegisters(results', names', rs[1..]);
      var reg := Absorb(results, names, rs).1;
      assert Names(rs) == [x.name] + Names(rs[1..]);
      assert reg[..|names|] == reg[..|names'|][..|names|];
    }
  }

  /** Absorbing stores a result under every absorbed name and drops none. */
  lemma {:induction false} AbsorbStores(results: map<string, Result>, names: seq<string>, rs: seq<Result>)
    ensures forall n :: n in Absorb(results, names, rs).0 <==> n in results || n in Names(rs)
    decreases |rs|
  {
    if rs != [] {
      var x := rs[0];
      AbsorbStores(results[x.name := Max(x, Lookup(results, x.name))], Register(names, x.name), rs[1..]);
      assert Names(rs) == [x.name] + Names(rs[1..]);
    }
  }

  /**
   * A stored result changes only to an absorbed number, so an N/A result never
   * displaces anything; a name that holds a number keeps holding one; and every
   * name absorbed with a number ends up holding a number.
   */
  lemma AbsorbKeepsLarger(results: map<string, Result>, names: seq<string>, rs: seq<Result>)
    ensures forall n :: n in results ==> n in Absorb(results, names, rs).0
    ensures forall i :: 0 <= i < |rs| ==> rs[i].name in Absorb(results, names, rs).0
    ensures forall n :: n in results ==>
              Absorb(results, names, rs).0[n] == results[n]
              || (Absorb(results, names, rs).0[n] in rs && Absorb(results, names, rs).0[n].value.Number?)
    ensures forall n :: n in results && results[n].value.Number? ==> Absorb(results, names, rs).0[n].value.Number?
    ensures forall i :: 0 <= i < |rs| && rs[i].value.Number? ==> Absorb(results, names, rs).0[rs[i].name].value.Number?
  {
    AbsorbStores(results, names, rs);
    AbsorbChangesToNumbers(results, names, rs);
    AbsorbNumbersLand(results, names, rs);
  }

  /** One absorbed result leaves a stored one as it was or replaces it by itself, a number. */
  lemma AbsorbOne(results: map<string, Result>, x: Result, n: string)
    requires n in results
    ensures var r := results[x.name := Max(x, Lookup(results, x.name))][n];
            r == results[n] || (r == x && x.value.Number?)
  {
    MaxKeepsLarger(x, Lookup(results, x.name));
  }

  /** Stored results stay, and change only to an absorbed number. */
  lemma {:induction false} AbsorbChangesToNumbers(results: map<string, Result>, names: seq<string>, rs: seq<Result>)
    ensures forall n :: n in results ==>
              && n in Absorb(results, names, rs).0
              && (Absorb(results, names, rs).0[n] == results[n]
                  || (Absorb(results, names, rs).0[n] in rs && Absorb(results, names, rs).0[n].value.Number?))
    decreases |rs|
  {
    if rs != [] {
      var x := rs[0];
      var results' := results[x.name := Max(x, Lookup(results, x.name))];
      AbsorbChangesToNumbers(results', Register(names, x.name), rs[1..]);
      var res := Absorb(results, names, rs).0;
      assert res == Absorb(results', Register(names, x.name), rs[1..]).0;
      forall n | n in results
        ensures n in res && (res[n] == results[n] || (res[n] in rs && res[n].value.Number?))
      {
        AbsorbOne(results, x, n);
        assert forall y :: y in rs[1..] ==> y in rs;
      }
    }
  }

  /** A name holding a number keeps holding one. */
  lemma {:induction false} AbsorbKeepsNumbers(results: map<string, Result>, names: seq<string>, rs: seq<Result>)
    ensures forall n :: n in results && results[n].value.Number? ==>
              n in Absorb(results, names, rs).0 && Absorb(results, names, rs).0[n].value.Number?
    decreases |rs|
  {
    if rs != [] {
      var x := rs[0];
      var results' := results[x.name := Max(x, Lookup(results, x.name))];
      AbsorbKeepsNumbers(results', Register(names, x.name), rs[1..]);
      forall n | n in results && results[n].value.Number? ensures results'[n].value.Number? {
        AbsorbOne(results, x, n);
      }
    }
  }

  /** Every name absorbed with a number ends up holding a number. */
  lemma {:induction false} AbsorbNumbersLand(results: map<string, Result>, names: seq<string>, rs: seq<Result>)
    ensures forall i :: 0 <= i < |rs| && rs[i].value.Number? ==>
              rs[i].name in Absorb(results, names, rs).0 && Absorb(results, names, rs).0[rs[i].name].value.Number?
    decreases |rs|
  {
    if rs != [] {
      var x := rs[0];
      var results' := results[x.name := Max(x, Lookup(results, x.name))];
      var names' := Register(names, x.name);
      AbsorbNumbersLand(results', names', rs[1..]);
      var res := Absorb(results, names, rs).0;
      assert res == Absorb(results', names', rs[1..]).0;
      if x.value.Number? {
        MaxKeepsLarger(x, Lookup(results, x.name));
        AbsorbKeepsNumbers(results', names', rs[1..]);
      }
      forall i | 1 <= i < |rs| && rs[i].value.Number? ensures rs[i].name in res && res[rs[i].name].value.Number? {
        assert rs[i] == rs[1..][i - 1];
      }
    }
  }

  /** One metric of `update_results`: gather the values, reduce them, absorb the results. */
  function ApplyMetric(g: Group, reg: Registry, m: MetricSpec,
                       median: seq<Float> -> Float, std: seq<Float> -> Float): Outcome<(Group, Registry), GroupError>
  {
    match ValuesOf(g, m.key, m.lastK)
    case Err(e) => Err(e)
    case Ok(gathered) =>
      var input := if gathered.values.None? then NoneValue else Array(gathered.values.value);
      match FromValues(m, input, median, std)
      case Err(e) => Err(MetricFailed(e))
      case Ok(rs) =>
        var (res, names) := Absorb(g.results, reg.results, rs);
        Ok((g.(results := res), reg.(results := names)))
  }

  /** The state after `update_results`, and the exception it raised, if any. */
  datatype Updated = Updated(group: Group, reg: Registry, raised: Option<GroupError>)

  /** The metrics applied in order; the first failure stops the loop, keeping earlier updates. */
  function ApplyMetrics(g: Group, reg: Registry, ms: seq<MetricSpec>,
                        median: seq<Float> -> Float, std: seq<Float> -> Float): Updated
    decreases |ms|
  {
    if ms == [] then Updated(g, reg, None)
    else match ApplyMetric(g, reg, ms[0], median, std)
      case Err(e) => Updated(g, reg, Some(e))
      case Ok((g', reg')) => ApplyMetrics(g', reg', ms[1..], median, std)
  }

  /** `update_results(metrics)`: a separator ignores it. */
  function UpdateResultsOf(g: Group, reg: Registry, ms: seq<MetricSpec>,
                           median: seq<Float> -> Float, std: seq<Float> -> Float): (u: Updated)
    ensures g.Separator? ==> u == Updated(g, reg, None)
  {
    if g.Separator? then Updated(g, reg, None) else ApplyMetrics(g, reg, ms, median, std)
  }

  /** `update_results(metrics)` */
  method UpdateResults(g: Group, reg: Registry, ms: seq<MetricSpec>,
                       median: seq<Float> -> Float, std: seq<Float> -> Float) returns (u: Updated)
    ensures u == UpdateResultsOf(g, reg, ms, median, std)
  {
    if g.Separator? {
      return Updated(g, reg, None);
    }
    var cur, curReg := g, reg;
    var i := 0;
    while i < |ms|
      invariant 0 <= i <= |ms|
      invariant ApplyMetrics(cur, curReg, ms[i..], median, std) == ApplyMetrics(g, reg, ms, median, std)
    {
      assert ms[i..][1..] == ms[i + 1..];
      var step := ApplyOne(cur, curReg, ms[i], median, std);
      if step.Err? {
        return Updated(cur, curReg, Some(step.error));
      }
      cur, curReg := step.value.0, step.value.1;
      i := i + 1;
    }
    u := Updated(cur, curReg, None);
  }

  /** One pass of the loop over the metrics in `update_results`. */
  method ApplyOne(g: Group, reg: Registry, m: MetricSpec,
                  median: seq<Float> -> Float, std: seq<Float> -> Float) returns (o: Outcome<(Group, Registry), GroupError>)
    ensures o == ApplyMetric(g, reg, m, median, std)
  {
    var gathered := Values(g, m.key, m.lastK);
    if gathered.Err? {
      return Err(gathered.error);
    }
    var input := if gathered.value.values.None? then NoneValue else Array(gathered.value.values.value);
    var rs := FromValues(m, input, median, std);
    if rs.Err? {
      return Err(MetricFailed(rs.error));
    }
    var res, names := AbsorbAll(g.results, reg.results, rs.value);
    o := Ok((g.(results := res), reg.(results := names)));
  }

  /** The inner loop of `update_results`, over the results of one metric. */
  method AbsorbAll(results: map<string, Result>, names: seq<string>, rs: seq<Result>)
    returns (res: map<string, Result>, names': seq<string>)
    ensures (res, names') == Absorb(results, names, rs)
  {
    res, names' := results, names;
    var k := 0;
    while k < |rs|
      invariant 0 <= k <= |rs|
      invariant Absorb(res, names', rs[k..]) == Absorb(results, names, rs)
    {
      var x := rs[k];
      assert rs[k..][1..] == rs[k + 1..];
      res := res[x.name := Max(x, Lookup(res, x.name))];
      names' := Register(names', x.name);
      k := k + 1;
    }
  }

  /**
   * How `update_results` may change a group and the registries: only the results
   * and the result registry change; results are never dropped and a number is
   * never replaced by an N/A; the registry only grows at its end; and if every
   * stored result name was registered before, it still is.
   */
  ghost predicate Grows(g: Group, reg: Registry, g2: Group, reg2: Registry)
  {
    && g2 == g.(results := g2.results)
    && reg2.params == reg.params
    && |reg.results| <= |reg2.results| && reg2.results[..|reg.results|] == reg.results
    && (Distinct(reg.results) ==> Distinct(reg2.results))
    && (forall n :: n in g.results ==> n in g2.results)
    && (forall n :: n in g.results && g.results[n].value.Number? ==> g2.results[n].value.Number?)
    && ((forall n :: n in g.results ==> n in reg.results) ==> forall n :: n in g2.results ==> n in reg2.results)
  }

  lemma GrowsTransitive(g1: Group, r1: Registry, g2: Group, r2: Registry, g3: Group, r3: Registry)
    requires Grows(g1, r1, g2, r2) && Grows(g2, r2, g3, r3)
    ensures Grows(g1, r1, g3, r3)
  {
    assert r3.results[..|r1.results|] == r3.results[..|r2.results|][..|r1.results|];
  }

  /** One metric changes the group and the registries only as `Grows` allows. */
  lemma ApplyMetricGrows(g: Group, reg: Registry, m: MetricSpec,
                         median: seq<Float> -> Float, std: seq<Float> -> Float)
    requires ApplyMetric(g, reg, m, median, std).Ok?
    ensures Grows(g, reg, ApplyMetric(g, reg, m, median, std).value.0, ApplyMetric(g, reg, m, median, std).value.1)
  {
    var gathered := ValuesOf(g, m.key, m.lastK).value;
    var input := if gathered.values.None? then NoneValue else Array(gathered.values.value);
    var rs := FromValues(m, input, median, std).value;
    AbsorbRegisters(g.results, reg.results, rs);
    AbsorbStores(g.results, reg.results, rs);
    AbsorbKeepsLarger(g.results, reg.results, rs);
  }

  /** `update_results` as a whole changes the group and the registries only as `Grows` allows. */
  lemma {:induction false} ApplyMetricsGrows(g: Group, reg: Registry, ms: seq<MetricSpec>,
                                             median: seq<Float> -> Float, std: seq<Float> -> Float)
    ensures Grows(g, reg, ApplyMetrics(g, reg, ms, median, std).group, ApplyMetrics(g, reg, ms, median, std).reg)
    decreases |ms|
  {
    if ms != [] {
      var step := ApplyMetric(g, reg, ms[0], median, std);
      if step.Ok? {
        ApplyMetricGrows(g, reg, ms[0], median, std);
        ApplyMetricsGrows(step.value.0, step.value.1, ms[1..], median, std);
        var u := ApplyMetrics(g, reg, ms, median, std);
        GrowsTransitive(g, reg, step.value.0, step.value.1, u.group, u.reg);
      }
    }
  }

  /** `Group.__filter(registry, ignore_keys)`: the registry's keys, in order, minus the ignored ones. */
  function Keep(keys: seq<string>, ignore: seq<string>): (r: seq<string>)
    ensures forall k :: k in r <==> k in keys && k !in ignore
    ensures |r| <= |keys|
  {
    if keys == [] then []
    else (if keys[0] in ignore then [] else [keys[0]]) + Keep(keys[1..], ignore)
  }

  /** `str(ids)` for a list of ints: `[1, 2, 3]`. */
  function IdsStr(ids: seq<int>): string
  {
    "[" + Join(", ", seq(|ids|, i requires 0 <= i < |ids| => IntToString(ids[i]))) + "]"
  }

  /** `str(self.params.get(k, ''))` for each key. */
  function ParamStrs(g: Group, keys: seq<string>): (r: seq<string>)
    ensures |r| == |keys|
    ensures forall i :: 0 <= i < |keys| ==> r[i] == Get(g.params, keys[i]).GetOr("")
  {
    seq(|keys|, i requires 0 <= i < |keys| => Get(g.params, keys[i]).GetOr(""))
  }

  /** The first key without a stored result, where `.str` is taken on `None`. */
  function FirstMissing(g: Group, keys: seq<string>): (r: Option<string>)
    ensures r.None? <==> forall k :: k in keys ==> k in g.results
    ensures r.Some? ==> r.value in keys && r.value !in g.results
  {
    if keys == [] then None
    else if keys[0] !in g.results then Some(keys[0])
    else FirstMissing(g, keys[1..])
  }

  /** `self.results.get(k).str` for each key, all of which hold a result. */
  function ValueStrs(g: Group, keys: seq<string>, format: (Float, int) -> string): (r: seq<string>)
    requires forall k :: k in keys ==> k in g.results
    ensures |r| == |keys|
    ensures forall i :: 0 <= i < |keys| ==> r[i] == Str(g.results[keys[i]], format)
  {
    seq(|keys|, i requires 0 <= i < |keys| => Str(g.results[keys[i]], format))
  }

  datatype RenderError = MissingResult(key: string)  // AttributeError: `None` has no `.str`

  /** `get_csv_str_header(ignore_keys=...)` (a separator inherits it). */
  function CsvHeader(reg: Registry, ignore: seq<string>): string
  {
    "name" + ";" + "slurm_ids" + ";;" + Join(";", Keep(reg.params, ignore)) + ";;"
    + Join(";", Keep(reg.results, ignore)) + ";"
  }

  /** `get_csv_str(ignore_keys=...)`: a separator gives the empty row. */
  function CsvRow(g: Group, reg: Registry, ignore: seq<string>, format: (Float, int) -> string): (r: Outcome<string, RenderError>)
    ensures g.Separator? ==> r == Ok("")
    ensures g.Group? ==> (r.Err? <==> exists k :: k in Keep(reg.results, ignore) && k !in g.results)
  {
    if g.Separator? then Ok("")
    else
      var vk := Keep(reg.results, ignore);
      match FirstMissing(g, vk)
      case Some(k) => Err(MissingResult(k))
      case None =>
        Ok(g.name + ";" + IdsStr(g.ids) + ";;" + Join(";", ParamStrs(g, Keep(reg.params, ignore))) + ";;"
           + Join(";", ValueStrs(g, vk, format)) + ";")
  }

  /** How a joined block reads back as fields: an empty block is one empty field. */
  function Fields(parts: seq<string>): (r: seq<string>)
    ensures |r| >= 1
  {
    if parts == [] then [""] else parts
  }

  lemma JoinFields(sep: string, parts: seq<string>)
    ensures Join(sep, Fields(parts)) == Join(sep, parts)
  {
  }

  /**
   * The `'{a};{b};;{c};;{d};'` layout as a join of fields: `a`, `b`, an empty field,
   * the fields of `c`, an empty field, the fields of `d` and a final empty field.
   */
  /** The field list of a row built from `a`, `b`, `c`, `d`. */
  function RowFields(a: string, b: string, c: seq<string>, d: seq<string>): seq<string>
  {
    [a, b, ""] + Fields(c) + [""] + Fields(d) + [""]
  }

  lemma CsvLayout(a: string, b: string, c: seq<string>, d: seq<string>)
    ensures a + ";" + b + ";;" + Join(";", c) + ";;" + Join(";", d) + ";"
            == Join(";", [a, b, ""] + Fields(c) + [""] + Fields(d) + [""])
  {
    var x, y := Fields(c), Fields(d);
    JoinFields(";", c);
    JoinFields(";", d);
    calc {
      Join(";", [a, b, ""] + x + [""] + y + [""]);
      { assert [a, b, ""] + x + [""] + y + [""] == [a, b, ""] + (x + ([""] + (y + [""]))); }
      Join(";", [a, b, ""] + (x + ([""] + (y + [""]))));
      { JoinAppend(";", [a, b, ""], x + ([""] + (y + [""]))); }
      Join(";", [a, b, ""]) + ";" + Join(";", x + ([""] + (y + [""])));
      { JoinAppend(";", x, [""] + (y + [""])); }
      Join(";", [a, b, ""]) + ";" + (Join(";", x) + ";" + Join(";", [""] + (y + [""])));
      { JoinCons(";", "", y + [""]); }
      Join(";", [a, b, ""]) + ";" + (Join(";", x) + ";" + ("" + ";" + Join(";", y + [""])));
      { JoinAppend(";", y, [""]); }
      Join(";", [a, b, ""]) + ";" + (Join(";", x) + ";" + ("" + ";" + (Join(";", y) + ";" + "")));
      { JoinCons(";", a, [b, ""]); JoinCons(";", b, [""]); assert [a] + [b, ""] == [a, b, ""]; assert [b] + [""] == [b, ""]; }
      a + ";" + b + ";" + "" + ";" + (Join(";", c) + ";" + ("" + ";" + (Join(";", d) + ";" + "")));
      a + ";" + b + ";;" + Join(";", c) + ";;" + Join(";", d) + ";";
    }
  }

  /** A row in the `'{a};{b};;{c};;{d};'` layout splits back into its fields when none contains `;`. */
  lemma CsvSplit(a: string, b: string, c: seq<string>, d: seq<string>)
    requires ';' !in a && ';' !in b && FreeOf(c, ';') && FreeOf(d, ';')
    ensures Split(a + ";" + b + ";;" + Join(";", c) + ";;" + Join(";", d) + ";", ";") == RowFields(a, b, c, d)
  {
    CsvLayout(a, b, c, d);
    var f := RowFields(a, b, c, d);
    assert FreeOf(f, ';');
    SplitJoin(f, ';');
  }

  predicate FreeOf(parts: seq<string>, ch: char)
  {
    forall p :: p in parts ==> ch !in p
  }

  lemma {:induction false} JoinFree(sep: string, parts: seq<string>, ch: char)
    requires ch !in sep && FreeOf(parts, ch)
    ensures ch !in Join(sep, parts)
    decreases |parts|
  {
    if |parts| > 1 {
      JoinFree(sep, parts[1..], ch);
    }
  }

  lemma IdsStrFree(ids: seq<int>)
    ensures ';' !in IdsStr(ids)
  {
    var parts := seq(|ids|, i requires 0 <= i < |ids| => IntToString(ids[i]));
    forall i | 0 <= i < |parts| ensures ';' !in parts[i] {
      var n := if ids[i] < 0 then -ids[i] else ids[i];
      var digits := NatToString(n);
      assert ';' !in digits by {
        forall k | 0 <= k < |digits| ensures digits[k] != ';' { assert IsDigit(digits[k]); }
      }
    }
    JoinFree(", ", parts, ';');
  }

  /**
   * The CSV header and a group's CSV row read back, split on `;`, as the same
   * layout of fields: name, ids, a gap, one field per shown parameter, a gap, one
   * field per shown result, and a trailing empty field; so header and row have
   * the same number of columns whenever no name, key or value contains `;`.
   */
  lemma CsvColumnsAlign(g: Group, reg: Registry, ignore: seq<string>, format: (Float, int) -> string)
    requires g.Group? && CsvRow(g, reg, ignore, format).Ok?
    requires ';' !in g.name && FreeOf(reg.params, ';') && FreeOf(reg.results, ';')
    requires FreeOf(ParamStrs(g, Keep(reg.params, ignore)), ';')
    requires forall k :: k in Keep(reg.results, ignore) ==> ';' !in Str(g.results[k], format)
    ensures Split(CsvHeader(reg, ignore), ";")
            == RowFields("name", "slurm_ids", Keep(reg.params, ignore), Keep(reg.results, ignore))
    ensures Split(CsvRow(g, reg, ignore, format).value, ";")
            == RowFields(g.name, IdsStr(g.ids), ParamStrs(g, Keep(reg.params, ignore)),
                         ValueStrs(g, Keep(reg.results, ignore), format))
    ensures |Split(CsvHeader(reg, ignore), ";")| == |Split(CsvRow(g, reg, ignore, format).value, ";")|
  {
    CsvHeaderFields(reg, ignore);
    CsvRowFields(g, reg, ignore, format);
  }

  lemma CsvHeaderFields(reg: Registry, ignore: seq<string>)
    requires FreeOf(reg.params, ';') && FreeOf(reg.results, ';')
    ensures Split(CsvHeader(reg, ignore), ";")
            == RowFields("name", "slurm_ids", Keep(reg.params, ignore), Keep(reg.results, ignore))
  {
    var pk, vk := Keep(reg.params, ignore), Keep(reg.results, ignore);
    assert FreeOf(pk, ';') && FreeOf(vk, ';');
    CsvSplit("name", "slurm_ids", pk, vk);
  }

  lemma CsvRowFields(g: Group, reg: Registry, ignore: seq<string>, format: (Float, int) -> string)
    requires g.Group? && CsvRow(g, reg, ignore, format).Ok?
    requires ';' !in g.name
    requires FreeOf(ParamStrs(g, Keep(reg.params, ignore)), ';')
    requires forall k :: k in Keep(reg.results, ignore) ==> ';' !in Str(g.results[k], format)
    ensures Split(CsvRow(g, reg, ignore, format).value, ";")
            == RowFields(g.name, IdsStr(g.ids), ParamStrs(g, Keep(reg.params, ignore)),
                         ValueStrs(g, Keep(reg.results, ignore), format))
  {
    var pk, vk := Keep(reg.params, ignore), Keep(reg.results, ignore);
    var ps, vs := ParamStrs(g, pk), ValueStrs(g, vk, format);
    IdsStrFree(g.ids);
    assert FreeOf(vs, ';');
    CsvSplit(g.name, IdsStr(g.ids), ps, vs);
  }

  /** `s.replace('_', '\_')` */
  function EscapeUnderscores(s: string): (r: string)
    ensures UnderscoresEscapedIn(r)
    ensures '_' !in s ==> r == s
  {
    UnderscoresEscaped(s);
    if '_' !in s then ReplaceAbsent(s, "_", "\\_"); ReplaceAll(s, "_", "\\_")
    else ReplaceAll(s, "_", "\\_")
  }

  /** `get_latex_str_header(ignore_keys=...)`: `name & <params> & <values> \\`, underscores escaped. */
  function LatexHeader(reg: Registry, ignore: seq<string>): (r: string)
    ensures UnderscoresEscapedIn(r)
  {
    EscapeUnderscores("name" + " & " + Join(" & ", Keep(reg.params, ignore)) + " & "
                      + Join(" & ", Keep(reg.results, ignore)) + " \\\\")
  }

  /** `get_latex_str(ignore_keys=...)`: the ids are not shown; a separator is a `\midrule`. */
  function LatexRow(g: Group, reg: Registry, ignore: seq<string>, format: (Float, int) -> string): (r: Outcome<string, RenderError>)
    ensures g.Separator? ==> r == Ok("\\midrule")
    ensures g.Group? ==> r.Err? == CsvRow(g, reg, ignore, format).Err?
    ensures g.Group? && r.Ok? ==> UnderscoresEscapedIn(r.value)
  {
    if g.Separator? then Ok("\\midrule")
    else
      var vk := Keep(reg.results, ignore);
      match FirstMissing(g, vk)
      case Some(k) => Err(MissingResult(k))
      case None =>
        Ok(EscapeUnderscores(g.name + " & " + Join(" & ", ParamStrs(g, Keep(reg.params, ignore))) + " & "
                             + Join(" & ", ValueStrs(g, vk, format)) + " \\\\"))
  }

  /** The LaTeX row does not depend on the ids, which only the CSV row shows. */
  lemma LatexRowIgnoresIds(g: Group, ids: seq<int>, reg: Registry, ignore: seq<string>, format: (Float, int) -> string)
    ensures LatexRow(g.(ids := ids), reg, ignore, format) == LatexRow(g, reg, ignore, format)
  {
    assert forall keys :: ParamStrs(g.(ids := ids), keys) == ParamStrs(g, keys);
    assert forall keys :: FirstMissing(g.(ids := ids), keys) == FirstMissing(g, keys) by {
      forall keys ensures FirstMissing(g.(ids := ids), keys) == FirstMissing(g, keys) {
        FirstMissingIgnoresIds(g, ids, keys);
      }
    }
  }

  lemma {:induction false} FirstMissingIgnoresIds(g: Group, ids: seq<int>, keys: seq<string>)
    ensures FirstMissing(g.(ids := ids), keys) == FirstMissing(g, keys)
    decreases |keys|
  {
    if keys != [] {
      FirstMissingIgnoresIds(g, ids, keys[1..]);
    }
  }

  /**
   * A worked table line: group `n0` with job 1, `mu = 0.1` and `r avg = 5.00`
   * against the registries `[mu]` and `[r avg]`.
   */
  lemma CsvExample(format: (Float, int) -> string)
    requires format(Fin(5.0), 2) == "5.00"
    ensures CsvHeader(ExampleRegistry(), []) == "name;slurm_ids;;mu;;r avg;"
    ensures CsvRow(ExampleGroup(), ExampleRegistry(), [], format) == Ok("n0;[1];;0.1;;5.00;")
  {
    CsvHeaderExample();
    CsvRowExample(format);
  }

  function ExampleGroup(): Group
  {
    Group("n0", [1], ODict(["mu"], map["mu" := "0.1"]), ODict([], map[]),
          map["r avg" := Result("r avg", Number(Fin(5.0)), 2)])
  }

  function ExampleRegistry(): Registry
  {
    Registry(["mu"], ["r avg"])
  }

  lemma CsvHeaderExample()
    ensures CsvHeader(ExampleRegistry(), []) == "name;slurm_ids;;mu;;r avg;"
  {
    assert Keep(["mu"], []) == ["mu"];
    assert Keep(["r avg"], []) == ["r avg"];
  }

  lemma CsvRowExample(format: (Float, int) -> string)
    requires format(Fin(5.0), 2) == "5.00"
    ensures CsvRow(ExampleGroup(), ExampleRegistry(), [], format) == Ok("n0;[1];;0.1;;5.00;")
  {
    CsvRowPieces(format);
    assert "n0" + ";" + "[1]" + ";;" + "0.1" + ";;" + "5.00" + ";" == "n0;[1];;0.1;;5.00;";
  }

  lemma CsvRowPieces(format: (Float, int) -> string)
    requires format(Fin(5.0), 2) == "5.00"
    ensures var g, reg := ExampleGroup(), ExampleRegistry();
            && Keep(reg.params, []) == ["mu"] && Keep(reg.results, []) == ["r avg"]
            && FirstMissing(g, ["r avg"]).None?
            && ParamStrs(g, ["mu"]) == ["0.1"]
            && ValueStrs(g, ["r avg"], format) == ["5.00"]
            && IdsStr(g.ids) == "[1]"
  {
    var g := ExampleGroup();
    assert Keep(["mu"], []) == ["mu"];
    assert Keep(["r avg"], []) == ["r avg"];
    assert IntToString(1) == "1";
  }
}
