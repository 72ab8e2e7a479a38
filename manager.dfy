/**
 * `GroupManager` (groupmanager.py, both copies): a list of groups and separators
 * with an in-memory events cache (job id -> metric -> samples). The class-wide
 * key registries of `Group` are passed in and handed back, the log reader is a
 * function parameter, and groups are values, so a group changed "in place" is a
 * new element of `groups`.
 */
module Manager {
  import opened Wrappers
  import opened ODicts
  import opened Metrics
  import opened Groups
  import opened StableSort
  import Tables
  import opened Seqs

  datatype ManagerError =
    | NoSelector                  // `get_group` asserts that a name or a job id is given
    | NoSuchGroup(name: string)   // `copy_group` on a name no group has: `None.name = ...`
    | MissingParam(key: string)   // `g.params.pop(name)` on a merged group without the key
    | UnregisteredParam(key: string)  // `Group.all_param_keys.pop(name)` on an unknown key

  /** `name == g.name or job_id in g.ids`; a `None` selector matches nothing. */
  predicate Selects(g: Group, name: Option<string>, jobId: Option<int>)
  {
    (name.Some? && name.value == g.name) || (jobId.Some? && jobId.value in g.ids)
  }

  /** The position of the first group the selectors match. */
  function FirstMatch(gs: seq<Group>, name: Option<string>, jobId: Option<int>): (r: Option<nat>)
    ensures r.Some? ==> r.value < |gs| && Selects(gs[r.value], name, jobId)
                        && forall j :: 0 <= j < r.value ==> !Selects(gs[j], name, jobId)
    ensures r.None? ==> forall j :: 0 <= j < |gs| ==> !Selects(gs[j], name, jobId)
    decreases |gs|
  {
    if gs == [] then None
    else if Selects(gs[0], name, jobId) then Some(0)
    else match FirstMatch(gs[1..], name, jobId)
      case None => None
      case Some(i) => Some(i + 1)
  }

  /** One group of `merge`: merged with the first group of the other manager that has its name. */
  function MergeNamed(g: Group, others: seq<Group>): Group
    requires forall j :: 0 <= j < |others| ==> ValidGroup(others[j])
  {
    match FirstMatch(others, Some(g.name), None)
    case None => g
    case Some(j) => Merge(g, others[j])
  }

  /**
   * The groups after `merge(other)`: none added or removed, names and kinds kept,
   * a group without a namesake unchanged, and every other group extended by the
   * ids and results of its first namesake.
   */
  function MergeByName(gs: seq<Group>, others: seq<Group>): (r: seq<Group>)
    requires forall j :: 0 <= j < |others| ==> ValidGroup(others[j])
    ensures |r| == |gs| && forall i :: 0 <= i < |gs| ==> r[i] == MergeNamed(gs[i], others)
  {
    seq(|gs|, i requires 0 <= i < |gs| => MergeNamed(gs[i], others))
  }

  /** The loop of `merge(other)` over this manager's groups. */
  method MergeEach(gs: seq<Group>, others: seq<Group>) returns (out: seq<Group>)
    requires forall j :: 0 <= j < |others| ==> ValidGroup(others[j])
    ensures out == MergeByName(gs, others)
  {
    out := gs;
    var i := 0;
    while i < |gs|
      invariant 0 <= i <= |gs| == |out|
      invariant forall k :: 0 <= k < i ==> out[k] == MergeNamed(gs[k], others)
      invariant forall k :: i <= k < |gs| ==> out[k] == gs[k]
    {
      var g := MergeWithNamesake(gs[i], others);
      out := out[i := g];
      i := i + 1;
    }
  }

  /** The inner loop of `merge(other)`: the first group of the other manager with the same name is merged in. */
  method MergeWithNamesake(g: Group, others: seq<Group>) returns (h: Group)
    requires forall j :: 0 <= j < |others| ==> ValidGroup(others[j])
    ensures h == MergeNamed(g, others)
  {
    var j := 0;
    while j < |others|
      invariant 0 <= j <= |others|
      invariant forall k :: 0 <= k < j ==> !Selects(others[k], Some(g.name), None)
    {
      if others[j].name == g.name {
        FirstMatchIs(others, Some(g.name), None, j);
        return Merge(g, others[j]);
      }
      j := j + 1;
    }
    return g;
  }

  /** Merging in groups by name keeps well-formed groups well formed. */
  lemma MergeByNameValid(gs: seq<Group>, others: seq<Group>)
    requires forall i :: 0 <= i < |gs| ==> ValidGroup(gs[i])
    requires forall j :: 0 <= j < |others| ==> ValidGroup(others[j])
    ensures forall i :: 0 <= i < |gs| ==> ValidGroup(MergeByName(gs, others)[i])
  {
  }

  lemma MergeByNameEffect(gs: seq<Group>, others: seq<Group>)
    requires forall j :: 0 <= j < |others| ==> ValidGroup(others[j])
    ensures var r := MergeByName(gs, others);
            && |r| == |gs|
            && (forall i :: 0 <= i < |gs| ==> r[i].name == gs[i].name && r[i].Group? == gs[i].Group?)
            && (forall i :: 0 <= i < |gs| && (forall j :: 0 <= j < |others| ==> others[j].name != gs[i].name) ==> r[i] == gs[i])
            && (forall i, j :: (0 <= i < |gs| && 0 <= j < |others| && others[j].name == gs[i].name
                 && (forall k :: 0 <= k < j ==> others[k].name != gs[i].name)) ==>
                 r[i].ids == gs[i].ids + others[j].ids && r[i].results == gs[i].results + others[j].results)
  {
    forall i, j | 0 <= i < |gs| && 0 <= j < |others| && others[j].name == gs[i].name
                 && (forall k :: 0 <= k < j ==> others[k].name != gs[i].name)
      ensures MergeByName(gs, others)[i] == Merge(gs[i], others[j])
    {
      FirstMatchIs(others, Some(gs[i].name), None, j);
    }
  }

  /** Every id of every group, in group order. */
  function AllIds(gs: seq<Group>): (r: seq<int>)
    ensures forall id :: id in r <==> exists i :: 0 <= i < |gs| && id in gs[i].ids
  {
    if gs == [] then [] else AllIds(gs[..|gs| - 1]) + gs[|gs| - 1].ids
  }

  /** The ids `update_groups` hands to the reader when not forced: those with no or an empty cache entry. */
  function Stale(ids: seq<int>, events: map<int, JobLog>): (r: seq<int>)
    ensures |r| <= |ids|
    ensures forall id :: id in r <==> id in ids && (id !in events || |events[id]| == 0)
    ensures r == [] <==> forall id :: id in ids ==> id in events && |events[id]| > 0
  {
    if ids == [] then []
    else
      var last := ids[|ids| - 1];
      Stale(ids[..|ids| - 1], events) + (if last !in events || |events[last]| == 0 then [last] else [])
  }

  function Requested(ids: seq<int>, events: map<int, JobLog>, force: bool): seq<int>
  {
    if force then ids else Stale(ids, events)
  }

  /**
   * Once the reader has delivered a non-empty log for every stale id (and nothing
   * empty), no id is stale any more; so a repeated `update_groups` asks the reader
   * for nothing and, since an empty request yields `{}`, leaves the cache as it is.
   */
  lemma CacheSettles(ids: seq<int>, events: map<int, JobLog>, reader: seq<int> -> map<int, JobLog>)
    requires forall id :: id in Stale(ids, events) ==> id in reader(Stale(ids, events))
    requires forall id :: id in reader(Stale(ids, events)) ==> |reader(Stale(ids, events))[id]| > 0
    requires reader([]) == map[]
    ensures var cached := events + reader(Stale(ids, events));
            Stale(ids, cached) == [] && cached + reader(Stale(ids, cached)) == cached
  {
    var incoming := reader(Stale(ids, events));
    var cached := events + incoming;
    FilledIn(ids, events, incoming);
    NothingRequested(cached, Stale(ids, cached), reader);
  }

  /** An empty request adds nothing to the cache. */
  lemma NothingRequested(cached: map<int, JobLog>, request: seq<int>, reader: seq<int> -> map<int, JobLog>)
    requires request == [] && reader([]) == map[]
    ensures cached + reader(request) == cached
  {
    assert reader(request) == map[];
  }

  /** Logs delivered for every stale id, none of them empty, leave every id with a non-empty log. */
  lemma FilledIn(ids: seq<int>, events: map<int, JobLog>, incoming: map<int, JobLog>)
    requires forall id :: id in Stale(ids, events) ==> id in incoming
    requires forall id :: id in incoming ==> |incoming[id]| > 0
    ensures forall id :: id in ids ==> id in events + incoming && |(events + incoming)[id]| > 0
  {
    forall id | id in ids ensures id in events + incoming && |(events + incoming)[id]| > 0 {
      if id !in incoming {
        assert id !in Stale(ids, events);
      }
    }
  }

  /** The groups, registries and exception after the per-group loop of `update_groups`. */
  datatype Refreshed = Refreshed(groups: seq<Group>, reg: Registry, raised: Option<GroupError>)

  /** One group of that loop: `update_all_data(events)`, then `update_results(metrics)`. */
  function RefreshOne(g: Group, events: map<int, JobLog>, reg: Registry, ms: seq<MetricSpec>,
                      median: seq<Float> -> Float, std: seq<Float> -> Float): Updated
  {
    UpdateResultsOf(g.(data := OverlayIds(g.data, g.ids, events)), reg, ms, median, std)
  }

  /** The per-group loop: the first exception stops it, leaving the failing group half-updated. */
  function RefreshAll(gs: seq<Group>, events: map<int, JobLog>, reg: Registry, ms: seq<MetricSpec>,
                      median: seq<Float> -> Float, std: seq<Float> -> Float): (r: Refreshed)
    ensures |r.groups| == |gs|
    decreases |gs|
  {
    if gs == [] then Refreshed([], reg, None)
    else
      var u := RefreshOne(gs[0], events, reg, ms, median, std);
      if u.raised.Some? then Refreshed([u.group] + gs[1..], u.reg, u.raised)
      else
        var rest := RefreshAll(gs[1..], events, u.reg, ms, median, std);
        Refreshed([u.group] + rest.groups, rest.reg, rest.raised)
  }

  /** `g.update_all_data(events)` followed by `g.update_results(metrics)`. */
  method RefreshGroup(g: Group, events: map<int, JobLog>, reg: Registry, ms: seq<MetricSpec>,
                      median: seq<Float> -> Float, std: seq<Float> -> Float) returns (u: Updated)
    ensures u == RefreshOne(g, events, reg, ms, median, std)
  {
    var h := UpdateAllData(g, events);
    u := UpdateResults(h, reg, ms, median, std);
  }

  /** The loop over the groups in `update_groups`, stopping at the first exception. */
  method RefreshLoop(gs: seq<Group>, events: map<int, JobLog>, reg: Registry, ms: seq<MetricSpec>,
                     median: seq<Float> -> Float, std: seq<Float> -> Float)
    returns (out: seq<Group>, reg2: Registry, raised: Option<GroupError>)
    ensures Refreshed(out, reg2, raised) == RefreshAll(gs, events, reg, ms, median, std)
  {
    ghost var target := RefreshAll(gs, events, reg, ms, median, std);
    var done: seq<Group> := [];
    var rest := gs;
    var cur := reg;
    while rest != []
      invariant Prepend(done, RefreshAll(rest, events, cur, ms, median, std)) == target
      decreases |rest|
    {
      var u := RefreshGroup(rest[0], events, cur, ms, median, std);
      RefreshStep(done, rest, events, cur, ms, median, std);
      if u.raised.Some? {
        return done + [u.group] + rest[1..], u.reg, u.raised;
      }
      done, rest, cur := done + [u.group], rest[1..], u.reg;
    }
    return done, cur, None;
  }

  /** One step of the per-group loop, seen from the groups already refreshed. */
  lemma RefreshStep(done: seq<Group>, gs: seq<Group>, events: map<int, JobLog>, reg: Registry, ms: seq<MetricSpec>,
                    median: seq<Float> -> Float, std: seq<Float> -> Float)
    requires gs != []
    ensures var u := RefreshOne(gs[0], events, reg, ms, median, std);
            Prepend(done, RefreshAll(gs, events, reg, ms, median, std)) ==
              if u.raised.Some? then Refreshed(done + [u.group] + gs[1..], u.reg, u.raised)
              else Prepend(done + [u.group], RefreshAll(gs[1..], events, u.reg, ms, median, std))
  {
    var u := RefreshOne(gs[0], events, reg, ms, median, std);
    PrependStep(done, gs[1..], u, RefreshAll(gs, events, reg, ms, median, std),
                RefreshAll(gs[1..], events, u.reg, ms, median, std));
  }

  lemma PrependStep(done: seq<Group>, tail: seq<Group>, u: Updated, whole: Refreshed, rest: Refreshed)
    requires whole == if u.raised.Some? then Refreshed([u.group] + tail, u.reg, u.raised)
                      else Refreshed([u.group] + rest.groups, rest.reg, rest.raised)
    ensures Prepend(done, whole) == if u.raised.Some? then Refreshed(done + [u.group] + tail, u.reg, u.raised)
                                    else Prepend(done + [u.group], rest)
  {
    assert done + ([u.group] + tail) == done + [u.group] + tail;
    assert done + ([u.group] + rest.groups) == done + [u.group] + rest.groups;
  }

  /** The loop of `update_groups` leaves well-formed groups well formed. */
  lemma RefreshAllValid(gs: seq<Group>, events: map<int, JobLog>, reg: Registry, ms: seq<MetricSpec>,
                        median: seq<Float> -> Float, std: seq<Float> -> Float)
    requires forall i :: 0 <= i < |gs| ==> ValidGroup(gs[i])
    ensures var r := RefreshAll(gs, events, reg, ms, median, std);
            forall i :: 0 <= i < |r.groups| ==> ValidGroup(r.groups[i])
  {
    RefreshAllEffect(gs, events, reg, ms, median, std);
  }

  function Prepend(done: seq<Group>, r: Refreshed): Refreshed
  {
    Refreshed(done + r.groups, r.reg, r.raised)
  }

  /**
   * One group refreshed: its data has pulled its own ids from the cache, only its
   * results changed besides, and it stays well formed.
   */
  lemma RefreshOneEffect(g: Group, events: map<int, JobLog>, reg: Registry, ms: seq<MetricSpec>,
                         median: seq<Float> -> Float, std: seq<Float> -> Float)
    requires ValidGroup(g)
    ensures var u := RefreshOne(g, events, reg, ms, median, std);
            && SameFrame(g, u.group) && ValidGroup(u.group)
            && u.group.params == g.params && u.group.data == OverlayIds(g.data, g.ids, events)
            && (forall n :: n in g.results ==> n in u.group.results)
  {
    var h := g.(data := OverlayIds(g.data, g.ids, events));
    OverlayIdsKeys(g.data, g.ids, events);
    if h.Group? {
      ApplyMetricsGrows(h, reg, ms, median, std);
    }
  }

  /** `h` is `g` with at most its data, parameters and results changed. */
  predicate SameFrame(g: Group, h: Group)
  {
    h.name == g.name && h.ids == g.ids && h.Group? == g.Group?
  }

  /** What the loop of `update_groups` leaves of one group. */
  ghost predicate RefreshedFrom(g: Group, h: Group, events: map<int, JobLog>, complete: bool)
  {
    SameFrame(g, h) && ValidGroup(h) && (complete ==> h.data == OverlayIds(g.data, g.ids, events))
  }

  /**
   * The loop of `update_groups` keeps every group's name, kind and ids (so the ids
   * a later call requests are the same), keeps the groups well formed, and, unless
   * it stops early, leaves every group holding its own ids' logs from the cache.
   */
  lemma {:induction false} RefreshAllEffect(gs: seq<Group>, events: map<int, JobLog>, reg: Registry, ms: seq<MetricSpec>,
                                            median: seq<Float> -> Float, std: seq<Float> -> Float)
    requires forall i :: 0 <= i < |gs| ==> ValidGroup(gs[i])
    ensures var r := RefreshAll(gs, events, reg, ms, median, std);
            forall i :: 0 <= i < |gs| ==> RefreshedFrom(gs[i], r.groups[i], events, r.raised.None?)
    decreases |gs|
  {
    if gs != [] {
      RefreshOneEffect(gs[0], events, reg, ms, median, std);
      var u := RefreshOne(gs[0], events, reg, ms, median, std);
      var r := RefreshAll(gs, events, reg, ms, median, std);
      if u.raised.None? {
        RefreshAllEffect(gs[1..], events, u.reg, ms, median, std);
        var rest := RefreshAll(gs[1..], events, u.reg, ms, median, std);
        RefreshedCons(gs, r.groups, u.group, rest.groups, events, r.raised.None?);
      } else {
        var tail := gs[1..];
        forall i | 0 <= i < |tail| ensures RefreshedFrom(tail[i], tail[i], events, false) {
          assert ValidGroup(gs[i + 1]);
        }
        RefreshedCons(gs, r.groups, u.group, tail, events, false);
      }
    }
  }

  lemma RefreshedCons(gs: seq<Group>, out: seq<Group>, head: Group, tail: seq<Group>,
                      events: map<int, JobLog>, complete: bool)
    requires gs != [] && out == [head] + tail && |tail| == |gs| - 1
    requires RefreshedFrom(gs[0], head, events, complete)
    requires forall i :: 0 <= i < |tail| ==> RefreshedFrom(gs[1..][i], tail[i], events, complete)
    ensures forall i :: 0 <= i < |gs| ==> RefreshedFrom(gs[i], out[i], events, complete)
  {
    forall i | 1 <= i < |gs| ensures RefreshedFrom(gs[i], out[i], events, complete) {
      assert out[i] == tail[i - 1] && gs[i] == gs[1..][i - 1];
    }
  }

  lemma {:induction false} SameIdsSameAllIds(a: seq<Group>, b: seq<Group>)
    requires |a| == |b| && forall i :: 0 <= i < |a| ==> a[i].ids == b[i].ids
    ensures AllIds(a) == AllIds(b)
    decreases |a|
  {
    if a != [] {
      SameIdsSameAllIds(a[..|a| - 1], b[..|b| - 1]);
    }
  }

  /**
   * The per-group loop never changes which ids the groups hold, so a second
   * `update_groups` asks for the same ids.
   */
  lemma RefreshKeepsIds(gs: seq<Group>, events: map<int, JobLog>, reg: Registry, ms: seq<MetricSpec>,
                        median: seq<Float> -> Float, std: seq<Float> -> Float)
    requires forall i :: 0 <= i < |gs| ==> ValidGroup(gs[i])
    ensures AllIds(RefreshAll(gs, events, reg, ms, median, std).groups) == AllIds(gs)
  {
    RefreshAllEffect(gs, events, reg, ms, median, std);
    var r := RefreshAll(gs, events, reg, ms, median, std);
    assert forall i :: 0 <= i < |gs| ==> RefreshedFrom(gs[i], r.groups[i], events, r.raised.None?);
    SameIdsSameAllIds(gs, r.groups);
  }

  /** `params.get(key, None) in values` for every filter. */
  predicate Admits(g: Group, filters: seq<(string, seq<Option<string>>)>)
  {
    forall i :: 0 <= i < |filters| ==> Get(g.params, filters[i].0) in filters[i].1
  }

  predicate Kept(g: Group, filters: seq<(string, seq<Option<string>>)>, keepSeparators: bool)
  {
    Admits(g, filters) || (keepSeparators && g.Separator?)
  }

  /** The groups `filter_groups` keeps. */
  function Filtered(gs: seq<Group>, filters: seq<(string, seq<Option<string>>)>, keepSeparators: bool): (r: seq<Group>)
    ensures |r| <= |gs|
    ensures forall g :: g in r <==> g in gs && Kept(g, filters, keepSeparators)
  {
    if gs == [] then []
    else
      var last := gs[|gs| - 1];
      Filtered(gs[..|gs| - 1], filters, keepSeparators) + (if Kept(last, filters, keepSeparators) then [last] else [])
  }

  /** The inner loop of `filter_groups`: the group passes every filter. */
  method Admit(g: Group, filters: seq<(string, seq<Option<string>>)>) returns (add: bool)
    ensures add == Admits(g, filters)
  {
    var k := 0;
    while k < |filters|
      invariant 0 <= k <= |filters|
      invariant forall j :: 0 <= j < k ==> Get(g.params, filters[j].0) in filters[j].1
    {
      if Get(g.params, filters[k].0) !in filters[k].1 {
        return false;
      }
      k := k + 1;
    }
    return true;
  }

  /** The loop of `filter_groups` over the groups. */
  method FilterSeq(gs: seq<Group>, filters: seq<(string, seq<Option<string>>)>, keepSeparators: bool) returns (kept: seq<Group>)
    ensures kept == Filtered(gs, filters, keepSeparators)
  {
    kept := [];
    var i := 0;
    while i < |gs|
      invariant 0 <= i <= |gs|
      invariant kept == Filtered(gs[..i], filters, keepSeparators)
    {
      var g := gs[i];
      var add := Admit(g, filters);
      if add || (keepSeparators && g.Separator?) {
        kept := kept + [g];
      }
      assert gs[..i + 1][..i] == gs[..i];
      i := i + 1;
    }
    assert gs[..i] == gs;
  }

  /** Filtering keeps the groups well formed. */
  lemma FilteredValid(gs: seq<Group>, filters: seq<(string, seq<Option<string>>)>, keep: bool)
    requires forall i :: 0 <= i < |gs| ==> ValidGroup(gs[i])
    ensures forall j :: 0 <= j < |Filtered(gs, filters, keep)| ==> ValidGroup(Filtered(gs, filters, keep)[j])
  {
    var r := Filtered(gs, filters, keep);
    forall j | 0 <= j < |r| ensures ValidGroup(r[j]) {
      assert r[j] in gs;
    }
  }

  lemma FilteredSnoc(gs: seq<Group>, init: seq<Group>, last: Group, filters: seq<(string, seq<Option<string>>)>, keep: bool)
    requires gs != [] && init == gs[..|gs| - 1] && last == gs[|gs| - 1]
    ensures Filtered(gs, filters, keep) == Filtered(init, filters, keep) + if Kept(last, filters, keep) then [last] else []
  {
  }

  /** Filtering keeps the order: it distributes over concatenation. */
  lemma {:induction false} FilteredAppend(a: seq<Group>, b: seq<Group>, filters: seq<(string, seq<Option<string>>)>, keep: bool)
    ensures Filtered(a + b, filters, keep) == Filtered(a, filters, keep) + Filtered(b, filters, keep)
    decreases |b|
  {
    if b != [] {
      var ab, last := a + b, b[|b| - 1];
      var tail := if Kept(last, filters, keep) then [last] else [];
      FilteredAppend(a, b[..|b| - 1], filters, keep);
      assert ab[..|ab| - 1] == a + b[..|b| - 1] && ab[|ab| - 1] == last;
      FilteredSnoc(ab, a + b[..|b| - 1], last, filters, keep);
      FilteredSnoc(b, b[..|b| - 1], last, filters, keep);
      ConcatAssoc(Filtered(a, filters, keep), Filtered(b[..|b| - 1], filters, keep), tail);
    } else {
      assert a + b == a;
    }
  }

  /** Filtering twice with the same filters is filtering once. */
  lemma {:induction false} FilteredIdempotent(gs: seq<Group>, filters: seq<(string, seq<Option<string>>)>, keep: bool)
    ensures Filtered(Filtered(gs, filters, keep), filters, keep) == Filtered(gs, filters, keep)
    decreases |gs|
  {
    if gs != [] {
      var init, last := gs[..|gs| - 1], gs[|gs| - 1];
      FilteredIdempotent(init, filters, keep);
      var tail := if Kept(last, filters, keep) then [last] else [];
      FilteredAppend(Filtered(init, filters, keep), tail, filters, keep);
      assert tail != [] ==> tail[..0] == [];
    }
  }

  /** `params` equal once the key `name` is dropped: the clustering of `merge_groups_by_param`. */
  predicate SameExcept(a: Group, b: Group, name: string)
  {
    a.params.vals - {name} == b.params.vals - {name}
  }

  /** The cluster whose members share `g`'s parameters outside `name`. */
  function ClusterOf(cs: seq<seq<Group>>, g: Group, name: string): (r: Option<nat>)
    ensures r.Some? ==> r.value < |cs| && cs[r.value] != [] && SameExcept(cs[r.value][0], g, name)
    ensures r.None? ==> forall i :: 0 <= i < |cs| && cs[i] != [] ==> !SameExcept(cs[i][0], g, name)
    decreases |cs|
  {
    if cs == [] then None
    else if cs[0] != [] && SameExcept(cs[0][0], g, name) then Some(0)
    else match ClusterOf(cs[1..], g, name)
      case None => None
      case Some(i) => Some(i + 1)
  }

  ghost predicate AllValid(cs: seq<seq<Group>>)
  {
    forall i, m :: 0 <= i < |cs| && 0 <= m < |cs[i]| ==> ValidGroup(cs[i][m])
  }

  /** `clusters[key].append(g)` */
  function AddToClusters(cs: seq<seq<Group>>, g: Group, name: string): (r: seq<seq<Group>>)
    ensures AllValid(cs) && ValidGroup(g) ==> AllValid(r)
  {
    match ClusterOf(cs, g, name)
    case Some(i) =>
      var r := cs[i := cs[i] + [g]];
      assert forall j, m :: 0 <= j < |r| && 0 <= m < |r[j]| ==> r[j][m] == g || r[j][m] == cs[j][m];
      r
    case None =>
      var r := cs + [[g]];
      assert forall j, m :: 0 <= j < |r| && 0 <= m < |r[j]| ==> r[j][m] == g || r[j][m] == cs[j][m];
      r
  }

  /** `clusters[g.get_param_tuple(skip_keys=(name,))].append(g)` over the non-separators, in order. */
  function Clusters(gs: seq<Group>, name: string): (r: seq<seq<Group>>)
    ensures (forall k :: 0 <= k < |gs| ==> ValidGroup(gs[k])) ==> AllValid(r)
  {
    if gs == [] then []
    else
      var cs := Clusters(gs[..|gs| - 1], name);
      var last := gs[|gs| - 1];
      if last.Separator? then cs else AddToClusters(cs, last, name)
  }

  /** The clustering loop of `merge_groups_by_param`. */
  method ClusterLoop(gs: seq<Group>, name: string) returns (cs: seq<seq<Group>>)
    ensures cs == Clusters(gs, name)
  {
    cs := [];
    var i := 0;
    while i < |gs|
      invariant 0 <= i <= |gs|
      invariant cs == Clusters(gs[..i], name)
    {
      assert gs[..i + 1][..i] == gs[..i];
      var g := gs[i];
      if g.Group? {
        var at := ClusterOf(cs, g, name);
        if at.Some? {
          cs := cs[at.value := cs[at.value] + [g]];
        } else {
          cs := cs + [[g]];
        }
      }
      i := i + 1;
    }
    assert gs[..i] == gs;
  }

  /** Non-empty clusters of groups (no separators) agreeing outside `name`, distinct clusters disagreeing. */
  ghost predicate Partitioned(cs: seq<seq<Group>>, name: string)
  {
    && (forall i :: 0 <= i < |cs| ==> cs[i] != [])
    && (forall i, m :: 0 <= i < |cs| && 0 <= m < |cs[i]| ==> cs[i][m].Group? && SameExcept(cs[i][0], cs[i][m], name))
    && (forall i, j :: 0 <= i < j < |cs| ==> !SameExcept(cs[i][0], cs[j][0], name))
  }

  lemma AddKeepsPartition(cs: seq<seq<Group>>, g: Group, name: string)
    requires Partitioned(cs, name) && g.Group?
    ensures Partitioned(AddToClusters(cs, g, name), name)
  {
    match ClusterOf(cs, g, name)
    case Some(i) => JoinKeepsPartition(cs, g, name, i, cs[i := cs[i] + [g]]);
    case None => OpenKeepsPartition(cs, g, name, cs + [[g]]);
  }

  /** Adding a group to the cluster it matches keeps the clusters a partition. */
  lemma JoinKeepsPartition(cs: seq<seq<Group>>, g: Group, name: string, i: nat, r: seq<seq<Group>>)
    requires Partitioned(cs, name) && g.Group?
    requires i < |cs| && cs[i] != [] && SameExcept(cs[i][0], g, name) && r == cs[i := cs[i] + [g]]
    ensures Partitioned(r, name)
  {
    forall j, m | 0 <= j < |r| && 0 <= m < |r[j]| ensures r[j][m].Group? && SameExcept(r[j][0], r[j][m], name) {
      if j == i && m == |cs[i]| {
        assert r[j][0] == cs[i][0] && r[j][m] == g;
      } else {
        assert r[j][m] == cs[j][m] && r[j][0] == cs[j][0];
      }
    }
    forall j, k | 0 <= j < k < |r| ensures !SameExcept(r[j][0], r[k][0], name) {
      assert r[j][0] == cs[j][0] && r[k][0] == cs[k][0];
    }
  }

  /** Opening a new cluster for a group that matches none keeps the clusters a partition. */
  lemma OpenKeepsPartition(cs: seq<seq<Group>>, g: Group, name: string, r: seq<seq<Group>>)
    requires Partitioned(cs, name) && g.Group?
    requires (forall i :: 0 <= i < |cs| && cs[i] != [] ==> !SameExcept(cs[i][0], g, name)) && r == cs + [[g]]
    ensures Partitioned(r, name)
  {
    forall j, m | 0 <= j < |r| && 0 <= m < |r[j]| ensures r[j][m].Group? && SameExcept(r[j][0], r[j][m], name) {
      if j < |cs| {
        assert r[j] == cs[j];
      }
    }
  }

  /** `g` is a member of one of the clusters. */
  ghost predicate Clustered(cs: seq<seq<Group>>, g: Group)
  {
    exists i, m :: 0 <= i < |cs| && 0 <= m < |cs[i]| && cs[i][m] == g
  }

  lemma AddCovers(cs: seq<seq<Group>>, g: Group, x: Group, name: string)
    requires x == g || Clustered(cs, x)
    ensures Clustered(AddToClusters(cs, g, name), x)
  {
    var r := AddToClusters(cs, g, name);
    match ClusterOf(cs, g, name)
    case Some(i) =>
      if x == g {
        assert r[i][|cs[i]|] == g;
      } else {
        var j, m :| 0 <= j < |cs| && 0 <= m < |cs[j]| && cs[j][m] == x;
        assert r[j][m] == x;
      }
    case None =>
      if x == g {
        assert r[|cs|][0] == g;
      } else {
        var j, m :| 0 <= j < |cs| && 0 <= m < |cs[j]| && cs[j][m] == x;
        assert r[j][m] == x;
      }
  }

  function TotalSize(cs: seq<seq<Group>>): nat
  {
    if cs == [] then 0 else TotalSize(cs[..|cs| - 1]) + |cs[|cs| - 1]|
  }

  lemma {:induction false} TotalSizeUpdate(cs: seq<seq<Group>>, i: nat, c: seq<Group>)
    requires i < |cs|
    ensures TotalSize(cs[i := c]) == TotalSize(cs) - |cs[i]| + |c|
    decreases |cs|
  {
    if i < |cs| - 1 {
      TotalSizeUpdate(cs[..|cs| - 1], i, c);
      assert cs[i := c][..|cs| - 1] == cs[..|cs| - 1][i := c];
    } else {
      assert cs[i := c][..|cs| - 1] == cs[..|cs| - 1];
    }
  }

  lemma AddSize(cs: seq<seq<Group>>, g: Group, name: string)
    ensures TotalSize(AddToClusters(cs, g, name)) == TotalSize(cs) + 1
  {
    match ClusterOf(cs, g, name)
    case Some(i) =>
      TotalSizeUpdate(cs, i, cs[i] + [g]);
    case None =>
      assert (cs + [[g]])[..|cs|] == cs;
  }

  lemma {:induction false} ClustersPartitioned(gs: seq<Group>, name: string)
    ensures Partitioned(Clusters(gs, name), name)
    decreases |gs|
  {
    if gs != [] {
      ClustersPartitioned(gs[..|gs| - 1], name);
      if gs[|gs| - 1].Group? {
        AddKeepsPartition(Clusters(gs[..|gs| - 1], name), gs[|gs| - 1], name);
      }
    }
  }

  lemma {:induction false} ClustersCover(gs: seq<Group>, name: string)
    ensures forall k :: 0 <= k < |gs| && gs[k].Group? ==> Clustered(Clusters(gs, name), gs[k])
    decreases |gs|
  {
    if gs != [] {
      var init, last := gs[..|gs| - 1], gs[|gs| - 1];
      ClustersCover(init, name);
      if last.Group? {
        forall k | 0 <= k < |gs| && gs[k].Group? ensures Clustered(Clusters(gs, name), gs[k]) {
          if k < |gs| - 1 {
            assert gs[k] == init[k];
          }
          AddCovers(Clusters(init, name), last, gs[k], name);
        }
      } else {
        forall k | 0 <= k < |gs| && gs[k].Group? ensures Clustered(Clusters(gs, name), gs[k]) {
          assert gs[k] == init[k];
        }
      }
    }
  }

  lemma {:induction false} ClustersSize(gs: seq<Group>, name: string)
    ensures TotalSize(Clusters(gs, name)) == |Tables.Plain(gs)|
    decreases |gs|
  {
    if gs != [] {
      var init, last := gs[..|gs| - 1], gs[|gs| - 1];
      ClustersSize(init, name);
      Tables.PlainAppend(init, [last]);
      SplitLast(gs);
      if last.Group? {
        AddSize(Clusters(init, name), last, name);
      }
    }
  }

  /**
   * The clusters of `merge_groups_by_param`: non-empty, each holding groups (no
   * separators) that agree outside `name`, distinct clusters disagreeing, every
   * group in some cluster, and as many members in all as there are groups.
   */
  lemma ClustersPartition(gs: seq<Group>, name: string)
    ensures Partitioned(Clusters(gs, name), name)
    ensures forall k :: 0 <= k < |gs| && gs[k].Group? ==> Clustered(Clusters(gs, name), gs[k])
    ensures TotalSize(Clusters(gs, name)) == |Tables.Plain(gs)|
  {
    ClustersPartitioned(gs, name);
    ClustersCover(gs, name);
    ClustersSize(gs, name);
  }

  /** The merging loop of one cluster, starting from the group `acc`. */
  function MergeAll(acc: Group, c: seq<Group>): (r: Group)
    requires forall m :: 0 <= m < |c| ==> ValidGroup(c[m])
    ensures r.name == acc.name && r.Group? == acc.Group?
    ensures ValidGroup(acc) ==> ValidGroup(r)
    decreases |c|
  {
    if c == [] then acc else MergeAll(Merge(acc, c[0]), c[1..])
  }

  /** The ids of the groups of a cluster, in order. */
  function ConcatIds(c: seq<Group>): seq<int>
  {
    if c == [] then [] else c[0].ids + ConcatIds(c[1..])
  }

  /** Some group of the cluster has the parameter `key`. */
  predicate HasKey(c: seq<Group>, key: string)
  {
    c != [] && (key in c[0].params.vals || HasKey(c[1..], key))
  }

  /** Merging a cluster concatenates the members' ids in order. */
  lemma {:induction false} MergeAllIds(acc: Group, c: seq<Group>)
    requires forall m :: 0 <= m < |c| ==> ValidGroup(c[m])
    ensures MergeAll(acc, c).ids == acc.ids + ConcatIds(c)
    decreases |c|
  {
    if c != [] {
      var acc' := MergeAllStep(acc, c);
      MergeAllIds(acc', c[1..]);
      IdsStep(MergeAll(acc', c[1..]).ids, acc.ids, c[0].ids, ConcatIds(c[1..]), acc'.ids);
    }
  }

  lemma IdsStep(whole: seq<int>, start: seq<int>, first: seq<int>, rest: seq<int>, next: seq<int>)
    requires next == start + first && whole == next + rest
    ensures whole == start + (first + rest)
  {
  }

  /** One step of the merging loop. */
  lemma MergeAllStep(acc: Group, c: seq<Group>) returns (acc': Group)
    requires c != [] && forall m :: 0 <= m < |c| ==> ValidGroup(c[m])
    ensures acc' == Merge(acc, c[0]) && acc'.ids == acc.ids + c[0].ids
    ensures forall m :: 0 <= m < |c[1..]| ==> ValidGroup(c[1..][m])
    ensures MergeAll(acc, c) == MergeAll(acc', c[1..])
  {
    acc' := Merge(acc, c[0]);
  }

  /** The merged parameters hold a key exactly when the start or some member holds it. */
  lemma {:induction false} MergeAllKeys(acc: Group, c: seq<Group>, key: string)
    requires ValidGroup(acc) && forall m :: 0 <= m < |c| ==> ValidGroup(c[m])
    ensures key in MergeAll(acc, c).params.vals <==> key in acc.params.vals || HasKey(c, key)
    decreases |c|
  {
    if c != [] {
      MergeOverlay(acc, c[0]);
      MergeAllKeys(Merge(acc, c[0]), c[1..], key);
    }
  }

  /** `Group("merged %d" % len(cluster), ids=[])`, which registers nothing. */
  function Fresh(size: nat): (r: Group)
    ensures ValidGroup(r) && r.ids == [] && r.params.vals == map[]
  {
    Group("merged " + PyStr.NatToString(size), [], Empty(), Empty(), map[])
  }

  /** One cluster merged, with the key popped: `KeyError` when no member holds it. */
  function MergeCluster(c: seq<Group>, name: string): (r: Outcome<Group, ManagerError>)
    requires forall m :: 0 <= m < |c| ==> ValidGroup(c[m])
    ensures r.Ok? ==> ValidGroup(r.value) && r.value.Group?
    ensures r.Err? ==> r.error == MissingParam(name)
  {
    var g := MergeAll(Fresh(|c|), c);
    if name in g.params.vals then
      (RemoveValid(g.params, name); Ok(g.(params := Remove(g.params, name))))
    else Err(MissingParam(name))
  }

  /**
   * The merged group of a cluster: named `merged <size>`, holding all the
   * members' ids in order, and without the merged-over key; it fails exactly
   * when no member has that key.
   */
  lemma MergeClusterEffect(c: seq<Group>, name: string)
    requires forall m :: 0 <= m < |c| ==> ValidGroup(c[m])
    ensures MergeCluster(c, name).Ok? <==> HasKey(c, name)
    ensures MergeCluster(c, name).Ok? ==>
              && MergeCluster(c, name).value.name == "merged " + PyStr.NatToString(|c|)
              && MergeCluster(c, name).value.ids == ConcatIds(c)
              && name !in MergeCluster(c, name).value.params.vals
  {
    MergeAllKeys(Fresh(|c|), c, name);
    MergeAllIds(Fresh(|c|), c);
  }

  /** Merged groups are well formed. */
  lemma MergeClustersValid(cs: seq<seq<Group>>, name: string)
    requires AllValid(cs) && MergeClusters(cs, name).Ok?
    ensures forall i :: 0 <= i < |cs| ==> ValidGroup(MergeClusters(cs, name).value[i])
  {
    MergeClustersEach(cs, name);
  }

  /** The merged groups of all clusters, or the first `KeyError`. */
  function MergeClusters(cs: seq<seq<Group>>, name: string): (r: Outcome<seq<Group>, ManagerError>)
    requires AllValid(cs)
    ensures r.Ok? ==> |r.value| == |cs|
    ensures r.Err? ==> r.error == MissingParam(name)
    decreases |cs|
  {
    if cs == [] then Ok([])
    else
      var last := cs[|cs| - 1];
      assert forall m :: 0 <= m < |last| ==> ValidGroup(last[m]);
      match MergeClusters(cs[..|cs| - 1], name)
      case Err(e) => Err(e)
      case Ok(done) =>
        match MergeCluster(cs[|cs| - 1], name)
        case Err(e) => Err(e)
        case Ok(g) => Ok(done + [g])
  }

  /** All clusters merged: the merged groups in cluster order. */
  lemma {:induction false} MergeClustersEach(cs: seq<seq<Group>>, name: string)
    requires AllValid(cs)
    ensures MergeClusters(cs, name).Ok? ==>
              forall i :: 0 <= i < |cs| ==> MergeCluster(cs[i], name) == Ok(MergeClusters(cs, name).value[i])
    decreases |cs|
  {
    if cs != [] && MergeClusters(cs, name).Ok? {
      var init, last := cs[..|cs| - 1], cs[|cs| - 1];
      assert forall m :: 0 <= m < |last| ==> ValidGroup(last[m]);
      MergeClustersEach(init, name);
      var done := MergeClusters(init, name).value;
      assert MergeClusters(cs, name).value == done + [MergeCluster(last, name).value];
      SplitLast(cs);
      MergedSnoc(init, last, done, MergeCluster(last, name).value, name);
    }
  }

  /** Appending a cluster and its merged group keeps the two sequences in step. */
  lemma MergedSnoc(init: seq<seq<Group>>, last: seq<Group>, done: seq<Group>, g: Group, name: string)
    requires AllValid(init) && forall m :: 0 <= m < |last| ==> ValidGroup(last[m])
    requires |done| == |init| && forall i :: 0 <= i < |init| ==> MergeCluster(init[i], name) == Ok(done[i])
    requires MergeCluster(last, name) == Ok(g)
    ensures AllValid(init + [last])
    ensures forall i :: 0 <= i < |init| + 1 ==> MergeCluster((init + [last])[i], name) == Ok((done + [g])[i])
  {
    var cs := init + [last];
    forall i | 0 <= i < |cs| ensures MergeCluster(cs[i], name) == Ok((done + [g])[i]) {
      if i < |init| {
        assert cs[i] == init[i];
      }
    }
  }

  /** A failure of the whole comes from a cluster whose merge fails. */
  lemma {:induction false} MergeClustersFails(cs: seq<seq<Group>>, name: string)
    requires AllValid(cs)
    ensures MergeClusters(cs, name).Err? ==> exists i :: 0 <= i < |cs| && MergeCluster(cs[i], name).Err?
    decreases |cs|
  {
    if cs != [] && MergeClusters(cs, name).Err? {
      var init, last := cs[..|cs| - 1], cs[|cs| - 1];
      assert forall m :: 0 <= m < |last| ==> ValidGroup(last[m]);
      MergeClustersFails(init, name);
      if MergeClusters(init, name).Ok? {
        assert MergeCluster(last, name).Err?;
      } else {
        var i :| 0 <= i < |init| && MergeCluster(init[i], name).Err?;
        assert cs[i] == init[i];
      }
    }
  }

  /** A failure in a prefix of the clusters is a failure of the whole. */
  lemma {:induction false} MergeClustersPrefixErr(cs: seq<seq<Group>>, k: nat, name: string)
    requires AllValid(cs) && k <= |cs| && MergeClusters(cs[..k], name).Err?
    ensures MergeClusters(cs, name).Err?
    decreases |cs| - k
  {
    if k < |cs| {
      var next := cs[..k + 1];
      assert next[..k] == cs[..k];
      MergeClustersPrefixErr(cs, k + 1, name);
    } else {
      assert cs[..k] == cs;
    }
  }

  /** The merging loop of `merge_groups_by_param`. */
  method MergeLoop(cs: seq<seq<Group>>, name: string) returns (r: Outcome<seq<Group>, ManagerError>)
    requires AllValid(cs)
    ensures r == MergeClusters(cs, name)
  {
    var merged: seq<Group> := [];
    var c := 0;
    while c < |cs|
      invariant 0 <= c <= |cs|
      invariant MergeClusters(cs[..c], name) == Ok(merged)
    {
      assert cs[..c + 1][..c] == cs[..c];
      var one := MergeOne(cs[c], name);
      if one.Err? {
        MergeClustersPrefixErr(cs, c + 1, name);
        return Err(MissingParam(name));
      }
      merged := merged + [one.value];
      c := c + 1;
    }
    assert cs[..c] == cs;
    r := Ok(merged);
  }

  /** One cluster merged, then `g.params.pop(name)`. */
  method MergeOne(members: seq<Group>, name: string) returns (r: Outcome<Group, ManagerError>)
    requires forall m :: 0 <= m < |members| ==> ValidGroup(members[m])
    ensures r == MergeCluster(members, name)
  {
    var g := MergeMembers(members);
    if name !in g.params.vals {
      return Err(MissingParam(name));
    }
    RemoveValid(g.params, name);
    r := Ok(g.(params := Remove(g.params, name)));
  }

  /** `g = Group("merged %d" % len(cluster), ids=[])` followed by `g.merge(g2)` for every member. */
  method MergeMembers(members: seq<Group>) returns (g: Group)
    requires forall m :: 0 <= m < |members| ==> ValidGroup(members[m])
    ensures g == MergeAll(Fresh(|members|), members)
  {
    g := Fresh(|members|);
    var m := 0;
    while m < |members|
      invariant 0 <= m <= |members|
      invariant ValidGroup(g)
      invariant MergeAll(g, members[m..]) == MergeAll(Fresh(|members|), members)
    {
      assert members[m..][1..] == members[m + 1..];
      g := Groups.Merge(g, members[m]);
      m := m + 1;
    }
  }

  /** `g.params[name] = ""` */
  function Blank(g: Group, name: string): (r: Group)
    ensures ValidGroup(g) ==> ValidGroup(r)
    ensures SameFrame(g, r) && Get(r.params, name) == Some("")
    ensures forall k :: k != name ==> Get(r.params, k) == Get(g.params, k)
    ensures r.data == g.data && r.results == g.results
  {
    g.(params := Put(g.params, name, ""))
  }

  /**
   * `params[name] = ""` on every merged group, in replacing mode: the list keeps
   * its length and order, every group keeps its name, ids, data and results and
   * every other parameter, and now maps `name` to the empty string.
   */
  function Blanked(gs: seq<Group>, name: string): (r: seq<Group>)
    ensures |r| == |gs|
    ensures forall i :: 0 <= i < |gs| ==>
              && SameFrame(gs[i], r[i]) && r[i].data == gs[i].data && r[i].results == gs[i].results
              && Get(r[i].params, name) == Some("")
              && (forall k :: k != name ==> Get(r[i].params, k) == Get(gs[i].params, k))
    ensures forall i :: 0 <= i < |gs| ==> ValidGroup(gs[i]) ==> ValidGroup(r[i])
  {
    seq(|gs|, i requires 0 <= i < |gs| => Blank(gs[i], name))
  }

  /** `get_values(key, unique=False)`, with `Group.get(key, "N/A")` as `lookup`. */
  function Values<V>(gs: seq<Group>, key: string, lookup: (Group, string) -> V): (r: seq<V>)
    ensures |r| == |gs| && forall i :: 0 <= i < |gs| ==> r[i] == lookup(gs[i], key)
  {
    if gs == [] then [] else Values(gs[..|gs| - 1], key, lookup) + [lookup(gs[|gs| - 1], key)]
  }

  /** `get_values(key, unique=True)`: the distinct values, in no particular order. */
  function UniqueValues<V>(gs: seq<Group>, key: string, lookup: (Group, string) -> V): set<V>
  {
    set i | 0 <= i < |gs| :: lookup(gs[i], key)
  }

  /** The distinct values are exactly the values, and never more than there are groups. */
  lemma {:induction false} UniqueValuesBound<V>(gs: seq<Group>, key: string, lookup: (Group, string) -> V)
    ensures forall v :: v in UniqueValues(gs, key, lookup) <==> v in Values(gs, key, lookup)
    ensures |UniqueValues(gs, key, lookup)| <= |gs|
    decreases |gs|
  {
    if gs != [] {
      var init := gs[..|gs| - 1];
      UniqueValuesBound(init, key, lookup);
      assert UniqueValues(gs, key, lookup) == UniqueValues(init, key, lookup) + {lookup(gs[|gs| - 1], key)} by {
        forall v | v in UniqueValues(gs, key, lookup) ensures v in UniqueValues(init, key, lookup) + {lookup(gs[|gs| - 1], key)} {
          var i :| 0 <= i < |gs| && lookup(gs[i], key) == v;
          if i < |gs| - 1 {
            assert gs[i] == init[i];
          }
        }
        forall v | v in UniqueValues(init, key, lookup) ensures v in UniqueValues(gs, key, lookup) {
          var i :| 0 <= i < |init| && lookup(init[i], key) == v;
          assert init[i] == gs[i];
        }
      }
    }
  }

  type Point = (real, real)

  /** `g.params.get(combine, "__missing_key__")` */
  function LineOf(g: Group, combine: string): string
  {
    Get(g.params, combine).GetOr("__missing_key__")
  }

  /** The points of the groups (no separators) on line `line`, in group order. */
  function PointsOn(gs: seq<Group>, combine: string, line: string, xKey: string, yKey: string,
                    lookup: (Group, string) -> real): seq<Point>
  {
    if gs == [] then []
    else
      var last := gs[|gs| - 1];
      PointsOn(gs[..|gs| - 1], combine, line, xKey, yKey, lookup)
      + (if last.Group? && LineOf(last, combine) == line then [(lookup(last, xKey), lookup(last, yKey))] else [])
  }

  /** The clustering loop of `get_plot_data`, with `Group.get(key, default=-1)` as `lookup`. */
  function Lines(gs: seq<Group>, combine: string, xKey: string, yKey: string,
                 lookup: (Group, string) -> real): (d: ODict<string, seq<Point>>)
    ensures ODicts.Valid(d)
  {
    if gs == [] then Empty()
    else
      var d := Lines(gs[..|gs| - 1], combine, xKey, yKey, lookup);
      var g := gs[|gs| - 1];
      if g.Separator? then d
      else
        var c := LineOf(g, combine);
        Put(d, c, Get(d, c).GetOr([]) + [(lookup(g, xKey), lookup(g, yKey))])
  }

  /** Each line holds exactly the points of its groups, in group order; a line exists when it has points. */
  lemma {:induction false} LinesHold(gs: seq<Group>, combine: string, xKey: string, yKey: string,
                                     lookup: (Group, string) -> real)
    ensures forall line :: line in Lines(gs, combine, xKey, yKey, lookup).vals <==>
              PointsOn(gs, combine, line, xKey, yKey, lookup) != []
    ensures forall line :: line in Lines(gs, combine, xKey, yKey, lookup).vals ==>
              Lines(gs, combine, xKey, yKey, lookup).vals[line] == PointsOn(gs, combine, line, xKey, yKey, lookup)
    decreases |gs|
  {
    if gs != [] {
      LinesHold(gs[..|gs| - 1], combine, xKey, yKey, lookup);
    }
  }

  function ByX(p: Point): Key
  {
    Key(0, p.0)
  }

  /** `get_plot_data(combine, on_x_axis, on_y_axis)`: every line sorted (stably) by x. */
  function PlotData(gs: seq<Group>, combine: string, xKey: string, yKey: string,
                    lookup: (Group, string) -> real): ODict<string, seq<Point>>
  {
    var d := Lines(gs, combine, xKey, yKey, lookup);
    ODict(d.keys, map line | line in d.vals :: Sort(d.vals[line], ByX))
  }

  /**
   * Every line of the plot data holds exactly its groups' points, ascending by x,
   * with points of equal x in group order; separators contribute nothing.
   */
  lemma PlotDataLines(gs: seq<Group>, combine: string, xKey: string, yKey: string,
                      lookup: (Group, string) -> real, line: string)
    requires PointsOn(gs, combine, line, xKey, yKey, lookup) != []
    ensures line in PlotData(gs, combine, xKey, yKey, lookup).vals
    ensures var pts := PlotData(gs, combine, xKey, yKey, lookup).vals[line];
            && multiset(pts) == multiset(PointsOn(gs, combine, line, xKey, yKey, lookup))
            && (forall i, j :: 0 <= i < j < |pts| ==> pts[i].0 <= pts[j].0)
            && (forall k :: WithKey(pts, ByX, k) == WithKey(PointsOn(gs, combine, line, xKey, yKey, lookup), ByX, k))
  {
    LinesHold(gs, combine, xKey, yKey, lookup);
    var own := PointsOn(gs, combine, line, xKey, yKey, lookup);
    SortPerm(own, ByX);
    SortSorted(own, ByX);
    forall k ensures WithKey(Sort(own, ByX), ByX, k) == WithKey(own, ByX, k) {
      SortStable(own, ByX, k);
    }
  }

  class GroupManager {
    var groups: seq<Group>
    var events: map<int, JobLog>

    ghost predicate Valid()
      reads this
    {
      forall i :: 0 <= i < |groups| ==> ValidGroup(groups[i])
    }

    /** `GroupManager()` without a storage path. */
    constructor ()
      ensures groups == [] && events == map[] && Valid()
    {
      groups := [];
      events := map[];
    }

    /** `update_events(events)`: job entries are overlaid, none removed. */
    method UpdateEvents(incoming: map<int, JobLog>)
      modifies this
      ensures events == old(events) + incoming && groups == old(groups)
      ensures forall id :: id in old(events) ==> id in events
    {
      events := events + incoming;
    }

    /** `add_group(name, ids, **kwargs)` */
    method AddGroup(name: string, ids: seq<int>, kwargs: ODict<string, string>, reg: Registry) returns (reg2: Registry)
      requires Valid() && ODicts.Valid(kwargs)
      modifies this
      ensures groups == old(groups) + [NewGroup(name, ids, kwargs, reg).0] && events == old(events)
      ensures reg2 == NewGroup(name, ids, kwargs, reg).1
      ensures Valid()
    {
      var (g, r) := NewGroup(name, ids, kwargs, reg);
      groups := groups + [g];
      reg2 := r;
    }

    /** `add_existing_groups(groups)` */
    method AddExistingGroups(gs: seq<Group>)
      requires Valid() && forall i :: 0 <= i < |gs| ==> ValidGroup(gs[i])
      modifies this
      ensures groups == old(groups) + gs && events == old(events)
      ensures Valid()
    {
      groups := groups + gs;
    }

    /** `add_separator()`: a separator without parameters, so the registry is unchanged. */
    method AddSeparator(reg: Registry) returns (reg2: Registry)
      requires Valid()
      modifies this
      ensures groups == old(groups) + [NewSeparator(Empty(), reg).0] && events == old(events)
      ensures reg2 == reg
      ensures Valid()
    {
      var (g, r) := NewSeparator(Empty(), reg);
      groups := groups + [g];
      reg2 := r;
    }

    /** `get_groups(remove_separators=...)` */
    function GetGroups(removeSeparators: bool): (r: seq<Group>)
      reads this
      ensures !removeSeparators ==> r == groups
      ensures removeSeparators ==> |r| <= |groups| && forall g :: g in r <==> g in groups && g.Group?
    {
      if removeSeparators then (PlainMembers(groups); Tables.Plain(groups)) else groups
    }

    /** `get_group(name, job_id)`: the first group with that name or holding that job id. */
    method GetGroup(name: Option<string>, jobId: Option<int>) returns (r: Outcome<Option<Group>, ManagerError>)
      ensures name.None? && jobId.None? ==> r == Err(NoSelector)
      ensures name.Some? || jobId.Some? ==>
                r == Ok(match FirstMatch(groups, name, jobId) case Some(i) => Some(groups[i]) case None => None)
    {
      if name.None? && jobId.None? {
        return Err(NoSelector);
      }
      var i := 0;
      while i < |groups|
        invariant 0 <= i <= |groups|
        invariant forall j :: 0 <= j < i ==> !Selects(groups[j], name, jobId)
      {
        if Selects(groups[i], name, jobId) {
          FirstMatchIs(groups, name, jobId, i);
          return Ok(Some(groups[i]));
        }
        i := i + 1;
      }
      r := Ok(None);
    }

    /**
     * `copy_group(name, new_name, param_changes)`: a renamed copy of the first group
     * of that name, its parameters updated (and not registered), goes last.
     */
    method CopyGroup(name: string, newName: string, changes: ODict<string, string>) returns (err: Option<ManagerError>)
      requires Valid() && ODicts.Valid(changes)
      modifies this
      ensures events == old(events)
      ensures FirstMatch(old(groups), Some(name), None).None? ==> err == Some(NoSuchGroup(name)) && groups == old(groups)
      ensures FirstMatch(old(groups), Some(name), None).Some? ==>
                var g := old(groups)[FirstMatch(old(groups), Some(name), None).value];
                err.None? && groups == old(groups) + [g.(name := newName, params := Update(g.params, changes))]
      ensures Valid()
    {
      var found := GetGroup(Some(name), None);
      if found.value.None? {
        return Some(NoSuchGroup(name));
      }
      var g := found.value.value;
      groups := groups + [g.(name := newName, params := Update(g.params, changes))];
      err := None;
    }

    /**
     * `filter_groups(filters, keep_separators)`: `filters` lists the items of the
     * filter dictionary.
     */
    method FilterGroups(filters: seq<(string, seq<Option<string>>)>, keepSeparators: bool)
      requires Valid()
      modifies this
      ensures groups == Filtered(old(groups), filters, keepSeparators) && events == old(events)
      ensures Valid()
    {
      var kept := FilterSeq(groups, filters, keepSeparators);
      FilteredValid(groups, filters, keepSeparators);
      groups := kept;
    }

    /** `merge(other)`: the other manager's events are overlaid and its groups merged in by name. */
    method Merge(other: GroupManager)
      requires other != this && Valid() && other.Valid()
      modifies this
      ensures events == old(events) + other.events
      ensures groups == MergeByName(old(groups), other.groups)
      ensures Valid()
    {
      events := events + other.events;
      var merged := MergeEach(groups, other.groups);
      MergeByNameValid(groups, other.groups);
      groups := merged;
    }

    /** The ids of all groups, gathered as `update_groups` does. */
    method CollectIds() returns (ids: seq<int>)
      ensures ids == AllIds(groups)
    {
      ids := [];
      var i := 0;
      while i < |groups|
        invariant 0 <= i <= |groups|
        invariant ids == AllIds(groups[..i])
      {
        assert groups[..i + 1][..i] == groups[..i];
        ids := ids + groups[i].ids;
        i := i + 1;
      }
      assert groups[..i] == groups;
    }

    /** The ids without a usable cache entry, as `update_groups` selects them. */
    method StaleIds(ids: seq<int>) returns (stale: seq<int>)
      ensures stale == Stale(ids, events)
    {
      stale := [];
      var k := 0;
      while k < |ids|
        invariant 0 <= k <= |ids|
        invariant stale == Stale(ids[..k], events)
      {
        assert ids[..k + 1][..k] == ids[..k];
        if ids[k] !in events || |events[ids[k]]| == 0 {
          stale := stale + [ids[k]];
        }
        k := k + 1;
      }
      assert ids[..k] == ids;
    }

    /** The per-group loop of `update_groups`. */
    method Refresh(ms: seq<MetricSpec>, reg: Registry, median: seq<Float> -> Float, std: seq<Float> -> Float)
      returns (reg2: Registry, raised: Option<GroupError>)
      requires Valid()
      modifies this
      ensures events == old(events)
      ensures Refreshed(groups, reg2, raised) == RefreshAll(old(groups), events, reg, ms, median, std)
      ensures Valid()
    {
      RefreshAllValid(groups, events, reg, ms, median, std);
      var out;
      out, reg2, raised := RefreshLoop(groups, events, reg, ms, median, std);
      groups := out;
    }

    /**
     * `update_groups(dir_, metrics, force)`: the reader is asked for every id
     * (`force`) or only the stale ones, its answer is overlaid onto the cache, and
     * every group pulls its logs from the cache and recomputes its results; an
     * exception leaves the groups before it updated.
     */
    method UpdateGroups(ms: seq<MetricSpec>, force: bool, reader: seq<int> -> map<int, JobLog>, reg: Registry,
                        median: seq<Float> -> Float, std: seq<Float> -> Float)
      returns (reg2: Registry, raised: Option<GroupError>)
      requires Valid()
      modifies this
      ensures events == old(events) + reader(Requested(AllIds(old(groups)), old(events), force))
      ensures Refreshed(groups, reg2, raised) == RefreshAll(old(groups), events, reg, ms, median, std)
      ensures Valid()
    {
      var ids := CollectIds();
      if !force {
        ids := StaleIds(ids);
      }
      UpdateEvents(reader(ids));
      reg2, raised := Refresh(ms, reg, median, std);
    }

    /**
     * `merge_groups_by_param(name, as_new_groups)`: one merged group per cluster of
     * groups agreeing outside `name`, appended or replacing the list. A cluster
     * without the key changes nothing; in replacing mode an unregistered key is
     * reported after the list was replaced.
     */
    method MergeGroupsByParam(name: string, asNew: bool, reg: Registry) returns (reg2: Registry, err: Option<ManagerError>)
      requires Valid()
      modifies this
      ensures events == old(events)
      ensures MergeClusters(Clusters(old(groups), name), name).Err? ==>
                err == Some(MissingParam(name)) && groups == old(groups) && reg2 == reg
      ensures MergeClusters(Clusters(old(groups), name), name).Ok? ==>
                var merged := MergeClusters(Clusters(old(groups), name), name).value;
                && (asNew ==> groups == old(groups) + merged && reg2 == reg && err.None?)
                && (!asNew ==> (groups == Blanked(merged, name)
                     && (name in reg.params ==> reg2 == reg.(params := RemoveAll(reg.params, name)) && err.None?)
                     && (name !in reg.params ==> reg2 == reg && err == Some(UnregisteredParam(name)))))
      ensures Valid()
    {
      var cs := ClusterLoop(groups, name);
      var merged := MergeLoop(cs, name);
      if merged.Err? {
        return reg, Some(MissingParam(name));
      }
      MergeClustersValid(cs, name);
      if asNew {
        groups := groups + merged.value;
        return reg, None;
      }
      groups := Blanked(merged.value, name);
      if name !in reg.params {
        return reg, Some(UnregisteredParam(name));
      }
      reg2, err := reg.(params := RemoveAll(reg.params, name)), None;
    }
  }

  lemma FirstMatchIs(gs: seq<Group>, name: Option<string>, jobId: Option<int>, i: nat)
    requires i < |gs| && Selects(gs[i], name, jobId)
    requires forall j :: 0 <= j < i ==> !Selects(gs[j], name, jobId)
    ensures FirstMatch(gs, name, jobId) == Some(i)
  {
  }

  lemma {:induction false} PlainMembers(gs: seq<Group>)
    ensures |Tables.Plain(gs)| <= |gs|
    ensures forall g :: g in Tables.Plain(gs) <==> g in gs && g.Group?
    decreases |gs|
  {
    if gs != [] {
      PlainMembers(gs[1..]);
      assert gs == [gs[0]] + gs[1..];
    }
  }
}
