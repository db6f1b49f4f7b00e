/** The map walk of `Scraper.dfs` as a function of the outside world: starting
    at a park, probe each map, record the campsites of a map that lists
    resources in `resource_map`, and otherwise descend into the maps it
    links to. */
module Crawl {
  import opened Common
  import opened Storage

  /** The Jasper overflow map, which the walk never probes. */
  const IgnoredMap: Id := -2147483403

  /** The one-night probe of a map (`api_check(0, 1, mapId)`): the keys of
      `resourceAvailabilities` and of `mapLinkAvailabilities`, in order. A
      missing key behaves as an empty dictionary. */
  datatype ProbeResponse = ProbeResponse(resourceAvailabilities: seq<Id>, mapLinkAvailabilities: seq<Id>)

  /** One `localizedValues` entry of a resource. */
  datatype ResourceText = ResourceText(name: string, description: string)

  /** One entry of a resource-location's resource list. */
  datatype Detail = Detail(
    resourceCategoryId: int,
    localizedValues: seq<ResourceText>,
    maxCapacity: int,
    photos: Json,
    maxStay: int)

  /** What the walk reads without changing it: the probe response of each map
      (absent when the request fails), the resource list of each resource
      location (absent when the request fails), the `category` table, and the
      `map` and `location` tables. */
  datatype Env = Env(
    probe: map<Id, ProbeResponse>,
    resources: map<Option<Id>, map<Id, Detail>>,
    categories: map<int, string>,
    mapRows: seq<MapRow>,
    locations: seq<LocationRow>)

  /** The `resource_map` table and, as a record of the requests made, the maps
      probed so far in order. */
  datatype WalkState = WalkState(table: seq<Row>, probes: seq<Id>)

  /** A resource can be recorded: its category is in the table and it has a
      localized name. Otherwise building its row raises. */
  predicate Recordable(env: Env, d: Detail)
  {
    d.resourceCategoryId in env.categories && |d.localizedValues| > 0
  }

  /** The row recorded for resource `id` of map `m` in park `park`. */
  function NewRow(env: Env, park: Id, m: Id, loc: Option<Id>, id: Id, d: Detail): Row
    requires Recordable(env, d)
  {
    Row(id, park, m, loc, d.localizedValues[0].name, d.localizedValues[0].description,
        env.categories[d.resourceCategoryId], d.maxCapacity, d.photos, d.maxStay, None)
  }

  /** The insertion loop of a map that lists resources, from resource `ids[0]`
      on. A resource missing from the location's list, or already recorded,
      is skipped; one that cannot be recorded raises, which ends the loop.
      A failed resource-list request raises at the first resource. */
  function InsertRows(env: Env, park: Id, m: Id, loc: Option<Id>, ids: seq<Id>, table: seq<Row>): seq<Row>
    decreases |ids|
  {
    if ids == [] || loc !in env.resources then table
    else
      var resources := env.resources[loc];
      var id := ids[0];
      if id !in resources || id in Ids(table) then InsertRows(env, park, m, loc, ids[1..], table)
      else if !Recordable(env, resources[id]) then table
      else InsertRows(env, park, m, loc, ids[1..], table + [NewRow(env, park, m, loc, id, resources[id])])
  }

  /** The map graph below `m` is finite and acyclic to depth `height`: every
      chain of linked maps the walk descends through is shorter than it. */
  ghost predicate Bounded(env: Env, m: Id, height: nat)
    decreases height
  {
    && height > 0
    && (m in env.probe && |env.probe[m].resourceAvailabilities| == 0 ==>
          forall k :: 0 <= k < |env.probe[m].mapLinkAvailabilities| ==>
            env.probe[m].mapLinkAvailabilities[k] == IgnoredMap
            || Bounded(env, env.probe[m].mapLinkAvailabilities[k], height - 1))
  }

  /** The precondition of a walk from `mapId`. */
  ghost predicate CanWalk(env: Env, park: Id, mapId: Option<Id>, height: nat)
  {
    mapId == Some(IgnoredMap) || Bounded(env, mapId.GetOr(park), height)
  }

  /** `dfs(park, mapId, loc)`: the ignore check looks at the map argument
      only; the park is the map when none is given; an unknown location is
      looked up for the map; a failed probe ends the walk here. */
  function Walk(env: Env, park: Id, mapId: Option<Id>, loc: Option<Id>, st: WalkState, height: nat): WalkState
    requires CanWalk(env, park, mapId, height)
    decreases height, 0, 0
  {
    if mapId == Some(IgnoredMap) then st
    else
      var m := mapId.GetOr(park);
      var l := if loc.None? then FindLocationId(env.mapRows, env.locations, m) else loc;
      var probes := st.probes + [m];
      if m !in env.probe then WalkState(st.table, probes)
      else
        var response := env.probe[m];
        if |response.resourceAvailabilities| > 0 then
          WalkState(InsertRows(env, park, m, l, response.resourceAvailabilities, st.table), probes)
        else
          WalkChildren(env, park, response.mapLinkAvailabilities, l, WalkState(st.table, probes), height - 1)
  }

  /** The walks into the linked maps, one after the other, each with the
      location id of the map that links them. */
  function WalkChildren(env: Env, park: Id, links: seq<Id>, loc: Option<Id>, st: WalkState, height: nat): WalkState
    requires forall k :: 0 <= k < |links| ==> links[k] == IgnoredMap || Bounded(env, links[k], height)
    decreases height, 1, |links|
  {
    if links == [] then st
    else WalkChildren(env, park, links[1..], loc, Walk(env, park, Some(links[0]), loc, st, height), height)
  }

  /** A recorded row comes from a probe: it belongs to the walked park, the
      probe of its map listed it, and it holds the fields of its entry in its
      location's resource list, with no attributes yet. */
  ghost predicate RowFrom(env: Env, park: Id, row: Row)
  {
    && row.parkId == park
    && row.mapId in env.probe && row.id in env.probe[row.mapId].resourceAvailabilities
    && row.locationId in env.resources && row.id in env.resources[row.locationId]
    && Recordable(env, env.resources[row.locationId][row.id])
    && row == NewRow(env, park, row.mapId, row.locationId, row.id, env.resources[row.locationId][row.id])
  }

  /** All of `m`'s linked maps except the ignored one are among `probes`,
      when `m` is a map the walk descends from. */
  ghost predicate Expanded(env: Env, probes: seq<Id>, m: Id)
  {
    m in env.probe && |env.probe[m].resourceAvailabilities| == 0 ==>
      forall c :: c in env.probe[m].mapLinkAvailabilities && c != IgnoredMap ==> c in probes
  }

  /** What one walk step does to the state: the table and the probe record
      only grow; every new row comes from a probe of this walk; no id is
      recorded twice; and every map probed here had its linked maps probed. */
  ghost predicate Grows(env: Env, park: Id, st: WalkState, st2: WalkState)
  {
    && st.table <= st2.table
    && st.probes <= st2.probes
    && (forall i :: |st.table| <= i < |st2.table| ==>
          RowFrom(env, park, st2.table[i]) && st2.table[i].mapId in st2.probes[|st.probes|..])
    && (DistinctIds(st.table) ==> DistinctIds(st2.table))
    && (forall i :: |st.probes| <= i < |st2.probes| ==> Expanded(env, st2.probes, st2.probes[i]))
  }

  lemma ExpandedMono(env: Env, p1: seq<Id>, p2: seq<Id>, m: Id)
    requires p1 <= p2 && Expanded(env, p1, m)
    ensures Expanded(env, p2, m)
  {
    if m in env.probe && |env.probe[m].resourceAvailabilities| == 0 {
      forall c | c in env.probe[m].mapLinkAvailabilities && c != IgnoredMap
        ensures c in p2
      {
        var k :| 0 <= k < |p1| && p1[k] == c;
        assert p2[k] == c;
      }
    }
  }

  lemma GrowsTrans(env: Env, park: Id, s1: WalkState, s2: WalkState, s3: WalkState)
    requires Grows(env, park, s1, s2) && Grows(env, park, s2, s3)
    ensures Grows(env, park, s1, s3)
  {
    forall i | |s1.table| <= i < |s3.table|
      ensures RowFrom(env, park, s3.table[i]) && s3.table[i].mapId in s3.probes[|s1.probes|..]
    {
      var whole := s3.probes[|s1.probes|..];
      if i < |s2.table| {
        assert s3.table[i] == s2.table[i];
        var part := s2.probes[|s1.probes|..];
        var j :| 0 <= j < |part| && part[j] == s2.table[i].mapId;
        assert whole[j] == s3.probes[|s1.probes| + j] == s2.probes[|s1.probes| + j] == part[j];
      } else {
        var part := s3.probes[|s2.probes|..];
        var j :| 0 <= j < |part| && part[j] == s3.table[i].mapId;
        assert whole[|s2.probes| - |s1.probes| + j] == part[j];
      }
    }
    forall i | |s1.probes| <= i < |s3.probes|
      ensures Expanded(env, s3.probes, s3.probes[i])
    {
      if i < |s2.probes| {
        assert s3.probes[i] == s2.probes[i];
        ExpandedMono(env, s2.probes, s3.probes, s2.probes[i]);
      }
    }
  }

  /** The insertion loop only appends rows of map `m` at location `loc`
      built from the location's resource list, and never records an id
      twice. */
  lemma {:induction false} InsertRowsGrow(env: Env, park: Id, m: Id, loc: Option<Id>, ids: seq<Id>, table: seq<Row>)
    requires m in env.probe
    requires forall k :: 0 <= k < |ids| ==> ids[k] in env.probe[m].resourceAvailabilities
    ensures var r := InsertRows(env, park, m, loc, ids, table);
      && table <= r
      && (forall i :: |table| <= i < |r| ==>
            RowFrom(env, park, r[i]) && r[i].mapId == m && r[i].locationId == loc)
      && (DistinctIds(table) ==> DistinctIds(r))
    decreases |ids|
  {
    if ids != [] && loc in env.resources {
      var resources := env.resources[loc];
      var id := ids[0];
      assert forall k :: 0 <= k < |ids[1..]| ==> ids[1..][k] == ids[k + 1];
      if id !in resources || id in Ids(table) {
        InsertRowsGrow(env, park, m, loc, ids[1..], table);
      } else if Recordable(env, resources[id]) {
        var row := NewRow(env, park, m, loc, id, resources[id]);
        var t2 := table + [row];
        InsertRowsGrow(env, park, m, loc, ids[1..], t2);
        var r := InsertRows(env, park, m, loc, ids, table);
        assert r == InsertRows(env, park, m, loc, ids[1..], t2);
        assert RowFrom(env, park, row);
        if DistinctIds(table) {
          assert forall i :: 0 <= i < |table| ==> table[i].id != id by {
            forall i | 0 <= i < |table| ensures table[i].id != id {
              assert table[i] in table;
            }
          }
          assert DistinctIds(t2);
        }
        forall i | |table| <= i < |r|
          ensures RowFrom(env, park, r[i]) && r[i].mapId == m && r[i].locationId == loc
        {
          if i == |table| {
            assert r[i] == t2[i] == row;
          }
        }
      }
    }
  }

  /** One walk step, and a walk of a list of linked maps, grow the state;
      a walk that is not ignored probes its map first; the linked-map walks
      probe every linked map but the ignored one. */
  lemma {:induction false} WalkGrows(env: Env, park: Id, mapId: Option<Id>, loc: Option<Id>, st: WalkState, height: nat)
    requires CanWalk(env, park, mapId, height)
    ensures var r := Walk(env, park, mapId, loc, st, height);
      && Grows(env, park, st, r)
      && (mapId == Some(IgnoredMap) ==> r == st)
      && (mapId != Some(IgnoredMap) ==> |st.probes| < |r.probes| && r.probes[|st.probes|] == mapId.GetOr(park))
    decreases height, 0, 0
  {
    if mapId != Some(IgnoredMap) {
      var m := mapId.GetOr(park);
      var l := if loc.None? then FindLocationId(env.mapRows, env.locations, m) else loc;
      var probes := st.probes + [m];
      var st1 := WalkState(st.table, probes);
      var r := Walk(env, park, mapId, loc, st, height);
      if m !in env.probe {
        assert r == st1;
      } else {
        var response := env.probe[m];
        if |response.resourceAvailabilities| > 0 {
          InsertRowsGrow(env, park, m, l, response.resourceAvailabilities, st.table);
          assert r.probes[|st.probes|..] == [m];
        } else {
          var links := response.mapLinkAvailabilities;
          WalkChildrenGrow(env, park, links, l, st1, height - 1);
          assert r == WalkChildren(env, park, links, l, st1, height - 1);
          DescendGrows(env, park, st, m, r);
        }
      }
    }
  }

  /** The descent from map `m` after its probe grows the state from before
      the probe. */
  lemma DescendGrows(env: Env, park: Id, st: WalkState, m: Id, r: WalkState)
    requires m in env.probe && |env.probe[m].resourceAvailabilities| == 0
    requires Grows(env, park, WalkState(st.table, st.probes + [m]), r)
    requires forall c :: c in env.probe[m].mapLinkAvailabilities && c != IgnoredMap ==> c in r.probes
    ensures Grows(env, park, st, r) && |st.probes| < |r.probes| && r.probes[|st.probes|] == m
  {
    var st1 := WalkState(st.table, st.probes + [m]);
    assert r.probes[|st.probes|] == st1.probes[|st.probes|] == m;
    var tail := r.probes[|st.probes| + 1..];
    forall i | |st.table| <= i < |r.table|
      ensures r.table[i].mapId in r.probes[|st.probes|..]
    {
      assert r.table[i].mapId in tail;
      var j :| 0 <= j < |tail| && tail[j] == r.table[i].mapId;
      assert r.probes[|st.probes|..][j + 1] == tail[j];
    }
  }

  lemma {:induction false} WalkChildrenGrow(env: Env, park: Id, links: seq<Id>, loc: Option<Id>, st: WalkState, height: nat)
    requires forall k :: 0 <= k < |links| ==> links[k] == IgnoredMap || Bounded(env, links[k], height)
    ensures var r := WalkChildren(env, park, links, loc, st, height);
      && Grows(env, park, st, r)
      && forall c :: c in links && c != IgnoredMap ==> c in r.probes
    decreases height, 1, |links|
  {
    if links != [] {
      var s1 := Walk(env, park, Some(links[0]), loc, st, height);
      WalkGrows(env, park, Some(links[0]), loc, st, height);
      assert forall k :: 0 <= k < |links[1..]| ==> links[1..][k] == links[k + 1];
      WalkChildrenGrow(env, park, links[1..], loc, s1, height);
      var r := WalkChildren(env, park, links[1..], loc, s1, height);
      GrowsTrans(env, park, st, s1, r);
      forall c | c in links && c != IgnoredMap
        ensures c in r.probes
      {
        if c == links[0] {
          assert s1.probes[|st.probes|] == c;
          assert r.probes[|st.probes|] == c;
        } else {
          assert c in links[1..];
        }
      }
    }
  }

  /** The walk from a park, as `dfs(park)` is called: it probes the park
      first, every map it descends from had all its linked maps probed,
      every new row is a campsite of the park listed by a probed map, and a
      table without repeated ids keeps none. */
  lemma WalkFromPark(env: Env, park: Id, table: seq<Row>, height: nat)
    requires Bounded(env, park, height)
    requires DistinctIds(table)
    ensures var r := Walk(env, park, None, None, WalkState(table, []), height);
      && |r.probes| > 0 && r.probes[0] == park
      && (forall m :: m in r.probes ==> Expanded(env, r.probes, m))
      && table <= r.table && DistinctIds(r.table)
      && (forall i :: |table| <= i < |r.table| ==> RowFrom(env, park, r.table[i]) && r.table[i].mapId in r.probes)
  {
    WalkGrows(env, park, None, None, WalkState(table, []), height);
    var r := Walk(env, park, None, None, WalkState(table, []), height);
    assert r.probes[0..] == r.probes;
  }

  lemma IdsGrow(a: seq<Row>, b: seq<Row>)
    requires a <= b
    ensures Ids(a) <= Ids(b)
  {
    forall id | id in Ids(a) ensures id in Ids(b) {
      var row :| row in a && row.id == id;
      var k :| 0 <= k < |a| && a[k] == row;
      assert b[k] == row;
    }
  }

  lemma {:induction false} InsertRowsPrefix(env: Env, park: Id, m: Id, loc: Option<Id>, ids: seq<Id>, table: seq<Row>)
    ensures table <= InsertRows(env, park, m, loc, ids, table)
    decreases |ids|
  {
    if ids != [] && loc in env.resources {
      var resources := env.resources[loc];
      var id := ids[0];
      if id !in resources || id in Ids(table) {
        InsertRowsPrefix(env, park, m, loc, ids[1..], table);
      } else if Recordable(env, resources[id]) {
        var t2 := table + [NewRow(env, park, m, loc, id, resources[id])];
        InsertRowsPrefix(env, park, m, loc, ids[1..], t2);
        assert table <= t2;
      }
    }
  }

  /** No resource before `ids[k]` raises: every earlier one that is in the
      location's list and not in the table can be recorded. */
  ghost predicate NoRaiseBefore(env: Env, loc: Option<Id>, ids: seq<Id>, table: seq<Row>, k: nat)
    requires loc in env.resources && k <= |ids|
  {
    forall j :: 0 <= j < k && ids[j] in env.resources[loc] && ids[j] !in Ids(table) ==>
      Recordable(env, env.resources[loc][ids[j]])
  }

  /** The insertion loop records every resource it reaches: a resource in the
      location's list that can be recorded ends up in the table, unless a
      resource before it raised. */
  lemma {:induction false} InsertRowsComplete(env: Env, park: Id, m: Id, loc: Option<Id>, ids: seq<Id>, table: seq<Row>, k: nat)
    requires k < |ids| && loc in env.resources
    requires ids[k] in env.resources[loc] && Recordable(env, env.resources[loc][ids[k]])
    requires NoRaiseBefore(env, loc, ids, table, k)
    ensures ids[k] in Ids(InsertRows(env, park, m, loc, ids, table))
    decreases k
  {
    var resources := env.resources[loc];
    var id := ids[0];
    var r := InsertRows(env, park, m, loc, ids, table);
    assert forall j :: 0 <= j < |ids[1..]| ==> ids[1..][j] == ids[j + 1];
    if id !in resources || id in Ids(table) {
      assert r == InsertRows(env, park, m, loc, ids[1..], table);
      if k == 0 {
        InsertRowsPrefix(env, park, m, loc, ids[1..], table);
        IdsGrow(table, r);
      } else {
        InsertRowsComplete(env, park, m, loc, ids[1..], table, k - 1);
      }
    } else {
      var row := NewRow(env, park, m, loc, id, resources[id]);
      var t2 := table + [row];
      assert r == InsertRows(env, park, m, loc, ids[1..], t2);
      if k == 0 {
        InsertRowsPrefix(env, park, m, loc, ids[1..], t2);
        assert row in t2;
        IdsGrow(t2, r);
      } else {
        assert Ids(table) <= Ids(t2);
        InsertRowsComplete(env, park, m, loc, ids[1..], t2, k - 1);
      }
    }
  }

  /** A resource that cannot be recorded stops the insertion loop where it
      is reached: the resources after it add nothing to what the resources
      before it recorded. */
  lemma {:induction false} InsertStopsAtUnrecordable(env: Env, park: Id, m: Id, loc: Option<Id>, ids: seq<Id>, table: seq<Row>, k: nat)
    requires k < |ids| && loc in env.resources
    requires ids[k] in env.resources[loc] && !Recordable(env, env.resources[loc][ids[k]])
    requires ids[k] !in Ids(InsertRows(env, park, m, loc, ids[..k], table))
    ensures InsertRows(env, park, m, loc, ids, table) == InsertRows(env, park, m, loc, ids[..k], table)
    decreases k
  {
    if k > 0 {
      var resources := env.resources[loc];
      var id := ids[0];
      assert ids[..k][0] == id && ids[..k][1..] == ids[1..][..k - 1];
      assert ids[1..][k - 1] == ids[k];
      if id !in resources || id in Ids(table) {
        InsertStopsAtUnrecordable(env, park, m, loc, ids[1..], table, k - 1);
      } else if Recordable(env, resources[id]) {
        var t2 := table + [NewRow(env, park, m, loc, id, resources[id])];
        InsertStopsAtUnrecordable(env, park, m, loc, ids[1..], t2, k - 1);
      }
    }
  }

  /** `c` is a link the walk follows from map `p`: `p` was probed, lists no
      resources, and links to `c`, which is not the ignored map. */
  ghost predicate IsLinkOf(env: Env, p: Id, c: Id)
  {
    && p in env.probe && |env.probe[p].resourceAvailabilities| == 0
    && c in env.probe[p].mapLinkAvailabilities && c != IgnoredMap
  }

  /** The probe at index `i` follows a link of an earlier probe at index
      `lo` or later. */
  ghost predicate FollowsLink(env: Env, probes: seq<Id>, lo: nat, i: nat)
  {
    i < |probes| && exists j :: lo <= j < i && IsLinkOf(env, probes[j], probes[i])
  }

  /** Every probe from index `from` on follows a link of an earlier probe at
      index `lo` or later. */
  ghost predicate LinkedBack(env: Env, probes: seq<Id>, lo: nat, from: nat)
  {
    forall i: nat :: from <= i < |probes| ==> FollowsLink(env, probes, lo, i)
  }

  lemma LinkedBackPrefix(env: Env, p1: seq<Id>, p2: seq<Id>, lo: nat, from: nat)
    requires p1 <= p2 && from <= |p1|
    requires LinkedBack(env, p1, lo, from) && LinkedBack(env, p2, lo, |p1|)
    ensures LinkedBack(env, p2, lo, from)
  {
    forall i: nat | from <= i < |p1|
      ensures FollowsLink(env, p2, lo, i)
    {
      assert FollowsLink(env, p1, lo, i);
      var j :| lo <= j < i && IsLinkOf(env, p1[j], p1[i]);
      assert p2[j] == p1[j] && p2[i] == p1[i];
    }
  }

  /** The walk probes only what `dfs` requests: after its own map, every
      probe follows a link of a map probed in this walk, so a failed probe or
      a map that lists resources adds no probe after its own. */
  lemma {:induction false} WalkLinked(env: Env, park: Id, mapId: Option<Id>, loc: Option<Id>, st: WalkState, height: nat)
    requires CanWalk(env, park, mapId, height)
    ensures var r := Walk(env, park, mapId, loc, st, height);
      var m := mapId.GetOr(park);
      && LinkedBack(env, r.probes, |st.probes|, |st.probes| + 1)
      && (mapId != Some(IgnoredMap) && (m !in env.probe || |env.probe[m].resourceAvailabilities| > 0) ==>
            r.probes == st.probes + [m])
    decreases height, 0, 0
  {
    if mapId != Some(IgnoredMap) {
      var m := mapId.GetOr(park);
      if m in env.probe && |env.probe[m].resourceAvailabilities| == 0 {
        var l := if loc.None? then FindLocationId(env.mapRows, env.locations, m) else loc;
        var st1 := WalkState(st.table, st.probes + [m]);
        var links := env.probe[m].mapLinkAvailabilities;
        assert st1.probes[|st.probes|] == m;
        forall k | 0 <= k < |links| && links[k] != IgnoredMap
          ensures IsLinkOf(env, st1.probes[|st.probes|], links[k])
        {
          assert links[k] in links;
        }
        WalkChildrenLinked(env, park, links, l, st1, height - 1, |st.probes|, |st.probes|);
        assert Walk(env, park, mapId, loc, st, height) == WalkChildren(env, park, links, l, st1, height - 1);
      }
    }
  }

  lemma {:induction false} WalkChildrenLinked(env: Env, park: Id, links: seq<Id>, loc: Option<Id>, st: WalkState, height: nat,
                                              lo: nat, parent: nat)
    requires forall k :: 0 <= k < |links| ==> links[k] == IgnoredMap || Bounded(env, links[k], height)
    requires lo <= parent < |st.probes|
    requires forall k :: 0 <= k < |links| && links[k] != IgnoredMap ==> IsLinkOf(env, st.probes[parent], links[k])
    ensures LinkedBack(env, WalkChildren(env, park, links, loc, st, height).probes, lo, |st.probes|)
    decreases height, 1, |links|
  {
    if links != [] {
      var s1 := Walk(env, park, Some(links[0]), loc, st, height);
      WalkGrows(env, park, Some(links[0]), loc, st, height);
      WalkLinked(env, park, Some(links[0]), loc, st, height);
      assert s1.probes[parent] == st.probes[parent];
      forall i: nat | |st.probes| <= i < |s1.probes|
        ensures FollowsLink(env, s1.probes, lo, i)
      {
        if i == |st.probes| {
          assert IsLinkOf(env, s1.probes[parent], s1.probes[i]);
        } else {
          assert FollowsLink(env, s1.probes, |st.probes|, i);
          var j :| |st.probes| <= j < i && IsLinkOf(env, s1.probes[j], s1.probes[i]);
        }
      }
      assert forall k :: 0 <= k < |links[1..]| ==> links[1..][k] == links[k + 1];
      WalkChildrenLinked(env, park, links[1..], loc, s1, height, lo, parent);
      WalkChildrenGrow(env, park, links[1..], loc, s1, height);
      var r := WalkChildren(env, park, links[1..], loc, s1, height);
      LinkedBackPrefix(env, s1.probes, r.probes, lo, |st.probes|);
    }
  }

  /** The location id a walk passes down: the one it was given, or the one
      looked up for its map. */
  function WalkLocation(env: Env, park: Id, mapId: Option<Id>, loc: Option<Id>): Option<Id>
  {
    if loc.None? then FindLocationId(env.mapRows, env.locations, mapId.GetOr(park)) else loc
  }

  /** Every row a walk records carries the location id it passes down, when
      that id is known. */
  lemma {:induction false} WalkKeepsLocation(env: Env, park: Id, mapId: Option<Id>, loc: Option<Id>, st: WalkState, height: nat)
    requires CanWalk(env, park, mapId, height)
    ensures var r := Walk(env, park, mapId, loc, st, height);
      var l := WalkLocation(env, park, mapId, loc);
      l.Some? ==> forall i :: |st.table| <= i < |r.table| ==> r.table[i].locationId == l
    decreases height, 0, 0
  {
    if mapId != Some(IgnoredMap) {
      var m := mapId.GetOr(park);
      var l := WalkLocation(env, park, mapId, loc);
      if m in env.probe && l.Some? {
        var response := env.probe[m];
        if |response.resourceAvailabilities| > 0 {
          InsertRowsGrow(env, park, m, l, response.resourceAvailabilities, st.table);
        } else {
          var st1 := WalkState(st.table, st.probes + [m]);
          WalkChildrenKeepLocation(env, park, response.mapLinkAvailabilities, l, st1, height - 1);
          assert Walk(env, park, mapId, loc, st, height) == WalkChildren(env, park, response.mapLinkAvailabilities, l, st1, height - 1);
        }
      }
    }
  }

  lemma {:induction false} WalkChildrenKeepLocation(env: Env, park: Id, links: seq<Id>, loc: Option<Id>, st: WalkState, height: nat)
    requires forall k :: 0 <= k < |links| ==> links[k] == IgnoredMap || Bounded(env, links[k], height)
    requires loc.Some?
    ensures var r := WalkChildren(env, park, links, loc, st, height);
      forall i :: |st.table| <= i < |r.table| ==> r.table[i].locationId == loc
    decreases height, 1, |links|
  {
    if links != [] {
      var s1 := Walk(env, park, Some(links[0]), loc, st, height);
      WalkGrows(env, park, Some(links[0]), loc, st, height);
      WalkKeepsLocation(env, park, Some(links[0]), loc, st, height);
      assert forall k :: 0 <= k < |links[1..]| ==> links[1..][k] == links[k + 1];
      WalkChildrenKeepLocation(env, park, links[1..], loc, s1, height);
      WalkChildrenGrow(env, park, links[1..], loc, s1, height);
      var r := WalkChildren(env, park, links[1..], loc, s1, height);
      forall i | |st.table| <= i < |s1.table|
        ensures r.table[i].locationId == loc
      {
        assert r.table[i] == s1.table[i];
      }
    }
  }

  /** Every resource in the location's list can be recorded. */
  ghost predicate AllRecordable(env: Env, loc: Option<Id>)
  {
    loc in env.resources ==> forall id :: id in env.resources[loc] ==> Recordable(env, env.resources[loc][id])
  }

  /** Every resource that a probe from index `from` on lists, and that the
      location's list holds, is in the table. */
  ghost predicate RecordedFrom(env: Env, loc: Option<Id>, probes: seq<Id>, from: nat, table: seq<Row>)
  {
    forall i, id :: from <= i < |probes| && Listed(env, loc, probes[i], id) ==> id in Ids(table)
  }

  /** The probe of map `p` lists resource `id`, and the location's list
      holds it. */
  ghost predicate Listed(env: Env, loc: Option<Id>, p: Id, id: Id)
  {
    && p in env.probe && id in env.probe[p].resourceAvailabilities
    && loc in env.resources && id in env.resources[loc]
  }

  /** When no resource of the location raises, a walk records every resource
      that a map it probes lists and that the location's list holds. */
  lemma {:induction false} WalkRecords(env: Env, park: Id, mapId: Option<Id>, loc: Option<Id>, st: WalkState, height: nat)
    requires CanWalk(env, park, mapId, height)
    ensures var r := Walk(env, park, mapId, loc, st, height);
      var l := WalkLocation(env, park, mapId, loc);
      l.Some? && AllRecordable(env, l) ==> RecordedFrom(env, l, r.probes, |st.probes|, r.table)
    decreases height, 0, 0
  {
    var l := WalkLocation(env, park, mapId, loc);
    if mapId != Some(IgnoredMap) && l.Some? && AllRecordable(env, l) {
      var m := mapId.GetOr(park);
      var r := Walk(env, park, mapId, loc, st, height);
      if m !in env.probe {
        assert r.probes == st.probes + [m];
      } else {
        var response := env.probe[m];
        var ids := response.resourceAvailabilities;
        if |ids| > 0 {
          assert r.probes == st.probes + [m];
          forall i, id | |st.probes| <= i < |r.probes| && Listed(env, l, r.probes[i], id)
            ensures id in Ids(r.table)
          {
            assert r.probes[i] == m;
            var k :| 0 <= k < |ids| && ids[k] == id;
            assert NoRaiseBefore(env, l, ids, st.table, k) by {
              forall j | 0 <= j < k && ids[j] in env.resources[l]
                ensures Recordable(env, env.resources[l][ids[j]])
              {
                var x := ids[j];
                assert x in env.resources[l];
              }
            }
            InsertRowsComplete(env, park, m, l, ids, st.table, k);
          }
        } else {
          var st1 := WalkState(st.table, st.probes + [m]);
          WalkChildrenRecords(env, park, response.mapLinkAvailabilities, l, st1, height - 1);
          WalkChildrenGrow(env, park, response.mapLinkAvailabilities, l, st1, height - 1);
          assert r.probes[|st.probes|] == st1.probes[|st.probes|] == m;
        }
      }
    }
  }

  lemma {:induction false} WalkChildrenRecords(env: Env, park: Id, links: seq<Id>, loc: Option<Id>, st: WalkState, height: nat)
    requires forall k :: 0 <= k < |links| ==> links[k] == IgnoredMap || Bounded(env, links[k], height)
    requires loc.Some? && AllRecordable(env, loc)
    ensures var r := WalkChildren(env, park, links, loc, st, height);
      RecordedFrom(env, loc, r.probes, |st.probes|, r.table)
    decreases height, 1, |links|
  {
    if links != [] {
      var s1 := Walk(env, park, Some(links[0]), loc, st, height);
      WalkGrows(env, park, Some(links[0]), loc, st, height);
      WalkRecords(env, park, Some(links[0]), loc, st, height);
      assert forall k :: 0 <= k < |links[1..]| ==> links[1..][k] == links[k + 1];
      WalkChildrenRecords(env, park, links[1..], loc, s1, height);
      WalkChildrenGrow(env, park, links[1..], loc, s1, height);
      var r := WalkChildren(env, park, links[1..], loc, s1, height);
      IdsGrow(s1.table, r.table);
      forall i, id | |st.probes| <= i < |s1.probes| && Listed(env, loc, r.probes[i], id)
        ensures id in Ids(r.table)
      {
        assert r.probes[i] == s1.probes[i];
      }
    }
  }

  /** The walk from a park does all `dfs(park)` must: every map it probes
      after the park follows a link of an earlier probe; when the park's
      location is known, every new row is at that location; and when no
      resource of that location raises, every resource a probed map lists
      and the location holds is recorded. */
  lemma WalkFromParkComplete(env: Env, park: Id, table: seq<Row>, height: nat)
    requires Bounded(env, park, height)
    ensures var r := Walk(env, park, None, None, WalkState(table, []), height);
      var l := FindLocationId(env.mapRows, env.locations, park);
      && (forall i: nat :: 0 < i < |r.probes| ==> FollowsLink(env, r.probes, 0, i))
      && (l.Some? ==> forall i :: |table| <= i < |r.table| ==> r.table[i].locationId == l)
      && (l.Some? && AllRecordable(env, l) ==>
            forall p, id :: p in r.probes && Listed(env, l, p, id) ==> id in Ids(r.table))
  {
    var st := WalkState(table, []);
    var r := Walk(env, park, None, None, st, height);
    WalkLinked(env, park, None, None, st, height);
    WalkKeepsLocation(env, park, None, None, st, height);
    WalkRecords(env, park, None, None, st, height);
    var l := FindLocationId(env.mapRows, env.locations, park);
    if l.Some? && AllRecordable(env, l) {
      forall p, id | p in r.probes && Listed(env, l, p, id)
        ensures id in Ids(r.table)
      {
        var i :| 0 <= i < |r.probes| && r.probes[i] == p;
      }
    }
  }
}
