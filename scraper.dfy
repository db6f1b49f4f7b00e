/** The `Scraper` object: the parts of its state the core changes (the
    `resource_map` table, the `searchResult` and `cart` documents) and the
    operations that change them. */
module Scraper {
  import opened Common
  import opened Storage
  import opened Attributes
  import opened Availability
  import opened Booking
  import opened Crawl
  import opened Search
  import opened Cart

  /** `update_row('resource_map', {"attr": ...}, 'id = ?', (id,))`: every row
      with the id gets the attribute list; nothing else changes. */
  function SetAttr(table: seq<Row>, id: Id, attrs: seq<AttributePair>): (r: seq<Row>)
    ensures |r| == |table|
    ensures forall k :: 0 <= k < |table| ==>
              r[k] == if table[k].id == id then table[k].(attr := Some(attrs)) else table[k]
  {
    if table == [] then []
    else [if table[0].id == id then table[0].(attr := Some(attrs)) else table[0]] + SetAttr(table[1..], id, attrs)
  }

  /** The state after the resource loop of one resource location in
      `update_attributes`: the table, the count of updates that changed a
      row, and the mapping error that ended the loop, if any. */
  datatype AttrOutcome = AttrOutcome(table: seq<Row>, changed: nat, failure: Option<MappingError>)

  /** The resource loop over `(resource_id, definedAttributes)` pairs. */
  function AttributeUpdates(defs: map<int, Definition>, resourceList: seq<(Id, seq<DefinedAttribute>)>, table: seq<Row>): AttrOutcome
    decreases |resourceList|
  {
    if resourceList == [] then AttrOutcome(table, 0, None)
    else UpdateStep(defs, AttributeUpdates(defs, resourceList[..|resourceList| - 1], table), resourceList[|resourceList| - 1])
  }

  /** One iteration: after an error nothing more happens; otherwise the
      resource's attributes are mapped and written, and the write counts when
      a row has the id. */
  function UpdateStep(defs: map<int, Definition>, prior: AttrOutcome, resource: (Id, seq<DefinedAttribute>)): AttrOutcome
  {
    if prior.failure.Some? then prior
    else
      match AttributeList(defs, resource.1)
      case Err(e) => prior.(failure := Some(e))
      case Ok(attrs) =>
        AttrOutcome(SetAttr(prior.table, resource.0, attrs),
                    prior.changed + (if resource.0 in Ids(prior.table) then 1 else 0), None)
  }

  lemma UpdatesStep(defs: map<int, Definition>, resourceList: seq<(Id, seq<DefinedAttribute>)>, k: nat, table: seq<Row>)
    requires k < |resourceList|
    ensures AttributeUpdates(defs, resourceList[..k + 1], table)
            == UpdateStep(defs, AttributeUpdates(defs, resourceList[..k], table), resourceList[k])
  {
    assert resourceList[..k + 1][..k] == resourceList[..k];
  }

  lemma {:induction false} UpdatesFailurePersist(defs: map<int, Definition>, resourceList: seq<(Id, seq<DefinedAttribute>)>,
                                                 k: nat, table: seq<Row>)
    requires k <= |resourceList|
    requires AttributeUpdates(defs, resourceList[..k], table).failure.Some?
    ensures AttributeUpdates(defs, resourceList, table) == AttributeUpdates(defs, resourceList[..k], table)
    decreases |resourceList| - k
  {
    if k == |resourceList| {
      assert resourceList[..k] == resourceList;
    } else {
      assert resourceList[..k + 1][..k] == resourceList[..k];
      UpdatesFailurePersist(defs, resourceList, k + 1, table);
    }
  }

  /** The attribute loop only writes `attr`: the table keeps its rows, in
      order, with every other column unchanged, and at most one update per
      listed resource counts as a change. */
  lemma {:induction false} UpdatesOnlyWriteAttributes(defs: map<int, Definition>, resourceList: seq<(Id, seq<DefinedAttribute>)>,
                                                      table: seq<Row>)
    ensures var o := AttributeUpdates(defs, resourceList, table);
      && |o.table| == |table|
      && (forall k :: 0 <= k < |table| ==> o.table[k] == table[k].(attr := o.table[k].attr))
      && o.changed <= |resourceList|
    decreases |resourceList|
  {
    if resourceList != [] {
      UpdatesOnlyWriteAttributes(defs, resourceList[..|resourceList| - 1], table);
    }
  }

  lemma {:induction false} UpdatesMapEach(defs: map<int, Definition>, resourceList: seq<(Id, seq<DefinedAttribute>)>,
                                          table: seq<Row>, j: nat)
    requires j < |resourceList|
    requires AttributeUpdates(defs, resourceList, table).failure.None?
    ensures AttributeList(defs, resourceList[j].1).Ok?
    decreases |resourceList|
  {
    var n := |resourceList| - 1;
    var prefix := resourceList[..n];
    var prior := AttributeUpdates(defs, prefix, table);
    assert AttributeUpdates(defs, resourceList, table) == UpdateStep(defs, prior, resourceList[n]);
    assert prior.failure.None?;
    if j < n {
      assert prefix[j] == resourceList[j];
      UpdatesMapEach(defs, prefix, table, j);
    }
  }

  lemma {:induction false} UpdatesSucceed(defs: map<int, Definition>, resourceList: seq<(Id, seq<DefinedAttribute>)>,
                                          table: seq<Row>)
    requires forall j :: 0 <= j < |resourceList| ==> AttributeList(defs, resourceList[j].1).Ok?
    ensures AttributeUpdates(defs, resourceList, table).failure.None?
    decreases |resourceList|
  {
    if resourceList != [] {
      var n := |resourceList| - 1;
      var prefix := resourceList[..n];
      assert forall j :: 0 <= j < n ==> prefix[j] == resourceList[j];
      UpdatesSucceed(defs, prefix, table);
      assert AttributeUpdates(defs, resourceList, table) == UpdateStep(defs, AttributeUpdates(defs, prefix, table), resourceList[n]);
    }
  }

  /** The loop ends without an error exactly when every listed resource's
      attributes map. */
  lemma UpdatesFailExactlyWhenMappingFails(defs: map<int, Definition>,
                                           resourceList: seq<(Id, seq<DefinedAttribute>)>, table: seq<Row>)
    ensures AttributeUpdates(defs, resourceList, table).failure.None? <==>
              forall j :: 0 <= j < |resourceList| ==> AttributeList(defs, resourceList[j].1).Ok?
  {
    if AttributeUpdates(defs, resourceList, table).failure.None? {
      forall j | 0 <= j < |resourceList|
        ensures AttributeList(defs, resourceList[j].1).Ok?
      {
        UpdatesMapEach(defs, resourceList, table, j);
      }
    } else if forall j :: 0 <= j < |resourceList| ==> AttributeList(defs, resourceList[j].1).Ok? {
      UpdatesSucceed(defs, resourceList, table);
    }
  }

  /** When the loop ends without an error, the rows of a resource listed
      only at `j` hold its mapped attributes. */
  lemma {:induction false} UpdatesWriteMappedAttributes(defs: map<int, Definition>, resourceList: seq<(Id, seq<DefinedAttribute>)>,
                                                        table: seq<Row>, k: nat, j: nat)
    requires AttributeUpdates(defs, resourceList, table).failure.None?
    requires k < |table| && j < |resourceList| && resourceList[j].0 == table[k].id
    requires forall i :: 0 <= i < |resourceList| && i != j ==> resourceList[i].0 != table[k].id
    ensures AttributeList(defs, resourceList[j].1).Ok?
    ensures |AttributeUpdates(defs, resourceList, table).table| == |table|
    ensures AttributeUpdates(defs, resourceList, table).table[k].attr == Some(AttributeList(defs, resourceList[j].1).value)
    decreases |resourceList|
  {
    var n := |resourceList| - 1;
    var prefix := resourceList[..n];
    var prior := AttributeUpdates(defs, prefix, table);
    assert prior.failure.None?;
    UpdatesOnlyWriteAttributes(defs, prefix, table);
    assert prior.table[k].id == table[k].id;
    var (id, defined) := resourceList[n];
    var attrs := AttributeList(defs, defined).value;
    var o := AttributeUpdates(defs, resourceList, table);
    assert AttributeList(defs, defined).Ok?;
    assert o.table == SetAttr(prior.table, id, attrs);
    assert |o.table| == |table|;
    if j < n {
      assert forall i :: 0 <= i < n ==> prefix[i] == resourceList[i];
      UpdatesWriteMappedAttributes(defs, prefix, table, k, j);
      assert o.table[k] == prior.table[k];
    } else {
      assert o.table[k] == prior.table[k].(attr := Some(attrs));
    }
  }

  /** The rows of resources the loop does not list keep their attributes. */
  lemma {:induction false} UpdatesKeepUnlisted(defs: map<int, Definition>, resourceList: seq<(Id, seq<DefinedAttribute>)>,
                                               table: seq<Row>, k: nat)
    requires k < |table|
    requires forall j :: 0 <= j < |resourceList| ==> resourceList[j].0 != table[k].id
    ensures |AttributeUpdates(defs, resourceList, table).table| == |table|
    ensures AttributeUpdates(defs, resourceList, table).table[k] == table[k]
    decreases |resourceList|
  {
    UpdatesOnlyWriteAttributes(defs, resourceList, table);
    if resourceList != [] {
      var n := |resourceList| - 1;
      var prefix := resourceList[..n];
      assert forall j :: 0 <= j < n ==> prefix[j] == resourceList[j];
      UpdatesKeepUnlisted(defs, prefix, table, k);
      assert resourceList[n].0 != table[k].id;
    }
  }

  /** Helper for the loop of `ParkEntries`: the visited rows plus a prefix of the park's rows start as the visited rows and grow by one row per step. */
  lemma ExtendPrefix<T>(a: seq<T>, b: seq<T>, j: nat)
    requires j <= |b|
    ensures a + b[..0] == a
    ensures j < |b| ==> a + b[..j + 1] == (a + b[..j]) + [b[j]]
    ensures j < |b| ==> a + b[..j + 1] <= a + b
  {
    assert b[..0] == [];
    if j < |b| {
      assert b[..j + 1] == b[..j] + [b[j]];
    }
  }

  /** The body of the result-building loop of `run` for one resource: scan
      its days and, when a window is free, append its entry with the booking
      link; `failed` reports the exception a missing location or missing
      attributes raise. */
  method AddEntry(inputs: RunInputs, ghost found: seq<(Row, Window)>, data: seq<Entry>, resource: Row)
    returns (data': seq<Entry>, failed: bool)
    requires BuildEntries(inputs.locations, found, Maker(inputs)) == Ok(data) && |data| == |found|
    ensures var f := FoundAfter(found, inputs.daily, resource);
      && (failed <==> BuildEntries(inputs.locations, f, Maker(inputs)).Err?)
      && (!failed ==> BuildEntries(inputs.locations, f, Maker(inputs)) == Ok(data') && |data'| == |f|)
  {
    data', failed := data, false;
    var foundRange := FindAvailability(Response(inputs.daily, resource.id));
    if foundRange.None? {
      return;
    }
    var w := foundRange.value;
    var location := FindLocation(inputs.locations, resource.locationId);
    if location.None? || resource.attr.None? {
      BuildStepFails(inputs.locations, found, Maker(inputs), resource, w);
      failed := true;
      return;
    }
    var bookingUrl := MakeBookingUrl(inputs.cfg, resource.mapId, w.start, w.end, resource.locationId,
                                     inputs.clock(|data|), inputs.date2str);
    var entry := Entry(resource.id, resource.name, location.value.fullName, resource.attr.value,
                       resource.category, resource.description,
                       inputs.date2str(w.start), inputs.date2str(w.end), resource.capacity,
                       bookingUrl, false);
    BuildStep(inputs.locations, found, Maker(inputs), resource, w);
    MakerBuilds(inputs, resource, w, |found|, location.value);
    data' := data + [entry];
  }

  /** The inner loop of `run` over the rows of one park, after the rows
      `visited` of the earlier parks. */
  method ParkEntries(inputs: RunInputs, ghost visited: seq<Row>, data: seq<Entry>, resources: seq<Row>)
    returns (data': seq<Entry>, failed: bool)
    requires BuildEntries(inputs.locations, Found(visited, inputs.daily), Maker(inputs)) == Ok(data)
    requires |data| == |Found(visited, inputs.daily)|
    ensures var f := Found(visited + resources, inputs.daily);
      && (failed <==> BuildEntries(inputs.locations, f, Maker(inputs)).Err?)
      && (!failed ==> BuildEntries(inputs.locations, f, Maker(inputs)) == Ok(data') && |data'| == |f|)
  {
    data', failed := data, false;
    ExtendPrefix(visited, resources, 0);
    assert resources[..|resources|] == resources;
    for j := 0 to |resources|
      invariant BuildEntries(inputs.locations, Found(visited + resources[..j], inputs.daily), Maker(inputs)) == Ok(data')
      invariant |data'| == |Found(visited + resources[..j], inputs.daily)|
    {
      ghost var before := visited + resources[..j];
      ExtendPrefix(visited, resources, j);
      FoundStep(before, resources[j], inputs.daily);
      data', failed := AddEntry(inputs, Found(before, inputs.daily), data', resources[j]);
      if failed {
        FoundPrefix(before + [resources[j]], visited + resources, inputs.daily);
        BuildErrorPersists(inputs.locations, Found(before + [resources[j]], inputs.daily),
                           Found(visited + resources, inputs.daily), Maker(inputs));
        return;
      }
    }
  }

  /** Helper for `Scraper.DeleteCart`: sequences equal at every index are equal. */
  lemma SameElements<T>(a: seq<T>, b: seq<T>)
    requires |a| == |b| && forall j :: 0 <= j < |a| ==> a[j] == b[j]
    ensures a == b
  {
  }

  class Scraper {
    /** The `resource_map` table. */
    var resourceMap: seq<Row>
    /** The maps probed so far, in order: a record of the probe requests. */
    ghost var probes: seq<Id>
    /** The `searchResult` document; None while the file is missing, when
        loading it yields an empty dictionary. */
    var searchResult: Option<SearchResult>
    /** The `cart` document; a missing file reads as an empty cart. */
    var cart: seq<CartItem>

    constructor (table: seq<Row>, result: Option<SearchResult>, items: seq<CartItem>)
      ensures resourceMap == table && searchResult == result && cart == items && probes == []
    {
      resourceMap := table;
      searchResult := result;
      cart := items;
      probes := [];
    }

    /** The insertion loop of `dfs` (lines 220-246) for a map that lists
        resources. */
    method InsertResources(env: Env, park: Id, m: Id, loc: Option<Id>, ids: seq<Id>)
      modifies this
      ensures resourceMap == InsertRows(env, park, m, loc, ids, old(resourceMap))
      ensures probes == old(probes) && searchResult == old(searchResult) && cart == old(cart)
    {
      if ids == [] || loc !in env.resources {
        return;
      }
      var resources := env.resources[loc];
      var i := 0;
      while i < |ids|
        invariant 0 <= i <= |ids|
        invariant InsertRows(env, park, m, loc, ids[i..], resourceMap) == InsertRows(env, park, m, loc, ids, old(resourceMap))
        invariant probes == old(probes) && searchResult == old(searchResult) && cart == old(cart)
      {
        var id := ids[i];
        assert ids[i..][1..] == ids[i + 1..];
        if id !in resources || id in Ids(resourceMap) {
          i := i + 1;
          continue;
        }
        var value := resources[id];
        if !Recordable(env, value) {
          return;
        }
        resourceMap := resourceMap + [NewRow(env, park, m, loc, id, value)];
        i := i + 1;
      }
    }

    /** `dfs(park_id, map_id, resourceLocationId)`. */
    method Dfs(env: Env, park: Id, mapId: Option<Id>, loc: Option<Id>, ghost height: nat)
      requires CanWalk(env, park, mapId, height)
      modifies this
      ensures WalkState(resourceMap, probes) == Walk(env, park, mapId, loc, WalkState(old(resourceMap), old(probes)), height)
      ensures searchResult == old(searchResult) && cart == old(cart)
      decreases height
    {
      if mapId == Some(IgnoredMap) {
        return;
      }
      var m := if mapId.None? then park else mapId.value;
      var l := loc;
      if l.None? {
        l := FindLocationId(env.mapRows, env.locations, m);
      }
      probes := probes + [m];
      if m !in env.probe {
        return;
      }
      var response := env.probe[m];
      if |response.resourceAvailabilities| > 0 {
        InsertResources(env, park, m, l, response.resourceAvailabilities);
      } else {
        var links := response.mapLinkAvailabilities;
        ghost var target := Walk(env, park, mapId, loc, WalkState(old(resourceMap), old(probes)), height);
        var k := 0;
        while k < |links|
          invariant 0 <= k <= |links|
          invariant WalkChildren(env, park, links[k..], l, WalkState(resourceMap, probes), height - 1) == target
          invariant searchResult == old(searchResult) && cart == old(cart)
        {
          assert links[k..][1..] == links[k + 1..];
          Dfs(env, park, Some(links[k]), l, height - 1);
          k := k + 1;
        }
      }
    }

    /** The resource loop of `update_attributes` (lines 273-323) for one
        resource location: map each resource's attributes and write them to
        its rows; a mapping error ends the loop after the earlier writes. */
    method UpdateLocationAttributes(defs: map<int, Definition>, resourceList: seq<(Id, seq<DefinedAttribute>)>)
      returns (changed: nat, failure: Option<MappingError>)
      modifies this
      ensures AttrOutcome(resourceMap, changed, failure) == AttributeUpdates(defs, resourceList, old(resourceMap))
      ensures probes == old(probes) && searchResult == old(searchResult) && cart == old(cart)
    {
      changed, failure := 0, None;
      assert resourceList[..|resourceList|] == resourceList;
      for k := 0 to |resourceList|
        invariant AttributeUpdates(defs, resourceList[..k], old(resourceMap)) == AttrOutcome(resourceMap, changed, None)
        invariant probes == old(probes) && searchResult == old(searchResult) && cart == old(cart)
      {
        UpdatesStep(defs, resourceList, k, old(resourceMap));
        var (resourceId, defined) := resourceList[k];
        var attributesList := MapAttributes(defs, defined);
        if attributesList.Err? {
          failure := Some(attributesList.error);
          UpdatesFailurePersist(defs, resourceList, k + 1, old(resourceMap));
          return;
        }
        var updated := resourceId in Ids(resourceMap);
        resourceMap := SetAttr(resourceMap, resourceId, attributesList.value);
        if updated {
          changed := changed + 1;
        }
      }
    }

    /** The result-building loop of `run` (lines 449-478) and the write of
        the result; an exception leaves the old result in place. */
    method Run(inputs: RunInputs)
      modifies this
      ensures RunModel(inputs, old(resourceMap)).Ok? ==>
                searchResult == Some(SearchResult(inputs.time, RunModel(inputs, old(resourceMap)).value))
      ensures RunModel(inputs, old(resourceMap)).Err? ==> searchResult == old(searchResult)
      ensures resourceMap == old(resourceMap) && probes == old(probes) && cart == old(cart)
    {
      var table := resourceMap;
      var parks := inputs.parks;
      ghost var visited: seq<Row> := [];
      var data: seq<Entry> := [];
      assert parks[..|parks|] == parks;
      for p := 0 to |parks|
        invariant visited == Candidates(table, parks[..p])
        invariant BuildEntries(inputs.locations, Found(visited, inputs.daily), Maker(inputs)) == Ok(data)
        invariant |data| == |Found(visited, inputs.daily)|
        invariant resourceMap == table && probes == old(probes) && cart == old(cart) && searchResult == old(searchResult)
      {
        var resources := ParkRows(table, parks[p]);
        CandidatesStep(table, parks, p);
        var failed;
        data, failed := ParkEntries(inputs, visited, data, resources);
        if failed {
          RunFailsFrom(inputs, table, p);
          return;
        }
        visited := visited + resources;
      }
      searchResult := Some(SearchResult(inputs.time, data));
    }

    /** `put_cart(new_cart)`: replace the cart's item for the resource by the
        new one, at the end, and flag the first search entry for it. A
        missing search result raises before anything is written. */
    method PutCart(item: CartItem)
      modifies this
      ensures old(searchResult).None? ==> searchResult == old(searchResult) && cart == old(cart)
      ensures old(searchResult).Some? ==>
                && searchResult == Some(old(searchResult).value.(data := MarkAdded(old(searchResult).value.data, item.id)))
                && cart == WithoutId(old(cart), item.id) + [item]
      ensures resourceMap == old(resourceMap) && probes == old(probes)
    {
      if searchResult.None? {
        return;
      }
      var newCarts := WithoutId(cart, item.id) + [item];
      var results := searchResult.value;
      var data := results.data;
      ghost var hit: Option<nat> := None;
      for i := 0 to |data|
        invariant data == results.data && hit.None?
        invariant forall j :: 0 <= j < i ==> data[j].id != item.id
      {
        if data[i].id == item.id {
          data := data[i := data[i].(addedToCart := true)];
          hit := Some(i);
          break;
        }
      }
      assert data == MarkAdded(results.data, item.id);
      searchResult := Some(results.(data := data));
      cart := newCarts;
    }

    /** `delete_cart(cart_id)`: drop the resource's items from the cart, or
        all of them for 'all', and clear the flag of every search entry for
        the resource. A missing search result raises before anything is
        written. */
    method DeleteCart(target: CartTarget)
      modifies this
      ensures old(searchResult).None? ==> searchResult == old(searchResult) && cart == old(cart)
      ensures old(searchResult).Some? ==>
                && searchResult == Some(old(searchResult).value.(data := ClearAdded(old(searchResult).value.data, target)))
                && cart == RemainingCart(old(cart), target)
      ensures resourceMap == old(resourceMap) && probes == old(probes)
    {
      if searchResult.None? {
        return;
      }
      var newCarts := if target.Everything? then [] else WithoutId(cart, target.id);
      var results := searchResult.value;
      var data := results.data;
      ghost var cleared := ClearAdded(results.data, target);
      for i := 0 to |data|
        invariant |data| == |cleared|
        invariant forall j :: 0 <= j < |data| ==> data[j] == if j < i then cleared[j] else results.data[j]
      {
        assert data[i] == results.data[i];
        assert cleared[i] == if Hits(data[i], target) then data[i].(addedToCart := false) else data[i];
        if Hits(data[i], target) {
          data := data[i := data[i].(addedToCart := false)];
        }
      }
      SameElements(data, cleared);
      searchResult := Some(results.(data := data));
      cart := newCarts;
    }
  }
}
