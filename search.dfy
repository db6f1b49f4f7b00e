/** The result building of `Scraper.run`: every campsite of every configured
    park, in table order, is checked for a free window, and each one found
    becomes an entry of the search result. */
module Search {
  import opened Common
  import opened Storage
  import opened Attributes
  import opened Availability
  import opened Booking

  /** One entry of `searchResult["data"]`. */
  datatype Entry = Entry(
    id: Id,
    site: string,
    fullName: string,
    attributes: seq<AttributePair>,
    category: string,
    description: string,
    startDate: string,
    endDate: string,
    capacity: int,
    bookingUrl: string,
    addedToCart: bool)

  /** The `searchResult` document. */
  datatype SearchResult = SearchResult(time: string, data: seq<Entry>)

  /** An exception that ends `run` before the result is written: the row's
      location is not in the `location` table, or its `attr` column is NULL. */
  datatype RunError = MissingLocation(resourceId: Id) | MissingAttributes(resourceId: Id)

  /** What a run reads besides the `resource_map` table: the settings, the
      daily-availability response of each resource (absent when the request
      fails), the `location` table, the clock reading stored in the result,
      the search time of the k-th booking link built, and the date rendering. */
  datatype RunInputs = RunInputs(
    cfg: Config,
    parks: seq<Id>,
    daily: map<Id, seq<DayCode>>,
    locations: seq<LocationRow>,
    time: string,
    clock: nat -> string,
    date2str: int -> string)

  /** The daily-availability response for a resource. */
  function Response(daily: map<Id, seq<DayCode>>, id: Id): Option<seq<DayCode>>
  {
    if id in daily then Some(daily[id]) else None
  }

  /** `fetch_all('resource_map', 'park_id = ?', (park,))`, in table order. */
  function ParkRows(table: seq<Row>, park: Id): (r: seq<Row>)
    ensures forall x :: x in r <==> x in table && x.parkId == park
    decreases |table|
  {
    if table == [] then []
    else
      var last := table[|table| - 1];
      assert table == table[..|table| - 1] + [last];
      ParkRows(table[..|table| - 1], park) + (if last.parkId == park then [last] else [])
  }

  /** A park's rows keep their table order: the selection distributes over
      concatenation. */
  lemma {:induction false} ParkRowsConcat(a: seq<Row>, b: seq<Row>, park: Id)
    ensures ParkRows(a + b, park) == ParkRows(a, park) + ParkRows(b, park)
    decreases |b|
  {
    if b == [] {
      assert a + b == a;
    } else {
      assert (a + b)[..|a + b| - 1] == a + b[..|b| - 1];
      ParkRowsConcat(a, b[..|b| - 1], park);
    }
  }

  /** One row is selected exactly when it is the park's. */
  lemma ParkRowsSingle(row: Row, park: Id)
    ensures ParkRows([row], park) == if row.parkId == park then [row] else []
  {
    assert [row][..0] == [];
  }

  /** The rows the nested loop visits, park by park. */
  function Candidates(table: seq<Row>, parks: seq<Id>): (r: seq<Row>)
    ensures forall x :: x in r <==> x in table && x.parkId in parks
    decreases |parks|
  {
    if parks == [] then []
    else
      assert parks == parks[..|parks| - 1] + [parks[|parks| - 1]];
      Candidates(table, parks[..|parks| - 1]) + ParkRows(table, parks[|parks| - 1])
  }

  /** The visited rows that have a free window, with the window, in order. */
  function Found(cands: seq<Row>, daily: map<Id, seq<DayCode>>): seq<(Row, Window)>
    decreases |cands|
  {
    if cands == [] then []
    else FoundAfter(Found(cands[..|cands| - 1], daily), daily, cands[|cands| - 1])
  }

  /** The found rows after one more visited row: it is added with its window
      when the scan finds one. */
  function FoundAfter(found: seq<(Row, Window)>, daily: map<Id, seq<DayCode>>, row: Row): seq<(Row, Window)>
  {
    match FindAvailabilityModel(Response(daily, row.id))
    case None => found
    case Some(w) => found + [(row, w)]
  }

  /** The entry for `row` found free in window `w`, when it is the k-th row
      found; `attributes` is only read when the column is not NULL. */
  function EntryFor(inputs: RunInputs, row: Row, w: Window, k: nat, location: LocationRow): Entry
  {
    Entry(row.id, row.name, location.fullName, row.attr.GetOr([]), row.category, row.description,
          inputs.date2str(w.start), inputs.date2str(w.end), row.capacity,
          MakeBookingUrl(inputs.cfg, row.mapId, w.start, w.end, row.locationId, inputs.clock(k), inputs.date2str),
          false)
  }

  /** The entry builder of a run. */
  function Maker(inputs: RunInputs): (Row, Window, nat, LocationRow) -> Entry
  {
    (row: Row, w: Window, k: nat, location: LocationRow) => EntryFor(inputs, row, w, k, location)
  }

  /** Helper for `EntriesAreBuilt` and `Scraper.AddEntry`: applies the entry builder, which keeps their proofs within the resource limit. */
  lemma MakerBuilds(inputs: RunInputs, row: Row, w: Window, k: nat, location: LocationRow)
    ensures Maker(inputs)(row, w, k, location) == EntryFor(inputs, row, w, k, location)
  {
  }

  /** A found row yields an entry: it has a location and attributes. */
  predicate Listable(locations: seq<LocationRow>, row: Row)
  {
    FindLocation(locations, row.locationId).Some? && row.attr.Some?
  }

  /** The entries `make` builds for the found rows, the k-th with index k,
      or the error of the first row that has no location or no attributes. */
  function BuildEntries(locations: seq<LocationRow>, found: seq<(Row, Window)>,
                        make: (Row, Window, nat, LocationRow) -> Entry): Result<seq<Entry>, RunError>
    decreases |found|
  {
    if found == [] then Ok([])
    else
      match BuildEntries(locations, found[..|found| - 1], make)
      case Err(e) => Err(e)
      case Ok(prior) =>
        var row := found[|found| - 1].0;
        var location := FindLocation(locations, row.locationId);
        if location.None? then Err(MissingLocation(row.id))
        else if row.attr.None? then Err(MissingAttributes(row.id))
        else Ok(prior + [make(row, found[|found| - 1].1, |found| - 1, location.value)])
  }

  /** The outcome of `run` on a `resource_map` table. */
  function RunModel(inputs: RunInputs, table: seq<Row>): Result<seq<Entry>, RunError>
  {
    BuildEntries(inputs.locations, Found(Candidates(table, inputs.parks), inputs.daily), Maker(inputs))
  }

  /** The row and window pairs found are exactly the visited rows with the
      window the availability scan reports for them. */
  lemma {:induction false} FoundMembers(cands: seq<Row>, daily: map<Id, seq<DayCode>>, row: Row, w: Window)
    ensures (row, w) in Found(cands, daily) <==>
              row in cands && FindAvailabilityModel(Response(daily, row.id)) == Some(w)
    decreases |cands|
  {
    if cands != [] {
      var prefix := cands[..|cands| - 1];
      FoundMembers(prefix, daily, row, w);
      assert cands == prefix + [cands[|cands| - 1]];
    }
  }

  /** Every window found is the first qualifying window of the resource's
      days, whenever the response is no longer than the scan's sentinel. */
  lemma FoundWindowsAreFirst(cands: seq<Row>, daily: map<Id, seq<DayCode>>, k: nat)
    requires k < |Found(cands, daily)|
    ensures var (row, w) := Found(cands, daily)[k];
      && row.id in daily
      && (|daily[row.id]| <= MaxRange ==> IsFirstWindow(daily[row.id], w.start, w.end))
  {
    var (row, w) := Found(cands, daily)[k];
    FoundMembers(cands, daily, row, w);
    if row.id in daily && |daily[row.id]| <= MaxRange {
      FirstWindowFound(daily[row.id]);
    }
  }

  /** Every found row has a location and attributes. */
  predicate AllListable(locations: seq<LocationRow>, found: seq<(Row, Window)>)
  {
    forall k :: 0 <= k < |found| ==> Listable(locations, found[k].0)
  }

  /** Building succeeds exactly when every found row has a location and
      attributes, and then yields one entry per found row, in order, the
      k-th built from the k-th found row, its window, index k and its
      location. */
  lemma {:induction false} RunShape(locations: seq<LocationRow>, found: seq<(Row, Window)>,
                                    make: (Row, Window, nat, LocationRow) -> Entry)
    ensures BuildEntries(locations, found, make).Ok? <==> AllListable(locations, found)
    ensures BuildEntries(locations, found, make).Ok? ==>
      var es := BuildEntries(locations, found, make).value;
      && |es| == |found|
      && forall k :: 0 <= k < |found| ==>
           es[k] == make(found[k].0, found[k].1, k, FindLocation(locations, found[k].0.locationId).value)
    decreases |found|
  {
    if found != [] {
      var n := |found| - 1;
      var prefix := found[..n];
      RunShape(locations, prefix, make);
      assert forall k :: 0 <= k < n ==> prefix[k] == found[k];
      assert found == prefix + [found[n]];
      var before := BuildEntries(locations, prefix, make);
      if before.Err? {
        BuildErrorPersists(locations, prefix, found, make);
        var k :| 0 <= k < n && !Listable(locations, prefix[k].0);
        assert !Listable(locations, found[k].0);
      } else if Listable(locations, found[n].0) {
        RunShapeStep(locations, prefix, found[n], make);
      } else {
        BuildStepFails(locations, prefix, make, found[n].0, found[n].1);
      }
    }
  }

  /** The successful step of `RunShape`: one more listable found row keeps
      the entries in step with the found rows. */
  lemma RunShapeStep(locations: seq<LocationRow>, prefix: seq<(Row, Window)>, last: (Row, Window),
                     make: (Row, Window, nat, LocationRow) -> Entry)
    requires BuildEntries(locations, prefix, make).Ok?
    requires var es := BuildEntries(locations, prefix, make).value;
      && |es| == |prefix|
      && forall k :: 0 <= k < |prefix| ==>
           Listable(locations, prefix[k].0) && es[k] == make(prefix[k].0, prefix[k].1, k, FindLocation(locations, prefix[k].0.locationId).value)
    requires Listable(locations, last.0)
    ensures var found := prefix + [last];
      && (forall k :: 0 <= k < |found| ==> Listable(locations, found[k].0))
      && BuildEntries(locations, found, make).Ok?
      && var es := BuildEntries(locations, found, make).value;
      && |es| == |found|
      && forall k :: 0 <= k < |found| ==>
           es[k] == make(found[k].0, found[k].1, k, FindLocation(locations, found[k].0.locationId).value)
  {
    BuildStep(locations, prefix, make, last.0, last.1);
  }

  /** A run succeeds exactly when every found row has a location and
      attributes; its entries are then those of the found rows, in order,
      each naming its row's campsite and location, its window's dates, the
      booking link of its map, window and location, and not yet in the cart. */
  lemma RunEntries(inputs: RunInputs, table: seq<Row>)
    ensures var found := Found(Candidates(table, inputs.parks), inputs.daily);
      RunModel(inputs, table).Ok? <==> AllListable(inputs.locations, found)
    ensures var found := Found(Candidates(table, inputs.parks), inputs.daily);
      (RunModel(inputs, table).Ok? ==>
            var es := RunModel(inputs, table).value;
            && |es| == |found|
            && forall k :: 0 <= k < |found| ==>
                 var (row, w) := found[k];
                 && es[k].id == row.id && es[k].site == row.name
                 && es[k].category == row.category && es[k].description == row.description
                 && es[k].capacity == row.capacity
                 && es[k].fullName == FindLocation(inputs.locations, row.locationId).value.fullName
                 && Some(es[k].attributes) == row.attr
                 && es[k].startDate == inputs.date2str(w.start) && es[k].endDate == inputs.date2str(w.end)
                 && es[k].bookingUrl == MakeBookingUrl(inputs.cfg, row.mapId, w.start, w.end, row.locationId,
                                                       inputs.clock(k), inputs.date2str)
                 && !es[k].addedToCart)
  {
    var found := Found(Candidates(table, inputs.parks), inputs.daily);
    RunShape(inputs.locations, found, Maker(inputs));
    if RunModel(inputs, table).Ok? {
      EntriesAreBuilt(inputs, found);
    }
  }

  /** The location row of a listable row. */
  function LocationOf(locations: seq<LocationRow>, row: Row): (r: LocationRow)
    requires Listable(locations, row)
    ensures FindLocation(locations, row.locationId) == Some(r)
  {
    FindLocation(locations, row.locationId).value
  }

  /** When every found row is listable, building succeeds and the k-th
      entry copies the k-th found row's fields, names its location, renders
      its window and carries its booking link. */
  lemma EntriesAreBuilt(inputs: RunInputs, found: seq<(Row, Window)>)
    requires AllListable(inputs.locations, found)
    ensures var b := BuildEntries(inputs.locations, found, Maker(inputs));
      && b.Ok? && |b.value| == |found|
      && forall k :: 0 <= k < |found| ==>
           var (row, w) := found[k];
           var es := b.value;
           && es[k].id == row.id && es[k].site == row.name
           && es[k].category == row.category && es[k].description == row.description
           && es[k].capacity == row.capacity
           && es[k].fullName == LocationOf(inputs.locations, row).fullName
           && Some(es[k].attributes) == row.attr
           && es[k].startDate == inputs.date2str(w.start) && es[k].endDate == inputs.date2str(w.end)
           && es[k].bookingUrl == MakeBookingUrl(inputs.cfg, row.mapId, w.start, w.end, row.locationId,
                                                 inputs.clock(k), inputs.date2str)
           && !es[k].addedToCart
  {
    RunShape(inputs.locations, found, Maker(inputs));
    var es := BuildEntries(inputs.locations, found, Maker(inputs)).value;
    forall k | 0 <= k < |found|
      ensures es[k] == EntryFor(inputs, found[k].0, found[k].1, k, LocationOf(inputs.locations, found[k].0))
    {
      MakerBuilds(inputs, found[k].0, found[k].1, k, LocationOf(inputs.locations, found[k].0));
    }
  }

  /** One more visited row adds its window to the found rows, if it has one. */
  lemma FoundStep(before: seq<Row>, row: Row, daily: map<Id, seq<DayCode>>)
    ensures Found(before + [row], daily) == FoundAfter(Found(before, daily), daily, row)
  {
    assert (before + [row])[..|before|] == before;
  }

  /** One more found row that has a location and attributes adds the entry
      `make` builds for it. */
  lemma BuildStep(locations: seq<LocationRow>, found: seq<(Row, Window)>, make: (Row, Window, nat, LocationRow) -> Entry,
                  row: Row, w: Window)
    requires BuildEntries(locations, found, make).Ok?
    requires Listable(locations, row)
    ensures BuildEntries(locations, found + [(row, w)], make) ==
              Ok(BuildEntries(locations, found, make).value + [make(row, w, |found|, FindLocation(locations, row.locationId).value)])
  {
    assert (found + [(row, w)])[..|found|] == found;
  }

  /** One more found row without a location or attributes makes building fail. */
  lemma BuildStepFails(locations: seq<LocationRow>, found: seq<(Row, Window)>, make: (Row, Window, nat, LocationRow) -> Entry,
                       row: Row, w: Window)
    requires BuildEntries(locations, found, make).Ok?
    requires !Listable(locations, row)
    ensures BuildEntries(locations, found + [(row, w)], make).Err?
  {
    assert (found + [(row, w)])[..|found|] == found;
  }

  lemma {:induction false} CandidatesPrefix(table: seq<Row>, parks: seq<Id>, n: nat)
    requires n <= |parks|
    ensures Candidates(table, parks[..n]) <= Candidates(table, parks)
    decreases |parks| - n
  {
    if n < |parks| {
      CandidatesPrefix(table, parks, n + 1);
      assert parks[..n + 1][..n] == parks[..n];
    } else {
      assert parks[..n] == parks;
    }
  }

  lemma CandidatesStep(table: seq<Row>, parks: seq<Id>, p: nat)
    requires p < |parks|
    ensures Candidates(table, parks[..p + 1]) == Candidates(table, parks[..p]) + ParkRows(table, parks[p])
  {
    assert parks[..p + 1][..p] == parks[..p];
  }

  /** A run whose first `p` + 1 parks already fail fails as a whole. */
  lemma RunFailsFrom(inputs: RunInputs, table: seq<Row>, p: nat)
    requires p < |inputs.parks|
    requires BuildEntries(inputs.locations, Found(Candidates(table, inputs.parks[..p + 1]), inputs.daily), Maker(inputs)).Err?
    ensures RunModel(inputs, table).Err?
  {
    var all := Candidates(table, inputs.parks);
    var some := Candidates(table, inputs.parks[..p + 1]);
    CandidatesPrefix(table, inputs.parks, p + 1);
    FoundPrefix(some, all, inputs.daily);
    BuildErrorPersists(inputs.locations, Found(some, inputs.daily), Found(all, inputs.daily), Maker(inputs));
  }

  lemma {:induction false} FoundPrefix(a: seq<Row>, b: seq<Row>, daily: map<Id, seq<DayCode>>)
    requires a <= b
    ensures Found(a, daily) <= Found(b, daily)
    decreases |b|
  {
    if |a| < |b| {
      FoundPrefix(a, b[..|b| - 1], daily);
    } else {
      assert a == b;
    }
  }

  /** Once a row has no location or no attributes, the run fails with that
      error whatever follows. */
  lemma {:induction false} BuildErrorPersists(locations: seq<LocationRow>, f: seq<(Row, Window)>, g: seq<(Row, Window)>,
                                              make: (Row, Window, nat, LocationRow) -> Entry)
    requires f <= g && BuildEntries(locations, f, make).Err?
    ensures BuildEntries(locations, g, make) == BuildEntries(locations, f, make)
    decreases |g|
  {
    if |f| < |g| {
      BuildErrorPersists(locations, f, g[..|g| - 1], make);
    } else {
      assert f == g;
    }
  }
}
