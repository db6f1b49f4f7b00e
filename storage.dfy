/** The settings dictionary of `Store` and the parts of `DB` and `Store` that
    compute something: the first-row lookups over the `map` and `location`
    tables, and the text and parameter tuples of INSERT and UPDATE statements. */
module Storage {
  import opened Common

  type Id = int

  /** A JSON value, as held in the settings document and in blob columns. */
  datatype Json =
    | JNull
    | JBool(b: bool)
    | JInt(i: int)
    | JStr(s: string)
    | JArray(items: seq<Json>)
    | JObject(fields: map<string, Json>)

  /** The Python value `dict()`. */
  const EmptyDict: Json := JObject(map[])

  /** The settings dictionary `Store.data`, loaded from the `ini` document. */
  class Store {
    var data: map<string, Json>

    /** `Store()`, given the document `load('ini')` produced. */
    constructor (loaded: map<string, Json>)
      ensures data == loaded
    {
      data := loaded;
    }

    /** `get(key)`: the whole dictionary when no key is given, otherwise the
        entry, or Python's None for an absent key. */
    function Get(key: Option<string>): (r: Json)
      reads this
      ensures key.None? ==> r == JObject(data)
      ensures key.Some? && key.value in data ==> r == data[key.value]
      ensures key.Some? && key.value !in data ==> r == JNull
    {
      match key
      case None => JObject(data)
      case Some(k) => if k in data then data[k] else JNull
    }

    /** `set(key, value, flush)`: an absent key gets an empty dictionary, not
        `value`; a present key is overwritten with `value`. `flush` is
        accepted and has no effect. */
    method Set(key: string, value: Json, flush: bool)
      modifies this
      ensures key in data
      ensures old(key in data) ==> data[key] == value
      ensures old(key !in data) ==> data[key] == EmptyDict
      ensures forall k :: k != key ==> Get(Some(k)) == old(Get(Some(k)))
      ensures data == old(data)[key := if key in old(data) then value else EmptyDict]
    {
      if key !in data {
        data := data[key := EmptyDict];
      } else {
        data := data[key := value];
      }
    }

    /** `update(params)`: every key of `params` takes its new value, one key at
        a time; the other keys keep theirs. Writing the `ini` document back is
        I/O and is not part of the model. */
    method Update(params: map<string, Json>)
      modifies this
      ensures forall k :: k in params ==> Get(Some(k)) == params[k]
      ensures forall k :: k !in params ==> Get(Some(k)) == old(Get(Some(k)))
      ensures data.Keys == old(data).Keys + params.Keys
      ensures data == old(data) + params
    {
      var pending := params.Keys;
      while pending != {}
        invariant pending <= params.Keys
        invariant data.Keys == old(data).Keys + (params.Keys - pending)
        invariant forall k :: k in params.Keys - pending ==> data[k] == params[k]
        invariant forall k :: k in old(data) && k !in params.Keys - pending ==> data[k] == old(data)[k]
        decreases pending
      {
        var key :| key in pending;
        data := data[key := params[key]];
        pending := pending - {key};
      }
    }
  }

  /** A row of the `resource_map` table. `photos` is the JSON value the
      `photos` column holds as text, and `attr` is the attribute list the
      `attr` blob holds, or None while the column is NULL. */
  datatype Row = Row(
    id: Id,
    parkId: Id,
    mapId: Id,
    locationId: Option<Id>,
    name: string,
    description: string,
    category: string,
    capacity: int,
    photos: Json,
    maxStay: int,
    attr: Option<seq<AttributePair>>)

  /** The ids present in the table. */
  function Ids(table: seq<Row>): set<Id>
  {
    set r | r in table :: r.id
  }

  /** No two rows share an id. */
  predicate DistinctIds(table: seq<Row>)
  {
    forall i, j :: 0 <= i < j < |table| ==> table[i].id != table[j].id
  }

  /** A row of the `map` table. */
  datatype MapRow = MapRow(mapId: Id, resourceLocationId: Option<Id>)

  /** A row of the `location` table. */
  datatype LocationRow = LocationRow(id: Id, rootMapId: Id, fullName: string)

  /** `fetch_one('map', 'map_id = ?', (mapId,))`. */
  function FirstMapRow(mapRows: seq<MapRow>, mapId: Id): Option<MapRow>
  {
    FirstMatch(mapRows, (row: MapRow) => row.mapId == mapId)
  }

  /** `find_location_id(mapId)`: the resource location id of the first `map`
      row for the map when it has one; otherwise the id of the first
      `location` row rooted at the map; otherwise None. */
  function FindLocationId(mapRows: seq<MapRow>, locations: seq<LocationRow>, mapId: Id): (r: Option<Id>)
    ensures var row := FirstMapRow(mapRows, mapId);
      row.Some? && row.value.resourceLocationId.Some? ==> r == row.value.resourceLocationId
    ensures var row := FirstMapRow(mapRows, mapId);
      (row.None? || row.value.resourceLocationId.None?) ==>
        (r.Some? ==> exists l :: l in locations && l.rootMapId == mapId && l.id == r.value)
        && (r.None? <==> forall l :: l in locations ==> l.rootMapId != mapId)
  {
    var row := FirstMapRow(mapRows, mapId);
    if row.None? || row.value.resourceLocationId.None? then
      var loc := FirstMatch(locations, (l: LocationRow) => l.rootMapId == mapId);
      if loc.None? then None else Some(loc.value.id)
    else
      row.value.resourceLocationId
  }

  /** A map row with a resource location id hides the `location` table. */
  lemma MapRowWins(mapRows: seq<MapRow>, locations: seq<LocationRow>, other: seq<LocationRow>, mapId: Id)
    requires forall i :: 0 <= i < |mapRows| ==> mapRows[i].mapId != mapId || mapRows[i].resourceLocationId.Some?
    requires exists i :: 0 <= i < |mapRows| && mapRows[i].mapId == mapId
    ensures FindLocationId(mapRows, locations, mapId) == FindLocationId(mapRows, other, mapId)
    ensures FindLocationId(mapRows, locations, mapId).Some?
  {
  }

  /** `find_location(id)`: the first `location` row with that id; a NULL id
      matches no row. */
  function FindLocation(locations: seq<LocationRow>, id: Option<Id>): (r: Option<LocationRow>)
    ensures r.Some? ==> id.Some? && r.value in locations && r.value.id == id.value
    ensures r.None? <==> id.None? || forall l :: l in locations ==> l.id != id.value
  {
    if id.None? then None else FirstMatch(locations, (l: LocationRow) => l.id == id.value)
  }

  /** A SQL statement with its parameter tuple. */
  datatype Statement = Statement(sql: string, params: seq<Json>)

  /** The column names of a row dictionary, in order. */
  function Columns(data: seq<(string, Json)>): (r: seq<string>)
    ensures |r| == |data| && forall i :: 0 <= i < |data| ==> r[i] == data[i].0
  {
    if data == [] then [] else [data[0].0] + Columns(data[1..])
  }

  /** The values of a row dictionary, in order: `tuple(data.values())`. */
  function Values(data: seq<(string, Json)>): (r: seq<Json>)
    ensures |r| == |data| && forall i :: 0 <= i < |data| ==> r[i] == data[i].1
  {
    if data == [] then [] else [data[0].1] + Values(data[1..])
  }

  /** `['?'] * n`. */
  function QuestionMarks(n: nat): (r: seq<string>)
    ensures |r| == n && forall i :: 0 <= i < n ==> r[i] == "?"
  {
    if n == 0 then [] else ["?"] + QuestionMarks(n - 1)
  }

  /** `[f"{k}=?" for k in keys]`. */
  function Assignments(keys: seq<string>): (r: seq<string>)
    ensures |r| == |keys| && forall i :: 0 <= i < |keys| ==> r[i] == keys[i] + "=?"
  {
    if keys == [] then [] else [keys[0] + "=?"] + Assignments(keys[1..])
  }

  /** `DB.insert(table, data)`: the statement and the values it binds. The row
      dictionary is a sequence of (column, value) pairs in insertion order. */
  function InsertStatement(table: string, data: seq<(string, Json)>): Statement
  {
    var keys := Join(Columns(data), ", ");
    var placeholders := Join(QuestionMarks(|data|), ", ");
    Statement("INSERT INTO " + table + " (" + keys + ") VALUES (" + placeholders + ")", Values(data))
  }

  /** `DB.update_row(table, data, where, params)`. */
  function UpdateStatement(table: string, data: seq<(string, Json)>, where: string, params: seq<Json>): Statement
  {
    var setClause := Join(Assignments(Columns(data)), ", ");
    Statement("UPDATE " + table + " SET " + setClause + " WHERE " + where, Values(data) + params)
  }

  predicate NoMarks(s: string) { Occurrences(s, '?') == 0 }

  lemma {:induction false} QuestionMarksCount(n: nat)
    ensures OccurrencesIn(QuestionMarks(n), '?') == n
  {
    if n > 0 {
      QuestionMarksCount(n - 1);
      assert QuestionMarks(n)[1..] == QuestionMarks(n - 1);
    }
  }

  lemma {:induction false} ColumnsNoMarks(keys: seq<string>)
    requires forall i :: 0 <= i < |keys| ==> NoMarks(keys[i])
    ensures OccurrencesIn(keys, '?') == 0
  {
    if keys != [] {
      ColumnsNoMarks(keys[1..]);
    }
  }

  lemma {:induction false} AssignmentsCount(keys: seq<string>)
    requires forall i :: 0 <= i < |keys| ==> NoMarks(keys[i])
    ensures OccurrencesIn(Assignments(keys), '?') == |keys|
  {
    if keys != [] {
      AssignmentsCount(keys[1..]);
      assert Assignments(keys)[1..] == Assignments(keys[1..]);
      OccurrencesConcat(keys[0], "=?", '?');
    }
  }

  /** The INSERT statement has one `?` placeholder per column and binds the
      values in column order, so the placeholders and the bound values line up
      whenever neither the table nor a column name contains a `?`. */
  lemma InsertBindsEveryValue(table: string, data: seq<(string, Json)>)
    requires NoMarks(table)
    requires forall i :: 0 <= i < |data| ==> NoMarks(data[i].0)
    ensures var st := InsertStatement(table, data);
      && Occurrences(st.sql, '?') == |data| == |st.params|
      && forall i :: 0 <= i < |data| ==> st.params[i] == data[i].1
  {
    var cols := Columns(data);
    JoinOccurrences(cols, ", ", '?');
    ColumnsNoMarks(cols);
    JoinOccurrences(QuestionMarks(|data|), ", ", '?');
    QuestionMarksCount(|data|);
    var keys := Join(cols, ", ");
    var placeholders := Join(QuestionMarks(|data|), ", ");
    var head := "INSERT INTO " + table + " (" + keys;
    var tail := ") VALUES (" + placeholders + ")";
    HeadCount(table, keys);
    TailCount(placeholders);
    OccurrencesConcat(head, tail, '?');
    assert InsertStatement(table, data).sql == head + tail;
  }

  lemma HeadCount(table: string, keys: string)
    requires NoMarks(table) && NoMarks(keys)
    ensures NoMarks("INSERT INTO " + table + " (" + keys)
  {
    assert NoMarks("INSERT INTO ") && NoMarks(" (");
    Occurrences4("INSERT INTO ", table, " (", keys);
  }

  lemma TailCount(placeholders: string)
    ensures Occurrences(") VALUES (" + placeholders + ")", '?') == Occurrences(placeholders, '?')
  {
    assert NoMarks(") VALUES (") && NoMarks(")");
    Occurrences3(") VALUES (", placeholders, ")");
  }

  /** The UPDATE statement has one `k=?` clause per column; the bound values
      are the new column values followed by the WHERE parameters, so the two
      line up whenever the WHERE clause has one `?` per parameter. */
  lemma UpdateBindsEveryValue(table: string, data: seq<(string, Json)>, where: string, params: seq<Json>)
    requires NoMarks(table)
    requires forall i :: 0 <= i < |data| ==> NoMarks(data[i].0)
    requires Occurrences(where, '?') == |params|
    ensures var st := UpdateStatement(table, data, where, params);
      && Occurrences(st.sql, '?') == |data| + |params| == |st.params|
      && st.params[..|data|] == Values(data)
      && st.params[|data|..] == params
  {
    var cols := Columns(data);
    var parts := Assignments(cols);
    JoinOccurrences(parts, ", ", '?');
    AssignmentsCount(cols);
    var setClause := Join(parts, ", ");
    UpdateSqlCount(table, setClause, where);
    var st := UpdateStatement(table, data, where, params);
    assert st.params[..|data|] == Values(data);
  }

  lemma UpdateSqlCount(table: string, setClause: string, where: string)
    requires NoMarks(table)
    ensures Occurrences("UPDATE " + table + " SET " + setClause + " WHERE " + where, '?')
            == Occurrences(setClause, '?') + Occurrences(where, '?')
  {
    assert NoMarks("UPDATE ") && NoMarks(" SET ") && NoMarks(" WHERE ");
    Occurrences5("UPDATE ", table, " SET ", setClause, " WHERE ");
    OccurrencesConcat("UPDATE " + table + " SET " + setClause + " WHERE ", where, '?');
  }

  /** Helper for `UpdateSqlCount`: the `?` count of five parts is the sum of theirs. */
  lemma Occurrences5(a: string, b: string, c: string, d: string, e: string)
    ensures Occurrences(a + b + c + d + e, '?')
            == Occurrences(a, '?') + Occurrences(b, '?') + Occurrences(c, '?') + Occurrences(d, '?') + Occurrences(e, '?')
  {
    Occurrences4(a, b, c, d);
    OccurrencesConcat(a + b + c + d, e, '?');
  }

  /** Helper for `HeadCount`: the `?` count of four parts is the sum of theirs. */
  lemma Occurrences4(a: string, b: string, c: string, d: string)
    ensures Occurrences(a + b + c + d, '?') == Occurrences(a, '?') + Occurrences(b, '?') + Occurrences(c, '?') + Occurrences(d, '?')
  {
    Occurrences3(a, b, c);
    OccurrencesConcat(a + b + c, d, '?');
  }

  /** Helper for `TailCount`: the `?` count of three parts is the sum of theirs. */
  lemma Occurrences3(a: string, b: string, c: string)
    ensures Occurrences(a + b + c, '?') == Occurrences(a, '?') + Occurrences(b, '?') + Occurrences(c, '?')
  {
    OccurrencesConcat(a, b, '?');
    OccurrencesConcat(a + b, c, '?');
  }}
