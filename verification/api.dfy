/**
 * The conversions of cmd/stats/main/api.go between the JSON hiscore a game
 * posts and the database rows, and the defaulting of the query parameters of
 * the top-hiscores request.
 *
 * A JSON entry has fixed fields and two open maps. Going to the database,
 * every map entry becomes a key/value row, followed by rows for the fixed
 * fields under reserved keys; coming back, the reserved keys are pulled out
 * of the rebuilt maps again. Go ranges over a map in no fixed order, so the
 * rows of the open maps come in whatever order `Enumerate` picks.
 */
module Api {
  import opened Wrappers
  import opened GoMaps
  import opened Hiscores

  /** `HiscoreEntry` (api.go:20-30). */
  datatype HiscoreEntry = HiscoreEntry(
    name: string, team: string, kills: int, deaths: int, className: string,
    bounty: int, bountyColor: string, extraValues: map<string, int>, extraData: map<string, string>)

  /** `maxTopHiscores` (api.go:32). */
  const MaxTopHiscores: int := 10

  /** The keys the fixed numeric fields are stored under (api.go:193-195). */
  const ValueKeys: set<string> := {"kills", "deaths", "bounty"}

  /** The keys the fixed text fields are stored under (api.go:201-203). */
  const DataKeys: set<string> := {"team", "className", "bountyColor"}

  /** The rows one `for key, val := range m` loop appends, one per pair, with
      the ids left at zero. */
  function RowsOf<V>(pairs: seq<(string, V)>): (rows: seq<Entry<V>>)
    ensures |rows| == |pairs|
    ensures forall i :: 0 <= i < |pairs| ==> rows[i] == Entry(0, 0, pairs[i].0, pairs[i].1)
  {
    seq(|pairs|, i requires 0 <= i < |pairs| => Entry(0, 0, pairs[i].0, pairs[i].1))
  }

  /** The row api.go:189-211 builds for `j` when its maps are ranged over in
      the orders `valueOrder` and `dataOrder` and the clock reads `now`. */
  function EntryToDb(j: HiscoreEntry, valueOrder: seq<(string, int)>, dataOrder: seq<(string, string)>, now: int)
    : Hiscore
  {
    Hiscore(0, j.name,
            RowsOf(valueOrder) + [Entry(0, 0, "kills", j.kills), Entry(0, 0, "deaths", j.deaths),
                                  Entry(0, 0, "bounty", j.bounty)],
            RowsOf(dataOrder) + [Entry(0, 0, "team", j.team), Entry(0, 0, "className", j.className),
                                 Entry(0, 0, "bountyColor", j.bountyColor)],
            now)
  }

  /** `h` is what api.go:189-211 makes of `j` for some order of its maps. */
  ghost predicate Flattens(h: Hiscore, j: HiscoreEntry, now: int)
  {
    exists valueOrder, dataOrder ::
      && Enumerates(valueOrder, j.extraValues)
      && Enumerates(dataOrder, j.extraData)
      && h == EntryToDb(j, valueOrder, dataOrder, now)
  }

  /** What a flattened row looks like: the entry's name and time, one value
      row per extra value followed by `kills`, `deaths` and `bounty`, and one
      data row per extra datum followed by `team`, `className` and
      `bountyColor`. */
  lemma {:induction false} FlattenedShape(h: Hiscore, j: HiscoreEntry, now: int)
    requires Flattens(h, j, now)
    ensures h.name == j.name && h.createdAt == now
    ensures |h.values| == |j.extraValues| + 3 && |h.data| == |j.extraData| + 3
    ensures h.values[|j.extraValues|..]
         == [Entry(0, 0, "kills", j.kills), Entry(0, 0, "deaths", j.deaths), Entry(0, 0, "bounty", j.bounty)]
    ensures h.data[|j.extraData|..]
         == [Entry(0, 0, "team", j.team), Entry(0, 0, "className", j.className),
             Entry(0, 0, "bountyColor", j.bountyColor)]
    ensures forall i :: 0 <= i < |j.extraValues| ==>
      h.values[i].key in j.extraValues && h.values[i].value == j.extraValues[h.values[i].key]
    ensures forall i, i' :: 0 <= i < i' < |j.extraValues| ==> h.values[i].key != h.values[i'].key
    ensures forall i :: 0 <= i < |j.extraData| ==>
      h.data[i].key in j.extraData && h.data[i].value == j.extraData[h.data[i].key]
    ensures forall i, i' :: 0 <= i < i' < |j.extraData| ==> h.data[i].key != h.data[i'].key
  {
    var valueOrder, dataOrder :| && Enumerates(valueOrder, j.extraValues)
                                 && Enumerates(dataOrder, j.extraData)
                                 && h == EntryToDb(j, valueOrder, dataOrder, now);
    EnumerationLength(valueOrder, j.extraValues);
    EnumerationLength(dataOrder, j.extraData);
  }

  /** `jsonHiscoresToDb` (api.go:186-214): one row per entry, in order, each
      the flattening of its entry. `times[i]` is what `time.Now().Unix()`
      reads for the i-th entry. */
  method JsonHiscoresToDb(json: seq<HiscoreEntry>, times: seq<int>) returns (result: seq<Hiscore>)
    requires |times| == |json|
    ensures |result| == |json|
    ensures forall i :: 0 <= i < |json| ==> Flattens(result[i], json[i], times[i])
  {
    result := [];
    for k := 0 to |json|
      invariant |result| == k
      invariant forall i :: 0 <= i < k ==> Flattens(result[i], json[i], times[i])
    {
      var j := json[k];
      var valueOrder := Enumerate(j.extraValues);
      var dataOrder := Enumerate(j.extraData);
      var h := EntryToDb(j, valueOrder, dataOrder, times[k]);
      result := result + [h];
    }
  }

  /** `m[k]`, reading a missing key as `zero`. */
  function Lookup<V>(m: map<string, V>, k: string, zero: V): V
  {
    if k in m then m[k] else zero
  }

  /** One entry of `dbHiscoresToJson` (api.go:218-246): the fixed fields are
      looked up under their reserved keys, missing ones reading as zero, and
      the maps, copied, lose the reserved keys. */
  function EntryFromDb(h: HiscoreWithMap): (j: HiscoreEntry)
    ensures j.name == h.hiscore.name
    ensures j.extraValues.Keys == h.valueMap.Keys - ValueKeys
    ensures forall k :: k in j.extraValues ==> j.extraValues[k] == h.valueMap[k]
    ensures j.extraData.Keys == h.dataMap.Keys - DataKeys
    ensures forall k :: k in j.extraData ==> j.extraData[k] == h.dataMap[k]
    ensures j.kills == (if "kills" in h.valueMap then h.valueMap["kills"] else 0)
    ensures j.deaths == (if "deaths" in h.valueMap then h.valueMap["deaths"] else 0)
    ensures j.bounty == (if "bounty" in h.valueMap then h.valueMap["bounty"] else 0)
    ensures j.team == (if "team" in h.dataMap then h.dataMap["team"] else "")
    ensures j.className == (if "className" in h.dataMap then h.dataMap["className"] else "")
    ensures j.bountyColor == (if "bountyColor" in h.dataMap then h.dataMap["bountyColor"] else "")
  {
    HiscoreEntry(h.hiscore.name,
                 Lookup(h.dataMap, "team", ""),
                 Lookup(h.valueMap, "kills", 0),
                 Lookup(h.valueMap, "deaths", 0),
                 Lookup(h.dataMap, "className", ""),
                 Lookup(h.valueMap, "bounty", 0),
                 Lookup(h.dataMap, "bountyColor", ""),
                 h.valueMap - ValueKeys,
                 h.dataMap - DataKeys)
  }

  /** `dbHiscoresToJson` (api.go:216-249): one entry per row, in order. */
  function DbHiscoresToJson(hiscores: seq<HiscoreWithMap>): (r: seq<HiscoreEntry>)
    ensures |r| == |hiscores|
    ensures forall i :: 0 <= i < |hiscores| ==> r[i] == EntryFromDb(hiscores[i])
  {
    seq(|hiscores|, i requires 0 <= i < |hiscores| => EntryFromDb(hiscores[i]))
  }

  /** The rows of an enumeration of `m` rebuild `m`. */
  lemma {:induction false} EnumerationRebuilds<V>(pairs: seq<(string, V)>, m: map<string, V>)
    requires Enumerates(pairs, m)
    ensures LastWriteWins(RowsOf(pairs)) == m
  {
    var rows := RowsOf(pairs);
    LastWriteWinsKeys(rows);
    var built := LastWriteWins(rows);
    forall k | k in m
      ensures k in built && built[k] == m[k]
    {
      var i :| 0 <= i < |pairs| && pairs[i].0 == k;
      LastWriteWinsLast(rows, i);
    }
    forall k | k in built
      ensures k in m
    {
      var i :| 0 <= i < |rows| && rows[i].key == k;
    }
  }

  /** The maps rebuilt from the rows of `EntryToDb`: the open maps with the
      fixed fields added under their reserved keys. */
  lemma {:induction false} EntryToDbMaps(j: HiscoreEntry, valueOrder: seq<(string, int)>, dataOrder: seq<(string, string)>, now: int)
    requires Enumerates(valueOrder, j.extraValues) && Enumerates(dataOrder, j.extraData)
    ensures LastWriteWins(EntryToDb(j, valueOrder, dataOrder, now).values)
         == j.extraValues["kills" := j.kills]["deaths" := j.deaths]["bounty" := j.bounty]
    ensures LastWriteWins(EntryToDb(j, valueOrder, dataOrder, now).data)
         == j.extraData["team" := j.team]["className" := j.className]["bountyColor" := j.bountyColor]
  {
    EnumerationRebuilds(valueOrder, j.extraValues);
    LastWriteWinsAppendThree(RowsOf(valueOrder), Entry(0, 0, "kills", j.kills), Entry(0, 0, "deaths", j.deaths),
                             Entry(0, 0, "bounty", j.bounty));
    EnumerationRebuilds(dataOrder, j.extraData);
    LastWriteWinsAppendThree(RowsOf(dataOrder), Entry(0, 0, "team", j.team), Entry(0, 0, "className", j.className),
                             Entry(0, 0, "bountyColor", j.bountyColor));
  }

  /** Adding three distinct keys a map lacks and taking them out again gives
      the map back. */
  lemma {:induction false} StripAdded<V>(m: map<string, V>, k1: string, k2: string, k3: string, a: V, b: V, c: V)
    requires k1 != k2 && k2 != k3 && k1 != k3
    requires k1 !in m && k2 !in m && k3 !in m
    ensures m[k1 := a][k2 := b][k3 := c] - {k1, k2, k3} == m
  {
    var m' := m[k1 := a][k2 := b][k3 := c] - {k1, k2, k3};
    assert m'.Keys == m.Keys;
  }

  /** Taking three keys out of a map that has them and adding them back with
      their old values gives the map back. */
  lemma {:induction false} RestoreTaken<V>(m: map<string, V>, k1: string, k2: string, k3: string, zero: V)
    requires k1 in m && k2 in m && k3 in m
    ensures (m - {k1, k2, k3})[k1 := Lookup(m, k1, zero)][k2 := Lookup(m, k2, zero)][k3 := Lookup(m, k3, zero)] == m
  {
    var m' := (m - {k1, k2, k3})[k1 := Lookup(m, k1, zero)][k2 := Lookup(m, k2, zero)][k3 := Lookup(m, k3, zero)];
    assert m'.Keys == m.Keys;
  }

  /** Posting an entry whose open maps avoid the reserved keys, rebuilding the
      maps of the stored row and reading it back gives the entry again. */
  lemma {:induction false} RoundTrip(j: HiscoreEntry, h: Hiscore, now: int)
    requires Flattens(h, j, now)
    requires j.extraValues.Keys !! ValueKeys && j.extraData.Keys !! DataKeys
    ensures EntryFromDb(WithMapOf(h)) == j
  {
    var valueOrder, dataOrder :| && Enumerates(valueOrder, j.extraValues)
                                 && Enumerates(dataOrder, j.extraData)
                                 && h == EntryToDb(j, valueOrder, dataOrder, now);
    EntryToDbMaps(j, valueOrder, dataOrder, now);
    StripAdded(j.extraValues, "kills", "deaths", "bounty", j.kills, j.deaths, j.bounty);
    StripAdded(j.extraData, "team", "className", "bountyColor", j.team, j.className, j.bountyColor);
  }

  /** The other way round: reading a row whose maps hold every reserved key
      and posting the result gives a row with the same name and the same
      maps. */
  lemma {:induction false} RoundTripFromDb(hm: HiscoreWithMap, h: Hiscore, now: int)
    requires ValueKeys <= hm.valueMap.Keys && DataKeys <= hm.dataMap.Keys
    requires Flattens(h, EntryFromDb(hm), now)
    ensures WithMapOf(h).hiscore.name == hm.hiscore.name
    ensures WithMapOf(h).valueMap == hm.valueMap && WithMapOf(h).dataMap == hm.dataMap
  {
    var j := EntryFromDb(hm);
    var valueOrder, dataOrder :| && Enumerates(valueOrder, j.extraValues)
                                 && Enumerates(dataOrder, j.extraData)
                                 && h == EntryToDb(j, valueOrder, dataOrder, now);
    EntryToDbMaps(j, valueOrder, dataOrder, now);
    RestoreTaken(hm.valueMap, "kills", "deaths", "bounty", 0);
    RestoreTaken(hm.dataMap, "team", "className", "bountyColor", "");
  }

  /** The parameters a top-hiscores query goes on with. */
  datatype TopQuery = TopQuery(field: string, num: int, group: int)

  /** The parameter handling of `getTopHiscores` (api.go:100-118). `num` and
      `group` (the `by` parameter) are the results of `strconv.Atoi`, `None`
      when it fails. A missing field is a bad request; `num` above the maximum or unparseable becomes
      the maximum, while a negative `num` is kept; `group` outside 0..2 or
      unparseable becomes 0. */
  function TopHiscoresParams(field: string, num: Option<int>, group: Option<int>): (r: Result<TopQuery, string>)
    ensures r.Err? <==> field == ""
    ensures r.Ok? ==> r.value.field == field && r.value.num <= MaxTopHiscores && 0 <= r.value.group <= 2
    ensures r.Ok? && num.Some? && num.value <= MaxTopHiscores ==> r.value.num == num.value
    ensures r.Ok? && (num.None? || num.value > MaxTopHiscores) ==> r.value.num == MaxTopHiscores
    ensures r.Ok? && group.Some? && 0 <= group.value <= 2 ==> r.value.group == group.value
    ensures r.Ok? && (group.None? || group.value < 0 || group.value > 2) ==> r.value.group == 0
  {
    if field == "" then Err("Missing field param")
    else
      var n := if num.None? || num.value > MaxTopHiscores then MaxTopHiscores else num.value;
      var b := if group.None? || group.value < 0 || group.value > 2 then 0 else group.value;
      Ok(TopQuery(field, n, b))
  }
}
