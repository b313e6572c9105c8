/**
 * The ranking helpers of cmd/stats/sql/hiscores.go that do not talk to the
 * database: the key/value map of a hiscore row (`withMap`), the descending
 * order `sort.Sort` puts rows in (`MaxSortedHiscores`), what `Select` does
 * with the rows its two queries return, and the commit/rollback rule of
 * `Transaction`.
 *
 * The string-valued `HiscoreData` rows and the `DataMap` built from them are
 * used by cmd/stats/main/api.go but declared in no file of the source; they
 * are modelled as the twins of `HiscoreValues` and `ValueMap`, built the same
 * way. Go's `int64` values are unbounded integers here.
 */
module Hiscores {
  import opened Wrappers

  /** A key/value row of a hiscore (entities.go:10-15). */
  datatype Entry<V> = Entry(id: int, hiscoreId: int, key: string, value: V)

  type HiscoreValue = Entry<int>
  type HiscoreData = Entry<string>

  /** A hiscore row with its values (entities.go:3-8). */
  datatype Hiscore = Hiscore(id: int, name: string, values: seq<HiscoreValue>, data: seq<HiscoreData>, createdAt: int)

  /** `HiscoreWithMap` (hiscores.go:12-15). */
  datatype HiscoreWithMap = HiscoreWithMap(hiscore: Hiscore, valueMap: map<string, int>, dataMap: map<string, string>)

  /** The map a loop `m[e.Key] = e.Value` over `entries` leaves. */
  function LastWriteWins<V>(entries: seq<Entry<V>>): map<string, V>
  {
    if entries == [] then map[]
    else
      var last := entries[|entries| - 1];
      LastWriteWins(entries[..|entries| - 1])[last.key := last.value]
  }

  /** The map has exactly the keys of the entries. */
  lemma {:induction false} LastWriteWinsKeys<V>(entries: seq<Entry<V>>)
    ensures LastWriteWins(entries).Keys == set i | 0 <= i < |entries| :: entries[i].key
  {
    if entries != [] {
      var n := |entries| - 1;
      LastWriteWinsKeys(entries[..n]);
      assert (set i | 0 <= i < |entries| :: entries[i].key)
          == (set i | 0 <= i < n :: entries[..n][i].key) + {entries[n].key};
    }
  }

  /** Each key maps to the value of its last occurrence. */
  lemma {:induction false} LastWriteWinsLast<V>(entries: seq<Entry<V>>, i: int)
    requires 0 <= i < |entries|
    requires forall j :: i < j < |entries| ==> entries[j].key != entries[i].key
    ensures entries[i].key in LastWriteWins(entries)
    ensures LastWriteWins(entries)[entries[i].key] == entries[i].value
  {
    var n := |entries| - 1;
    if i < n {
      LastWriteWinsLast(entries[..n], i);
    }
  }

  /** Appending one row updates the last-write-wins map at its key. */
  lemma {:induction false} LastWriteWinsAppend<V>(rows: seq<Entry<V>>, e: Entry<V>)
    ensures LastWriteWins(rows + [e]) == LastWriteWins(rows)[e.key := e.value]
  {
    assert (rows + [e])[..|rows|] == rows;
  }

  /** Three rows appended after `rows` write their keys in order. */
  lemma {:induction false} LastWriteWinsAppendThree<V>(rows: seq<Entry<V>>, a: Entry<V>, b: Entry<V>, c: Entry<V>)
    ensures LastWriteWins(rows + [a, b, c]) == LastWriteWins(rows)[a.key := a.value][b.key := b.value][c.key := c.value]
  {
    LastWriteWinsAppend(rows, a);
    LastWriteWinsAppend(rows + [a], b);
    LastWriteWinsAppend(rows + [a] + [b], c);
    assert rows + [a, b, c] == rows + [a] + [b] + [c];
  }

  /** The loop of hiscores.go:18-21. */
  method BuildMap<V>(entries: seq<Entry<V>>) returns (m: map<string, V>)
    ensures m == LastWriteWins(entries)
  {
    m := map[];
    var i := 0;
    while i < |entries|
      invariant 0 <= i <= |entries|
      invariant m == LastWriteWins(entries[..i])
    {
      assert entries[..i + 1][..i] == entries[..i];
      m := m[entries[i].key := entries[i].value];
      i := i + 1;
    }
    assert entries[..i] == entries;
  }

  /** `withMap` as a value, for use in specifications. */
  function WithMapOf(h: Hiscore): HiscoreWithMap
  {
    HiscoreWithMap(h, LastWriteWins(h.values), LastWriteWins(h.data))
  }

  /** `withMap` (hiscores.go:17-23): the row itself, its values keyed last
      write wins, and its data the same way. */
  method WithMap(h: Hiscore) returns (r: HiscoreWithMap)
    ensures r.hiscore == h
    ensures r.valueMap.Keys == set i | 0 <= i < |h.values| :: h.values[i].key
    ensures r == WithMapOf(h)
  {
    var valueMap := BuildMap(h.values);
    var dataMap := BuildMap(h.data);
    LastWriteWinsKeys(h.values);
    r := HiscoreWithMap(h, valueMap, dataMap);
  }

  /** `ValueMap[key]`: a missing key reads as Go's zero value. */
  function Score(h: HiscoreWithMap, key: string): int
  {
    if key in h.valueMap then h.valueMap[key] else 0
  }

  /** `a` ranks before `b`: it has the larger value under `key`. */
  predicate Ranks(a: HiscoreWithMap, b: HiscoreWithMap, key: string)
  {
    Score(a, key) > Score(b, key)
  }

  /** `Ranks` is a strict weak order, as `sort.Interface` requires of `Less`:
      irreflexive, transitive, and incomparability is transitive. */
  lemma RanksStrictWeakOrder(a: HiscoreWithMap, b: HiscoreWithMap, c: HiscoreWithMap, key: string)
    ensures !Ranks(a, a, key)
    ensures Ranks(a, b, key) ==> !Ranks(b, a, key)
    ensures Ranks(a, b, key) && Ranks(b, c, key) ==> Ranks(a, c, key)
    ensures !Ranks(a, b, key) && !Ranks(b, a, key) && !Ranks(b, c, key) && !Ranks(c, b, key)
            ==> !Ranks(a, c, key) && !Ranks(c, a, key)
  {
  }

  /** Non-increasing under `key`. */
  ghost predicate SortedDesc(rows: seq<HiscoreWithMap>, key: string)
  {
    forall p, q :: 0 <= p < q < |rows| ==> Score(rows[p], key) >= Score(rows[q], key)
  }

  /** `MaxSortedHiscores` (hiscores.go:27-45): the `sort.Interface` that puts
      rows in descending order of one value. */
  class MaxSortedHiscores {
    const rows: array<HiscoreWithMap>
    const key: string

    constructor (rows: array<HiscoreWithMap>, key: string)
      ensures this.rows == rows && this.key == key
    {
      this.rows := rows;
      this.key := key;
    }

    /** `Len` (hiscores.go:32-34). */
    function Len(): (n: int)
      ensures n == rows.Length
    {
      rows.Length
    }

    /** `Less` (hiscores.go:36-39). */
    predicate Less(i: int, j: int)
      reads rows
      requires 0 <= i < rows.Length && 0 <= j < rows.Length
      ensures Less(i, j) <==> Ranks(rows[i], rows[j], key)
    {
      Score(rows[i], key) > Score(rows[j], key)
    }

    /** `Swap` (hiscores.go:41-45). */
    method Swap(i: int, j: int)
      requires 0 <= i < rows.Length && 0 <= j < rows.Length
      modifies rows
      ensures rows[..] == old(rows[..])[i := old(rows[j])][j := old(rows[i])]
      ensures multiset(rows[..]) == multiset(old(rows[..]))
    {
      var t := rows[i];
      rows[i] := rows[j];
      rows[j] := t;
    }

    /** `sort.Sort` on this interface (hiscores.go:136), as the insertion sort
        Go's sort package runs on short inputs: it uses only `Less` and
        `Swap`, so the rows end up a non-increasing permutation. */
    method Sort()
      modifies rows
      ensures SortedDesc(rows[..], key)
      ensures multiset(rows[..]) == multiset(old(rows[..]))
    {
      var i := 1;
      while i < rows.Length
        invariant 1 <= i
        invariant multiset(rows[..]) == multiset(old(rows[..]))
        invariant forall p, q :: 0 <= p < q < i && q < rows.Length ==> Score(rows[p], key) >= Score(rows[q], key)
        decreases rows.Length - i
      {
        var j := i;
        while j > 0 && Less(j, j - 1)
          invariant 0 <= j <= i < rows.Length
          invariant multiset(rows[..]) == multiset(old(rows[..]))
          invariant forall p, q :: 0 <= p < q <= i && p != j && q != j ==> Score(rows[p], key) >= Score(rows[q], key)
          invariant forall q :: j < q <= i ==> Score(rows[j], key) > Score(rows[q], key)
        {
          Swap(j, j - 1);
          j := j - 1;
        }
        i := i + 1;
      }
    }
  }

  /** Two rows whose values under `key` differ can be sorted only one way:
      with Jill's 9009 deaths and Bob's 2, Jill comes first. */
  lemma {:induction false} SortedPairOrder(rows: seq<HiscoreWithMap>, jill: HiscoreWithMap, bob: HiscoreWithMap, key: string)
    requires Score(jill, key) == 9009 && Score(bob, key) == 2
    requires multiset(rows) == multiset([jill, bob]) && SortedDesc(rows, key)
    ensures rows == [jill, bob]
  {
    assert |rows| == |multiset(rows)| == 2;
    assert rows == [rows[0], rows[1]];
    assert rows[0] in multiset(rows) && rows[1] in multiset(rows);
    assert Score(rows[0], key) >= Score(rows[1], key);
    assert multiset(rows)[bob] == 1;
    assert rows[0] == jill;
  }

  /** The message of hiscores.go:129. */
  const ZeroResults := "Unexpected: Zero results but initially not zero"

  /** `withMap` of each row. */
  function WithMaps(rows: seq<Hiscore>): (r: seq<HiscoreWithMap>)
    ensures |r| == |rows|
    ensures forall i :: 0 <= i < |rows| ==> r[i] == WithMapOf(rows[i])
  {
    seq(|rows|, i requires 0 <= i < |rows| => WithMapOf(rows[i]))
  }

  /** What `Select` (hiscores.go:107-139) does with the answers of its two
      queries: the ids of the top rows, then those rows with their values. A
      query error is returned as is; no ids is an empty result; ids without
      rows is an error; otherwise the rows, each with its maps, sorted in
      descending order of `key`. */
  method Select(key: string, ids: Result<seq<int>, string>, fetched: Result<seq<Hiscore>, string>)
    returns (r: Result<seq<HiscoreWithMap>, string>)
    ensures ids.Err? ==> r == Err(ids.error)
    ensures ids.Ok? && |ids.value| == 0 ==> r == Ok([])
    ensures ids.Ok? && |ids.value| > 0 && fetched.Err? ==> r == Err(fetched.error)
    ensures ids.Ok? && |ids.value| > 0 && fetched.Ok? && |fetched.value| == 0 ==> r == Err(ZeroResults)
    ensures ids.Ok? && |ids.value| > 0 && fetched.Ok? && |fetched.value| > 0 ==>
      && r.Ok?
      && |r.value| == |fetched.value|
      && multiset(r.value) == multiset(WithMaps(fetched.value))
      && SortedDesc(r.value, key)
  {
    if ids.Err? {
      return Err(ids.error);
    }
    if |ids.value| == 0 {
      return Ok([]);
    }
    if fetched.Err? {
      return Err(fetched.error);
    }
    var results := fetched.value;
    if |results| == 0 {
      return Err(ZeroResults);
    }
    var results2: seq<HiscoreWithMap> := [];
    for i := 0 to |results|
      invariant results2 == WithMaps(results[..i])
    {
      var h := WithMap(results[i]);
      results2 := results2 + [h];
    }
    assert results[..|results|] == results;
    var rows := new HiscoreWithMap[|results2|](i requires 0 <= i < |results2| => results2[i]);
    var sorter := new MaxSortedHiscores(rows, key);
    assert sorter.rows[..] == results2;
    sorter.Sort();
    r := Ok(sorter.rows[..]);
    assert |r.value| == |multiset(r.value)| == |multiset(results2)| == |results2|;
  }

  /** How a transaction ended. */
  datatype Ending = Committed | RolledBack

  /** `Transaction` (hiscores.go:78-87): `work` runs on the database as it
      was and leaves it in a staged state. The transaction commits, keeping
      the staged state, iff `work` returns no error, and otherwise rolls back
      to the database it started from; `work`'s result and error are returned
      unchanged. */
  function Transaction<D, T>(db: D, work: D -> (T, D, Option<string>)): (r: (T, Option<string>, D, Ending))
    ensures r.0 == work(db).0 && r.1 == work(db).2
    ensures r.3 == Committed <==> work(db).2.None?
    ensures r.2 == if work(db).2.None? then work(db).1 else db
  {
    var (result, staged, err) := work(db);
    if err.Some? then (result, err, db, RolledBack) else (result, err, staged, Committed)
  }
}
