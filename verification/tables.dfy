/** A database table as the two stores use it: rows with integer primary
    keys, kept in ascending key order, seen from outside as a map from key
    to record. Also the query-side folds both stores apply to row lists:
    filtering, ordering by a key descending, and `LIMIT`. */
module Tables {
  import opened Common

  datatype Row<T> = Row(id: nat, value: T)

  /** Keys strictly ascending, hence also distinct. */
  predicate IdsAscending<T>(rows: seq<Row<T>>) {
    forall i, j :: 0 <= i < j < |rows| ==> rows[i].id < rows[j].id
  }

  /** The table as a map from primary key to record. */
  function ToMap<T>(rows: seq<Row<T>>): map<nat, T> {
    if |rows| == 0 then map[] else ToMap(rows[1..])[rows[0].id := rows[0].value]
  }

  lemma {:induction false} ToMapKeys<T>(rows: seq<Row<T>>, id: nat)
    ensures id in ToMap(rows) <==> exists i :: 0 <= i < |rows| && rows[i].id == id
    decreases |rows|
  {
    if |rows| > 0 {
      ToMapKeys(rows[1..], id);
      if id != rows[0].id && exists i :: 0 <= i < |rows| && rows[i].id == id {
        var i :| 0 <= i < |rows| && rows[i].id == id;
        assert rows[1..][i - 1].id == id;
      }
    }
  }

  /** `session.query(...).get(id)`: the record with that key, if any. */
  function Find<T>(rows: seq<Row<T>>, id: nat): (r: Option<T>)
    ensures r.Some? <==> id in ToMap(rows)
    ensures r.Some? ==> ToMap(rows)[id] == r.value
  {
    if |rows| == 0 then None
    else if rows[0].id == id then Some(rows[0].value)
    else Find(rows[1..], id)
  }

  /** The largest key in use, 0 for an empty table. */
  function MaxId<T>(rows: seq<Row<T>>): (m: nat)
    ensures forall i :: 0 <= i < |rows| ==> rows[i].id <= m
    ensures forall id :: id in ToMap(rows) ==> id <= m
  {
    if |rows| == 0 then 0
    else
      var m := MaxId(rows[1..]);
      assert forall i :: 1 <= i < |rows| ==> rows[i] == rows[1..][i - 1];
      if rows[0].id > m then rows[0].id else m
  }

  /** Any bound on every key bounds the largest key. */
  lemma {:induction false} MaxIdLeast<T>(rows: seq<Row<T>>, m: nat)
    requires forall i :: 0 <= i < |rows| ==> rows[i].id <= m
    ensures MaxId(rows) <= m
    decreases |rows|
  {
    if |rows| > 0 {
      assert forall i :: 0 <= i < |rows[1..]| ==> rows[1..][i] == rows[i + 1];
      MaxIdLeast(rows[1..], m);
    }
  }

  /** Appends a row under a key larger than every key in use. */
  function Append<T>(rows: seq<Row<T>>, id: nat, v: T): (r: seq<Row<T>>)
    requires IdsAscending(rows) && id > MaxId(rows)
    ensures IdsAscending(r)
    ensures ToMap(r) == ToMap(rows)[id := v]
    ensures id !in ToMap(rows)
    ensures |r| == |rows| + 1 && r[..|rows|] == rows && r[|rows|] == Row(id, v)
  {
    AppendToMap(rows, Row(id, v));
    rows + [Row(id, v)]
  }

  lemma {:induction false} AppendToMap<T>(rows: seq<Row<T>>, row: Row<T>)
    requires forall i :: 0 <= i < |rows| ==> rows[i].id < row.id
    ensures ToMap(rows + [row]) == ToMap(rows)[row.id := row.value]
    decreases |rows|
  {
    if |rows| > 0 {
      assert (rows + [row])[1..] == rows[1..] + [row];
      AppendToMap(rows[1..], row);
    }
  }

  /** Removes the row with the given key, keeping the others in order. */
  function Remove<T>(rows: seq<Row<T>>, id: nat): (r: seq<Row<T>>)
    requires IdsAscending(rows)
    ensures IdsAscending(r)
    ensures ToMap(r) == ToMap(rows) - {id}
    ensures |r| <= |rows|
    ensures forall i :: 0 <= i < |r| ==> r[i] in rows
    decreases |rows|
  {
    if |rows| == 0 then []
    else if rows[0].id == id then
      NotInLater(rows);
      rows[1..]
    else
      TailAscending(rows);
      var rest := Remove(rows[1..], id);
      RemoveCons(rows, id, rest);
      [rows[0]] + rest
  }

  /** The step of `Remove` that keeps the first row. */
  lemma RemoveCons<T>(rows: seq<Row<T>>, id: nat, rest: seq<Row<T>>)
    requires IdsAscending(rows) && |rows| > 0 && rows[0].id != id
    requires IdsAscending(rest) && ToMap(rest) == ToMap(rows[1..]) - {id}
    requires forall i :: 0 <= i < |rest| ==> rest[i] in rows[1..]
    ensures IdsAscending([rows[0]] + rest)
    ensures ToMap([rows[0]] + rest) == ToMap(rows) - {id}
    ensures forall i :: 0 <= i < |[rows[0]] + rest| ==> ([rows[0]] + rest)[i] in rows
  {
    var r := [rows[0]] + rest;
    FromTailAbove(rows, rest);
    ConsAscending(rows[0], rest);
    assert r[1..] == rest;
    assert ToMap(r) == ToMap(rest)[rows[0].id := rows[0].value];
    UpdateAfterRemove(ToMap(rows[1..]), id, rows[0].id, rows[0].value);
  }

  /** Rows taken from the tail have keys above the first row's, and occur
      in the table. */
  lemma FromTailAbove<T>(rows: seq<Row<T>>, rest: seq<Row<T>>)
    requires IdsAscending(rows) && |rows| > 0
    requires forall i :: 0 <= i < |rest| ==> rest[i] in rows[1..]
    ensures forall i :: 0 <= i < |rest| ==> rows[0].id < rest[i].id && rest[i] in rows
  {
    forall i | 0 <= i < |rest|
      ensures rows[0].id < rest[i].id && rest[i] in rows
    {
      var j :| 0 <= j < |rows[1..]| && rows[1..][j] == rest[i];
      assert rows[j + 1] == rest[i];
    }
  }

  /** A row below every key of an ascending table may go in front. */
  lemma ConsAscending<T>(row: Row<T>, rest: seq<Row<T>>)
    requires IdsAscending(rest)
    requires forall i :: 0 <= i < |rest| ==> row.id < rest[i].id
    ensures IdsAscending([row] + rest)
  {
    var r := [row] + rest;
    forall a, b | 0 <= a < b < |r|
      ensures r[a].id < r[b].id
    {
      assert r[b] == rest[b - 1];
      if a > 0 {
        assert r[a] == rest[a - 1];
      }
    }
  }

  lemma UpdateAfterRemove<K, V>(m: map<K, V>, gone: K, k: K, v: V)
    requires k != gone
    ensures (m - {gone})[k := v] == m[k := v] - {gone}
  {
  }

  /** Under ascending keys, the first key does not occur again. */
  lemma NotInLater<T>(rows: seq<Row<T>>)
    requires IdsAscending(rows) && |rows| > 0
    ensures rows[0].id !in ToMap(rows[1..])
    ensures ToMap(rows[1..]) == ToMap(rows) - {rows[0].id}
  {
    forall i | 0 <= i < |rows[1..]|
      ensures rows[1..][i].id != rows[0].id
    {
      assert rows[1..][i] == rows[i + 1];
    }
    ToMapKeys(rows[1..], rows[0].id);
    assert ToMap(rows) == ToMap(rows[1..])[rows[0].id := rows[0].value];
    RemoveAfterUpdate(ToMap(rows[1..]), rows[0].id, rows[0].value);
  }

  lemma RemoveAfterUpdate<K, V>(m: map<K, V>, k: K, v: V)
    requires k !in m
    ensures m[k := v] - {k} == m
  {
  }

  lemma TailAscending<T>(rows: seq<Row<T>>)
    requires IdsAscending(rows) && |rows| > 0
    ensures IdsAscending(rows[1..])
  {
    var tail := rows[1..];
    forall a, b | 0 <= a < b < |tail|
      ensures tail[a].id < tail[b].id
    {
      assert tail[a] == rows[a + 1] && tail[b] == rows[b + 1];
    }
  }

  lemma SliceAround<T>(xs: seq<T>, i: int)
    requires 0 < i < |xs|
    ensures [xs[0]] + (xs[1..][..i - 1] + xs[1..][i..]) == xs[..i] + xs[i + 1..]
  {
    assert xs[1..][..i - 1] == xs[1..i];
    assert xs[1..][i..] == xs[i + 1..];
    assert xs[..i] == [xs[0]] + xs[1..i];
  }

  lemma SplitAt<T>(xs: seq<T>, i: int)
    requires 0 <= i < |xs|
    ensures xs == xs[..i] + [xs[i]] + xs[i + 1..]
  {
  }

  /** Removing the row at index `i` leaves the rows before and after it. */
  lemma {:induction false} RemoveAt<T>(rows: seq<Row<T>>, i: int)
    requires IdsAscending(rows) && 0 <= i < |rows|
    ensures Remove(rows, rows[i].id) == rows[..i] + rows[i + 1..]
    decreases |rows|
  {
    if i == 0 {
      assert rows[..0] + rows[1..] == rows[1..];
    } else {
      assert rows[0].id < rows[i].id;
      TailAscending(rows);
      assert rows[1..][i - 1] == rows[i];
      RemoveAt(rows[1..], i - 1);
      SliceAround(rows, i);
    }
  }

  /** Replaces the record under an existing key, keeping its position. */
  function Replace<T>(rows: seq<Row<T>>, id: nat, v: T): (r: seq<Row<T>>)
    requires IdsAscending(rows)
    ensures IdsAscending(r)
    ensures ToMap(r) == if id in ToMap(rows) then ToMap(rows)[id := v] else ToMap(rows)
    ensures |r| == |rows| && forall i :: 0 <= i < |r| ==> r[i].id == rows[i].id
    ensures forall i :: 0 <= i < |r| ==> r[i] == if rows[i].id == id then Row(id, v) else rows[i]
    decreases |rows|
  {
    if |rows| == 0 then []
    else if rows[0].id == id then
      ReplaceHead(rows, v);
      [Row(id, v)] + rows[1..]
    else
      TailAscending(rows);
      var rest := Replace(rows[1..], id, v);
      ReplaceCons(rows, id, v, rest);
      [rows[0]] + rest
  }

  /** The step of `Replace` that finds the key in the first row. */
  lemma ReplaceHead<T>(rows: seq<Row<T>>, v: T)
    requires IdsAscending(rows) && |rows| > 0
    ensures var r := [Row(rows[0].id, v)] + rows[1..];
            && IdsAscending(r)
            && rows[0].id in ToMap(rows)
            && ToMap(r) == ToMap(rows)[rows[0].id := v]
            && forall i :: 0 <= i < |r| ==> r[i] == if rows[i].id == rows[0].id then Row(rows[0].id, v) else rows[i]
  {
    var r := [Row(rows[0].id, v)] + rows[1..];
    assert r[1..] == rows[1..];
    assert ToMap(r) == ToMap(rows[1..])[rows[0].id := v];
    assert ToMap(rows) == ToMap(rows[1..])[rows[0].id := rows[0].value];
    UpdateTwice(ToMap(rows[1..]), rows[0].id, rows[0].value, v);
    forall i | 0 <= i < |r|
      ensures r[i] == if rows[i].id == rows[0].id then Row(rows[0].id, v) else rows[i]
      ensures r[i].id == rows[i].id
    {
      if i > 0 {
        assert r[i] == rows[i];
        assert rows[0].id < rows[i].id;
      }
    }
    forall a, b | 0 <= a < b < |r|
      ensures r[a].id < r[b].id
    {
      assert rows[a].id < rows[b].id;
    }
  }

  /** The step of `Replace` that keeps the first row. */
  lemma ReplaceCons<T>(rows: seq<Row<T>>, id: nat, v: T, rest: seq<Row<T>>)
    requires IdsAscending(rows) && |rows| > 0 && rows[0].id != id
    requires IdsAscending(rest)
    requires ToMap(rest) == if id in ToMap(rows[1..]) then ToMap(rows[1..])[id := v] else ToMap(rows[1..])
    requires |rest| == |rows| - 1
    requires forall i :: 0 <= i < |rest| ==> rest[i] == if rows[1..][i].id == id then Row(id, v) else rows[1..][i]
    ensures var r := [rows[0]] + rest;
            && IdsAscending(r)
            && (ToMap(r) == if id in ToMap(rows) then ToMap(rows)[id := v] else ToMap(rows))
            && (forall i :: 0 <= i < |r| ==> r[i].id == rows[i].id)
            && forall i :: 0 <= i < |r| ==> r[i] == if rows[i].id == id then Row(id, v) else rows[i]
  {
    var r := [rows[0]] + rest;
    forall i | 0 <= i < |r|
      ensures r[i] == if rows[i].id == id then Row(id, v) else rows[i]
      ensures r[i].id == rows[i].id
    {
      if i > 0 {
        assert r[i] == rest[i - 1] && rows[1..][i - 1] == rows[i];
      }
    }
    forall a, b | 0 <= a < b < |r|
      ensures r[a].id < r[b].id
    {
      assert rows[a].id < rows[b].id;
    }
    assert r[1..] == rest;
    assert ToMap(r) == ToMap(rest)[rows[0].id := rows[0].value];
    assert ToMap(rows) == ToMap(rows[1..])[rows[0].id := rows[0].value];
    if id in ToMap(rows[1..]) {
      UpdatesCommute(ToMap(rows[1..]), id, v, rows[0].id, rows[0].value);
    }
  }

  lemma UpdateTwice<K, V>(m: map<K, V>, k: K, v1: V, v2: V)
    ensures m[k := v1][k := v2] == m[k := v2]
  {
  }

  lemma UpdatesCommute<K, V>(m: map<K, V>, k1: K, v1: V, k2: K, v2: V)
    requires k1 != k2
    ensures m[k1 := v1][k2 := v2] == m[k2 := v2][k1 := v1]
  {
  }

  /** The records in key order. */
  function Values<T>(rows: seq<Row<T>>): (vs: seq<T>)
    ensures |vs| == |rows| && forall i :: 0 <= i < |rows| ==> vs[i] == rows[i].value
  {
    if |rows| == 0 then [] else [rows[0].value] + Values(rows[1..])
  }

  // ---------------------------------------------------------------- query folds

  /** `WHERE p`: the elements satisfying `p`, in their order. */
  function Where<T>(xs: seq<T>, p: T -> bool): (r: seq<T>)
    ensures |r| <= |xs|
    ensures forall i :: 0 <= i < |r| ==> p(r[i]) && r[i] in xs
    ensures forall i :: 0 <= i < |xs| && p(xs[i]) ==> xs[i] in r
  {
    if |xs| == 0 then []
    else if p(xs[0]) then [xs[0]] + Where(xs[1..], p)
    else Where(xs[1..], p)
  }

  lemma {:induction false} WhereKeepsMultiset<T>(xs: seq<T>, p: T -> bool, x: T)
    requires p(x)
    ensures multiset(Where(xs, p))[x] == multiset(xs)[x]
    decreases |xs|
  {
    if |xs| > 0 {
      assert xs == [xs[0]] + xs[1..];
      WhereKeepsMultiset(xs[1..], p, x);
    }
  }

  predicate SortedDesc<T>(xs: seq<T>, key: T -> int) {
    forall i, j :: 0 <= i < j < |xs| ==> key(xs[i]) >= key(xs[j])
  }

  /** Places `x` after every element whose key is at least its own. */
  function InsertDesc<T>(x: T, xs: seq<T>, key: T -> int): (r: seq<T>)
    requires SortedDesc(xs, key)
    ensures SortedDesc(r, key)
    ensures multiset(r) == multiset(xs) + multiset{x}
    ensures |r| == |xs| + 1
    ensures forall i :: 0 <= i < |r| ==> r[i] == x || r[i] in xs
    decreases |xs|
  {
    if |xs| == 0 then [x]
    else if key(x) > key(xs[0]) then
      ConsSorted(x, xs, key);
      [x] + xs
    else
      assert SortedDesc(xs[1..], key);
      var rest := InsertDesc(x, xs[1..], key);
      InsertDescCons(x, xs, rest, key);
      [xs[0]] + rest
  }

  /** The step of `InsertDesc` that keeps the head in front. */
  lemma InsertDescCons<T>(x: T, xs: seq<T>, rest: seq<T>, key: T -> int)
    requires SortedDesc(xs, key) && |xs| > 0 && key(x) <= key(xs[0])
    requires SortedDesc(rest, key)
    requires multiset(rest) == multiset(xs[1..]) + multiset{x}
    requires forall i :: 0 <= i < |rest| ==> rest[i] == x || rest[i] in xs[1..]
    ensures SortedDesc([xs[0]] + rest, key)
    ensures multiset([xs[0]] + rest) == multiset(xs) + multiset{x}
    ensures forall i :: 0 <= i < |[xs[0]] + rest| ==> ([xs[0]] + rest)[i] == x || ([xs[0]] + rest)[i] in xs
  {
    assert xs == [xs[0]] + xs[1..];
    forall i | 0 <= i < |rest|
      ensures key(xs[0]) >= key(rest[i]) && (rest[i] == x || rest[i] in xs)
    {
      if rest[i] != x {
        var j :| 0 <= j < |xs[1..]| && xs[1..][j] == rest[i];
        assert xs[1 + j] == rest[i];
      }
    }
    ConsSorted(xs[0], rest, key);
  }

  /** An element with a key at least every key of a sorted list may go in
      front. */
  lemma ConsSorted<T>(h: T, xs: seq<T>, key: T -> int)
    requires SortedDesc(xs, key)
    requires forall i :: 0 <= i < |xs| ==> key(h) >= key(xs[i])
    ensures SortedDesc([h] + xs, key)
  {
    var r := [h] + xs;
    forall a, b | 0 <= a < b < |r|
      ensures key(r[a]) >= key(r[b])
    {
      assert r[b] == xs[b - 1];
      if a > 0 {
        assert r[a] == xs[a - 1];
      }
    }
  }

  /** `ORDER BY key DESC`: a permutation of the input with keys
      non-increasing; among equal keys the later element of the input comes
      first. */
  function SortDesc<T>(xs: seq<T>, key: T -> int): (r: seq<T>)
    ensures SortedDesc(r, key)
    ensures multiset(r) == multiset(xs)
    ensures |r| == |xs|
  {
    if |xs| == 0 then []
    else
      assert xs == [xs[0]] + xs[1..];
      InsertDesc(xs[0], SortDesc(xs[1..], key), key)
  }

  /** `LIMIT n` as SQLite reads it: a negative limit means no limit. */
  function Limit<T>(xs: seq<T>, n: int): (r: seq<T>)
    ensures n < 0 ==> r == xs
    ensures n >= 0 ==> |r| == if n < |xs| then n else |xs|
    ensures r == xs[..|r|]
  {
    if n < 0 || n >= |xs| then xs else xs[..n]
  }

  /** A limited query returns no row more often than the table holds it. */
  lemma LimitKeepsMultiset<T>(xs: seq<T>, n: int)
    ensures multiset(Limit(xs, n)) <= multiset(xs)
  {
    var r := Limit(xs, n);
    assert xs == r + xs[|r|..];
  }
}
