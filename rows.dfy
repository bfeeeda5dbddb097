/**
 * The rows the table shows (`DataItem`) and the array computations the
 * component performs on them: `data.map(item => item.id)` collected into a
 * set, `data.find(...)` by id, and `data.filter(...)` dropping rows by id.
 */
module Rows {
  import opened Options

  datatype Row = Row(id: string, name: string, category: string)

  /** The ids of the rows, `new Set(data.map(item => item.id))`. */
  function Ids(data: seq<Row>): (r: set<string>)
    ensures forall id :: id in r <==> exists row :: row in data && row.id == id
  {
    set row | row in data :: row.id
  }

  /** `data.filter(item => !ids.has(item.id))`: the rows whose id is not in
      `ids`, in their original order. */
  function Without(data: seq<Row>, ids: set<string>): seq<Row>
  {
    if data == [] then []
    else if data[0].id in ids then Without(data[1..], ids)
    else [data[0]] + Without(data[1..], ids)
  }

  /** `data.find(d => d.id === id)`: the first row with that id, if any. */
  function FindById(data: seq<Row>, id: string): (r: Option<Row>)
    ensures r.None? <==> id !in Ids(data)
    ensures r.Some? ==> r.value.id == id
    ensures r.Some? ==> exists i :: 0 <= i < |data| && data[i] == r.value && FirstWithId(data, id, i)
  {
    if data == [] then None
    else if data[0].id == id then
      assert FirstWithId(data, id, 0);
      Some(data[0])
    else
      var r := FindById(data[1..], id);
      if r.Some? then
        var i :| 0 <= i < |data[1..]| && data[1..][i] == r.value && FirstWithId(data[1..], id, i);
        assert FirstWithId(data, id, i + 1);
        r
      else
        r
  }

  /** Row `i` is the first row of `data` whose id is `id`. */
  predicate FirstWithId(data: seq<Row>, id: string, i: int)
  {
    0 <= i < |data| && data[i].id == id && forall j :: 0 <= j < i ==> data[j].id != id
  }

  /** `a` is `b` with some elements dropped and the rest kept in order. */
  ghost predicate Subsequence<T>(a: seq<T>, b: seq<T>)
    decreases |b|
  {
    if b == [] then a == []
    else (a != [] && a[0] == b[0] && Subsequence(a[1..], b[1..])) || Subsequence(a, b[1..])
  }

  /** The filter keeps exactly the rows whose id is not removed. */
  lemma {:induction false} WithoutMembers(data: seq<Row>, ids: set<string>)
    ensures |Without(data, ids)| <= |data|
    ensures forall row :: row in Without(data, ids) <==> row in data && row.id !in ids
  {
    if data != [] {
      WithoutMembers(data[1..], ids);
      assert forall row :: row in data <==> row == data[0] || row in data[1..];
    }
  }

  /** Filtering keeps the order of the rows it keeps. */
  lemma {:induction false} WithoutIsSubsequence(data: seq<Row>, ids: set<string>)
    ensures Subsequence(Without(data, ids), data)
  {
    if data != [] {
      WithoutIsSubsequence(data[1..], ids);
      var rest := Without(data[1..], ids);
      if data[0].id !in ids {
        assert ([data[0]] + rest)[1..] == rest;
      }
    }
  }

  /** Any order-preserving choice of rows that avoids `ids` is a
      subsequence of the filter's output: the filter keeps every such row. */
  lemma {:induction false} WithoutIsLargest(r: seq<Row>, data: seq<Row>, ids: set<string>)
    requires Subsequence(r, data)
    requires forall i :: 0 <= i < |r| ==> r[i].id !in ids
    ensures Subsequence(r, Without(data, ids))
    decreases |data|
  {
    if data == [] {
      return;
    }
    var w := Without(data[1..], ids);
    if r != [] && r[0] == data[0] && Subsequence(r[1..], data[1..]) {
      WithoutIsLargest(r[1..], data[1..], ids);
      assert Without(data, ids) == [data[0]] + w;
      assert ([data[0]] + w)[1..] == w;
    } else {
      WithoutIsLargest(r, data[1..], ids);
      if data[0].id !in ids {
        assert Without(data, ids)[1..] == w;
        SubsequenceOfTail(r, Without(data, ids));
      }
    }
  }

  lemma SubsequenceOfTail<T>(a: seq<T>, b: seq<T>)
    requires b != [] && Subsequence(a, b[1..])
    ensures Subsequence(a, b)
  {
  }

  lemma {:induction false} SubsequenceLength<T>(a: seq<T>, b: seq<T>)
    requires Subsequence(a, b)
    ensures |a| <= |b|
    ensures |a| == |b| ==> a == b
    decreases |b|
  {
    if b != [] {
      if a != [] && a[0] == b[0] && Subsequence(a[1..], b[1..]) {
        SubsequenceLength(a[1..], b[1..]);
        if |a| == |b| {
          assert a == [a[0]] + a[1..];
        }
      } else {
        SubsequenceLength(a, b[1..]);
      }
    }
  }

  /** The filter's output is the only order-preserving choice of rows that
      avoids `ids` and is as long as it: together with WithoutIsSubsequence
      and WithoutMembers this characterises
      `data.filter` completely. */
  lemma WithoutUnique(r: seq<Row>, data: seq<Row>, ids: set<string>)
    requires Subsequence(r, data)
    requires forall i :: 0 <= i < |r| ==> r[i].id !in ids
    requires |r| >= |Without(data, ids)|
    ensures r == Without(data, ids)
  {
    WithoutIsLargest(r, data, ids);
    SubsequenceLength(r, Without(data, ids));
  }

  /** The surviving ids are exactly the ids that were not removed. */
  lemma WithoutIds(data: seq<Row>, ids: set<string>)
    ensures Ids(Without(data, ids)) == Ids(data) - ids
  {
    var w := Without(data, ids);
    WithoutMembers(data, ids);
    forall id | id in Ids(data) - ids
      ensures id in Ids(w)
    {
      var row :| row in data && row.id == id;
      assert row in w;
    }
  }

  /** Every row that survives the filter is a row of `data`, and no row
      with a removed id survives: the selection can be pruned by the same
      ids without leaving stale entries. */
  lemma WithoutPrunes(data: seq<Row>, selected: set<string>, ids: set<string>)
    requires selected <= Ids(data)
    ensures selected - ids <= Ids(Without(data, ids))
    ensures Ids(Without(data, ids)) !! ids
  {
    WithoutIds(data, ids);
  }

  /** Filtering twice by the same ids changes nothing more. */
  lemma {:induction false} WithoutIdempotent(data: seq<Row>, ids: set<string>)
    ensures Without(Without(data, ids), ids) == Without(data, ids)
    decreases |data|
  {
    if data != [] {
      WithoutIdempotent(data[1..], ids);
      if data[0].id !in ids {
        var w := Without(data[1..], ids);
        assert ([data[0]] + w)[0] == data[0] && ([data[0]] + w)[1..] == w;
      }
    }
  }
}
