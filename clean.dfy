/**
  The body of the `/clean` handler (spotify-preview-url-scraper/server.js): the rows of
  the full edges file are deduplicated as undirected edges, the first row of each
  unordered `(source_id, target_id)` pair surviving, and the survivors are then numbered
  `0, 1, ...` in their `''` column.

  A parsed CSV row is a map from column name to value; a column the row lacks reads as
  `undefined`, here `None`, and two missing values compare equal as `undefined === undefined`.
 */
module Clean {
  import opened Wrappers

  /** A cell: the text the CSV parser produced, or the number the re-indexing writes. */
  datatype Value = Str(text: string) | Num(n: nat)

  datatype Row = Row(fields: map<string, Value>)

  /** The name of the first, unnamed column, which receives the new index. */
  const IndexKey: string := ""

  /** `row[key]`, `undefined` when the row has no such column. */
  function Field(row: Row, key: string): Option<Value> {
    if key in row.fields then Some(row.fields[key]) else None
  }

  function SourceId(row: Row): Option<Value> { Field(row, "source_id") }
  function TargetId(row: Row): Option<Value> { Field(row, "target_id") }

  /** The test inside `newArray.some(...)`: the same ids in either orientation. */
  predicate SamePair(x: Row, e: Row) {
    (SourceId(x) == SourceId(e) && TargetId(x) == TargetId(e)) ||
    (SourceId(x) == TargetId(e) && TargetId(x) == SourceId(e))
  }

  /** Two rows pass the test exactly when they hold the same unordered pair of ids. */
  lemma SamePairIsUnorderedPair(x: Row, e: Row)
    ensures SamePair(x, e) <==> multiset{SourceId(x), TargetId(x)} == multiset{SourceId(e), TargetId(e)}
  {
    var p, q := multiset{SourceId(x), TargetId(x)}, multiset{SourceId(e), TargetId(e)};
    assert p == q ==> SourceId(x) in q && TargetId(x) in q && SourceId(e) in p;
  }

  /** Having the same unordered pair of ids is an equivalence. */
  lemma SamePairIsEquivalence(x: Row, y: Row, z: Row)
    ensures SamePair(x, x)
    ensures SamePair(x, y) ==> SamePair(y, x)
    ensures SamePair(x, y) && SamePair(y, z) ==> SamePair(x, z)
  {
  }

  /** Whether some row of `list` has the pair of `e`, in either orientation. */
  function Listed(list: seq<Row>, e: Row): (b: bool)
    ensures b <==> exists k :: 0 <= k < |list| && SamePair(list[k], e)
  {
    if list == [] then false
    else Listed(list[..|list| - 1], e) || SamePair(list[|list| - 1], e)
  }

  /** What `newArray` holds after the `forEach` has visited `rows`. */
  function Deduplicated(rows: seq<Row>): (d: seq<Row>)
    ensures |d| <= |rows|
  {
    if rows == [] then []
    else
      var d := Deduplicated(rows[..|rows| - 1]);
      if Listed(d, rows[|rows| - 1]) then d else d + [rows[|rows| - 1]]
  }

  /** The positions in `rows` of the rows that survive, in increasing order. */
  function Kept(rows: seq<Row>): (ks: seq<nat>)
    ensures |ks| == |Deduplicated(rows)|
    ensures forall j :: 0 <= j < |ks| ==> ks[j] < |rows|
    ensures forall j, l :: 0 <= j < l < |ks| ==> ks[j] < ks[l]
  {
    if rows == [] then []
    else
      var init := rows[..|rows| - 1];
      var ks := Kept(init);
      if Listed(Deduplicated(init), rows[|rows| - 1]) then ks
      else
        var ks' := ks + [|rows| - 1];
        assert forall j :: 0 <= j < |ks| ==> ks'[j] == ks[j];
        ks'
  }

  /** The output is the subsequence of the input at the kept positions. */
  lemma {:induction false} KeptPicksSurvivors(rows: seq<Row>)
    ensures forall j :: 0 <= j < |Kept(rows)| ==> Deduplicated(rows)[j] == rows[Kept(rows)[j]]
  {
    if rows != [] {
      var init := rows[..|rows| - 1];
      KeptPicksSurvivors(init);
      var ks := Kept(init);
      var d := Deduplicated(init);
      forall j | 0 <= j < |Kept(rows)|
        ensures Deduplicated(rows)[j] == rows[Kept(rows)[j]]
      {
        if j < |ks| {
          assert Kept(rows)[j] == ks[j] && Deduplicated(rows)[j] == d[j];
          assert rows[ks[j]] == init[ks[j]];
        }
      }
    }
  }

  /** Dropping a row never touches the survivors before it: the output of a prefix is a prefix. */
  lemma {:induction false} DeduplicatedGrows(rows: seq<Row>, i: nat)
    requires i <= |rows|
    ensures Deduplicated(rows[..i]) <= Deduplicated(rows)
    decreases |rows|
  {
    if i < |rows| {
      var init := rows[..|rows| - 1];
      DeduplicatedGrows(init, i);
      assert init[..i] == rows[..i];
    } else {
      assert rows[..i] == rows;
    }
  }

  /** No two survivors share an unordered pair of ids. */
  lemma {:induction false} SurvivorsAreDistinct(rows: seq<Row>)
    ensures forall j, l :: 0 <= j < l < |Deduplicated(rows)| ==>
      !SamePair(Deduplicated(rows)[j], Deduplicated(rows)[l])
  {
    if rows != [] {
      var init := rows[..|rows| - 1];
      SurvivorsAreDistinct(init);
      var d := Deduplicated(init);
      var e := rows[|rows| - 1];
      if !Listed(d, e) {
        var d' := d + [e];
        assert Deduplicated(rows) == d';
        forall j, l | 0 <= j < l < |d'|
          ensures !SamePair(d'[j], d'[l])
        {
          if l == |d| {
            assert d'[j] == d[j] && d'[l] == e;
            assert !SamePair(d[j], e);
          } else {
            assert d'[j] == d[j] && d'[l] == d[l];
          }
        }
      }
    }
  }

  /** Every input row's pair is represented among the survivors. */
  lemma {:induction false} EveryPairSurvives(rows: seq<Row>)
    ensures forall i :: 0 <= i < |rows| ==> Listed(Deduplicated(rows), rows[i])
  {
    if rows != [] {
      var init := rows[..|rows| - 1];
      EveryPairSurvives(init);
      var d := Deduplicated(init);
      var e := rows[|rows| - 1];
      var d' := Deduplicated(rows);
      assert d <= d';
      forall i | 0 <= i < |rows|
        ensures Listed(d', rows[i])
      {
        if i < |init| {
          assert rows[i] == init[i];
          var k :| 0 <= k < |d| && SamePair(d[k], init[i]);
          assert d'[k] == d[k];
        } else if !Listed(d, e) {
          assert d'[|d|] == e;
          SamePairIsEquivalence(e, e, e);
        }
      }
    }
  }

  /** The last row is pushed exactly when no earlier row has its pair. */
  lemma LastKeptIffNew(rows: seq<Row>)
    requires |rows| > 0
    ensures var init := rows[..|rows| - 1];
      !Listed(Deduplicated(init), rows[|rows| - 1]) <==>
      forall m :: 0 <= m < |rows| - 1 ==> !SamePair(rows[m], rows[|rows| - 1])
  {
    var init := rows[..|rows| - 1];
    var d := Deduplicated(init);
    var e := rows[|rows| - 1];
    if Listed(d, e) {
      var k :| 0 <= k < |d| && SamePair(d[k], e);
      KeptPicksSurvivors(init);
      var m := Kept(init)[k];
      assert rows[m] == init[m] == d[k];
    } else {
      EveryPairSurvives(init);
      forall m | 0 <= m < |rows| - 1
        ensures !SamePair(rows[m], e)
      {
        assert rows[m] == init[m];
        var k :| 0 <= k < |d| && SamePair(d[k], init[m]);
        SamePairIsEquivalence(d[k], init[m], e);
      }
    }
  }

  /**
    A row survives exactly when no earlier row has its pair: the one kept is the first
    occurrence.
   */
  lemma {:induction false} KeptIffFirst(rows: seq<Row>, i: nat)
    requires i < |rows|
    ensures i in Kept(rows) <==> forall m :: 0 <= m < i ==> !SamePair(rows[m], rows[i])
    decreases |rows|
  {
    var init := rows[..|rows| - 1];
    var ks := Kept(init);
    assert forall j :: 0 <= j < |ks| ==> ks[j] < |init|;
    if i < |rows| - 1 {
      KeptIffFirst(init, i);
      assert init[i] == rows[i];
      assert forall m :: 0 <= m < i ==> init[m] == rows[m];
      assert i in Kept(rows) <==> i in ks;
    } else {
      LastKeptIffNew(rows);
      assert i !in ks;
    }
  }

  /** `results.forEach(...)`: push each row whose pair `newArray` does not hold yet. */
  method DedupEdges(results: seq<Row>) returns (newArray: seq<Row>)
    ensures newArray == Deduplicated(results)
  {
    newArray := [];
    for i := 0 to |results|
      invariant newArray == Deduplicated(results[..i])
    {
      var element := results[i];
      assert results[..i + 1][..i] == results[..i];
      if !Listed(newArray, element) {
        newArray := newArray + [element];
      }
    }
    assert results[..|results|] == results;
  }

  /** The survivors once each has its position written into its `''` column. */
  function Reindexed(s: seq<Row>): (r: seq<Row>)
    ensures |r| == |s|
  {
    seq(|s|, i requires 0 <= i < |s| => Row(s[i].fields[IndexKey := Num(i)]))
  }

  /** Survivor `i` holds `i` in its `''` column, and every other column is as it was. */
  lemma ReindexedColumns(s: seq<Row>, i: nat, key: string)
    requires i < |s|
    ensures Field(Reindexed(s)[i], IndexKey) == Some(Num(i))
    ensures key != IndexKey ==> Field(Reindexed(s)[i], key) == Field(s[i], key)
  {
  }

  /** The `''` column is not an id column, so re-indexing keeps every pair. */
  lemma ReindexedKeepsPairs(s: seq<Row>, i: nat, j: nat)
    requires i < |s| && j < |s|
    ensures SamePair(Reindexed(s)[i], Reindexed(s)[j]) <==> SamePair(s[i], s[j])
  {
    ReindexedColumns(s, i, "source_id");
    ReindexedColumns(s, i, "target_id");
    ReindexedColumns(s, j, "source_id");
    ReindexedColumns(s, j, "target_id");
  }

  /** The re-indexing loop: writes each survivor's position into its own `''` column, in place. */
  method Reindex(a: array<Row>)
    modifies a
    ensures a[..] == Reindexed(old(a[..]))
  {
    ghost var s := a[..];
    for index := 0 to a.Length
      invariant forall k :: 0 <= k < index ==> a[k] == Reindexed(s)[k]
      invariant forall k :: index <= k < a.Length ==> a[k] == s[k]
    {
      a[index] := Row(a[index].fields[IndexKey := Num(index)]);
    }
  }

  /** The handler body between reading the file and writing the clean file. */
  method CleanEdges(results: seq<Row>) returns (a: array<Row>)
    ensures fresh(a)
    ensures a[..] == Reindexed(Deduplicated(results))
  {
    var newArray := DedupEdges(results);
    a := new Row[|newArray|](i requires 0 <= i < |newArray| => newArray[i]);
    assert a[..] == newArray;
    Reindex(a);
  }

  /** A row holding only the two id columns. */
  function Ids(s: string, t: string): Row {
    Row(map["source_id" := Str(s), "target_id" := Str(t)])
  }

  /** Edges `(1,2), (2,1), (3,4)` leave `(1,2)` and `(3,4)`, in that order, numbered 0 and 1. */
  lemma ThreeEdgeExample()
    ensures var rows := [Ids("1", "2"), Ids("2", "1"), Ids("3", "4")];
      Deduplicated(rows) == [Ids("1", "2"), Ids("3", "4")] &&
      Field(Reindexed(Deduplicated(rows))[0], IndexKey) == Some(Num(0)) &&
      Field(Reindexed(Deduplicated(rows))[1], IndexKey) == Some(Num(1))
  {
    var a, b, c := Ids("1", "2"), Ids("2", "1"), Ids("3", "4");
    assert "source_id" != "target_id" by {
      assert "source_id"[0] != "target_id"[0];
    }
    assert SourceId(a) == Some(Str("1")) && TargetId(a) == Some(Str("2"));
    assert SourceId(b) == Some(Str("2")) && TargetId(b) == Some(Str("1"));
    assert SourceId(c) == Some(Str("3")) && TargetId(c) == Some(Str("4"));
    var rows := [a, b, c];
    assert Deduplicated([a]) == [a] by {
      assert [a][..0] == [];
    }
    assert Deduplicated([a, b]) == [a] by {
      assert [a, b][..1] == [a];
      assert SamePair(a, b);
    }
    assert Deduplicated(rows) == [a, c] by {
      assert rows[..2] == [a, b];
      assert "3" != "1" && "3" != "2";
      assert !SamePair(a, c);
    }
    ReindexedColumns([a, c], 0, "");
    ReindexedColumns([a, c], 1, "");
  }
}
