// Shared building blocks: optional values, ids in ascending order, and the total of a numeric column.

module Collections {

  datatype Option<+T> = None | Some(value: T)

  lemma AnElement<T>(s: set<T>) returns (x: T)
    requires s != {}
    ensures x in s
  {
    x :| x in s;
  }

  /** The smallest element of a non-empty finite set of ids. */
  function Least(ids: set<int>): (least: int)
    requires ids != {}
    ensures least in ids
    ensures forall id :: id in ids ==> least <= id
  {
    LeastExists(ids);
    var least :| least in ids && forall id :: id in ids ==> least <= id;
    least
  }

  lemma LeastExists(ids: set<int>)
    requires ids != {}
    ensures exists least :: least in ids && forall id :: id in ids ==> least <= id
  {
    var candidate := AnElement(ids);
    var rest := ids - {candidate};
    if rest == {} {
      assert ids == {candidate};
    } else {
      LeastExists(rest);
      var least :| least in rest && forall id :: id in rest ==> least <= id;
      var m := if candidate <= least then candidate else least;
      assert forall id :: id in ids ==> id == candidate || id in rest;
      assert m in ids && forall id :: id in ids ==> m <= id;
    }
  }

  predicate Ascending(ids: seq<int>) {
    forall i, j :: 0 <= i < j < |ids| ==> ids[i] < ids[j]
  }

  /** The result of `ORDER BY id`: exactly the given ids, smallest first. */
  function SortedIds(ids: set<int>): (sorted: seq<int>)
    ensures forall id :: id in sorted <==> id in ids
    ensures Ascending(sorted)
    ensures |sorted| == |ids|
    decreases |ids|
  {
    if ids == {} then []
    else
      var least := Least(ids);
      [least] + SortedIds(ids - {least})
  }

  /** In ascending order, as many ids stand before an id as there are smaller ones. */
  lemma Rank(sorted: seq<int>, k: nat)
    requires Ascending(sorted) && k < |sorted|
    ensures |set id | id in sorted && id < sorted[k]| == k
  {
    var before := sorted[..k];
    DistinctElements(before);
    forall id ensures id in sorted && id < sorted[k] <==> id in before {
      if id in sorted && id < sorted[k] {
        var j :| 0 <= j < |sorted| && sorted[j] == id;
        assert before[j] == id;
      }
      if id in before {
        var j :| 0 <= j < k && before[j] == id;
        assert sorted[j] == id;
      }
    }
    assert (set id | id in sorted && id < sorted[k]) == Elements(before);
  }

  /** The total of a numeric column, over all rows of a table. */
  ghost function Total(column: map<int, real>): real
    decreases |column|
  {
    if column == map[] then 0.0
    else
      var id := Least(column.Keys);
      column[id] + Total(column - {id})
  }

  lemma TotalOfNone()
    ensures Total(map[]) == 0.0
  {
  }

  /** Rows may be totalled in any order. */
  lemma {:induction false} TotalSplit(column: map<int, real>, id: int)
    requires id in column
    ensures Total(column) == column[id] + Total(column - {id})
    decreases |column|
  {
    var first := Least(column.Keys);
    if first != id {
      TotalSplit(column - {first}, id);
      TotalSplit(column - {id}, first);
      assert column - {first} - {id} == column - {id} - {first};
    }
  }

  function Elements<T(==)>(s: seq<T>): set<T> {
    set x | x in s
  }

  predicate NoDuplicates<T(==)>(s: seq<T>) {
    forall i, j :: 0 <= i < j < |s| ==> s[i] != s[j]
  }

  /** A table whose rows carry pairwise different labels has as many labels as rows. */
  lemma {:induction false} DistinctLabels<I, K>(labels: map<I, K>)
    requires forall i, j :: i in labels && j in labels && labels[i] == labels[j] ==> i == j
    ensures |labels.Values| == |labels|
    decreases |labels|
  {
    if labels.Keys == {} {
      assert labels.Values == {};
    } else {
      var id := AnElement(labels.Keys);
      var rest := labels - {id};
      DistinctLabels(rest);
      assert rest.Values == labels.Values - {labels[id]} by {
        forall k | k in labels.Values && k != labels[id] ensures k in rest.Values {
          var j :| j in labels && labels[j] == k;
          assert j in rest && rest[j] == k;
        }
      }
    }
  }

  lemma {:induction false} DistinctElements<T>(s: seq<T>)
    requires NoDuplicates(s)
    ensures |Elements(s)| == |s|
  {
    if s != [] {
      var last := |s| - 1;
      DistinctElements(s[..last]);
      assert Elements(s) == Elements(s[..last]) + {s[last]};
      assert s[last] !in s[..last];
    }
  }
}
