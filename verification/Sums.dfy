/**
 * SQL aggregates over tables. A table is a finite map from row id to row, and the
 * values an aggregate ranges over are a map from row id to number.
 */
module Sums {
  import opened Prelude

  /** The least row id of a nonempty set. */
  function Least(ids: set<Id>): (least: Id)
    requires ids != {}
    ensures least in ids && forall id <- ids :: least <= id
  {
    LeastExists(ids);
    var least :| least in ids && forall id <- ids :: least <= id;
    least
  }

  lemma LeastExists(ids: set<Id>)
    requires ids != {}
    ensures exists least <- ids :: forall id <- ids :: least <= id
  {
    var least := LeastOf(ids);
  }

  lemma {:induction false} LeastOf(ids: set<Id>) returns (least: Id)
    requires ids != {}
    ensures least in ids && forall id <- ids :: least <= id
    decreases |ids|
  {
    least :| least in ids;
    var others := ids - {least};
    assert forall id <- ids :: id == least || id in others;
    if others != {} {
      var rest := LeastOf(others);
      least := if least <= rest then least else rest;
    }
  }

  /** The row ORDER BY value LIMIT 1 picks: one with the smallest value. */
  method Smallest(values: map<Id, int>) returns (best: Id)
    requires values != map[]
    ensures best in values && forall id <- values :: values[best] <= values[id]
  {
    ghost var smallest := SmallestOf(values);
    best :| best in values && forall id <- values :: values[best] <= values[id];
  }

  lemma {:induction false} SmallestOf(values: map<Id, int>) returns (best: Id)
    requires values != map[]
    ensures best in values && forall id <- values :: values[best] <= values[id]
    decreases |values|
  {
    best :| best in values;
    var others := values - {best};
    assert forall id <- values :: id == best || (id in others && others[id] == values[id]);
    if others != map[] {
      var rest := SmallestOf(others);
      best := if values[best] <= values[rest] then best else rest;
    }
  }

  /** SUM(value), with the empty sum zero. */
  function Total(values: map<Id, int>): int {
    if values == map[] then 0
    else
      var id := Least(values.Keys);
      values[id] + Total(values - {id})
  }

  lemma {:induction false} TotalRemove(values: map<Id, int>, id: Id)
    requires id in values
    ensures Total(values) == values[id] + Total(values - {id})
    decreases |values|
  {
    var first := Least(values.Keys);
    if first != id {
      var rest := values - {first};
      TotalRemove(rest, id);
      var others := values - {id};
      TotalRemove(others, first);
      assert rest - {id} == others - {first};
    }
  }

  /** Setting one row's value moves the total by the change in that row alone. */
  lemma TotalUpdate(values: map<Id, int>, id: Id, value: int)
    ensures Total(values[id := value]) == Total(values - {id}) + value
    ensures Total(values) == Total(values - {id}) + (if id in values then values[id] else 0)
  {
    TotalRemove(values[id := value], id);
    assert values[id := value] - {id} == values - {id};
    if id in values {
      TotalRemove(values, id);
    } else {
      assert values - {id} == values;
    }
  }

  lemma TotalInsert(values: map<Id, int>, id: Id, value: int)
    requires id !in values
    ensures Total(values[id := value]) == Total(values) + value
  {
    TotalUpdate(values, id, value);
    assert values - {id} == values;
  }

  lemma {:induction false} TotalUnion(left: map<Id, int>, right: map<Id, int>)
    requires forall id <- right :: id !in left
    ensures Total(left + right) == Total(left) + Total(right)
    decreases |right|
  {
    if right == map[] {
      assert left + right == left;
    } else {
      var id :| id in right;
      TotalUnion(left, right - {id});
      TotalUnionStep(left, right, id);
    }
  }

  lemma TotalUnionStep(left: map<Id, int>, right: map<Id, int>, id: Id)
    requires forall id <- right :: id !in left
    requires id in right && Total(left + (right - {id})) == Total(left) + Total(right - {id})
    ensures Total(left + right) == Total(left) + Total(right)
  {
    var rest := right - {id};
    assert rest[id := right[id]] == right;
    assert (left + rest)[id := right[id]] == left + right;
    TotalInsert(left + rest, id, right[id]);
    TotalInsert(rest, id, right[id]);
  }

  /** Dropping rows and lowering values never raises a total of non-negative values. */
  lemma {:induction false} TotalMonotone(low: map<Id, int>, high: map<Id, int>)
    requires forall id <- high :: 0 <= high[id]
    requires forall id <- low :: id in high && low[id] <= high[id]
    ensures Total(low) <= Total(high)
    decreases |high|
  {
    if high == map[] {
      assert low == map[];
    } else {
      var id := Least(high.Keys);
      TotalMonotone(low - {id}, high - {id});
      if id in low {
        TotalRemove(low, id);
      } else {
        assert low - {id} == low;
      }
    }
  }

  /** Totals over the same rows compare as the rows do, and agree only when all rows agree. */
  lemma {:induction false} TotalCompare(low: map<Id, int>, high: map<Id, int>)
    requires low.Keys == high.Keys && forall id <- low :: low[id] <= high[id]
    ensures Total(low) <= Total(high)
    ensures Total(low) == Total(high) <==> low == high
    decreases |low|
  {
    if low != map[] {
      var id := Least(low.Keys);
      TotalCompare(low - {id}, high - {id});
      if low - {id} == high - {id} && low[id] == high[id] {
        assert forall j <- low :: j != id ==> low[j] == (low - {id})[j] && high[j] == (high - {id})[j];
        assert low == high;
      }
    }
  }
}
