// Vocabulary shared by every component: optional values and the rows' identifiers.
module Prelude {

  datatype Option<+T> = None | Some(value: T)

  /** A row identifier. The program uses UUIDs and names; only their identity matters here. */
  type Id = nat

  /** A point in time. Only the order of timestamps matters. */
  type Time = int

  /** A fresh row id, as the database's id generator yields. */
  method NewId(taken: set<Id>) returns (id: Id)
    ensures id !in taken
  {
    id := 0;
    var below: set<Id> := {};
    while id in taken
      invariant forall i <- below :: i < id
      invariant below <= taken
      decreases |taken - below|
    {
      assert taken - (below + {id}) == (taken - below) - {id};
      below := below + {id};
      id := id + 1;
    }
  }
}
