/** Statement-level meaning of the SQL the store issues. A table is a map
    from its auto-increment primary key to its row; a WHERE clause is a
    predicate on rows. */
module Sql {

  datatype Option<T> = None | Some(value: T)

  /** The keys of the rows a WHERE clause selects. */
  function Where<T>(table: map<nat, T>, cond: T -> bool): set<nat>
  {
    set k | k in table && cond(table[k])
  }

  /** A scan of the keys in [from, bound) that stops at the first row
      satisfying `cond`. */
  function FirstFrom<T>(table: map<nat, T>, cond: T -> bool, from: nat, bound: nat): (r: Option<nat>)
    decreases bound - from
    ensures r.Some? ==> from <= r.value < bound && r.value in table && cond(table[r.value])
    ensures forall k :: from <= k < bound && k in table && cond(table[k]) ==> r.Some? && r.value <= k
  {
    if from >= bound then None
    else if from in table && cond(table[from]) then Some(from)
    else FirstFrom(table, cond, from + 1, bound)
  }

  /** The row `fetch_optional` yields for a SELECT: none when nothing matches,
      otherwise the matching row with the smallest key. `bound` is the next
      value of the table's id sequence, above every key in use. */
  function First<T>(table: map<nat, T>, cond: T -> bool, bound: nat): (r: Option<nat>)
    requires forall k :: k in table ==> k < bound
    ensures r.None? <==> Where(table, cond) == {}
    ensures r.Some? ==> r.value in Where(table, cond)
    ensures r.Some? ==> forall k :: k in Where(table, cond) ==> r.value <= k
  {
    var r := FirstFrom(table, cond, 0, bound);
    assert r.None? ==> forall k :: k in table ==> !cond(table[k]);
    assert r.Some? ==> r.value in Where(table, cond);
    r
  }

  /** When at most one row matches, the first match is that row. */
  lemma FirstOfSingleMatch<T>(table: map<nat, T>, cond: T -> bool, bound: nat, k: nat)
    requires forall j :: j in table ==> j < bound
    requires k in table && cond(table[k])
    requires forall j :: j in table && cond(table[j]) ==> j == k
    ensures First(table, cond, bound) == Some(k)
  {
    assert k in Where(table, cond);
  }

  /** UPDATE table SET change WHERE cond. */
  function UpdateWhere<T>(table: map<nat, T>, cond: T -> bool, change: T -> T): (r: map<nat, T>)
    ensures r.Keys == table.Keys
    ensures forall k :: k in table && cond(table[k]) ==> r[k] == change(table[k])
    ensures forall k :: k in table && !cond(table[k]) ==> r[k] == table[k]
  {
    map k | k in table :: if cond(table[k]) then change(table[k]) else table[k]
  }

  /** DELETE FROM table WHERE cond. */
  function DeleteWhere<T>(table: map<nat, T>, cond: T -> bool): (r: map<nat, T>)
    ensures r.Keys == table.Keys - Where(table, cond)
    ensures forall k :: k in r ==> r[k] == table[k]
  {
    map k | k in table && !cond(table[k]) :: table[k]
  }
}
