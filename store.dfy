/**
 * The database as the replay engine sees it: one table of trades and one
 * of books, and the three query shapes Replay.java issues against them
 * (a closed-interval filter on a timestamp column, `min` and `max` of a
 * timestamp column).  Rows come back in table order; JPA promises no order
 * for a query without `order by`, and the engine sorts afterwards.
 */
module Store {
  import opened Events
  import opened Wrappers

  datatype Database = Database(trades: seq<RemoteEvent>, books: seq<RemoteEvent>)

  /** The head row kept by the filter: the row itself when its column is in [lo, hi], else nothing. */
  function Keep(x: RemoteEvent, field: string, lo: int, hi: int): seq<RemoteEvent>
    requires IsTimeColumn(field)
  {
    if lo <= Column(x, field) <= hi then [x] else []
  }

  /**
   * `select x from T x where field >= ?1 and field <= ?2`: the rows of the
   * table whose column lies in the closed interval [lo, hi], in table order.
   */
  function Select(table: seq<RemoteEvent>, field: string, lo: int, hi: int): (r: seq<RemoteEvent>)
    requires IsTimeColumn(field)
    ensures |r| <= |table|
    ensures forall e :: e in r <==> e in table && lo <= Column(e, field) <= hi
  {
    if table == [] then []
    else
      assert table == [table[0]] + table[1..];
      Keep(table[0], field, lo, hi) + Select(table[1..], field, lo, hi)
  }

  lemma KeepCounts(x: RemoteEvent, field: string, lo: int, hi: int, e: RemoteEvent)
    requires IsTimeColumn(field)
    ensures multiset(Keep(x, field, lo, hi))[e] == if lo <= Column(e, field) <= hi then multiset([x])[e] else 0
  {
  }

  /** The filter keeps every in-range row as many times as the table holds it, and no other row. */
  lemma {:induction false} SelectCounts(table: seq<RemoteEvent>, field: string, lo: int, hi: int, e: RemoteEvent)
    requires IsTimeColumn(field)
    ensures multiset(Select(table, field, lo, hi))[e] == if lo <= Column(e, field) <= hi then multiset(table)[e] else 0
  {
    if table != [] {
      var head, rest := Keep(table[0], field, lo, hi), Select(table[1..], field, lo, hi);
      SelectCounts(table[1..], field, lo, hi, e);
      KeepCounts(table[0], field, lo, hi, e);
      assert multiset(head + rest) == multiset(head) + multiset(rest);
      assert table == [table[0]] + table[1..];
      assert multiset(table) == multiset([table[0]]) + multiset(table[1..]);
    }
  }

  /** `select min(field) from T`: null on an empty table, otherwise the smallest value. */
  function MinOf(table: seq<RemoteEvent>, field: string): (r: Option<int>)
    requires IsTimeColumn(field)
    ensures r.None? <==> table == []
    ensures r.Some? ==> exists e :: e in table && Column(e, field) == r.value
    ensures r.Some? ==> forall e :: e in table ==> r.value <= Column(e, field)
  {
    if table == [] then None
    else
      var rest := MinOf(table[1..], field);
      assert forall e :: e in table ==> e == table[0] || e in table[1..];
      if rest.None? || Column(table[0], field) <= rest.value then Some(Column(table[0], field)) else rest
  }

  /** `select max(field) from T`: null on an empty table, otherwise the largest value. */
  function MaxOf(table: seq<RemoteEvent>, field: string): (r: Option<int>)
    requires IsTimeColumn(field)
    ensures r.None? <==> table == []
    ensures r.Some? ==> exists e :: e in table && Column(e, field) == r.value
    ensures r.Some? ==> forall e :: e in table ==> Column(e, field) <= r.value
  {
    if table == [] then None
    else
      var rest := MaxOf(table[1..], field);
      assert forall e :: e in table ==> e == table[0] || e in table[1..];
      if rest.None? || rest.value <= Column(table[0], field) then Some(Column(table[0], field)) else rest
  }
}
