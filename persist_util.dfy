/**
 * The storage helpers of PersistUtil.java that the replay engine relies
 * on: binding positional query parameters, cursor-paged visiting of a
 * result list, the single-result rules, and the life-cycle of the
 * process-wide entity manager factory.  The database is abstract: a query
 * is given by the rows it selects, in result order.
 */
module PersistUtil {
  import opened Wrappers

  /** `defaultBatchSize`: the page size of `queryEach` calls that do not give one. */
  const DefaultBatchSize: nat := 20

  /**
   * The loop of every query helper: parameter i is bound at the 1-based
   * position i + 1; a null parameter array binds nothing.
   */
  method BindParameters<P>(params: Option<seq<P>>) returns (bound: map<nat, P>)
    ensures params.None? ==> bound == map[]
    ensures params.Some? ==> forall i :: i in bound <==> 1 <= i <= |params.value|
    ensures params.Some? ==> forall i :: 0 <= i < |params.value| ==> bound[i + 1] == params.value[i]
  {
    bound := map[];
    if params.Some? {
      var ps := params.value;
      var i := 0;
      while i < |ps|
        invariant 0 <= i <= |ps|
        invariant forall j :: j in bound <==> 1 <= j <= i
        invariant forall j :: 0 <= j < i ==> bound[j + 1] == ps[j]
      {
        bound := bound[i + 1 := ps[i]];
        i := i + 1;
      }
    }
  }

  /**
   * `setFirstResult(first); setMaxResults(max); getResultList()`: the rows at
   * positions first, first + 1, ... of the result, at most `max` of them.
   */
  function Page<T>(rows: seq<T>, first: nat, max: nat): (page: seq<T>)
    ensures |page| <= max
    ensures page == [] <==> first >= |rows| || max == 0
    ensures forall i :: 0 <= i < |page| ==> first + i < |rows| && page[i] == rows[first + i]
    ensures first + max <= |rows| ==> |page| == max
  {
    if first >= |rows| then [] else if first + max <= |rows| then rows[first..first + max] else rows[first..]
  }

  /** The visitor accepted every non-empty prefix of `s`. */
  ghost predicate Accepted<T>(handler: seq<T> -> bool, s: seq<T>)
  {
    forall j :: 0 < j <= |s| ==> handler(s[..j])
  }

  /**
   * The rows a visitor sees when it is handed `rows` in order, given that it
   * accepted the first `n`: up to and including the first row it rejects,
   * or all of them.
   */
  ghost function Visit<T>(rows: seq<T>, handler: seq<T> -> bool, n: nat): seq<T>
    requires n <= |rows|
    decreases |rows| - n
  {
    if n == |rows| then rows
    else if !handler(rows[..n + 1]) then rows[..n + 1]
    else Visit(rows, handler, n + 1)
  }

  /**
   * A visited prefix that every earlier prefix was accepted for, and that
   * ends either at the end of the rows or at a rejection, is `Visit`: the
   * outcome of a visit does not depend on how the rows were paged.
   */
  lemma {:induction false} VisitDetermined<T>(rows: seq<T>, handler: seq<T> -> bool, visited: seq<T>, n: nat)
    requires n <= |visited| <= |rows| && visited == rows[..|visited|]
    requires Accepted(handler, rows[..n])
    requires forall j :: 0 < j < |visited| ==> handler(visited[..j])
    requires visited == rows || (visited != [] && !handler(visited))
    ensures visited == Visit(rows, handler, n)
    decreases |rows| - n
  {
    assert forall m :: 0 <= m <= |visited| ==> visited[..m] == rows[..m];
    if n < |rows| {
      assert n > 0 ==> rows[..n][..n] == rows[..n];
      if handler(rows[..n + 1]) {
        var accepted := rows[..n + 1];
        forall j | 0 < j <= |accepted|
          ensures handler(accepted[..j])
        {
          if j <= n {
            assert accepted[..j] == rows[..n][..j];
          } else {
            assert accepted[..j] == rows[..n + 1];
          }
        }
        if |visited| == n + 1 {
          assert visited == rows[..n + 1];
          assert visited == rows;
        }
        VisitDetermined(rows, handler, visited, n + 1);
      }
    }
  }

  /**
   * The inner loop of `queryEach`: hands the rows of one non-empty page,
   * the rows at positions `start` up to `stop`, to the visitor in order,
   * and stops right after the first one it rejects.
   */
  method VisitPage<T>(rows: seq<T>, handler: seq<T> -> bool, start: nat, stop: nat, seen: seq<T>)
    returns (visited: seq<T>, stopped: bool)
    requires start < stop <= |rows| && seen == rows[..start]
    requires Accepted(handler, seen)
    ensures start < |visited| <= stop && visited == rows[..|visited|]
    ensures stopped ==> !handler(visited) && Accepted(handler, visited[..|visited| - 1])
    ensures !stopped ==> |visited| == stop && Accepted(handler, visited)
  {
    visited := seen;
    var k := start;
    while k < stop
      invariant start <= k <= stop
      invariant visited == rows[..k]
      invariant Accepted(handler, visited)
    {
      var prefix := visited;
      visited := visited + [rows[k]];
      assert visited == rows[..k + 1];
      assert visited[..|visited| - 1] == prefix;
      assert forall j :: 0 < j <= |prefix| ==> visited[..j] == prefix[..j];
      if !handler(visited) {
        return visited, true;
      }
      forall j | 0 < j <= |visited|
        ensures handler(visited[..j])
      {
        if j < |visited| {
          assert visited[..j] == prefix[..j];
        } else {
          assert visited[..j] == visited;
        }
      }
      k := k + 1;
    }
    stopped := false;
  }

  /**
   * The typed `queryEach`: reads the result in pages of `batchSize` rows at
   * cursor positions 0, batchSize, 2 * batchSize, ..., hands each row to the
   * visitor in result order, and stops at the first empty page or right
   * after the first row the visitor rejects.  The visitor's answer may
   * depend on every row it has seen, so it is given the rows seen so far.
   * Returns the rows visited, the cursor positions read, and whether the
   * visitor stopped the iteration.
   */
  method QueryEach<T>(rows: seq<T>, handler: seq<T> -> bool, batchSize: nat)
    returns (visited: seq<T>, cursors: seq<nat>, stopped: bool)
    requires batchSize > 0
    ensures |visited| <= |rows| && visited == rows[..|visited|]
    ensures forall j :: 0 < j < |visited| ==> handler(visited[..j])
    ensures stopped ==> visited != [] && !handler(visited)
    ensures !stopped ==> visited == rows && forall j :: 0 < j <= |rows| ==> handler(rows[..j])
    ensures cursors != []
    ensures forall i :: 0 <= i < |cursors| ==> cursors[i] == i * batchSize
    ensures forall i :: 0 <= i < |cursors| - 1 ==> cursors[i] < |rows|
    ensures !stopped ==> cursors[|cursors| - 1] >= |rows|
    ensures stopped ==> cursors[|cursors| - 1] < |visited| <= cursors[|cursors| - 1] + batchSize
    ensures visited == Visit(rows, handler, 0)
  {
    visited, cursors, stopped := [], [], false;
    var start := 0;
    while true
      invariant start == |cursors| * batchSize
      invariant start < |rows| + batchSize
      invariant forall i :: 0 <= i < |cursors| ==> cursors[i] == i * batchSize
      invariant forall i :: 0 <= i < |cursors| ==> cursors[i] < |rows|
      invariant visited == rows[..if start < |rows| then start else |rows|]
      invariant Accepted(handler, visited)
      decreases |rows| + batchSize - start
    {
      ghost var n := |cursors|;
      cursors := cursors + [start];
      assert cursors[n] == n * batchSize;
      assert start + batchSize == |cursors| * batchSize by {
        assert (n + 1) * batchSize == n * batchSize + batchSize;
      }
      var list := Page(rows, start, batchSize);
      if list == [] {
        VisitDetermined(rows, handler, visited, 0);
        return;
      }
      var stop := start + |list|;
      visited, stopped := VisitPage(rows, handler, start, stop, visited);
      if stopped {
        assert forall j :: 0 < j < |visited| ==> visited[..j] == visited[..|visited| - 1][..j];
        VisitDetermined(rows, handler, visited, 0);
        return;
      }
      start := start + batchSize;
    }
  }

  /** A row of an untyped query: an array of column values, or a single value. */
  datatype Row<V> = ArrayRow(columns: seq<V>) | ScalarRow(value: V)

  /** What the untyped visitor receives for a row: an array row as is, any other row wrapped in a one-element array. */
  function Columns<V>(row: Row<V>): (cols: seq<V>)
    ensures row.ArrayRow? ==> cols == row.columns
    ensures row.ScalarRow? ==> cols == [row.value]
  {
    match row
    case ArrayRow(columns) => columns
    case ScalarRow(value) => [value]
  }

  /** The rows as the untyped visitor sees them. */
  function AsArrays<V>(rows: seq<Row<V>>): (r: seq<seq<V>>)
    ensures |r| == |rows|
    ensures forall i :: 0 <= i < |rows| ==> r[i] == Columns(rows[i])
  {
    seq(|rows|, i requires 0 <= i < |rows| => Columns(rows[i]))
  }

  /**
   * The untyped `queryEach`: the same paging and stopping rules, with each
   * row handed to the visitor as an array of column values.
   */
  method QueryEachRows<V>(rows: seq<Row<V>>, handler: seq<seq<V>> -> bool, batchSize: nat)
    returns (visited: seq<seq<V>>, cursors: seq<nat>, stopped: bool)
    requires batchSize > 0
    ensures |visited| <= |rows| && visited == AsArrays(rows)[..|visited|]
    ensures forall j :: 0 < j < |visited| ==> handler(visited[..j])
    ensures stopped ==> visited != [] && !handler(visited)
    ensures !stopped ==> visited == AsArrays(rows) && forall j :: 0 < j <= |rows| ==> handler(AsArrays(rows)[..j])
    ensures cursors != []
    ensures forall i :: 0 <= i < |cursors| ==> cursors[i] == i * batchSize
    ensures forall i :: 0 <= i < |cursors| - 1 ==> cursors[i] < |rows|
    ensures !stopped ==> cursors[|cursors| - 1] >= |rows|
    ensures stopped ==> cursors[|cursors| - 1] < |visited| <= cursors[|cursors| - 1] + batchSize
    ensures visited == Visit(AsArrays(rows), handler, 0)
    ensures forall i :: 0 <= i < |visited| ==> visited[i] == Columns(rows[i])
  {
    visited, cursors, stopped := QueryEach(AsArrays(rows), handler, batchSize);
  }

  /** The typed `queryEach` without a batch size: pages of `DefaultBatchSize` rows. */
  method QueryEachDefault<T>(rows: seq<T>, handler: seq<T> -> bool)
    returns (visited: seq<T>, cursors: seq<nat>, stopped: bool)
    ensures |visited| <= |rows| && visited == rows[..|visited|]
    ensures forall j :: 0 < j < |visited| ==> handler(visited[..j])
    ensures stopped ==> visited != [] && !handler(visited)
    ensures !stopped ==> visited == rows && forall j :: 0 < j <= |rows| ==> handler(rows[..j])
    ensures cursors != []
    ensures forall i :: 0 <= i < |cursors| ==> cursors[i] == i * 20
    ensures forall i :: 0 <= i < |cursors| - 1 ==> cursors[i] < |rows|
    ensures !stopped ==> cursors[|cursors| - 1] >= |rows|
    ensures stopped ==> cursors[|cursors| - 1] < |visited| <= cursors[|cursors| - 1] + 20
    ensures visited == Visit(rows, handler, 0)
  {
    visited, cursors, stopped := QueryEach(rows, handler, DefaultBatchSize);
  }

  /** The untyped `queryEach` without a batch size: pages of `DefaultBatchSize` rows. */
  method QueryEachRowsDefault<V>(rows: seq<Row<V>>, handler: seq<seq<V>> -> bool)
    returns (visited: seq<seq<V>>, cursors: seq<nat>, stopped: bool)
    ensures |visited| <= |rows| && visited == AsArrays(rows)[..|visited|]
    ensures forall j :: 0 < j < |visited| ==> handler(visited[..j])
    ensures stopped ==> visited != [] && !handler(visited)
    ensures !stopped ==> visited == AsArrays(rows) && forall j :: 0 < j <= |rows| ==> handler(AsArrays(rows)[..j])
    ensures cursors != []
    ensures forall i :: 0 <= i < |cursors| ==> cursors[i] == i * 20
    ensures forall i :: 0 <= i < |cursors| - 1 ==> cursors[i] < |rows|
    ensures !stopped ==> cursors[|cursors| - 1] >= |rows|
    ensures stopped ==> cursors[|cursors| - 1] < |visited| <= cursors[|cursors| - 1] + 20
    ensures visited == Visit(AsArrays(rows), handler, 0)
    ensures forall i :: 0 <= i < |visited| ==> visited[i] == Columns(rows[i])
  {
    visited, cursors, stopped := QueryEachRows(rows, handler, DefaultBatchSize);
  }

  /** The exceptions of `getSingleResult`. */
  datatype QueryError = NoResult | NonUniqueResult

  /** `getSingleResult`: the one row, or an exception for none or several. */
  function GetSingleResult<T>(rows: seq<T>): (r: Result<T, QueryError>)
    ensures r.Ok? <==> |rows| == 1
    ensures r.Ok? ==> r.value == rows[0]
    ensures r == Err(NoResult) <==> rows == []
    ensures r == Err(NonUniqueResult) <==> |rows| > 1
  {
    if rows == [] then Err(NoResult) else if |rows| > 1 then Err(NonUniqueResult) else Ok(rows[0])
  }

  /** `queryOne`: the single result; no row raises `NoResult`. */
  function QueryOne<T>(rows: seq<T>): (r: Result<T, QueryError>)
    ensures r.Ok? <==> |rows| == 1
    ensures r.Ok? ==> r.value == rows[0]
    ensures rows == [] ==> r == Err(NoResult)
  {
    GetSingleResult(rows)
  }

  /** `queryZeroOne`: null instead of `NoResult`; several rows still raise. */
  function QueryZeroOne<T>(rows: seq<T>): (r: Result<Option<T>, QueryError>)
    ensures r == Ok(None) <==> rows == []
    ensures |rows| == 1 ==> r == Ok(Some(rows[0]))
    ensures r.Err? <==> |rows| > 1
    ensures r != Err(NoResult)
  {
    match GetSingleResult(rows)
    case Ok(v) => Ok(Some(v))
    case Err(NoResult) => Ok(None)
    case Err(e) => Err(e)
  }

  /** `hibernate.hbm2ddl.auto`: drop and re-create the schema, or update it in place. */
  datatype SchemaMode = Create | Update

  /** The `IllegalStateException` a JPA factory throws when it is used after `close`. */
  datatype FactoryError = AlreadyClosed

  /** An entity manager factory: open until closed, built with one schema mode. */
  class EntityManagerFactory {
    var isOpen: bool
    const schemaMode: SchemaMode

    constructor (schemaMode: SchemaMode)
      ensures isOpen && this.schemaMode == schemaMode
    {
      isOpen := true;
      this.schemaMode := schemaMode;
    }

    /** `close`: an open factory is closed; closing a closed one is an `IllegalStateException`. */
    method Close() returns (r: Result<(), FactoryError>)
      modifies this
      ensures r.Err? <==> !old(isOpen)
      ensures !isOpen
    {
      if !isOpen {
        return Err(AlreadyClosed);
      }
      isOpen := false;
      r := Ok(());
    }

  }

  /**
   * How building a factory goes; the outcome depends on the database and the
   * configuration, which are not modelled.
   */
  datatype Construction = Succeeds | FactoryFails | SingletonsFail

  /** `new Error("Could not initialize db", cause)`. */
  datatype InitError = CouldNotInitializeDb

  /** The static state of PersistUtil: the process-wide factory, or null. */
  class Persistence {
    var entityManagerFactory: EntityManagerFactory?

    constructor ()
      ensures entityManagerFactory == null
    {
      entityManagerFactory := null;
    }

    /**
     * `init(resetDatabase)`.  An open factory is kept when no reset is
     * asked for; a closed one is dropped.  Otherwise a new factory is built
     * with schema mode "create" on reset and "update" otherwise.  When
     * building or the singleton bootstrap fails, whatever factory the field
     * then holds is closed and the field is left null.  An open factory
     * replaced on reset is not closed.
     */
    method Init(resetDatabase: bool, construction: Construction) returns (r: Result<(), InitError>)
      modifies this, entityManagerFactory
      ensures old(entityManagerFactory) != null && old(entityManagerFactory.isOpen) && !resetDatabase ==>
                && r.Ok? && entityManagerFactory == old(entityManagerFactory)
                && entityManagerFactory.isOpen
      ensures !(old(entityManagerFactory) != null && old(entityManagerFactory.isOpen) && !resetDatabase) ==>
                && (construction == Succeeds ==>
                      && r.Ok? && entityManagerFactory != null && fresh(entityManagerFactory)
                      && entityManagerFactory.isOpen
                      && entityManagerFactory.schemaMode == (if resetDatabase then Create else Update)
                      && (old(entityManagerFactory) != null ==> old(entityManagerFactory).isOpen == old(entityManagerFactory.isOpen)))
                && (construction != Succeeds ==> r.Err? && entityManagerFactory == null)
                && (construction == FactoryFails && old(entityManagerFactory) != null ==>
                      !old(entityManagerFactory).isOpen)
                && (construction == SingletonsFail && old(entityManagerFactory) != null ==>
                      old(entityManagerFactory).isOpen == old(entityManagerFactory.isOpen))
    {
      if entityManagerFactory != null {
        if !entityManagerFactory.isOpen {
          entityManagerFactory := null;
        } else if !resetDatabase {
          return Ok(());
        }
      }
      var createMode := if resetDatabase then Create else Update;
      if construction == FactoryFails {
        if entityManagerFactory != null {
          var closed := entityManagerFactory.Close();
          assert closed.Ok?;
          entityManagerFactory := null;
        }
        return Err(CouldNotInitializeDb);
      }
      entityManagerFactory := new EntityManagerFactory(createMode);
      if construction == SingletonsFail {
        var closed := entityManagerFactory.Close();
        assert closed.Ok?;
        entityManagerFactory := null;
        return Err(CouldNotInitializeDb);
      }
      r := Ok(());
    }

    /** `init()`: initialise without a reset. */
    method InitDefault(construction: Construction) returns (r: Result<(), InitError>)
      modifies this, entityManagerFactory
      ensures r.Ok? <==> (old(entityManagerFactory) != null && old(entityManagerFactory.isOpen)) || construction == Succeeds
      ensures r.Ok? ==> entityManagerFactory != null && entityManagerFactory.isOpen
      ensures r.Ok? && !(old(entityManagerFactory) != null && old(entityManagerFactory.isOpen)) ==>
                fresh(entityManagerFactory) && entityManagerFactory.schemaMode == Update
      ensures old(entityManagerFactory) != null && old(entityManagerFactory.isOpen) ==>
                r.Ok? && entityManagerFactory == old(entityManagerFactory)
      ensures r.Err? ==> entityManagerFactory == null
    {
      r := Init(false, construction);
    }

    /**
     * `resetDatabase`: always builds a new factory that re-creates the schema.
     * The factory it replaces stays as it was, so an open one stays open,
     * unless building fails, which closes it.
     */
    method ResetDatabase(construction: Construction) returns (r: Result<(), InitError>)
      modifies this, entityManagerFactory
      ensures r.Ok? <==> construction == Succeeds
      ensures r.Ok? ==> entityManagerFactory != null && fresh(entityManagerFactory)
                        && entityManagerFactory.isOpen && entityManagerFactory.schemaMode == Create
      ensures r.Err? ==> entityManagerFactory == null
      ensures construction != FactoryFails && old(entityManagerFactory) != null ==>
                old(entityManagerFactory).isOpen == old(entityManagerFactory.isOpen)
      ensures construction == FactoryFails && old(entityManagerFactory) != null ==>
                !old(entityManagerFactory).isOpen
    {
      r := Init(true, construction);
    }

    /**
     * `shutdown`: closes the factory if there is one; the field keeps it.  A
     * second shutdown closes an already closed factory, which fails.
     */
    method Shutdown() returns (r: Result<(), FactoryError>)
      modifies entityManagerFactory
      ensures entityManagerFactory == old(entityManagerFactory)
      ensures entityManagerFactory != null ==> !entityManagerFactory.isOpen
      ensures r.Err? <==> old(entityManagerFactory) != null && !old(entityManagerFactory.isOpen)
    {
      r := Ok(());
      if entityManagerFactory != null {
        r := entityManagerFactory.Close();
      }
    }
  }
}
