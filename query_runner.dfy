/**
 * `run_queries`: eight read-only queries run one after another, each in its
 * own `try ... except sqlite3.OperationalError`. A query whose execution
 * raises `OperationalError` (a missing table or column) is reported as
 * skipped and the next query still runs; any other exception escapes and
 * ends the run.
 */
module QueryRunner {

  /** The query catalog, in the order of the source's numbered blocks. */
  datatype Query =
    | FirstRecipes        // 1. first 10 rows of recipe_name, cuisine
    | DistinctCuisines    // 2. distinct cuisine values
    | VegetarianRecipes   // 3. up to 5 rows whose dietary_restrictions mention vegetarian
    | RecipeCount         // 4. COUNT(*)
    | LongestRecipes      // 5. top 5 by cooking_time_minutes
    | CuisineCounts       // 6. groups of cuisine with more than 10 rows
    | CalorieStats        // 7. AVG/MIN/MAX of positive calories_per_serving
    | TopCaloricCuisines  // 8. top 5 cuisines by average calories

  const Catalog: seq<Query> := [
    FirstRecipes, DistinctCuisines, VegetarianRecipes, RecipeCount,
    LongestRecipes, CuisineCounts, CalorieStats, TopCaloricCuisines
  ]

  /** A value SQLite hands back in a result row. */
  datatype Value = Null | Integer(i: int) | Text(s: string)

  type Row = seq<Value>

  /**
   * `OperationalError` is the only class the blocks catch; `OtherSqlError`
   * stands for every other exception a block can raise, whether or not it
   * is a `sqlite3` error, and is the one case that escapes a block.
   */
  datatype SqlError = OperationalError(message: string) | OtherSqlError(message: string)

  /** Executing one query on the cursor and fetching its rows. */
  datatype Execution = Fetched(rows: seq<Row>) | Raised(error: SqlError)

  /** The database on one fixed table: what each query's execution gives. */
  type Database = Query -> Execution

  /** What one block of `run_queries` reports. */
  datatype Outcome = Reported(query: Query, rows: seq<Row>) | Skipped(query: Query)

  /** The run either finishes all blocks, or an uncaught error escapes after some. */
  datatype RunResult =
    | Completed(outcomes: seq<Outcome>)
    | Aborted(outcomes: seq<Outcome>, error: SqlError)

  /** The error of an execution is not the `sqlite3.OperationalError` that each block catches. */
  predicate Escapes(e: Execution): (b: bool)
    ensures b ==> e.Raised?
    ensures e.Fetched? ==> !b
    ensures e.Raised? ==> (b <==> !e.error.OperationalError?)
  {
    e.Raised? && e.error.OtherSqlError?
  }

  /** One `try`/`except` block on its own. */
  function OutcomeOf(q: Query, e: Execution): (o: Outcome)
    requires !Escapes(e)
    ensures o.query == q
    ensures o.Skipped? <==> e.Raised?
    ensures o.Reported? ==> o.rows == e.rows
  {
    match e
    case Fetched(rows) => Reported(q, rows)
    case Raised(_) => Skipped(q)
  }

  /** Position in `qs` of the first query whose error escapes, or `|qs|` if none does. */
  function FirstEscape(db: Database, qs: seq<Query>): (n: nat)
    ensures n <= |qs|
    ensures forall j :: 0 <= j < n ==> !Escapes(db(qs[j]))
    ensures n < |qs| ==> Escapes(db(qs[n]))
  {
    if qs == [] then 0
    else if Escapes(db(qs[0])) then 0
    else 1 + FirstEscape(db, qs[1..])
  }

  /**
   * Reference semantics of running the blocks for `qs` in order: each block
   * up to the first escaping error reports its own outcome, and the run
   * completes only if no error escapes.
   */
  function RunAll(db: Database, qs: seq<Query>): (r: RunResult)
    ensures r.Completed? <==> forall i :: 0 <= i < |qs| ==> !Escapes(db(qs[i]))
  {
    var n := FirstEscape(db, qs);
    var os := seq(n, i requires 0 <= i < n => OutcomeOf(qs[i], db(qs[i])));
    if n == |qs| then Completed(os) else Aborted(os, db(qs[n]).error)
  }

  /**
   * The eight blocks of `run_queries`, as one loop over the catalog they
   * follow. `executed` lists the queries handed to the cursor, in order.
   */
  method RunCatalog(db: Database, catalog: seq<Query>) returns (r: RunResult, executed: seq<Query>)
    ensures r == RunAll(db, catalog)
    ensures r.Completed? ==> |r.outcomes| == |catalog| && executed == catalog
    ensures r.Aborted? ==> |r.outcomes| < |catalog| && executed == catalog[..|r.outcomes| + 1]
  {
    var outcomes: seq<Outcome> := [];
    executed := [];
    for i := 0 to |catalog|
      invariant executed == catalog[..i]
      invariant |outcomes| == i
      invariant forall j :: 0 <= j < i ==>
        !Escapes(db(catalog[j])) && outcomes[j] == OutcomeOf(catalog[j], db(catalog[j]))
    {
      var q := catalog[i];
      executed := executed + [q];
      var e := db(q);
      match e
      case Fetched(rows) =>
        outcomes := outcomes + [Reported(q, rows)];
      case Raised(OperationalError(_)) =>
        outcomes := outcomes + [Skipped(q)];
      case Raised(OtherSqlError(_)) =>
        FirstEscapeAt(db, catalog, i);
        return Aborted(outcomes, e.error), executed;
    }
    FirstEscapeAt(db, catalog, |catalog|);
    r := Completed(outcomes);
  }

  /** `run_queries` on the fixed catalog. */
  method RunQueries(db: Database) returns (r: RunResult, executed: seq<Query>)
    ensures r == RunAll(db, Catalog)
    ensures r.Completed? ==> |r.outcomes| == |Catalog| && executed == Catalog
    ensures r.Aborted? ==> |r.outcomes| < |Catalog| && executed == Catalog[..|r.outcomes| + 1]
  {
    r, executed := RunCatalog(db, Catalog);
  }

  /** The first escaping position is pinned down by the blocks before and at it. */
  lemma {:induction false} FirstEscapeAt(db: Database, qs: seq<Query>, n: nat)
    requires n <= |qs|
    requires forall j :: 0 <= j < n ==> !Escapes(db(qs[j]))
    requires n < |qs| ==> Escapes(db(qs[n]))
    ensures FirstEscape(db, qs) == n
  {
    if n > 0 {
      assert !Escapes(db(qs[0]));
      FirstEscapeAt(db, qs[1..], n - 1);
    }
  }

  /** Without an escaping error the run reports one outcome per query, in catalog order. */
  lemma CompletesInOrder(db: Database, qs: seq<Query>)
    requires forall i :: 0 <= i < |qs| ==> !Escapes(db(qs[i]))
    ensures RunAll(db, qs).Completed?
    ensures |RunAll(db, qs).outcomes| == |qs|
    ensures forall k :: 0 <= k < |qs| ==> RunAll(db, qs).outcomes[k].query == qs[k]
    ensures forall k :: 0 <= k < |qs| ==>
      (RunAll(db, qs).outcomes[k].Skipped? <==> db(qs[k]).Raised?)
    ensures forall k :: 0 <= k < |qs| && db(qs[k]).Fetched? ==>
      RunAll(db, qs).outcomes[k] == Reported(qs[k], db(qs[k]).rows)
  {
    FirstEscapeAt(db, qs, |qs|);
  }

  /**
   * Skip isolation: making query `k` raise `OperationalError` changes only
   * outcome `k`, which becomes a skip; every later block still runs and
   * reports what it reported before.
   */
  lemma SkipIsolated(db: Database, db': Database, qs: seq<Query>, k: nat, msg: string)
    requires k < |qs|
    requires db'(qs[k]) == Raised(OperationalError(msg))
    requires forall i :: 0 <= i < |qs| && i != k ==> db'(qs[i]) == db(qs[i])
    requires !Escapes(db(qs[k]))
    ensures RunAll(db', qs).Completed? == RunAll(db, qs).Completed?
    ensures |RunAll(db', qs).outcomes| == |RunAll(db, qs).outcomes|
    ensures k < |RunAll(db', qs).outcomes| ==>
      RunAll(db', qs).outcomes == RunAll(db, qs).outcomes[k := Skipped(qs[k])]
    ensures k >= |RunAll(db', qs).outcomes| ==> RunAll(db', qs) == RunAll(db, qs)
    ensures RunAll(db', qs).Aborted? ==> RunAll(db', qs).error == RunAll(db, qs).error
  {
    var n := FirstEscape(db, qs);
    FirstEscapeAt(db', qs, n);
  }

  /**
   * A table lacking `cuisine`: the four queries that read it (1, 2, 6 and 8)
   * are skipped, and the other four still report their rows.
   */
  lemma MissingCuisineSkipsCuisineQueries(db: Database, msg: string)
    requires db(FirstRecipes) == Raised(OperationalError(msg))
    requires db(DistinctCuisines) == Raised(OperationalError(msg))
    requires db(CuisineCounts) == Raised(OperationalError(msg))
    requires db(TopCaloricCuisines) == Raised(OperationalError(msg))
    requires db(VegetarianRecipes).Fetched? && db(RecipeCount).Fetched?
    requires db(LongestRecipes).Fetched? && db(CalorieStats).Fetched?
    ensures RunAll(db, Catalog).Completed?
    ensures RunAll(db, Catalog).outcomes == [
      Skipped(FirstRecipes),
      Skipped(DistinctCuisines),
      Reported(VegetarianRecipes, db(VegetarianRecipes).rows),
      Reported(RecipeCount, db(RecipeCount).rows),
      Reported(LongestRecipes, db(LongestRecipes).rows),
      Skipped(CuisineCounts),
      Reported(CalorieStats, db(CalorieStats).rows),
      Skipped(TopCaloricCuisines)]
  {
    CuisineQueriesSkipped(db, Catalog);
  }

  /** The same run over any list holding the catalog's eight queries in its order. */
  lemma CuisineQueriesSkipped(db: Database, qs: seq<Query>)
    requires |qs| == 8
    requires qs[0] == FirstRecipes && qs[1] == DistinctCuisines
    requires qs[2] == VegetarianRecipes && qs[3] == RecipeCount
    requires qs[4] == LongestRecipes && qs[5] == CuisineCounts
    requires qs[6] == CalorieStats && qs[7] == TopCaloricCuisines
    requires db(FirstRecipes).Raised? && db(FirstRecipes).error.OperationalError?
    requires db(DistinctCuisines).Raised? && db(DistinctCuisines).error.OperationalError?
    requires db(CuisineCounts).Raised? && db(CuisineCounts).error.OperationalError?
    requires db(TopCaloricCuisines).Raised? && db(TopCaloricCuisines).error.OperationalError?
    requires db(VegetarianRecipes).Fetched? && db(RecipeCount).Fetched?
    requires db(LongestRecipes).Fetched? && db(CalorieStats).Fetched?
    ensures RunAll(db, qs).Completed?
    ensures RunAll(db, qs).outcomes == [
      Skipped(FirstRecipes),
      Skipped(DistinctCuisines),
      Reported(VegetarianRecipes, db(VegetarianRecipes).rows),
      Reported(RecipeCount, db(RecipeCount).rows),
      Reported(LongestRecipes, db(LongestRecipes).rows),
      Skipped(CuisineCounts),
      Reported(CalorieStats, db(CalorieStats).rows),
      Skipped(TopCaloricCuisines)]
  {
    forall i | 0 <= i < |qs| ensures !Escapes(db(qs[i])) {
      match qs[i]
      case FirstRecipes =>
      case DistinctCuisines =>
      case CuisineCounts =>
      case TopCaloricCuisines =>
      case VegetarianRecipes =>
      case RecipeCount =>
      case LongestRecipes =>
      case CalorieStats =>
    }
    CompletesInOrder(db, qs);
  }
}
