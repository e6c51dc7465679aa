/**
 * Query 6 of `run_queries` over the `cuisine` column of the table:
 *   SELECT cuisine, COUNT(*) AS count FROM t GROUP BY cuisine
 *   HAVING count > 10 ORDER BY count DESC
 * The column is the sequence of its values, one per row; NULL is a key like
 * any other, since GROUP BY puts all NULLs in one group.
 */
module CuisineGroups {
  import opened QueryRunner

  /** One result row: a cuisine and how many rows carry it. */
  datatype Group = Group(key: Value, count: nat)

  /** The HAVING threshold: only groups with more rows than this are reported. */
  const MinCount: nat := 10

  ghost predicate NoDuplicates<T>(s: seq<T>)
  {
    forall i, j :: 0 <= i < j < |s| ==> s[i] != s[j]
  }

  /** Order of ORDER BY count DESC: counts never increase along the result. */
  ghost predicate SortedByCountDesc(s: seq<Group>)
  {
    forall i, j :: 0 <= i < j < |s| ==> s[i].count >= s[j].count
  }

  /** The distinct keys of `keys`, in order of first appearance. */
  function Distinct(keys: seq<Value>): (r: seq<Value>)
    ensures forall x :: x in r <==> x in keys
    ensures NoDuplicates(r)
  {
    if keys == [] then []
    else
      var rest := Distinct(keys[..|keys| - 1]);
      var x := keys[|keys| - 1];
      assert forall y :: y in keys <==> y in keys[..|keys| - 1] || y == x;
      if x in rest then rest else rest + [x]
  }

  /** GROUP BY with COUNT(*): one group per distinct key, counting its rows. */
  function GroupBy(keys: seq<Value>): (g: seq<Group>)
    ensures forall x :: x in keys <==> Group(x, multiset(keys)[x]) in g
    ensures forall e :: e in g ==> e.key in keys && e.count == multiset(keys)[e.key]
    ensures NoDuplicates(g)
  {
    var d := Distinct(keys);
    var g := seq(|d|, i requires 0 <= i < |d| => Group(d[i], multiset(keys)[d[i]]));
    assert forall x :: x in d ==> Group(x, multiset(keys)[x]) in g by {
      forall x | x in d ensures Group(x, multiset(keys)[x]) in g {
        var i :| 0 <= i < |d| && d[i] == x;
        assert g[i] == Group(x, multiset(keys)[x]);
      }
    }
    g
  }

  /** HAVING count > MinCount, with `count` the COUNT(*) alias, keeping the order of the groups. */
  function Having(gs: seq<Group>): (r: seq<Group>)
    ensures forall e :: e in r <==> e in gs && e.count > MinCount
    ensures NoDuplicates(gs) ==> NoDuplicates(r)
  {
    if gs == [] then []
    else
      var rest := Having(gs[1..]);
      assert forall e :: e in gs <==> e == gs[0] || e in gs[1..];
      if gs[0].count > MinCount then [gs[0]] + rest else rest
  }

  /** Insert `e` before the first group whose count is not larger than its own. */
  function Insert(e: Group, s: seq<Group>): (r: seq<Group>)
    requires SortedByCountDesc(s)
    ensures SortedByCountDesc(r)
    ensures multiset(r) == multiset(s) + multiset{e}
  {
    if s == [] then [e]
    else if e.count >= s[0].count then [e] + s
    else
      var rest := Insert(e, s[1..]);
      assert s == [s[0]] + s[1..];
      BoundedByHead(s[0], e, s[1..], rest);
      [s[0]] + rest
  }

  /** A head whose count bounds everything in the tail keeps the sequence sorted. */
  lemma BoundedByHead(h: Group, e: Group, tail: seq<Group>, rest: seq<Group>)
    requires SortedByCountDesc([h] + tail) && SortedByCountDesc(rest)
    requires e.count <= h.count
    requires multiset(rest) == multiset(tail) + multiset{e}
    ensures SortedByCountDesc([h] + rest)
  {
    forall j | 0 <= j < |rest| ensures rest[j].count <= h.count {
      assert rest[j] in multiset(rest);
      if rest[j] != e {
        assert rest[j] in multiset(tail);
        var k :| 0 <= k < |tail| && tail[k] == rest[j];
        assert ([h] + tail)[0] == h && ([h] + tail)[k + 1] == tail[k];
      }
    }
    var t := [h] + rest;
    forall i, j | 0 <= i < j < |t| ensures t[i].count >= t[j].count {
      if i > 0 {
        assert t[i] == rest[i - 1] && t[j] == rest[j - 1];
      } else {
        assert t[j] == rest[j - 1];
      }
    }
  }

  /** ORDER BY count DESC, as an insertion sort. */
  function SortByCountDesc(s: seq<Group>): (r: seq<Group>)
    ensures SortedByCountDesc(r)
    ensures multiset(r) == multiset(s)
  {
    if s == [] then []
    else
      assert s == [s[0]] + s[1..];
      Insert(s[0], SortByCountDesc(s[1..]))
  }

  /** The result rows of query 6. */
  function CountsByCuisine(keys: seq<Value>): (r: seq<Group>)
    ensures SortedByCountDesc(r)
    ensures forall e :: e in r ==> e.count > MinCount
  {
    var h := Having(GroupBy(keys));
    var r := SortByCountDesc(h);
    assert forall e :: e in r ==> e in multiset(h);
    r
  }

  /** A permutation of a sequence without duplicates has none either. */
  lemma PermutationNoDuplicates<T>(s: seq<T>, t: seq<T>)
    requires multiset(s) == multiset(t)
    requires NoDuplicates(s)
    ensures NoDuplicates(t)
  {
    forall i, j | 0 <= i < j < |t| ensures t[i] != t[j] {
      if t[i] == t[j] {
        assert t == t[..j] + [t[j]] + t[j + 1..];
        assert t[i] in t[..j];
        assert multiset(t)[t[i]] >= 2;
        CountAtMostOne(s, t[i]);
        assert false;
      }
    }
  }

  lemma {:induction false} CountAtMostOne<T>(s: seq<T>, x: T)
    requires NoDuplicates(s)
    ensures multiset(s)[x] <= 1
  {
    if s != [] {
      assert s == [s[0]] + s[1..];
      assert NoDuplicates(s[1..]);
      CountAtMostOne(s[1..], x);
      if s[0] == x {
        assert x !in s[1..];
      }
    }
  }

  /**
   * What query 6 returns: every reported group has more than MinCount rows
   * and its true row count, every key with more than MinCount rows is
   * reported, no key is reported twice, and counts never increase.
   */
  lemma CountsByCuisineCorrect(keys: seq<Value>)
    ensures SortedByCountDesc(CountsByCuisine(keys))
    ensures forall e :: e in CountsByCuisine(keys) ==>
      e.count > MinCount && e.key in keys && e.count == multiset(keys)[e.key]
    ensures forall x :: multiset(keys)[x] > MinCount <==> Group(x, multiset(keys)[x]) in CountsByCuisine(keys)
    ensures NoDuplicates(CountsByCuisine(keys))
  {
    var g := GroupBy(keys);
    var h := Having(g);
    var r := CountsByCuisine(keys);
    assert multiset(r) == multiset(h);
    assert forall e :: e in r <==> e in h by {
      forall e ensures e in r <==> e in h {
        assert e in r <==> e in multiset(r);
        assert e in h <==> e in multiset(h);
      }
    }
    forall x ensures multiset(keys)[x] > MinCount <==> Group(x, multiset(keys)[x]) in r {
      if multiset(keys)[x] > MinCount {
        assert x in multiset(keys);
      }
    }
    PermutationNoDuplicates(h, r);
  }

  /** The groups as the rows the cursor fetches: `(cuisine, count)`. */
  function ResultRows(gs: seq<Group>): (rows: seq<Row>)
    ensures |rows| == |gs|
    ensures forall i :: 0 <= i < |gs| ==> rows[i] == [gs[i].key, Integer(gs[i].count)]
  {
    if gs == [] then [] else [[gs[0].key, Integer(gs[0].count)]] + ResultRows(gs[1..])
  }

  /** Every row query 6 fetches has two columns, the second a count above MinCount. */
  lemma Query6RowsAboveThreshold(keys: seq<Value>)
    ensures forall row: Row :: row in ResultRows(CountsByCuisine(keys)) ==>
      |row| == 2 && row[1].Integer? && row[1].i > MinCount
  {
    var gs := CountsByCuisine(keys);
    CountsByCuisineCorrect(keys);
    forall row: Row | row in ResultRows(gs) ensures |row| == 2 && row[1].Integer? && row[1].i > MinCount {
      var i :| 0 <= i < |gs| && ResultRows(gs)[i] == row;
      assert gs[i] in gs;
    }
  }

  /**
   * When the table has a `cuisine` column holding `keys` and no `count`
   * column, the database returns exactly the rows of `CountsByCuisine(keys)`,
   * ties in that order included, and no block's error escapes, the sixth
   * outcome of the run reports the rows of query 6.
   */
  lemma Query6Reported(db: Database, keys: seq<Value>)
    requires db(CuisineCounts) == Fetched(ResultRows(CountsByCuisine(keys)))
    requires forall q :: !Escapes(db(q))
    ensures |RunAll(db, Catalog).outcomes| == 8
    ensures RunAll(db, Catalog).outcomes[5] == Reported(CuisineCounts, ResultRows(CountsByCuisine(keys)))
  {
    CompletesInOrder(db, Catalog);
    assert Catalog[5] == CuisineCounts;
  }
}
