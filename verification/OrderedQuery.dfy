/**
  `SELECT … ORDER BY x, y, id LIMIT n`, the shape of both queries the dispatcher and the
  reporter page through.  A row is known by its primary key, a number here; `rank` gives every
  row that satisfies the WHERE clause its two leading sort columns.
 */
module OrderedQuery {
  import opened Sequences

  type Row = nat

  type Ranking = map<Row, (int, int)>

  predicate Before(rank: Ranking, a: Row, b: Row)
    requires a in rank && b in rank
  {
    rank[a].0 < rank[b].0
    || (rank[a].0 == rank[b].0 && rank[a].1 < rank[b].1)
    || (rank[a] == rank[b] && a < b)
  }

  predicate IsFirst(rank: Ranking, rows: set<Row>, first: Row)
    requires rows <= rank.Keys
  {
    first in rows && forall r :: r in rows && r != first ==> Before(rank, first, r)
  }

  lemma {:induction false} FirstExists(rank: Ranking, rows: set<Row>)
    requires rows != {} && rows <= rank.Keys
    ensures exists first :: IsFirst(rank, rows, first)
    decreases rows
  {
    var r :| r in rows;
    if rows == {r} {
      assert IsFirst(rank, rows, r);
    } else {
      FirstExists(rank, rows - {r});
      var f :| IsFirst(rank, rows - {r}, f);
      var first := if Before(rank, f, r) then f else r;
      forall q | q in rows && q != first
        ensures Before(rank, first, q)
      {
        assert q == r || q in rows - {r};
      }
      assert IsFirst(rank, rows, first);
    }
  }

  function First(rank: Ranking): (first: Row)
    requires rank.Keys != {}
    ensures IsFirst(rank, rank.Keys, first)
  {
    FirstExists(rank, rank.Keys);
    var first :| first in rank.Keys && IsFirst(rank, rank.Keys, first);
    first
  }

  function Page(rank: Ranking, limit: nat): seq<Row>
    decreases limit
  {
    if limit == 0 || rank.Keys == {} then []
    else [First(rank)] + Page(rank - {First(rank)}, limit - 1)
  }

  /** Rows listed each once, in order, all of them matching. */
  predicate Ordered(rank: Ranking, page: seq<Row>) {
    && (forall i :: 0 <= i < |page| ==> page[i] in rank)
    && (forall i, j :: 0 <= i < j < |page| ==> Before(rank, page[i], page[j]))
  }

  /** A matching row that is not listed comes after every row that is. */
  predicate LeavesLater(rank: Ranking, page: seq<Row>) {
    forall r, i :: r in rank && r !in page && 0 <= i < |page| && page[i] in rank ==> Before(rank, page[i], r)
  }

  /** A page is as long as the limit allows, in order, and leaves out only later rows. */
  lemma {:induction false} PageSpec(rank: Ranking, limit: nat)
    ensures |Page(rank, limit)| == if |rank.Keys| < limit then |rank.Keys| else limit
    ensures Ordered(rank, Page(rank, limit))
    ensures LeavesLater(rank, Page(rank, limit))
    decreases limit
  {
    if limit != 0 && rank.Keys != {} {
      var first := First(rank);
      PageSpec(rank - {first}, limit - 1);
      PrependFirst(rank, first, Page(rank - {first}, limit - 1));
      WithoutFirst(rank, first);
    }
  }

  lemma WithoutFirst(rank: Ranking, first: Row)
    requires first in rank
    ensures |(rank - {first}).Keys| == |rank.Keys| - 1
  {
    assert (rank - {first}).Keys == rank.Keys - {first};
  }

  lemma PrependFirst(rank: Ranking, first: Row, tail: seq<Row>)
    requires IsFirst(rank, rank.Keys, first)
    requires Ordered(rank - {first}, tail) && LeavesLater(rank - {first}, tail)
    ensures Ordered(rank, [first] + tail) && LeavesLater(rank, [first] + tail)
  {
    var rest, page := rank - {first}, [first] + tail;
    forall i, j | 0 <= i < j < |page|
      ensures page[i] in rank && page[j] in rank && Before(rank, page[i], page[j])
    {
      assert page[j] == tail[j - 1] && page[j] in rest;
      if i > 0 {
        assert Before(rest, tail[i - 1], tail[j - 1]);
      }
    }
    forall r, i | r in rank && r !in page && 0 <= i < |page| && page[i] in rank
      ensures Before(rank, page[i], r)
    {
      assert page[0] == first && r != first;
      if i > 0 {
        assert Before(rest, tail[i - 1], r);
      }
    }
  }

  /** The order of a page, on the columns: by the first, then the second, then the key, all ascending. */
  lemma PageAscending(rank: Ranking, limit: nat)
    ensures var page := Page(rank, limit);
            && (forall i :: 0 <= i < |page| ==> page[i] in rank)
            && (forall i, j :: 0 <= i < j < |page| ==>
                  var a, b := rank[page[i]], rank[page[j]];
                  a.0 < b.0 || (a.0 == b.0 && (a.1 < b.1 || (a.1 == b.1 && page[i] < page[j]))))
            && (forall i, r :: 0 <= i < |page| && r in rank && r !in page ==>
                  var a, b := rank[page[i]], rank[r];
                  a.0 < b.0 || (a.0 == b.0 && (a.1 < b.1 || (a.1 == b.1 && page[i] < r))))
  {
    PageSpec(rank, limit);
    var page := Page(rank, limit);
    forall i, j | 0 <= i < j < |page|
      ensures rank[page[i]].0 <= rank[page[j]].0
    {
      assert Before(rank, page[i], page[j]);
    }
    forall i, r | 0 <= i < |page| && r in rank && r !in page
      ensures rank[page[i]].0 <= rank[r].0
    {
      assert Before(rank, page[i], r);
    }
  }

  /** The matching rows that rank before a row. */
  function Ahead(rank: Ranking, r: Row): set<Row>
    requires r in rank
  {
    set q | q in rank && Before(rank, q, r)
  }

  /** A matching row is on the page exactly when fewer than `limit` matching rows rank before it. */
  lemma {:induction false} PageMemberIff(rank: Ranking, limit: nat, r: Row)
    requires r in rank
    ensures r in Page(rank, limit) <==> |Ahead(rank, r)| < limit
    decreases limit
  {
    if limit != 0 {
      var first := First(rank);
      if r == first {
        assert Ahead(rank, r) == {};
      } else {
        var rest := rank - {first};
        PageMemberIff(rest, limit - 1, r);
        assert Ahead(rank, r) == Ahead(rest, r) + {first};
      }
    }
  }

  /** The rows of a page match, and are those that fewer than `limit` matching rows rank before. */
  lemma PageExact(rank: Ranking, limit: nat, r: Row)
    ensures r in Page(rank, limit) <==> r in rank && |Ahead(rank, r)| < limit
  {
    PageSpec(rank, limit);
    if r in rank {
      PageMemberIff(rank, limit, r);
    }
  }

  /** No row is listed twice. */
  lemma PageDistinct(rank: Ranking, limit: nat)
    ensures Distinct(Page(rank, limit))
  {
    PageSpec(rank, limit);
    var page := Page(rank, limit);
    forall i, j | 0 <= i < j < |page|
      ensures page[i] != page[j]
    {
      assert Before(rank, page[i], page[j]);
    }
  }

  /** When the limit is not reached every matching row is listed. */
  lemma PageComplete(rank: Ranking, limit: nat, r: Row)
    requires |rank.Keys| <= limit && r in rank
    ensures r in Page(rank, limit)
  {
    PageSpec(rank, limit);
    PageDistinct(rank, limit);
    var page := Page(rank, limit);
    var listed := Elements(page);
    DistinctCount(page);
    assert listed <= rank.Keys;
    if r !in page {
      SubsetCount(listed + {r}, rank.Keys);
    }
  }

  lemma {:induction false} DistinctCount(s: seq<Row>)
    requires Distinct(s)
    ensures |Elements(s)| == |s|
  {
    if s != [] {
      var n := |s| - 1;
      DistinctCount(s[..n]);
      assert s == s[..n] + [s[n]];
      assert Elements(s) == Elements(s[..n]) + {s[n]};
    }
  }

  lemma {:induction false} SubsetCount(a: set<Row>, b: set<Row>)
    requires a <= b
    ensures |a| <= |b|
  {
    if a != {} {
      var x :| x in a;
      SubsetCount(a - {x}, b - {x});
    }
  }
}
