/** Paging a result set out to a file (backend/internal/api/export.go). */
module Export {
  import opened Common

  const PAGE := 1000

  /** A fixed result set behind Search, and where things go wrong: the offsets at which
      storage fails and those whose page the consumer no longer takes. */
  datatype Results<!Row> = Results(rows: seq<Row>, fails: set<nat>, stops: set<nat>) {
    function Search(offset: nat, limit: nat): Option<seq<Row>> {
      if offset in fails then None
      else if offset >= |rows| then Some([])
      else if |rows| - offset <= limit then Some(rows[offset..])
      else Some(rows[offset..offset + limit])
    }
  }

  datatype Page<Row> = Page(offset: nat, rows: seq<Row>)

  function Joined<Row>(ps: seq<Page<Row>>): seq<Row> {
    if ps == [] then [] else Joined(ps[..|ps| - 1]) + ps[|ps| - 1].rows
  }

  /** Pages handed over so far: they join to a prefix of the rows, each starts where the
      one before ended, and none is empty. */
  predicate Paged<Row(==)>(rows: seq<Row>, ps: seq<Page<Row>>, n: nat) {
    && n <= |rows| && Joined(ps) == rows[..n]
    && forall k :: 0 <= k < |ps| ==> ps[k].offset == |Joined(ps[..k])| && 1 <= |ps[k].rows| <= 1000
  }

  lemma PagedOn<Row>(rows: seq<Row>, ps: seq<Page<Row>>, n: nat, m: nat)
    requires Paged(rows, ps, n) && n < m <= |rows| && m <= n + 1000
    ensures Paged(rows, ps + [Page(n, rows[n..m])], m)
  {
    var more := ps + [Page(n, rows[n..m])];
    assert more[..|ps|] == ps && rows[..n] + rows[n..m] == rows[..m];
    forall k | 0 <= k < |more|
      ensures more[k].offset == |Joined(more[..k])| && 1 <= |more[k].rows| <= 1000
    {
      assert k < |ps| ==> more[..k] == ps[..k];
    }
  }

  /** Every page was found and, but for the last, full and taken. */
  predicate Walked<Row>(res: Results<Row>, ps: seq<Page<Row>>) {
    && (forall k :: 0 <= k < |ps| ==> ps[k].offset !in res.fails)
    && (forall k :: 0 <= k < |ps| - 1 ==> |ps[k].rows| == 1000 && ps[k].offset !in res.stops)
  }

  predicate LastFull<Row>(res: Results<Row>, ps: seq<Page<Row>>) {
    ps != [] ==> |ps[|ps| - 1].rows| == 1000 && ps[|ps| - 1].offset !in res.stops
  }

  lemma WalkOn<Row>(res: Results<Row>, ps: seq<Page<Row>>, p: Page<Row>)
    requires Walked(res, ps) && LastFull(res, ps) && p.offset !in res.fails
    ensures Walked(res, ps + [p])
  {
  }

  /** pageRows: the pages given to emit, in order, and how many times Search was asked.
      Unless storage fails or the consumer stops, they are exactly the first limit rows,
      each once and in order; otherwise a prefix of them. */
  method PageRows<Row(==)>(res: Results<Row>, limit: nat) returns (ps: seq<Page<Row>>, asked: nat)
    ensures Paged(res.rows, ps, |Joined(ps)|) && |Joined(ps)| <= Min(limit, |res.rows|)
    ensures |Joined(ps)| == Min(limit, |res.rows|)
            || |Joined(ps)| in res.fails
            || (ps != [] && ps[|ps| - 1].offset in res.stops)
    ensures |ps| <= asked <= |ps| + 1
    ensures Walked(res, ps)
  {
    hide Paged, Walked, Joined;
    ps, asked := [], 0;
    NonePaged(res);
    var remaining := limit;
    while remaining > 0
      invariant 0 <= remaining <= limit && limit - remaining <= |res.rows|
      invariant Paged(res.rows, ps, limit - remaining) && |Joined(ps)| == limit - remaining
      invariant asked == |ps|
      invariant Walked(res, ps)
      invariant remaining > 0 ==> LastFull(res, ps)
      decreases remaining
    {
      var page := PAGE;
      if remaining < page {
        page := remaining;
      }
      var offset := limit - remaining;
      var found := res.Search(offset, page);
      asked := asked + 1;
      if found.None? {
        return;
      }
      Found(res, offset, page);
      var rows := found.value;
      if rows == [] {
        return;
      }
      PagedOn(res.rows, ps, offset, offset + |rows|);
      PagedLength(res.rows, ps + [Page(offset, rows)], offset + |rows|);
      WalkOn(res, ps, Page(offset, rows));
      ps := ps + [Page(offset, rows)];
      if offset in res.stops {
        return;
      }
      remaining := remaining - |rows|;
      if |rows| < page {
        return;
      }
    }
  }

  lemma NonePaged<Row>(res: Results<Row>)
    ensures Paged(res.rows, [], 0) && |Joined<Row>([])| == 0 && Walked(res, [])
  {
  }

  lemma PagedLength<Row>(rows: seq<Row>, ps: seq<Page<Row>>, n: nat)
    requires Paged(rows, ps, n)
    ensures |Joined(ps)| == n
  {
  }

  lemma Found<Row>(res: Results<Row>, offset: nat, page: nat)
    requires offset <= |res.rows| && res.Search(offset, page).Some?
    ensures var rows := res.Search(offset, page).value;
            && |rows| == Min(page, |res.rows| - offset) && rows == res.rows[offset..offset + |rows|]
            && offset !in res.fails
  {
  }
}
