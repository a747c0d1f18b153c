/**
 * The Ctrl/Cmd-K search palette: the short-query gate, the mapping of the
 * search procedure's rows to results, and their ordering by relevance.
 */
module GlobalSearch {
  import opened Wrappers
  import opened Schema
  import Store

  /** A row of the `global_search` procedure's answer. */
  datatype SearchRow = SearchRow(resultType: string, resultId: Id, title: string, subtitle: string, route: string, relevance: real)

  /** A result as the palette lists it. */
  datatype SearchResult = SearchResult(kind: string, id: Id, title: string, subtitle: string, route: string)

  const SearchLimit := 20

  function ToResult(row: SearchRow): SearchResult {
    SearchResult(row.resultType, row.resultId, row.title, row.subtitle, row.route)
  }

  /** The rows mapped one to one, in order. */
  function Mapped(rows: seq<SearchRow>): (r: seq<SearchResult>)
    ensures |r| == |rows|
    ensures forall i :: 0 <= i < |rows| ==> r[i] == ToResult(rows[i])
  {
    seq(|rows|, i requires 0 <= i < |rows| => ToResult(rows[i]))
  }

  function RowId(row: SearchRow): Id { row.resultId }

  /**
   * The sort key of a result: the relevance of the first row with its id,
   * 0 when there is none.
   */
  function Relevance(rows: seq<SearchRow>, id: Id): (k: real)
    ensures (forall row :: row in rows ==> row.resultId != id) ==> k == 0.0
    ensures (exists row :: row in rows && row.resultId == id) ==>
      exists row :: row in rows && row.resultId == id && k == row.relevance
  {
    var found := Lookup(id, rows, RowId);
    if found.Some? then found.value.relevance else 0.0
  }

  /** The sort key is the relevance of the first row with the id, as `find` returns it. */
  lemma RelevanceOfFirstRow(rows: seq<SearchRow>, id: Id, i: nat)
    requires i < |rows| && rows[i].resultId == id
    requires forall j :: 0 <= j < i ==> rows[j].resultId != id
    ensures Relevance(rows, id) == rows[i].relevance
  {
    LookupFirst(id, rows, RowId, i);
  }

  /** `s` by non-increasing `key`. */
  ghost predicate Descending(s: seq<SearchResult>, key: SearchResult -> real) {
    forall p, q :: 0 <= p < q < |s| ==> key(s[p]) >= key(s[q])
  }

  /** The results by non-increasing relevance. */
  ghost predicate ByRelevance(s: seq<SearchResult>, rows: seq<SearchRow>) {
    forall p, q :: 0 <= p < q < |s| ==> Relevance(rows, s[p].id) >= Relevance(rows, s[q].id)
  }

  /** With distinct ids, each result is ranked by its own row's relevance. */
  lemma RelevanceOfOwnRow(rows: seq<SearchRow>, i: nat)
    requires i < |rows|
    requires forall p, q :: 0 <= p < q < |rows| ==> rows[p].resultId != rows[q].resultId
    ensures Relevance(rows, rows[i].resultId) == rows[i].relevance
  {
    var found := Lookup(rows[i].resultId, rows, RowId);
    assert rows[i] in rows && RowId(rows[i]) == rows[i].resultId;
    var row := found.value;
    var j :| 0 <= j < |rows| && rows[j] == row;
    assert j == i;
  }

  /** Exchanges two adjacent elements. */
  method SwapDown(a: array<SearchResult>, j: nat)
    requires 0 < j < a.Length
    modifies a
    ensures a[j - 1] == old(a[j]) && a[j] == old(a[j - 1])
    ensures forall k :: 0 <= k < a.Length && k != j - 1 && k != j ==> a[k] == old(a[k])
    ensures multiset(a[..]) == multiset(old(a[..]))
  {
    ghost var before := a[..];
    a[j - 1], a[j] := a[j], a[j - 1];
    assert a[..] == before[j - 1 := before[j]][j := before[j - 1]];
  }

  /** Moves `a[i]` left past every element of lower key: the prefix of length `i + 1` is then descending. */
  method InsertDescending(a: array<SearchResult>, i: nat, key: SearchResult -> real)
    requires i < a.Length
    requires forall p, q :: 0 <= p < q < i ==> key(a[p]) >= key(a[q])
    modifies a
    ensures forall p, q :: 0 <= p < q <= i ==> key(a[p]) >= key(a[q])
    ensures multiset(a[..]) == multiset(old(a[..]))
  {
    var j := i;
    while j > 0 && key(a[j - 1]) < key(a[j])
      invariant 0 <= j <= i
      invariant forall p, q :: 0 <= p < q <= i && p != j && q != j ==> key(a[p]) >= key(a[q])
      invariant forall q :: j < q <= i ==> key(a[j]) > key(a[q])
      invariant multiset(a[..]) == multiset(old(a[..]))
    {
      SwapDown(a, j);
      j := j - 1;
    }
  }

  /** Sorts `a` in place by non-increasing `key` (the comparator `key(b) - key(a)` of `Array.sort`). */
  method SortDescending(a: array<SearchResult>, key: SearchResult -> real)
    modifies a
    ensures Descending(a[..], key)
    ensures multiset(a[..]) == multiset(old(a[..]))
  {
    var i := 0;
    while i < a.Length
      invariant 0 <= i <= a.Length
      invariant forall p, q :: 0 <= p < q < i ==> key(a[p]) >= key(a[q])
      invariant multiset(a[..]) == multiset(old(a[..]))
    {
      InsertDescending(a, i, key);
      i := i + 1;
    }
  }

  /** The palette's state. */
  class Palette {
    var open: bool
    var results: seq<SearchResult>
    var loading: bool

    constructor ()
      ensures !open && results == [] && !loading
    {
      open, results, loading := false, [], false;
    }

    /** The document key handler: "k" with Cmd or Ctrl toggles the palette. */
    method KeyDown(key: string, metaKey: bool, ctrlKey: bool)
      modifies this`open
      ensures open == if key == "k" && (metaKey || ctrlKey) then !old(open) else old(open)
    {
      if key == "k" && (metaKey || ctrlKey) {
        open := !open;
      }
    }

    /**
     * A search for `query`; `reply` is the procedure's answer. A query
     * shorter than two characters clears the results and calls nothing;
     * a failed call leaves no results.
     */
    method PerformSearch(db: Store.Db, query: string, reply: Store.Reply<seq<SearchRow>>)
      modifies this, db`rpcLog
      ensures open == old(open)
      ensures |query| < 2 ==> results == [] && loading == old(loading) && db.rpcLog == old(db.rpcLog)
      ensures |query| >= 2 ==> !loading && db.rpcLog == old(db.rpcLog) + [Store.GlobalSearch(query, SearchLimit)]
      ensures |query| >= 2 && reply.error.Some? ==> results == []
      ensures |query| >= 2 && reply.error.None? ==>
        var rows := reply.data.GetOr([]);
        && multiset(results) == multiset(Mapped(rows))
        && ByRelevance(results, rows)
    {
      if |query| < 2 {
        results := [];
        return;
      }
      loading := true;
      var r := db.Rpc(Store.GlobalSearch(query, SearchLimit), reply);
      if r.error.Some? {
        results := [];
      } else {
        var rows := r.data.GetOr([]);
        var mapped := Mapped(rows);
        var a := new SearchResult[|mapped|](i requires 0 <= i < |mapped| => mapped[i]);
        assert a[..] == mapped;
        var key := (x: SearchResult) => Relevance(rows, x.id);
        SortDescending(a, key);
        results := a[..];
        assert Descending(results, key);
      }
      loading := false;
    }
  }

  /** A search's results hold each row's result once: same length, same members. */
  lemma SortedResultsAreTheRows(results: seq<SearchResult>, rows: seq<SearchRow>)
    requires multiset(results) == multiset(Mapped(rows))
    ensures |results| == |rows|
    ensures forall i :: 0 <= i < |rows| ==> ToResult(rows[i]) in results
    ensures forall r :: r in results ==> exists i :: 0 <= i < |rows| && r == ToResult(rows[i])
  {
    assert |multiset(results)| == |multiset(Mapped(rows))|;
    forall i | 0 <= i < |rows|
      ensures ToResult(rows[i]) in results
    {
      assert Mapped(rows)[i] in multiset(Mapped(rows));
    }
    forall r | r in results
      ensures exists i :: 0 <= i < |rows| && r == ToResult(rows[i])
    {
      assert r in multiset(Mapped(rows));
      var i :| 0 <= i < |rows| && Mapped(rows)[i] == r;
    }
  }
}
