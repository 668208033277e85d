/**
 * The admin list pager: how many pages there are, whether the pager shows at all,
 * which of its four buttons are enabled and which page each leads to, and the
 * query string the router is sent to.
 */
module Pagination {
  import opened Wrappers
  import opened Text

  /** `Math.ceil(totalCount / itemsPerPage)`, as integer division rounded up. */
  function TotalPages(totalCount: nat, itemsPerPage: nat): (pages: nat)
    requires itemsPerPage > 0
    ensures pages * itemsPerPage >= totalCount
    ensures pages == 0 || (pages - 1) * itemsPerPage < totalCount
  {
    var n := totalCount + itemsPerPage - 1;
    var q := n / itemsPerPage;
    assert n == q * itemsPerPage + n % itemsPerPage;
    q
  }

  /** The two bounds pin the page count down: it is the ceiling and nothing else. */
  lemma {:induction false} TotalPagesIsUnique(totalCount: nat, itemsPerPage: nat, pages: nat)
    requires itemsPerPage > 0
    requires pages * itemsPerPage >= totalCount
    requires pages == 0 || (pages - 1) * itemsPerPage < totalCount
    ensures pages == TotalPages(totalCount, itemsPerPage)
  {
    var p := TotalPages(totalCount, itemsPerPage);
  }

  /** `if (totalPages <= 1) return null`: the pager shows only with two pages or more. */
  predicate Rendered(totalPages: int) {
    totalPages > 1
  }

  /**
   * The tables show the pager only when `totalCount > itemsPerPage`; that is the
   * same as the pager's own test on its page count.
   */
  lemma {:induction false} GuardAgreesWithPageCount(totalCount: nat, itemsPerPage: nat)
    requires itemsPerPage > 0
    ensures totalCount > itemsPerPage <==> Rendered(TotalPages(totalCount, itemsPerPage))
    ensures TotalPages(totalCount, itemsPerPage) == 0 <==> totalCount == 0
  {
    var p := TotalPages(totalCount, itemsPerPage);
    if p > 1 {
      assert (p - 1) * itemsPerPage >= 1 * itemsPerPage;
    }
    if p == 1 {
      assert totalCount > 0;
    }
  }

  datatype Button = First | Previous | Next | Last

  /** First and previous are disabled on page 1; next and last on the last page. */
  predicate Disabled(b: Button, currentPage: int, totalPages: int) {
    match b
    case First | Previous => currentPage == 1
    case Next | Last => currentPage == totalPages
  }

  /** The page a button asks for. */
  function Target(b: Button, currentPage: int, totalPages: int): (page: int)
    ensures 1 <= currentPage <= totalPages && !Disabled(b, currentPage, totalPages) ==> 1 <= page <= totalPages
    ensures !Disabled(b, currentPage, totalPages) ==> page != currentPage
  {
    match b
    case First => 1
    case Previous => currentPage - 1
    case Next => currentPage + 1
    case Last => totalPages
  }

  /** On a page past the end (a stale `page` parameter) next stays enabled and leads further out. */
  lemma PastTheEndExample()
    ensures !Disabled(Next, 5, 3) && Target(Next, 5, 3) == 6
  {
  }

  /** A query string as `URLSearchParams` holds it: name-value pairs in order. */
  type Query = seq<(string, string)>

  function CountKey(q: Query, name: string): nat
    decreases |q|
  {
    if |q| == 0 then 0 else (if q[0].0 == name then 1 else 0) + CountKey(q[1..], name)
  }

  /** `params.get(name)`: the value of the first pair with that name. */
  function Get(q: Query, name: string): (r: Option<string>)
    ensures r.None? <==> CountKey(q, name) == 0
    decreases |q|
  {
    if |q| == 0 then None else if q[0].0 == name then Some(q[0].1) else Get(q[1..], name)
  }

  /** The pairs whose name is not `name`, in order. */
  function WithoutKey(q: Query, name: string): (r: Query)
    ensures |r| <= |q|
    ensures CountKey(r, name) == 0
    ensures CountKey(q, name) == 0 ==> r == q
    ensures forall n :: n != name ==> CountKey(r, n) == CountKey(q, n)
    decreases |q|
  {
    if |q| == 0 then []
    else if q[0].0 == name then WithoutKey(q[1..], name)
    else [q[0]] + WithoutKey(q[1..], name)
  }

  /**
   * `params.set(name, value)`: the first pair with that name takes the new value
   * in place and the later ones are removed; with none, the pair is appended.
   */
  function SetParam(q: Query, name: string, value: string): (r: Query)
    ensures CountKey(r, name) == 1
    ensures Get(r, name) == Some(value)
    ensures WithoutKey(r, name) == WithoutKey(q, name)
    ensures CountKey(q, name) == 0 ==> r == q + [(name, value)]
    decreases |q|
  {
    if |q| == 0 then [(name, value)]
    else if q[0].0 == name then
      var rest := WithoutKey(q[1..], name);
      assert ([(name, value)] + rest)[1..] == rest;
      [(name, value)] + rest
    else
      var rest := SetParam(q[1..], name, value);
      assert ([q[0]] + rest)[1..] == rest;
      assert CountKey(q, name) == 0 ==> [q[0]] + rest == q + [(name, value)] by {
        if CountKey(q, name) == 0 {
          assert q == [q[0]] + q[1..];
        }
      }
      [q[0]] + rest
  }

  /** Setting the same page twice is setting it once. */
  lemma {:induction false} SetParamIdempotent(q: Query, name: string, value: string)
    ensures SetParam(SetParam(q, name, value), name, value) == SetParam(q, name, value)
    decreases |q|
  {
    if |q| > 0 {
      if q[0].0 == name {
        var r := SetParam(q, name, value);
        assert r[0] == (name, value) && r[1..] == WithoutKey(q[1..], name);
        assert WithoutKey(r[1..], name) == r[1..];
      } else {
        SetParamIdempotent(q[1..], name, value);
      }
    }
  }

  /** Every other parameter keeps its value. */
  lemma {:induction false} SetParamKeepsOthers(q: Query, name: string, value: string, other: string)
    requires other != name
    ensures Get(SetParam(q, name, value), other) == Get(q, other)
    ensures CountKey(SetParam(q, name, value), other) == CountKey(q, other)
    decreases |q|
  {
    if |q| > 0 && q[0].0 != name {
      SetParamKeepsOthers(q[1..], name, value, other);
    } else if |q| > 0 {
      WithoutKeyKeepsOthers(q[1..], name, other);
    }
  }

  lemma {:induction false} WithoutKeyKeepsOthers(q: Query, name: string, other: string)
    requires other != name
    ensures Get(WithoutKey(q, name), other) == Get(q, other)
    decreases |q|
  {
    if |q| > 0 {
      WithoutKeyKeepsOthers(q[1..], name, other);
    }
  }

  /** `params.toString()` without percent-encoding: `name=value` pairs joined by `&`. */
  function Serialize(q: Query): string
    decreases |q|
  {
    if |q| == 0 then ""
    else if |q| == 1 then q[0].0 + "=" + q[0].1
    else q[0].0 + "=" + q[0].1 + "&" + Serialize(q[1..])
  }

  /** The `URLSearchParams` object `handlePageChange` builds and edits. */
  class SearchParams {
    var entries: Query

    constructor(entries: Query)
      ensures this.entries == entries
    {
      this.entries := entries;
    }

    /** `set(name, value)` */
    method Set(name: string, value: string)
      modifies this
      ensures entries == SetParam(old(entries), name, value)
    {
      entries := SetParam(entries, name, value);
    }
  }

  /** Where `router.push` is sent: the list's base path and a query string. */
  datatype Navigation = Navigation(path: string, query: Query) {
    function Href(): string {
      path + "?" + Serialize(query)
    }
  }

  /**
   * `handlePageChange`: copy the current parameters, overwrite "page", and push
   * the base path with the new query string.
   */
  method HandlePageChange(current: Query, basePath: string, newPage: int) returns (pushed: Navigation)
    ensures pushed.path == basePath
    ensures Get(pushed.query, "page") == Some(IntToString(newPage))
    ensures CountKey(pushed.query, "page") == 1
    ensures WithoutKey(pushed.query, "page") == WithoutKey(current, "page")
  {
    var params := new SearchParams(current);
    params.Set("page", IntToString(newPage));
    pushed := Navigation(basePath, params.entries);
  }
}
