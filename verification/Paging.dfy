/** Offset/limit paging over a list of matches, shared by the query log and the audit log. */
module Paging {
  function Min(a: nat, b: nat): nat {
    if a < b then a else b
  }

  /** The page of at most `limit` items that starts at `offset`. */
  function Page<T>(s: seq<T>, offset: nat, limit: nat): seq<T> {
    s[Min(offset, |s|)..Min(offset + limit, |s|)]
  }

  /** Consecutive pages of size `limit` from `start` on, joined. */
  function Pages<T>(s: seq<T>, limit: nat, start: nat, pages: nat): seq<T>
    decreases pages
  {
    if pages == 0 then [] else Page(s, start, limit) + Pages(s, limit, start + limit, pages - 1)
  }

  /** The offset after that many pages. */
  function Next(limit: nat, start: nat, pages: nat): (r: nat)
    ensures limit > 0 ==> r >= start + pages
    ensures r >= start
    decreases pages
  {
    if pages == 0 then start else Next(limit, start + limit, pages - 1)
  }

  /** Consecutive pages tile the list: no item is skipped and none is repeated. */
  lemma {:induction false} PagesTile<T>(s: seq<T>, limit: nat, start: nat, pages: nat)
    ensures Pages(s, limit, start, pages) == s[Min(start, |s|)..Min(Next(limit, start, pages), |s|)]
    decreases pages
  {
    if pages > 0 {
      PagesTile(s, limit, start + limit, pages - 1);
    }
  }

  /** Growing the list by one item grows the page exactly while the page is open. */
  lemma PageSnoc<T>(s: seq<T>, x: T, offset: nat, limit: nat)
    ensures Page(s + [x], offset, limit) ==
      if |s| < offset || |Page(s, offset, limit)| >= limit then Page(s, offset, limit) else Page(s, offset, limit) + [x]
  {
    var t := s + [x];
    if |s| < offset || |s| >= offset + limit {
      assert Page(t, offset, limit) == Page(s, offset, limit);
    } else {
      assert Page(t, offset, limit) == t[offset..|s| + 1] == s[offset..] + [x];
    }
  }

  /** The items that satisfy a filter, in order. */
  function Filter<T>(s: seq<T>, keep: T -> bool): seq<T> {
    if s == [] then [] else
      var rest := Filter(s[..|s| - 1], keep);
      if keep(s[|s| - 1]) then rest + [s[|s| - 1]] else rest
  }

  lemma FilterSnoc<T>(s: seq<T>, x: T, keep: T -> bool)
    ensures Filter(s + [x], keep) == if keep(x) then Filter(s, keep) + [x] else Filter(s, keep)
  {
    assert (s + [x])[..|s|] == s;
  }

  function Reverse<T>(s: seq<T>): seq<T> {
    if s == [] then [] else Reverse(s[1..]) + [s[0]]
  }
}
