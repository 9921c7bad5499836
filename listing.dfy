/**
 * The computations of the list handler (GET /api/shorturls, server/index.js):
 * defaulting of `limit` and `page`, the optional search on url or code, and
 * the skip/limit window. The store returns documents in its natural order,
 * which the model takes to be the order of the table.
 */
module Listing {
  import opened ShortUrlSchema

  const DefaultLimit: nat := 10
  const DefaultPage: nat := 1

  /**
   * `parseInt(x) || d`: an absent or unparsable parameter (None) and a zero
   * are falsy, so they fall back to the default.
   */
  function OrDefault(x: Option<nat>, d: nat): (r: nat)
    requires d >= 1
    ensures r >= 1
    ensures x.Some? && x.value != 0 ==> r == x.value
    ensures x.None? || x.value == 0 ==> r == d
  {
    if x.Some? && x.value != 0 then x.value else d
  }

  function ToLower(c: char): char {
    if 'A' <= c <= 'Z' then (c as int - 'A' as int + 'a' as int) as char else c
  }

  function Lowered(s: string): (r: string)
    ensures |r| == |s| && forall i :: 0 <= i < |s| ==> r[i] == ToLower(s[i])
  {
    seq(|s|, i requires 0 <= i < |s| => ToLower(s[i]))
  }

  /** `q` occurs in `s` at position `at` when letter case is ignored. */
  predicate OccursAt(s: string, q: string, at: nat)
    requires at + |q| <= |s|
  {
    forall j :: 0 <= j < |q| ==> ToLower(s[at + j]) == ToLower(q[j])
  }

  /** The `$regex: q, $options: "i"` test, for a `q` read as plain text. */
  predicate ContainsIgnoringCase(s: string, q: string) {
    exists at: nat :: at + |q| <= |s| && OccursAt(s, q, at)
  }

  /**
   * The search predicate: no query (or the empty query, which is falsy) keeps
   * every record; otherwise url or code must contain q, ignoring case.
   */
  predicate Matches(r: Record, q: Option<string>) {
    || q.None?
    || q.value == ""
    || ContainsIgnoringCase(r.url, q.value)
    || ContainsIgnoringCase(r.code, q.value)
  }

  /** `ShortUrl.find(searchQuery)`: the matching records, in table order. */
  function Filter(t: seq<Record>, q: Option<string>): (r: seq<Record>)
    ensures |r| <= |t|
    ensures forall i :: 0 <= i < |r| ==> r[i] in t && Matches(r[i], q)
    ensures forall i :: 0 <= i < |t| && Matches(t[i], q) ==> t[i] in r
  {
    if t == [] then []
    else (if Matches(t[0], q) then [t[0]] else []) + Filter(t[1..], q)
  }

  /**
   * `.skip((page - 1) * limit).limit(limit)`: the window of at most `limit`
   * elements starting at position `(page - 1) * limit`.
   */
  function Paginate<T>(s: seq<T>, page: nat, limit: nat): (r: seq<T>)
    requires page >= 1
    ensures |r| <= limit
    ensures |r| > 0 ==> (page - 1) * limit + |r| <= |s|
    ensures forall i :: 0 <= i < |r| ==> (page - 1) * limit + i < |s| && r[i] == s[(page - 1) * limit + i]
    ensures |r| == limit || |r| == if (page - 1) * limit < |s| then |s| - (page - 1) * limit else 0
  {
    var skip := (page - 1) * limit;
    if skip >= |s| then []
    else if skip + limit <= |s| then s[skip..skip + limit]
    else s[skip..]
  }

  /** Without a query the search keeps the whole table, in order. */
  lemma {:induction false} NoQueryKeepsAll(t: seq<Record>, q: Option<string>)
    requires q.None? || q.value == ""
    ensures Filter(t, q) == t
  {
    if t != [] {
      NoQueryKeepsAll(t[1..], q);
      assert t == [t[0]] + t[1..];
    }
  }

  /** `r` is `t` with some elements left out, the rest in their original order. */
  predicate IsSubsequence<T(==)>(r: seq<T>, t: seq<T>)
    decreases |t|
  {
    if r == [] then true
    else if t == [] then false
    else (r[0] == t[0] && IsSubsequence(r[1..], t[1..])) || IsSubsequence(r, t[1..])
  }

  /** The search only drops records: what it keeps stays in table order. */
  lemma {:induction false} FilterKeepsOrder(t: seq<Record>, q: Option<string>)
    ensures IsSubsequence(Filter(t, q), t)
  {
    if t != [] {
      var rest := Filter(t[1..], q);
      FilterKeepsOrder(t[1..], q);
      if Matches(t[0], q) {
        var f := [t[0]] + rest;
        assert Filter(t, q) == f;
        assert f[0] == t[0] && f[1..] == rest;
      } else {
        assert Filter(t, q) == rest;
      }
    }
  }

  /** A record is always found by its own code, in any letter case. */
  lemma FoundByOwnCode(r: Record)
    ensures Matches(r, Some(r.code))
    ensures Matches(r, Some(Lowered(r.code)))
  {
    assert OccursAt(r.code, r.code, 0);
    assert OccursAt(r.code, Lowered(r.code), 0);
  }

  /** Letter case in the query does not change the outcome of the search. */
  lemma SearchIgnoresQueryCase(s: string, q: string)
    ensures ContainsIgnoringCase(s, q) <==> ContainsIgnoringCase(s, Lowered(q))
  {
    if ContainsIgnoringCase(s, q) {
      var at: nat :| at + |q| <= |s| && OccursAt(s, q, at);
      assert OccursAt(s, Lowered(q), at);
    }
    if ContainsIgnoringCase(s, Lowered(q)) {
      var at: nat :| at + |q| <= |s| && OccursAt(s, Lowered(q), at);
      assert OccursAt(s, q, at);
    }
  }

  /**
   * Pages tile the search result: the element at position i appears on page
   * i / limit + 1, at position i % limit.
   */
  lemma PagesCoverAll<T>(s: seq<T>, limit: nat, i: nat)
    requires limit >= 1 && i < |s|
    ensures var page := i / limit + 1;
            i % limit < |Paginate(s, page, limit)| && Paginate(s, page, limit)[i % limit] == s[i]
  {
    var page := i / limit + 1;
    assert (page - 1) * limit + i % limit == i;
    var r := Paginate(s, page, limit);
    assert (page - 1) * limit <= i;
  }
}
