/**
 * The short-URL REST handlers of server/index.js as methods on one service
 * object whose `records` field stands for the ShortUrl collection.
 *
 * Randomness reaches a handler as an oracle (`o`, read from draw 0 on), the
 * clock as a `now` parameter. Each handler is sequential: the existence checks
 * and the write that follows them see the same table.
 */
module ShortUrlServer {
  import opened ShortUrlSchema
  import opened Codes
  import opened Listing

  /** The error responses the handlers send. */
  datatype Error =
    | UrlRequired      // 400 "URL is required"
    | NotFound         // 404 "Short URL not found"
    | CodeExists       // 409 "Code already exists"
    | UrlExists        // 409 "URL already exists"
    | MaxTriesReached  // 200 (sic) "Max tries reached for unique code generation"

  datatype Result<T> = Ok(value: T) | Err(error: Error)

  /** A response that carries no record: the delete handler's. */
  datatype Outcome = Done | Failed(error: Error)

  /** HTTP status of each error response. */
  function Status(e: Error): (status: nat)
    ensures status == 409 <==> e == CodeExists || e == UrlExists
    ensures status == 200 <==> e == MaxTriesReached
    ensures status == 404 <==> e == NotFound
    ensures status == 400 <==> e == UrlRequired
  {
    match e
    case UrlRequired => 400
    case NotFound => 404
    case CodeExists => 409
    case UrlExists => 409
    case MaxTriesReached => 200
  }

  /** The `error` text of each error response. */
  function Message(e: Error): string {
    match e
    case UrlRequired => "URL is required"
    case NotFound => "Short URL not found"
    case CodeExists => "Code already exists"
    case UrlExists => "URL already exists"
    case MaxTriesReached => "Max tries reached for unique code generation"
  }

  /** Two collisions share status 409; their messages still tell them apart. */
  lemma ErrorsAreDistinguishable(e1: Error, e2: Error)
    requires e1 != e2
    ensures Status(e1) != Status(e2) || Message(e1) != Message(e2)
  {
    if Status(e1) == Status(e2) {
      assert {e1, e2} == {CodeExists, UrlExists};
      assert Message(CodeExists)[0] != Message(UrlExists)[0];
    }
  }

  /** JavaScript truthiness of the body's `url`: absent and "" are both falsy. */
  predicate Given(url: Option<string>) {
    url.Some? && url.value != ""
  }

  /** The update loop's counter limit (`maxTries >= 5`). */
  const MaxTries: nat := 5

  /** A candidate the update loop accepts: no record holds it and it is not the current code. */
  predicate Acceptable(t: seq<Record>, oldCode: string, c: string) {
    !HasCode(t, c) && c != oldCode
  }

  /**
   * Index of the first acceptable candidate at or after `from`, where the
   * candidates are the successive generateCode results from draw 0; index
   * MaxTries (the sixth candidate) ends the search whatever it is.
   */
  function FirstAcceptable(o: Oracle, t: seq<Record>, oldCode: string, from: nat): (n: nat)
    requires from <= MaxTries
    ensures from <= n <= MaxTries
    ensures n < MaxTries ==> Acceptable(t, oldCode, Candidate(o, 0, n))
    ensures forall j :: from <= j < n ==> !Acceptable(t, oldCode, Candidate(o, 0, j))
    decreases MaxTries - from
  {
    if from == MaxTries || Acceptable(t, oldCode, Candidate(o, 0, from)) then from
    else FirstAcceptable(o, t, oldCode, from + 1)
  }

  /**
   * The update handler obtains a new code: one of the first four candidates
   * is acceptable. (A fifth acceptable candidate still leaves the counter at
   * MaxTries; see FifthCandidateIsDiscarded.)
   */
  predicate MintsCode(o: Oracle, t: seq<Record>, oldCode: string) {
    exists j :: 0 <= j < MaxTries - 1 && Acceptable(t, oldCode, Candidate(o, 0, j))
  }

  /** The update loop draws FirstAcceptable + 1 candidates and succeeds exactly when that index is below 4. */
  lemma MintsCodeIffEarlyAcceptable(o: Oracle, t: seq<Record>, oldCode: string)
    ensures MintsCode(o, t, oldCode) <==> FirstAcceptable(o, t, oldCode, 0) < MaxTries - 1
    ensures FirstAcceptable(o, t, oldCode, 0) + 1 <= MaxTries + 1
  {
    var n := FirstAcceptable(o, t, oldCode, 0);
    if MintsCode(o, t, oldCode) {
      var j :| 0 <= j < MaxTries - 1 && Acceptable(t, oldCode, Candidate(o, 0, j));
      assert n <= j;
    }
  }

  /** One loop step: a rejected candidate n - 1 extends the run of rejected candidates to n. */
  lemma RejectedPrefixGrows(o: Oracle, t: seq<Record>, oldCode: string, n: nat, previous: string, wasRejected: bool)
    requires forall j :: 0 <= j < n - 1 ==> !Acceptable(t, oldCode, Candidate(o, 0, j))
    requires n == 0 ==> wasRejected
    requires n > 0 ==> previous == Candidate(o, 0, n - 1) && (wasRejected <==> !Acceptable(t, oldCode, previous))
    requires wasRejected
    ensures forall j :: 0 <= j < n ==> !Acceptable(t, oldCode, Candidate(o, 0, j))
  {
  }

  /** FirstAcceptable is the least index whose candidate is acceptable, or MaxTries. */
  lemma StopIndexIsFirstAcceptable(o: Oracle, t: seq<Record>, oldCode: string, last: nat)
    requires last <= MaxTries
    requires forall j :: 0 <= j < last ==> !Acceptable(t, oldCode, Candidate(o, 0, j))
    requires last < MaxTries ==> Acceptable(t, oldCode, Candidate(o, 0, last))
    ensures FirstAcceptable(o, t, oldCode, 0) == last
  {
  }

  /**
   * The counter quirk: when the first four candidates are rejected and the
   * fifth is acceptable, the loop still ends with "Max tries reached".
   */
  lemma FifthCandidateIsDiscarded(o: Oracle, t: seq<Record>, oldCode: string)
    requires forall j :: 0 <= j < MaxTries - 1 ==> !Acceptable(t, oldCode, Candidate(o, 0, j))
    requires Acceptable(t, oldCode, Candidate(o, 0, MaxTries - 1))
    ensures !MintsCode(o, t, oldCode)
    ensures FirstAcceptable(o, t, oldCode, 0) == MaxTries - 1
  {
  }

  /** `url && url !== shortUrl.url`: the update retargets the record. */
  predicate ChangesUrl(url: Option<string>, before: Record) {
    Given(url) && url.value != before.url
  }

  /** The record a code designates. */
  function RecordFor(t: seq<Record>, code: string): (r: Record)
    requires HasCode(t, code)
    ensures r in t && r.code == code
  {
    t[FindCode(t, code).value]
  }

  class ShortUrlService {
    /** The ShortUrl collection, in natural (insertion) order. */
    var records: seq<Record>

    /** The schema constraints, and every stored code has the generator's shape. */
    ghost predicate Valid()
      reads this
    {
      && ValidTable(records)
      && forall i :: 0 <= i < |records| ==> IsCode(records[i].code)
    }

    constructor ()
      ensures Valid() && records == []
    {
      records := [];
    }

    /** GET /api/shorturls: search, then the page window. */
    method List(q: Option<string>, page: Option<nat>, limit: Option<nat>) returns (r: seq<Record>)
      ensures var lim := OrDefault(limit, DefaultLimit);
              var skip := (OrDefault(page, DefaultPage) - 1) * lim;
              var found := Filter(records, q);
              && |r| <= lim
              && (|r| > 0 ==> skip + |r| <= |found|)
              && (forall i :: 0 <= i < |r| ==> skip + i < |found| && r[i] == found[skip + i])
              && (|r| == lim || |r| == if skip < |found| then |found| - skip else 0)
    {
      var lim := OrDefault(limit, DefaultLimit);
      var p := OrDefault(page, DefaultPage);
      var found := Filter(records, q);
      r := Paginate(found, p, lim);
    }

    /** GET /api/shorturls/:code */
    method Get(code: string) returns (r: Result<Record>)
      ensures r.Ok? <==> HasCode(records, code)
      ensures r.Ok? ==> r.value in records && r.value.code == code
      ensures r.Err? ==> r.error == NotFound
    {
      var i := FindCode(records, code);
      if i.None? {
        return Err(NotFound);
      }
      return Ok(records[i.value]);
    }

    /** POST /api/shorturls */
    method Create(url: Option<string>, o: Oracle) returns (r: Result<Record>)
      requires Valid()
      modifies this
      ensures Valid()
      ensures r.Err? ==> r.error in {UrlRequired, CodeExists, UrlExists} && records == old(records)
      ensures r == Err(UrlRequired) <==> !Given(url)
      ensures r == Err(CodeExists) <==> Given(url) && HasCode(old(records), CodeFrom(o, 0))
      ensures r == Err(UrlExists) <==>
                Given(url) && !HasCode(old(records), CodeFrom(o, 0)) && HasUrl(old(records), url.value)
      ensures r.Ok? ==> r.value == NewRecord(CodeFrom(o, 0), url.value) && records == old(records) + [r.value]
    {
      if !Given(url) {
        return Err(UrlRequired);
      }
      var code, _ := GenerateCode(o, 0);
      var codeExists := HasCode(records, code);
      var urlExists := HasUrl(records, url.value);
      if codeExists {
        return Err(CodeExists);
      }
      if urlExists {
        return Err(UrlExists);
      }
      var created := NewRecord(code, url.value);
      InsertKeepsValid(records, created);
      records := records + [created];
      r := Ok(created);
    }

    /**
     * The retry loop of the update handler, run against the table `t` the
     * handler read: draws candidates until one is acceptable or the counter
     * gives up. `candidates` counts the generateCode calls.
     */
    static method DrawNewCode(t: seq<Record>, code: string, o: Oracle)
      returns (newCode: string, maxTries: nat, ghost candidates: nat)
      ensures maxTries <= MaxTries
      ensures candidates == FirstAcceptable(o, t, code, 0) + 1 && candidates <= MaxTries + 1
      ensures maxTries >= MaxTries <==> !MintsCode(o, t, code)
      ensures maxTries < MaxTries ==> newCode == Candidate(o, 0, FirstAcceptable(o, t, code, 0))
    {
      var newCodeAlreadyExists := true;
      maxTries := 0;
      newCode := "";
      candidates := 0;
      var pos := 0;
      while newCodeAlreadyExists
        invariant 0 <= maxTries <= MaxTries && candidates == maxTries
        invariant pos == Offset(o, 0, maxTries)
        invariant forall j :: 0 <= j < maxTries - 1 ==> !Acceptable(t, code, Candidate(o, 0, j))
        invariant maxTries == 0 ==> newCodeAlreadyExists
        invariant maxTries > 0 ==> newCode == Candidate(o, 0, maxTries - 1)
        invariant maxTries > 0 ==> (newCodeAlreadyExists <==> !Acceptable(t, code, newCode))
        decreases MaxTries - maxTries
      {
        ghost var previous := newCode;
        ghost var wasRejected := newCodeAlreadyExists;
        var next;
        newCode, next := GenerateCode(o, pos);
        NextCandidate(o, maxTries, pos);
        candidates := candidates + 1;
        newCodeAlreadyExists := HasCode(t, newCode) || newCode == code;
        RejectedPrefixGrows(o, t, code, maxTries, previous, wasRejected);
        if maxTries >= MaxTries {
          // the sixth candidate: all five before it were rejected
          break;
        }
        maxTries := maxTries + 1;
        pos := next;
      }
      StopIndexIsFirstAcceptable(o, t, code, candidates - 1);
      MintsCodeIffEarlyAcceptable(o, t, code);
    }

    /**
     * PUT /api/shorturls/:code. `candidates` counts the generateCode calls
     * the retry loop made.
     */
    method Update(code: string, url: Option<string>, o: Oracle) returns (r: Result<Record>, ghost candidates: nat)
      requires Valid()
      modifies this
      ensures Valid()
      ensures r.Err? ==> r.error in {NotFound, MaxTriesReached, UrlExists} && records == old(records)
      ensures r == Err(NotFound) <==> !HasCode(old(records), code)
      ensures candidates <= MaxTries + 1
      ensures HasCode(old(records), code) ==> candidates == FirstAcceptable(o, old(records), code, 0) + 1
      ensures r == Err(MaxTriesReached) <==> HasCode(old(records), code) && !MintsCode(o, old(records), code)
      ensures r == Err(UrlExists) <==>
                && HasCode(old(records), code)
                && MintsCode(o, old(records), code)
                && ChangesUrl(url, RecordFor(old(records), code))
                && HasUrl(old(records), url.value)
      ensures r.Ok? ==>
                var i := FindCode(old(records), code).value;
                var before := old(records)[i];
                var newCode := Candidate(o, 0, FirstAcceptable(o, old(records), code, 0));
                && records == old(records)[i := r.value]
                && r.value.code == newCode
                && newCode != code && !HasCode(old(records), newCode)
                && if ChangesUrl(url, before) then
                     r.value.url == url.value && r.value.clicks == 0 && r.value.lastClickedAt == None
                   else
                     r.value.url == before.url && r.value.clicks == before.clicks
                     && r.value.lastClickedAt == before.lastClickedAt
    {
      var found := FindCode(records, code);
      if found.None? {
        return Err(NotFound), 0;
      }
      var i := found.value;
      var newCode, maxTries;
      newCode, maxTries, candidates := DrawNewCode(records, code, o);
      if maxTries >= MaxTries {
        return Err(MaxTriesReached), candidates;
      }
      assert Acceptable(records, code, newCode);

      var before := records[i];
      var updated := before.(code := newCode);
      if Given(url) && url.value != before.url {
        if HasUrl(records, url.value) {
          return Err(UrlExists), candidates;
        }
        updated := updated.(url := url.value, lastClickedAt := None, clicks := 0);
      }
      ReplaceKeepsValid(records, i, updated);
      records := records[i := updated];
      r := Ok(updated);
    }

    /** DELETE /api/shorturls/:code */
    method Delete(code: string) returns (r: Outcome)
      requires Valid()
      modifies this
      ensures Valid()
      ensures r.Failed? ==> r.error == NotFound && records == old(records)
      ensures r.Done? <==> HasCode(old(records), code)
      ensures r.Done? ==>
                var i := FindCode(old(records), code).value;
                records == old(records)[..i] + old(records)[i + 1..]
      ensures !HasCode(records, code)
    {
      var found := FindCode(records, code);
      if found.None? {
        return Failed(NotFound);
      }
      var i := found.value;
      RemoveKeepsValid(records, i);
      ghost var t := records;
      records := records[..i] + records[i + 1..];
      forall j | 0 <= j < |records|
        ensures records[j].code != code
      {
        if j < i {
          assert records[j] == t[j];
        } else {
          assert records[j] == t[j + 1];
        }
      }
      r := Done;
    }

    /**
     * The GET /:code handler: one atomic increment of clicks and stamp of
     * lastClickedAt. Route dispatch is not modelled: a request whose path
     * an earlier route or the static server answers never reaches it.
     */
    method Redirect(code: string, now: Time) returns (r: Result<string>)
      requires Valid()
      modifies this
      ensures Valid()
      ensures r.Err? <==> !HasCode(old(records), code)
      ensures r.Err? ==> r.error == NotFound && records == old(records)
      ensures r.Ok? ==>
                var i := FindCode(old(records), code).value;
                var before := old(records)[i];
                && r.value == before.url
                && records == old(records)[i := before.(clicks := before.clicks + 1, lastClickedAt := Some(now))]
    {
      var found := FindCode(records, code);
      if found.None? {
        return Err(NotFound);
      }
      var i := found.value;
      var before := records[i];
      var visited := before.(clicks := before.clicks + 1, lastClickedAt := Some(now));
      ReplaceKeepsValid(records, i, visited);
      records := records[i := visited];
      r := Ok(before.url);
    }
  }

  /**
   * The health route's path is a 7-letter alphanumeric code, so generateCode
   * can return it; the health route, registered first, then shadows it.
   */
  lemma HealthzCanBeGenerated()
    ensures IsCode("healthz")
    ensures exists o: Oracle :: CodeFrom(o, 0) == "healthz"
  {
    EveryCodeIsReachable("healthz");
  }

  /**
   * Shorten a url on an empty store, follow the short link, then read the
   * record back: it shows one click, stamped with the time of the visit.
   */
  method CreateVisitRead(url: string, o: Oracle, now: Time)
    returns (created: Result<Record>, visit: Result<string>, read: Result<Record>)
    requires url != ""
    ensures created.Ok? && IsCode(created.value.code) && created.value.clicks == 0
    ensures visit == Ok(url)
    ensures read.Ok? && read.value.code == created.value.code && read.value.url == url
    ensures read.value.clicks == 1 && read.value.lastClickedAt == Some(now)
  {
    var service := new ShortUrlService();
    created := service.Create(Some(url), o);
    assert service.records[0].code == created.value.code;
    visit := service.Redirect(created.value.code, now);
    assert service.records[0].code == created.value.code;
    read := service.Get(created.value.code);
  }

  /** In a one-record table, a code or url is present exactly when that record holds it. */
  lemma OneRecordTable(t: seq<Record>, code: string, url: string)
    requires |t| == 1
    ensures HasCode(t, code) <==> t[0].code == code
    ensures HasUrl(t, url) <==> t[0].url == url
  {
    if HasCode(t, code) {
      var i :| 0 <= i < |t| && t[i].code == code;
    }
    if HasUrl(t, url) {
      var i :| 0 <= i < |t| && t[i].url == url;
    }
  }

  /**
   * Shortening the same url twice never yields a second record: the second
   * request fails with a url collision, or a code collision when its code
   * happens to repeat the first one.
   */
  method ShortenTwice(url: string, o1: Oracle, o2: Oracle)
    returns (first: Result<Record>, second: Result<Record>, all: seq<Record>)
    requires url != ""
    ensures first.Ok? && second.Err?
    ensures second.error == (if CodeFrom(o2, 0) == CodeFrom(o1, 0) then CodeExists else UrlExists)
    ensures all == [first.value]
  {
    var service := new ShortUrlService();
    first := service.Create(Some(url), o1);
    OneRecordTable(service.records, CodeFrom(o2, 0), url);
    second := service.Create(Some(url), o2);
    NoQueryKeepsAll(service.records, None);
    all := service.List(None, None, None);
    assert |all| == 1;
  }

  /** After a delete, deleting again and reading both report 404. */
  method DeleteTwice(service: ShortUrlService, code: string)
    returns (first: Outcome, second: Outcome, read: Result<Record>)
    requires service.Valid()
    modifies service
    ensures service.Valid()
    ensures first.Done? <==> HasCode(old(service.records), code)
    ensures second == Failed(NotFound) && read == Err(NotFound)
  {
    first := service.Delete(code);
    second := service.Delete(code);
    read := service.Get(code);
  }

  /**
   * After a successful update the record answers to its new code only: the
   * old code reads as 404, the new one reads the updated record.
   */
  method UpdateThenRead(service: ShortUrlService, code: string, url: Option<string>, o: Oracle)
    returns (updated: Result<Record>, byOld: Result<Record>, byNew: Result<Record>)
    requires service.Valid()
    modifies service
    ensures service.Valid()
    ensures updated.Ok? ==> byOld == Err(NotFound) && byNew == Ok(updated.value)
    ensures updated.Err? ==> service.records == old(service.records)
  {
    ghost var candidates;
    updated, candidates := service.Update(code, url, o);
    if updated.Ok? {
      byOld := service.Get(code);
      byNew := service.Get(updated.value.code);
      ghost var i := FindCode(old(service.records), code).value;
      assert service.records[i] == updated.value;
      ghost var j :| 0 <= j < |service.records| && service.records[j] == byNew.value;
      CodeIdentifiesRecord(service.records, i, j);
    } else {
      byOld := service.Get(code);
      byNew := byOld;
    }
  }
}
