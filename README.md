# Short-URL service: code assignment and the record table

This project models the server core of a URL shortener: the `generateCode`
function and the REST handlers of `server/index.js` (list, get, create,
update, delete, redirect) over the ShortUrl collection whose shape and
uniqueness constraints `server/model/ShortUrl.js` declares.

- `codes.dfy` (module `Codes`): the 62-character alphabet, `generateCode` as a
  method that builds the code one character at a time, the function `CodeFrom`
  that specifies it, and the stream of successive candidates that the update
  handler draws. Randomness is an oracle `o: nat -> nat` (the k-th raw draw);
  `crypto.randomInt(min, max)` is `min + o(k) % (max - min)`.
- `schema.dfy` (module `ShortUrlSchema`): the record
  `{code, url, clicks, lastClickedAt}`, the table invariant (required code and
  url, no two records share a code, no two share a url), `findOne` by code,
  and the lemmas that insertion, removal and in-place replacement keep the
  invariant.
- `listing.dfy` (module `Listing`): the pure parts of the list handler:
  `parseInt(x) || default`, the case-insensitive search on url or code, and
  the `skip((page - 1) * limit).limit(limit)` window.
- `server.dfy` (module `ShortUrlServer`): class `ShortUrlService`, whose
  `records` field is the collection in insertion order, with one method per
  handler. The update handler's retry loop is `DrawNewCode`. The module also
  holds the declarative specification of that loop (`FirstAcceptable`,
  `MintsCode`) and client methods that chain handlers together.

Each request receives its own oracle, read from draw 0. The redirect handler
receives the clock reading `now` as a parameter. The store is modelled as
sequential: the existence checks a handler makes and the write that follows
them see the same table.

The retry loop of the update handler (`server/index.js:107-121`) increments
`maxTries` after each of the first five candidates it tests, whether or not
that candidate is acceptable. With the counter at 5, the sixth candidate hits
the `break` at lines 114-115 first, so at most six candidates are drawn. Line
121 then looks at the counter, not at the candidate. An acceptable fifth
candidate therefore leaves `maxTries` at 5, and the handler answers "Max tries
reached". Only the first four candidates can lead to success (`MintsCode`,
`FifthCandidateIsDiscarded`, `DrawNewCode`).

## Model

| member | source | states |
|---|---|---|
| `Codes.AlphabetIsSourceLiteral` | server/index.js:29 | the alphabet is exactly the 62-character `chars` literal |
| `Codes.AlphabetIsAlphanumeric` | server/index.js:29 | the alphabet has 62 characters, each in A-Z, a-z or 0-9 |
| `Codes.AlphabetIndex` | server/index.js:29 | every alphanumeric character occurs in the alphabet, at the returned position |
| `Codes.RandomInt` | server/index.js:30-34 | `randomInt(min, max)` lies in [min, max): the upper bound is exclusive |
| `Codes.CodeFrom` | server/index.js:28-38 | the code built from the draws has length 6 to 8 and only alphabet characters |
| `Codes.DrawnOver` | server/index.js:30-35 | the `for` loop's result over a 62-character alphanumeric alphabet: length from draw k, character i from draw k + 1 + i, all alphanumeric |
| `Codes.CodeFromDraws` | server/index.js:30-35 | the length is 6 + (first draw mod 3); the i-th character is the alphabet entry at the (i+1)-th draw mod 62 |
| `Codes.GenerateCode` | server/index.js:28-38 | the character loop yields `CodeFrom`, a well-formed code, and consumes 1 + length draws |
| `Codes.EveryCodeIsReachable` | server/index.js:28-38 | every string of 6 to 8 alphanumerics is the output for some sequence of draws |
| `Codes.Offset` | server/index.js:110-111 | each generateCode call consumes at least 7 draws, so n calls start at least 7n draws later |
| `Codes.Candidate` | server/index.js:110-111 | the n-th candidate of the update loop is a well-formed code |
| `ShortUrlSchema.Record` | server/model/ShortUrl.js:4-9 | a stored document: `code` and `url` strings, `clicks` a natural number (default 0), `lastClickedAt` an optional clock value (absent until the first redirect) |
| `ShortUrlSchema.NewRecord` | server/model/ShortUrl.js:5-8 | a created document holds the given code and url, with `clicks` 0 and no `lastClickedAt` |
| `ShortUrlSchema.HasRequiredFields` | server/model/ShortUrl.js:5-6 | `required: true`: a stored record has a non-empty code and a non-empty url |
| `ShortUrlSchema.UniqueCodes` | server/model/ShortUrl.js:5 | `unique: true` on code: no two positions of the table hold the same code |
| `ShortUrlSchema.UniqueUrls` | server/model/ShortUrl.js:6 | `unique: true` on url: no two positions of the table hold the same url |
| `ShortUrlSchema.ValidTable` | server/model/ShortUrl.js:3-13 | the collection invariant: every record has both required fields, and codes and urls are each unique |
| `ShortUrlSchema.HasCode` | server/index.js:85 | `findOne({ code })` is truthy: some record holds the code |
| `ShortUrlSchema.HasUrl` | server/index.js:86 | `findOne({ url })` is truthy: some record holds the url |
| `ShortUrlSchema.FindCode` | server/index.js:104 | `findOne({code})` finds a record exactly when one holds the code, and returns the first such position |
| `ShortUrlSchema.CodeIdentifiesRecord` | server/model/ShortUrl.js:5 | in a valid table, two positions holding the same code are the same position |
| `ShortUrlSchema.InsertKeepsValid` | server/model/ShortUrl.js:5-6 | appending a record whose code and url are both unused keeps codes and urls unique |
| `ShortUrlSchema.RemoveKeepsValid` | server/model/ShortUrl.js:5-6 | removing a record keeps the table valid |
| `ShortUrlSchema.ReplaceKeepsValid` | server/model/ShortUrl.js:5-6 | replacing a record keeps the table valid when its new code and url are its old ones or unused |
| `Listing.OrDefault` | server/index.js:42-43 | `parseInt(x) || d`: a given non-zero `limit`/`page` is used as is; a missing, unparsable or zero one falls back to the default; the result is at least 1 |
| `Listing.ContainsIgnoringCase` | server/index.js:47 | `$regex: q, $options: "i"` read as plain text: q occurs in the string at some position, letter case ignored |
| `Listing.Matches` | server/index.js:45-48 | the list filter: a falsy `q` (absent or empty) keeps every record, otherwise the url or the code must contain `q` ignoring case |
| `Listing.Filter` | server/index.js:45-50 | the search keeps every matching record and nothing else |
| `Listing.Paginate` | server/index.js:51-52 | the window holds at most `limit` elements, taken consecutively from position `(page - 1) * limit`; it is short only at the end of the list |
| `Listing.NoQueryKeepsAll` | server/index.js:57-60 | without `q`, or with an empty `q`, the full table is listed in order |
| `Listing.FilterKeepsOrder` | server/index.js:50 | the search result is a subsequence of the table: it keeps table order |
| `Listing.FoundByOwnCode` | server/index.js:47 | a record matches a search for its own code, also in lower case |
| `Listing.SearchIgnoresQueryCase` | server/index.js:47 | lower-casing the query does not change whether a string matches it |
| `Listing.PagesCoverAll` | server/index.js:51-52 | the i-th listed record appears on page i / limit + 1 at position i % limit |
| `ShortUrlServer.Error` | server/index.js:70-126 | the five error responses the handlers send: url required, not found, code exists, url exists, max tries reached |
| `ShortUrlServer.Status` | server/index.js:81-126 | 409 is returned exactly for the two collisions, 404 for not found, 400 for a missing url, and 200 for generation exhaustion |
| `ShortUrlServer.ErrorsAreDistinguishable` | server/index.js:88-89 | two different errors differ in status or in message |
| `ShortUrlServer.Message` | server/index.js:70-126 | the `error` text of each error response, as the handlers write it |
| `ShortUrlServer.Given` | server/index.js:81 | `url` is truthy: present and not the empty string |
| `ShortUrlServer.Acceptable` | server/index.js:112 | the loop accepts a candidate when no record holds it and it differs from the current code |
| `ShortUrlServer.MintsCode` | server/index.js:114-121 | the update obtains a code exactly when one of the first four candidates is acceptable |
| `ShortUrlServer.ChangesUrl` | server/index.js:125 | `url && url !== shortUrl.url`: a url is given and differs from the record's |
| `ShortUrlServer.FirstAcceptable` | server/index.js:107-121 | the first candidate index (at most 5) whose code is unused and differs from the old code; all earlier candidates are rejected |
| `ShortUrlServer.MintsCodeIffEarlyAcceptable` | server/index.js:107-121 | the loop obtains a code exactly when the first acceptable candidate is among the first four; at most six candidates are drawn |
| `ShortUrlServer.StopIndexIsFirstAcceptable` | server/index.js:107-121 | a loop that stops at the first acceptable candidate, or after six, stops at `FirstAcceptable` |
| `ShortUrlServer.FifthCandidateIsDiscarded` | server/index.js:114-121 | if only the fifth candidate is acceptable, the update still fails with "Max tries reached" |
| `ShortUrlServer.RecordFor` | server/index.js:104 | the record a present code designates is in the table and holds that code |
| `ShortUrlServer.ShortUrlService.constructor` | server/model/ShortUrl.js:3-13 | an empty collection satisfies the table invariant |
| `ShortUrlServer.ShortUrlService.Valid` | server/model/ShortUrl.js:3-13 | the collection satisfies the schema invariant, and every stored code has the generated shape |
| `ShortUrlServer.ShortUrlService.List` | server/index.js:40-65 | the response is the filtered records from position `(page - 1) * limit`, at most `limit` of them, with defaults 10 and 1 |
| `ShortUrlServer.ShortUrlService.Get` | server/index.js:67-76 | the record holding the code is found exactly when one exists; otherwise the result is 404 |
| `ShortUrlServer.ShortUrlService.Create` | server/index.js:78-97 | a missing url gives 400; a code collision gives 409 and takes precedence over a url collision; every error leaves the table unchanged; success appends exactly one record with the fresh code, the url and zero clicks |
| `ShortUrlServer.ShortUrlService.DrawNewCode` | server/index.js:107-121 | the loop draws `FirstAcceptable + 1` (at most 6) candidates; the counter reaches 5 exactly when none of the first four is acceptable; otherwise it returns the first acceptable candidate |
| `ShortUrlServer.ShortUrlService.Update` | server/index.js:99-138 | unknown code gives 404, exhaustion gives "Max tries", a differing url held by another record gives 409, and each leaves the table unchanged; success changes only that record: a new unused code, and on a url change the new url with clicks reset to 0 and no `lastClickedAt`, otherwise url and click data kept |
| `ShortUrlServer.ShortUrlService.Delete` | server/index.js:140-149 | removes exactly the record with the code, keeping the order of the rest, or gives 404 and changes nothing; afterwards no record holds the code |
| `ShortUrlServer.ShortUrlService.Redirect` | server/index.js:155-168 | on a known code, returns its url, increments its clicks by exactly 1, stamps `lastClickedAt` and changes no other record; otherwise gives 404 and changes nothing |
| `ShortUrlServer.HealthzCanBeGenerated` | server/index.js:151-155 | `healthz`, the path of the health route registered before `/:code`, is a well-formed code that generateCode can return |
| `ShortUrlServer.CreateVisitRead` | server/index.js:155-168 | create, then redirect, then get on an empty store: the redirect goes to the url and the record shows one click stamped with the visit time |
| `ShortUrlServer.ShortenTwice` | server/index.js:85-89 | shortening a url twice never adds a second record: the second request fails with a url collision, or with a code collision if its code repeats |
| `ShortUrlServer.DeleteTwice` | server/index.js:140-149 | after a delete, a second delete and a get both give 404 |
| `ShortUrlServer.UpdateThenRead` | server/index.js:123-133 | after a successful update the old code gives 404 and the new code reads the updated record |

## Left out

- Express and database plumbing is not modelled: environment loading, CORS, static serving, the database connection, `app.listen`, the production catch-all route and `/healthz` (`server/index.js:1-26, 151-153, 170-179`).
- ShortUrlServer.ShortUrlService.Redirect: models the handler at lines 155-168, not route dispatch. Express matches paths case-insensitively and `/healthz` (line 151) is registered first, so a code equal to `healthz` in any letter case is answered by the health check; such a code can be generated (`HealthzCanBeGenerated`). In production, `express.static` (line 14) runs before every route, so a code that names an entry of `client/dist` is answered by the static server.
- The 500 responses of the `catch` blocks are left out. They report failures of the store itself, which the model does not produce.
- The statuses of success responses (201 on create, 302 on redirect) are not modelled. The model returns the record or url that those responses carry.
- The race between a handler's existence checks and its write under concurrent requests is left out, because the model is sequential. The store's unique indexes on code and url are what really guard against it. `findOneAndUpdate` on redirect is modelled as one atomic step.
- `crypto.randomInt` is replaced by the oracle. The model makes no claim about uniformity or unpredictability, only about the length and the alphabet.
- Real timestamps are not modelled: `new Date()`, the `createdAt`/`updatedAt` fields that `timestamps: true` adds, and the store-assigned `_id`. `lastClickedAt` holds an abstract clock value supplied by the caller.
- `q` is matched as plain text (case-insensitive, ASCII letters only). MongoDB `$regex` metacharacters are not interpreted.
- `parseInt` on raw query strings is not modelled: `page` and `limit` arrive as optional naturals, with `None` for absent or unparsable. Negative `page` and `limit` values are not modelled: a negative skip makes the store fail, while a negative limit on page 1 gives skip 0.
- A non-string `url` in a request body is not modelled. `url` is an optional string, and the empty string counts as missing, as JavaScript truthiness has it.
- The ordering of `find()` results is assumed to be insertion order; the store does not guarantee a natural order. An update or redirect keeps a record in place.
- The React client (`client/src/**`) and its type declarations are not part of this model. They are views and fetch calls, with no logic beyond the server's.
