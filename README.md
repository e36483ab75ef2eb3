# eSIM balance lookup: handler and token cache, modelled in Dafny

The repository is a small Next.js application that looks up an eSIM customer
by ICCID through a reseller API (Giga Store), condenses the reply into a
summary with per-package percentages and expiry countdowns, and renders it.
This project models its two pieces of logic:

* the API route `pages/api/check.js`: the ICCID guard, the 404 for an empty
  search, the loop over all customer records and their activated items with
  its two accumulators, the derived package view (remaining balance,
  percentage used, countdown), the choice of the last package, the eSIM copy,
  and the status codes 400 / 404 / 500 / 200;
* the token cache `lib/gigaToken.js`: the two module variables `accessToken`
  and `tokenExpiry`, reused while valid and refreshed through the
  authenticate call otherwise.

The upstream replies, the clock and the configured secret are parameters:
`Check.Reply` is what the search call gives back (its error, or
`response.data`), `GigaToken.AuthReply` what the authenticate call gives back,
`now` is `Date.now()` in milliseconds, and `basicAuth` is `GIGA_BASIC_AUTH`.

Files and modules:

| file | module | models |
|---|---|---|
| wrappers.dfy | Wrappers | absent JSON fields (`Option`), thrown exceptions (`Result`) |
| throwing.dfy | Throwing | `array.map(f)` when `f` may throw: all results, or the first exception |
| text.dfy | Text | integer-valued numbers and `undefined` inside template literals |
| countdown.dfy | Countdown | `getCountdownString` (and the page's label-less copy of it) |
| payload.dfy | Payload | the upstream search payload, the view types, the engine's exception messages |
| packages.dfy | Packages | per-item derivation, `percentageUsed`, `remaining`, `lastPackage`, eSIM copy |
| check.dfy | Check | the handler as a function from (iccid, reply, now) to (status, body), and its properties |
| handler.dfy | Handler | the handler as the source runs it: nested loops with the two accumulators |
| token_cache.dfy | GigaToken | the token cache as a class with two mutable fields, and its specification |

How the JavaScript semantics are written out:

* Truthiness: `x?.sizeValue || 0` treats an absent value and 0 alike;
  `sizeUnit || 'GB'` replaces an absent or empty unit; `expiresIn || 3600`
  replaces an absent or zero lifetime; the cache test needs a non-empty token
  and a non-zero expiry.
* `Math.round` is round-half-up, `floor(x + 1/2)`, on the exact quotient;
  `percentageUsed` is modelled for every integer `total`, negative ones
  included, so no precondition restricts the balances.
* Adding an absent `sizeValue` to the running total gives NaN
  (`Check.Number`); `toFixed(2)` of an integer is its decimal text followed by
  `.00`.
* An exception inside the `try` block becomes a 500 whose body is the
  exception's message; the model raises the first exception in the source's
  evaluation order (the total's size, the items, each item's balance and then
  its expiry, the eSIMs, the customer's identity), and the generic
  `Throwing.MapOrThrow` stops at the first element that throws.

Where the design text and the code disagree, the model follows the code:

* The code caps `percentageUsed` at 100 but does not raise it to 0: an
  available size above the total gives a negative percentage
  (`Packages.PercentageUsedExample`: 15 of 10 gives -50). The percentage lies
  in [0, 100] whenever 0 <= available <= total.
* The code maps every returned customer record, not only the first: a
  malformed second record makes the whole request fail with 500
  (`Check.MalformedRecordFails`), although only the first view is returned.
* The handler posts the search with a static bearer token from the
  environment and never calls the token cache; the two are modelled
  separately.
* The cache never evicts an expired token: a failed refresh leaves the old
  values in place, and the next call tries again.
* The reuse test is truthiness, not presence: an empty token, or an expiry
  of exactly 0, forces a refresh.

## Model

| member | source | states |
|---|---|---|
| Text.NatToString | pages/api/check.js:60 | the decimal text of a count is non-empty, all digits, and has no leading zero |
| Text.NatToStringRoundTrip | pages/api/check.js:60 | reading the decimal text back gives the number: the text determines the value |
| Text.IntToString | pages/api/check.js:60 | an integer's text is non-empty, starts with '-' exactly for negatives, and ends in a digit |
| Countdown.Decompose | pages/api/check.js:108-111 | hours lie in [0,23], minutes and seconds in [0,59], days are non-negative |
| Countdown.DecomposeRecombines | pages/api/check.js:108-111 | days*86400 + hours*3600 + minutes*60 + seconds equals the whole seconds of the difference |
| Countdown.JsPartsAgree | pages/api/check.js:108-111 | the source's floor-of-quotient and truncating-remainder formula, over exact reals, gives the same components |
| Countdown.Format | pages/api/check.js:113 | the text starts with a digit and ends in " remaining" when the label is wanted |
| Countdown.CountdownString | pages/api/check.js:101-114 | the result is "Expired" exactly when the difference is <= 0, and otherwise ends in " remaining" |
| Countdown.LabelIsOnlySuffix | pages/index.js:50-60 | the page's once-a-second text is the server's text without the " remaining" suffix |
| Countdown.CountdownExample | pages/api/check.js:104-113 | 27394 whole days read "27394d 0h 0m 0s remaining"; a zero difference reads "Expired" |
| Packages.RemainingParts | pages/api/check.js:48-60 | `remaining` is the available size, one space and a non-empty unit, which is GB exactly when the upstream unit is absent, empty or GB |
| Packages.FloorDiv | pages/api/check.js:50 | the floor of a quotient for divisors of either sign |
| Packages.RoundHalfUpNearest | pages/api/check.js:50 | `Math.round` of p/q is the integer r with r - 1/2 <= p/q < r + 1/2 |
| Packages.PercentageUsed | pages/api/check.js:49-50 | never above 100; 0 when the total is 0 or absent; not negative when 0 <= available <= total |
| Packages.PercentageUsedIsRoundedShare | pages/api/check.js:50 | below the cap it is the used share rounded half up; it is 100 exactly when the used share is at least 99.5 percent |
| Packages.RoundedCap | pages/api/check.js:50 | a value rounded from u/(2t) reaches the cap of 100 exactly when u >= 199t |
| Packages.PercentageUsedExample | pages/api/check.js:49-50 | 2 of 10 available gives 80; a zero total gives 0; 15 of 10 gives -50 |
| Packages.DerivePackage | pages/api/check.js:46-64 | an item without a balance throws on reading it; an unparsable expiry throws on rendering it; otherwise the item maps |
| Packages.PackageFields | pages/api/check.js:47-64 | a package copies name, activation time, expiry and activation type, and holds the remaining text, a bounded percentage and a countdown that is "Expired" exactly when expiry <= now |
| Packages.ItemsAvailableAppend | pages/api/check.js:52 | the available sum over two item lists is the sum of the two sums |
| Packages.LastPackage | pages/api/check.js:67 | null exactly for no packages, otherwise the last package in order |
| Packages.LastPackageOfItems | pages/api/check.js:46-67 | the last package is the one derived from the last item in upstream order, and there is none for no items |
| Packages.CopyEsims | pages/api/check.js:69-75 | same length and order, each of the five fields copied unchanged |
| Throwing.MapOrThrow | pages/api/check.js:41-85 | the map succeeds exactly when every callback does; then it has one result per element, in order |
| Throwing.MapOrThrowFailsAt | pages/api/check.js:41-85 | a failing map throws the exception of the first element whose callback throws |
| Check.SearchFor | pages/api/check.js:13-22 | the search posts the ICCID with page size 50, page 0, key "ICCID", mode "contains", active profiles only |
| Check.SumAvailableIsSumOfSizes | pages/api/check.js:38-44 | the running total is the sum of every record's total size, and NaN exactly when some record has no size |
| Check.ActivatedSumIsOverAllItems | pages/api/check.js:39-52 | the activated accumulator is the sum of `available` over all items of all records |
| Check.MapCustomer | pages/api/check.js:41-85 | a record maps exactly when it has its total, items, eSIMs and identity and every item maps; the total is read first, then the items |
| Check.Respond | pages/api/check.js:5-98 | 400 exactly without an ICCID, 404 exactly for an absent or empty customer list, 200 exactly when every record maps, 500 otherwise with an error body; an upstream failure's body is its response data or message |
| Check.MissingIccidIgnoresUpstream | pages/api/check.js:6-10 | without an ICCID the response is the 400 error whatever upstream would answer |
| Check.SuccessShowsFirstCustomer | pages/api/check.js:87-92 | a 200 carries only the first record's view next to the total summed over all records |
| Check.MalformedRecordFails | pages/api/check.js:41-96 | a record anywhere in the list without its total, items or eSIMs makes the response a 500 |
| Check.FirstFaultReported | pages/api/check.js:41-96 | the 500 body is the message of the first record that does not map |
| Check.SingleRecord | pages/api/check.js:34-92 | a search matching one record that maps answers 200 with that record's view and its own size as the total |
| Check.ExampleRecordMaps | pages/api/check.js:41-85 | the example record maps to its view: "5 GB" as its total, and one package with "2 GB" remaining and 80 percent used |
| Check.WorkedExample | pages/api/check.js:41-92 | the design's example: 80 percent used, "2 GB" remaining, "5.00 GB" in the summary |
| Handler.DeriveItems | pages/api/check.js:46-65 | the item loop gives every item's package in order or the first item's exception, and on success adds every item's `available` to the accumulator |
| Handler.MapRecord | pages/api/check.js:41-85 | the per-record callback with the inner item loop computes the record's view or its first exception, and advances both accumulators |
| Handler.MapRecords | pages/api/check.js:41-85 | the record loop gives the views of `data.customers.map` or its first exception, and on success both accumulators are the sums over all records |
| Handler.Handle | pages/api/check.js:5-98 | the nested loops give the response of Respond; no search is sent exactly without an ICCID; on success the activated accumulator, which the response has no field for, is the sum over all records |
| GigaToken.ExpiresInOrDefault | lib/gigaToken.js:33 | an absent or zero lifetime becomes 3600 seconds, any other is kept |
| GigaToken.GetToken | lib/gigaToken.js:6-43 | a fresh token is returned with no request and no change; otherwise a missing secret throws with no change; a failed authenticate throws with no change; a success stores the token and now + lifetime*1000 and returns that token |
| GigaToken.RefreshAtExpiry | lib/gigaToken.js:9 | at the expiry instant itself the refresh path is taken |
| GigaToken.RefreshedTokenIsReused | lib/gigaToken.js:9-34 | after a refresh with a non-empty token and a non-negative lifetime, every call before the new expiry is served from the cache |
| GigaToken.FreshTokenNeedsNoAuthentication | lib/gigaToken.js:9-11 | calls made while the token is fresh authenticate zero times and leave the state as it is |
| GigaToken.OneAuthenticationPerLifetime | lib/gigaToken.js:9-34 | a successful refresh followed by calls within the lifetime makes exactly one authenticate call |
| GigaToken.FailuresKeepState | lib/gigaToken.js:14-42 | calls whose authenticate fails never change the two variables |
| GigaToken.TokenCache.constructor | lib/gigaToken.js:3-4 | both variables start out null |
| GigaToken.TokenCache.GetGigaAccessToken | lib/gigaToken.js:6-43 | the method's new fields, outcome and request are those of GetToken; no request or a failed one leaves the fields unchanged |
| GigaToken.TwoCallsAtOneInstant | lib/gigaToken.js:9-38 | two calls at the same instant on a fresh cache: the second returns the first's token without a request |

## Left out

- The HTTP calls themselves (axios): the search reply and the authenticate reply are parameters; of the requests, only the search body and the Basic Authorization header are modelled.
- The static bearer token `GIGA_STORE_ACCESS_TOKEN` of the handler: it only enters a request header.
- Environment reads: `GIGA_BASIC_AUTH` is the `basicAuth` parameter.
- `console.log` and `console.error`.
- Date parsing and `toISOString()`: a balance's `expiresAt` is the instant the upstream text parses to (None when absent or invalid, which makes `toISOString()` throw), and the package view holds that instant, not its ISO text.
- Floating point: sizes and lifetimes are integers, and percentages and countdown components are computed on exact values; IEEE rounding at exact half-way points, precision above 2^53 and the exponent notation JavaScript uses for numbers of 10^21 and more are not modelled.
- The clock is read once per request: the source calls `Date.now()` anew for each item's countdown.
- Inputs that are not the JSON shapes described: `null` records, items or eSIMs, a `customers` or `iccid` that is not an array or string (`?iccid=a&iccid=b`), non-numeric sizes or lifetimes. Upstream error bodies are modelled as strings.
- Concurrent calls of the token refresh, and their race on the module variables.
- pages/index.js beyond its countdown text: the React state, the timer and the rendering; it shows `summary.totalActivatedBalance`, which the handler never sends.
- Payload.Fault.Message: the messages are those of the V8 engine; other engines word them differently.
