# Per-client daily quota of the prompt-generation relay

This project models the core of the prompt-generation backend's
`promptGen/api.js`: the file-backed daily quota that lets each client make
`MAX_REQUESTS_PER_IP` = 5 requests between two daily resets. A reset happens
on the first timer tick of a new UTC day, so this is not exactly 5 per UTC
day (see below).

The persisted record (`rateLimitStore.json`) maps client ids to counts and
holds a `lastReset` day stamp. `checkAndUpdateQuota` loads the record. It
denies a client whose count is already at least 5 and writes nothing. Otherwise it
increments that client's count, saves the record and admits.
`resetDailyQuota` runs at startup and every ten minutes. It clears all counts
and stamps the record with today's `YYYY-MM-DD` when the stored stamp is a
different day; otherwise it writes nothing. A missing or unparseable file
loads as an empty record with no stamp.

Around the quota, the handler of `POST /api/generate-prompt` does three
things, in this order:

1. It derives the client id from `x-forwarded-for`.
2. It charges the quota (HTTP 429 when the quota is used up).
3. It validates the body (HTTP 400), then logs the request and forwards it.

Modules:

- `Wrappers`: `Option`.
- `Calendar`: the `YYYY-MM-DD` day stamp and its injectivity.
- `Quota`: the record, the two operations as functions (`CheckAndUpdate`,
  `ResetDaily`), and the class `RateLimitStore`. The class holds the file
  contents. Its methods load the record into a local, change it and write it
  back, as the source does.
- `QuotaRuns`: properties of sequences of requests and of the reset.
- `Api`: truthiness of JavaScript values, `validateInput`, the client id, the
  usage log and the handler's decision order.

Behaviours of the code that the model makes explicit:

- `checkAndUpdateQuota` (promptGen/api.js:33-40) never reads `lastReset`;
  only the ten-minute timer (promptGen/api.js:25) resets the record. A client
  at its limit stays denied after midnight until the next tick
  (`QuotaRuns.GateIgnoresDay`). Conversely, requests made after midnight but
  before that tick are charged to the old day's record, which the tick then
  wipes. A client can therefore be admitted 10 times in one UTC day
  (`QuotaRuns.StaleDayOverAdmits`).
- An unreadable file counts every client from 0 (promptGen/api.js:9-10). An
  admission after such a load saves a record with no `lastReset`
  (promptGen/api.js:35-38), which the next tick clears
  (`QuotaRuns.FailedLoadFailsOpen`).
- The quota is charged before validation (promptGen/api.js:83-87), so an
  invalid request that is admitted still uses up one request
  (`Api.HandleGeneratePrompt`).

## Model

| member | source | states |
|---|---|---|
| `Quota.ReadRateLimit` | promptGen/api.js:6-12 | a missing or unparseable file loads as the record with empty usage and no reset stamp, where every client has count 0; a readable file loads as stored |
| `Quota.RateLimitStore.Load` | promptGen/api.js:6-12 | the loaded record is the file's record, or the fresh record when the file is unusable |
| `Quota.CheckAndUpdate` | promptGen/api.js:33-40 | admits iff the client's count (0 when absent) is below 5; a denial leaves the record unchanged; an admission raises that client's count by exactly 1, adds only that key, and leaves every other client's count and the reset stamp unchanged |
| `Quota.ResetDaily` | promptGen/api.js:19-23 | afterwards the stamp is `today`; if the stamp differed, usage is empty; if it was already `today`, the record is unchanged |
| `Quota.RateLimitStore.ResetDailyQuota` | promptGen/api.js:16-24 | writes the file iff the stored stamp differs from today's `YYYY-MM-DD`; the loaded record afterwards is the reset of the old one; no write leaves the file untouched |
| `Quota.RateLimitStore.CheckAndUpdateQuota` | promptGen/api.js:33-40 | returns the gate's decision on the loaded record; on admit the file holds the incremented record; on deny the file is untouched |
| `Calendar.DateStamp` | promptGen/api.js:18 | the stamp has 10 characters: dashes at positions 4 and 7, decimal digits everywhere else, and its digit groups read back as the year, month and day |
| `Calendar.PaddedRoundTrip` | promptGen/api.js:18 | zero-padding a number below 10^width to width digits yields width characters that read back as the number |
| `Calendar.StampLayout` | promptGen/api.js:18 | joining a four-digit and two two-digit groups with dashes gives ten characters, dashes at positions 4 and 7, digits elsewhere, and the groups read back from their positions |
| `Calendar.DateStampInjective` | promptGen/api.js:18-19 | two dates have the same stamp iff they are the same day |
| `QuotaRuns.RunCharges` | promptGen/api.js:35-37 | over any sequence of requests, a client's final count is its starting count plus its admissions, and a client starting at or below 5 never ends above 5 |
| `QuotaRuns.RunLeavesOthers` | promptGen/api.js:35-38 | a client that makes no request keeps its count whatever other clients do |
| `QuotaRuns.RepeatedChecks` | promptGen/api.js:33-40 | of n requests in a row from a client at count k, the i-th is admitted iff i < min(n, 5 - k) (none when k >= 5), and the count ends at k plus the admissions |
| `QuotaRuns.DeniedThroughout` | promptGen/api.js:36 | a client at or above 5 is denied on every request and the record stays as it was |
| `QuotaRuns.RunAgrees` | promptGen/api.js:35-37 | the answers to a sequence of requests depend only on the counts of the clients making them |
| `QuotaRuns.RunIndependent` | promptGen/api.js:35-38 | the answers a client receives, and its final count, are those it would get if its requests were the only ones |
| `QuotaRuns.ChecksCommute` | promptGen/api.js:35-38 | checks for two different clients give the same answers and the same record in either order |
| `QuotaRuns.ResetIdempotent` | promptGen/api.js:19-23 | resetting twice with the same day equals resetting once |
| `QuotaRuns.ResetFiresIffNewDay` | promptGen/api.js:18-21 | the reset of a record stamped on one day leaves it unchanged iff the current day is the same day; on a new day every client is admitted |
| `QuotaRuns.FailedLoadFailsOpen` | promptGen/api.js:9-10 | after a failed load the next reset always writes, the first request of any client is admitted with count 1, and the record then saved has no stamp, so the next reset clears it |
| `QuotaRuns.StaleDayOverAdmits` | promptGen/api.js:16-40 | from a record stamped on an earlier day, where a client has count 0, its 5 requests before the new day's tick are all admitted, and after the tick 5 more are admitted, so 10 admissions fall on one day |
| `QuotaRuns.GateIgnoresDay` | promptGen/api.js:33-40 | the gate's decision does not depend on the reset stamp |
| `QuotaRuns.TwoDayScenario` | promptGen/api.js:16-40 | from a fresh record reset on 2024-01-01, six requests from 10.0.0.1 get five admissions then a denial at count 5; a same-day tick changes nothing; after the 2024-01-02 tick the next request is admitted with count 1 |
| `Api.ValidateInput` | promptGen/api.js:42-46 | true iff `userInput` is a string of 5 to 1200 characters and `ia`, `lang` and `promptType` are all truthy |
| `Api.FirstSegment` | promptGen/api.js:82 | the result is the prefix of the header before its first comma, without the comma, untrimmed |
| `Api.FirstSegmentUnique` | promptGen/api.js:82 | a header has only one first comma-separated segment |
| `Api.ClientId` | promptGen/api.js:82 | without the header, or when its first segment is empty, the id is the socket address; otherwise it is that non-empty first segment |
| `Api.QuotaKey` | promptGen/api.js:82 | a present id is its own key; an absent one is counted under "undefined" |
| `Api.UsageLog.LogRequest` | promptGen/api.js:28-31 | appends exactly one entry with the timestamp, client id, provider, prompt type and language |
| `Api.HandleGeneratePrompt` | promptGen/api.js:78-90 | 429 iff the quota gate denies; 400 iff it admits and validation fails; forwarded iff both pass; the store changes exactly as the gate says, even for an invalid body; a log entry is appended only when forwarded |

## Left out

- Reading and writing the files and JSON (de)serialisation: the store is a field holding the record, or `None` for a missing or unparseable file. A failed `writeFileSync` (promptGen/api.js:14), which throws after the gate has decided to admit, is not modelled. A failed `appendFileSync` (promptGen/api.js:30) is not modelled either: it throws at line 90, outside the `try` of line 92, so such a request is never forwarded, whereas `HandleGeneratePrompt` then returns `Forwarded`.
- A parseable file whose `usage` is missing or holds non-numeric, negative or fractional counts: counts are natural numbers.
- JavaScript prototype keys such as `__proto__` or `toString` used as client ids, which object property lookup treats specially: `usage` is a plain map.
- `setInterval` and the startup call: only the body of one tick (`ResetDailyQuota`) is modelled; the caller supplies the current UTC date, since the clock is not modelled.
- Calendar.DateStamp: covers years 0 to 9999 only; outside that range `toISOString` uses a signed six-digit year, which is not modelled.
- Api.ValidateInput: a string's length counts Unicode scalar values, whereas JavaScript counts UTF-16 code units, so strings with characters outside the Basic Multilingual Plane can differ in length.
- The Express app, CORS, body parsing, `app.listen`, the API-key check with `process.exit`, and console output.
- The Gemini generation and translation calls and the extraction of their response (lines 92-147): network I/O, represented only by the `Forwarded` reply.
- The exact text of the log line: an entry keeps its fields instead.
- Concurrency: the source runs the load-modify-save sequence without a suspension point in a single-threaded runtime, so the model is sequential.
