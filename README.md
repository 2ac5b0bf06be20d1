# Student REST API: rate limiter and student routes, modelled in Dafny

The service exposes CRUD routes over one "student" resource kept in a document
collection. Every request first passes through a per-client daily rate limiter
that keeps one record per client address in a key-value counter store. The
record is the string `"YYYY-MM-DD:count"`. For each request the middleware
reads the client's record, runs the wrapped handler, and then does one of four
things. With no record, it writes `today:1`. When the stored day is not today,
it resets to `today:1`. When the stored count is at most the cap of 100, it
writes `today:count+1`. Otherwise it answers 429 "Too many requests today" and
writes nothing. In every case the handler has already run.

This model replaces the stores and the clock with values. The counter store is
a `map<string, string>` held by a `CounterStore` object. The collection is a
sequence of id/student documents, in collection order with unique ids, held by
a `StudentCollection` object. The calendar day comes from a `Date` parameter
that is formatted like `strftime("%Y-%m-%d")`.

Modules, one per file:

- `Wrappers` (wrappers.dfy): `Option`, for Python's `None`.
- `Decimal` (decimal.dfy): `f"{n}"` and the digit-string case of `int(s)`.
- `RateRecord` (rate_record.dfy): `str.split`, and the `"day:count"` format and parse with their round trip.
- `Calendar` (calendar.dfy): the `%Y-%m-%d` day string. Distinct dates give distinct strings.
- `Students` (students.dfy): the student datatypes and the partial-update merge, both as a record rule and as the handler's dictionary unions. Also lookup, replace and remove of one document, and the filtered listing.
- `Handlers` (handlers.dfy): the route responses, a pure outcome per route, the collection class, and the update and delete handlers that change it in place.
- `RateLimiter` (rate_limiter.dfy): the decision and the store update as functions, the invariant they keep, the multi-request boundary, the counter store class and the middleware method.

With a cap of 100 one might expect the 101st request of a day to be the first
one rejected. The code compares `count <= MAX_API_CALLS_PER_DAY` against the
count read before the request. So it admits requests 1 to 101, stores
`today:101`, and rejects from the 102nd on. `RateLimiter.ExactBoundary` proves
that boundary.

Functions that only compute carry no contract of their own. Their rows below
name the lemma that states what they mean.

## Model

| member | source | states |
|---|---|---|
| `Decimal.NatToString` | src/main.py:85 | the decimal text of a count is non-empty, all digits, and has no leading zero |
| `Decimal.ParseNat` | src/main.py:80 | `int` gives a number exactly when the text is a non-empty digit string |
| `Decimal.ParseNatToString` | src/main.py:80-85 | parsing the text written for `n` gives back `n` |
| `Decimal.NatToStringInjective` | src/main.py:85 | distinct counts are written as distinct texts |
| `RateRecord.Split` | src/main.py:78 | `split(":")` yields at least one piece, and no piece contains the separator |
| `RateRecord.SplitWithout` | src/main.py:78 | a text without the separator splits into itself alone |
| `RateRecord.SplitAfter` | src/main.py:78 | a separator-free head followed by the separator is split off as the first piece |
| `RateRecord.Format` | src/main.py:75-85 | no contract; characterised by `RateRecord.RoundTrip` and `RateRecord.FormatInjective` |
| `RateRecord.Parse` | src/main.py:78-80 | a parsed record's day contains no colon |
| `RateRecord.RoundTrip` | src/main.py:75-85 | parsing `f"{day}:{count}"` gives back `(day, count)` for a colon-free day |
| `RateRecord.FormatInjective` | src/main.py:83-85 | distinct records with colon-free days are stored as distinct strings |
| `Calendar.Padded` | src/main.py:68 | a zero-padded field has exactly its width in digits |
| `Calendar.DayString` | src/main.py:68 | the day string is 10 characters long and contains no colon |
| `Calendar.PaddedValue` | src/main.py:68 | zero-padding a number below 10^width loses nothing |
| `Calendar.DayStringInjective` | src/main.py:68 | distinct dates give distinct day strings, so the string comparison at line 82 compares days |
| `RateLimiter.Judge` | src/main.py:74-87 | no contract; characterised by `RateLimiter.StepOutcomes` and `RateLimiter.RejectExactlyAtCap` |
| `RateLimiter.Respond` | src/main.py:84-89 | no contract; characterised by `RateLimiter.ServeResponse` |
| `RateLimiter.Serve` | src/main.py:70-89 | no contract; characterised by `RateLimiter.ServeResponse` and `RateLimiter.RejectedDeleteStillDeletes` |
| `RateLimiter.Limit` | src/main.py:74-87 | after one request the client's record is present and readable, and every other key is untouched |
| `RateLimiter.StepOutcomes` | src/main.py:74-87 | no record: admitted, and the store gains exactly `today:1` under the client; other day: admitted, and the client's value is overwritten with exactly `today:1` whatever the old count; same day and count <= 100: admitted, and the value becomes exactly `today:count+1`; same day and count > 100: rejected, store exactly as it was; every value written reads back as the record it encodes |
| `RateLimiter.ServeResponse` | src/main.py:70-89 | an admitted request returns the handler's response unchanged; a rejected one returns 429 "Too many requests today" and leaves the counters as they were; the handler's change to the collection happens either way |
| `RateLimiter.LimitPreservesTracked` | src/main.py:74-87 | every request keeps every stored value a readable record with a count between 1 and 101 |
| `RateLimiter.RejectExactlyAtCap` | src/main.py:84-87 | under that invariant, a request is rejected exactly when the client's record reads `(today, 101)` |
| `RateLimiter.Burst` | src/main.py:74-87 | after any number of same-day requests, the client's record stays readable |
| `RateLimiter.FreshClientBurst` | src/main.py:74-87 | for a client with no record, after `n >= 1` requests the store holds `today:min(n, 101)`, and the `n`-th request is admitted exactly when `n <= 101` |
| `RateLimiter.ExactBoundary` | src/main.py:21-87 | with the cap of 100, requests 1 to 101 from a fresh client are admitted, every request from the 102nd on is rejected, and the record stops at `today:101` |
| `RateLimiter.RejectedDeleteStillDeletes` | src/main.py:70-87 | a delete from a client already at the cap is answered 429, but the document has been deleted and the counters are unchanged |
| `RateLimiter.CounterStore.Get` | src/main.py:70 | `get` gives a value exactly when the key is stored, and that value is the stored one |
| `RateLimiter.CounterStore.Set` | src/main.py:75 | `set` stores the value under the key and changes no other key |
| `RateLimiter.RateLimit` | src/main.py:63-89 | the middleware keeps the counter invariant and the unique ids, and its response, new counters and new collection are those of `Serve` on the state before the call |
| `Students.MergeAddress` | src/main.py:154 | no contract; characterised by `Students.MergeFields` and `Students.MergeAddressAsWritten` |
| `Students.Merge` | src/main.py:151-156 | no contract; characterised by `Students.MergeFields`, `Students.MergeIdempotent`, `Students.MergeThen` and `Students.MergeAsWrittenIsMerge` |
| `Students.DumpAddress` | src/main.py:151-154 | no contract; characterised by `Students.MergeAddressAsWritten` |
| `Students.Dump` | src/main.py:151 | no contract; characterised by `Students.MergeAsWrittenIsMerge` |
| `Students.MergeAsWritten` | src/main.py:151-156 | no contract; characterised by `Students.MergeAsWrittenIsMerge` |
| `Students.MergeFields` | src/main.py:151-156 | present top-level patch fields overwrite and absent ones are kept; with an address patch, city and country are each overwritten only when present |
| `Students.MergeIdempotent` | src/main.py:151-156 | applying the same patch twice changes nothing more than applying it once |
| `Students.MergeThen` | src/main.py:151-156 | two patches applied in a row equal one patch that combines them |
| `Students.MergeAddressAsWritten` | src/main.py:154 | the dictionary union of the stored address with the dumped address patch gives the field-by-field address merge |
| `Students.MergeAsWrittenIsMerge` | src/main.py:151-156 | the dictionary unions the handler performs give exactly the document of the merge rule |
| `Students.Ids` | src/main.py:146 | there is one id per document |
| `Students.IdsAt` | src/main.py:146 | the `k`-th id is the `k`-th document's id |
| `Students.Lookup` | src/main.py:128-131 | `find_one` finds nothing exactly when no document has the id, and otherwise returns the student of a document with that id |
| `Students.LookupAt` | src/main.py:128 | with unique ids, looking up a stored document's id returns that document |
| `Students.IndexOf` | src/main.py:158 | the first position holding the id |
| `Students.Replace` | src/main.py:158-160 | no contract; characterised by `Students.ReplaceAt`, `Students.ReplaceAbsent` and `Students.ReplaceChangesOne` |
| `Students.ReplaceAt` | src/main.py:158-160 | `update_one` overwrites the document at the id's position and no other position |
| `Students.ReplaceAbsent` | src/main.py:158-160 | updating an id the collection lacks changes nothing |
| `Students.ReplaceChangesOne` | src/main.py:158-160 | with unique ids, an update keeps the ids and their order, the id finds the new student, and every other id finds what it found before |
| `Students.Remove` | src/main.py:172 | no contract; characterised by `Students.RemoveAtIndex`, `Students.RemoveAt`, `Students.RemoveAbsent`, `Students.RemoveIds`, `Students.RemoveKeepsOthers` and `Students.RemoveExactlyOne` |
| `Students.RemoveAtIndex` | src/main.py:172 | `delete_one` shortens the collection by one and shifts the documents after the id down one place |
| `Students.RemoveAt` | src/main.py:172 | `delete_one` cuts out the document at the id's position and keeps the others in order |
| `Students.RemoveAbsent` | src/main.py:172 | deleting an id the collection lacks changes nothing |
| `Students.RemoveIds` | src/main.py:172 | after a delete the ids are still unique and the deleted id is gone |
| `Students.RemoveKeepsOthers` | src/main.py:172 | a delete leaves the lookup of every other id as it was |
| `Students.RemoveExactlyOne` | src/main.py:167-172 | with unique ids, a delete removes exactly one document, the id is no longer found, and every other id finds what it found before |
| `Students.InCountry` | src/main.py:115 | no contract; characterised by `Students.InCountryConcat` and `Students.ListSingle` |
| `Students.ProjectFrom` | src/main.py:117-119 | no contract; characterised by `Students.ProjectConcat` and `Students.ListSingle` |
| `Students.ListStudents` | src/main.py:114-119 | no contract; characterised by `Students.ListConcat`, `Students.ListSingle` and `Students.ListMembership` |
| `Students.InCountryConcat` | src/main.py:115 | the country filter of a concatenation is the concatenation of the filters |
| `Students.ProjectConcat` | src/main.py:117-119 | the age filter and projection of a concatenation is the concatenation of the projections |
| `Students.ListConcat` | src/main.py:114-119 | the listing of a concatenation is the concatenation of the listings, so collection order is kept |
| `Students.ListSingle` | src/main.py:114-119 | one document is listed as its `{name, age}` exactly when its country matches (if given) and its age is at least the filter |
| `Students.ListMembership` | src/main.py:114-119 | a `{name, age}` pair is listed exactly when some stored student passes both filters and projects to it |
| `Handlers.AllStudents` | src/main.py:108-121 | no contract; characterised by `Handlers.AllStudentsContents` |
| `Handlers.StudentById` | src/main.py:124-139 | no contract; characterised by `Handlers.StudentByIdFound` and `Handlers.StudentByIdAbsent` |
| `Handlers.UpdateOutcome` | src/main.py:142-160 | no contract; characterised by `Handlers.UpdateEffect` and `Handlers.PatchCityKeepsCountry` |
| `Handlers.DeleteOutcome` | src/main.py:163-172 | no contract; characterised by `Handlers.DeleteEffect` and `Handlers.DeleteThenGet` |
| `Handlers.Route` | src/main.py:108-172 | no contract; characterised by `Handlers.RouteKeepsUniqueIds` |
| `Handlers.AllStudentsContents` | src/main.py:108-121 | the listing route answers 200 with exactly the `{name, age}` projections of the matching students |
| `Handlers.StudentByIdFound` | src/main.py:124-139 | with unique ids, the lookup of a present id answers 200 with that document's name, age, city and country |
| `Handlers.StudentByIdAbsent` | src/main.py:128-131 | the lookup of an absent id answers 404 "Student not found" |
| `Handlers.UpdateEffect` | src/main.py:142-160 | an absent id gives 404 with the collection unchanged; a present id gives 204 and the merged student under that id, with every other id unchanged and unique ids kept |
| `Handlers.DeleteEffect` | src/main.py:163-172 | an absent id gives 404 with no change; a present id gives 200 and exactly that document removed, with every other id unchanged |
| `Handlers.DeleteThenGet` | src/main.py:124-172 | after a successful delete, the lookup of that id answers 404 |
| `Handlers.PatchCityKeepsCountry` | src/main.py:153-156 | a patch naming only the city keeps the stored country, name and age |
| `Handlers.RouteKeepsUniqueIds` | src/main.py:108-172 | every route keeps ids unique, and the listing and lookup routes leave the collection as it was |
| `Handlers.StudentCollection.FindOne` | src/main.py:146 | `find_one` on the collection finds nothing exactly when the id is absent |
| `Handlers.StudentCollection.UpdateOne` | src/main.py:158-160 | the collection after `update_one` is the replaced sequence, with unique ids kept |
| `Handlers.StudentCollection.DeleteOne` | src/main.py:172 | the collection after `delete_one` is the removed sequence, one document shorter when the id was present |
| `Handlers.UpdateStudent` | src/main.py:142-160 | the handler's response and new collection are the update outcome of the collection before the call |
| `Handlers.DeleteStudentById` | src/main.py:163-172 | the handler's response and new collection are the delete outcome of the collection before the call |
| `Handlers.CallNext` | src/main.py:72 | the wrapped application answers and changes the collection as the routed handler does |

## Left out

- Process lifecycle (src/main.py:23-57): `load_dotenv`, `getenv`, the connections and the module-level globals are I/O plumbing. The stores are objects passed to the methods instead.
- src/mongo.py only opens a client and prints its URL. It is not part of this model.
- src/models.py does not define the `Student`, `MongoStudent` and `StudentOptional` names that main.py imports. The datatypes here follow how main.py uses those names.
- `create_student` (src/main.py:97-105) is not part of this model. Id generation is a foreign library call.
- The redirect route (src/main.py:92-94), pydantic request-body validation, status-code decoration and JSON serialisation are framework behaviour.
- `ObjectId(id)` (src/main.py:128, 146, 167) is a foreign call. Ids enter the model already converted, so the `InvalidId` raised for a malformed id string is not modelled. In the source that exception escapes `call_next` at line 72, so lines 74-89 never run and such a request is neither counted nor limited; the model does not capture this.
- The assertions at src/main.py:65-66 (a connected counter store, a known client address) and the collection assertions at lines 101, 110, 126, 144 and 165 are not modelled: the stores are always present as objects and the client address is a parameter.
- Store failures (an unreachable Redis or MongoDB) and the resulting server errors are not modelled.
- Concurrency: the read at line 70 and the write at lines 75/83/85 are not atomic, so two concurrent requests can both read the same count and lose an update. Requests are modelled one at a time.
- Corrupt counter values, where `split` or `int` raises at lines 78-80, cannot arise: the counter store satisfies `Tracked`, which the limiter preserves. `RateLimit` requires `Tracked`, and `Judge` and `Limit` require the client's value to be readable.
- Decimal.ParseNat: covers digit strings only. Python's `int` also accepts signs, surrounding whitespace and underscores, but the limiter never writes those.
- Calendar.DayString: requires years 1000-9999, months 1-12 and days 1-31. Platforms pad `%Y` differently below year 1000, and day-of-month validity is the clock's business.
- Students.MergeAsWrittenIsMerge: the stored document's `_id` entry is left out of the dictionaries. The `$set` writes it back unchanged.
- Age is an unbounded `int`, as the pydantic `int` field is. Nothing in the code requires it to be non-negative.
