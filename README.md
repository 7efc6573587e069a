# School LMS API: response normalisation and listing order

This project models the one part of the School LMS backend (`main.py`) that makes real decisions. It is the layer between the document store and the JSON responses, and it has three parts:

- **`_serialize`** turns a stored document into a response object. A non-empty document gets an `id` field holding `str(doc.get("_id"))` and loses `_id`. Every field whose value is a `datetime` is replaced by its `isoformat()` text. All other values pass through. An empty or absent document is returned as it is.
- **The listing order rules.** The feed is ordered by `created_at`, newest first. Lessons and grades are ordered by `date`, newest first. Assessments are ordered by `due_date`, earliest first. In all four, a missing date counts as `datetime.min`. Schedule items are ordered by the pair (weekday index, `start_time`). The weekday name is lower-cased and looked up in a fixed Monday..Sunday table, and any other name, or a missing day, gets index 7. A missing `start_time` counts as `""`. Python's `sorted` is stable, with `reverse=True` too.
- **The `_collection` guard**, which raises HTTP 500 "Database not configured" when no database is configured.

Modules:

- `Values` (values.dfy) holds the field values and documents (`map<string, Value>`). A datetime is a `Timestamp`: ticks since `datetime.min`, so `datetime.min` is 0. It also holds the `Library` of conversions the code borrows: `isoformat`, `str(ObjectId)`, and `str` of numbers, datetimes and lists.
- `Text` (text.dfy) has `str.lower()` and Python's `<=` on strings.
- `Ordering` (ordering.dfy) has `sorted(..., key=..., reverse=...)` as a stable insertion sort, `SortBy`. It proves that the result is a permutation, that it is ordered, and that it is stable, meaning each key's records keep their order. It also proves that a stable ordering is unique, so any stable sort, Timsort included, gives the same list.
- `Serialization` (serialization.dfy) has `_serialize`: the specification function `Serialized`, and the in-place method `Serialize` on a mutable `Document`.
- `Store` (store.dfy) has `_collection`.
- `Listings` (listings.dfy) has the per-collection order rules and the five listing endpoints.
- `Scenarios` (scenarios.dfy) works through concrete cases: the weekday table, and three-record feed, assessment and schedule orderings.

Behaviours of the code worth knowing, all modelled as written:

- Serializing an already serialized record is not a pass-through. The second pass finds no `_id`, so it overwrites `id` with `"None"`, because `str(None)` is taken at main.py:46. `SerializeTwiceLosesId` proves this.
- A record with no `_id` is not rejected. It gets `id = "None"`.
- Each listing endpoint has its own ordering rule, and the model has one function per endpoint.
- The `limit` is applied by the store before sorting, so a listing orders the records the store returned. It is not the newest `limit` records of the collection.

## Model

| member | source | states |
|---|---|---|
| `Values.GetOr` | main.py:46 | `d.get(key, default)`: the stored value when the key is present, the default otherwise |
| `Values.PyStr` | main.py:46 | Python's `str()`: a string is itself, `None` is `"None"`, an ObjectId is its library text form, any other value its library `str` |
| `Serialization.Normalized` | main.py:49-51 | a datetime value becomes the string of its `isoformat()`; any other value is returned unchanged; the result is never a datetime |
| `Serialization.Serialized` | main.py:43-52 | an empty document is returned unchanged; otherwise the result has no `_id`, has `id` = `str(_id)` (or `"None"` when `_id` is missing), has exactly the old keys minus `_id` plus `id`, has every other datetime field replaced by its ISO text and every other non-datetime field (such as "HH:MM" strings) unchanged |
| `Serialization.Serialize` | main.py:43-52 | returns the very object it was given; a non-null document's fields become `Serialized` of its old fields, written in place by a loop over a snapshot of the items; `null` (no document) passes through |
| `Serialization.NormalizeOne` | main.py:49-51 | one pass of the loop keeps its invariant: the snapshot's keys, the still-pending values as fetched, every other value normalized, with one more key done |
| `Serialization.NoDateTimeLeft` | main.py:48-51 | no value of a serialized non-empty document is a datetime |
| `Serialization.SerializeTwiceLosesId` | main.py:46-47 | serializing twice equals serializing once with `id` overwritten by `"None"` |
| `Serialization.IdlessSerialized` | main.py:46-51 | a document that has `id`, no `_id` and no datetime value is serialized to itself with `id` set to `"None"` |
| `Store.Collection` | main.py:37-40 | fails exactly when no database is configured, for any collection name, with HTTP 500 "Database not configured"; otherwise gives that database's collection of the given name |
| `Text.Lower` | main.py:131 | `lower()`: same length, every ASCII capital replaced by its small letter, every other character kept |
| `Text.StrLe` | main.py:132 | Python's `<=` on strings: a prefix (the empty string included) is `<=` every extension of it |
| `Text.StrLeAtFirstDifference` | main.py:132 | past a common prefix, the first differing characters decide `<=` by code point |
| `Text.StrLeTotal` | main.py:132 | any two strings compare one way or the other under Python's `<=` |
| `Text.StrLeTrans` | main.py:132 | Python's `<=` on strings is transitive |
| `Text.StrLeAntisym` | main.py:132 | two strings that are each `<=` the other are equal |
| `Ordering.KeyLe` | main.py:130-133 | tuple comparison of `(day index, start_time)`: the first components decide when they differ, the strings decide when they are equal |
| `Ordering.SortBy` | main.py:128-134 | `sorted(s, key, reverse)`: same length and multiset as `s`, ordered by the key (descending when `reverse`), and for every key the records with that key appear in their order in `s` (stability) |
| `Ordering.Insert` | main.py:128-134 | inserting into an ordered list keeps it ordered, adds exactly the one element, and puts it after every element with an equal key |
| `Ordering.StableOrderUnique` | main.py:128-134 | two ordered sequences that agree on every key's subsequence are equal |
| `Ordering.SortByIsTheStableSort` | main.py:128-134 | every ordered, stable rearrangement of `s` is `SortBy(s)`, so the model agrees with any stable sort |
| `Listings.DateOf` | main.py:103 | `d.get(field, datetime.min)`: `datetime.min` when the field is missing, the field's datetime when it holds one |
| `Listings.OrderByDate` | main.py:103 | succeeds exactly when at most one record is given or every record's field is missing or a datetime, and otherwise fails naming the field; on success it is a permutation of the fetched records, non-increasing by date when `reverse` and non-decreasing otherwise; a record missing the field comes after every record dated after `datetime.min` when `reverse` and before every such record otherwise; records with the same date keep their fetched order |
| `Listings.DateOrderFacts` | main.py:103 | a list sorted by the date key is non-increasing by date when `reverse` and non-decreasing otherwise, and a record missing the field comes after (when `reverse`) or before (otherwise) every record dated after `datetime.min` |
| `Listings.DayIndex` | main.py:127 | the weekday index is in 0..7; it is below 7 exactly when the lower-cased name is one of monday..sunday, and then it is that name's position in the week |
| `Listings.DayOf` | main.py:131 | `order.get(str(d.get("day", "")).lower(), 7)`: an index in 0..7; 7 when `day` is missing; the `DayIndex` of the name when `day` holds a string |
| `Listings.StartOf` | main.py:132 | `str(d.get("start_time", ""))`: `""` when the field is missing, the string itself when it holds one |
| `Listings.OrderSchedule` | main.py:127-134 | a permutation of the fetched items, non-decreasing in (weekday index, `start_time`) compared lexicographically; items on an unrecognised or missing day come after every item on a recognised day; within a day an item with no `start_time` comes before every item with a non-empty one; items in the same slot keep their fetched order |
| `Listings.ScheduleOrderFacts` | main.py:127-134 | a list sorted by the schedule key is non-decreasing in (weekday index, `start_time`), lists unrecognised days last, and within a day lists a missing `start_time` before every non-empty one |
| `Listings.SlotFacts` | main.py:131-132 | the (weekday index, `start_time`) order alone puts index-7 items after all others and, within a day, an item with no `start_time` before every item with a non-empty one |
| `Listings.SerializeAll` | main.py:104 | `[_serialize(d) for d in docs]`: same length, each element serialized, and no element has an `_id` |
| `Listings.ListFeed` | main.py:100-104 | fails, naming `created_at`, exactly when the `created_at` sort cannot be applied; otherwise the response is the `created_at`-newest-first order of the fetched posts, each serialized after sorting |
| `Listings.ListLessons` | main.py:146-150 | the same for lessons, by `date`, newest first |
| `Listings.ListGrades` | main.py:161-165 | the same for grades, by `date`, newest first |
| `Listings.ListAssessments` | main.py:176-180 | the same for assessments, by `due_date`, earliest first |
| `Listings.ListSchedule` | main.py:123-135 | the response has one record per fetched item: the schedule order, each serialized; it never fails |
| `Scenarios.DayIndexByName` | main.py:127-131 | a day name that lower-cases character by character to `name` gets `name`'s position in the week, or 7 when `name` is not a weekday |
| `Scenarios.CapitalisedMonday` | main.py:127-131 | "Monday" has weekday index 0 |
| `Scenarios.UpperCaseTuesday` | main.py:131 | "TUESDAY" has weekday index 1 |
| `Scenarios.UnknownDays` | main.py:131 | "Funday" and a missing day (`""`) have index 7 |
| `Scenarios.NewestFirstOfThree` | main.py:103 | three records dated middle, oldest, newest are listed newest, middle, oldest |
| `Scenarios.FeedNewestFirst` | main.py:103 | posts at t0, t0 - h and t0 + h come out as t0 + h, t0, t0 - h |
| `Scenarios.AssessmentsEarliestFirst` | main.py:179 | an assessment due in ten days is listed after one due in two |
| `Scenarios.ScheduleByDayThenTime` | main.py:127-134 | any three items on Friday 14:00, Monday 09:00, Monday 08:00, in that order, come out as Monday 08:00, Monday 09:00, Friday 14:00 |
| `Scenarios.EmptyListings` | main.py:128-134 | nothing fetched gives an empty listing |

## Left out

- FastAPI setup, CORS, routing, the request models and the root endpoint (main.py:19-32, 55-95) are framework glue.
- The `database` module (`get_documents`, `create_document`, `find_one`) and its `limit` handling are store I/O and are not part of this model. The fetched records are the listing functions' input.
- The create endpoints (main.py:107-188) are an insert and a re-fetch through the store. Their last step is `_serialize`, which is modelled.
- The `/test` diagnostics (main.py:191-221) read environment variables and query the store. The `/seed` endpoint (main.py:224-281) writes literal records with `datetime.utcnow()`. Both are I/O.
- `isoformat()`, `str(ObjectId)`, and `str()` of numbers, booleans, datetimes and lists are library calls. They are fields of `Library`, and nothing is assumed about them.
- Float fields (`score`, `total`) are opaque bit patterns that are only passed through. Pydantic validation (schemas.py) is not modelled.
- `Text.Lower`: does not model Unicode case mapping, only ASCII letters. No non-ASCII character lowers to exactly one of the ASCII letters of "monday".."sunday", so the weekday index does not depend on this.
- `Listings.OrderByDate`: fails for any non-datetime date value once there are two or more records. Python raises `TypeError` only when such a value is actually compared with an incomparable one. For example, records whose dates are all strings would sort without error in Python. Time zones (naive against aware datetimes) are not modelled either.
- Nested sub-documents (a dictionary as a field value) have no `Value` case. `_serialize` only looks at top-level values (main.py:49-51), so such a value would pass through unchanged, but the model's value domain is smaller than the store's.
- Dictionary key order (Python keeps insertion order) is not modelled, because documents are maps.
- The listing endpoints are modelled on values. The in-place rewriting of each fetched dictionary is modelled only by `Serialization.Serialize` on a single `Document`. Aliasing between fetched records (the same dictionary fetched twice) is not modelled; the store never returns it.
