# Feedback correction pipeline, in Dafny

A model of the correction pipeline of a small FastAPI service that collects
users' corrections to a food-recognition result, and proofs about it. A
correction says which dish was predicted (`original`), which dish it really
was (`corrected`), their weights in grams, and optional per-ingredient
adjustments.

The model follows a correction through the service:

1. the body of `POST /correction` is validated against the pydantic schema
   `CorrectionIn` (`Schemas`);
2. it is stored as one `feedback_corrections` row and one
   `ingredient_adjustments` row per adjustment, in one transaction (`Models`,
   `Ingest`);
3. it is echoed back as a `CorrectionOut`;
4. it comes out again through `GET /export`, as JSON Lines or as CSV
   (`Export`);
5. it is counted by `GET /stats`, which lists the five most-corrected dish
   names (`Stats`).

`Endpoints` puts the three routes together, with the API-key check in front.

The proofs cover these properties:

- **Validation.** Validation accepts a body exactly when it describes a valid
  payload: both directions are proved, with every length and range bound of
  the schema. `extra="forbid"` applies at the top level only.
- **Storage.** Storing keeps the tables well formed. Ids are fresh and
  ascending, and every adjustment belongs to a stored correction. A failure
  before the commit leaves the tables unchanged, and so does a `deltaGrams` beyond SQLite's 64-bit integers, which makes the commit fail. A failure after the commit
  leaves the row stored.
- **Export.** Both export formats read back to exactly the stored records.
  Reading back needs a model of `json.dumps` and of `csv.writer`, and a
  reader for each. Both formats therefore describe the same data.
- **Statistics.** The statistics are exactly the top five groups under
  `ORDER BY count DESC, corrected_name ASC`. Sorting by that order admits
  only one result, so the query's answer is fully determined.
- **Whole requests.** A post followed by an export or the statistics shows
  the new correction, and nothing else changes.

| file | module | what it holds |
|---|---|---|
| wrappers.dfy | Wrappers | `Option`, `Result` |
| text.dfy | Text | decimal and hexadecimal text of integers, `Concat` of streamed chunks |
| json_text.dfy | JsonText | JSON values; `json.dumps` with its default separators and `ensure_ascii` |
| json_read.dfy | JsonRead | a JSON reader for that output, and `Loads(Dumps(v)) == Some(v)` |
| csv_text.dfy | CsvText | `csv.writer` rows (excel dialect, minimal quoting) and a reader for them |
| schemas.dfy | Schemas | `DishPortion`, `IngredientAdjustmentIn`, `CorrectionIn` validation |
| models.dfy | Models | the two tables, their keys, the foreign key and the cascade |
| ingest.dfy | Ingest | `post_correction` |
| export.dfy | Export | the `format` query check, `_stream_jsonl`, `_stream_csv`, reading both back |
| stats.dfy | Stats | `feedback_stats` |
| endpoints.dfy | Endpoints | the three routes with authentication, and properties across requests |

Where the service's specification and its code disagree, the model follows
the code:

- **Export format check.** The check is the case-sensitive pattern
  `^(csv|jsonl)$` on the query parameter. A mismatch is answered 422 by the
  framework, not 400. `JSONL` and `Csv` are rejected.
- **Statistics tie-break.** Equal counts are ordered by the corrected name,
  ascending, in SQLite's binary (code-point) order. They are not ordered by
  the earliest correction.
- **Correction ids.** An id is the table's largest id plus one: SQLite's
  `rowid` choice for an `INTEGER PRIMARY KEY`. The first correction gets
  id 1.
- **Failure after the commit.** The `try` block also covers the refresh that
  follows the commit. A failure there is answered 500, but the rollback
  comes after the commit, so the correction stays stored.
- **Empty adjustments.** An empty `adjustments` list stores no adjustment
  rows. The answer then carries `adjustments: null`, as if none had been
  sent. The JSON Lines export leaves the key out, and the CSV export leaves
  the field empty.

## Model

| member | source | states |
|---|---|---|
| Schemas.DecodeString | app/schemas.py:29 | a required string field is accepted exactly when it is a JSON string whose length lies within the bounds, and any error is reported at the field's own location |
| Schemas.DecodePortion | app/schemas.py:9-13 | an accepted portion has a name of 1 to 200 characters and 1 to 10000 grams, and is the one the JSON describes; failures are reported under the portion's location |
| Schemas.DecodeAdjustment | app/schemas.py:16-21 | an accepted adjustment has an ingredient of 1 to 100 characters and notes of at most 500, taken from the JSON; failures are reported under its location |
| Schemas.ExtraKeyErrors | app/schemas.py:27 | there is an `extra_forbidden` error for key `k` exactly when `k` occurs at the top level and is not a field of `CorrectionIn`; the list is empty exactly when every key is a field |
| Schemas.Decode | app/schemas.py:24-35 | an accepted body is a valid payload, describes that payload, and has no unknown top-level key; a rejected body carries at least one error |
| Schemas.DecodeComplete | app/schemas.py:24-35 | conversely, a body that describes a valid payload and has only known keys decodes to exactly that payload |
| Schemas.RequestAcceptedIffValid | app/schemas.py:24-35 | a payload sent as a client sends it is accepted if and only if it satisfies every field constraint, and it then decodes to itself |
| Schemas.DecodeRequestJson | app/schemas.py:24-35 | a valid payload, serialised, decodes back to itself |
| Schemas.PortionBounds | app/schemas.py:12-13 | a portion is accepted if and only if its name has 1 to 200 characters and its weight is 1 to 10000 grams |
| Schemas.GramsBoundaries | tests/test_validation.py:22-31 | 0 and 10001 grams are rejected; 1 and 10000 grams are accepted |
| Schemas.AdjustmentBounds | app/schemas.py:19-21 | an adjustment is accepted if and only if its ingredient has 1 to 100 characters and any notes have at most 500; `deltaGrams` is unbounded in both signs |
| Schemas.ImageIdBoundaries | tests/test_validation.py:47-68 | an empty `imageId` and one of 201 characters are rejected; lengths 1 and 200 are accepted |
| Schemas.ExtraKeyRejected | app/schemas.py:27 | a body is rejected with `extra_forbidden` at key `k` if and only if `k` is an unknown top-level key of it |
| Schemas.TopLevelExtraKeyRejected | tests/test_validation.py:34-44 | adding an unknown key at the top level makes any body fail |
| Schemas.PortionExtraKeyIgnored | app/schemas.py:9-13 | an unknown key inside a portion changes nothing: `DishPortion` keeps pydantic's default and ignores extras |
| Schemas.AdjustmentExtraKeyIgnored | app/schemas.py:16-21 | an unknown key inside an adjustment changes nothing |
| Schemas.MissingFieldRejected | app/schemas.py:29-31 | a missing `imageId`, `original` or `corrected` is reported as missing at that key |
| Schemas.MissingGramsRejected | tests/test_validation.py:11-19 | a portion without `grams` fails, with the error at `grams` |
| Models.NextCorrectionId | app/models.py:18 | the id the database assigns is at least 1 and exceeds every stored id, so it is fresh |
| Models.AdjustmentsOf | app/models.py:27 | a correction's adjustments are the rows whose foreign key names it, and there are none exactly when no row names it |
| Models.AdjustmentsOfAppend | app/models.py:27 | reading a correction's adjustments distributes over appended rows |
| Models.DeleteCorrection | app/models.py:27 | deleting a correction removes exactly its id, and with `delete-orphan` no surviving adjustment points to it |
| Models.DeletePreservesWf | app/models.py:27-36 | the cascade keeps the tables well formed and leaves every other correction's adjustments as they were |
| Models.CascadeKeepsOthers | app/models.py:27 | removing one correction's adjustments does not change any other correction's |
| Models.InsertWf | app/models.py:17-36 | appending a row with a larger id, and adjustments with fresh ascending ids that point to it, keeps the tables well formed |
| Models.InsertFits | app/models.py:19-38 | appending rows that fit the declared column lengths and the 64-bit integer columns keeps every row within them |
| Ingest.EmptyListStoresNone | app/routers/feedback.py:57-85 | the new correction gets no adjustment rows exactly when the list is missing or empty, since `if payload.adjustments` treats both as false; the 201 answer then carries `adjustments: null` in both cases |
| Ingest.AdjustmentRowsOf | app/routers/feedback.py:58-65 | one row per submitted adjustment, each pointing to the new correction, with consecutive fresh ids |
| Ingest.Committed | app/routers/feedback.py:45-67 | the commit appends one correction row and one row per adjustment and leaves every earlier row in place |
| Ingest.CommittedRow | app/routers/feedback.py:45-51 | the new row carries a fresh id and the payload's image id, names, weights and the commit time |
| Ingest.CommittedBatch | app/routers/feedback.py:56-65 | the new correction's adjustments are exactly the submitted ones, in order |
| Ingest.CommittedKeepsOthers | app/routers/feedback.py:56-67 | a commit changes no other correction's adjustments |
| Ingest.Response | app/routers/feedback.py:73-87 | the answer's `adjustments` is null exactly when no adjustment row was read back, and otherwise has one entry per row |
| Ingest.PostCorrection | app/routers/feedback.py:43-94 | it answers with the stored correction exactly when nothing fails and every `deltaGrams` fits SQLite's 64-bit integer; a failure at the flush or the commit, or an out-of-range `deltaGrams` (which makes the commit's flush raise), leaves the tables unchanged; a failure at the refresh leaves the commit in place |
| Ingest.OverflowStoresNothing | app/routers/feedback.py:58-94 | a `deltaGrams` outside the signed 64-bit range makes the commit fail: the answer is the storage failure and the tables are unchanged, whatever else happens |
| Ingest.PostAtomic | app/routers/feedback.py:43-94 | either nothing was written, or the correction and all of its adjustments were |
| Ingest.PostPreservesWf | app/routers/feedback.py:53-67 | every outcome keeps the tables well formed |
| Ingest.PostPreservesFits | app/models.py:19-38 | a validated payload keeps every stored string within its column's declared length and every stored integer within SQLite's 64-bit range |
| Ingest.ResponseEchoesPayload | app/routers/feedback.py:73-87 | when every `deltaGrams` fits 64 bits, the 201 answer carries the fresh id, the payload's image id and portions, and the submitted adjustments in order, or null when there were none |
| Ingest.FirstPostGetsIdOne | tests/test_feedback.py:14-31 | the first correction in an empty database, with every `deltaGrams` within 64 bits, is stored with id 1 |
| Export.ParseFormat | app/routers/feedback.py:99 | the format is accepted exactly when it is absent (meaning `jsonl`) or matches the pattern; CSV is chosen only for `csv`; a mismatch is a pattern error on the `format` query parameter |
| Export.FormatIsCaseSensitive | tests/test_validation.py:91-100 | `jsonl` and `csv` are accepted and an absent format means `jsonl`; `JSONL`, `Csv`, `invalid`, the empty string and a trailing newline are rejected |
| Export.RecordsAscending | app/routers/feedback.py:107-111 | the export lists corrections in ascending id order |
| Export.JsonlLine | app/routers/feedback.py:162 | each JSON Lines record is one line: it ends in a newline and holds no other |
| Export.AdjustmentsKeyOmittedWhenNone | app/routers/feedback.py:152-160 | the `adjustments` key is present in a JSON Lines record exactly when the correction has adjustments, and then holds them in order |
| Export.AdjustmentsField | app/routers/feedback.py:184-194 | the CSV `adjustments` field is empty exactly when the correction has no adjustments |
| Export.CsvFields | app/routers/feedback.py:196-205 | every data row has as many fields as the header |
| Export.EmptyExport | tests/test_export.py:98-106 | an empty database exports no JSON Lines text and a CSV stream holding the header alone |
| Export.JsonlRoundTrip | app/routers/feedback.py:133-162 | reading the JSON Lines stream back yields exactly the records exported |
| Export.CsvRoundTrip | app/routers/feedback.py:165-208 | reading the CSV stream back, including the JSON text of the adjustments column, yields exactly the records exported |
| Export.ExportFormatsAgree | app/routers/feedback.py:97-124 | both formats read back to the same records: the stored ones |
| Export.ExportAfterPost | app/routers/feedback.py:107-160 | after a commit, the export lists the earlier records unchanged, followed by the new correction as posted |
| Stats.LexLessTotal | app/routers/feedback.py:222 | code-point order on names is total: of two different names, one sorts first |
| Stats.InsertSorted | app/routers/feedback.py:222 | inserting a group with a new name into a list sorted by count descending, then name ascending, keeps it sorted |
| Stats.SortSorted | app/routers/feedback.py:222 | sorting groups with distinct names yields that order |
| Stats.Sort | app/routers/feedback.py:222 | sorting permutes the groups |
| Stats.Take | app/routers/feedback.py:223 | `LIMIT 5` keeps the first five groups, or all of them when there are fewer |
| Stats.Top5Correct | app/routers/feedback.py:219-227 | the result has min(5, number of names) entries, each a name that occurs with its true count, strictly ordered, and no left-out name should have come before an entry |
| Stats.TopGroupsUnique | app/routers/feedback.py:219-227 | any list with those properties is the query's result |
| Stats.Top5Characterized | app/routers/feedback.py:219-227 | a list is the query's result if and only if it has those properties |
| Stats.CountAfterAppend | app/routers/feedback.py:220-221 | storing one correction adds one to its corrected name's count and leaves every other count |
| Stats.Top5OfOne | tests/test_feedback.py:39-43 | with one correction stored, the statistics are that name with count 1 |
| Endpoints.HandleCorrection | app/routers/feedback.py:35-94 | without a valid key the answer is the rejection and nothing changes; an invalid body gets its errors, each located under `body`, and nothing changes; a 201 answer means a valid payload whose `deltaGrams` fit 64 bits; any change is that payload's commit |
| Endpoints.HandleExport | app/routers/feedback.py:97-124 | the key check precedes the format check, which precedes streaming; `jsonl` streams `_stream_jsonl` as `application/x-jsonlines` in `feedback.jsonl`, and `csv` streams `_stream_csv` as `text/csv` in `feedback.csv` |
| Endpoints.ExportAnswerReadsBack | app/routers/feedback.py:97-124 | with a valid key, `csv` is answered with a stream that reads back as CSV, and an absent format or `jsonl` with one that reads back as JSON Lines, in both cases to exactly the stored records in ascending id order |
| Endpoints.HandleStats | app/routers/feedback.py:211-229 | with a valid key the answer is the top groups of the stored corrections |
| Endpoints.CorrectionPreservesInvariants | app/routers/feedback.py:35-94 | every request keeps the tables well formed and within their column lengths |
| Endpoints.RejectedChangesNothing | app/routers/feedback.py:35-40 | a request rejected by the key check or the validator leaves the statistics and both exports as they were |
| Endpoints.PostThenRead | tests/test_export.py:65-95 | a valid post whose `deltaGrams` fit 64 bits is answered 201 with a fresh id and the payload; both exports then read back as the earlier records followed by it; its corrected name's count grows by one and every other count stays |
| Endpoints.AuthBeforeValidation | tests/test_auth.py:17-65 | without a valid key, each route is rejected whatever its body or format |
| Endpoints.OverflowAnswers500 | app/routers/feedback.py:43-94 | a valid body whose `deltaGrams` does not fit 64 bits, sent with a valid key, is answered 500 and the database is unchanged |
| Endpoints.PostThenStatsOnEmpty | tests/test_feedback.py:14-43 | on an empty database a valid post whose `deltaGrams` fit 64 bits gets id 1, and the statistics then list its corrected name once |
| Endpoints.EndToEndOnEmpty | tests/test_feedback.py:14-43 | the fried-rice body of the end-to-end scenario, sent with a valid key, is answered 201 for `abc123`, and `Tonkotsu Ramen` is then listed with count 1 |
| Endpoints.EndToEndWithoutKey | tests/test_feedback.py:24-43 | the same body sent without a key, as that test sends it, is refused and stores nothing, so the statistics stay empty |
| JsonText.DumpsIsOneLine | app/routers/feedback.py:162 | `json.dumps` output with `ensure_ascii` contains no line break, so each record is one line |
| JsonRead.LoadsDumps | app/routers/feedback.py:162 | reading back the text `json.dumps` writes yields the same JSON value |
| CsvText.ReadRowsOfWrite | app/routers/feedback.py:196-205 | reading back rows that `csv.writer` wrote yields the same fields, whatever commas, quotes or line breaks they hold |
| Text.ParseIntRoundTrip | app/routers/feedback.py:196-202 | the decimal text of an integer reads back as that integer |

## Left out

- `app/database.py` (engine and session set-up), `app/main.py` (application set-up and the taxonomy routes), `app/security.py` (CORS and the rate limiter) and the health routes: they are configuration rather than pipeline logic. No rate limit is attached to these routes.
- `app/auth.py` is not part of this model. The API-key verdict is a `bool` input, checked before the body and the query, as FastAPI resolves dependencies first. The status code of a rejection is not modelled.
- Parsing the raw request body is not modelled. Validation starts from a JSON value, and a body that is not JSON is refused before the key check.
- Schemas.Decode: JSON numbers are integers only, and floats are outside the model. Numeric strings and booleans given for `int` fields are refused where pydantic's lax mode would coerce them. The order of the collected errors is the model's own, not pydantic's.
- Python's `datetime` formatting is not modelled. `created_at` is an opaque timestamp text supplied by the caller, and the export appends `Z` to it.
- SQLite does not enforce `VARCHAR` lengths. The model states the column bounds as an invariant that validation keeps (`Models.InsertFits`, `Ingest.PostPreservesFits`).
- The 500 answers of the export and statistics routes are not modelled: they depend on database faults the model does not represent. Only `post_correction`'s faults are modelled, as the `Fault` parameter.
- Streaming is not modelled. The exports are the sequence of chunks yielded, and `Text.Concat` joins them as a client receives them.
- HTTP status codes, headers and media types appear only as constructors and strings of `Endpoints.Response`. Nothing is proved about the wire format.
- Models.AdjustmentsOf: read-back order is insertion order, which is SQLite's rowid order when there is no `ORDER BY`. The database engine does not guarantee this order.
- Endpoints.EndToEndOnEmpty: the key is taken as valid, while the test it follows posts without one (see Findings).
- Correction and adjustment ids are unbounded: SQLite's failure once a `rowid` passes the 64-bit range is not modelled.

## Findings

| source | as written | input that shows it | evidently intended | confidence | as-written member | corrected member |
|---|---|---|---|---|---|---|
| tests/test_feedback.py:24 | the end-to-end test posts the fried-rice body without an `Authorization` header and expects 201, but the route requires the API key, and tests/test_auth.py:25-26 expects 401 for the same kind of request | the fried-rice body of tests/test_feedback.py:15-23, with no key, on an empty database | send `Authorization: Bearer demo-key-123`, as the authenticated tests do, so the post is stored and `Tonkotsu Ramen` appears in the statistics | not executed; medium | Endpoints.EndToEndWithoutKey | Endpoints.EndToEndOnEmpty |
