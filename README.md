# Analytics engine session: state restore

A model of `NativeAnalyticsProcess`, the Elasticsearch machine-learning session
that drives the native data-frame analytics engine. The model covers the
session's fixed configuration, its name, its no-op state persistence, and above
all `restoreState`. That loop copies the persisted state documents
`prefix + "1"`, `prefix + "2"`, … one at a time from the state index into the
engine's restore stream. It stops at the first missing document, returns as
soon as the process is seen to be killed, and closes the stream on every way
out.

Layout:

- `doc_ids.dfy`, module `DocIds`: document identifiers (`prefix` followed by the
  sequence number in decimal). Decimal rendering round-trips, so distinct
  sequence numbers give distinct identifiers. Hence a store holding documents
  1 to k has at least k keys, which is why the `while (true)` loop ends.
- `restore.dfy`, modules `Wrappers` (an `Option` for Java's nullable
  references), `StateRestore` (the loop as a specification function
  `RestoreFrom`/`Restore` and its properties) and `RestoreScenario` (a worked
  two-document restore).
- `process.dfy`, module `NativeAnalytics`: the session class
  `AnalyticsProcess` with the imperative restore loop `RestoreState`, proved
  equal to `Restore`, and the restore stream as a class `RestoreStream`.

Collaborators become parameters:

- The state index is a `map<string, Payload>` from document identifier to its
  source bytes. A search finds the document or nothing.
- What the loop cannot see is an `Env` of three oracles indexed by iteration `i`
  (the number of documents already copied). They say whether `isProcessKilled()`
  answers true at the poll of iteration `i`, whether the search for document
  `i + 1` throws an `IOException`, and whether copying it into the stream
  throws one.
- Writing to a closed stream fails, as Java output streams do after `close`.
- `RestoreState` also returns the identifiers it searched for, so that the
  order of the searches can be stated.

Only a null prefix is rejected (line 68). An empty prefix is accepted and
restores documents `"1"`, `"2"`, …. The model follows the code here, not the
stricter reading under which an empty prefix would also be refused.

## Model

| member | source | states |
|---|---|---|
| `DocIds.Decimal` | x-pack/plugin/ml/src/main/java/org/elasticsearch/xpack/ml/dataframe/process/NativeAnalyticsProcess.java:79 | the counter appended to the prefix is a non-empty string of decimal digits with no leading zero |
| `DocIds.DecimalRoundTrip` | x-pack/plugin/ml/src/main/java/org/elasticsearch/xpack/ml/dataframe/process/NativeAnalyticsProcess.java:79 | reading the rendered counter back gives the counter |
| `DocIds.DocIdInjective` | x-pack/plugin/ml/src/main/java/org/elasticsearch/xpack/ml/dataframe/process/NativeAnalyticsProcess.java:79 | two sequence numbers name the same document exactly when they are equal |
| `DocIds.RunBound` | x-pack/plugin/ml/src/main/java/org/elasticsearch/xpack/ml/dataframe/process/NativeAnalyticsProcess.java:70-82 | a store holding documents 1 to k holds at least k keys, so the loop that stops at the first missing document ends |
| `StateRestore.RestoreFrom` | x-pack/plugin/ml/src/main/java/org/elasticsearch/xpack/ml/dataframe/process/NativeAnalyticsProcess.java:71-86 | from counter n, the searches are for documents n+1, n+2, … with no gap or repeat, and there is one search per copied document plus one more unless a kill stopped the loop |
| `StateRestore.Restore` | x-pack/plugin/ml/src/main/java/org/elasticsearch/xpack/ml/dataframe/process/NativeAnalyticsProcess.java:70-79 | the counter starts at 0 and is incremented before each search, so searches go to document 1, 2, … and never to document 0 |
| `StateRestore.RestoreStopsAtFirstObstacle` | x-pack/plugin/ml/src/main/java/org/elasticsearch/xpack/ml/dataframe/process/NativeAnalyticsProcess.java:71-86 | the copied payloads are the stored documents in sequence order, every earlier iteration passed, and the loop stopped for the reported reason at the first kill, failed search, missing document or failed write |
| `StateRestore.FirstObstacleDeterminesRestore` | x-pack/plugin/ml/src/main/java/org/elasticsearch/xpack/ml/dataframe/process/NativeAnalyticsProcess.java:71-86 | conversely, the first obstacle at iteration k fixes the outcome: exactly k documents are copied and the loop stops for that obstacle's reason |
| `StateRestore.RestoreCopiesWholeRun` | x-pack/plugin/ml/src/main/java/org/elasticsearch/xpack/ml/dataframe/process/NativeAnalyticsProcess.java:71-86 | with documents 1..N present, N+1 absent and no kill or I/O failure, exactly the N payloads are copied in order, N+1 searches are made, and the call returns normally |
| `StateRestore.RestoreEmptyState` | x-pack/plugin/ml/src/main/java/org/elasticsearch/xpack/ml/dataframe/process/NativeAnalyticsProcess.java:80-82 | with no document 1, nothing is copied and the call returns normally: empty state is not an error |
| `StateRestore.RestoreKilledAtEntry` | x-pack/plugin/ml/src/main/java/org/elasticsearch/xpack/ml/dataframe/process/NativeAnalyticsProcess.java:72-74 | a kill seen at the first poll means no search and no write, and a normal return |
| `StateRestore.RestoreKilledAfter` | x-pack/plugin/ml/src/main/java/org/elasticsearch/xpack/ml/dataframe/process/NativeAnalyticsProcess.java:72-85 | a kill first seen before iteration k+1 leaves exactly documents 1..k, whole and in order, in the stream, after exactly k searches |
| `StateRestore.KillPolledBeforeEveryFetch` | x-pack/plugin/ml/src/main/java/org/elasticsearch/xpack/ml/dataframe/process/NativeAnalyticsProcess.java:72-79 | every search is preceded by a poll of the kill flag that found it clear |
| `StateRestore.RestoreFirstFetchFails` | x-pack/plugin/ml/src/main/java/org/elasticsearch/xpack/ml/dataframe/process/NativeAnalyticsProcess.java:77-79 | a failing search for document 1 propagates the failure with nothing copied |
| `RestoreScenario.TwoDocumentSeries` | x-pack/plugin/ml/src/main/java/org/elasticsearch/xpack/ml/dataframe/process/NativeAnalyticsProcess.java:67-88 | with "job1_1" and "job1_2" stored and no "job1_3", the two payloads are copied in order after searches for "job1_1", "job1_2", "job1_3", and the call returns normally |
| `NativeAnalytics.RestoreStream.Write` | x-pack/plugin/ml/src/main/java/org/elasticsearch/xpack/ml/dataframe/process/NativeAnalyticsProcess.java:85 | a write appends the whole payload, or nothing when the stream is closed or the write fails |
| `NativeAnalytics.RestoreStream.Close` | x-pack/plugin/ml/src/main/java/org/elasticsearch/xpack/ml/dataframe/process/NativeAnalyticsProcess.java:69-87 | closing marks the stream closed, counts one close and leaves its contents alone |
| `NativeAnalytics.AnalyticsProcess.constructor` | x-pack/plugin/ml/src/main/java/org/elasticsearch/xpack/ml/dataframe/process/NativeAnalyticsProcess.java:37-44 | the session holds the given configuration and an open, empty restore stream |
| `NativeAnalytics.NewAnalyticsProcess` | x-pack/plugin/ml/src/main/java/org/elasticsearch/xpack/ml/dataframe/process/NativeAnalyticsProcess.java:43 | construction fails exactly when the configuration is null, and otherwise holds that configuration |
| `NativeAnalytics.AnalyticsProcess.GetName` | x-pack/plugin/ml/src/main/java/org/elasticsearch/xpack/ml/dataframe/process/NativeAnalyticsProcess.java:33-49 | the name is always "analytics" |
| `NativeAnalytics.AnalyticsProcess.GetConfig` | x-pack/plugin/ml/src/main/java/org/elasticsearch/xpack/ml/dataframe/process/NativeAnalyticsProcess.java:61-64 | returns the configuration fixed at construction, reading no mutable state |
| `NativeAnalytics.AnalyticsProcess.PersistState` | x-pack/plugin/ml/src/main/java/org/elasticsearch/xpack/ml/dataframe/process/NativeAnalyticsProcess.java:51-54 | changes nothing |
| `NativeAnalytics.AnalyticsProcess.RestoreState` | x-pack/plugin/ml/src/main/java/org/elasticsearch/xpack/ml/dataframe/process/NativeAnalyticsProcess.java:66-88 | a null prefix is rejected without touching the stream; otherwise the searches, the payloads appended to the stream and the stop reason are those of `Restore`, and the stream is closed exactly once on every exit |

## Left out

- `writeEndOfDataMessage` (lines 57-59): it only delegates to a control-message writer and a record writer that are not part of this model, so the end-of-data frame cannot be stated.
- The search request itself (index pattern, ids query, page size 1): the state index is a map from identifier to payload, so a search yields at most one hit, which matches the code's use of the first hit only.
- `StateToProcessWriterHelper.writeStateToStream`: its byte format is not part of this model. A write appends the document's payload as one unit, and a failing write appends nothing, so bytes a failed write may have left in the stream are not modelled.
- `NativeAnalytics.RestoreStream.Close`: a `close` that itself throws an `IOException`, and the suppressed-exception bookkeeping of try-with-resources, are not modelled.
- The superclass wiring: process pipes, number of fields, files to delete, crash handler, connect timeout, result parser. `processRestoreStream()` is modelled as the session's one restore stream.
- Logging of each restored document (line 84).
- The kill flag's cross-thread visibility: the flag is set by another thread, so the model takes the value each poll reads as an oracle.
- The 32-bit counter: `docNum` is a Java `int`, which would wrap to a negative number after 2^31 − 1 documents. The model's counter is unbounded.
- `AnalyticsProcessConfig`: only the job identifier is kept; its other fields are read by code outside this model.
