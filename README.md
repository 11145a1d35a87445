# Weather producers: climatological retrieval and real-time observations

This project models, in Dafny, the two producers that feed a weather data platform
from the Météo-France APIs, and the status-topic lock between them.

* The **climatological producer** runs once a day, fetching yesterday's hourly data
  station by station:
  1. It publishes `{"status": "busy"}` on the topic `climatologique-status` and waits 60 s.
  2. It loads the list of station batches.
  3. For each batch, it orders one file per station (`/commande-station/horaire`,
     up to three attempts, with a 90 s backoff on a 429 and 5·attempt s after a
     network error).
  4. It then polls the ordered files, for at most five passes 60 s apart
     (`/commande/fichier`). It turns every ready CSV file into a list of rows and
     publishes it on `weather-verified`, keyed by station. It drops commands that
     failed and keeps only the pending ones for the next pass.
  5. Batches are 60 s apart. After the last batch it waits 60 s and publishes "free".
* The **observation collector** loops forever:
  1. It waits until the latest message of `climatologique-status` says "free",
     checking every 5 s.
  2. It loads the batches.
  3. Before each batch it checks the lock again. It then fetches each station's recent
     observations (`/station/infrahoraire-6m`, three attempts, with a 2^attempt s
     backoff on a network error or a 429/500/503).
  4. It publishes every data point, enriched with the station's metadata, on
     `weather-real-time`.
  5. It pauses 60 s between batches and 30 s between cycles.

## How the model is built

* **The remote API is an oracle** `api: nat -> Response`: the k-th request a run sends
  receives `api(k)`. The response is a network error or a reply with a status, a text
  and the text decoded as JSON.
* **The status topic is seen through an oracle** `lock: nat -> Option<Json>`: the j-th
  check of the lock reads `lock(j)`.
* **Every operation returns a `Run`.** A `Run` holds the Python result, the trace of
  effects the operation performed and the index of the next request. The effects are
  requests, sleeps in milliseconds, publications and status-topic reads.
* **An exception that escapes a function is `Raised`.** Examples:
  * a missing `station_id`;
  * a body that is not JSON;
  * a data point that is not a mapping.
* **Each Python function with a loop is a Dafny `method` with the same loop.** Its
  `ensures` equates its result and trace with a recursive specification function. The
  properties are lemmas about those functions.
* **The dict `station_cmd_ids` is an association list** in insertion order, like a
  Python dict. `StationDict.AssignIsUpdate` proves it behaves as a map.
* **The `asyncio` tasks of a batch run one after another**, in batch order.

Modules:

| module | file | what it holds |
|---|---|---|
| `Effects` | effects.dfy | JSON values, responses, events, runs, trace counting |
| `RetrievalWindow` | window.dfy | yesterday's retrieval window and its ISO-8601 bounds |
| `CsvRecords` | csv.dfy | `csv_to_dicts` and `parse_cell` |
| `RemoteCommands` | commands.dfy | `create_command_for_station`, `fetch_file_for_station` |
| `StationDict` | dict.dfy | the dict `station_cmd_ids` as an insertion-ordered association list |
| `PassLoop` | passes.dfy | the five-pass loop of `process_batch`, over any pass |
| `BatchConvergence` | batch.dfy | `process_batch` of the climatological producer |
| `ClimateMain` | cycle.dfy | `notify_observation_busy/resume` and `main` of the climatological producer |
| `StatusLock` | lock.dfy | the latest status message, `wait_until_lock_free` |
| `Observations` | observations.dfy | `fetch_station_data`, `fetch_and_publish_station_data` |
| `Observer` | observer.dfy | `process_batch` and one cycle of `main` of the observation collector |
| `Coordination` | coordination.dfy | the busy/free protocol across the two producers |

Behaviour of the code worth noting:

* a 429 answer consumes one of the three attempts of a request loop, like a network
  error;
* after a network error no 2.5 s pause is taken, only `5 * attempt` seconds, because
  the pause in the code follows the request inside the `try`;
* `process_batch` also pauses 60 s after the fifth pass when commands remain;
* "busy" is published before the batch file is loaded. A missing file, an empty
  list or an escaping exception therefore ends `main` without "free", and the lock
  stays taken;
* a command id that is falsy (`if ok and cmd_id`) is not stored;
* in `fetch_station_data`, a status other than 200, 429, 500 and 503 is retried at
  once without a pause;
* the observer's abort branch after `wait_until_lock_free` can never be taken, since
  that function only returns `True`.

## Model

| member | source | states |
|---|---|---|
| RetrievalWindow.WindowByTimeOfDay | services/api_climatologique_producer/producer.py:62-74 | the start is yesterday at 00:00:00; the end is yesterday at 05:59:59 before 11:30 and at 23:59:59 from 11:30 on; both are 20-character strings ending in "Z" and share their date; start < end |
| RetrievalWindow.IsoRoundTrip | services/api_climatologique_producer/producer.py:73-74 | `isoformat(timespec="seconds") + "Z"` is 20 characters long and parses back to the same date and time |
| RetrievalWindow.IsoInjective | services/api_climatologique_producer/producer.py:73-74 | two date-times with the same ISO string are equal |
| RetrievalWindow.Pad2RoundTrip | services/api_climatologique_producer/producer.py:73 | a two-digit field of the ISO string reads back as its number |
| RetrievalWindow.Pad4RoundTrip | services/api_climatologique_producer/producer.py:73 | the four-digit year reads back as its number |
| CsvRecords.SplitJoin | services/api_climatologique_producer/producer.py:81-82 | splitting a text on a separator and joining the pieces again gives the text back |
| CsvRecords.JoinSplit | services/api_climatologique_producer/producer.py:81-82 | joining pieces free of the separator and splitting again gives the pieces |
| CsvRecords.CsvToDicts | services/api_climatologique_producer/producer.py:76-106 | the loop over the reader builds exactly the table `CsvTable(text, delimiter)` |
| CsvRecords.RecordsToDicts | services/api_climatologique_producer/producer.py:99-106 | the row loop appends one dict per record after the header, in order |
| CsvRecords.RowToDict | services/api_climatologique_producer/producer.py:102-104 | the inner loop over `zip(headers, row)` builds that row's dict |
| CsvRecords.CsvNoHeader | services/api_climatologique_producer/producer.py:84-86 | an empty text, or one whose first line is empty, gives no rows |
| CsvRecords.CsvShape | services/api_climatologique_producer/producer.py:99-106 | with a header there is one dict per remaining line; the keys of each are the first min(#headers, #cells) headers |
| CsvRecords.CsvRowIsRowDict | services/api_climatologique_producer/producer.py:100-105 | row i of the table is the dict zipped from the header and record i+1 |
| CsvRecords.CsvCell | services/api_climatologique_producer/producer.py:103-104 | a header not repeated later in the header line maps to `parse_cell` of its cell (a repeated header keeps the last value) |
| CsvRecords.ZipDictKeys | services/api_climatologique_producer/producer.py:103 | the keys of a zipped row are the headers zipped |
| CsvRecords.ZipDictValue | services/api_climatologique_producer/producer.py:103-104 | the last occurrence of a header carries its cell's value |
| CsvRecords.StripEmpty | services/api_climatologique_producer/producer.py:89-90 | `strip()` gives "" exactly when every character is whitespace |
| CsvRecords.ParseCellBlank | services/api_climatologique_producer/producer.py:88-97 | a cell parses to None exactly when it is all whitespace; any other cell becomes a number or a string |
| CsvRecords.StripCommas | services/api_climatologique_producer/producer.py:89-93 | stripping and replacing commas commute |
| CsvRecords.CommasToDotsTwice | services/api_climatologique_producer/producer.py:93 | replacing commas by dots is idempotent |
| CsvRecords.ParseCellCommaIsDot | services/api_climatologique_producer/producer.py:93 | a cell parses like the same cell with its commas replaced by dots |
| CsvRecords.ParseFloatDecimal | services/api_climatologique_producer/producer.py:95 | `float("ddd.ddd")` is the exact decimal value of its digits |
| CsvRecords.ParseFloatInteger | services/api_climatologique_producer/producer.py:95 | `float("ddd")` is the integer its digits spell |
| CsvRecords.ParseCellDecimalComma | services/api_climatologique_producer/producer.py:93-95 | a French decimal "whole,frac" parses to the number whole.frac |
| CsvRecords.ParseCellExamples | services/api_climatologique_producer/producer.py:88-95 | "12,5" parses to 12.5 and " \t" to None |
| CsvRecords.ParseCellText | services/api_climatologique_producer/producer.py:88-97 | a cell becomes a string iff it is not blank and its stripped, comma-to-dot text is not a number; the string is that text: non-empty, no whitespace at either end, no comma |
| CsvRecords.ParseCellKeepsNormalisedText | services/api_climatologique_producer/producer.py:96-97 | an example of the rule above: " a,b " becomes the string "a.b", not the cell verbatim |
| RemoteCommands.CommandIdLookup | services/api_climatologique_producer/producer.py:124-130 | `resp.json()["elaboreProduitAvecDemandeResponse"]["return"]` is found exactly when both keys are present; a missing key is the `KeyError` case |
| RemoteCommands.CreateCommandForStation | services/api_climatologique_producer/producer.py:108-149 | the attempt loop returns, sends and sleeps exactly as `CreateFrom` |
| RemoteCommands.CreateContract | services/api_climatologique_producer/producer.py:116-149 | 1 to 3 requests, each followed by a sleep; every request but the last got a network error or a 429, and fewer than three requests means the last got neither; the result is (id, True) iff the last reply is a 202 with an id; an exception escapes iff the last reply is a 202 whose body cannot be indexed; it is (None, False) iff the attempts ran out, the last code was not 202, or the 202 had no id |
| RemoteCommands.CreateAcceptedAtOnce | services/api_climatologique_producer/producer.py:119-127 | a first reply 202 with an id gives (id, True) after one request and one 2.5 s sleep |
| RemoteCommands.CreateQuotaExhausted | services/api_climatologique_producer/producer.py:132-135 | three 429s: three requests, each followed by 2.5 s and 90 s, then (None, False) |
| RemoteCommands.CreateNetworkExhausted | services/api_climatologique_producer/producer.py:145-149 | three network errors: sleeps of 5, 10 and 15 s and no 2.5 s pause, then (None, False) |
| RemoteCommands.AttemptsBound | services/api_climatologique_producer/producer.py:117-147 | the shared attempt loop sends between one and three requests, each followed by a sleep |
| RemoteCommands.AttemptsClosedForm | services/api_climatologique_producer/producer.py:117-196 | the shared attempt loop of `create_command_for_station` and `fetch_file_for_station` sends requests while they get a network error or a 429, at most three in all; its trace is one segment per request and its result is the verdict on the last reply, or the final failure when three were retried |
| RemoteCommands.AttemptsPublishNothing | services/api_climatologique_producer/producer.py:117-147 | the attempt loop publishes nothing |
| RemoteCommands.FetchFileForStation | services/api_climatologique_producer/producer.py:151-196 | the attempt loop, with the CSV conversion on a 201, gives exactly `FetchFrom` |
| RemoteCommands.AwaitFile | services/api_climatologique_producer/producer.py:160-196 | the attempt loop of the file retrieval gives exactly `FetchAttempts` |
| RemoteCommands.FetchContract | services/api_climatologique_producer/producer.py:160-196 | 1 to 3 requests, each followed by a sleep; rows are present iff the status is "done", iff the last reply is a 201, and they are then `csv_to_dicts(resp.text, ";")`; "pending" iff the last reply is a 204 or 404; the earlier replies all got a network error or a 429, and fewer than three requests means the last got neither |
| RemoteCommands.FetchQuiet | services/api_climatologique_producer/producer.py:151-196 | the retrieval sends at most three requests and publishes nothing |
| RemoteCommands.FetchPendingAtOnce | services/api_climatologique_producer/producer.py:174-177 | a first 204 is "pending" after one request and one pause |
| RemoteCommands.FetchAfterQuotaAndNetwork | services/api_climatologique_producer/producer.py:163-194 | a 429, then a network error, then a 201, gives the rows of the third reply after 90 s and 10 s backoffs |
| StationDict.AssignIsUpdate | services/api_climatologique_producer/producer.py:210 | `d[key] = v` on the association list is the map update `d[key := v]` |
| StationDict.AssignKeys | services/api_climatologique_producer/producer.py:210 | an assignment appends the key when new and otherwise keeps the key order |
| StationDict.AssignUnique | services/api_climatologique_producer/producer.py:210 | an assignment keeps every key unique |
| StationDict.AssignValues | services/api_climatologique_producer/producer.py:236 | after an assignment every entry holds the value assigned or is an entry the dict already had |
| BatchConvergence.LookupStationIds | services/api_climatologique_producer/producer.py:206 | the loop reading every `station["station_id"]` gives `StationIds` |
| BatchConvergence.CreateOneStation | services/api_climatologique_producer/producer.py:205-212 | one creation task: a 2.5 s pause, the command, and the entry stored only when ok and the id is truthy |
| BatchConvergence.RunCreationPhase | services/api_climatologique_producer/producer.py:214-216 | the creation tasks of the batch, in order, give exactly `CreationPhase` |
| BatchConvergence.StoreAllKeys | services/api_climatologique_producer/producer.py:205-212 | after creation the dict has unique keys, exactly the stations whose command came back ok with a truthy id, every stored id is truthy, and each station maps to the id of its last such creation |
| BatchConvergence.StoreAllSize | services/api_climatologique_producer/producer.py:205-212 | the dict has no more entries than the batch has stations |
| BatchConvergence.CreateEachQuiet | services/api_climatologique_producer/producer.py:214-216 | creation sends at most three requests per station and publishes nothing |
| BatchConvergence.CreationFacts | services/api_climatologique_producer/producer.py:205-216 | the creation phase keeps its budget, publishes nothing, and builds a dict of commands with unique keys |
| BatchConvergence.FetchOneContract | services/api_climatologique_producer/producer.py:228-241 | one `do_fetch` sends at most three requests and publishes exactly `{"station_id", "rows"}` keyed by station when "done", and nothing otherwise |
| BatchConvergence.DoFetch | services/api_climatologique_producer/producer.py:228-230 | the pause and the file retrieval give exactly `FetchOne` |
| BatchConvergence.PassContract | services/api_climatologique_producer/producer.py:224-248 | a pass polls exactly the entries whose id is not None, sends at most three requests per entry, and publishes the "done" messages in dict order |
| BatchConvergence.RunPass | services/api_climatologique_producer/producer.py:222-250 | one pass with its marking and cleaning gives exactly `PassResult` |
| BatchConvergence.LeftAfter | services/api_climatologique_producer/producer.py:236-250 | after a pass a station is left in the dict exactly when its poll was "pending" |
| BatchConvergence.RebuildKeys | services/api_climatologique_producer/producer.py:250 | the rebuilt dict keeps exactly the entries whose id is not None, in order, with unique keys |
| BatchConvergence.MarkKeys | services/api_climatologique_producer/producer.py:236-241 | setting resolved entries to None changes no key |
| BatchConvergence.DoneMessagesShape | services/api_climatologique_producer/producer.py:231-234 | the messages of a pass are on "weather-verified", keyed by the stations that were "done" |
| BatchConvergence.DoneStationsResolved | services/api_climatologique_producer/producer.py:231-250 | no station is published twice in a pass, and a published station leaves the dict |
| BatchConvergence.OnePass | services/api_climatologique_producer/producer.py:222-250 | a pass keeps the pass contract used by the loop |
| BatchConvergence.RunPasses | services/api_climatologique_producer/producer.py:219-256 | the pass loop gives exactly `PassesFrom` |
| BatchConvergence.ProcessBatch | services/api_climatologique_producer/producer.py:198-258 | creation followed by the pass loop gives exactly `BatchSpec` |
| BatchConvergence.BatchPublications | services/api_climatologique_producer/producer.py:198-258 | a batch publishes only on "weather-verified", keyed by station, each station at most once, and only stations of the dict built that are not left; a batch that raised published nothing |
| BatchConvergence.BatchRequests | services/api_climatologique_producer/producer.py:198-258 | a batch sends at most 3 × stations × (1 + 5) requests |
| BatchConvergence.BatchPasses | services/api_climatologique_producer/producer.py:219-256 | at most five passes, fewer only when nothing is left; the entries left are unique entries of the dict built |
| PassLoop.PassesIdle | services/api_climatologique_producer/producer.py:245-246 | with five passes done or nothing outstanding, the loop stops with no effect |
| PassLoop.PassesCount | services/api_climatologique_producer/producer.py:219-256 | at most five passes run, and fewer only when no command is outstanding |
| PassLoop.PassesInOrder | services/api_climatologique_producer/producer.py:219-256 | the loop is the chain of its passes: each on the dict the previous pass left and with some command outstanding, each followed by a 60 s pause when it left entries; the dict left and the next request are the last pass's |
| PassLoop.PassesEntries | services/api_climatologique_producer/producer.py:250 | the dict left holds entries of the dict the loop started from |
| PassLoop.PassesUnique | services/api_climatologique_producer/producer.py:250 | the dict left keeps unique keys |
| PassLoop.PassesRequests | services/api_climatologique_producer/producer.py:219-256 | the remaining passes send at most three requests per entry per pass |
| PassLoop.PassesTopic | services/api_climatologique_producer/producer.py:234 | every publication of the loop is on "weather-verified", keyed by a station |
| PassLoop.PassesResolved | services/api_climatologique_producer/producer.py:231-250 | a published station was in the dict and is no longer in it |
| PassLoop.PassesNoDup | services/api_climatologique_producer/producer.py:231-250 | no station is published twice across the passes |
| ClimateMain.RunCycle | services/api_climatologique_producer/producer.py:287-318 | `main` gives exactly `MainSpec` |
| ClimateMain.MainStatuses | services/api_climatologique_producer/producer.py:287-318 | the first event is the busy message; the status log of a run is [busy], and then [free] only for a completed run, whose last event is the free message |
| ClimateMain.MainEffects | services/api_climatologique_producer/producer.py:287-318 | the requests are counted by the request index; a failed or empty load ends after busy and the first 60 s wait, with no request; publications are only on "weather-verified" or the status topic |
| ClimateMain.MainParts | services/api_climatologique_producer/producer.py:290-318 | a loaded run is "busy" and a wait, the batches in order with a 60 s pause between two of them, then a wait and "free" exactly when every batch returned; otherwise it ends with the first batch that raises, without "free" |
| ClimateMain.BatchesEffects | services/api_climatologique_producer/producer.py:308-312 | the batch loop sends at most 3 × (1 + 5) requests per station and publishes only on "weather-verified" |
| ClimateMain.BatchesInOrder | services/api_climatologique_producer/producer.py:308-312 | the batch loop runs every batch in order, each from the request after the previous one's, with a 60 s pause after every batch but the last; it returns iff every batch returns, and otherwise stops with the first batch that raises |
| ClimateMain.BatchChainLinks | services/api_climatologique_producer/producer.py:308-309 | run m of the chain is `process_batch` of batch i+m, started where run m-1 stopped |
| ClimateMain.HeadFacts | services/api_climatologique_producer/producer.py:290-293 | the start of `main` sends no request and logs exactly the busy message |
| ClimateMain.TailFacts | services/api_climatologique_producer/producer.py:316-318 | the end of `main` sends no request and logs exactly the free message |
| ClimateMain.StatusLogAppend | services/api_climatologique_producer/producer.py:268 | the status log of two traces in a row is the concatenation of theirs |
| ClimateMain.StatusLogElsewhere | services/api_climatologique_producer/producer.py:234 | a trace publishing only on another topic adds nothing to the status log |
| StatusLock.LatestAppend | services/api_observations_producer/producer.py:138-151 | the latest message is the last one written: writing more messages makes the last of them the latest, and writing none leaves the latest unchanged |
| StatusLock.LowerIsFree | services/api_observations_producer/producer.py:163 | `.lower() == "free"` holds exactly for the four letters f, r, e, e in any case |
| StatusLock.LockFreeCases | services/api_observations_producer/producer.py:163 | the lock is free iff the latest message is an object whose status is a string spelling "free"; no message, a falsy one or one without status is held; a truthy non-object, or a status that is not a string, raises |
| StatusLock.WaitUntilLockFree | services/api_observations_producer/producer.py:156-168 | the polling loop gives exactly `WaitFrom` |
| StatusLock.WaitClosedForm | services/api_observations_producer/producer.py:161-168 | the wait sends no request and publishes nothing; it reads n times, and every read but the last found the lock held; a return follows a free read; its trace alternates a read and a 5 s pause, starting with a read, so each held read is followed by its pause: 2n events when the budget runs out, 2n−1 otherwise |
| StatusLock.WaitGated | services/api_observations_producer/producer.py:161-168 | when the wait returns, its latest check read the lock free |
| StatusLock.WaitCounts | services/api_observations_producer/producer.py:161-168 | the wait's only events besides its 5 s pauses are its reads |
| StatusLock.GatedAppend | services/api_observations_producer/producer.py:173-206 | "every request follows a free check" splits over two traces in a row |
| Observations.FetchStationData | services/api_observations_producer/producer.py:60-85 | the retry loop gives exactly `StationAttempts` |
| Observations.FetchStationContract | services/api_observations_producer/producer.py:60-85 | 1 to 3 requests, publishing nothing; all but the last reply are not 200, and fewer than three only when the last is 200; the result is the decoded 200 body, or None |
| Observations.FetchOkAtOnce | services/api_observations_producer/producer.py:73-74 | a first 200 returns its body after one request |
| Observations.FetchExhausted | services/api_observations_producer/producer.py:66-85 | three replies not 200: three attempts with their backoffs, then None |
| Observations.TriesEffects | services/api_observations_producer/producer.py:66-83 | the attempts send one request each and publish nothing |
| Observations.EnrichMerge | services/api_observations_producer/producer.py:98-104 | the enriched point holds the point's keys and the four metadata keys; the point's values win; station_id and the station's `get` values fill the metadata keys the point lacks; a point that is not a mapping raises |
| Observations.PublishPoints | services/api_observations_producer/producer.py:97-107 | the publication loop gives exactly `PointsFrom` |
| Observations.PointsPublished | services/api_observations_producer/producer.py:97-107 | one message per point, in order, on "weather-real-time", keyed by the station, until the first point that cannot be enriched |
| Observations.PointsMessages | services/api_observations_producer/producer.py:97-107 | message j is the station's metadata overridden by point j; all points are published when none raises; otherwise point |ps| is not a mapping |
| Observations.FetchAndPublishStationData | services/api_observations_producer/producer.py:87-109 | one station task gives exactly `StationRun` |
| Observations.StationContract | services/api_observations_producer/producer.py:87-109 | a missing station_id raises at once; otherwise a 1.2 s pause, then the fetch; a truthy list is published point by point keyed by the station; anything else publishes nothing |
| Observations.StationWorkOnly | services/api_observations_producer/producer.py:87-109 | a station task only sends requests, publishes, and sleeps at most 8 s |
| Observer.ProcessBatch | services/api_observations_producer/producer.py:111-122 | the station tasks of a batch, in order, give exactly `BatchFrom` |
| Observer.BatchContract | services/api_observations_producer/producer.py:111-122 | a batch sends 1 to 3 requests per station until one raises; it publishes only on "weather-real-time", keyed by a station of the batch; it never reads the lock and pauses at most 8 s at a time |
| Observer.BatchOfBehaves | services/api_observations_producer/producer.py:111-122 | no batch reads the lock or pauses 60 s |
| Observer.BatchesGated | services/api_observations_producer/producer.py:194-203 | in the batch loop every request is sent while the latest lock check read free |
| Observer.BatchesPauses | services/api_observations_producer/producer.py:194-203 | a loop that finishes makes exactly one 60 s pause fewer than it has batches and checks the lock at least once per batch |
| Observer.BatchesInOrder | services/api_observations_producer/producer.py:194-203 | the loop finishes exactly when, batch after batch, the wait before it found the lock free and the batch returned; its trace is then, for each batch in order, the wait, the batch and a 60 s pause unless it is the last, each wait from the read index the previous one stopped at |
| Observer.StepChainLinks | services/api_observations_producer/producer.py:194-201 | step m waits for the lock from the read index where the previous wait stopped and runs batch i+m from the request where the previous batch stopped |
| Observer.MainCycle | services/api_observations_producer/producer.py:173-206 | one iteration of the collector's loop gives exactly `ObserverCycle` |
| Observer.CycleGated | services/api_observations_producer/producer.py:173-206 | every request of a cycle is sent while the latest lock check read free |
| Observer.CycleIdle | services/api_observations_producer/producer.py:179-190 | a failed or empty load sends nothing, publishes nothing and ends the cycle with a 10 s pause |
| Observer.CycleCompleted | services/api_observations_producer/producer.py:192-206 | a completed cycle over the batches makes |batches| - 1 pauses of 60 s, checks the lock at least |batches| + 1 times and ends with 30 s |
| Observer.CycleEffects | services/api_observations_producer/producer.py:173-206 | the requests of a cycle are counted by the request index, and it publishes only on "weather-real-time", keyed by station |
| Coordination.StatusLogEmpty | services/api_climatologique_producer/producer.py:268 | a trace adds nothing to the status log exactly when it holds no status publication |
| Coordination.BusyHolds | services/api_observations_producer/producer.py:163 | the busy message holds the lock |
| Coordination.FreeReleases | services/api_observations_producer/producer.py:163 | the free message releases it |
| Coordination.MainStatusAt | services/api_climatologique_producer/producer.py:287-318 | a run of `main` publishes busy first and no other status message except free as its very last event |
| Coordination.HeldDuringMain | services/api_climatologique_producer/producer.py:287-318 | whatever the log held before, a lock check at any point of `main` from its busy message to before its free message finds the lock held |
| Coordination.ReleasedAfterMain | services/api_climatologique_producer/producer.py:316-318 | a completed run leaves the lock free |
| Coordination.HeldAfterEarlyEnd | services/api_climatologique_producer/producer.py:295-304 | a run that stops at the load, or on an exception, leaves the lock held |
| Coordination.ObserverLeavesLog | services/api_observations_producer/producer.py:173-206 | the collector never writes the status topic |
| Coordination.ObserverYields | services/api_observations_producer/producer.py:156-206 | while every check reads the lock held, a collector cycle sends no request and publishes nothing |
| Coordination.ObserverYieldsToMain | services/api_observations_producer/producer.py:156-206 | while every check reads the log at some point of `main` between busy and free, the collector sends no request and publishes nothing |
| Coordination.ObserverResumes | services/api_observations_producer/producer.py:161-165 | once `main` has completed, the collector's next wait returns after a single check |

## Left out

- Concurrency: the `asyncio` tasks of a batch, the semaphore and `AsyncLimiter(50, 60)` are modelled as sequential runs in batch order, so one escaping exception ends the batch at that station; interleavings of tasks are not modelled.
- The two producers are separate processes. Their interleaving is modelled by a hypothesis on what each lock check reads: a cut of the status log written by `main`.
- I/O: the configuration and batch files, logging, the Kafka producer's serialisers, `flush()` and the scheduler (climatological producer lines 320-339) are left out. The batch file becomes a `Load` parameter; a file that is not a list of lists of station entries is not modelled.
- Clocks: `datetime.utcnow()` and the calendar arithmetic of `now - timedelta(days=1)` are left out. Yesterday's date and the time of day are a `Clock` parameter, and the timestamps of the status messages are string parameters.
- CsvRecords.CsvToDicts: Python's `csv` quoting and escaping are not modelled. Lines are split on newlines (one trailing carriage return removed) and fields on the delimiter. `csv.reader` reads a run of carriage returns at the end of a line as the line end, and raises `csv.Error`, ending the batch, on a carriage return followed by any character other than a carriage return or a newline; the model removes only one trailing carriage return and keeps any other as text, in a cell or a header.
- CsvRecords.CsvToDicts: a row is a Dafny map, so the key order of each row dict is not modelled.
- CsvRecords.ParseFloat: numbers are exact reals, without IEEE-754 rounding. `inf`, `nan`, underscores in digit strings and non-ASCII decimal digits (such as Arabic-Indic digits), all accepted by `float()`, are not: such a cell stays text.
- StatusLock.Lower: `str.lower()` is modelled on ASCII letters only.
- StatusLock.WaitUntilLockFree: the endless polling loop is bounded by a number of polls, after which the model reports `StillHeld`.
- Observer.MainCycle: the collector's endless `while True` is modelled as one cycle.
- StatusLock.Latest: `check_latest_lock_status` is the read oracle. Its Kafka consumer, its timeouts and the `None` it returns on an exception or an empty poll are folded into `lock(j)`.
- Observations.EnrichMerge: Python dicts keep key order and Dafny maps do not, so the key order of the merged message is not modelled.
- BatchConvergence.DoFetch: the message key is the station id as a `Json` value; `str(k)` of the key serialiser is not modelled.
- Observations.PublishPoints: the message key is the station id as a `Json` value; `str(k)` of the key serialiser (observations producer line 51) is not modelled.
- ClimateMain.StatusMessage: the message is a Dafny map, so the key order of the serialised status message is not modelled.
- BatchConvergence.VerifiedMessage: the message is a Dafny map, so the key order of the serialised "weather-verified" message is not modelled.
- StationDict.Assign: keys are compared as `Json` values. Python hashing is not modelled: an unhashable station id (a list or an object) raises `TypeError` in the source, and ids such as `1`, `True` and `1.0` are one key in a Python dict but distinct here.
