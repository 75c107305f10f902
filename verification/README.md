# Allezon, modelled and proved in Dafny

Allezon counts user events by the minute and keeps every user's most recent ones. This project
models the three stateful parts of it and the way they work together, and proves what they
promise:

- the **aggregates index**: a tag gets three 16-bit ids, a record name made of minute and ids,
  and one addition to a signed 64-bit cell that holds `count << 48 | sum`; any number of
  processors do this at once, and a query reads the cells of a minute back
  (`PackedCounter`, `KeyCodec`, `AggregatesDb`, `AggregatesProcessor`, `Pipeline`,
  `AggregatesQuery`, `QueryRefinesScan`);
- the **id service**: append-only lists, a server cache and client caches (`IdService`,
  `IdMachine`);
- the **user profiles**: an ordered map of tags that is trimmed lazily by a read and a
  generation-checked removal (`Profiles`, `ProfileMachine`, `ProfileService`).

`WholeSystem` puts worker and id service together and proves the end-to-end theorem: over every
run, a row of an aggregates answer is a naive scan of the applied tags, as long as the ids
issued for the strings of the query are unambiguous and no cell it adds up has more than 65,535
tags. Both conditions are exact: the second one under the first, and the first one because from
any state a wrong row lies ahead if and only if an ambiguous id does (`Ambiguity`). `Miscount`
shows a run of the code as written in which that happens.

`dafny verify dfyconfig.toml` checks everything.

## How it is modelled

Objects the code updates in place are classes (`AggregatesClient`, `KeyFields`, `Database`,
`Server`, `Client`, `UserProfileClient`, `ProfileServer`); their methods have the code's branches
and loops and are proved against functions on the stored values. Pure code is functions.
Goroutines and requests that interleave are state machines: a run is a sequence of steps, each
one atomic operation on the database, a cache or the channel, and the theorems speak of all
runs, of any length, with any number of consumers, processors, requests and trims.

What the code cannot control is a parameter. `up`, `up1`, `up2` say whether the database can be
reached for an operation; `rivals`, `others` and `windows` are the writes of others that land
between two operations of one call; `faults` says how each query goes. The lists of attempts and
windows stand for the retries that the backoff allows.

The database is trusted for this and no more:

- an operation on one record is atomic, and one that reports an error has changed nothing;
- every write raises the generation of its record, and generations do not wrap around;
- update-only, create-only and add-unique do what their names say;
- adding is two's complement, and adding to a missing bin creates it;
- the index order of a key-ordered map is its key order;
- nothing expires;
- the size of a record is bounded, so that a list has fewer than 2^31 elements.

A time is an integer number of nanoseconds since the epoch, in the range for which the seconds
fit an int64. Go's widths, shifts, bitwise or, conversions and truncating division are written
out in `GoInts`. The trim threshold `int(userTagLimit * float32(1.1))` is 220.

Where code and documentation disagree, the model follows the code:

- `README.md:45` and the comment at `src/cmd/id_getter/server/server.go:106` say that the index
  in the list is the id; `src/tests/idgetter_test.go:82-93` expects ids from 1. The code does
  both: a fresh element is given the new length, an element found in the list its index. The
  machine of `IdMachine` has a parameter `base` for what the list path adds: 0 is the code, 1
  would make the two paths agree.
- `README.md:43` gives four parts to the name of an aggregate record; the code prints two, the
  minute and the packed ids.
- `src/cmd/worker/worker/aggregatesProcessor.go:16` says an attempt fails only if the database is
  down; it also fails when the creation race is lost.
- Truncation puts the 59 seconds before the epoch into bucket zero (`BucketInterval`); theorems
  about clock time say so.

## Model

| member | source | states |
|---|---|---|
| WholeSystem.RowEqualsScan | src/cmd/api/server/aggregates.go:110-137 | In every reachable state of consumers, processors and id service, with restarts and faults: if each string the query asks for has one usable id and shares it with no other string of its collection, and every cell the row adds up has at most 65,535 tags, then the row, computed from packed cells by ids, is modulo 2^64 the scan of the applied tags by minute, action and strings. A query without strings needs nothing of the ids. |
| WholeSystem.RowEqualsScanIff | src/pkg/db/aggregates.go:69-117 | Under the same condition on the ids of the query, and for fewer than 2^32 applied tags, the row is the scan if and only if every cell it adds up has at most 65,535 tags. |
| Ambiguity.WrongRowIffAmbiguity | src/cmd/api/server/aggregates.go:198-243 | From any reachable state with a consumer and a processor, for any query and any minute with room in its cells: some continuation has a row of that minute that is not the scan, with no cell overflowed, if and only if some continuation issues an ambiguous id for a string of the query that can be asked. |
| Ambiguity.AmbiguityMiscounts | src/cmd/worker/worker/aggregatesProcessor.go:60-80 | In whatever state of whatever run a string of the query has two usable ids, or shares one, some continuation gives a wrong row for any minute with room. |
| Ambiguity.WrongRowIsAmbiguous | src/cmd/api/server/aggregates.go:116-137 | A wrong row with no cell overflowed needs an ambiguous id for a string of its own query. |
| Ambiguity.Applied | src/cmd/worker/worker/aggregatesProcessor.go:27-80 | From every reachable state, however busy consumers, channel and processors are, a tag whose three ids have been issued can be received and counted, and nothing else. |
| Ambiguity.SomeId | src/cmd/id_getter/server/server.go:78-132 | From every reachable state some usable id of any collection can be issued, without a restart and without undoing any. |
| WholeSystem.AnswerEqualsClockScan | src/cmd/api/server/aggregates.go:116-124 | Under the conditions of RowEqualsScan the k-th row of a validated range is the scan of the k-th sixty seconds after its start, by the clock; only a range that starts in minute zero needs a log without matching tags in the minute before the epoch. |
| WholeSystem.RunKeepsInv | src/cmd/worker/worker/worker.go:38-50 | Every run of the composed system keeps the worker's, the id service's and the joint invariant: every id in a processor's hand or in an applied key was issued for that tag's string. |
| WholeSystem.FiltersMatchStrings | src/cmd/api/server/aggregates.go:198-243 | Filters got from the id service match a key exactly when the query's strings match the tag that was counted under it, if the strings of the query, and no others, are unambiguous. |
| WholeSystem.DictionaryIsUnambiguous | src/tests/idgetter_test.go:77-100 | If the issued ids are a dictionary no query is ambiguous. |
| WholeSystem.AnswersAreInjective | src/pkg/idGetter/client.go:47-59 | When the issued ids are a dictionary, two answers for a collection, cut to int32, are equal exactly if the elements are. |
| WholeSystem.AtRestAllIsApplied | src/cmd/worker/worker/aggregatesProcessor.go:27-35 | When the whole system is at rest with nothing given up, the applied tags are the received ones, each as often as it came. |
| WholeSystem.SerialIdsAreStable | src/cmd/id_getter/server/server.go:78-102 | In every run whose id requests come one at a time and without a restart, the issued ids are a dictionary as the code is written, however the worker interleaves. |
| WholeSystem.NormalisedIdsAreStable | src/cmd/id_getter/server/server.go:104-132 | If the list path answered index + 1, the issued ids would be a dictionary in every run. |
| Miscount.UnstableIdsMiscount | src/cmd/id_getter/server/server.go:115-132 | For every tag and every other brand there is a run as written, with one restart, after which the row for the other brand counts the tag and the scan does not, with no cell overflown. |
| QueryRefinesScan.ReadIsScanIff | src/pkg/db/aggregates.go:69-117 | For every log and every order of the record scan the read succeeds, never exceeds the scan of the log, and equals it if and only if no matching cell has more than 65,535 tags. |
| QueryRefinesScan.CountedIsScan | src/pkg/db/aggregates.go:131-148 | Adding up tags record by record, in any order of distinct names, gives what going through the log gives. |
| QueryRefinesScan.ReadCellsExactIff | src/pkg/db/aggregates.go:110-114 | A total over several cells is exact if and only if each of them is: an overflown cell only ever loses, so none can make up for another. |
| QueryRefinesScan.RowIsScan | src/cmd/api/server/aggregates.go:116-137 | A row over the records of a log shows the scan of the log by ids, modulo 2^64. |
| QueryRefinesScan.ScanIsARow | src/cmd/api/server/aggregates.go:116-137 | The other way round: a row that shows the scan is one the endpoint gives. |
| QueryRefinesScan.RowIsScanIff | src/cmd/api/server/aggregates.go:129-137 | Below 2^32 tags the 64-bit totals do not wrap and the row is exact if and only if no matching cell has overflown. |
| QueryRefinesScan.LoggedIsStored | src/pkg/db/aggregates.go:131-164 | Every applied tag's record exists and carries the tag's minute in its minute bin. |
| QueryRefinesScan.BucketScanIsClockScan | src/pkg/db/aggregates.go:43-45 | The scan of a bucket is the scan of its sixty seconds for every bucket from one on, and for bucket zero if and only if no matching tag lies in the minute before the epoch; it never has less. |
| QueryRefinesScan.ScanHasARow | src/cmd/api/server/aggregates.go:116-137 | For every minute with small cells the endpoint has a row, and it shows the scan by ids. |
| PackedCounter.EncodeIsShiftAndOr | src/pkg/db/aggregates.go:59-61 | The encoded tag is the code's shift and bitwise or. |
| PackedCounter.DecodeIsShifts | src/pkg/db/aggregates.go:63-67 | The decoder's shifts and narrowing cut any 64-bit number at bit 48. |
| PackedCounter.CellAsUnsigned | src/pkg/db/aggregates.go:143-148 | After n signed wrapping additions the cell, read as unsigned, is n * 2^48 plus the price sum, modulo 2^64. |
| PackedCounter.CellDecodes | src/pkg/db/aggregates.go:110-111 | After n additions the decoder reads count (n + sum div 2^48) mod 2^16 and sum modulo 2^48, for every list of prices. |
| PackedCounter.CellExactIff | src/pkg/db/aggregates.go:59-67 | Count and sum read back exactly if and only if at most 65,535 tags were added; beyond that the count is too small and the sum not too large. |
| PackedCounter.NegativeCellIff | src/pkg/db/aggregates.go:143-148 | Within the exact range the stored integer is negative exactly from 32,768 tags on. |
| KeyCodec.EncodeIsShiftAndOr | src/pkg/db/aggregates.go:55-57 | The packed id triple is the code's shifts and bitwise ors. |
| KeyCodec.KeyFields.Decode | src/pkg/db/aggregates.go:47-53 | The receiver's three fields become the three low 16-bit digits of any 64-bit number. |
| KeyCodec.UnpackEncode | src/pkg/db/aggregates.go:47-57 | Decoding undoes encoding for every id triple. |
| KeyCodec.KeyRoundTrip | src/pkg/db/aggregates.go:186-200 | For every int64 minute, negative ones included, and every id triple, the parser gives back without error what the printer was given. |
| KeyCodec.ToKeyInjective | src/pkg/db/aggregates.go:39-41 | Different minutes or triples never share a record name. |
| KeyCodec.ParseIntOfFormat | src/pkg/db/aggregates.go:191-194 | Decimal parsing undoes decimal printing on all of int64. |
| KeyCodec.SplitAtFirst | src/pkg/db/aggregates.go:187-190 | A piece without the separator comes out first, followed by the pieces of the rest. |
| KeyCodec.ParseUintIff | src/pkg/db/aggregates.go:195-198 | The digit loop accepts exactly the non-empty strings of digits whose decimal value fits 64 bits, and yields that value. |
| KeyCodec.ParseIntIff | src/pkg/db/aggregates.go:191-194 | With a sign or none in front of digits the parser yields the signed value exactly if it fits an int64, and refuses a sign alone. |
| KeyCodec.ParseIntNeedsDigits | src/pkg/db/aggregates.go:191-194 | Nothing else is accepted. |
| KeyCodec.WrongFormatIff | src/pkg/db/aggregates.go:187-190 | A name is of the wrong format exactly if it does not have one underscore. |
| KeyCodec.DecodeKeyOfPieces | src/pkg/db/aggregates.go:186-200 | Otherwise what is before it is the minute, what is behind it the ids, and the first number that cannot be read the error. |
| KeyCodec.NameExample | src/pkg/db/aggregates.go:39-41 | A name spelled out: decimal minute, underscore, decimal ids. |
| KeyCodec.BucketIsItsMinuteIff | src/pkg/db/aggregates.go:43-45 | The truncating division names the minute that contains the second if and only if the time is not before the epoch or on a minute boundary. |
| KeyCodec.BucketInterval | src/pkg/db/aggregates.go:43-45 | Bucket m > 0 is exactly the seconds 60m to 60m + 59; bucket zero is the seconds -59 to 59. |
| GoInts.ConversionsKeepLowBits | src/pkg/db/aggregates.go:47-67 | Each integer conversion yields a number of its type that differs by a multiple of 2 to its width. |
| Types.MillisOfSeconds | src/pkg/db/user_profiles.go:89 | Milliseconds and seconds of a time are of the same clock. |
| AggregatesDb.AggregatesClient.Add | src/pkg/db/aggregates.go:131-167 | The whole new state and the error for every case: update done, creation done, creation race lost, database down before either operation. |
| AggregatesDb.AggregatesClient.Query | src/pkg/db/aggregates.go:75-84 | The equality query finds the names of exactly the records of the minute, each once. |
| AggregatesDb.AggregatesClient.Get | src/pkg/db/aggregates.go:69-117 | The answer is what the records of the minute hold, in some order of the scan, or the first error. |
| AggregatesDb.RecordReadsBack | src/pkg/db/aggregates.go:90-115 | A record named for a minute and an id triple whose cell was made by up to 65,535 tags reads back as exactly these ids, their price sum and their number in that minute, as the mismatch error in any other, and is skipped without the bin. |
| AggregatesDb.ErrorEndsCollect | src/pkg/db/aggregates.go:90-109 | The first error of the loop is the answer, whatever comes after it. |
| AggregatesDb.StoreHoldsCells | src/pkg/db/aggregates.go:143-164 | Every cell is the fold of exactly the prices of the successful tags of its record and action. |
| AggregatesDb.StoreHoldsNames | src/pkg/db/aggregates.go:150-158 | A record exists exactly if some tag has landed in it. |
| AggregatesDb.LandChangesOneCell | src/pkg/db/aggregates.go:142-158 | A landing tag adds its delta to its own cell and leaves all other cells as they were. |
| AggregatesDb.StoreIsWellKeyed | src/pkg/db/aggregates.go:156-158 | In every store made by successful tags the minute bin equals the minute in the name, and the name is the canonical one. |
| AggregatesDb.WellKeyedNeverMismatches | src/pkg/db/aggregates.go:102-108 | On such a store neither the key error nor the minute mismatch can occur. |
| AggregatesDb.OnlyFaultsShow | src/pkg/db/aggregates.go:81-93 | On such a store a query fails exactly if the query or the stream before its last record does, and then with that error. |
| AggregatesDb.LandAllKeepsNames | src/pkg/db/aggregates.go:150-158 | No landing tag removes a record. |
| AggregatesProcessor.UpdateAggregates | src/cmd/worker/worker/aggregatesProcessor.go:60-80 | A successful attempt lands the tag once, under exactly the ids heard for its category, brand and origin; a failed one lands nothing of its own, whatever rivals do; an attempt that reaches service and database succeeds if and only if the record existed or no rival created it in between. |
| AggregatesProcessor.KeyIsHeard | src/cmd/worker/worker/aggregatesProcessor.go:52-74 | The key of a tag is a given triple if and only if category, brand and origin were answered by its three ids, each in its own field. |
| AggregatesProcessor.AttemptIsARun | src/cmd/worker/worker/aggregatesProcessor.go:60-80 | From every state of the worker, three id steps, an update and if need be a creation of one processor end as the attempt of the code does: idle with the entry landed, or in backoff with nothing changed. |
| WholeSystem.AttemptIsAnswered | src/cmd/worker/worker/aggregatesProcessor.go:52-74 | A key made from answers of the id service has only ids issued for the strings of the tag. |
| AggregatesProcessor.UpdateAggregatesBackoff | src/cmd/worker/worker/aggregatesProcessor.go:37-50 | All attempts together land the tag exactly once and stop there if one succeeds, and not at all otherwise; all else that landed came from rivals; one attempt that reaches the database with nothing landing within it is enough to succeed, and so are two reached ones in a row with the same ids. |
| Pipeline.RunKeepsInvariant | src/cmd/worker/worker/worker.go:34-50 | In every run of any number of consumers and processors the records are what the successful tags make of an empty set, every tag is held, queued, in flight, applied or given up exactly as often as it was received, and the channel holds at most 1024. |
| Pipeline.StepLands | src/cmd/worker/worker/aggregatesProcessor.go:60-80 | Only the write that succeeds changes the records, and it lands exactly the processor's own entry. |
| Pipeline.StepConserves | src/pkg/messaging/consumer.go:83-98 | Every step of consumers and processors keeps the count of copies of every tag. |
| Pipeline.QuiescentMeansAppliedOrGivenUp | src/cmd/worker/worker/aggregatesProcessor.go:27-50 | At rest every received tag has been applied once or given up. |
| Pipeline.LostRaceSucceedsNext | src/pkg/db/aggregates.go:150-164 | A creation that reaches the database fails only if the record exists, and after any further steps the next update of that record that reaches the database succeeds. |
| Pipeline.RecordsStay | src/pkg/db/aggregates.go:150-164 | No run removes a record. |
| Pipeline.ChannelIsFifo | src/cmd/worker/worker/worker.go:38-44 | In every run what was taken up, followed by what is queued, is what was queued at first and pushed since, in that order. |
| Pipeline.ChannelFills | src/cmd/worker/worker/worker.go:34-39 | A consumer can queue 1024 tags that nobody takes, and the next push waits. |
| Pipeline.BackoffRetriesOrGivesUp | src/cmd/worker/worker/aggregatesProcessor.go:38-50 | A retry starts the same tag again from its first id and changes nothing else; giving up is counted. |
| Ambiguity.Retried | src/cmd/worker/worker/aggregatesProcessor.go:37-50 | Whichever processor is in backoff, some continuation through its retry applies its tag, if its ids have been issued, and gives nothing up. |
| AggregatesQuery.FilterAggregates | src/cmd/api/server/aggregates.go:129-137 | The two wrapping accumulators end as the exact filtered totals modulo 2^64. |
| AggregatesQuery.NoWrapForFewRecords | src/cmd/api/server/aggregates.go:129-137 | Up to 65,536 records with 48-bit sums never wrap. |
| AggregatesQuery.FilterConservation | src/cmd/api/server/aggregates.go:232-243 | For every record list, the answers for all ids of one dimension add up to the answer without that filter. |
| AggregatesQuery.OrderDoesNotMatter | src/cmd/api/server/aggregates.go:129-137 | Record lists that are permutations of each other have the same filtered totals. |
| AggregatesQuery.ConvertAggregates | src/cmd/api/server/aggregates.go:89-108 | Succeeds exactly if every name is "COUNT" or "SUM_PRICE" and none comes twice, and then each place has the aggregate of its name. |
| AggregatesQuery.DistinctIffSameSize | src/cmd/api/server/aggregates.go:99-105 | The size of the set equals the length of the list exactly if the list has no duplicates. |
| AggregatesQuery.ValidatedEndsAreAligned | src/cmd/api/server/aggregates.go:73-87 | For ends in whole seconds a range is accepted exactly if both ends are whole minutes, in order, at most ten minutes apart. |
| AggregatesQuery.ValidatedIff | src/cmd/api/server/aggregates.go:73-87 | In general a range is accepted exactly if both ends lie in the first second of a minute, in order, at most ten minutes apart. |
| AggregatesQuery.Aggregates | src/cmd/api/server/aggregates.go:110-127 | Fails for its filters exactly if a string asked for has no id from 0 to 65,535; otherwise one row for each minute step, at its time, the filtered total of its minute's records, or the error of one of the reads; with all filters, canonical records and no fault it succeeds. |
| AggregatesQuery.FiltersExistIff | src/cmd/api/server/aggregates.go:198-224 | The filters exist if and only if every string asked for is answered by such an id, always for a query without strings, and each filter is the id of its own string in its own collection. |
| AggregatesQuery.ValidatedRowsAreConsecutive | src/cmd/api/server/aggregates.go:116-124 | A validated range has at most ten rows and their buckets are consecutive, before the epoch as after it. |
| AggregatesQuery.RowsPartitionRange | src/cmd/api/server/aggregates.go:73-124 | For a validated range in whole seconds from the epoch on, a time lies in the half-open range exactly if it falls into the bucket of one of the rows. |
| AggregatesQuery.AnswerSplits | src/cmd/api/server/aggregates.go:110-127 | Splitting a range at a whole number of minutes after its start: a list of rows answers the whole if and only if it is the concatenation of the answers to the parts. |
| AggregatesQuery.RowIsDetermined | src/cmd/api/server/aggregates.go:116-137 | Two rows of one minute over the same records are equal, in whatever order the two scans find the records. |
| AggregatesQuery.AnswerIsDetermined | src/cmd/api/server/aggregates.go:110-127 | A range has one answer over the same records. |
| AggregatesQuery.CollectPermutes | src/pkg/db/aggregates.go:90-116 | Scans in different orders read the same multiset of aggregates. |
| IdService.Database.AppendElement | src/cmd/id_getter/db/db.go:44-68 | Succeeds exactly for an absent element, a list below capacity and a reachable database; then the element is last, the answer is the new length and one more than its position; no placed element moves and no other list changes; each failure has its error and changes nothing. |
| IdService.Database.GetElements | src/cmd/id_getter/db/db.go:70-98 | The slice filled one by one is the stored list; a missing record and a failing database are different errors. |
| IdService.PositionsStay | src/cmd/id_getter/db/db.go:44-68 | An append, successful or not, moves no placed element. |
| IdService.AppendedAtEnd | src/cmd/id_getter/db/db.go:44-68 | A successful append answers the position of the element plus one. |
| IdService.Server.GetIDFromDB | src/cmd/id_getter/server/server.go:104-121 | The answer is the index of the element, 0 for the first; absent elements and a failing database are different errors. |
| IdService.Server.GetID | src/cmd/id_getter/server/server.go:78-102 | A cached id is the answer and nothing changes; otherwise an element in the list is answered and cached under its index and no list changes, a new one under the new length of its list, which it ends; every other cache entry and list stays, and each failure has its error and changes nothing. |
| IdMachine.RequestIsARun | src/cmd/id_getter/server/server.go:78-155 | From any state of any run, the request function of the server is the machine's run of start, check, read, append and save with nothing in between: same lists, same cache, the answer issued and nothing else. |
| IdMachine.OnlyAskedAreListed | src/cmd/id_getter/server/server.go:83-98 | Along every run a list holds only elements that a request with createMissing asked for. |
| IdService.RequestKeepsAgreement | src/cmd/id_getter/server/server.go:78-102 | With requests one at a time, whatever fails: cache and lists keep agreeing exactly, answers are position + 1 and fit an int32, createMissing = false leaves the lists alone, no cached answer is taken back. |
| IdService.RequestUnderAgreement | src/cmd/id_getter/server/server.go:83-98 | As long as cache and lists agree the list path is never taken. |
| IdService.Client.GetID | src/pkg/idGetter/client.go:47-59 | A hit changes nothing anywhere; a miss is one server request whose answer is cut to int32, kept if caching is on, and not kept on an error. |
| IdService.ClientsStayWithin | src/pkg/idGetter/client.go:91-119 | In every run of requests by any number of clients, with and without caches, one at a time, from empty lists and caches: cache and lists agree exactly and every client's cache is inside the server's map, then and after every continuation. |
| IdService.EveryAnswerIsThePosition | src/pkg/idGetter/client.go:47-59 | In every such run every answer, from whatever cache, is the position of the element plus one, and createMissing = false leaves the lists alone. |
| IdService.ClientCacheStaysWithin | src/pkg/idGetter/client.go:106-119 | One request: any client's cache inside the server's stays inside, and so does the one that keeps the answer. |
| IdService.GetU16ID | src/pkg/idGetter/client.go:21-31 | An id is accepted exactly if it is within 0 to 65,535, and then unchanged. |
| IdMachine.RunKeepsInv | src/cmd/id_getter/server/server.go:78-155 | Every run of interleaved requests and restarts keeps: unique lists, every issued or pending id at its element's position + 1, or position + base if it came from the list; the cache holds issued ids only. |
| IdMachine.IdsAreNearPositions | src/cmd/id_getter/server/server.go:78-132 | As written every id ever issued for the element at position i is i or i + 1, so elements two or more apart never share one. |
| IdMachine.PositionsNeverChange | src/cmd/id_getter/db/db.go:46-68 | Along every continuation of a run positions stay, no element occurs twice and no issued id is forgotten. |
| IdMachine.OneBasedIffNeverFromList | src/tests/idgetter_test.go:77-100 | All ids of a run are the one-based positions the test expects if and only if no id was ever served from the list. |
| IdMachine.DictionaryIff | src/cmd/id_getter/server/server.go:104-132 | As written the ids of a run are a dictionary if and only if no element served from the list, and no predecessor of one, was also issued its one-based id. |
| IdMachine.ServingFromListIff | src/cmd/id_getter/server/server.go:100-121 | Step by step: completing a request that found its element in the list keeps the ids a dictionary if and only if neither the element nor its predecessor has been issued its one-based id. |
| IdMachine.DictionaryIfNormalised | src/cmd/id_getter/server/server.go:104-132 | With base 1, or while nothing was served from the list, the ids of every run are a dictionary of one-based positions. |
| IdMachine.SerialRunsNeverServeFromList | src/cmd/id_getter/server/server.go:78-102 | From an empty start, one request at a time, without restart: nothing is ever served from the list and at rest cache and lists agree exactly. |
| IdMachine.RestartBreaksDictionary | src/cmd/id_getter/server/server.go:115-132 | Every run at rest can go on, with one restart, so that the second of two new elements is issued both 2 and 1, the latter the first one's id. |
| IdMachine.RaceBreaksDictionary | src/cmd/id_getter/server/server.go:88-100 | Without a restart: a request that lands between the append and the save of another for the same element is issued 0, the other 1. |
| Profiles.PutMembers | src/pkg/db/user_profiles.go:88-91 | A put keeps every entry of another millisecond and only the new one of its own. |
| Profiles.PutSorted | src/pkg/db/user_profiles.go:88-89 | A put keeps the map in key order and grows it by at most one. |
| Profiles.NewestAfterPut | src/pkg/db/user_profiles.go:88-91 | The newest n entries after a put depend only on the newest n before it. |
| Profiles.RemovalLeavesNewest | src/pkg/db/user_profiles.go:132-142 | Removing size - limit entries by index from the first leaves exactly the newest `limit`. |
| Profiles.GenerationTellsWrites | src/pkg/db/user_profiles.go:137-139 | The generation differs exactly if a write touched the record, and if it does not the record is the same. |
| Profiles.UserProfileClient.DecodeBin | src/pkg/db/user_profiles.go:28-49 | The slice is the map's values in key order, nothing for an absent bin. |
| Profiles.UserProfileClient.Get | src/pkg/db/user_profiles.go:51-71 | Both bins of the record, or key not found, or unreachable. |
| Profiles.UserProfileClient.Add | src/pkg/db/user_profiles.go:73-100 | The bin then holds the tag and every entry of another millisecond, in key order, the answer is its size, all other bins of all users stay, and the generation grows by one; on an error nothing changes. |
| Profiles.UserProfileClient.RemoveOverLimit | src/pkg/db/user_profiles.go:102-150 | For all writes that land between the two steps: nothing over the limit, nothing done; if none of them touched the record the newest `limit` are left and all other bins are theirs; otherwise the generation mismatch, and only theirs. |
| ProfileMachine.RemovalIsSafe | src/pkg/db/user_profiles.go:112-147 | A removal that passes the generation check deletes exactly the oldest entries over 200 of the map as it is at that instant, leaves exactly the newest 200, and touches no other bin. |
| ProfileMachine.RunKeepsInv | src/pkg/db/user_profiles.go:73-150 | Every interleaving of adds and trims, failing or not, keeps every bin a sorted part of its history with the same newest 200, and every pending trim right or outdated. |
| ProfileMachine.NewestAreRetained | src/cmd/api/server/userTags.go:52-84 | In every run the newest n <= 200 stored tags are the newest n of the whole last-write-wins history, with the same values. |
| ProfileMachine.LostIsOlderThan200 | src/cmd/api/server/userTags.go:52-84 | A tag ever added whose millisecond is stored no more is older than at least 200 stored tags. |
| ProfileService.ProfileServer.RemoveOldUserTags | src/cmd/api/server/userTags.go:67-84 | At most one attempt more than there are disturbed ones, success whenever one is undisturbed, all attempts used up on failure; whatever others have written in the meantime stays, and on success the bin is exactly the newest 200 of it and no other bin is touched. |
| ProfileService.TrimIsARun | src/pkg/db/user_profiles.go:102-150 | From any state of any run, the read, the adds of others and the removal of the machine leave the store that one call of the client's method leaves. |
| ProfileService.ProfileServer.AddUserTag | src/cmd/api/server/userTags.go:52-65 | The tag is added; up to 220 entries nothing else happens; beyond that, if any attempt is undisturbed, the bin ends as the newest 200 of the tag, what was there and what others wrote meanwhile, with nothing else touched. |
| ProfileService.PacedBinBound | src/cmd/api/server/userTags.go:52-84 | In every run of adds and trims of any bins, failing or not, in which nothing is added to a bin while a trim of it is due: the bin never exceeds 221 entries, and has more than 220 exactly as long as a trim is due. |
| ProfileService.NeverTrimmedBelow200 | src/pkg/db/user_profiles.go:132-142 | In every run at all a bin never falls below 200 entries once it has them, nor shrinks below that. |
| ProfileService.StepSizes | src/cmd/api/server/userTags.go:56-75 | Each step adds at most one entry to a bin, or leaves exactly 200 of more, or does not touch it. |
| ProfileService.ProfileServer.ConvertTags | src/cmd/api/server/userProfiles.go:65-80 | The backward loop selects the newest `limit` of the tags in the range, newest first. |
| ProfileService.BackwardsIsNewestMatches | src/cmd/api/server/userProfiles.go:73-78 | What the backward walk finds is the newest `limit` of the matches, reversed. |
| ProfileService.NewestMatchesAreRight | src/cmd/api/server/userProfiles.go:65-80 | The answer has min(limit, matches) tags in strictly descending time, all stored and in the range, and every match left out is older than all of them. |
| ProfileService.ProfileServer.UserProfiles | src/cmd/api/server/userProfiles.go:82-100 | Both lists for the cookie, empty ones for an unknown cookie, an error if the database cannot be reached. |
| ProfileService.QueryAsOverHistory | src/cmd/api/server/userProfiles.go:65-99 | In every run of interleaved adds and trims a query is answered as over the untrimmed history if the bin has fewer than 200 entries, or its newest 200 hold as many matches as asked for, or the range does not begin before them. |
| ProfileService.QueryAsOverHistoryIff | src/cmd/api/server/userProfiles.go:65-99 | Exactly: if and only if every tag of the history in the range that is stored no more is older than the limit-th newest stored match, and there are that many. |
| ProfileService.FewIsDecided | src/cmd/api/server/userProfiles.go:65-80 | It is enough that the limit and the stored tags at or after the end of the range make at most 200. |
| ProfileService.OpenQueryAsOverHistory | src/cmd/api/server/userProfiles.go:65-99 | So is every query with a limit of at most 200 whose range ends after every tag of the history. |
| ProfileService.SameNewestSameAnswer | src/cmd/api/server/userProfiles.go:73-78 | Two sorted bins with the same newest n tags give the same answer to every query that these tags decide. |
| ProfileService.WindowBoundIsTight | src/cmd/api/server/userTags.go:52-65 | There is a run of 201 adds and a trim, and a query, that misses every part of the condition by one and whose answer differs from the history's. |

## Left out

- HTTP handlers, parameter binding, status codes, logging, configuration, `main`, health checks: plumbing without state.
- Time parsing and formatting, JSON and protobuf encoding, DTO copying: library work. A message that cannot be decoded never becomes a tag, and the model starts after decoding.
- The response builder: column labels and number formatting; the rows come in the order of the loop. `null` and empty lists of the profile DTO are both the empty list.
- Kafka and Aerospike internals, index creation, expiry: replaced by the abstract store and the assumptions above.
- Timeouts after which a write has taken effect all the same, worker crashes, consumer rebalances, offset marking: excluded by the assumptions. The pipeline is one session without a crash.
- Type assertions on what the database returns (`bin has a wrong type` and the like): the model's bins have their types.
- Backoff intervals and randomisation: a retry happens or the tag or trim is given up.
- Closing the channel and cancelling the context at shutdown: the machine simply stops taking steps.
- Ambiguity.WrongRowIffAmbiguity: speaks of minutes whose cells have room for one more tag; in a full minute the row can be wrong by overflow alone, which `RowEqualsScanIff` covers.
- Goroutine loops (`ConsumeClaim`, `runAggregatesProcessor`, `Run`) are steps of the `Pipeline` machine, not methods with a loop, because their interleaving is the point.
- The mutexes around the caches: a lookup and a save are one atomic step each, which is what the locks ensure.
- ProfileService.ProfileServer.AddUserTag: the trim it starts as a task of its own has ended when the model's method returns; `ProfileMachine` has trims that interleave with everything.
- IdService.ClientsStayWithin: has requests one at a time and no restart; under restarts a client cache can hold an id that the server would no longer give, which is what `RestartBreaksDictionary` shows.
- IdMachine.RunKeepsInv: clients are not part of the machine; it records every id that was ever issued, and `WholeSystem` lets a client hear any id issued so far.
- WholeSystem.AnswerEqualsClockScan: states the rows of one unchanging set of records; a query whose reads interleave with the worker's writes gets each row from the state of its own read.
