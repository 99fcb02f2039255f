# Nearby-CDP search, wei formatting and `bytes32` decoding, in Dafny

This project models the core of a small web3 front end that looks up Maker
CDPs (collateralised debt positions) by id. There are three parts.

* The `useSearchNearbyCdp` hook. It builds the band of ids around a target id
  (`generateNearbyIds`). It fetches them in chunks, where each lookup is
  fail-soft (`processBatch` over `Promise.allSettled`). It retries the failures
  in smaller chunks with exponential backoff (`processFailedCdps`). It keeps the
  hook's state up to date: `data`, `searchId`, `nearbyIds`, `isLoading`,
  `progress` and `error` (`searchNearbyCdp`).
* `formatWeiValue`: BigInt scaling of a wei amount to units of 10^-5 ether.
* `bytesToString`: decoding of a hex `bytes32` (such as an ilk name) into text.

Modules, in dependency order:

| file | module | what it holds |
|---|---|---|
| `arith.dfy` | `Arith` | division facts used by the proofs |
| `seq_facts.dfy` | `SeqFacts` | subsequences, distinctness, chunking (`ids.slice(i, i + size)` for i = 0, size, 2·size, …) |
| `format_wei.dfy` | `FormatWei` | `formatWeiValue`, with BigInt truncating division |
| `hex_text.dfy` | `HexText` | `bytesToString`, step by step, and the `bytes32` round trip |
| `nearby_ids.dfy` | `NearbyIds` | `generateNearbyIds` and its reference definition as a band of consecutive ids |
| `cdp_fetch.dfy` | `CdpFetch` | `getCdpById`, `Promise.allSettled`, and the `forEach` that splits results and stores records |
| `cdp_sweep.dfy` | `CdpSweep` | the chunked walk shared by both loops: slice, `processBatch`, push failures, pause unless last |
| `cdp_retry.dfy` | `CdpRetry` | the `while` loop of `processFailedCdps`, as a function on a retry state |
| `cdp_search.dfy` | `CdpSearch` | the hook as a class `NearbyCdpSearch`; progress; what one search leaves behind |

## How the hook is modelled

**The class and its fields.** The hook's state is the class
`CdpSearch.NearbyCdpSearch`. Its fields are `data`, `searchId`, `nearbyIds`,
`isLoading`, `progress` and `error`. Its methods update those fields in place:

* `GetCdpById`;
* `ProcessBatch`, whose loop gathers the settled results;
* `ProcessFailedCdps`, whose `while` loop calls `RetryRound` for the inner `for` loop;
* `SearchNearbyCdp`.

**Logs.** The class has four more fields that record what the hook does to the
outside world:

* `calls`: the number of lookups made so far;
* `waits`: every `delay(ms)` requested, in order, as `Pause` for a delay in a chunked walk or `Backoff` for a delay between retry rounds (the log does not record which lookups a wait came between);
* `batches`: every batch handed to `processBatch`;
* `progressLog`: every value passed to `setProgress`.

**Specifications.** Each method is proved against a function:

* `ProcessBatch` against `CdpFetch.AllSettled`, `Succeeded`, `FailedIds` and `Stored`;
* the loops against `CdpSweep.SweepFrom` and `CdpRetry.Rounds`;
* the whole search against `CdpSearch.Search` and `CdpSearch.ProgressFrom`.

The lemmas state the hook's properties about those functions. They cover:

* partition and order of the two id lists;
* which map entries change;
* bounded rounds;
* the chunk, pause and backoff schedule;
* the final keys;
* progress.

**The contract.** The contract behind `getContract` is an oracle `Env`:

* `hasClient` says whether the web3 client is set. Without it, `getContract` throws inside `getCdpById`, so the promise rejects.
* `net(call, id)` is the contract's answer to the `call`-th lookup. It is either a record or a failure.

Because each lookup is numbered, a failure can heal on a later retry.

**`generateNearbyIds`.** This is pure. It is proved equal to the band of
consecutive positive ids from `targetId - floor(size/2)` to
`targetId + ceil(size/2)`.

**`formatWeiValue` and `bytesToString`.** These are pure functions. The
`bytes32` round trip uses a reference hex encoder, `HexText.EncodeHex`, as
the partner of the decoder.

**What one search does.** A search makes one pass over the ids and then the
retry rounds.

* Nothing cancels a search that a later one supersedes.
* After each chunk, progress is set to `(i + batchSize) / ids.length * 100`. When
  `batchSize` does not divide the number of ids, the last value is above 100.
* A missing client only makes every lookup reject.
* `error` is never set.

## Model

Source paths are relative to the repository root.

| member | source | states |
|---|---|---|
| FormatWei.TruncDiv | src/utils/formatWeiValue.ts:2 | BigInt `/` truncates toward zero: the quotient brackets the dividend from below for a non-negative dividend and from above for a negative one |
| FormatWei.FormatWeiValue | src/utils/formatWeiValue.ts:1-3 | `(wei * 100000n) / 10n**18n` is wei truncated-divided by 10^13, and for wei ≥ 0 the result r satisfies r·10^13 ≤ wei < (r+1)·10^13 |
| FormatWei.FormatWeiIsDivByUnit | src/utils/formatWeiValue.ts:2 | multiplying by 10^5 then dividing by 10^18 equals dividing by 10^13, for every sign of the input |
| FormatWei.FormatWeiOdd | src/utils/formatWeiValue.ts:2 | negating the input negates the result |
| FormatWei.FormatWeiLandmarks | src/utils/formatWeiValue.ts:2 | 0 wei gives 0, one ether (10^18 wei) gives 100000, and anything strictly between −10^13 and 10^13 gives 0 |
| FormatWei.FormatWeiMonotone | src/utils/formatWeiValue.ts:2 | the result never decreases as the wei amount grows |
| HexText.Pieces | src/utils/bytesToString.ts:5 | models `match(/.{1,2}/g)`: consecutive pieces of one or two characters, skipping line terminators, which `.` does not match (its properties are the Pieces lemmas below) |
| HexText.StripHexPrefix | src/utils/bytesToString.ts:2 | a leading "0x" is removed and nothing else changes; without one the string is unchanged |
| HexText.StripHexPrefixOnce | src/utils/bytesToString.ts:2 | only one prefix is removed: "0x0x…" keeps its second "0x" |
| HexText.PiecesCoverInput | src/utils/bytesToString.ts:5 | the pieces of `match(/.{1,2}/g)` hold, in order, exactly the input's characters other than line terminators |
| HexText.PiecesShape | src/utils/bytesToString.ts:5 | every piece has one or two characters, none a line terminator |
| HexText.PiecesCount | src/utils/bytesToString.ts:5 | a string without line terminators gives ceil(n/2) pieces |
| HexText.PiecesArePairs | src/utils/bytesToString.ts:5 | on such a string the k-th piece is the characters 2k and 2k+1, the trailing odd character alone |
| HexText.TrimStart | src/utils/bytesToString.ts:5 | `parseInt` first drops the leading white space and line terminators: every dropped character is one of them, and the rest is a suffix of the input that starts with neither |
| HexText.DigitRun | src/utils/bytesToString.ts:5 | `parseInt` reads the longest prefix of hex digits: all before it are digits, the next is not |
| HexText.ParseIntHex | src/utils/bytesToString.ts:5 | models `parseInt(piece, 16)`: leading white space skipped, an optional sign and `0x`, then the longest run of hex digits, and NaN when there is none |
| HexText.HexPairByte | src/utils/bytesToString.ts:5 | a piece of two hex digits becomes 16·high + low |
| HexText.ToUint8 | src/utils/bytesToString.ts:4-6 | the `Uint8Array` conversion turns NaN into 0 and keeps values 0..255 unchanged |
| HexText.HexBytes | src/utils/bytesToString.ts:4-6 | one byte per piece |
| HexText.HexBytesArePairs | src/utils/bytesToString.ts:4-6 | ceil(n/2) bytes, the k-th parsed from the characters 2k and 2k+1, the trailing odd character alone |
| HexText.HexBytesOfEncoding | src/utils/bytesToString.ts:4-6 | reading back the two-digit hex encoding of any byte sequence gives the same bytes |
| HexText.DecodeAscii | src/utils/bytesToString.ts:8-10 | decoding ASCII bytes gives one character per byte, with that code |
| HexText.RemoveNul | src/utils/bytesToString.ts:10 | the result has no NUL, every other character occurs as often as in the input, and the result keeps the input's order (a subsequence), so it is exactly the input with its NULs removed |
| HexText.RemoveNulKeeps | src/utils/bytesToString.ts:10 | removing the NULs from a NUL-free text followed by NULs gives the text |
| HexText.BytesToString | src/utils/bytesToString.ts:1-10 | the decoded text never contains NUL and is no longer than the byte sequence |
| HexText.BytesToStringEmpty | src/utils/bytesToString.ts:1-10 | "" and "0x" both decode to "" |
| HexText.PaddedNameDecodes | src/utils/bytesToString.ts:8-10 | the ASCII bytes of a NUL-free name padded with zero bytes to 32 decode, with the NULs removed, to the name |
| HexText.IlkNameRoundTrip | src/utils/bytesToString.ts:1-10 | a `bytes32` name written as "0x" and 64 hex digits gives back its 32 bytes and decodes to the name |
| HexText.EthAIlk | src/utils/bytesToString.ts:1-10 | "0x4554482d41" followed by 54 zeros decodes to "ETH-A" |
| NearbyIds.GenerateNearbyIds | src/features/cdp/api/useSearchNearbyCdp.ts:61-77 | models `generateNearbyIds`: the target and its neighbours, filtered to positive ids and sorted ascending (what the result is, is stated by NearbyIdsAreBand and the lemmas after it) |
| NearbyIds.Neighbours | src/features/cdp/api/useSearchNearbyCdp.ts:65-68 | `Array.from({ length: size }, …)` has `size` elements |
| NearbyIds.NeighboursAt | src/features/cdp/api/useSearchNearbyCdp.ts:65-68 | its i-th element is target + (floor(i/2)+1) for even i and target − (floor(i/2)+1) for odd i |
| NearbyIds.NeighboursInPairs | src/features/cdp/api/useSearchNearbyCdp.ts:65-68 | the first 2k neighbours are +1, −1, …, +k, −k around the target |
| NearbyIds.PairsCount | src/features/cdp/api/useSearchNearbyCdp.ts:65-68 | those 2k neighbours hold each id from target−k to target+k except the target exactly once |
| NearbyIds.Candidates | src/features/cdp/api/useSearchNearbyCdp.ts:63-69 | the target followed by its neighbours: size+1 ids, the target first |
| NearbyIds.CandidatesFormBand | src/features/cdp/api/useSearchNearbyCdp.ts:63-69 | as a multiset, the candidates are exactly the ids from target − floor(size/2) to target + ceil(size/2) |
| NearbyIds.KeepPositive | src/features/cdp/api/useSearchNearbyCdp.ts:70 | `.filter((id) => id > 0)` keeps each positive id as often as it occurs and drops the others |
| NearbyIds.KeepPositiveBand | src/features/cdp/api/useSearchNearbyCdp.ts:70 | filtering a band of consecutive ids cuts it at 1 |
| NearbyIds.Insert | src/features/cdp/api/useSearchNearbyCdp.ts:71 | inserting into an ascending sequence keeps it ascending and adds exactly the new element |
| NearbyIds.SortAscending | src/features/cdp/api/useSearchNearbyCdp.ts:71 | `.sort((a, b) => a - b)` gives an ascending permutation of its input |
| NearbyIds.SortedUnique | src/features/cdp/api/useSearchNearbyCdp.ts:71 | any two ascending permutations of the same elements are equal, so every correct sort gives the same result |
| NearbyIds.NearbyIdsAreBand | src/features/cdp/api/useSearchNearbyCdp.ts:61-77 | the generated ids are exactly the consecutive ids from max(1, target − floor(size/2)) to target + ceil(size/2) |
| NearbyIds.NearbyIdsOrdered | src/features/cdp/api/useSearchNearbyCdp.ts:63-71 | the ids are strictly ascending and all positive, and contain the target exactly when it is positive |
| NearbyIds.NearbyIdsWithinReach | src/features/cdp/api/useSearchNearbyCdp.ts:65-70 | every id is at most floor(size/2) below and at most ceil(size/2) above the target |
| NearbyIds.NearbyIdsCount | src/features/cdp/api/useSearchNearbyCdp.ts:65-70 | there are size+1 ids exactly when target > floor(size/2); otherwise there are max(0, target + ceil(size/2)) |
| CdpFetch.GetCdpById | src/features/cdp/api/useSearchNearbyCdp.ts:79-105 | a lookup fulfils exactly when a client is set and the contract answers, and then the record is `{ id, ...data }` |
| CdpFetch.AllSettled | src/features/cdp/api/useSearchNearbyCdp.ts:114 | `Promise.allSettled` gives one result per id |
| CdpFetch.AllSettledAt | src/features/cdp/api/useSearchNearbyCdp.ts:114 | the k-th result is the k-th id's lookup, in input order, and every fulfilled result carries its own id |
| CdpFetch.AllSettledAppend | src/features/cdp/api/useSearchNearbyCdp.ts:114 | settling a + b is settling a, then b with the lookups numbered on |
| CdpFetch.Succeeded | src/features/cdp/api/useSearchNearbyCdp.ts:119-128 | models the `succeeded` list of the `forEach`: the ids whose lookup fulfilled, in input order |
| CdpFetch.FailedIds | src/features/cdp/api/useSearchNearbyCdp.ts:119-128 | models the `failed` list of the `forEach`: the ids whose lookup rejected, in input order |
| CdpFetch.Stored | src/features/cdp/api/useSearchNearbyCdp.ts:119-128 | models the `setData` calls of the `forEach`: each fulfilled lookup writes its record under its id, in input order |
| CdpFetch.Partition | src/features/cdp/api/useSearchNearbyCdp.ts:119-128 | `succeeded` and `failed` together hold every input id as often as the input does; both keep input order; an id is in a list exactly when a position with that id settled that way |
| CdpFetch.PartitionDistinct | src/features/cdp/api/useSearchNearbyCdp.ts:119-128 | with distinct ids the two lists are disjoint and together cover the input |
| CdpFetch.StoredKeys | src/features/cdp/api/useSearchNearbyCdp.ts:119-128 | the map gains exactly the succeeded ids, and every other entry keeps its record |
| CdpFetch.StoredValue | src/features/cdp/api/useSearchNearbyCdp.ts:123 | with distinct ids, a succeeded id maps to the record its lookup returned |
| CdpFetch.StoredKeyedById | src/features/cdp/api/useSearchNearbyCdp.ts:88-94 | storing keeps every record filed under its own id |
| CdpFetch.NoClientAllFail | src/features/cdp/api/useSearchNearbyCdp.ts:50-53 | without a client every id fails, none succeeds and the map is untouched |
| CdpFetch.AllAnsweredNoneFail | src/features/cdp/api/useSearchNearbyCdp.ts:114-128 | when every call answers, every id succeeds and none fails |
| CdpSweep.Step | src/features/cdp/api/useSearchNearbyCdp.ts:152-162 | models one turn of the chunked loop: slice the chunk at i, settle it as one batch, append its failures, store its records, and pause unless it is the last chunk |
| CdpSweep.SweepFrom | src/features/cdp/api/useSearchNearbyCdp.ts:198-210 | models the chunked `for` loop from index i (shared with lines 152-162): one Step per chunk until the ids run out |
| CdpSweep.Sweep | src/features/cdp/api/useSearchNearbyCdp.ts:152-162 | walking in chunks gives the same failures, in the same order, and the same map as one batch of all the ids. It makes one lookup per id. The batches are the consecutive chunks, and the waits gain one `batchDelay` pause fewer than there are chunks, and nothing else |
| CdpSweep.SweepFromWhole | src/features/cdp/api/useSearchNearbyCdp.ts:152-157 | the walk from any chunk boundary completes the failures, map and lookups of the whole input |
| CdpSweep.SweepFromBatches | src/features/cdp/api/useSearchNearbyCdp.ts:152-155 | the batches of the walk from i are the chunks from i |
| CdpSweep.SweepFromWaits | src/features/cdp/api/useSearchNearbyCdp.ts:159-161 | the walk from i adds one `batchDelay` pause to the waits for each of its chunks but one, and no other wait |
| CdpSweep.PausesGaps | src/features/cdp/api/useSearchNearbyCdp.ts:159-161 | there is one pause fewer than there are chunks |
| SeqFacts.ChunksPartition | src/features/cdp/api/useSearchNearbyCdp.ts:152-153 | the slices `ids.slice(i, i + size)` concatenate back to the ids; each has 1..size ids, all but the last exactly size |
| SeqFacts.ChunksCount | src/features/cdp/api/useSearchNearbyCdp.ts:152-153 | there are ceil(n/size) slices |
| CdpRetry.RetryBatchSize | src/features/cdp/api/useSearchNearbyCdp.ts:149 | the retry chunk size is 2 for a batch size below 4, and half the batch size rounded down otherwise |
| CdpRetry.BackoffDelay | src/features/cdp/api/useSearchNearbyCdp.ts:174 | models `retryDelay * Math.pow(2, retryAttempt)` with an exact power of two |
| CdpRetry.Advance | src/features/cdp/api/useSearchNearbyCdp.ts:149-179 | models one turn of the `while` body: the chunked walk over the ids still failing, the counter bumped, and the backoff unless nothing failed or the attempts are spent (stated by AdvanceFacts) |
| CdpRetry.Rounds | src/features/cdp/api/useSearchNearbyCdp.ts:144-180 | models the `while` loop: Advance until nothing is left or `maxRetries` attempts are made (stated by the Rounds lemmas) |
| CdpRetry.AdvanceFacts | src/features/cdp/api/useSearchNearbyCdp.ts:144-179 | one round bumps the attempt and keeps the ids that failed again, in order. It stores the recovered records and makes one lookup per id, cut into chunks of the retry size. It backs off `retryDelay * 2^attempt` exactly when ids still fail and attempts remain |
| CdpRetry.RoundsEnd | src/features/cdp/api/useSearchNearbyCdp.ts:144-171 | the loop ends with nothing left or the attempts used up. It makes no round, and returns its input unchanged, when it starts that way (including `maxRetries` ≤ 0). Otherwise it makes at most `maxRetries` rounds |
| CdpRetry.RoundsSubseq | src/features/cdp/api/useSearchNearbyCdp.ts:144-182 | the ids returned are a subsequence of the ids passed in |
| CdpRetry.RoundsKeys | src/features/cdp/api/useSearchNearbyCdp.ts:152-165 | with distinct ids, the rounds add to the map exactly the ids retried and not returned |
| CdpRetry.RoundsUntouched | src/features/cdp/api/useSearchNearbyCdp.ts:152-157 | an entry for an id that is not retried keeps its record |
| CdpRetry.RoundsKeyedById | src/features/cdp/api/useSearchNearbyCdp.ts:152-157 | the rounds keep every record filed under its own id |
| CdpRetry.RoundsGrow | src/features/cdp/api/useSearchNearbyCdp.ts:152-155 | the rounds only append batches |
| CdpRetry.RoundsBackoffs | src/features/cdp/api/useSearchNearbyCdp.ts:173-179 | the backoffs are `retryDelay * 2^a` for a = first attempt + 1 up to the last attempt − 1, in order: one fewer than the rounds made |
| CdpRetry.RoundsNoClient | src/features/cdp/api/useSearchNearbyCdp.ts:144-171 | without a client nothing is recovered, the map is unchanged, and every attempt up to `maxRetries` is spent |
| CdpRetry.DefaultSchedule | src/features/cdp/api/useSearchNearbyCdp.ts:33-39 | with the default options the loop makes at most 3 rounds, and its backoffs are 6000 ms, then 12000 ms, one fewer than the rounds made |
| CdpSearch.Progress | src/features/cdp/api/useSearchNearbyCdp.ts:205 | models the value passed to `setProgress` after the chunk at i: `(i + batchSize) / ids.length * 100` |
| CdpSearch.ProgressFrom | src/features/cdp/api/useSearchNearbyCdp.ts:198-210 | models the progress values the first-pass loop reports from index i, one per chunk (stated by ProgressWalk) |
| CdpSearch.Search | src/features/cdp/api/useSearchNearbyCdp.ts:187-220 | models what a search leaves behind: the first pass from an empty map, then the retry rounds on its failures (stated by SearchOutcome and the lemmas after it) |
| CdpSearch.ProgressScale | src/features/cdp/api/useSearchNearbyCdp.ts:205 | progress grows strictly with the chunk index. It is below 100 exactly when more ids follow the chunk, and exactly 100 when the chunk ends at the last id |
| CdpSearch.ProgressWalk | src/features/cdp/api/useSearchNearbyCdp.ts:198-210 | from any chunk boundary there is one value per remaining chunk. The values are strictly increasing and below 100 except the last. The last is at least 100, and exactly 100 iff batchSize divides the id count |
| CdpSearch.ProgressReport | src/features/cdp/api/useSearchNearbyCdp.ts:198-210 | a search appends ceil(n/batchSize) values to the progress log, the first batchSize/n·100, strictly increasing, all below 100 but the last, which is ≥ 100 and = 100 iff batchSize divides n |
| CdpSearch.FirstPassOutcome | src/features/cdp/api/useSearchNearbyCdp.ts:198-210 | the first pass over distinct ids splits them: records, each under its own id, for the ids that did not fail, and the failed ids distinct and in order |
| CdpSearch.SearchOutcome | src/features/cdp/api/useSearchNearbyCdp.ts:187-220 | after a search over distinct ids the map's keys are exactly the ids not failing at the end, each record under its own id. The ids still failing keep their order. The retries stopped because nothing failed or because the attempts ran out |
| CdpSearch.NearbySearchOutcome | src/features/cdp/api/useSearchNearbyCdp.ts:187-220 | for the generated ids, the final keys are exactly the ids not still failing, and every stored id is positive, within reach of the target and keyed by its own record |
| CdpSearch.SearchFirstPass | src/features/cdp/api/useSearchNearbyCdp.ts:198-213 | the first batches of a search are the ids in consecutive `batchSize` chunks, and the retries only add batches after them |
| CdpSearch.SearchNoClient | src/features/cdp/api/useSearchNearbyCdp.ts:187-220 | without a client nothing is stored, every id still fails, and all `maxRetries` rounds are made |
| CdpSearch.SearchAllAnswered | src/features/cdp/api/useSearchNearbyCdp.ts:198-212 | when every call answers, every id is stored after one lookup each, in `batchSize` chunks, and no retry is made |
| CdpSearch.NearbyCdpSearch.constructor | src/features/cdp/api/useSearchNearbyCdp.ts:43-48 | the initial state: empty map, no search id, no ids, not loading, progress 0, no error |
| CdpSearch.NearbyCdpSearch.GetCdpById | src/features/cdp/api/useSearchNearbyCdp.ts:79-105 | one lookup, settled as `CdpFetch.GetCdpById` says, counted as the next call |
| CdpSearch.NearbyCdpSearch.Delay | src/features/cdp/api/useSearchNearbyCdp.ts:160 | a requested delay is appended to the log of waits |
| CdpSearch.NearbyCdpSearch.ProcessBatch | src/features/cdp/api/useSearchNearbyCdp.ts:107-137 | returns the succeeded and failed ids of the settled lookups and stores each fetched record. It makes one lookup per id, in order, and records the batch |
| CdpSearch.NearbyCdpSearch.RetryRound | src/features/cdp/api/useSearchNearbyCdp.ts:150-162 | the inner `for` loop does exactly the chunked walk `CdpSweep.SweepFrom` over the ids to retry |
| CdpSearch.NearbyCdpSearch.ProcessFailedCdps | src/features/cdp/api/useSearchNearbyCdp.ts:139-185 | returns the ids `CdpRetry.Rounds` leaves failing, and leaves the map, lookups, waits and batches as `Rounds` says |
| CdpSearch.NearbyCdpSearch.FirstPassChunk | src/features/cdp/api/useSearchNearbyCdp.ts:199-209 | one turn of the first-pass loop does one `CdpSweep.Step` and reports `Progress(i)` |
| CdpSearch.NearbyCdpSearch.FirstPass | src/features/cdp/api/useSearchNearbyCdp.ts:198-210 | the first-pass loop does the chunked walk over all ids and reports one progress value per chunk, leaving progress at the last, or untouched when there are no ids |
| CdpSearch.NearbyCdpSearch.SearchIds | src/features/cdp/api/useSearchNearbyCdp.ts:189-232 | sets `searchId` and `nearbyIds`, clears `isLoading` at the end and leaves `error` unchanged. The map, lookups, waits and batches are those of `CdpSearch.Search` from an empty map, and progress is as `Reported` says |
| CdpSearch.NearbyCdpSearch.SearchNearbyCdp | src/features/cdp/api/useSearchNearbyCdp.ts:187-235 | the same, for the ids `generateNearbyIds` produces, which become `nearbyIds` |

## Left out

- React plumbing is not modelled: `useState` setters become field updates and `useCallback` is dropped. The functional `setData` updater becomes a direct update of the field.
- Concurrent searches are not modelled. Two overlapping `searchNearbyCdp` calls interleave their updates in the real hook. The model runs one search at a time, and the code has no cancellation.
- The parallelism of `Promise.allSettled` is sequentialised: lookups are numbered in input order, and the results keep that order, as `allSettled` does.
- `console.log`, `console.warn` and `console.error` output is not modelled.
- `delay` does not sleep. Each requested duration is appended to the `waits` log.
- The contract call `getCdpInfo`, `getContract`, the ABI and the contract address are not modelled. They are replaced by the `Env` oracle, which answers a numbered lookup with a record or a failure.
- The `collateralType` option is not modelled. The hook never reads it.
- Progress is an exact `real`, not a double. Rounding of the floating-point percentage is not modelled.
- `CdpSearch.NearbyCdpSearch.SearchNearbyCdp`: a `batchSize` of 0 or less makes the source's `for` loop never end, so the method requires `batchSize > 0`. The same requirement is on every member that walks in chunks.
- `CdpRetry.Options`: `size` is a natural number. A negative `size` makes `Array.from` produce no neighbours; the model does not take that input.
- The `catch` block (lines 223-229) is not modelled, because nothing in the `try` block can throw. Every lookup failure, including a missing client, is absorbed by `allSettled`, and `delay` does not reject. So `error` is never written, and `CdpSearch.NearbyCdpSearch.SearchIds` states that it is unchanged.
- `progress` is not reset when a search starts. For an empty id list it is left at its previous value, as in the code.
- Progress can exceed 100 when `batchSize` does not divide the number of ids. `CdpSearch.ProgressReport` states this; it is the code's behaviour, not a defect the model changes.
- `HexText.BytesToString`: `TextDecoder` is modelled only for ASCII bytes (< 0x80), so the function requires that all bytes are ASCII. UTF-8 decoding of multi-byte sequences and of invalid input (replacement characters) is not modelled.
- `HexText.BytesToString`: strings are sequences of UTF-16 code units in the source; the model's characters are Dafny `char`s, and no surrogate handling is modelled.
- `FormatWei.FormatWeiValue`: the conversion `BigInt(wei)` from a boolean, number or string argument is not modelled. The function takes the integer that conversion would produce; inputs that make `BigInt` throw are outside the model.
- `CdpSweep.Sweep`: the waits are a log of their own, apart from the batches, so the order of waits relative to lookups is not recorded. The lemma states that a walk requests one pause fewer than there are chunks, and nothing else. It does not state that each pause falls between two chunks with none after the last (lines 159-161), although the body of `CdpSweep.Step` places them there.
- `CdpSweep.SweepFromWaits`: for the same reason, it states the number of pauses the walk from i adds, not where they fall among its lookups.
- `CdpRetry.RoundsBackoffs`: for the same reason, it states the backoffs the rounds request and their order, not that each falls between two rounds (lines 173-179), although the body of `CdpRetry.Advance` places them there.
- `CdpRetry.DefaultSchedule`: for the same reason, it states the default backoffs, 6000 ms then 12000 ms, not where they fall among the rounds.
- `NearbyIds.GenerateNearbyIds`: ids, `targetId`, `size` and `batchSize` are JavaScript numbers (doubles) in the source; the model takes them as exact integers. This matches the source only while `targetId + size` stays within 2^53: above that, `targetId ± offset` rounds, and the source can search the same id several times where the model's ids are distinct. `size` and `batchSize` are taken to be integers. `NearbyIds.NearbyIdsOrdered` and the other lemmas about the generated ids hold of this exact-integer model.
- `CdpRetry.Options`: `maxRetries`, `batchDelay` and `retryDelay` are unbounded integers, not doubles. `Math.pow(2, attempt)` is exact.
- The debt scaling in `CdpCard.tsx` and the other UI components are not part of this model.
- `CdpSearch.NearbyCdpSearch.RetryRound`, `CdpSearch.NearbyCdpSearch.FirstPass` and `CdpSearch.NearbyCdpSearch.FirstPassChunk` are not functions of the source. They are the inner `for` loop of `processFailedCdps` and the first-pass `for` loop of `searchNearbyCdp` and its body, written as methods of their own. `CdpSearch.NearbyCdpSearch.SearchIds` is the body of `searchNearbyCdp` after `generateNearbyIds`.
- `CdpSearch.NearbyCdpSearch.SearchIds`: the order of the updates is not stated. The contract says where each field ends up, not that `searchId`, `data` and `nearbyIds` are set before the first lookup, although the body does set them first.
- `CdpSearch.NearbyCdpSearch.SearchNearbyCdp`: the order of the updates is not stated either. It calls `SearchIds`, so its contract also gives only where each field ends up, not that `searchId`, `data` and `nearbyIds` are set before the first lookup (lines 189-193).
