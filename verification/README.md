# lazy-indexer, modelled in Dafny

lazy-indexer copies a part of the Farcaster social graph from a hub into Postgres. It indexes
only the accounts ("fids") that matter to a set of root accounts.

- **Root backfill.** For a root fid, a breadth-first walk of the follow graph finds the accounts
  the root follows. A parent/children job flow is then queued to backfill the root and each of
  those accounts.
- **Backfill job.** A backfill job registers its fid as a target. It fetches the fid's full
  profile from the hub and writes it in a fixed order: casts, links, reactions, user data,
  verifications, registrations, signers, storage. If the job fails, it undoes the target
  registration, but only when the fid was not a target before.
- **Live events.** A stream worker sorts hub events into nine buckets by message type and hands
  each bucket to its table writer. A cursor cell records the event id the subscriber resumes
  from.
- **Bulk backfill.** A separate entry point queues every fid up to the hub's highest, in batches
  of ten.

The model keeps all of this as pure functions over an immutable `World`. The world holds:

- the eight tables, each a map keyed by its unique constraint;
- the two Redis target sets;
- the job queue, as an appended list of job requests, and the flows;
- the cursor cell.

Everything outside the program is a parameter:

- the hub is a page oracle;
- the clock is an integer;
- `farcasterTimeToDate` and the key-request decoder are functions;
- a predicate says which SQL statement the database refuses.

Modules follow the source files:

| module | file |
|---|---|
| `Wrappers`, `Numerals`, `Protocol`, `Seqs` | shared: results, JavaScript numerals and `parseInt`, hub messages and events, sequence helpers |
| `Utils` | src/lib/utils.ts |
| `Targets` | src/lib/targets.ts |
| `BackfillJobs` | job ids and job requests of src/lib/backfill.ts |
| `Store` | tables, world, insert-or-skip, stamping transactions |
| `ApiCast`, `ProcessorsCast` | src/api/cast.ts, src/processors/cast.ts |
| `ProcessorsReaction`, `ApiReaction` | src/processors/reaction.ts, src/api/reaction.ts |
| `ApiLink`, `ProcessorsVerification`, `ApiUserData` | src/api/link.ts, src/processors/verification.ts, src/api/user-data.ts |
| `Paginate` | src/lib/paginate.ts |
| `OnChainOrder`, `OnChainApply`, `ApiFid`, `ApiSigner`, `ApiStorage` | src/api/fid.ts, src/api/signer.ts, src/api/storage.ts |
| `LibEvent`, `ProcessorsEvent` | src/lib/event.ts, src/processors/event.ts |
| `LinksUtils`, `Network` | src/lib/links-utils.ts |
| `LibBackfill` | src/lib/backfill.ts |
| `BulkBackfill` | src/backfill.ts |

Where the code and its documentation disagree, the model follows the code:

- `handleEvents` does no target filtering, and prune, revoke and on-chain events change nothing.
- `getFullProfileFromHub` takes no hub options. The `includeRemoveMessages` flag of a backfill job
  therefore only switches the delete pass on. It never switches the hub walks to the "all
  messages" calls.

## Model

| member | source | states |
|---|---|---|
| Utils.FormatAll | src/lib/utils.ts:36-130 | A `map` with a throwing converter succeeds exactly when every message converts. It then gives one row per message, in input order. Otherwise it throws the error of the first message that fails. |
| Utils.FormatCasts | src/lib/utils.ts:36-54 | Succeeds exactly when every message has a cast-add body and a convertible timestamp. Row i copies message i's hash, author, converted timestamp, text, mentions and parent hash. |
| Utils.FormatReactions | src/lib/utils.ts:56-71 | Succeeds exactly when every message has a reaction body and a convertible timestamp. Row i copies hash, author, date, reaction type and the target cast or URL of message i. |
| Utils.FormatLinks | src/lib/utils.ts:114-130 | One row per message, in order, with hash, author, target and type copied. The display timestamp is null exactly when the body's is 0 or absent. Every body present and every needed date convertible means no throw. |
| Utils.FormatVerifications | src/lib/utils.ts:98-112 | Succeeds exactly when every message has an address body and a convertible timestamp. Row i carries message i's hash, author and address. |
| Utils.KeysSpec | src/lib/utils.ts:76-84 | The keys kept in first-appearance order are duplicate-free. A (fid, type) key is listed exactly when some message carries it. |
| Utils.DedupeLastSpec | src/lib/utils.ts:76-84 | The `Map.set` loop keeps one message per key, in first-appearance order of the keys. The message kept is the last one with that key. |
| Utils.FormatUserDatas | src/lib/utils.ts:73-96 | A message without a user-data body throws. The result is a list of rows exactly when every message has such a body and the timestamp of the last message of each (fid, type) converts to a date. The timestamps of earlier, overwritten messages are never read. There is then one row per distinct (fid, type), in first-appearance order. Each row carries the hash, value and converted timestamp of the last message with that key. |
| Utils.FormatUserDatasDistinct | src/lib/utils.ts:73-96 | No two rows of the result share a (fid, type) key. |
| Utils.KeyStringInjective | src/lib/utils.ts:81 | The string key `fid:<fid>-type:<type>` is injective: equal keys mean equal (fid, type) pairs. |
| Utils.ChunksShape | src/lib/utils.ts:148-154 | The chunks of the reference split flatten back to the input in order. Each chunk is non-empty and holds at most `size` items, and all but the last hold exactly `size`. There are no chunks exactly when the input is empty. |
| Utils.BreakIntoChunks | src/lib/utils.ts:148-154 | The slicing loop `i += size` produces exactly that reference split, so flattening its result gives the input back. |
| Utils.CheckMessages | src/lib/utils.ts:156-166 | An Ok result gives its message list and an error result gives no messages. It never throws. |
| Utils.CheckOnchainEvent | src/lib/utils.ts:168-177 | A value exactly for an Ok result, and that value unchanged; null for an error. |
| Targets.IsTarget | src/lib/targets.ts:17-20 | Without a key, membership is tested in `targets:all`. With the root key, it is tested in `targets:root`. |
| Targets.IsRootTarget | src/lib/targets.ts:13-15 | True exactly for members of the root set. |
| Targets.AddRootTarget | src/lib/targets.ts:22-25 | The fid joins both sets, and nothing else changes in either. It preserves root ⊆ all. |
| Targets.AddTarget | src/lib/targets.ts:27-29 | The fid joins the all set only. The root set is unchanged, and root ⊆ all is preserved. |
| Targets.RemoveRootTarget | src/lib/targets.ts:31-33 | The fid leaves the root set only. Root ⊆ all is preserved. |
| Targets.RemoveTarget | src/lib/targets.ts:35-37 | The fid leaves the all set only. The root set is unchanged. |
| Targets.RemoveTargetBreaksRootWithinAll | src/lib/targets.ts:22-37 | Adding a root target and then calling `removeTarget` leaves a root outside the all set. |
| Targets.TargetOpsIdempotent | src/lib/targets.ts:22-37 | Each of the four updates has set semantics: applying it twice is applying it once. |
| Targets.AddThenRemoveRestores | src/lib/targets.ts:27-37 | `removeTarget` after `addTarget` restores the registry exactly when the fid was not already a target. |
| Targets.GetTargetsAsWritten | src/lib/targets.ts:7-11 | `map(parseInt)` parses the member at index i with radix i. |
| Targets.GetTargetsAsWrittenYieldsNaN | src/lib/targets.ts:7-11 | With two or more members, the result always contains NaN, because radix 1 is invalid. |
| Targets.GetTargetsAsWrittenCounterexample | src/lib/targets.ts:7-11 | When SMEMBERS replies ["1", "2"], the targets read back as {1, NaN}, and fid 2 is lost. Redis promises no reply order; GetTargetsAsWrittenYieldsNaN is the order-free statement. |
| Targets.GetTargetsRoundTrip | src/lib/targets.ts:7-11 | Corrected decimal parsing reads back exactly the stored fids. |
| Numerals.NumeralValue | src/lib/event.ts:126 | `n.toString(radix)` reads back as n in that radix. |
| Numerals.DecimalRoundTrip | src/lib/targets.ts:7-11 | `parseInt` of the decimal numeral of n, in radix 10, is n. |
| Numerals.IntStringRoundTrip | src/processors/event.ts:11-22 | `parseInt(String(n))` is n for every integer, negative ones included. |
| Numerals.DecimalInjective | src/lib/backfill.ts:54-64 | Different numbers have different decimal numerals. |
| BackfillJobs.JobIdsDistinct | src/lib/backfill.ts:54-64 | Each job-id family (`backfill:`, `backfill:partial:`, `backfill:root:`) is injective in the fid. No two families share an id. |
| BackfillJobs.IdStringInjective | src/lib/backfill.ts:54-64 | Two job ids spell the same string exactly when they are the same id: same family and same fid. |
| BackfillJobs.QueueBackfillJob | src/lib/backfill.ts:141-162 | Appends exactly one job to the backfill queue, leaving the earlier jobs as they were. It uses the partial id exactly when `partial` is true, and the priority defaults to 100. |
| Store.InsertSkip | src/api/cast.ts:20-33 | Insert-or-skip: a row whose key is already in the table, or earlier in the batch, is skipped. Existing rows never change, and every batch key ends up present. |
| Store.InsertSkipFirstWins | src/api/cast.ts:22-26 | For a key new to the table, the first row of the batch with that key is the one stored. |
| Store.InsertSkipAppend | src/api/cast.ts:20-33 | Inserting two batches in turn is inserting their concatenation, so chunking does not change the outcome. |
| Store.ChunkedInsert | src/api/cast.ts:15-34 | Rows already stored are never overwritten. The insert fails exactly when some chunk's statement is refused, and then rethrows the database error. Without a refusal the result is the insert of all rows. |
| Store.ChunkedInsertCommitsPrefix | src/api/cast.ts:15-34 | After a refusal, exactly the rows of the chunks before the first refused chunk are committed. |
| Store.ApplyStamps | src/api/cast.ts:41-53 | The updates of a transaction run in order. Every row keeps its content and its other stamp. The stamped field ends as the date of the last update that matches the row. |
| Store.Transact | src/api/cast.ts:39-60 | A message that throws, or a refused commit, rolls the whole transaction back and rethrows. Otherwise the stamps are applied. |
| Store.UnmatchedRowUnchanged | src/api/cast.ts:45-51 | A row that no update matches is left exactly as it was. |
| Store.LastMatchIsLast | src/api/cast.ts:42-52 | The date a row ends with comes from a matching update, and no later update matches that row. |
| Store.TransactStampsLastHit | src/api/cast.ts:39-60 | When each message's update matches exactly the rows it hits, each row ends with the date of the last message that hits it. |
| ApiCast.InsertCasts | src/api/cast.ts:15-34 | All messages are formatted with no type filter, then inserted in chunks of 1000 with hash conflicts skipped. A format error throws before any write. |
| ApiCast.DeleteStep | src/api/cast.ts:42-51 | A delete step throws exactly when the message's timestamp cannot be converted. |
| ApiCast.DeleteCasts | src/api/cast.ts:39-60 | Each removed cast gets `deletedAt` from its message's date, and nothing else changes. Any failure rolls the transaction back. |
| ApiCast.PruneStepAsWritten | src/api/cast.ts:69-78 | As written, a prune step throws unless the timestamp converts and the message is a reply: a cast-add with a parent. |
| ApiCast.PruneCastsAsWritten | src/api/cast.ts:66-87 | As written, prune stamps `prunedAt` on the parents of the pruned casts, and one top-level cast makes the whole call throw. |
| ApiCast.PruneCastsAsWrittenCounterexample | src/api/cast.ts:66-87 | Pruning a reply stamps its parent and leaves the reply unpruned. Pruning a top-level cast throws. The corrected writer stamps the reply itself. |
| ApiCast.PruneCasts | src/api/cast.ts:66-87 | Corrected: each pruned cast message stamps `prunedAt` on its own row. |
| ProcessorsCast.MentionedFidsSnoc | src/processors/cast.ts:45-51 | Appending a cast appends its mentions when it is newer than the cutoff, and nothing otherwise. |
| ProcessorsCast.MentionedFidsMember | src/processors/cast.ts:45-51 | A fid is among the mention targets exactly when some recent cast mentions it. |
| ProcessorsCast.QueueMentionJobs | src/processors/cast.ts:54-56 | One partial backfill request per mention, duplicates included, in order, at priority 110. |
| ProcessorsCast.InsertCasts | src/processors/cast.ts:20-58 | Only cast-adds are inserted. Once all chunks are in, each mention in a cast newer than seven days queues a partial backfill. A refused chunk queues nothing. |
| ProcessorsCast.DeleteCasts | src/processors/cast.ts:63-86 | Only cast-remove messages are used, and they are deleted as the API writer deletes them. |
| ProcessorsCast.PruneStep | src/processors/cast.ts:95-107 | A prune step throws unless the timestamp converts and the message has a cast-add body. |
| ProcessorsCast.PruneCasts | src/processors/cast.ts:92-114 | There is no type filter. Every cast sharing a message's author and text gets `prunedAt`, possibly several rows. |
| ProcessorsReaction.InsertReactions | src/processors/reaction.ts:19-40 | Only reaction-adds are formatted and inserted, in chunks of 1000, with hash conflicts skipped. |
| ProcessorsReaction.ReactionStep | src/processors/reaction.ts:42-110 | A step throws without a reaction body. It also throws when the reaction names a target and its timestamp cannot be converted. A targetless reaction never throws. |
| ProcessorsReaction.StampReactions | src/processors/reaction.ts:42-110 | One transaction stamps each matched reaction with the last matching message's date. |
| ProcessorsReaction.DeleteReactions | src/processors/reaction.ts:42-76 | Only reaction-removes are used. The rows they match get `deletedAt`. |
| ProcessorsReaction.PruneReactions | src/processors/reaction.ts:78-110 | With no type filter, the rows each message matches get `prunedAt`. |
| ProcessorsReaction.TargetlessReactionChangesNothing | src/processors/reaction.ts:42-110 | A remove or prune that names neither a cast nor a URL leaves every row unchanged. |
| ApiReaction.QueueIndexJobs | src/api/reaction.ts:55-67 | One index job per recent reaction whose target cast's fid is non-zero and not in `targets:all`, in order, at priority 110. |
| ApiReaction.InsertReactions | src/api/reaction.ts:24-69 | The stream writer's insert, then index jobs for reactions newer than one day whose target is not indexed. |
| ApiReaction.RecentThenNeeds | src/api/reaction.ts:49-67 | Filtering by age twice and then by need is the same as filtering once by both. |
| ApiReaction.DeleteReactions | src/api/reaction.ts:71-105 | As in the stream writer: the delete succeeds exactly when every reaction-remove has a reaction body, every targeted one has a convertible date, and the database accepts the batch. A failure leaves the world unchanged. On success the rows get `deletedAt` from their last matching message. |
| ApiReaction.PruneReactions | src/api/reaction.ts:107-139 | As in the stream writer: the prune succeeds exactly when every message has a reaction body, every targeted one has a convertible date, and the database accepts the batch. On success the rows get `prunedAt` from their last matching message. |
| ApiLink.QueueFollowJobs | src/api/link.ts:43-53 | From the stream, every input message whose author is a root target and whose link names a non-zero target queues a full backfill of that target. |
| ApiLink.InsertLinks | src/api/link.ts:18-54 | Only link-adds are inserted. With the default source no job is queued. With `stream`, the follow jobs above are queued after the insert. |
| ApiLink.LinkStep | src/api/link.ts:56-104 | A step throws without a link body or with a timestamp that cannot be converted. |
| ApiLink.StampLinks | src/api/link.ts:56-104 | One transaction stamps every matched link with the date of the last message that matches it. |
| ApiLink.DeleteLinks | src/api/link.ts:56-80 | Only link-removes are used. The links they match get `deletedAt`. |
| ApiLink.PruneLinks | src/api/link.ts:82-104 | With no type filter, the links each message matches get `prunedAt`. |
| ProcessorsVerification.InsertVerifications | src/processors/verification.ts:15-33 | The verification-adds go in one statement. A conflict on (fid, signerAddress) changes nothing. |
| ProcessorsVerification.ReAddKeepsDeletion | src/processors/verification.ts:15-33 | Re-adding a soft-deleted verification leaves it deleted. |
| ProcessorsVerification.DeleteStep | src/processors/verification.ts:39-62 | A step throws unless the message has a verification-remove body and a convertible timestamp. |
| ProcessorsVerification.DeleteVerifications | src/processors/verification.ts:39-62 | Only verification-removes are used, in one transaction that sets `deletedAt`. |
| ApiUserData.UpsertSpec | src/api/user-data.ts:7-28 | For rows with distinct keys, each key takes its row's hash and value. A new key also takes its timestamp, and nothing else changes. |
| ApiUserData.InsertUserDatas | src/api/user-data.ts:7-28 | Each (fid, type) of the batch ends with its last message's hash and value. An existing key keeps its own timestamp. |
| ApiUserData.OlderMessageOverwrites | src/api/user-data.ts:7-28 | There is no timestamp comparison: an older message that arrives later overwrites the stored value. |
| Paginate.Rpc | src/lib/paginate.ts:23-25 | The "all messages" RPC is used exactly when `includeRemoveMessages` is truthy. |
| Paginate.Fetch | src/lib/paginate.ts:28-41 | Each request asks for `MAX_PAGE_SIZE` items. An error answer reads as an empty page. |
| Paginate.GetAllByFid | src/lib/paginate.ts:16-107 | The walk's result is the pages up to and including the first short page, concatenated in request order, and every earlier page is full. |
| Paginate.HubErrorEndsWalk | src/lib/paginate.ts:34-39 | A hub error on page k ends the walk there with what was gathered before it. |
| Paginate.RetryAsWritten | src/lib/paginate.ts:146-176 | As written, the call is repeated while it fails, at most until `maxAttempts`. The first Ok is returned unchanged. Each delay becomes the next call's base. |
| Paginate.RetryAsWrittenDelays | src/lib/paginate.ts:164-174 | As written, the i-th delay is base · 2^(attempt + … + attempt+i). |
| Paginate.RetryAsWrittenDelaysGrow | src/lib/paginate.ts:164-174 | As written, with a positive base, each delay is strictly larger than the one before. |
| Paginate.RetryAsWrittenDefaults | src/lib/paginate.ts:146-176 | Under the defaults a call that keeps failing is made ten times, and the first waits are 200, 800 and 6400 ms. |
| Paginate.Retry | src/lib/paginate.ts:146-176 | Corrected, with the base kept fixed: the i-th delay is base · 2^(attempt+i). |
| Paginate.RetryDelays | src/lib/paginate.ts:164-174 | In the corrected schedule each delay is double the one before. |
| Paginate.RetryDefaults | src/lib/paginate.ts:146-176 | In the corrected schedule the first waits are 200, 400 and 800 ms. |
| Paginate.RetryAsWrittenCounterexample | src/lib/paginate.ts:164-174 | The two schedules part at the third wait: 6400 ms as written against 800 ms. |
| Paginate.RetrySameOutcome | src/lib/paginate.ts:146-176 | Compounding the base changes only the delays: as written and corrected, the combinator makes the same number of calls and returns the same result. |
| Paginate.CallWithRetrySpec | src/lib/paginate.ts:153-163 | The retried call fails only when all ten attempts fail. Otherwise it returns one attempt's page unchanged. |
| Paginate.TypeBatches | src/lib/paginate.ts:123-143 | For one event type, the walk yields each page and asks for the next while the page token is non-empty. It agrees with the reference walk. |
| Paginate.TypeBatchesRefSpec | src/lib/paginate.ts:123-143 | The yielded pages are the answers up to the first one without a token. The walk throws on the first error answer. |
| Paginate.OnChainBatches | src/lib/paginate.ts:111-144 | Succeeds exactly when every type's walk succeeds, yielding their pages type by type in the given order. A failure carries the error of some type's walk. |
| Paginate.OnChainEventsOfType | src/api/signer.ts:43-52 | What the collectors gather before sorting is every page of their one type, concatenated. |
| OnChainOrder.SortEvents | src/api/signer.ts:55-59 | The result is sorted by (blockNumber, logIndex) and is a permutation of the input. |
| OnChainOrder.InsertAt | src/api/signer.ts:55-59 | Putting an event after every event not later than it, and before the rest, keeps a sorted list sorted and adds exactly that event. |
| OnChainOrder.GetAllOnChainByFid | src/api/fid.ts:13-32 | The events of every page of the type, sorted. A throwing walk throws. |
| OnChainApply.ApplyEachKeeps | src/api/signer.ts:65-124 | Rows of a fid no event names come out unchanged, whether or not the loop throws. |
| ApiFid.AddressOrNull | src/api/fid.ts:40-43 | An empty address is replaced by the 20-byte zero address, and any other address is kept. |
| ApiFid.RegistrationStep | src/api/fid.ts:35-94 | A non-registration event throws. REGISTER upserts the fid row. TRANSFER sets only the custody address and CHANGE_RECOVERY only the recovery address, each on an existing row. NONE throws. |
| ApiFid.InsertRegistrations | src/api/fid.ts:34-96 | Only the fids table changes and no fid row disappears. Rows of fids no event names are untouched, and no events change nothing. |
| ApiFid.InsertRegistrationsOne | src/api/fid.ts:34-96 | One event does exactly what its step does. A throw leaves the world as it was. |
| ApiFid.TransferOfUnknownFid | src/api/fid.ts:66-76 | Transferring a fid that was never registered changes nothing. |
| ApiSigner.SignerStep | src/api/signer.ts:65-123 | ADD upserts the (fid, key) row from the decoded metadata. REMOVE stamps `removedAt` on an existing row. Other types do nothing. |
| ApiSigner.InsertSigners | src/api/signer.ts:64-125 | Only the signers table changes and no signer row disappears. Signers of fids no event names are untouched. |
| ApiSigner.InsertSignersOne | src/api/signer.ts:64-125 | One event does exactly what its step does. A throw leaves the world as it was. |
| ApiSigner.ReAddKeepsRemoval | src/api/signer.ts:95-104 | A replayed ADD after a REMOVE leaves the key marked removed. |
| ApiStorage.StorageStep | src/api/storage.ts:34-59 | A non-storage event or an unconvertible expiry throws. Otherwise the row keyed by (fid, expiry date) gets the event's units, payer and rent time, and no other row changes. |
| ApiStorage.InsertStorage | src/api/storage.ts:33-61 | Only the storage table changes and no row disappears. Rows of fids no event names are untouched. |
| ApiStorage.InsertStorageOne | src/api/storage.ts:33-61 | One event does exactly what its step does. A throw leaves the world as it was. |
| ApiStorage.ReplayOnlyTouchesUpdatedAt | src/api/storage.ts:41-58 | Replaying an event changes its row only in `updatedAt`. |
| LibEvent.BucketOf | src/lib/event.ts:44-84 | Each of the nine handled message types has its own bucket. Every other type has none. |
| LibEvent.InBucketSnoc | src/lib/event.ts:38-107 | One more event appends its message to its own bucket and leaves the other eight unchanged. |
| LibEvent.Classify | src/lib/event.ts:38-107 | The classifying loop builds exactly the reference buckets: the merged messages of each type, in event order. |
| LibEvent.BucketMembership | src/lib/event.ts:38-107 | A message is in a bucket exactly when it was merged and has that bucket's type. It is therefore in at most one bucket. |
| LibEvent.WriteOrderCoversEachOnce | src/lib/event.ts:109-117 | Every bucket is in the write order, and no bucket appears twice: each of the nine is written exactly once. |
| LibEvent.Write | src/lib/event.ts:109-117 | Only the reaction writer can queue jobs: links use the default source, so no follow jobs are queued. Targets, flows and the cursor never change. |
| LibEvent.WriteAll | src/lib/event.ts:109-117 | No write touches targets, flows or the cursor, and the job queue only grows. |
| LibEvent.WriteAllAppend | src/lib/event.ts:109-117 | Writes are awaited in order: writing two runs of buckets is writing the first and then, unless it threw, the second. |
| LibEvent.HandleEvents | src/lib/event.ts:24-118 | Only the tables and the job queue can change: no target, flow or cursor is touched. |
| LibEvent.IgnoredEventChangesNothing | src/lib/event.ts:81-105 | Prune, revoke, on-chain, unknown events and unhandled message types leave the world unchanged. |
| LibEvent.FirstFailureStopsTheRest | src/lib/event.ts:109-117 | When inserting the casts throws, no later bucket is written. |
| LibEvent.PadStart | src/lib/event.ts:127-132 | The padding loop prepends zeros until the string is 12 long, keeping its value. |
| LibEvent.MakeLatestEventIdValue | src/lib/event.ts:120-135 | The id is (now − Farcaster epoch) · 2^12, also for a clock before the epoch. |
| LibEvent.MakeLatestEventIdLowBits | src/processors/event.ts:24-39 | The 12 sequence bits of the id are zero. |
| LibEvent.MakeLatestEventIdMonotone | src/lib/event.ts:120-135 | A later clock never gives a smaller id. |
| ProcessorsEvent.SaveLatestEventId | src/processors/event.ts:11-13 | Only the cursor cell changes, and it becomes non-empty. |
| ProcessorsEvent.GetLatestEvent | src/processors/event.ts:19-22 | A missing or empty cell reads as undefined. Anything else goes through `parseInt`. |
| ProcessorsEvent.SaveThenGet | src/processors/event.ts:11-22 | Reading the cursor back after saving an integer gives that integer. |
| ProcessorsEvent.LastSaveWins | src/processors/event.ts:11-13 | The last save wins, whatever its value: nothing prevents the cursor going backwards. |
| LinksUtils.FidKeysInjective | src/lib/links-utils.ts:22-40 | Each single-fid key family (`refreshNetwork-`, `populateFollowers-`, `linksByFid:`, `linksByTarget:`, `network:`) names one fid. |
| LinksUtils.FollowersKeyInjective | src/lib/links-utils.ts:49-51 | The followers cache key names its (fid, viewer) pair uniquely. |
| LinksUtils.FindJobPosition | src/lib/links-utils.ts:53-58 | Null exactly when no waiting job has the id. Otherwise it is the index of the first job that has it. |
| LinksUtils.Request | src/lib/links-utils.ts:305-316 | Each request asks for 1000 items, and the page token is appended exactly when it is truthy. |
| LinksUtils.GetAllMessagesFromHubEndpoint | src/lib/links-utils.ts:287-363 | On success, the answers up to the first one that stops the loop (a short page or a reached truthy limit) are concatenated in fetch order. A failed response throws, and every earlier answer went on. |
| LinksUtils.FullPageWithoutTokenRestarts | src/lib/links-utils.ts:314-359 | After a full page without a truthy token, the next request is the first-page request again. |
| LinksUtils.AddAll | src/lib/links-utils.ts:221-231 | `Set.add` in turn keeps insertion order without repeats, and holds exactly the old and the new elements. |
| LinksUtils.OutLinks | src/lib/links-utils.ts:221-235 | Duplicate-free. A fid is included exactly when it is the truthy target of some link-add or a target of some compact state. |
| LinksUtils.GetAllLinksByFid | src/lib/links-utils.ts:202-236 | The `/v1/linksByFid` walk, then the out-links of what it returned. A failed walk throws. |
| LinksUtils.UserDataOf | src/lib/links-utils.ts:270-282 | A type is a key exactly when some user-data add sets it. Its value is the last such add's value. |
| LinksUtils.GetUserDataByFid | src/lib/links-utils.ts:259-283 | The `/v1/userDataByFid` walk folded into a type-to-value record. A failed walk throws. |
| Network.IterationsFrom | src/lib/links-utils.ts:96-130 | The loop depth never exceeds `maxDepth`. |
| Network.TallyList | src/lib/links-utils.ts:172-182 | Counting one link list adds one to each listed fid and leaves the others unchanged. |
| Network.Expand | src/lib/links-utils.ts:154-182 | Fetching a frontier gives the union of its accounts' links and adds each account's links to the tally. |
| Network.GetNetworkByFid | src/lib/links-utils.ts:76-200 | `allLinks` and `linksByDepth` are the reference levels for every depth the loop ran. The popularity tally counts the fetched depths, which never include depth `maxDepth − 1`. |
| Network.NetworkContents | src/lib/links-utils.ts:93-130 | When maxDepth ≥ 1, depth 0 is {fid}. Popularity keys are exactly the accounts with a positive count. An account is in `allLinks` exactly when it is in some recorded level. |
| Network.LevelsDisjoint | src/lib/links-utils.ts:115-124 | An account is in at most one level. |
| Network.LevelsCoverSeen | src/lib/links-utils.ts:115-124 | The accounts seen before depth n are exactly the union of the levels below n. |
| Network.DepthTwo | src/lib/links-utils.ts:96-130 | With maxDepth 2, depth 1 exists exactly when the root links to someone, and it holds the root's links minus the root. Each link of the root has popularity 1. |
| LibBackfill.RunStages | src/lib/backfill.ts:210-227 | The awaited writers in order: only the tables change, and only those the stages write. Without deletes, no message row changes. |
| LibBackfill.Stages | src/lib/backfill.ts:210-227 | Without the remove flag the sequence has no delete stage. |
| LibBackfill.FailedEventsStage | src/lib/backfill.ts:216-218 | An awaited on-chain read that rejects throws before its writer runs, and the world is unchanged. |
| LibBackfill.BackfillFid | src/lib/backfill.ts:189-228 | A partial backfill writes only user data from one hub call. A full backfill without a profile changes nothing. Without the remove flag, no message row changes. |
| LibBackfill.MessageFailureStopsOnChain | src/lib/backfill.ts:210-218 | If a message writer throws, the backfill ends there, and the fids, signers and storage tables are unchanged. |
| LibBackfill.MessageStagesKeepOnChain | src/lib/backfill.ts:210-214 | The five message writers never touch the fids, signers or storage tables. |
| LibBackfill.FailedStageStops | src/lib/backfill.ts:216-227 | Once an on-chain read rejects, no later stage runs. |
| LibBackfill.OffChainStagesKeepOnChain | src/lib/backfill.ts:210-214 | Any run of writers that names none of the fids, signers and storage tables leaves those three tables as they were. |
| LibBackfill.RejectedRegistrationsStopBackfill | src/lib/backfill.ts:216-218 | A rejected registrations read ends the backfill with its error, and signers and storage are never written. |
| LibBackfill.HandleBackfillJob | src/lib/backfill.ts:164-187 | The job runs `backfillFid` after making a full job's fid a target. It rethrows that backfill's error and keeps its table writes and queued jobs. A full job that succeeds leaves the fid a target. A partial job never changes the targets. A job that fails leaves the targets exactly as they were before the job. |
| LibBackfill.FailureKeepsExistingTarget | src/lib/backfill.ts:169-182 | A fid that was already a target is still one after a failed job. |
| LibBackfill.RootFlow | src/lib/backfill.ts:115-135 | The parent is the root job with id `backfill:root:<fid>`, whose count is the number of children. The children are the root and then the followed accounts, each with id `backfill:<fid>` and priority 100. |
| LibBackfill.RootFlowJobIdsDistinct | src/lib/backfill.ts:115-135 | When the followed accounts are distinct and exclude the root, the children's job ids are pairwise distinct. |
| LibBackfill.DepthOneOfWalk | src/lib/backfill.ts:103-109 | The depth-2 walk records depth 1 exactly when the root follows someone, and then holds the root's follows minus the root. |
| LibBackfill.CreateRootBackfillJobAsWritten | src/lib/backfill.ts:99-138 | As written, a root that follows nobody throws. Otherwise the root becomes a root target and the flow is queued over its follows. |
| LibBackfill.CreateRootBackfillJob | src/lib/backfill.ts:99-138 | Corrected: a missing depth-1 entry is an empty set, so a flow is always queued, and the root never appears among its follows. |
| LibBackfill.Backfill | src/lib/backfill.ts:69-79 | Only the cursor changes, and reading it back gives the event id of the current time. |
| LibBackfill.GetAllFids | src/lib/backfill.ts:85-97 | A hub error throws. Otherwise the result is 1, 2, …, up to the first fid of the one-item page, and empty for an empty page. |
| BulkBackfill.ChunksCount | src/backfill.ts:32-35 | Batching n fids by ten gives ⌈n/10⌉ batches. |
| BulkBackfill.WellSizedIsChunks | src/backfill.ts:32-35 | Any non-empty batches of at most ten, full except possibly the last, that concatenate to a list are exactly `breakIntoChunks`'s split of it. |
| BulkBackfill.AddFidsToBackfillQueue | src/backfill.ts:28-36 | A hub error throws with nothing queued. Otherwise one batch job per batch is appended. The batches concatenate to `fids.slice(0, maxFid)`, each holds one to ten fids, and all but the last hold ten. |
| BulkBackfill.Backfill | src/backfill.ts:41-47 | The event id is saved before any batch is queued. A failed save throws with nothing queued. A later hub error still keeps the save. |
| BulkBackfill.HandleFid | src/backfill.ts:70-83 | A fid whose profile cannot be fetched is skipped. Only the five message tables may change, and no existing message row changes. |
| BulkBackfill.HandleJob | src/backfill.ts:67-84 | A batch job never touches targets, flows, cursor, fids, signers or storage, and never changes an existing cast, link or verification row. |
| BulkBackfill.SkippedFid | src/backfill.ts:71-76 | A fid with no profile is a no-op, and the job continues with the remaining fids. |
| BulkBackfill.FailedFidEndsJob | src/backfill.ts:78-82 | A writer that throws fails the job, and the fids after it are never handled. |
| BulkBackfill.HandleFidIsMessagePrefix | src/backfill.ts:78-82 | For each fid, the batch handler does exactly the message half of a full backfill without deletes. That backfill is this handler followed by the three on-chain writers. |

## Left out

- I/O, Redis, Postgres, BullMQ and Express are replaced by the immutable world. The clock reading that `updatedAt: new Date()` takes on the fids, signers and storage upserts is the parameter `env.now`.
- Concurrency is not modelled:
  - the 50-way `fastq` fan-out in `getNetworkByFid` is a sequential union;
  - the unawaited `addTarget`, `addRootTarget` and `removeTarget` calls, the signer REMOVE update and the `forEach(async …)` of src/api/reaction.ts are immediate, in-order effects.
- ApiSigner.SignerStep: a REMOVE update that fails is not seen by the loop in the source, and the model treats it the same way. The unhandled rejection it raises in the process is not modelled.
- `farcasterTimeToDate`, `decodeSignedKeyRequestMetadata` and `HubEvent.decode` are oracles. The hub RPCs and REST endpoints are page oracles.
- JavaScript numbers are unbounded integers. Float precision, `Number()` of huge values and the exponent notation of `String()` are not modelled.
- OnChainOrder.SortEvents: the contract states order and permutation but not stability. `Array.prototype.sort` is stable, and so is the model's insertion sort, but the contract does not state it.
- Paginate.GetAllByFid, Paginate.TypeBatches, LinksUtils.GetAllMessagesFromHubEndpoint: the source loops while the hub says "more". The model bounds every walk by a `maxPages` budget and reports when the budget runs out. Walks longer than the budget are not covered.
- Network.FromMessages: the adjacency is a total function. A failed `_getAllLinksByFid` inside the fan-out, which rejects the fastq worker, is not modelled.
- LinksUtils.GetAllMessagesFromHubEndpoint: the development-mode break after one page is not modelled, and neither are the `onProgress`/`debug` logging and `transformHashReverse`.
- LinksUtils.GetAllLinksByFid: the gRPC branch of `_getAllLinksByFid` is not modelled. It is the paginated `getAllLinksByFid` walk, which `Paginate.GetAllByFid` models separately.
- The registrations, signers and storage promises of `getFullProfileFromHub` are modelled as results that fail or succeed at their `await`. In src/backfill.ts they are never awaited, so their rejections go unobserved.
- `getFullProfileFromHub` is an oracle from fid to an optional profile. Its internals are the walks modelled in Paginate and OnChainOrder. It ignores the hub options it is given.
- src/api/verification.ts is not part of this model. The processors writers in src/processors/verification.ts stand in wherever it is imported.
- `saveCurrentEventId` and `queueIndexMessageJob` are not part of this model. `saveCurrentEventId` is a parameter of BulkBackfill.Backfill. An index job is a plain job request.
- `getFidCount`, `getAllLikersByCast`, `formatHubs` and `transformHashReverse` are not modelled: none of them is on a path the model covers.
- BulkBackfill.HandleJob: a batch job's `getFullProfileFromHub` rejection is swallowed and logged. The model collapses that to a fid with no profile.

## Findings

| source | as written | input that shows it | evidently intended | confidence | as-written member | corrected member |
|---|---|---|---|---|---|---|
| src/lib/targets.ts:7-11 | `targetsStrings.map(parseInt)` passes each index as the radix | the stored set {1, 2}, replied as ["1", "2"], reads back as {1, NaN}; in any reply order the second member is parsed with radix 1 and is NaN | every member parsed as decimal | high, not executed | Targets.GetTargetsAsWrittenCounterexample | Targets.GetTargetsRoundTrip |
| src/api/cast.ts:66-87 | prune matches `castAddBody.parentCastId.hash`, the parent cast | pruning a reply stamps its parent; pruning a top-level cast throws | the pruned cast's own hash is matched | medium, not executed | ApiCast.PruneCastsAsWrittenCounterexample | ApiCast.PruneCasts |
| src/lib/backfill.ts:103-115 | destructures `linksByDepth['1']` and reads `.size` | a root that follows nobody: no depth-1 entry, so `linksSet` is undefined and the job throws | a root with no follows still gets its own backfill | medium, not executed | LibBackfill.CreateRootBackfillJobAsWritten | LibBackfill.CreateRootBackfillJob |
| src/lib/paginate.ts:164-174 | each delay is passed on as the next call's base | the default schedule waits 200, 800, 6400 ms | exponential backoff from a fixed base: 200, 400, 800 ms | medium, not executed | Paginate.RetryAsWrittenCounterexample | Paginate.RetryDelays |
