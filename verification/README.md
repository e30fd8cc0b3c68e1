# URMA: verified core

A Dafny model of the parts of URMA where a mistake would go unnoticed, with proofs of what they promise.
`dafny verify dfyconfig.toml` checks everything.

| component | modules | what is proved |
|---|---|---|
| portal link rewriter | HtmlScan, Links, LinkRewrite, PortalHost, HostReading, LinkLocality, LinkIdempotence, HtmlStandard, HtmlTagStandard, HtmlRawStandard, HtmlRefreshStandard, HtmlDataStandard | the links replaced are those that the tokenizer of the HTML Standard finds, the gateway reads its own links back, and rewriting is idempotent |
| gateway fetches and cache | FetchProtocol, FetchReplies, PublicationCache | single flight, true replies and no lost wake-up over all interleavings, with progress; the cache is a budgeted view of a simple map |
| parallel secret scanner | ScanPool, ScanReader | the result does not depend on the schedule, nothing deadlocks, every run ends; windows miss no span of 513 bytes |
| private containers | Records, PrivateRecords, PrivateCounters, PrivateObjects, PrivateFiles, Containers, Recovery, RecoveryClasses, RecoveryOrder | round trips in any arrangement; cipher counters never repeat; recovery is independent of order and agrees with strict reading |
| inclusion proofs | MerkleInclusion, BlockProofs | completeness for every block in bounds; soundness up to an exhibited collision |
| difficulty | Positional, Limbs, Difficulty, DifficultyRules | limb arithmetic refines integers; exactly when a retarget wraps; exactly which bits each header of a chain must carry |
| multipart objects | Multipart, MultipartReader, MultipartGraph, MultipartRoundTrip | exact geometry, encoders and decoders inverse to each other, two readers agree, publishing and rebuilding undo each other |
| script envelopes | Envelopes | both readers accept exactly the canonical scripts |
| descriptor checksum | Checksum, Descriptors, Bip380, DescriptorStandard, DescriptorExample | the running value is the remainder of BIP 380, and the appended symbols are the only ones that pass its check |

Conventions. Bytes are integers from 0 to 255 and byte strings are sequences of them. Loops and objects that
change state are methods and classes, each proved against a function of its inputs; the theorems are lemmas
about those functions. Hashes, authenticators, keystreams, regular expressions and transaction decoding are
arbitrary functions, so nothing depends on what they compute; where a collision of a hash could matter, the
theorem says "or here is a collision". A 64-bit host is assumed.

Four places where the code, its documentation and expectation part ways, each settled by a theorem:

- The scanner carries 512 bytes, and its windows miss no span of up to 513; a span of 514 can be missed.
- The chain documentation mentions 256-bit wraparound of the retarget product. It cannot happen with the
  parameters of Bitcoin; with those of Litecoin it happens exactly when old target times clamped time reaches 2^256.
- A portal accepts domains of up to 253 bytes, but a link to one of its sites is only accepted as a host when name,
  suffix and domain together fit in 253; under a domain of more than 247 bytes none does.
- A retarget keeps at least a quarter of the old target only if the timespan is a multiple of four, as it is
  for every configured chain.

## Model

| member | source | states |
|---|---|---|
| LinkIdempotence.RewritingIsIdempotent | urma-cli/src/gateway_links.rs:11-85 | For every byte string and valid portal, transforming a rewritten page gives `Unchanged`. |
| LinkIdempotence.EditsVanish | urma-cli/src/gateway_links.rs:11-85 | After all edits of any document are made, tokenizing the result finds no edit. |
| LinkIdempotence.LastEdit | urma-cli/src/gateway_links.rs:11-76 | Making the last edit of a document leaves exactly the edits before it, at the same places: re-tokenizing gives the same tags and slots, shifted. |
| LinkIdempotence.EditsCommute | urma-cli/src/gateway_links.rs:65-84 | Making the last edit first and the others afterwards writes the same page as one forward pass. |
| LinkIdempotence.StartTagPatched | urma-cli/src/gateway_links.rs:49-63 | A start tag with one harmless edit in its slot keeps its name, its attributes, its slot and the text that follows it, moved by the edit. |
| LinkIdempotence.TagPatched | urma-cli/src/gateway_links.rs:217-245 | A tag with an edited attribute value reads as the same attributes, moved by the edit. |
| LinkIdempotence.MetaSlotPatched | urma-cli/src/gateway_links.rs:333-351 | A refreshing `meta` whose link was replaced still has its slot, around the new text. |
| LinkIdempotence.RefreshPatched | urma-cli/src/gateway_links.rs:353-398 | The refresh value with its link replaced is still a refresh value with the same target span, grown by the edit. |
| HtmlDataStandard.EditsAreTheLinks | urma-cli/src/gateway_links.rs:11-85 | On every document, what is replaced is exactly the rewritable links that the byte-at-a-time tokenizer of the HTML Standard finds from its data state, in order, each by what it is rewritten to. |
| HtmlDataStandard.LinksAreStandard | urma-cli/src/gateway_links.rs:11-63 | On every document the pass meets exactly the links that the standard's tokenizer finds, in order. |
| HtmlDataStandard.MarkupIsStandard | urma-cli/src/gateway_links.rs:35-63 | After any `<`, comments, bogus comments, end tags, start tags and text are told apart and end as in the tag open states of the standard, with the same link. |
| HtmlDataStandard.SlotIsLink | urma-cli/src/gateway_links.rs:333-351 | The slot is `href` of `a` and `area`, `action` of `form`, and the URL in the `content` of a refreshing `meta`, each the first attribute of its name in any case. |
| HtmlDataStandard.TextEndIs | urma-cli/src/gateway_links.rs:159-184 | Raw text, script text or none follows a start tag as its name says, and ends where the standard's tokenizer leaves it. |
| HtmlRefreshStandard.RefreshIsStandard | urma-cli/src/gateway_links.rs:353-398 | For every value the URL of a refresh is the one that the shared declarative refresh steps find, read one byte at a time. |
| Links.EditsAreRewrites | urma-cli/src/gateway_links.rs:65-76 | Every edit of a document replaces a link by what `rewrite` gives for it. |
| Links.TrimmedIs | urma-cli/src/gateway_links.rs:65-67 | Only space is cut off a slot, and none is left at its ends. |
| LinkLocality.MarkupSame | urma-cli/src/gateway_links.rs:35-63 | What one piece of markup is depends only on the bytes up to where it ends: documents that agree there agree on it. |
| LinkLocality.ScriptCloserSame | urma-cli/src/gateway_links.rs:186-215 | The script scanner decides by the bytes up to the closing tag only. |
| LinkLocality.TagSame | urma-cli/src/gateway_links.rs:217-261 | The tag scanner decides by the bytes up to the end of the tag only. |
| Links.EditsOrdered | urma-cli/src/gateway_links.rs:65-76 | The spans replaced in a document are disjoint, increasing, nonempty and in range, so the cursor never passes the next slot. |
| Links.SlotEditsAre | urma-cli/src/gateway_links.rs:65-76 | A slot has at most one edit; it lies in the slot, replaces text that starts with `urma://`, and writes what `rewrite` gives for it. |
| Links.SlotWithin | urma-cli/src/gateway_links.rs:333-351 | A slot lies strictly inside a start tag, after its name and before its end. |
| Links.Transform | urma-cli/src/gateway_links.rs:11-23 | The forward pass with its cursor returns the page with the edits of the document made, and `Unchanged` exactly when there are none; EditsAreTheLinks and SiteLinksAreReadBack say which edits those are and where they lead. |
| Links.Rewriter.Link | urma-cli/src/gateway_links.rs:65-76 | Handling a slot appends exactly the edits of that slot to what has been written. |
| Links.Rewriter.StartTag | urma-cli/src/gateway_links.rs:49-63 | A start tag contributes the edits of its slot and returns where its raw text ends. |
| Links.Rewriter.Markup | urma-cli/src/gateway_links.rs:35-47 | Each kind of markup contributes its edits and returns where it ends. |
| Links.Rewriter.Finish | urma-cli/src/gateway_links.rs:78-84 | The finished page is the input with the edits made; it is `Unchanged` exactly when there were none. |
| Links.ChooseSlot | urma-cli/src/gateway_links.rs:333-351 | The slot chosen from the kept fields is that of the first attribute of each name. |
| Links.EditsStep | urma-cli/src/gateway_links.rs:11-23 | Every turn of the pass moves strictly forward and the edits so far end before the next position. |
| Links.UrlSlotWithin | urma-cli/src/gateway_links.rs:333-351 | The chosen slot lies inside the value of an attribute. |
| HtmlTagStandard.TagIsStandard | urma-cli/src/gateway_links.rs:217-261 | For every document and position, `tag` reads the attributes, names and values, that the tag states of the HTML Standard read, and ends where they end. |
| HtmlTagStandard.ValueAgrees | urma-cli/src/gateway_links.rs:247-261 | `attribute_value` reads the value that the before-value, quoted and unquoted states read. |
| HtmlTagStandard.AttributesAgree | urma-cli/src/gateway_links.rs:223-244 | The attribute loop and the byte-at-a-time states agree from every position between attributes. |
| HtmlRawStandard.RawIsStandard | urma-cli/src/gateway_links.rs:296-306 | For every document and position and each of the seven raw elements, `raw_end` ends with the end tag that the RCDATA and RAWTEXT states of the HTML Standard find, or at the end of input. |
| HtmlRawStandard.RawAgrees | urma-cli/src/gateway_links.rs:296-331 | The search by whole names and the byte-at-a-time raw-text states agree from every position, for every name of letters. |
| HtmlStandard.CommentIsStandard | urma-cli/src/gateway_links.rs:276-290 | For every document and position, `comment` ends where the comment states of section 13.2.5 of the HTML Standard end. |
| HtmlStandard.CommentsAgree | urma-cli/src/gateway_links.rs:276-290 | Looking back at the text before each `>` agrees with the ten-state machine from every state consistent with that text. |
| HtmlStandard.ScriptIsStandard | urma-cli/src/gateway_links.rs:308-322 | For every document and position, `script_end` ends with the end tag that the script-data states of the HTML Standard find, or at the end of input. |
| HtmlStandard.ScriptsAgree | urma-cli/src/gateway_links.rs:186-215 | Three states with a dash counter and multi-byte jumps agree with the standard machine from every position and state. |
| HtmlStandard.EscapeOpens | urma-cli/src/gateway_links.rs:205-214 | After `<!`, two dashes and only two dashes lead to the escaped states. |
| HtmlStandard.NamedIsCollected | urma-cli/src/gateway_links.rs:324-331 | Comparing a name in one go equals collecting letters into the temporary buffer. |
| HtmlScan.ScanTag | urma-cli/src/gateway_links.rs:217-245 | The loop over attributes finds the tag and keeps, per wanted name, the first attribute of that name. |
| HtmlScan.Keep | urma-cli/src/gateway_links.rs:115-130 | A field is kept once: the first attribute of its name wins. |
| HtmlScan.ScanValue | urma-cli/src/gateway_links.rs:247-261 | The value scanner returns the value and the position after it, or that input ended. |
| HtmlScan.ScanComment | urma-cli/src/gateway_links.rs:276-290 | The loop over `>` finds the first one whose text before it closes a comment. |
| HtmlScan.ScanRaw | urma-cli/src/gateway_links.rs:296-306 | The loop over `<` finds the first end tag of the element. |
| HtmlScan.ScanScript | urma-cli/src/gateway_links.rs:308-322 | The loop over the compact states finds the end of a script element. |
| HtmlScan.FindRun | urma-cli/src/gateway_links.rs:492-498 | The loop returns the first position at or after the start whose byte is not accepted. |
| HtmlScan.Run | urma-cli/src/gateway_links.rs:492-498 | The position is in range, everything before it is accepted and the byte at it is not. |
| LinkRewrite.RewriteIsHarmless | urma-cli/src/gateway_links.rs:410-429 | Replacement text starts with `h`, has no byte that could end its slot unless the link had it, and is itself left alone by `rewrite`; SiteLinksAreReadBack says where it leads. |
| LinkRewrite.TargetOf | urma-cli/src/gateway_links.rs:431-455 | A link leads to a site only under a valid name. |
| PortalHost.Create | urma-cli/src/gateway_host.rs:128-168 | A portal is created exactly for a DNS domain of 1 to 253 bytes with registries whose scheme fits localhost; its authority has no delimiter bytes. |
| PortalHost.UnavailableRoundTrip | urma-cli/src/gateway_host.rs:202-212 | The percent-encoded link decodes to the original for every byte string. |
| PortalHost.Unavailable | urma-cli/src/gateway_host.rs:202-212 | The loop appends the encoding of every byte in order. |
| PortalHost.ParseSuffix | urma-cli/src/gateway_host.rs:31-38 | A label parses to a suffix exactly when it is that suffix's label. |
| PortalHost.EscapesAre | urma-cli/src/gateway_host.rs:202-212 | Exactly letters, digits and `-._~` stand for themselves; every other byte is a percent sign and its two uppercase hex digits. |
| HostReading.SiteLinksAreReadBack | urma-cli/src/gateway_links.rs:410-468 | A clean link to a site that the portal serves is rewritten to a link that the gateway reads as exactly the site of the last two labels of its host, with the link's tail as path; its host header is accepted if and only if name, suffix and domain fit in 253 bytes. |
| HostReading.OtherLinksAreReadBack | urma-cli/src/gateway_links.rs:410-468 | A clean link to anything else is rewritten to the portal's own page, read as the portal itself, with the whole link in the query. |
| HostReading.RewrittenIff | urma-cli/src/gateway_links.rs:410-482 | Exactly those links are rewritten whose host and tail are clean and whose labels name a site or publication under a known suffix. |
| HostReading.SiteIsClassified | urma-cli/src/gateway_host.rs:274-314 | A name, a suffix and the portal's domain classify to the site of that name and suffix. |
| HostReading.PortIsCutOff | urma-cli/src/gateway_host.rs:245-272 | The host of an authority that the portal writes is what stands before its port. |
| HostReading.LabelsAreBetweenDots | urma-cli/src/gateway_host.rs:287-291 | Labels have no dots and give the host when joined by dots. |
| HostReading.LabelsOfJoined | urma-cli/src/gateway_host.rs:287-291 | Undotted parts joined by dots have themselves as labels. |
| HostReading.LongDomainsServeNoSite | urma-cli/src/gateway_host.rs:128-137 | Under a domain of more than 247 bytes, which is accepted, no site fits in a host header. |
| PublicationCache.CacheAgrees | urma-cli/src/gateway_state.rs:264-290 | After every history of guarded puts and forgets: one row per key, total size within budget, and every row is the last one put under its key with no forget since. |
| PublicationCache.NothingEvicted | urma-cli/src/gateway_state.rs:271-282 | While everything stored fits the budget, the last value put under every key is still there. |
| PublicationCache.EvictShortest | urma-cli/src/gateway_state.rs:271-282 | The rows evicted are the shortest prefix, oldest first, that makes room. |
| PublicationCache.PutKeeps | urma-cli/src/gateway_state.rs:501-511 | A put keeps keys distinct, and the budget if the new entry is within it. |
| PublicationCache.Cache.Get | urma-cli/src/gateway_state.rs:264-269 | A hit is the value of the key's row; a miss means the key has none. |
| PublicationCache.Cache.Put | urma-cli/src/gateway_state.rs:271-282 | Map, queue and byte count together hold the old rows without the key, less the evicted ones, then the new row. |
| PublicationCache.Cache.Forget | urma-cli/src/gateway_state.rs:284-290 | Map, queue and byte count together lose the row of the key and no other. |
| FetchProtocol.SingleFlightOverRuns | urma-cli/src/gateway_state.rs:460-652 | In every run with any number of workers and any queue: no key is on its way twice; while the lock is free a key is queued exactly when it is on its way; no record vanishes under a waiter; a sleeper whose flight has landed is about to be notified. |
| FetchReplies.RepliesAreTrue | urma-cli/src/gateway_state.rs:513-580 | Over every run, from the steps taken: a worker leaves with `Served` only if the latest landing of its key is a fetch that succeeded, with `Unfetched` only if it is one that failed, with `Pending` only while its key is on its way and its wait has run out, with `QueueFull` only while the queue is full and its key is not on its way. |
| FetchReplies.ChecksTell | urma-cli/src/gateway_state.rs:520-543 | Over every run, a worker that looks waits on or gives up while its key is on its way, and is otherwise told what the latest fetch of it gave. |
| FetchReplies.LaunchesTell | urma-cli/src/gateway_state.rs:546-580 | Over every run, a launch joins a key on its way, refuses one that failed recently, and otherwise queues it if there is room. |
| FetchReplies.RecordsAgree | urma-cli/src/gateway_state.rs:616-652 | In every reachable state each record is queued or says how its key was last landed. |
| FetchProtocol.InvKept | urma-cli/src/gateway_state.rs:513-580 | Every step of every participant keeps the protocol invariant. |
| FetchProtocol.RecordsStay | urma-cli/src/gateway_state.rs:513-545 | A recorded flight stays recorded in every continuation, so the errors for vanished records are unreachable. |
| FetchProtocol.LandsWithin | urma-cli/src/gateway_state.rs:616-652 | In any run that gives the fetcher enough steps, the flight of a key that is on its way lands. |
| FetchProtocol.FetcherAdvances | urma-cli/src/gateway_state.rs:628-652 | Every fetcher step brings every key on its way nearer to landing, and lands it when none are left. |
| FetchProtocol.WorkersDoNotDelay | urma-cli/src/gateway_state.rs:546-580 | No worker step puts a key that is on its way further back. |
| FetchProtocol.FetcherIsReady | urma-cli/src/gateway_state.rs:628-652 | While a key is on its way the fetcher can step, unless it waits for a lock that a worker holds. |
| FetchProtocol.LockIsReleased | urma-cli/src/gateway_state.rs:513-580 | A worker that holds the lock can go on and gives it up within three steps of its own. |
| ScanPool.ScheduleDoesNotMatter | urma-git/src/scan_pool.rs:41-162 | Every run that ends without errors gives the objects, bytes and findings, in order, of a sequential scan; a cancelled run has an error; whether the shared finding limit is exceeded depends on the number of findings alone. |
| ScanPool.InvKept | urma-git/src/scan_pool.rs:41-130 | Every step of every worker and of the receiver keeps the invariant. |
| ScanPool.OnePlaceKept | urma-git/src/scan_pool.rs:41-61 | Every claimed index is sent at most once and held by at most one worker, never both. |
| ScanPool.NoneLostKept | urma-git/src/scan_pool.rs:41-75 | While nothing has gone wrong, every claimed index is held or sent, and nobody stops before all are claimed. |
| ScanPool.CountingKept | urma-git/src/review.rs:112-131 | The shared counter is exactly the findings counted so far, and a limit error means the total exceeds the limit. |
| ScanPool.ReceivingKept | urma-git/src/scan_pool.rs:77-145 | The receiver's totals and results are those of the reports received, while nothing has gone wrong. |
| ScanPool.SortedResults | urma-git/src/scan_pool.rs:147-162 | Whatever order reports arrive in, sorting puts them in index order. |
| ScanPool.CleanBefore | urma-git/src/scan_pool.rs:63-75 | Once something has gone wrong it stays visible: in a worker, in the channel, or in the errors. |
| ScanPool.NoDeadlock | urma-git/src/scan_pool.rs:41-130 | Until the end somebody can always take a step, without any failure outside. |
| ScanPool.RunsAreFinite | urma-git/src/scan_pool.rs:41-130 | No run is longer than the work there is at its start. |
| ScanReader.OccurrencesAreReported | urma-git/src/review.rs:95-142 | An occurrence of up to 513 bytes anywhere in a stream of any length is reported at its true position, for every rule that finds it within a window. |
| ScanReader.SpansAreSeen | urma-git/src/review.rs:95-142 | Every span of at most 513 bytes lies wholly inside one window, so every span of 512 does. |
| ScanReader.LongerSpansAreMissed | urma-git/src/review.rs:95-142 | A span of 514 bytes can fall between windows: the bound is exact. |
| ScanReader.FirstsAreDistinct | urma-git/src/review.rs:112-131 | Every match is reported and no (rule, position) twice. |
| ScanReader.ScanStream | urma-git/src/review.rs:95-142 | The report gains exactly the first occurrences of all matches in all windows, at stream positions, and the stream's length in bytes; the limit fails only when exceeded. |
| ScanReader.ReadChunk | urma-git/src/review.rs:83-93 | The buffer is filled with the next bytes of the stream, whatever short reads occur, unless the stream ends first. |
| ScanReader.ScanWindow | urma-git/src/review.rs:112-131 | One window adds exactly its matches not met before, each counted against the limit. |
| ScanReader.SlideBack | urma-git/src/review.rs:132-141 | The last bytes of the window, at most 512, move to the front of the buffer. |
| PrivateFiles.AnyArrangementOpens | urma-core/src/container.rs:330-337 | Every plaintext of 1 to MAX_PRIVATE bytes comes back from any arrangement of its sealed records that has every index, in any order and with any duplicates. |
| PrivateFiles.Seal | urma-core/src/container.rs:45-81 | Sealing succeeds exactly for admissible lengths and gives one record per chunk, in order. |
| PrivateFiles.Open | urma-core/src/container.rs:330-337 | Opening is inserting the records one by one and finishing, with the first error. |
| PrivateFiles.OpeningGathers | urma-core/src/container.rs:330-337 | Records can be inserted exactly when each is an authenticated chunk and the chunks can be gathered. |
| PrivateRecords.RecordRoundTrip | urma-core/src/container.rs:124-182 | Opening a sealed record gives back its metadata, index and bytes, and its header; SealedBytes says what the record holds. |
| PrivateCounters.CountersNeverRepeat | urma-core/src/container.rs:30-39 | Read as big-endian numbers, bytes 64 to 80 of any two sealed records of one object start ranges of 16-byte blocks that cover their bodies, are disjoint and do not wrap. |
| PrivateCounters.SealedBytes | urma-core/src/container.rs:65-74 | Every byte of a sealed body is the content under the block of keystream at the counter that the record carries, one further every sixteen bytes. |
| PrivateCounters.SealedCounter | urma-core/src/container.rs:35-39 | The counter that a sealed record carries is its index times 2^64. |
| PrivateCounters.OpenedCounter | urma-core/src/container.rs:150-156 | Every record that is opened carries the counter of its own index. |
| PrivateCounters.XorByteIs | urma-core/src/container.rs:73-74 | A masked byte differs from the content in exactly the bits that the keystream has set. |
| PrivateRecords.OpenedIsWellFormed | urma-core/src/container.rs:124-182 | An authenticated chunk has the size its place demands; no record fails for its chunk offset or with a fatal error. |
| PrivateRecords.MaskTwice | urma-core/src/container.rs:30-39 | Applying the keystream twice gives the bytes back. |
| PrivateRecords.InspectHeader | urma-core/src/container.rs:103-123 | An accepted header belongs to a record of the right length and has its index below its count. |
| PrivateObjects.FinishFailsOnlyFor | urma-core/src/container.rs:239-260 | Of authenticated chunks, finishing finds every chunk and the right length: it fails only for a conflict, an incomplete object or the digest. |
| PrivateObjects.CompleteHasAll | urma-core/src/container.rs:233-246 | As many chunks as the count are all the chunks. |
| PrivateObjects.JoinedLength | urma-core/src/container.rs:247-258 | The joined chunks of a sound object are as long as their number says, the whole as long as its total. |
| PrivateObjects.GatherIff | urma-core/src/container.rs:204-226 | Chunks can be inserted one after another exactly when all share their metadata and equal indices have equal record digests. |
| PrivateObjects.InsertedIsSound | urma-core/src/container.rs:204-226 | Insertion keeps every chunk at its index, well formed and of one object. |
| PrivateObjects.PrivateObject.Insert | urma-core/src/container.rs:204-226 | The object after an insertion, with the conflict flag, and whether it was accepted. |
| PrivateObjects.PrivateObject.Finish | urma-core/src/container.rs:239-260 | The bytes of all chunks in index order, or the first reason to refuse. |
| Records.ChunkCount | urma-core/src/format.rs:305-313 | A count exists exactly for 1 to MAX_PRIVATE bytes, is the number of chunks that cover the length, and never exceeds 32 bits. |
| Records.KindIsPrefix | urma-core/src/format.rs:72-102 | Bytes parse to a kind exactly when they start with its prefix. |
| Records.ContentType.Code | urma-core/src/format.rs:115-136 | Every content type comes back from its code. |
| Containers.PackRoundTrip | urma-core/src/container.rs:262-296 | Unpacking a packed container gives its records back. |
| Containers.Pack | urma-core/src/container.rs:262-281 | Packing succeeds exactly for a 32-bit number of private records of one object, and writes count, lengths and records. |
| Containers.Unpack | urma-core/src/container.rs:282-296 | The loops return the records of all entries, or the first error. |
| Containers.EntryRoundTrip | urma-core/src/container.rs:317-323 | An entry is accepted exactly when it is the length-prefixed form of its record. |
| Containers.PackedIsFramed | urma-core/src/container.rs:297-316 | A packed container is framed into the entries of its records. |
| Recovery.Recover | urma-core/src/container.rs:365-407 | The two loops compute the recovery of the framed records. |
| Recovery.RecoveryIsSummary | urma-core/src/container.rs:365-407 | Recovery is gathering all authenticated chunks, and fails exactly when there are none, they conflict, or the object does not finish. |
| Recovery.EntriesAddUp | urma-core/src/container.rs:373-391 | Every entry is skipped, rejected or authenticated. |
| Recovery.NothingIsFatal | urma-core/src/container.rs:352-364 | No record aborts a recovery. |
| RecoveryClasses.ClassByBytes | urma-core/src/container.rs:124-182 | By mark, kind, discovery tag, authenticator, counter and deciphered metadata: which records are skipped, which are taken and which are rejected, each exactly. |
| RecoveryClasses.RecoveryCounts | urma-core/src/container.rs:352-379 | The two counts of a recovery are the numbers of its unrelated and of its rejected records. |
| RecoveryClasses.ShapedIsOpened | urma-core/src/container.rs:142-167 | A private record of the right shape is unrelated exactly for another tag, and opened exactly if it is authentic and readable. |
| RecoveryOrder.RecoveryIgnoresOrder | urma-core/src/container.rs:365-407 | Recovery of the same multiset of records is the same recovery, success, bytes and counts, or two different records have one digest. |
| RecoveryOrder.ContainersIgnoreOrder | urma-core/src/container.rs:365-407 | Two containers with the same entries in any order are recovered alike, or show a digest collision. |
| RecoveryOrder.RecoveryAccounts | urma-core/src/container.rs:393-406 | Skipped, rejected and authenticated entries add up to all; the bytes have the stated length and digest, and every authenticated chunk the stated metadata. |
| RecoveryOrder.StrictIsCleanRecovery | urma-core/src/container.rs:282-337 | On every byte string, unpacking and opening gives some bytes exactly when recovery gives them with nothing skipped and nothing rejected. |
| RecoveryOrder.OpeningIsCleanRecovery | urma-core/src/container.rs:330-337 | On every list of records, opening succeeds exactly when recovery leaves nothing out, with the same bytes. |
| RecoveryOrder.ContainerRoundTrip | urma-core/src/container.rs:262-337 | Sealing, packing in any covering arrangement and reading back, strictly or tolerantly, gives the plaintext. |
| BlockProofs.BuiltProofVerifies | urma-chain/src/inclusion.rs:171-268 | For every intact block of at most a million transactions, the proof built for a noncoinbase position verifies at that position exactly when the coinbase carries a witness commitment. |
| BlockProofs.AcceptedIsIncluded | urma-chain/src/inclusion.rs:173-255 | An accepted proof with the block's own transaction count carries the transaction at its position, witness included, or exhibits two pairs with one hash, two commitments alike, or two coinbases with one id. |
| BlockProofs.AcceptedIff | urma-chain/src/inclusion.rs:173-255 | Exactly which proofs are accepted: well-formed consistent paths, kinds and places of both transactions, both under the header's root, both witness paths under one root, and the commitment to it. |
| BlockProofs.CommitmentIsTheLast | urma-chain/src/inclusion.rs:226-235 | The commitment is the 32 bytes after the six-byte mark of an output that carries one, with no later output that does; there is none exactly if no output carries one. |
| BlockProofs.ProveFromBlock | urma-chain/src/inclusion.rs:261-345 | Building both trees and reading four paths off their levels gives the specified proof or error. |
| BlockProofs.AcceptedShape | urma-chain/src/inclusion.rs:178-220 | Acceptance means consistent counts and positions, decoded transactions and two paths that reach the header's root. |
| BlockProofs.WitnessShape | urma-chain/src/inclusion.rs:221-248 | Acceptance means one reserved value, a commitment, and that it commits to the witness root. |
| MerkleInclusion.PathIsAccepted | urma-chain/src/inclusion.rs:132-168 | A path extracted from any tree of at most a million leaves has at most 20 levels, passes the check and evaluates to the root. |
| MerkleInclusion.ClimbsToRoot | urma-chain/src/inclusion.rs:151-168 | The siblings of any leaf lead from it to the root, odd widths included. |
| MerkleInclusion.OnlyTheLeafClimbs | urma-chain/src/inclusion.rs:151-168 | A path of the tree's shape that leads from a hash to the root leads from that leaf, or two different pairs have one hash. |
| MerkleInclusion.BuildLevels | urma-chain/src/inclusion.rs:355-367 | The loop builds every level from the one below, repeating an odd last hash. |
| MerkleInclusion.ExtractPath | urma-chain/src/inclusion.rs:330-345 | The path holds the sibling of the position at every level but the last. |
| MerkleInclusion.Check | urma-chain/src/inclusion.rs:132-149 | The loop accepts a path exactly when its counts are in bounds and it is as long as the tree is deep. |
| MerkleInclusion.EvaluatePath | urma-chain/src/inclusion.rs:151-168 | The loop climbs to the hash at the top, or refuses bad padding. |
| MerkleInclusion.DepthBound | urma-chain/src/inclusion.rs:139-144 | A tree of at most 2^k leaves has at most k levels above them. |
| Limbs.MulMod | urma-chain/src/pow.rs:208-217 | The product of the limbs is the product of the numbers modulo 2^256; no intermediate exceeds 128 bits and no width check fails. |
| Limbs.Div | urma-chain/src/pow.rs:219-228 | The quotient of the limbs is the floor of the quotient of the numbers; no width check fails. |
| Limbs.FromTarget | urma-chain/src/pow.rs:189-198 | The limbs stand for the number that the bytes stand for. |
| Limbs.ToTarget | urma-chain/src/pow.rs:200-206 | The bytes stand for the number that the limbs stand for. |
| Difficulty.Retarget | urma-chain/src/pow.rs:171-187 | The retarget never fails and is the smaller of the limit and (old times clamped time modulo 2^256) div timespan. |
| Difficulty.BitcoinNeverWraps | urma-chain/src/config.rs:58-104 | With the parameters of Bitcoin mainnet and testnet4 the product never wraps for a target within the limit. |
| Difficulty.LitecoinWraps | urma-chain/src/config.rs:3-56 | With the parameters of Litecoin the retarget equals the one on unbounded numbers if and only if the product is below 2^256. |
| Difficulty.LitecoinCanWrap | urma-chain/src/config.rs:3-56 | From the Litecoin limit, after a period four times too long, the wrap gives a target below the limit where unbounded numbers give the limit. |
| Difficulty.MovesByFour | urma-chain/src/pow.rs:177-186 | Without a wrap, a target within the limit moves to between a quarter, rounded down, and the smaller of four times itself and the limit. |
| Difficulty.LowerBoundNeedsFours | urma-chain/src/pow.rs:177-186 | That lower bound holds for all inputs if and only if the timespan is a multiple of four. |
| DifficultyRules.ExpectedIffMustCarry | urma-chain/src/pow.rs:103-169 | Over a chain from its first header, the bits given are exactly those that the header at the next height must carry: those before it between boundaries, the limit when late, those of the latest regular header with minimum difficulty, and at a boundary the compact retarget from the header it looks back to. |
| DifficultyRules.WindowsObey | urma-chain/src/pow.rs:103-149 | Bits that any window of a chain decides are those that the next header must carry. |
| DifficultyRules.WindowDecidesIff | urma-chain/src/pow.rs:122-149 | A window decides exactly when it reaches back to the header compared, or to a regular header. |
| DifficultyRules.OneValuePerPeriod | urma-chain/src/pow.rs:122-125 | On a chain that obeys the rules without minimum difficulty, every header of a period carries the bits of its first. |
| DifficultyRules.OneOtherValuePerPeriod | urma-chain/src/pow.rs:126-134 | With minimum difficulty, every header of a period carries the bits of its first or the limit. |
| DifficultyRules.ClampedIsNearest | urma-chain/src/pow.rs:177-179 | The clamped time is the nearest to the true one within a factor of four of the timespan; a time within those bounds is used as it is. |
| DifficultyRules.ChainsAreScheduled | urma-chain/src/config.rs:3-104 | The parameters of every chain fit the rules; Litecoin looks back to the header before a period, Bitcoin to its first, both to the genesis header at the first boundary. |
| Difficulty.WindowDoesNotMatter | urma-chain/src/pow.rs:103-149 | Bits decided on a window are those decided on every longer window of the chain ending at the same header. |
| Difficulty.LatestRegular | urma-chain/src/pow.rs:151-169 | The latest header on a retarget boundary or not at the limit; none exactly when the window holds none. |
| Difficulty.LastRegularBits | urma-chain/src/pow.rs:151-169 | The walk back returns the bits of the latest regular header and errs exactly when there is none. |
| Difficulty.NextBits | urma-chain/src/pow.rs:103-149 | The bits, or the first of the errors, that the rules give for the window. |
| Multipart.EncodeThenDecode | urma-core/src/multipart.rs:151-200 | Every encodable record is at most 262144 bytes and decodes to itself. |
| Multipart.DecodeThenEncode | urma-core/src/multipart.rs:187-273 | Every accepted byte string is the encoding of the record it decodes to. |
| Multipart.Encode | urma-core/src/multipart.rs:151-185 | Encoding succeeds exactly for records within bounds and writes prefix, fields and payload or references. |
| Multipart.EncodeReferences | urma-core/src/multipart.rs:202-207 | The loop appends transaction id and hash of every reference in order. |
| Multipart.NewGeometry | urma-core/src/multipart.rs:29-41 | A geometry exists exactly for lengths up to MAX_OBJECT; no width is exceeded. |
| Multipart.GeometryBounds | urma-core/src/multipart.rs:22-54 | At most 32630 parts, 64 leaves and 32695 nodes, and parts and leaves just cover what they divide. |
| Multipart.PartsPartition | urma-core/src/multipart.rs:56-62 | Each part starts where the one before it ends and the last ends with the object. |
| Multipart.LeavesPartition | urma-core/src/multipart.rs:64-70 | Each leaf starts where the one before it ends and the last ends with the parts. |
| MultipartReader.ReadRecord | scripts/read-multipart.py:167-182 | The script's decoder accepts exactly what the library accepts, with the same record. |
| MultipartReader.GeometriesAgree | scripts/read-multipart.py:163-164 | The script's geometry is the library's. |
| MultipartReader.Reader.Take | scripts/read-multipart.py:75-77 | A read returns the next bytes and moves past them, or fails and stays. |
| MultipartReader.Reader.Number | scripts/read-multipart.py:78 | A number is read little-endian from the next bytes. |
| MultipartGraph.Reconstruct | scripts/read-multipart.py:185-219 | The loops with their seen set return the payload of the graph behind a root, or nothing; the final length check never fails. |
| MultipartGraph.ReadLeaves | scripts/read-multipart.py:203-206 | The inventory is that of all leaves, if every leaf is in its place and all ids are distinct. |
| MultipartGraph.ReadParts | scripts/read-multipart.py:207-211 | The payload is that of all parts in order, if every part is in its place. |
| MultipartRoundTrip.PublishedIsRebuilt | scripts/read-multipart.py:185-219 | Every object up to MAX_OBJECT published as its records in distinct transactions is rebuilt from its root. |
| MultipartRoundTrip.RebuiltWasPublished | scripts/read-multipart.py:185-219 | Whatever is rebuilt was published: the source holds exactly the encoded records of that object, by one author, in distinct transactions. |
| Envelopes.EnvelopeIffCanonical | scripts/read-multipart.py:115-133 | The script's reader returns an author and a record exactly for their canonical script, records of up to 262144 bytes. |
| Envelopes.ExtractIffCanonical | urma-core/src/envelope.rs:118-172 | The library's reader returns an author and a record exactly for their canonical script, under the author's own control block. |
| Envelopes.ReadersAgree | urma-core/src/envelope.rs:118-172 | Whatever the library extracts, the script reads alike. |
| Envelopes.ScriptIsUnique | urma-core/src/envelope.rs:47-62 | A script determines its author and record, for records of any length. |
| Envelopes.ScriptSize | urma-core/src/envelope.rs:125-130 | Every script is at least 42 bytes and at most the record, three bytes a segment and 42, the bound both readers check. |
| Envelopes.RecordScript | urma-core/src/envelope.rs:47-62 | The loop over segments of 520 bytes writes the minimal push of each, small integers as opcodes. |
| Envelopes.PushesOfSegments | urma-core/src/envelope.rs:54-60 | The pushes of a record are the minimal pushes of its segments of 520 bytes and a rest, in order. |
| Envelopes.ReadEnvelope | scripts/read-multipart.py:115-133 | The cursor loop returns what the canonical check admits. |
| Envelopes.CollectLoop | urma-core/src/envelope.rs:138-161 | The loop over instructions collects the record, or refuses. |
| Envelopes.AcceptedIsCandidate | urma-core/src/envelope.rs:102-110 | Every witness that is extracted passes the fast filter. |
| Checksum.OnlyTheseSymbols | urma-identity/src/descriptor.rs:32-41 | After any descriptor, eight symbols bring the running value to one if and only if they are the symbols computed. |
| Checksum.PolymodLinear | urma-identity/src/descriptor.rs:44-53 | One step is linear over GF(2). |
| Checksum.RunSplits | urma-identity/src/descriptor.rs:44-53 | Symbols act on a running value as on zero, added to the value run over zeros. |
| Checksum.RunBelow | urma-identity/src/descriptor.rs:17-34 | The running value stays below 2^40 over every descriptor. |
| Checksum.PolymodLoop | urma-identity/src/descriptor.rs:44-53 | The loop over generators computes the step. |
| DescriptorStandard.StepIsNext | urma-identity/src/descriptor.rs:44-53 | One step of the running value is multiplication by x and reduction by the generator polynomial of BIP 380 over the field of 32 elements, symbol by symbol. |
| DescriptorStandard.RunIsRemainder | urma-identity/src/descriptor.rs:17-34 | The running value over any symbols is the remainder of the specification. |
| DescriptorStandard.FirstGenerator | urma-identity/src/descriptor.rs:5-11 | The first constant is the generator polynomial. |
| DescriptorStandard.GeneratorsDouble | urma-identity/src/descriptor.rs:5-11 | Each constant is the field element a times the one before, in every symbol. |
| DescriptorStandard.StepLoop | urma-identity/src/descriptor.rs:44-53 | The loop over constants computes the specification's step. |
| DescriptorStandard.ChecksummedIsValid | urma-identity/src/descriptor.rs:13-42 | A checksum is given exactly to the texts that the alphabet of BIP 380 reads, of any length, and the result passes the specification's check. |
| DescriptorStandard.OnlyTheChecksumIsValid | urma-identity/src/descriptor.rs:13-42 | Of all texts that continue a descriptor with the separator and eight characters, exactly the checksummed one passes the specification's check. |
| DescriptorStandard.PassesIffValid | urma-identity/src/descriptor.rs:13-42 | The check by the running value is the specification's check by remainders. |
| DescriptorStandard.FoundWhereItStands | urma-identity/src/descriptor.rs:17-19 | A character is found at its only place in the rows of the specification's alphabet. |
| DescriptorExample.PublishedExample | urma-identity/tests/conformance.rs:147-154 | The checksum of `raw(deadbeef)` is the published one, and it passes the specification's check. |
| Bip380.FieldRelation | urma-identity/src/descriptor.rs:5-11 | The symbols are multiplied in the field where a^5 is a^3 + 1. |
| Descriptors.WithChecksum | urma-identity/src/descriptor.rs:13-42 | The loops fail exactly for a character outside the alphabet and append the separator and the symbols of the final value, which OnlyTheChecksumIsValid pins. |
| Descriptors.OnlyTheChecksumPasses | urma-identity/src/descriptor.rs:32-42 | Eight characters bring the running value to one exactly when they are those appended. |
| Descriptors.RestIsRun | urma-identity/src/descriptor.rs:17-31 | Counting classes in threes as characters arrive runs over the symbols that BIP 380 expands a descriptor to. |

## Left out

- HTTP heads, sockets, page rendering, progress output, logging and command lines: input, output and presentation.
- Node, wallet, vault and publication workflows: calls into crates that are not part of this model.
- Git worker processes, packs, checkouts and file locks: they drive an external program and the file system.
- The insides of SHA-256, HMAC, HKDF, AES, scrypt, Schnorr and Taproot: arbitrary functions here; the cipher is exclusive or with a block of keystream for every counter.
- Compact targets and the decoding of Bitcoin and Litecoin transactions, including MWEB: library code, taken as functions; the two limits that the retarget theorems name are written out as numbers.
- Allocation failures and poisoned locks; a channel whose other side has gone away; a rendezvous channel of capacity zero.
- Wall-clock time: whether a failure is recent and whether a wait has run out are free choices of a step.
- The regular expressions of the scanner: a rule is any function from a window to match positions, and no equality with one search over the whole stream is claimed.
- Character references in attribute values: the source does not decode them either.
- `validate_record`, signatures and commitments of envelopes: keys and control blocks are judged by functions from outside; the library's instruction iterator is modelled as minimal pushes.
- Wire records, topics, profiles and avatars in `format.rs`: only easy members.
- PublicationCache.PutKeeps: does not model overflow of the byte count plus an entry's size, because sizes are unbounded numbers here.
- Recovery.Recover: keeps objects by value in the map where the source updates them in place; a refused insertion ends the recovery, so no update is seen later.
- MultipartGraph.Reconstruct: tells acceptance with the payload from refusal, not the four kinds of refusal apart, and writes no file.
- Envelopes.EnvelopeIffCanonical: the reader's errors are one refusal.
- HtmlTagStandard.TagIsStandard: compares names and values as bytes, and does not drop duplicate attributes, which the kept fields do.
