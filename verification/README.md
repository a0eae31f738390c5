# Inference core, verified

A Dafny model of the parts of the inference core that carry state, search or arithmetic, and proofs of
what they keep. Each module follows one source file or one component of it; a method that loops or
updates fields is a method here, proved against a specification function, and the lemmas say what that
function means. `dafny verify dfyconfig.toml` verifies everything.

- `ThinkTags`, `ChatDeepInfra` (over `Text`): the stream router that separates `<think>…</think>` reasoning
  from the answer, and the one-shot extractor. `After(s)` is what a router fed the text `s` has emitted and
  still holds; every way of cutting `s` into fragments leads there, streaming and one-shot extraction
  agree on every text, chunk by chunk, and the extracted parts determine and are determined by the text.
- `ResourceLifecycle` (over `Reachability`): closing an object graph with cycles and sharing. The traversal
  ends, visits exactly the reachable objects and makes on each exactly the calls it is due, whatever the calls
  raise, each object's close attempt before and its exits after all calls on what is first reached through it.
- `DebugRateLimiter`: one dictionary for all keys, swept on each call, is the same as one limiter per key;
  no closed interval of one window's length holds more than 19 allowed calls of a key, and 19 is reached.
- `MemoryNamespaces`, `MemoryRecall`, `MemoryStore`, `MemoryListing`, `MemoryBuckets`: the long-term memory
  service. Namespace isolation, the merge of per-category top-k searches, exact counting, purging under
  failing deletes, filtered and paged listing in the order of time (over `Timestamps`), and the temporal buckets
  of a session start.
- `ContentCipher`: key rings, fallback between purposes, a key cache that may be stale, the token format and
  fields that may hold plaintext or tokens; every written value that is not itself a token reads back at every
  point of every history.
- `Pricing`, `UsageCallbacks`: the cost of a request, what rounding does to sums, and turning cumulative
  per-model usage into increments, with the exact condition under which every response's tokens are counted once.
- `SnapshotMatcher`: cosine similarity over vectors of any length and the choice of the best recorded run.
- `SubagentCompiler` (over `Reachability`): compiling subagents over a reference graph with cycles.
- `BatchCounts`: job counters and the completion mark, kept by increments, against the table of items. The mark
  is set and never taken back, so for a job whose items were created at once it says, over any run of updates,
  that all items were done at some point; when it also says what the items are now is given exactly.
- `StableSort`, `Text`, `Basics`, `Wrappers`: Python's stable sort and string operations, small facts about
  numbers and sets, optional values and results.

Where the code and its documentation differ, the model follows the code:

- `think_tags.py` says that at most `len("</think>")` characters are held back. Leading whitespace is held
  back as well while detecting, without bound; `ThinkTags.HoldbackBound` gives the exact condition and
  `ThinkTags.HoldbackBoundExceeded` an input.
- `MemoryNamespaceBuilder` calls a dedicated scope fully isolated. Searches go by namespace prefix, so a
  reader without an agent name sees every agent's entries; `MemoryNamespaces.VisibleIff` is the exact rule.
- `count_user_memories` has a `total` that leaves out entries under a namespace that is no category, such as
  the old `(user_id, "memories")` layout; `MemoryStore.TotalIsEverythingIff` says when nothing is left out.
- A memory dated after today is put in the last bucket, so reading the buckets in order is not newest-first;
  `MemoryBuckets.ReadingIsNewestFirstIff` says exactly when it is.
- `callbacks.py` says at line 120 that the fallback to the response's usage block does not count twice what
  `usage_metadata` covers. The block is added whatever was counted before. `UsageCallbacks.CountedOnceIff` says
  exactly when each response is counted once; a block that is its response's only report is.

The last four come with an input at which they show: `MemoryNamespaces.DedicatedMemoryIsSeenWithoutAgent`,
`MemoryStore.LegacyEntryIsNotCounted`, `MemoryBuckets.TomorrowIsReadLast`, `UsageCallbacks.UsageBlockIsCountedAgain`.

## Model

| member | source | states |
|---|---|---|
| `Text.LStripAppend` | inference_core/llm/think_tags.py:87-122 | Stripping leading whitespace commutes with appending as soon as something else has been seen: why stripping fragment by fragment is stripping the whole answer. |
| `Text.FindIsFirst` | inference_core/llm/think_tags.py:103 | The index found is the first occurrence, and -1 means there is none. |
| `Text.FindIndex` | inference_core/llm/think_tags.py:103 | The search loop computes that first occurrence. |
| `Text.SpacesListed` | inference_core/llm/think_tags.py:87 | The whitespace characters, one by one. |
| `ThinkTags.PartialSuffixLen` | inference_core/llm/think_tags.py:45-51 | The length of the longest suffix of the text that is a proper prefix of the tag; 0 for an empty tag. |
| `ThinkTags.OccurrenceStartsInHoldback` | inference_core/llm/think_tags.py:100-114 | A tag completed by a new fragment starts inside the held-back suffix, never in emitted text. |
| `ThinkTags.TagAcrossFragments` | inference_core/llm/think_tags.py:100-109 | Searching only the held-back suffix plus the new fragment finds the first occurrence in all text so far. |
| `ThinkTags.HoldbackAcrossFragments` | inference_core/llm/think_tags.py:110-113 | With no complete tag, the next holdback computed from suffix plus fragment is the one of all text so far. |
| `ThinkTags.ReasoningStep` | inference_core/llm/think_tags.py:100-114 | One step while reasoning extends the outcome for the shorter text to the outcome for the longer one. |
| `ThinkTags.AnswerStep` | inference_core/llm/think_tags.py:116-122 | After the close tag, a fragment adds itself, or its stripped form while only whitespace has followed the tag. |
| `ThinkTags.FeedReasoningStep` | inference_core/llm/think_tags.py:62-70 | The same for every text that leaves the router reasoning. |
| `ThinkTags.FeedContentStep` | inference_core/llm/think_tags.py:62-70 | The same for every text that leaves the router in the answer. |
| `ThinkTags.EmissionGrows` | inference_core/llm/think_tags.py:62-70 | What has been emitted is never taken back: outputs for a prefix are prefixes of outputs for the longer text. |
| `ThinkTags.BufferInvariant` | inference_core/llm/think_tags.py:57-122 | In every reachable state the buffer is whitespace and a proper prefix of the open tag, a proper prefix of the close tag, or empty, by phase. |
| `ThinkTags.HoldbackBound` | inference_core/llm/think_tags.py:9-13 | The documented bound on held-back text holds if and only if the text is not a long undecided start of a stream. |
| `ThinkTags.HoldbackBoundExceeded` | inference_core/llm/think_tags.py:85-96 | Nine line breaks are all held back, more than the documented bound. |
| `ThinkTags.HoldbackIsNecessary` | inference_core/llm/think_tags.py:110-113 | If the rest of the close tag follows, nothing that was held back is reasoning, so none of it could have been emitted. |
| `ThinkTags.ThinkTagStreamRouter.constructor` | inference_core/llm/think_tags.py:57-60 | A new router is the router fed the empty text. |
| `ThinkTags.ThinkTagStreamRouter.Feed` | inference_core/llm/think_tags.py:62-70 | Chunk invariance: state and total output after a fragment depend only on the whole text fed, not on how it was cut. |
| `ThinkTags.ThinkTagStreamRouter.Flush` | inference_core/llm/think_tags.py:72-81 | Releases exactly what is held back, as answer while detecting and as reasoning while reasoning, and leaves nothing to release. |
| `ThinkTags.ThinkTagStreamRouter.FeedDetecting` | inference_core/llm/think_tags.py:85-98 | Decides on the buffered text as a whole: keeps waiting, starts reasoning, or releases all of it as answer. |
| `ThinkTags.ThinkTagStreamRouter.FeedReasoning` | inference_core/llm/think_tags.py:100-114 | Emits reasoning up to the first close tag, or all but the longest holdback. |
| `ThinkTags.ThinkTagStreamRouter.FeedContent` | inference_core/llm/think_tags.py:116-122 | Whitespace right after the close tag is dropped, across fragments, and nothing else. |
| `ChatDeepInfra.MatchThinkBlock` | inference_core/llm/chat_deepinfra.py:68 | What the regular expression reports: among all blocks that match, the one with the earliest close tag and all whitespace behind it; none only if no block matches. |
| `ChatDeepInfra.AIMessage.AppendReasoning` | inference_core/llm/chat_deepinfra.py:84-89 | Reasoning is appended to what the message has. |
| `ChatDeepInfra.AIMessage.ExtractInlineThink` | inference_core/llm/chat_deepinfra.py:211-225 | The message ends with the extracted answer as content and the extracted reasoning appended. |
| `ChatDeepInfra.RouterAgreesWithExtraction` | inference_core/llm/chat_deepinfra.py:211-225 | On every text the router, flushed, yields exactly what one-shot extraction yields. |
| `ChatDeepInfra.ExtractionLosesNothing` | inference_core/llm/chat_deepinfra.py:211-225 | Every text is its own content, or whitespace, open tag, reasoning, close tag, whitespace and content, or whitespace, open tag and unclosed reasoning. |
| `ChatDeepInfra.ExtractionRecoversParts` | inference_core/llm/chat_deepinfra.py:211-225 | The converse: a text put together in one of those three ways is taken apart into the same parts. |
| `ChatDeepInfra.ClosedBlockWrittenOut` | inference_core/llm/chat_deepinfra.py:211-225 | A text written out, with a block and whitespace around both tags, gives the text of the block and the text behind it. |
| `ChatDeepInfra.OpenBlockWrittenOut` | inference_core/llm/chat_deepinfra.py:221-223 | A text written out whose close tag is cut short is all reasoning. |
| `ChatDeepInfra.PlainTextWrittenOut` | inference_core/llm/chat_deepinfra.py:211-215 | A text written out with a block behind its start is all content. |
| `ChatDeepInfra.Stream` | inference_core/llm/chat_deepinfra.py:156-168 | For every list of chunks: after each chunk, what was shown is exactly what the router emits for the text up to it; at the end the contents concatenate to the one-shot content and the routed reasoning to the one-shot reasoning; one more chunk is added if and only if something is still held back. |
| `ChatDeepInfra.AlwaysInStepSnoc` | inference_core/llm/chat_deepinfra.py:137-164 | One more chunk, in step with the text so far, keeps every earlier chunk in step: nothing is shown late or early. |
| `ChatDeepInfra.StreamEnds` | inference_core/llm/chat_deepinfra.py:92-101 | What was shown and what is released at the end are the extracted parts, and nothing has to be added if nothing is released. |
| `ChatDeepInfra.ConvertChunks` | inference_core/llm/chat_deepinfra.py:156-164 | One chunk out for each chunk in, each keeping its server reasoning in front of the routed part, and each showing at once what can be shown. |
| `ChatDeepInfra.ConvertChunk` | inference_core/llm/chat_deepinfra.py:137-154 | A converted chunk keeps router and output in step. |
| `ChatDeepInfra.StreamWithoutServerReasoning` | inference_core/llm/chat_deepinfra.py:144-153 | Without a server reasoning field, the streamed reasoning is the routed reasoning and nothing else. |
| `Reachability.ClosedContainsReachable` | inference_core/core/resource_lifecycle.py:74-103 | A set of nodes closed under edges holds everything reachable from it. |
| `ResourceLifecycle.FirstCallable` | inference_core/core/resource_lifecycle.py:116-120 | The first method name in order that is callable on the object, if any is. |
| `ResourceLifecycle.VisitObject` | inference_core/core/resource_lifecycle.py:77-106 | Close attempt, then the complete visit of the children, then the exits make a complete visit of the object. |
| `ResourceLifecycle.NewlyReachable` | inference_core/core/resource_lifecycle.py:80-103 | Whatever is newly visited below an object is reachable from it. |
| `ResourceLifecycle.ResourceCloser.CloseResource` | inference_core/core/resource_lifecycle.py:65-106 | Ends on every finite graph; makes on each newly seen object exactly its due calls, leaves no child of one out, sees only reachable objects, and nests the calls of each newly seen client around those on the objects first reached through it. |
| `ResourceLifecycle.ResourceCloser.CloseClient` | inference_core/core/resource_lifecycle.py:93-106 | Close attempt first, every nested resource seen, exits last and only if no close method accepted the call. |
| `ResourceLifecycle.ResourceCloser.CloseAll` | inference_core/core/resource_lifecycle.py:79-103 | Every value of a container, or nested attribute, is seen afterwards, each object once. |
| `ResourceLifecycle.ResourceCloser.CallFirstCloseMethod` | inference_core/core/resource_lifecycle.py:116-141 | At most one close method is called, the first callable one; a type error counts as not accepted, any other exception as accepted. |
| `ResourceLifecycle.ResourceCloser.CallContextExit` | inference_core/core/resource_lifecycle.py:144-168 | The asynchronous exit is tried first, the synchronous one when that is missing or raises. |
| `ResourceLifecycle.CloseResourceFrom` | inference_core/core/resource_lifecycle.py:35-43 | For the whole run, on the fields of the objects: every element and mapping value of a seen container is seen, and every nested resource of any other seen object; an object is seen if and only if it is reachable from the root; the calls in the log are, for each seen client, its first callable close method, and its exits when that is missing or raised a type error, and no others; and every client's close attempt comes before, its exits after, all calls on what is reached through it without passing an object seen earlier, which has had its close attempt by then. |
| `ResourceLifecycle.OutcomeOnFields` | inference_core/core/resource_lifecycle.py:65-168 | Completeness of the visit and the calls of every object, on the fields: what an object refers to is seen, and what is called on it is read off its methods and their outcomes. |
| `ResourceLifecycle.EdgesAreReferences` | inference_core/core/resource_lifecycle.py:79-103 | The edges of the graph are the elements and mapping values of containers, and the thirteen nested attributes, by name, of all other objects. |
| `ResourceLifecycle.FirstCallableIsTried` | inference_core/core/resource_lifecycle.py:17 | The close method called is the one of the five names that is callable while none before it is. |
| `ResourceLifecycle.AcceptedIsClosed` | inference_core/core/resource_lifecycle.py:121-141 | An object counts as closed if and only if the method tried did not raise a type error. |
| `ResourceLifecycle.CallsStayInside` | inference_core/core/resource_lifecycle.py:93-106 | Between a client's close attempt and its exits are all the calls on the objects first reached through it: none comes before or after. |
| `ResourceLifecycle.CallsOnObject` | inference_core/core/resource_lifecycle.py:116-168 | What is due on an object, in order: first one close call on the first callable name and on no other; then the exits exactly when no close method accepts, the asynchronous one first, the synchronous one last and unless the asynchronous one returned; no call twice. |
| `DebugRateLimiter.BatchLogger.ShouldLogDebug` | inference_core/observability/logging.py:26-64 | After the sweep the answer and the key's new window are those of a single-key limiter, and every other live window is untouched; the second expiry check cannot succeed. |
| `DebugRateLimiter.TableHoldsLiveWindows` | inference_core/observability/logging.py:37-44 | After any run, the swept dictionary holds for each key the window its own limiter has, if still live, and nothing else. |
| `DebugRateLimiter.SweepIsTransparent` | inference_core/observability/logging.py:37-64 | On every interleaving of keys the shared, swept dictionary answers as one limiter per key without clean-up. |
| `DebugRateLimiter.Run` | inference_core/observability/logging.py:26-64 | The class, called in a loop, gives the answers of the independent limiters, call by call. |
| `DebugRateLimiter.IntervalBound` | inference_core/observability/logging.py:46-64 | The run invariant behind the bound: a window's count is 1 to 10, and the calls allowed in an interval are bounded by its current window and how it lies in the interval. |
| `DebugRateLimiter.AtMostNineteenPerInterval` | inference_core/observability/logging.py:23-24 | In any run with a non-decreasing clock, any closed interval of 60 seconds holds at most 19 allowed calls of a key. |
| `DebugRateLimiter.WindowCountsItsCalls` | inference_core/observability/logging.py:51-64 | A window's count is backed by that many allowed calls since it started. |
| `DebugRateLimiter.SuppressedOnlyAfterTen` | inference_core/observability/logging.py:58-60 | A call is suppressed only if its key was allowed at least ten times in the last 60 seconds. |
| `DebugRateLimiter.Burst` | inference_core/observability/logging.py:62-64 | Calls within a live window are all allowed until it is full. |
| `DebugRateLimiter.NineteenIsReached` | inference_core/observability/logging.py:46-64 | A run with 19 allowed calls in 60 seconds: the bound is tight. |
| `DebugRateLimiter.SweepIsVisibleWhenClockStepsBack` | inference_core/observability/logging.py:35-44 | With a clock that steps back, sweeping for another key changes an answer: why the clock assumption is needed. |
| `DebugRateLimiter.WindowUntilSwept` | inference_core/observability/logging.py:37-64 | Whatever the clock does, while only other keys are called a key's window leaves the dictionary if and only if one of those calls comes after its expiry. |
| `DebugRateLimiter.SweepIsVisibleIff` | inference_core/observability/logging.py:37-64 | With any clock, the next answer differs from the key's own limiter if and only if its window is exhausted and still live but was swept at a later time in between. |
| `MemoryNamespaces.SearchesAreDisjoint` | inference_core/services/agent_memory_service.py:151-185 | No namespace is found by searches for different users or different categories, whatever the agents and scopes. |
| `MemoryNamespaces.VisibleIff` | inference_core/services/agent_memory_service.py:117-185 | What one builder writes another finds if and only if the reader is not per-agent for that category, or both are and have the same agent. |
| `MemoryNamespaces.NamespacesWrittenOut` | inference_core/services/agent_memory_service.py:151-185 | The namespaces of the three categories written out: episodic and procedural ones are per agent unless shared, semantic ones only if dedicated, and none without an agent name. |
| `MemoryNamespaces.ScopesIsolate` | inference_core/services/agent_memory_service.py:117-185 | A namespace has the agent as its third part if and only if the builder isolates that category. |
| `MemoryNamespaces.TypesWrittenOut` | inference_core/services/agent_memory_service.py:82-104 | The category of every memory type: three types are episodic, three procedural, all others semantic, unknown ones included. |
| `MemoryNamespaces.DedicatedMemoryIsSeenWithoutAgent` | inference_core/services/agent_memory_service.py:128-185 | What a dedicated assistant stores is found by a dedicated reader without an agent name, and not the other way round. |
| `MemoryRecall.TopKCovers` | inference_core/services/agent_memory_service.py:573-578 | A namespace's top k leaves an entry out only behind k entries that are at least as good. |
| `MemoryRecall.CoversMerge` | inference_core/services/agent_memory_service.py:571-593 | Concatenating the results of disjoint namespaces keeps that. |
| `MemoryRecall.CoveredTopK` | inference_core/services/agent_memory_service.py:596-601 | Sorting such a concatenation by score and cutting it at k gives a top k of everything that matched. |
| `MemoryRecall.NamespacesAreDisjoint` | inference_core/services/agent_memory_service.py:554-565 | No entry is found in two of the searched namespaces. |
| `MemoryRecall.RetrievedCovers` | inference_core/services/agent_memory_service.py:571-593 | After any number of the searches, an entry that matches in a searched namespace is missing only behind k retrieved ones that are at least as good. |
| `MemoryRecall.SortedNewest` | inference_core/services/agent_memory_service.py:602-610 | Sorting what was retrieved by time and cutting it gives the newest of it, undated entries last. |
| `MemoryRecall.AllRetrieved` | inference_core/services/agent_memory_service.py:571-610 | If no more than k entries match, all of them are retrieved, so that the newest retrieved are the newest of all. |
| `MemoryRecall.RecallMemories` | inference_core/services/agent_memory_service.py:524-610 | The result has min(k, matching) distinct entries, where what matches is the user's, of the given category and type, or of any category if neither is given; scores only if asked for. By score they are the best of all that match, with falling scores; by time the newest of what the searches retrieved, with falling dates and undated ones last; with neither the first retrieved. |
| `MemoryRecall.SearchedCategories` | inference_core/services/agent_memory_service.py:554-565 | A namespace is searched if and only if it lies under that of the given category, else under that of the given type's category, else under that of any category. |
| `MemoryRecall.WantedAreMatching` | inference_core/services/agent_memory_service.py:554-593 | What the searches match, on the fields of the entries: namespace, category and memory type. |
| `MemoryRecall.RecalledInOrder` | inference_core/services/agent_memory_service.py:596-610 | A recalled list is ordered by its dates if sorted by time and by its scores otherwise. |
| `MemoryStore.Store.Search` | inference_core/services/agent_memory_service.py:1109-1125 | What is assumed of the store's search: a slice of the listing of everything under the prefix. |
| `MemoryStore.Store.Delete` | inference_core/services/agent_memory_service.py:1171 | What is assumed of the store's delete: it removes the entry with that namespace and key, or raises and changes nothing. |
| `MemoryStore.CountCategory` | inference_core/services/agent_memory_service.py:1197-1205 | The paging loop ends with the number of entries under the prefix, also at multiples of the page size. |
| `MemoryStore.CountUserMemories` | inference_core/services/agent_memory_service.py:1189-1208 | Every category has its exact count, and the total is the number of the user's categorized entries. |
| `MemoryStore.CategoriesAddUp` | inference_core/services/agent_memory_service.py:1207 | No entry is counted in two categories: the counts add up to the categorized entries. |
| `MemoryStore.TotalIsEverythingIff` | inference_core/services/agent_memory_service.py:1189-1208 | The total never exceeds what lies under the user's prefix, and equals it if and only if every entry there is categorized. |
| `MemoryStore.LegacyEntryIsNotCounted` | inference_core/services/agent_memory_service.py:196-198 | A user whose one entry is in the old layout has total 0 and one entry listed. |
| `MemoryStore.PurgedCount` | inference_core/services/agent_memory_service.py:1159-1186 | When exactly a set of matching entries is gone, the drop in the listing is the size of that set. |
| `MemoryStore.PurgedElsewhere` | inference_core/services/agent_memory_service.py:1135-1137 | The listing under a prefix that shares no entry with the purged one is unchanged. |
| `MemoryStore.PurgeOneMore` | inference_core/services/agent_memory_service.py:1170-1173 | Deleting by an entry's own namespace and key removes that entry and no other. |
| `MemoryStore.PurgeItem` | inference_core/services/agent_memory_service.py:1165-1175 | An item is counted exactly when it has a key and its delete does not raise, and exactly then it is gone. |
| `MemoryStore.PurgeBatch` | inference_core/services/agent_memory_service.py:1160-1178 | A batch loses as many entries as are counted; no progress means that every delete it tried failed; if none fails all its keyed entries go. |
| `MemoryStore.PaceAfterRound` | inference_core/services/agent_memory_service.py:1160-1178 | If no delete raises, a round deletes a whole batch when all entries have keys, and what keyless entries leave of a batch otherwise; a round that deletes nothing is the last one needed. |
| `MemoryStore.PurgeRound` | inference_core/services/agent_memory_service.py:1160-1178 | One round keeps that pace, changes nothing but what it counts, and makes no progress only if nothing is listed or every delete it tried failed. |
| `MemoryStore.PurgeRounds` | inference_core/services/agent_memory_service.py:1160-1178 | The loop of rounds ends early only for one of these two reasons. |
| `MemoryStore.PurgeUserMemories` | inference_core/services/agent_memory_service.py:1128-1186 | For any pattern of failures: what is gone is the user's, and of the given category if one is given; everything else is still there, and the listings of the other categories are unchanged; the returned count is the drop in matching entries, at most 100000; entries remain only after at least 1000 deletions or a last round in which every delete it tried failed. If none raises: min(matching, 100000) entries go when all have keys, so that nothing of the user's is left in a store of that size, and with fewer than 100 keyless ones all keyed entries go, up to the round limit. |
| `MemoryStore.UnderUserPrefix` | inference_core/services/agent_memory_service.py:1151 | An entry is purged or listed exactly if its namespace starts with the user, followed by the category if one is given. |
| `MemoryStore.PurgedOnFields` | inference_core/services/agent_memory_service.py:1128-1186 | Entry by entry: what is gone belonged to the user and category and had a key, all else is still there, and the other categories list as before. |
| `MemoryStore.OtherCategory` | inference_core/services/agent_memory_service.py:1135-1151 | Purging one category leaves the listing of every other one unchanged. |
| `MemoryStore.AllPurged` | inference_core/services/agent_memory_service.py:1128-1186 | If no delete raises, all entries have keys and the store holds no more than 100000, nothing of the user's in that category is left. |
| `Text.LexLeqTotal` | inference_core/services/agent_memory_service.py:1305-1306 | String order compares any two texts. |
| `Text.LexLeqTransitive` | inference_core/services/agent_memory_service.py:1305-1306 | String order is transitive. |
| `MemoryListing.NewerFirstIsPreorder` | inference_core/services/agent_memory_service.py:1305-1306 | So latest text first is an order that a list can be sorted by. |
| `MemoryListing.SelectedIsSortedAndComplete` | inference_core/services/agent_memory_service.py:1290-1306 | The selection is sorted by the texts of the dates, latest first, and holds each entry under the prefix that passes both filters, as often as the store does, and no other. |
| `Timestamps.IsoFormatSorts` | inference_core/services/agent_memory_service.py:1305 | The `isoformat` texts of UTC instants, with or without microseconds, sort as the instants do. |
| `Timestamps.OtherOffsetsDoNotSort` | inference_core/services/agent_memory_service.py:1305 | Why UTC is needed: with different offsets the later text can belong to the earlier instant. |
| `MemoryListing.NewerFirstIsChronological` | inference_core/services/agent_memory_service.py:1305-1306 | For entries with UTC dates the sort order is the order of the instants, and an entry without a date comes strictly after them. |
| `MemoryListing.SelectedIsChronological` | inference_core/services/agent_memory_service.py:1290-1306 | So whatever stands before an entry with a UTC date in the selection has a date, and no earlier one. |
| `MemoryListing.LoadAll` | inference_core/services/agent_memory_service.py:1277-1288 | The paging loop reads exactly the listing, in order. |
| `MemoryListing.ListUserMemories` | inference_core/services/agent_memory_service.py:1252-1313 | The page is a slice, at the given offset and limit, of the user's entries of that category that pass the filters, each as often as it is stored, latest date text first; the total is their number. |
| `MemoryListing.SelectedOnFields` | inference_core/services/agent_memory_service.py:1273-1306 | The selection on the fields of the entries: owner, category, memory type, and the search text in content or topic. |
| `MemoryListing.PagesArePrefixes` | inference_core/services/agent_memory_service.py:1308-1313 | The pages at offsets 0, L, 2L, … read so far concatenate to a prefix of the selection. |
| `MemoryListing.PagesAreComplete` | inference_core/services/agent_memory_service.py:1308-1313 | For any L of at least 1 enough pages are the whole selection, without gaps or repeats, and the next page is empty. |
| `StableSort.SortSorts` | inference_core/services/agent_memory_service.py:597-600 | Sorting by any total preorder sorts. |
| `StableSort.SortIsStable` | inference_core/services/agent_memory_service.py:1306 | Elements that tie keep their order. |
| `StableSort.SortByGroups` | inference_core/services/agent_memory_service.py:939-947 | When one group stands before the rest, sorting group by group sorts the whole list. |
| `MemoryBuckets.KeptIffFirst` | inference_core/services/agent_memory_service.py:915-922 | A memory is kept if and only if it is the first with its content and the content is not empty. |
| `MemoryBuckets.KeptContentsAreDistinct` | inference_core/services/agent_memory_service.py:915-922 | No two kept memories have the same content. |
| `MemoryBuckets.BucketMemoriesByTime` | inference_core/services/agent_memory_service.py:878-949 | Each bucket holds exactly the kept memories whose distance from today lies in its range of days, newest first, and is the sorted list of them. |
| `MemoryBuckets.AgeOfBucket` | inference_core/services/agent_memory_service.py:898-937 | The bucket of a memory by its distance in days back from today: none, one, two to six, seven to ninety-six, and older, undated or future. |
| `MemoryBuckets.BucketsByAge` | inference_core/services/agent_memory_service.py:878-949 | So a bucket holds a memory if and only if it is the first with its content and its age is in the bucket's range. |
| `MemoryBuckets.KeptOnFields` | inference_core/services/agent_memory_service.py:915-922 | A memory is kept if and only if at some place it has a content, and none before it the same one. |
| `MemoryBuckets.BucketsPartition` | inference_core/services/agent_memory_service.py:907-937 | The buckets together hold each kept memory exactly once. |
| `MemoryBuckets.BucketMembers` | inference_core/services/agent_memory_service.py:927-937 | A memory is in a bucket if and only if it was kept and its date belongs there. |
| `MemoryBuckets.LaterBucketsAreOlder` | inference_core/services/agent_memory_service.py:898-905 | Of two memories not dated in the future, the one in the later bucket is strictly older; undated ones come last. |
| `MemoryBuckets.ReadingSortsAll` | inference_core/services/agent_memory_service.py:1013-1023 | With no memory from the future, reading the buckets in order is sorting all kept memories newest-first, ties in their original order. |
| `MemoryBuckets.ReadingIsNewestFirstIff` | inference_core/services/agent_memory_service.py:927-947 | Reading the buckets in order is newest-first if and only if no kept memory is dated after today, or all kept memories are in the last bucket. |
| `MemoryBuckets.TomorrowIsReadLast` | inference_core/services/agent_memory_service.py:927-947 | A memory from tomorrow is read after one from today. |
| `ContentCipher.PayloadRecovered` | inference_core/services/content_cipher.py:121-133 | Splitting a written token at its first four dots gives its five parts, the last the cipher's output whatever that contains; a written token is recognized as one. |
| `ContentCipher.PurposesWrittenOut` | inference_core/services/content_cipher.py:39-43 | The three purposes with their names in tokens and their fallbacks. |
| `ContentCipher.ResolveOnRings` | inference_core/services/content_cipher.py:61-84 | Which ring a purpose resolves to, on cache and environment: its own if cached or set, the content ring otherwise, and the cached one of the two readings. |
| `ContentCipher.InAllKeys` | inference_core/services/content_cipher.py:87-111 | A key is tried for decryption if and only if it is in the ring of the purpose or of one of its fallbacks. |
| `ContentCipher.OnlyTheRightKey` | inference_core/services/content_cipher.py:140-146 | Trying keys in order yields the text if the encrypting key is among them, and fails otherwise. |
| `ContentCipher.ReadsBackIffKeyHeld` | inference_core/services/content_cipher.py:128-195 | A stored token reads back if and only if its key is in some ring of the reading purpose's chain, whatever purpose the token names. |
| `ContentCipher.ContentCipher.ResetContentCipher` | inference_core/services/content_cipher.py:52-54 | The key cache is empty afterwards. |
| `ContentCipher.ContentCipher.ResolveKeys` | inference_core/services/content_cipher.py:61-84 | The keys of the first purpose in the chain that is cached or set, a cached ring going before a newer one; what was read is cached. |
| `ContentCipher.ContentCipher.ResolveAllKeys` | inference_core/services/content_cipher.py:87-111 | The rings of the whole chain, in order, each key once, without the cache. |
| `ContentCipher.ContentCipher.EncryptText` | inference_core/services/content_cipher.py:121-125 | A token under the first key of the resolved ring, or an error exactly if no ring is set or the resolved one has no key. |
| `ContentCipher.ContentCipher.DecryptText` | inference_core/services/content_cipher.py:128-146 | The text under the first key that fits, or an error exactly if none does. |
| `ContentCipher.ContentCipher.WriteField` | inference_core/services/content_cipher.py:176-182 | Nothing, empty text, tokens and switched-off writes are stored as they are; all else is encrypted or raises. |
| `ContentCipher.EnabledWritesAreEncrypted` | inference_core/services/content_cipher.py:176-182 | For every purpose: with writes enabled, text that is not empty and no token is stored as a token whose payload is its encryption under the first key of the purpose's own ring if it has one and of the content ring otherwise, or raises exactly if there is no such key; a reader gets the text back if and only if that key is in the ring of the reading purpose or in the content ring. |
| `ContentCipher.OtherWritesAreStoredAsTheyAre` | inference_core/services/content_cipher.py:176-182 | Nothing, empty text, tokens and switched-off writes are stored unchanged and read no key. |
| `ContentCipher.OnlyHoldersRead` | inference_core/services/content_cipher.py:128-195 | For every environment and purpose of the reader: a token gives its text back if and only if its key is in the reader's ring or in the content ring. |
| `ContentCipher.PlaintextReadsAsItIs` | inference_core/services/content_cipher.py:185-195 | A stored value with neither token prefix is read as it is, whatever keys there are. |
| `ContentCipher.ContentCipher.ReadField` | inference_core/services/content_cipher.py:185-195 | Values that are no tokens, and tokens that do not decrypt, are returned as stored. |
| `ContentCipher.EmptyRingBlocksFallback` | inference_core/services/content_cipher.py:61-84 | A ring variable that holds separators only stops the fallback, so that encryption fails where it worked without it. |
| `ContentCipher.StepKeepsInv` | inference_core/services/content_cipher.py:61-182 | Every step keeps the cache a subset of the environment's keys and every stored value recoverable, and takes no record away. |
| `ContentCipher.HistoryKeepsInv` | inference_core/services/content_cipher.py:61-182 | So does every history of any length. |
| `ContentCipher.WrittenValuesReadBack` | inference_core/services/content_cipher.py:61-195 | At every point of every history of writes, flag changes, rotations, newly set rings and cache resets, each written value that is not itself a token reads back equal. |
| `ContentCipher.TokenLikeValuesReadBackIff` | inference_core/services/content_cipher.py:180-195 | A value that looks like a token is stored as it is, and reads back if and only if its payload is no encryption of another text under a key in the reader's rings. |
| `ContentCipher.PastedTokenReadsBackIff` | inference_core/services/content_cipher.py:128-195 | A token written as a value reads back if and only if no ring of the reader's chain has its key (or it is its own plaintext). |
| `ContentCipher.PastedTokenIsDecrypted` | inference_core/services/content_cipher.py:180-195 | With one key configured, a pasted token under it is stored as it is and read as its plaintext. |
| `ContentCipher.DroppedKeyIsFatal` | inference_core/services/content_cipher.py:140-146 | Replacing a key instead of putting the new one in front makes a stored token unreadable. |
| `Pricing.AppliesIsUnique` | inference_core/llm/usage_logging.py:211-226 | With distinct caps the applying tier is the same whatever the listing order. |
| `Pricing.LargestTier` | inference_core/llm/usage_logging.py:222-224 | The tier with the largest cap. |
| `Pricing.GetContextMultiplier` | inference_core/llm/usage_logging.py:211-226 | The multiplier of the smallest tier that fits, of the largest if none does, and 1 without tiers. |
| `Pricing.SubsetDeductions` | inference_core/llm/usage_logging.py:131-140 | Per parent, the sum of the tokens of its extras that are not billed separately. |
| `Pricing.ExtraCosts` | inference_core/llm/usage_logging.py:158-170 | An extra has a recorded cost exactly if it was used, and the total is the sum over all extras. |
| `Pricing.HasUnpriced` | inference_core/llm/usage_logging.py:172-183 | The estimate mark: some used token count is neither a core count nor a priced extra. |
| `Pricing.ComputeCost` | inference_core/llm/usage_logging.py:93-200 | The cost before rounding is made of billable core tokens and extras under the applying tier, with the estimate mark, and the result rounds each amount on its own; the members below say what that is on usages written out. |
| `Pricing.CostOfOneThousand` | inference_core/llm/usage_logging.py:203-209 | A thousand tokens cost the rate times the context multiplier. |
| `Pricing.CostOfThousands` | inference_core/llm/usage_logging.py:203-209 | So do any number of thousands, that many times. |
| `Pricing.NothingForNothing` | inference_core/llm/usage_logging.py:203-209 | No tokens, or a negative number of them, cost nothing. |
| `Pricing.ParentWrittenOut` | inference_core/llm/usage_logging.py:77-91 | A dimension counts among the input if its name contains one of four words, else among the output if it contains one of three, else among neither. |
| `Pricing.OneExtra` | inference_core/llm/usage_logging.py:128-170 | For every usage with input, output and one extra: an extra among the input lowers the billable input alone, one among the output the billable output alone, one billed separately neither; its own cost is recorded under its name. |
| `Pricing.ThousandInputTokens` | inference_core/llm/usage_logging.py:93-200 | A usage of a thousand input tokens under one tier costs the input rate times the tier's multiplier, and nothing else. |
| `Pricing.ThousandOutputTokens` | inference_core/llm/usage_logging.py:93-200 | A usage of a thousand output tokens without tiers costs the output rate. |
| `Pricing.TwoTiers` | inference_core/llm/usage_logging.py:211-226 | Of two tiers the lower applies up to its cap inclusive and the higher above it, in either listing order. |
| `Pricing.UnpricedWrittenOut` | inference_core/llm/usage_logging.py:172-183 | A used count whose name ends in `_tokens` and that has no price makes the cost an estimate; an unused one, another name, and the core counts do not. |
| `Pricing.EveryAmountIsNearest` | inference_core/llm/usage_logging.py:228-255 | Every stored amount, each recorded extra's included, is a whole number of units nearest to the exact one, ties away from zero; an amount that was not there stays away, and none is left out. |
| `Pricing.RoundingWrittenOut` | inference_core/llm/usage_logging.py:240-243 | Three roundings written out, two of them of exact halves. |
| `Pricing.ExtrasAgainstParents` | inference_core/llm/usage_logging.py:128-170 | For every configuration: extras plus what the subsets save cost what the deducted tokens would cost at core rates, plus what is billed on top. |
| `Pricing.CoreAndSubsets` | inference_core/llm/usage_logging.py:142-156 | Billable tokens plus deducted tokens cost what all tokens cost, plus any deduction beyond them. |
| `Pricing.TotalIdentity` | inference_core/llm/usage_logging.py:128-193 | Each token is priced once, for every configuration: the total is the cost at core rates, less the savings of the subsets, plus what is billed on top, plus the deductions beyond a parent's tokens. |
| `Pricing.NeverAboveCoreRates` | inference_core/llm/usage_logging.py:128-200 | With subsets within their parents and no dearer than them, the total never exceeds the cost at core rates and what is billed on top, before and after rounding. |
| `Pricing.HalfUpIsNearest` | inference_core/llm/usage_logging.py:240-243 | Half-up rounding is within half a unit, and takes an exact half upwards. |
| `Pricing.RoundingASum` | inference_core/llm/usage_logging.py:228-244 | The rounded sum of n amounts is within floor(n/2) units of the sum of the rounded amounts. |
| `Pricing.StoredTotalWithinOneUnit` | inference_core/llm/usage_logging.py:185-244 | The stored total is within one unit of the last decimal of stored input, output and extras together, for any rates the configuration admits. |
| `Pricing.StoredExtrasWithinHalfAUnitEach` | inference_core/llm/usage_logging.py:246-253 | The stored extras total is within floor(n/2) units of the sum of the n stored costs per dimension. |
| `Pricing.RoundingBoundIsReached` | inference_core/llm/usage_logging.py:240-244 | For every n there are amounts with exactly that difference. |
| `UsageCallbacks.UsageSession.Accumulate` | inference_core/llm/usage_logging.py:292-299 | Numbers are added, other values replace what was there, all other keys stay; it raises exactly if a number meets something that is none, and then each key is as before or updated. |
| `UsageCallbacks.LLMUsageCallbackHandler.OnLlmEnd` | inference_core/llm/callbacks.py:66-138 | For any totals, growing or not: each count of the session grows by the models' contributions and by the usage block of the response, and the remembered totals are those of the models that grew. With a session of numbers no error occurs; otherwise one stops the callback at a model or at the block, with the models before it fully counted. |
| `UsageCallbacks.LLMUsageCallbackHandler.OnModel` | inference_core/llm/callbacks.py:76-118 | A model whose totals grew adds its increments over its own last totals and its breakdowns, and only its own totals are replaced; any other adds nothing; after an error no totals are replaced. |
| `UsageCallbacks.LLMUsageCallbackHandler.Fragment` | inference_core/llm/callbacks.py:86-108 | Under each name the fragment carries the increment of that count plus all positive breakdowns of that name. |
| `UsageCallbacks.LLMUsageCallbackHandler.AddNumbers` | inference_core/llm/callbacks.py:110-136 | A fragment of numbers is added, with an error exactly if it meets a value that is none. |
| `UsageCallbacks.SyncedStep` | inference_core/llm/callbacks.py:76-118 | For each of the three core counts: after a model was handled, the handler is in step with the new totals for it and with the earlier ones for the models still to come. |
| `UsageCallbacks.GrowthUpto` | inference_core/llm/callbacks.py:76-118 | Within a callback, the models handled so far have added their growth since the last callback and their breakdowns, for each core count. |
| `UsageCallbacks.Telescopes` | inference_core/llm/callbacks.py:66-136 | For any run with non-decreasing totals, accumulated input, output and total count (this one where the models report it) are the sums over models of the latest totals, plus all breakdowns of that name and usage blocks. |
| `UsageCallbacks.Session` | inference_core/llm/callbacks.py:66-136 | A session in which callbacks come in any number has every count that the specification of the run gives. |
| `UsageCallbacks.NothingBesidesGrowthIff` | inference_core/llm/callbacks.py:95-136 | Nothing besides growth is added under a name if and only if no response has a usage block with it and no model that grew has a breakdown of that name. |
| `UsageCallbacks.CountedOnceIff` | inference_core/llm/callbacks.py:66-136 | For every run and core count: what accumulates is what the responses report, each by its metadata or else by its usage block, if and only if no block repeats a count that the metadata of its response covers and no breakdown bears its name. It is never less. |
| `UsageCallbacks.ReportedIsLatestAndBlocks` | inference_core/llm/callbacks.py:66-136 | With non-decreasing totals, what the responses report is the sums of the latest totals plus the usage blocks that are their responses' only reports. |
| `UsageCallbacks.UsageBlockIsCountedAgain` | inference_core/llm/callbacks.py:120-136 | One response with 7 input tokens in its metadata and its usage block: 7 are reported, 14 accumulated. |
| `UsageCallbacks.UsageBlockAloneIsCountedOnce` | inference_core/llm/callbacks.py:120-136 | One response with 7 input tokens in its usage block alone: they are counted, once. |
| `UsageCallbacks.BreakdownsAreSummed` | inference_core/llm/callbacks.py:95-108 | A breakdown count is the sum of what each callback reports, never an increment. |
| `UsageCallbacks.OneBreakdown` | inference_core/llm/callbacks.py:95-108 | A breakdown is counted under its name with `_tokens` behind it, if it is positive. |
| `UsageCallbacks.BreakdownsAddUp` | inference_core/llm/callbacks.py:95-108 | Breakdowns of input and output under one name add up. |
| `SnapshotMatcher.CauchySchwarz` | inference_core/services/agent_snapshot_service.py:416-424 | The squared dot product is at most the product of the squared norms, for vectors of any length. |
| `SnapshotMatcher.SimilarityIsSymmetric` | inference_core/services/agent_snapshot_service.py:416-424 | The similarity of two vectors does not depend on their order. |
| `SnapshotMatcher.SimilarityIsBounded` | inference_core/services/agent_snapshot_service.py:416-424 | The similarity of any two vectors lies between -1 and 1. |
| `SnapshotMatcher.SimilarityToItself` | inference_core/services/agent_snapshot_service.py:416-424 | It is 1 for a vector and itself, 0 for a zero vector. |
| `SnapshotMatcher.SimilarityToOpposite` | inference_core/services/agent_snapshot_service.py:416-424 | It is -1 for a vector and its opposite, 0 for a zero vector. |
| `SnapshotMatcher.SimilarityWrittenOut` | inference_core/services/agent_snapshot_service.py:416-424 | It is 0.96 for (3, 4) and (4, 3). |
| `SnapshotMatcher.SemanticSimilarityScores` | inference_core/services/agent_snapshot_service.py:342-379 | The similarity of each candidate in order, or no scores at all if the embeddings fail or are too few or too many. |
| `SnapshotMatcher.ScoresWrittenOut` | inference_core/services/agent_snapshot_service.py:342-379 | The score of each candidate is the similarity of the query's vector, the first embedded, and its own; without a query, candidates or usable embeddings there are none. |
| `SnapshotMatcher.SearchableInOrder` | inference_core/services/agent_snapshot_service.py:321-340 | The candidates searched semantically are in the order of the candidates. |
| `SnapshotMatcher.SearchableWrittenOut` | inference_core/services/agent_snapshot_service.py:321-340 | A candidate is among them if and only if it has a query text. |
| `SnapshotMatcher.ScoresAreBounded` | inference_core/services/agent_snapshot_service.py:342-379 | There is one score for each candidate or none, and each lies between -1 and 1, whatever the embedding service returns. |
| `SnapshotMatcher.NewestExactMatch` | inference_core/services/agent_snapshot_service.py:306-312 | A match with score 1 on the first candidate with the fingerprint, exactly if there is one. |
| `SnapshotMatcher.BestScored` | inference_core/services/agent_snapshot_service.py:329-340 | The first maximum among the scores that reach the minimum; none only if no score does. |
| `SnapshotMatcher.FindBestMatch` | inference_core/services/agent_snapshot_service.py:275-340 | The newest exact match if there is one; otherwise the best semantic match unless only exact ones are asked for; no score above that of an exact match. |
| `SubagentCompiler.BuildServerSubagents` | inference_core/agents/graph_builder.py:584-698 | The loop with its copied set of visited names ends on every reference graph, and compiles the specified forest. |
| `SubagentCompiler.CompiledNames` | inference_core/agents/graph_builder.py:614-670 | No visited name is compiled again, only available ones are, and a name reappears neither under itself nor under a later sibling. |
| `SubagentCompiler.NoNameUnderItself` | inference_core/agents/graph_builder.py:617-623 | The same for the whole tree below the root. |
| `SubagentCompiler.BranchesHaveDistinctNames` | inference_core/agents/graph_builder.py:617-623 | The names on every path down the tree are distinct. |
| `SubagentCompiler.CompiledIsComplete` | inference_core/agents/graph_builder.py:617-670 | Whatever a compiled agent refers to and is available is compiled somewhere or was visited before. |
| `SubagentCompiler.CompiledIsReachable` | inference_core/agents/graph_builder.py:617-670 | Only what the declared names lead to is compiled. |
| `SubagentCompiler.CompilesExactlyTheReachable` | inference_core/agents/graph_builder.py:584-698 | A name is compiled if and only if it is reachable from the declared ones through available agents, cycles included. |
| `SubagentCompiler.DeclaredLevel` | inference_core/agents/graph_builder.py:617-698 | At every level, with every name referenced once, each available name is compiled in order with its own declared subagents. |
| `SubagentCompiler.CompilesWhatIsDeclared` | inference_core/agents/graph_builder.py:584-698 | When every name is referenced once, the compiled tree is the declared tree. |
| `SubagentCompiler.DeclaredIsCompiled` | inference_core/agents/graph_builder.py:584-698 | A forest that the names declare, that repeats no name under itself or under later siblings and has no visited name, is the compiled one. |
| `SubagentCompiler.CompilesWhatIsDeclaredIff` | inference_core/agents/graph_builder.py:584-698 | For every reference graph: the compiled tree is the declared one if and only if the declared one can be written down in full without a name under itself, among its later siblings or under them. Sharing a subagent is no obstacle. |
| `SubagentCompiler.EarlierSiblingIsSkipped` | inference_core/agents/graph_builder.py:617-623 | An agent that declares an earlier sibling is compiled without it. |
| `BatchCounts.CountersReachRequestsIffAllDone` | inference_core/services/batch_service.py:461-462 | Counters that agree with the items of a job created at once never exceed the request count, and reach it if and only if all items are done. |
| `BatchCounts.CompletionTestIsRightIff` | inference_core/services/batch_service.py:461-462 | The completion test is right for every set of done items if and only if the request count is the number of items. |
| `BatchCounts.CountAfterChange` | inference_core/services/batch_service.py:440-454 | The number of items with a status changes by the delta of the one change. |
| `BatchCounts.AgreesAfter` | inference_core/services/batch_service.py:429-459 | After any status change of any item, every job's counters equal the numbers of its completed and failed items. |
| `BatchCounts.AgreesAfterRun` | inference_core/services/batch_service.py:258-280 | So after any run of updates. |
| `BatchCounts.CompletedExactlyWhenAllDone` | inference_core/services/batch_service.py:456-470 | A job is marked completed exactly at a count-changing update that leaves all its items completed or failed. |
| `BatchCounts.MarkAfterRun` | inference_core/services/batch_service.py:429-470 | After any run, a job is marked if and only if it was before or some update changed its counts and left as many of its items done as it has requests; its completion time is that of the last such update. |
| `BatchCounts.CompletesAtWhenSized` | inference_core/services/batch_service.py:461-470 | For a job created at once these are the count-changing updates that leave all its items done. |
| `BatchCounts.CompletionIsNotRevoked` | inference_core/services/batch_service.py:429-470 | No run of updates takes the completion mark back. |
| `BatchCounts.MarkedWhenDoneAfterRun` | inference_core/services/batch_service.py:461-470 | Every run keeps: a job with items that are all done is marked. |
| `BatchCounts.MarkedIffEverAllDone` | inference_core/services/batch_service.py:461-470 | From a state where mark and items agree, the job is marked after a run if and only if all its items were done at some point of the run. |
| `BatchCounts.MarkAgreesIffNotLeftOpen` | inference_core/services/batch_service.py:461-470 | After the run mark and items agree if and only if no update reopened the job for good: took an item out of the done ones while all were done, without all being done again later. |
| `BatchCounts.QueuedAgainStaysMarked` | inference_core/services/batch_service.py:461-470 | A completed job whose only item is queued again: success count 0, not all done, still marked. |
| `BatchCounts.SizedAfterCreation` | inference_core/services/batch_service.py:197-198 | The request count that a creation sets is the number of the job's items if and only if the job had none before. |
| `BatchCounts.SecondCreationMarksEarly` | inference_core/services/batch_service.py:197-198 | After a second creation of one item, the first item done marks the job of two as completed. |
| `BatchCounts.BatchService.CreateBatchJob` | inference_core/services/batch_service.py:45-85 | A new job has the given request count and zero counters, and all jobs agree with their items. |
| `BatchCounts.BatchService.CreateBatchItems` | inference_core/services/batch_service.py:173-207 | The items are added as queued items of that job, no other item changes, and the request count is their number, which is the number of all the job's items if and only if it had none; an unknown job raises and changes nothing; all jobs agree with their items. |
| `BatchCounts.BatchService.UpdateBatchItem` | inference_core/services/batch_service.py:223-256 | The item has its new status and no other item changes; its job has the counts and the mark after that change and no other job changes; without a status, or for an unknown item, nothing changes; all jobs agree with their items, and jobs whose items are all done are marked. |
| `BatchCounts.BatchService.UpdateJobCountsFromItemStatusChange` | inference_core/services/batch_service.py:429-470 | Only the one job changes, to its state after the one transition. |
| `BatchCounts.BatchService.UpdateBatchItemsStatus` | inference_core/services/batch_service.py:258-280 | After the run each item has the last status it was given, each job is what the updates make of it, and it is marked if and only if it was before or some update completed it, at the time of the last such update. |
| `BatchCounts.LastStatusIs` | inference_core/services/batch_service.py:258-280 | An item's status after a run is that of the last update that names it. |
| `BatchCounts.NoStatusGiven` | inference_core/services/batch_service.py:258-280 | An item that no update names keeps its status. |
| `BatchCounts.KnownUpdatesAddUp` | inference_core/services/batch_service.py:258-280 | The number of updates returned counts each update of a known item once, wherever it stands. |

## Left out

- Feeding a router after it has been flushed; `extract_think_tags` switched off; message content that is not a
  string; exceptions out of the provider's stream; the asynchronous twin of the stream.
- ChatDeepInfra.Stream: each stream has a router of its own. The source passes it through a context variable, which
  two synchronous streams advanced in turn in one thread would share.
- Characters outside Unicode's scalar values (lone surrogates).
- Objects whose attributes or elements change while they are closed, iterables that make new objects, errors from
  enumerating elements or attributes, exceptions that are not `Exception`, and identifiers reused by the runtime:
  the object graph is fixed. Awaiting, labels and the thread of the synchronous wrapper are not modelled either.
- The other methods of the batch logger; time is a real parameter of each call.
- MemoryRecall.RecallMemories: the vector search is given by its contract: the top k of what matches, best first. An
  empty memory type or category stands for none.
- The alternate signature of the store's search, entries without a namespace of their own, deleting a single
  memory, and saving. In a purge, a delete either removes its entry or raises, and a key occurs once in a
  namespace.
- In listing, the search text is taken stripped and in lower case, contents are taken decrypted, and limits and
  offsets are not negative.
- Timestamps in the buckets are integers in microseconds; time zones and unparsable timestamps are not modelled.
- ContentCipher.WrittenValuesReadBack: Fernet is an ideal cipher, and the shortened hash of a key has no dot; for
  values that look like tokens also that nothing decrypts but what was encrypted. Malformed
  keys are not modelled.
- The JSON variants of the field helpers and the guard against overwriting undecryptable values.
- Prices, costs and similarities are real numbers, not floating point; the usage normalizer, stored usage rows and
  pricing snapshots are not modelled.
- Token counts are integers, and breakdowns and usage blocks are given by their numeric entries.
- The snapshot store's files, fingerprints and query texts; the embedding service is a parameter and the square
  root is given by its defining property.
- Tools, middleware, prompts and skills of a compiled subagent; only names and nesting are modelled.
- Updates that set a job's status or counts directly or an item's status to null, bulk updates without an item or a
  status, and the other fields of items and jobs.
- HTTP routes, task queues, databases, mail, settings, templates, metrics and the model providers.
