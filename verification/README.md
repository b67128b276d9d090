# Chat server and audio front end: a Dafny verification

A model of the parts of `demo/chat` and `demo/miranda` in which most can go wrong, and proofs
about them. Each module follows one component:

| module | component |
|---|---|
| `BpeMerge` | the merge table and the two merge loops of the BPE tokenizer (arrays, linked list and heap in place), against "merge the leftmost pair of lowest rank until none is left" |
| `Tokenizer` | a word's symbols, the bounded word cache, encoding, and the byte-level round trip |
| `Utf8`, `ByteLevel` | UTF-8 with replacement, at once or in pieces; the byte-level alphabet |
| `Decoders`, `StripText`, `Streams`, `Agreement`, `Chain`, `Lockstep`, `Pipeline` | the decoder steps as batch functions and as streams; the chain of streams in lock step against the batch decoder |
| `Batches` | what each decoder step makes of a token list, said without the functions that batch and stream share |
| `TrieRegex` | added tokens compiled to a nested regular expression, with greedy backtracking semantics |
| `FifoLock` | the FPGA queue: a step system over all interleavings, and the class whose methods are those steps |
| `Residency` | which models are loaded: load, evict, retry, drop, startup |
| `Serving` | requests, loads, evictions and lends together, over all runs |
| `KvCache` | generation over a KV cache that is reused between prompts, text and images |
| `TopP`, `SplitMix`, `Dry` | sampling: top-k, top-p with its threshold, the draw and its random numbers; the DRY penalty |
| `StopStream` | stop strings in a text that comes in pieces |
| `PhraseDecode` | forced decoding of a phrase, with its fallback |
| `Multipart` | the multipart/form-data parser and what a client prints (section 5.1.1 of RFC 2046) |
| `Rtp` | RTP packets and the receiver that re-orders them (section 5.1 of RFC 3550) |
| `Segmenter` | speech segments from voice activity verdicts |
| `Resample` | the polyphase resampler: lengths, positions, and which sample each tap weighs |
| `Wrappers` | the option type and bytes |

`dafny verify dfyconfig.toml` checks everything.

Conventions. Where the code changes state, a class or an array method does the same and is proved
against a function of the old state; what the component is for is then proved about that function,
or as an invariant over runs. The engines, the network, the voice activity detector, the header
parser, the regular expressions of the pre-tokenizer and of `Replace` are parameters of which only
the stated facts are used. Probabilities are reals. Clocks, cancelled clients, failing loads and
failing calls are free choices.

Results that are not what one would expect of the code, each with a concrete input and the exact
condition where there is one:

- The two merge branches can give different ids when a rule that uses a merged token ranks before
  the rule that makes it (`BpeMerge.UnlayeredRescan`, `BpeMerge.UnlayeredHeap`); with the rank
  order they agree on every word (`BpeMerge.MergedIsReference`).
- Streamed decoding can differ from batch decoding for two kinds of step after a fuse: a `Metaspace`
  replacement that is not one character, and a join with spaces. A chain without them streams what it
  decodes, for every list of tokens (`Chain.SimpleIsSound`, `Chain.RunDecodes`).
  `Agreement.AgreesExactly` gives the condition on a step in both directions, also where at most one
  chunk, or at least one, can reach it.
- `StopStream` is not always `apply_stop` of the whole text (`StopStream.NotTheWholeText`). It is, for
  every way of cutting every text into pieces, if and only if no stop has a proper beginning that
  holds a stop further on than at its start (`StopStream.WholeText`).

## Model

| member | source | states |
|---|---|---|
| `BpeMerge.RescanIsReference` | demo/chat/hf_tokenizer.py:853-875 | for every word, the loop for short words gives the ids of the reference, when every rule that uses a merged token ranks after the rule that makes it |
| `BpeMerge.UnlayeredRescan` | demo/chat/hf_tokenizer.py:856-875 | without that rank order: on `a b a b` with (ab, a) ranked before (a, b) the short loop ends with `ab ab` |
| `BpeMerge.UnlayeredReference` | demo/chat/hf_tokenizer.py:853-906 | on the same word the reference ends with `aba b` |
| `BpeMerge.UnlayeredHeap` | demo/chat/hf_tokenizer.py:876-906 | and so does the heap loop |
| `BpeMerge.PassIsReference` | demo/chat/hf_tokenizer.py:865-874 | replacing every occurrence of the best pair in one pass is a run of single best merges |
| `BpeMerge.RescanPass` | demo/chat/hf_tokenizer.py:865-874 | the inner loop replaces exactly the occurrences of the best pair, left to right, from the best position on |
| `BpeMerge.Rescan` | demo/chat/hf_tokenizer.py:856-875 | the loop for short words, ranks compared with 2^62, reaches the fixed point of such passes |
| `BpeMerge.PoppedIsBest` | demo/chat/hf_tokenizer.py:885-892 | a popped heap entry that is still current is the leftmost lowest-ranked pair of the word on the list |
| `BpeMerge.DropStale` | demo/chat/hf_tokenizer.py:886-892 | an expired entry may be dropped: no pair that merges now is missing from the heap |
| `BpeMerge.TurnIsReference` | demo/chat/hf_tokenizer.py:885-905 | a turn of the heap run takes the next step of the reference, or none |
| `BpeMerge.HeapIsReference` | demo/chat/hf_tokenizer.py:876-906 | for every word the heap run ends with the reference's ids, when a length of tokens adds up over the rules |
| `BpeMerge.TakeCurrent` | demo/chat/hf_tokenizer.py:893-905 | merging a current entry keeps the heap's entries right: every pair that merges now is in it, and its other entries are outgrown |
| `BpeMerge.MergeInPlace` | demo/chat/hf_tokenizer.py:893-905 | one merge in place: which cells of the four arrays change, and exactly the entries of the two new neighbours pushed |
| `BpeMerge.HeapStep` | demo/chat/hf_tokenizer.py:885-905 | one turn of the loop, in place, is a turn of the heap run on values, and lowers 3 * live symbols + heap size |
| `BpeMerge.HeapLoop` | demo/chat/hf_tokenizer.py:885-906 | the loop ends, with the word of the heap run on the list |
| `BpeMerge.HeapMerge` | demo/chat/hf_tokenizer.py:876-906 | the long-word branch returns the word of the heap run, for every table and every word |
| `BpeMerge.Merge` | demo/chat/hf_tokenizer.py:853-906 | the two branches by length, for every table with one rank per rule |
| `BpeMerge.MergedIsReference` | demo/chat/hf_tokenizer.py:853-906 | crossing 24 symbols never changes a result: with the rank order and such a length both branches return the reference |
| `BpeMerge.MergedKeepsText` | demo/chat/hf_tokenizer.py:853-906 | either branch keeps the concatenated token strings, with or without the rank order |
| `BpeMerge.BuildTable` | demo/chat/hf_tokenizer.py:795-808 | the table holds the pair of ids of every line and no other, with the last such line's index as its rank and the merged token's id; there is none exactly when some line names a token outside the vocabulary |
| `BpeMerge.TableIsTheList` | demo/chat/hf_tokenizer.py:797-807 | so for the first k lines, for every list |
| `BpeMerge.TableRules` | demo/chat/hf_tokenizer.py:797-807 | every rule of the table comes from the line of the list that is its rank |
| `BpeMerge.TableIsSound` | demo/chat/hf_tokenizer.py:797-808 | a table has one rank per rule; without a subword prefix a merged id names the concatenation of its pair |
| `BpeMerge.TableIsGraded` | demo/chat/hf_tokenizer.py:795-808 | such a length exists for every list of merges, with or without a subword prefix: that of a token without its prefix, when right halves carry the prefix and no token is empty without it |
| `Tokenizer.ReadSymbols` | demo/chat/hf_tokenizer.py:814-851 | the loop over a word's characters, with affixes, byte fallback and a pending unknown, gives the reading of the word that the next three rows describe |
| `Tokenizer.SymbolsAreWritten` | demo/chat/hf_tokenizer.py:814-851 | what stands for each character: its own symbol, its bytes, or the unknown token, written before the next symbol that is not fused with it; an error exactly when a character has none of these |
| `Tokenizer.SymbolsAreCounted` | demo/chat/hf_tokenizer.py:814-851 | unknown tokens that are not fused are neither lost nor added |
| `Tokenizer.AffixesSpell` | demo/chat/hf_tokenizer.py:824-829 | every character but the first carries the prefix; without it the symbols spell the word and its suffix |
| `Tokenizer.ShortCutIsRight` | demo/chat/hf_tokenizer.py:810-817 | the short cut for plain models changes no result, unless the unknown token is the empty string |
| `Tokenizer.PlainIsGeneral` | demo/chat/hf_tokenizer.py:816-817 | the short cut for plain models gives what the general loop gives |
| `Tokenizer.FallbackRoundTrip` | demo/chat/hf_tokenizer.py:837-841 | byte fallback loses nothing: decoding the tokens of a word's symbols gives the word back, whatever the vocabulary covers |
| `Tokenizer.Bpe.Tokenize` | demo/chat/hf_tokenizer.py:908-921 | the result does not depend on the cache; the cache stays within its size, oldest word out first, and holds only right entries |
| `Tokenizer.Bpe.Remember` | demo/chat/hf_tokenizer.py:917-920 | which words the cache holds after one more |
| `Tokenizer.QueuedAreLatest` | demo/chat/hf_tokenizer.py:917-920 | these are the words added last, as many as the cache may hold |
| `Tokenizer.WordIsKept` | demo/chat/hf_tokenizer.py:908-921 | the tokens of a byte-level word spell the word, on either merge branch and with ignore_merges |
| `Tokenizer.EncodeText` | demo/chat/hf_tokenizer.py:1473-1485 | encoding a text piece by piece through the cache is the concatenation of its words' tokens |
| `Tokenizer.RoundTrip` | demo/chat/hf_tokenizer.py:1487-1563 | decode(encode(t)) == t for every text, both modes, any pre-tokenizer that cuts the text into pieces |
| `Utf8.ReadThenDecode` | demo/chat/hf_tokenizer.py:1199-1204 | decoding in pieces: what a piece shows and what it keeps make up the text with any continuation |
| `Utf8.UnitIsStable` | demo/chat/hf_tokenizer.py:1199-1204 | a character or an ill-formed stretch once complete is not changed by later bytes |
| `Utf8.DecodeEncoded` | demo/chat/hf_tokenizer.py:738-745 | UTF-8 (section 3 of RFC 3629): decoding undoes encoding, for every text |
| `Utf8.EncodeDecoded` | demo/chat/hf_tokenizer.py:1055-1060 | bytes that decode strictly are the encoding of what they decode to |
| `Utf8.ShortIsBeginning` | demo/chat/hf_tokenizer.py:1199-1204 | what the incremental decoder keeps is a proper beginning of some character, so at most three bytes |
| `Utf8.BadIsMaximal` | demo/chat/hf_tokenizer.py:1196-1204 | a U+FFFD stands for a maximal stretch: with the next byte it begins no character |
| `Utf8.DecodeReads` | demo/chat/hf_tokenizer.py:1196-1204 | decoding with replacement takes the bytes as characters and ill-formed stretches one after the other, each of the latter as one U+FFFD |
| `ByteLevel.BytesToUnicode` | demo/chat/hf_tokenizer.py:88-99 | the alphabet's table, built by its two loops, gives every byte its character |
| `ByteLevel.AlphabetIs` | demo/chat/hf_tokenizer.py:88-99 | which character that is, for each of the 256 bytes |
| `ByteLevel.CharsDiffer` | demo/chat/hf_tokenizer.py:88-104 | no two bytes share a character |
| `ByteLevel.UnspellSpelled` | demo/chat/hf_tokenizer.py:983-987 | bytes spelled in the alphabet are read back from the token |
| `ByteLevel.TokensUnspell` | demo/chat/hf_tokenizer.py:983-987 | tokens that together spell alphabet characters give their bytes one after the other |
| `ByteLevel.TokenBytesAre` | demo/chat/hf_tokenizer.py:983-987 | a token of the alphabet stands for exactly the bytes it spells, any other token for its UTF-8 |
| `Decoders.ReplacedConcat` | demo/chat/hf_tokenizer.py:1043-1046 | a one-character literal is replaced chunk by chunk with the same result |
| `Streams.FallbackStreams` | demo/chat/hf_tokenizer.py:1062-1096 | ByteFallback's stream gives the batch's list, runs of byte tokens held until they end |
| `Streams.SuffixStreams` | demo/chat/hf_tokenizer.py:1214-1228 | BPEDecoder's stream, one token behind, gives the batch's list |
| `Streams.BytesStream` | demo/chat/hf_tokenizer.py:1196-1204 | ByteLevel's stream concatenates to the decoding of all bytes at once |
| `Streams.SpacedStreams` | demo/chat/hf_tokenizer.py:1238-1248 | the join's stream concatenates to the joined tokens, in both modes |
| `Streams.StripChunks` | demo/chat/hf_tokenizer.py:1127-1157 | Strip after a fuse, with its counters and held tail, strips what stripping the whole text strips |
| `StripText.CutLater` | demo/chat/hf_tokenizer.py:1146-1156 | the held tail suffices: what went out cannot become part of the stripped end |
| `StripText.CutMore` | demo/chat/hf_tokenizer.py:1136-1156 | what a chunk gives and what the chunks after it give is what the text gives, for every cut |
| `Streams.MetaspaceChunks` | demo/chat/hf_tokenizer.py:1171-1185 | a one-character Metaspace replacement works chunk by chunk after a fuse |
| `Streams.BufferChunks` | demo/chat/hf_tokenizer.py:1011-1015 | a buffered step shows its function of the whole text at the flush, or nothing when no chunk came |
| `Agreement.UnfusedAgrees` | demo/chat/hf_tokenizer.py:1018-1251 | before a fuse a step streams the batch's list; a step that fuses streams its one string in chunks |
| `Agreement.FusedAgrees` | demo/chat/hf_tokenizer.py:1018-1251 | after a fuse the streamed chunks concatenate to the batch's one string |
| `Agreement.AgreesExactly` | demo/chat/hf_tokenizer.py:1018-1251 | a step after a fuse agrees with its batch, on all chunks that can reach it and both modes, if and only if it is of the kinds named; for any number of chunks, for at most one and for at least one |
| `Agreement.MetaspaceDisagrees` | demo/chat/hf_tokenizer.py:1171-1185 | a replacement that is not one character, cut by a chunk boundary, streams another text |
| `Agreement.SpacedDisagrees` | demo/chat/hf_tokenizer.py:1238-1248 | the join after a fuse puts spaces between chunks |
| `Agreement.NothingDisagrees` | demo/chat/hf_tokenizer.py:1238-1248 | when no chunk comes, the join after a fuse decodes to a space and streams none |
| `Chain.FusedRun` | demo/chat/hf_tokenizer.py:1551-1616 | after a fuse, the rest of the chain: streamed chunks against the one string |
| `Chain.RunDecodes` | demo/chat/hf_tokenizer.py:1551-1616 | for every chain, token list and mode: the chain of streams, flushed, concatenates to the batch decoder's text; after a fuse each step must agree on the chunks that can reach it |
| `Chain.SimpleIsSound` | demo/chat/hf_tokenizer.py:1018-1251 | every step does, whatever the tokens, in a chain that has after a fuse only one-character Metaspace replacements and no join |
| `Chain.Marked` | demo/chat/hf_tokenizer.py:1398-1405 | each step is told whether a step before it fuses |
| `Lockstep.FeedThenRun` | demo/chat/hf_tokenizer.py:1586-1616 | feeding the chain in lock step and flushing later gives what feeding it everything and flushing step by step gives |
| `Pipeline.ByteLevelDecodes` | demo/chat/hf_tokenizer.py:1555-1558 | the short cut for a lone byte-level step is the general decoder |
| `Chain.DoneShowsNothing` | demo/chat/hf_tokenizer.py:1617-1622 | when nothing is pending the flush shows nothing |
| `Lockstep.PendingIs` | demo/chat/hf_tokenizer.py:1000-1011 | a stage holds text back exactly when its flush has something to show or to drop |
| `Pipeline.IncrementalDecoder.HoldsBack` | demo/chat/hf_tokenizer.py:1617-1622 | on the byte-level path and on the general one: some stage holds text back |
| `StripText.StripToken` | demo/chat/hf_tokenizer.py:1117-1125 | the two index loops of Strip cut exactly the counted characters |
| `StripText.CutChunk` | demo/chat/hf_tokenizer.py:1136-1152 | Strip's push after a fuse, loop by loop, against its function |
| `Lockstep.FallbackBatch` | demo/chat/hf_tokenizer.py:1062-1076 | ByteFallback's loop over a token list, against its function |
| `Pipeline.DecodeIds` | demo/chat/hf_tokenizer.py:1546-1563 | decode() over ids: the steps in turn over the tokens shown, or the byte-level short cut |
| `Pipeline.StringsAre` | demo/chat/hf_tokenizer.py:1546-1563 | the tokens decoded are those of the ids that have one and are not skipped, all of them and in their order |
| `Batches.BatchDoes` | demo/chat/hf_tokenizer.py:1018-1251 | what a step makes of every token list, in both modes: where each replacement goes, which token is the first or the last one, which tokens run into bytes, what is joined |
| `Batches.ReplacedIs` | demo/chat/hf_tokenizer.py:1043-1046 | a replacement keeps the gaps between the occurrences of the pattern, each the first one after the one before, and writes its text between them |
| `Batches.SubstitutesOnce` | demo/chat/hf_tokenizer.py:1043-1046 | and that says which text it is: a text is of that kind if and only if it is the result |
| `Batches.StrippedStrips` | demo/chat/hf_tokenizer.py:1117-1125 | Strip takes off as many characters at each end as there are and as it may |
| `Batches.FallbackFallsBack` | demo/chat/hf_tokenizer.py:1062-1076 | every longest run of byte tokens becomes the text it decodes to strictly, or one U+FFFD a byte; other tokens stay |
| `Batches.StepsInTurn` | demo/chat/hf_tokenizer.py:1559-1563 | the steps are done one after the other, all of them |
| `Lockstep.FeedChain` | demo/chat/hf_tokenizer.py:1592-1600 | add()'s loop over the streams, with its early exit, feeds the chain |
| `Lockstep.FlushChain` | demo/chat/hf_tokenizer.py:1605-1616 | flush()'s loop runs the rest of every stream through the streams after it, and the state it leaves |
| `Pipeline.IncrementalDecoder.Add` | demo/chat/hf_tokenizer.py:1586-1600 | the piece for an id and the new state, on the byte-level path and on the general one |
| `Pipeline.IncrementalDecoder.AddMany` | demo/chat/hf_tokenizer.py:1602-1603 | the pieces so far and what the streams still hold make up the text of all ids |
| `Pipeline.IncrementalDecoder.Flush` | demo/chat/hf_tokenizer.py:1605-1616 | the rest, and the state after it |
| `Pipeline.Stream` | demo/chat/hf_tokenizer.py:1565-1616 | add() for every id and flush() concatenate to decode() of the same ids, for every id list and both modes |
| `TrieRegex.InsertHolds` | demo/chat/hf_tokenizer.py:1288-1293 | the trie holds exactly the strings added |
| `TrieRegex.BuildTrie` | demo/chat/hf_tokenizer.py:1288-1293 | the loop that adds the strings |
| `TrieRegex.BuildMatches` | demo/chat/hf_tokenizer.py:1295-1301 | under greedy backtracking the compiled expression tries exactly the strings that stand at a position, the longest first |
| `TrieRegex.MatchesTheLongest` | demo/chat/hf_tokenizer.py:1285-1301 | it matches the longest member that is a prefix there, and fails exactly when none is |
| `TrieRegex.NoStringsMatchNothing` | demo/chat/hf_tokenizer.py:1464-1465 | an empty set would match the empty text everywhere; the callers compile none |
| `FifoLock.StepKeepsInv` | demo/chat/kv260_chat_server.py:571-619 | every step of every request keeps the queue's and the owner's invariant |
| `FifoLock.RunsKeepInv` | demo/chat/kv260_chat_server.py:546-619 | the invariant holds in every state of every run, with any timeouts and cancellations |
| `FifoLock.OneExecutes` | demo/chat/kv260_chat_server.py:546-619 | in every run at most one request executes and the queue never exceeds max_waiting |
| `FifoLock.LentSuspendsTheHolder` | demo/chat/kv260_chat_server.py:597-611 | in every run a request is suspended in lend() only while the lock is lent to the request it names or has been given back to it; at most one is; meanwhile only that borrower executes |
| `FifoLock.ReleaseGivesBack` | demo/chat/kv260_chat_server.py:613-619 | a borrower's release gives the lock back to the holder that lent it |
| `FifoLock.OnlyTheHolderResumes` | demo/chat/kv260_chat_server.py:597-619 | until that holder resumes no request executes, and no step but its own ends the wait |
| `FifoLock.FastPathDoesNotOvertake` | demo/chat/kv260_chat_server.py:574-576 | a request that does not queue finds no request waiting and none executing |
| `FifoLock.QueuedIsNotGranted` | demo/chat/kv260_chat_server.py:574-583 | a request that had to queue is not let through by the same stretch of code |
| `FifoLock.GrantsTheOldest` | demo/chat/kv260_chat_server.py:583-592 | a grant is lent, or goes to the oldest waiting request of a free lock |
| `FifoLock.LentIsGranted` | demo/chat/kv260_chat_server.py:583-592 | a lent ticket is granted at its next turn, timeout or not |
| `FifoLock.SomeoneCanMove` | demo/chat/kv260_chat_server.py:546-619 | no deadlock: while a request waits, some request executes, can be granted or can resume |
| `FifoLock.PollDoes` | demo/chat/kv260_chat_server.py:582-595 | a turn of a waiting request: granted exactly when it may be; else it gives up exactly on a timeout or a cancellation, and waits on at its place with time left; no other request is moved |
| `FifoLock.ArrivalDoes` | demo/chat/kv260_chat_server.py:571-595 | an arrival: granted exactly when the lock is free and nobody waits; refused exactly when it is not and max_waiting requests wait; else queued behind all others |
| `FifoLock.LendDoes` | demo/chat/kv260_chat_server.py:597-611 | lend() picks the oldest waiter that may borrow, exactly when there is one and the lock is not lent; else nothing changes |
| `FifoLock.LeaveDoes` | demo/chat/kv260_chat_server.py:613-619 | release() frees the lock exactly when the request did not borrow it, and ends any loan; the queue stays |
| `FifoLock.Mutex.Start` | demo/chat/kv260_chat_server.py:571-580 | the start of acquire(), in place, is the step system's entry |
| `FifoLock.Mutex.Turn` | demo/chat/kv260_chat_server.py:582-595 | one turn of the waiting loop with its clean-up, in place, is the step system's wake |
| `FifoLock.Mutex.Drop` | demo/chat/kv260_chat_server.py:593-595 | removing a ticket from the queue, and nothing else |
| `FifoLock.Mutex.StartLend` | demo/chat/kv260_chat_server.py:597-608 | lend() marks the first eligible waiter, unless the lock is lent already |
| `FifoLock.Mutex.Release` | demo/chat/kv260_chat_server.py:613-619 | release() ends the loan, or frees the lock when there is none |
| `Residency.Server.UnloadModel` | demo/chat/kv260_chat_server.py:828-836 | an unload turns one model off and counts once; one that is off is left alone |
| `Residency.Server.EvictInOrder` | demo/chat/kv260_chat_server.py:801-805 | automatic eviction turns off a prefix of the given order and nothing else; it unloads only while the last reading says that memory does not suffice, and stops with the first that does not, with the last model, or with an unload that raises |
| `Residency.Server.MakeRoom` | demo/chat/kv260_chat_server.py:790-805 | evictions touch other FPGA models only; under `one` none is left on, under `auto` the least recently used went first, only while memory was short; it raises exactly when an unload did |
| `Residency.Server.EvictAll` | demo/chat/kv260_chat_server.py:790-794 | the eviction of `one`: every other FPGA model goes off |
| `Residency.Server.EvictLeastUsed` | demo/chat/kv260_chat_server.py:795-805 | the eviction of `auto`: the least recently used first, while memory is short |
| `Residency.Server.Retry` | demo/chat/kv260_chat_server.py:814-819 | the retry after a failed load closes the engine, turns every other FPGA model off, and succeeds exactly when the engine then says that it loaded |
| `Residency.Server.LoadModel` | demo/chat/kv260_chat_server.py:780-826 | nothing is asked when the model is on; otherwise the evictions above, one load, and a second only after a failed first, under `auto` with eviction allowed and another FPGA model on; it succeeds exactly when the last load said so; the models that are on are the open engines |
| `Residency.Server.LoadNow` | demo/chat/kv260_chat_server.py:806-826 | the same, from the first load on |
| `Residency.Server.AfterFailure` | demo/chat/kv260_chat_server.py:811-820 | the same, from a load that did not succeed on: raised at once unless it may be tried again |
| `Residency.Server.EnsureLoaded` | demo/chat/kv260_chat_server.py:1166-1180 | true exactly when the model is on afterwards; what was asked of the engines on the way; the last use is recorded; no other engine is touched than those a load may touch; every switch is counted once |
| `Residency.Server.Drop` | demo/chat/kv260_chat_server.py:750-761 | a model that is off is served no longer: every table loses exactly that key, nothing else goes off |
| `Residency.StartupEvictsNothing` | demo/chat/kv260_chat_server.py:838-862 | loading the startup models never evicts one |
| `Residency.StartupAreListed` | demo/chat/kv260_chat_server.py:838-845 | which models start up, by policy |
| `Residency.FirstFpgaIs` | demo/chat/kv260_chat_server.py:838-845 | under `one` the FPGA model that starts up is the first listed |
| `Residency.Server.LoadStartup` | demo/chat/kv260_chat_server.py:847-862 | after startup exactly the startup models that are still served are on; each of the others was dropped because its engine, or an unload, failed |
| `Residency.Server.LoadFurther` | demo/chat/kv260_chat_server.py:863-882 | the second startup loop runs under `auto` only and gives every listed model its turn: loaded without eviction exactly when it is off and memory is known to suffice; models that do not use the FPGA stay on and are not touched while on; each model is loaded at most once |
| `Residency.PrefixWentFirst` | demo/chat/kv260_chat_server.py:801-805 | evicting a prefix of the models sorted by use leaves no less recently used one behind |
| `Residency.SortByUseSorts` | demo/chat/kv260_chat_server.py:801 | the order of eviction is by last use, with every model in it once |
| `Serving.EventKeepsInv` | demo/chat/kv260_chat_server.py:1147-1205 | every queue step, load and call keeps the joint invariant of queue and models |
| `Serving.RunsKeepInv` | demo/chat/kv260_chat_server.py:1147-1205 | it holds in every state of every run |
| `Serving.AnswersStayLoaded` | demo/chat/kv260_chat_server.py:1065-1205 | in every run the model of an answer that holds or has lent the FPGA is loaded |
| `Serving.AnswersAreUndisturbed` | demo/chat/kv260_chat_server.py:1065-1205 | no event of another request opens, closes or calls that answer's engine |
| `Serving.LendsToTheOldest` | demo/chat/kv260_chat_server.py:1188-1203 | an answer lends to the oldest waiting request for another model that is on and is not a chat model, exactly when there is one and it has not lent yet; else nothing changes |
| `Serving.BorrowersCutIn` | demo/chat/kv260_chat_server.py:1199-1201 | which requests may borrow |
| `Serving.OneModelAtATime` | demo/chat/kv260_chat_server.py:780-826 | with `one`, at most one FPGA model is on in every state; `loaded` and `backends` keep the same keys |
| `Serving.LoadsAreAccounted` | demo/chat/kv260_chat_server.py:822-835 | in every state of every run the loads less the unloads are the number of models that are on |
| `Serving.OnlyEnsureCounts` | demo/chat/kv260_chat_server.py:1166-1180 | the counters change only while a request that executes makes a model resident that is off, by one load at most |
| `KvCache.CommonPrefix` | demo/chat/smollm2_backend.py:252-257 | the longest common prefix |
| `KvCache.LoopPeriod` | demo/chat/smollm2_backend.py:86-101 | the least period of a verbatim loop at the end of an answer, or 0 exactly when there is none |
| `KvCache.PromptKeys` | demo/chat/smolvlm_backend.py:156-167 | the keys of a prompt: the c-th image token is row c % 64 of image c / 64, and an error exactly when there are more image tokens than rows |
| `KvCache.NextRow` | demo/chat/smolvlm_backend.py:158-166 | the two counters of the loop stand at the image and row of the next image token |
| `KvCache.Segment` | demo/chat/smolvlm_backend.py:178-185 | a segment is tokens followed by rows of at most one image |
| `KvCache.RowsOfIds` | demo/chat/smolvlm_backend.py:182-197 | every `vocab + row` id is passed while the encoded image is the one in its key, so the engine reads a segment's ids as its keys |
| `KvCache.Backend.PrefillText` | demo/chat/smollm2_backend.py:609-620 | chunked prefill: the new keys go to the engine in chunks of the size set, the client asked between them; afterwards the cache list is exactly the engine's content, also when it fails or is cancelled |
| `KvCache.Backend.PrefillImages` | demo/chat/smolvlm_backend.py:169-199 | segments concatenate to exactly the new keys, also when reuse ends inside an image block; the cache list is exactly the engine's content, also on failure |
| `KvCache.Backend.Prepare` | demo/chat/smollm2_backend.py:635-651 | the first logits are those of the whole prompt, of which exactly the common prefix with the cache was reused, but for the last key, and the rest was fed |
| `KvCache.Backend.Generate` | demo/chat/smollm2_backend.py:627-714 | every sampling step is given the logits of the whole prompt and everything generated before it; the answer is the sampled tokens up to the first end token; every decode step was within all limits; the text said is the answer's text cut at its first stop; after every exit the cache list is unknown or exactly the engine's content |
| `KvCache.Backend.Answer` | demo/chat/smollm2_backend.py:669-714 | the decode loop keeps that, and ends with `eos` exactly when the last token sampled is an end token |
| `KvCache.Backend.Respond` | demo/chat/smollm2_backend.py:669-722 | the loop and the last flush together |
| `KvCache.Backend.GoOn` | demo/chat/smollm2_backend.py:686-707 | after a token of the answer: the next step follows only without a stop, a loop or a limit reached; otherwise the reason given is the one that holds |
| `KvCache.Backend.Say` | demo/chat/smollm2_backend.py:688-694 | a token's text goes through the stop matcher: what was said is all but what is held back, or is cut at the first stop |
| `KvCache.Backend.Finish` | demo/chat/smollm2_backend.py:715-722 | what the detokenizer and the matcher still hold comes out, and may bring a stop |
| `KvCache.AnswerIsShort` | demo/chat/smollm2_backend.py:701-703 | on every exit the answer has at most max_tokens tokens, or one when that is 0 |
| `KvCache.Backend.Next` | demo/chat/smollm2_backend.py:708-714 | one decode step: unknown while the call runs, exact when it succeeds |
| `TopP.SortOrders` | demo/chat/sampler.py:285-291 | the candidates in the order (logit descending, id ascending) |
| `TopP.KeepOfSort` | demo/chat/sampler.py:284-285 | dropping ids below the threshold and sorting commute |
| `TopP.KeptMass` | demo/chat/sampler.py:283-284 | what the threshold drops weighs less than the threshold each |
| `TopP.ThresholdKeepsEnough` | demo/chat/sampler.py:282-293 | the pre-filter keeps a prefix of the full order with the mass asked for, so the full sort is never needed |
| `TopP.Nucleus` | demo/chat/sampler.py:280-300 | with or without top-k the result is the shortest prefix of the ranking with that mass; the fallback branch is dead |
| `TopP.Filter` | demo/chat/sampler.py:262-301 | the ids returned and their mass, for every top_k and top_p |
| `TopP.Cut` | demo/chat/sampler.py:294-300 | the accumulating loop stops at the shortest prefix that reaches the target, and always inside |
| `TopP.GreedyIsFirst` | demo/chat/sampler.py:260-261 | the greedy choice is the head of the ranking |
| `TopP.Draw` | demo/chat/sampler.py:303-315 | the cumulative draw always returns inside its loop, the id whose stretch of the mass the draw falls into |
| `SplitMix.NumbersDiffer` | demo/chat/sampler.py:218-226 | of 2^64 numbers drawn in a row after any seed no two are equal |
| `SplitMix.MixDiffers` | demo/chat/sampler.py:222-226 | different states give different numbers: no step of the output function loses anything |
| `SplitMix.SpreadDiffers` | demo/chat/sampler.py:224-226 | an xor with a right shift of itself loses nothing |
| `SplitMix.XorBits` | demo/chat/sampler.py:224-226 | the xor, bit by bit |
| `SplitMix.UnitRounds` | demo/chat/sampler.py:228-229 | a draw is its number over 2^64, rounded down to a multiple of 2^-53 |
| `SplitMix.Rng.Next` | demo/chat/sampler.py:221-226 | the n-th call after a seed returns the n-th of these numbers |
| `SplitMix.Rng.Uniform` | demo/chat/sampler.py:228-229 | a draw below 1, from the upper 53 bits of the next number |
| `Dry.MatchLengthIsLongest` | demo/chat/sampler.py:203-211 | the inner loop finds the longest common suffix with the whole history, cut at breakers, out-of-range ids and dry_max_match |
| `Dry.BestIsTheMost` | demo/chat/sampler.py:197-213 | the length recorded for a token is the most tokens it would repeat over all earlier positions |
| `Dry.PenaltyGrows` | demo/chat/sampler.py:198-216 | the penalty is the multiplier at the allowed length and grows by the factor `base` with each token; limits that are not set count as 50 and 1 |
| `Dry.IdleIsRight` | demo/chat/sampler.py:187-196 | when nothing is done no token would repeat anything |
| `Dry.Apply` | demo/chat/sampler.py:185-216 | every logit loses exactly the penalty of that length, in place; tokens below the allowed length and idle calls change nothing |
| `StopStream.HeldIs` | demo/chat/chat_backend.py:282-288 | how much is held back: the longest suffix that is a proper prefix of some stop |
| `StopStream.SameCut` | demo/chat/chat_backend.py:260-288 | the matcher sees in its buffer what apply_stop sees in the whole text |
| `StopStream.FedToAStop` | demo/chat/chat_backend.py:276-281 | a stop in the buffer is the earliest stop of everything fed |
| `StopStream.FedOn` | demo/chat/chat_backend.py:282-288 | without a stop all but what must be held back goes out |
| `StopStream.StopStream.Feed` | demo/chat/chat_backend.py:276-288 | output and buffer make up the text fed, or the text is cut at its earliest stop |
| `StopStream.StopStream.Keep` | demo/chat/chat_backend.py:282-286 | the search loop finds the longest end that some stop starts with |
| `StopStream.StopStream.Flush` | demo/chat/chat_backend.py:290-292 | the rest of the text |
| `StopStream.Read` | demo/chat/chat_backend.py:266-292 | for every cutting into pieces: it stops with the first piece after which the text so far holds a stop, with apply_stop of the text so far; otherwise everything comes out |
| `StopStream.WholeText` | demo/chat/chat_backend.py:260-292 | the reader gets apply_stop of the whole text for every cutting of every text, if and only if a proper beginning of a stop that holds a stop holds one at its start |
| `StopStream.CutStays` | demo/chat/chat_backend.py:260-263 | with such stops text after a stop never brings an earlier cut |
| `StopStream.NotTheWholeText` | demo/chat/chat_backend.py:266-292 | stops `abcd`, `bc` fed `abc`, `d`: the reader gets `a`, where apply_stop of the whole text gives nothing |
| `PhraseDecode.Decode` | demo/chat/moonshine_backend.py:229-276 | a rejected check returns exactly the plain greedy transcript despite the overwritten cache; an accepted one the whole phrase as described at `PhraseDecode.ForceSpells`, continued greedily |
| `PhraseDecode.ForcePhrase` | demo/chat/moonshine_backend.py:248-263 | the phrase loop against the run with every margin summed to the end |
| `PhraseDecode.GoOn` | demo/chat/moonshine_backend.py:267-274 | the greedy loop from any cache content past the tokens it rewrites |
| `PhraseDecode.GreedyIs` | demo/chat/moonshine_backend.py:269-274 | the greedy tokens: each is the model's choice after those before it, up to the end token or the limit |
| `PhraseDecode.MarginFalls` | demo/chat/moonshine_backend.py:253-257 | the margin only falls |
| `PhraseDecode.TooLowStays` | demo/chat/moonshine_backend.py:256-257 | stopping early on the margin never changes the verdict |
| `PhraseDecode.ForceSpells` | demo/chat/moonshine_backend.py:248-263 | what a forced run is: the phrase's tokens in order up to its end or the limit; before one that starts a word the model's own punctuation, two tokens at most and just as long as the model writes it; a margin that is the loss of the phrase's tokens against the model's choices |
| `Multipart.FindIsFirst` | demo/chat/kv260_chat_server.py:422 | the search finds the first occurrence |
| `Multipart.DelimiterSearch` | demo/chat/kv260_chat_server.py:418-431 | skipping from occurrence to occurrence of the boundary misses no delimiter line |
| `Multipart.Delimiter` | demo/chat/kv260_chat_server.py:418-431 | the next delimiter line, or none, on every body |
| `Multipart.ReadPart` | demo/chat/kv260_chat_server.py:438-450 | one part: where its header block, its data and the next boundary end |
| `Multipart.ParseMultipart` | demo/chat/kv260_chat_server.py:433-451 | the scan ends on every body, with the form or one of the two errors |
| `Multipart.ParseIs` | demo/chat/kv260_chat_server.py:433-451 | on every body: an error when no boundary stands in it; otherwise the parts in a row after the first one, whatever stands before it; their last of every name when they end at a closing boundary, and an error exactly when no part follows and that is missing |
| `Multipart.PartAtIs` | demo/chat/kv260_chat_server.py:438-450 | a part is its headers up to the first blank line and the data up to the first delimiter line, and is read exactly when it has both |
| `Multipart.EndsLineIs` | demo/chat/kv260_chat_server.py:418-431 | a boundary counts exactly when "--" follows it, or any blanks and CRLF |
| `Multipart.DelimiterInStretch` | demo/chat/kv260_chat_server.py:418-431 | a delimiter line inside a printed payload is one of the body, and conversely |
| `Multipart.PartReads` | demo/chat/kv260_chat_server.py:438-450 | a printed part is read back, byte for byte, if and only if no delimiter line starts in CRLF + payload |
| `Multipart.EmptyPayloadIsClean` | demo/chat/kv260_chat_server.py:438-450 | an empty payload is always read back |
| `Multipart.ReadsBack` | demo/chat/chat.py:147-158 | the parts from any one on are read back, whatever stands before |
| `Multipart.RoundTrip` | demo/chat/chat.py:147-158 | any form printed as the client prints it is parsed back to the same names and payload bytes |
| `Multipart.LastOneWins` | demo/chat/kv260_chat_server.py:445-449 | of a repeated name the last part is kept, byte for byte |
| `Multipart.OthersStay` | demo/chat/kv260_chat_server.py:445-449 | a part without a name, or with another one, changes no other field |
| `Rtp.UnpackPrinted` | demo/miranda/miranda_proto.py:57-75 | unpacking a packet as section 5.1 of RFC 3550 lays it out gives its fields and payload, with any CSRCs, extension and padding |
| `Rtp.UnpackPacked` | demo/miranda/miranda_proto.py:51-75 | unpacking undoes packing, up to the widths of the fields |
| `Rtp.UnpackExactly` | demo/miranda/miranda_proto.py:57-75 | for every byte string: unpacking gives a packet's fields and payload if and only if it is laid out as one |
| `Rtp.SwapTwice` | demo/miranda/miranda_proto.py:78-87 | the L16 swap (section 4.5.11 of RFC 3551) is its own inverse on whole samples |
| `Rtp.SwappedAt` | demo/miranda/miranda_proto.py:78-87 | the two bytes of every sample change places |
| `Rtp.RtpReceiver.Feed` | demo/miranda/miranda_proto.py:100-117 | feed(), in place: the samples, the restart flag and every counter |
| `Rtp.ArriveKeepsSound` | demo/miranda/miranda_proto.py:100-117 | every arrival keeps the output on the stream's timeline; accepted packets strictly increase between restarts and a late one adds nothing |
| `Rtp.StreamsStaySound` | demo/miranda/miranda_proto.py:90-117 | under any loss, duplication and reordering below half the sequence space, every sample comes out at its place |
| `Rtp.FirstArrival` | demo/miranda/miranda_proto.py:103-105 | the first packet starts a talkspurt at its own number |
| `Rtp.AtItsOffset` | demo/miranda/miranda_proto.py:100-117 | packet v of a talkspurt is the block at (v - first) * size of the output |
| `Rtp.SeenDistance` | demo/miranda/miranda_proto.py:106-110 | below half the sequence space the 16-bit distance is the distance in the stream |
| `Segmenter.RunIsRight` | demo/miranda/vad.py:158-202 | for every verdict sequence: segments are disjoint, ordered, carry their exact speech count (at least min_speech), respect the cap, and end-closed ones end in the silent tail |
| `Segmenter.RunIsCourses` | demo/miranda/vad.py:158-202 | the segments given out are those of the definition without state, in turn and no others: opened by the first run of start_frames speech frames, with the pre-roll before it, and closed by the first silence long enough or by the cap |
| `Segmenter.SilentIs` | demo/miranda/vad.py:186-192 | the silence at the end is its longest run of frames without speech |
| `Segmenter.CountIsSpeech` | demo/miranda/vad.py:170-202 | the speech count is the number of speech frames |
| `Segmenter.FlushIsRight` | demo/miranda/vad.py:204-208 | and so is what flush gives out, after them |
| `Segmenter.StepIsRight` | demo/miranda/vad.py:170-202 | one frame keeps that, and what it closes is right |
| `Segmenter.RunPrefix` | demo/miranda/vad.py:170-202 | a run does not look ahead |
| `Segmenter.SegmentsGrow` | demo/miranda/vad.py:158-202 | one more frame only adds what it closes: segments already given out stay, as exact slices of the stream |
| `Segmenter.Segmenter.Frame` | demo/miranda/vad.py:170-195 | _frame, on the ring and the open segment in place |
| `Segmenter.Segmenter.Close` | demo/miranda/vad.py:197-202 | _close: the slice, its speech count, or nothing when too short |
| `Segmenter.Segmenter.Feed` | demo/miranda/vad.py:158-168 | what comes out in all depends only on what went in in all, however it was cut |
| `Segmenter.Segmenter.Flush` | demo/miranda/vad.py:204-208 | flush closes the open segment in place; the fields are then those of a state with no segment open, in which nothing of it can be used again |
| `Resample.PhaseInTable` | demo/chat/speech_input.py:110-121 | the phase row is in the table, the last one at or before the exact part, and exact while the table has a row for each part |
| `Resample.OutLengthRounds` | demo/chat/speech_input.py:113 | the output length is n * dst / src to the nearest |
| `Resample.BaseIsInput` | demo/chat/speech_input.py:119-120 | every output's base sample is an input sample |
| `Resample.PositionIs` | demo/chat/speech_input.py:118-120 | base and part make up the exact position k * src / dst |
| `Resample.ImpulseTaps` | demo/chat/speech_input.py:117-122 | one input sample adds to an output exactly the tap that stands over it |
| `Resample.OutputOfImpulse` | demo/chat/speech_input.py:117-122 | an output weighs exactly the input samples at most `half` away from its base |
| `Resample.TapsAdd` | demo/chat/speech_input.py:117-122 | the output of a sum of inputs is the sum of their outputs |
| `Resample.Gcd` | demo/chat/speech_input.py:105 | the greatest common divisor |
| `Resample.Resample` | demo/chat/speech_input.py:100-123 | every output is written exactly once over the blocks; tap j of output k weighs input sample floor(k * down / up) + j - half, silence outside |
| `Resample.WriteBlock` | demo/chat/speech_input.py:117-122 | one block: its outputs, and no others |
| `Resample.Dot` | demo/chat/speech_input.py:122 | a row's sum reads the padded input inside its bounds only |

## Left out

- `onig_to_re`, Unicode tables and normalization, chat templates: they rest on outside engines; the pre-tokenizer is any function whose pieces concatenate to the text.
- Matching added tokens in a text (`_Matcher`), with `lstrip`, `rstrip` and `single_word`: matches can overlap there. `TrieRegex` covers what the compiled expression matches at one position.
- The source text of the compiled expression, its escaping and Python's `re` engine: the expression is its syntax tree and greedy backtracking is a function on it.
- `token_bytes()` of decoder steps other than ByteLevel.
- Strings are sequences of Unicode scalar values: lone surrogates, on which `encode("utf-8")` raises, do not occur.
- BpeMerge.RescanIsReference: the rank order is sufficient, not necessary; a rule out of order can do no harm when no word brings its tokens together, and whether one does depends on whole chains of merges.
- BpeMerge.HeapIsReference: asks for a length that adds up over the rules, which every table has whose merges write the tokens they make (`BpeMerge.TableIsGraded`); without one a heap entry can come true again after it was popped.
- BpeMerge.HeapMerge: the heap is a sequence whose least entry is taken, not `heapq`'s array; the pop order is the same because it is a total order on entries.
- Chain.RunDecodes: its condition on the steps after a fuse is the exact one step by step for none, one or more chunks (`Agreement.AgreesExactly`); for a whole chain it is sufficient only, since a later step can erase the difference an earlier one makes, and since which chunks reach a step is bounded by their number alone.
- FifoLock: the condition variable's wake-ups and the poll interval; a waiting request takes a turn at any time. Fairness of the scheduler is not modelled, so no request is shown to be served in the end.
- Residency: the readings of `cma_free` and the outcome of loads and unloads are free choices, kept in a log; an unload that raises counts as having closed the engine; dropping the page cache (`cma_reclaim`), logging, load times and the `load_errors` texts are not modelled; nor is `close_models` at shutdown, after which the counters no longer tell the number loaded.
- Serving: an answer's engine calls are one kind of event; what they compute is `KvCache`.
- KvCache: the sampler, the client and the reader are free choices of `generate`'s loop, and so is the detokenizer, as two functions of the tokens: their text and what is still held. The stop matcher is `StopStream`. `min_tokens`, log-probabilities and statistics are left out. A prompt has the sink and at least one token more.
- KvCache.Backend.PrefillImages: that the image tokens come in whole blocks is not required; what is required is that each row's image is one of the prompt's.
- TopP: real arithmetic; rounding, infinities, NaN and `exp` itself are not modelled, only that weights are positive and follow the logits. Repetition, presence and frequency penalties come before the filter and are left out.
- Dry: `math.pow` is repeated multiplication over reals.
- PhraseDecode.Decode: the engine's statistics and times; `margin * scale` is real.
- Multipart: the content type's boundary and the part headers go to Python's email parser, of which only its results are used; a field without a file name stays bytes instead of being decoded with replacement.
- Multipart.RoundTrip: says that a form is read back when every payload is clean; part by part the condition is exact (`Multipart.PartReads`), for a whole form a payload that breaks up may by chance leave an equal form.
- Rtp.Pack: payload types below 128; above, the code's result shares a bit with the marker.
- Rtp.StreamsStaySound: payloads of one size, as the silence for lost packets has the size of the packet after them.
- Segmenter: the detector's energy and noise estimate; the verdict is a function of the audio up to and including the frame. `reset` is the constructor.
- Resample: the kernel's values (Kaiser window) and floating-point rounding; the table is any function of row and tap. `half` is a parameter.
- `read_wav`, `ffmpeg`, `CSampler`, the neural networks, HTTP, sockets, deployment and the scheduler's code generator: plumbing, outside engines or code not at hand.
- Prompt trimming, wake-word matching, document and image caches, utterance packing: they would add easier members only.
