# Verified model of the LDAP proxy and the parts it stands on

A Dafny model of an LDAP proxy: its event buffers, its connection pool and
query/reply protocol, its ini files, its random number generator and its
intrusive queues. `dafny verify dfyconfig.toml` checks everything.

## What is modelled

**Event buffers** (`Segments`, `Ev*`). An evbuffer is a linked list of chunks with
a window of bytes each, a cached length, a pointer to the last chunk, and a
pointer to the link that reaches the last chunk with data: a field of the header
or of a chunk (`Slot`). Memory is an explicit map from addresses to chunk records
(`Heap.mem`), so that a chunk that was freed or is shared by two buffers shows as
a failing proof. The methods are the C functions with their loops and pointer
writes; ghost lists (`Cells`) say what the pointers spell. `Valid()` is the
invariant of the read family: chunks with data, then empty ones, the link at the
last chunk with data. `Tight()` adds the invariant of the queue family: no empty
chunk but a lone one. `Swaps` in a contract says that memory outside the buffer is
untouched and that every chunk that left the buffer was freed.

Main results: any run of the nine queue operations over any number of buffers is
the same run on plain byte strings (`EvRuns.Run`), and bytes passed on through
buffers come out complete and in order (`EvRuns.Delivery`); `evbuffer_read` appends
exactly the bytes received however they fall over the chunks (`EvRead.Read`);
search returns the least match across chunk boundaries (`EvSearch.SearchRange`);
`evbuffer_readln` cuts at the first end of line of each style (`EvSearch.Readln`),
and the lines do not depend on how the reads cut the stream, exactly unless a run
of CR and LF is cut with style ANY (`EvLines.CutMatters`, `EvLines.Session`).

Some promises are false of the code, and the exact conditions are proved, with a
concrete buffer for each failure (`EvMixed`). On a buffer with spare empty chunks, as
expanding leaves it, evbuffer_add can leave the link to the last chunk with data
behind, or fail an assertion (`EvQueue.Add`); evbuffer_add_buffer and
evbuffer_prepend_buffer can put empty chunks between data, and evbuffer_remove_buffer
can do all of this (`EvSplice`). What evbuffer_prepend tells the callbacks leaves out
the bytes that go to a new chunk (`EvRuns.Lengthen`). evbuffer_expand_singlechain may
skip an unusable empty chunk (`EvExpand.ExpandSinglechain`). The pointer that the
strspn helper leaves at the end is not usable (`EvSearch.Strspn`). Runs of queue
operations (`EvRuns`) start from buffers without spare chunks and stay there.

**The proxy** (`Lp*`). `LpProtocol` is a state machine of atomic steps: accept,
notify an LDAP thread, let a worker answer, fire an event. A history that the
program does not have (incarnations of a slot, every task and its place, accepted
replies, packets sent to each incarnation, freed incarnations) makes the promises
statable. `LpProxy` is the program with its loops over lists and records; each method is proved to be one function of
the machine, and any run of it a run of the machine (`LpProxy.Proxy.Run`). Ticks,
worker turns, requests, lookups and what a socket takes are inputs of a step. Main
results: `LpRuns.PoolSafety`, `LpRuns.ReplySafety`, `LpRuns.ReplyToAsker`,
`LpReplies.ListedRepliesBelong`; every accepted reply is sent or still listed, in
order (`LpReplies.AcceptedAreSent`), and carries an entry exactly if the lookup found
one (`LpMeaning.EntrySaysFound`); and what happens without distinct ticks
(`LpRuns.StaleAnswer`, `LpRuns.LateReplyMisdelivered`). `LpMeaning` says what requests
and events lead to, told by the requests and messages themselves.

**Ini files** (`Dictionary`, `Ctype`, `Ini*`). The slot arrays with cached hashes are a
finite map in every run (`Dictionaries.Perform`). The parser is modelled down to
the scan formats, the loader with its continuation lines and its line limit, the
printer with its padding. `IniMeaning` says what any line means, whoever wrote it, and
when a file is loaded. Loading undoes printing for every well-formed dictionary
(`IniRoundTrip.RoundTrip`); which entries survive is exact (`IniEntry.EntryKept`,
`IniExact.OneEntry`). A dictionary without sections comes back only
if it is empty (`IniPlain.PlainRoundTrip`). The hash keeps keys apart that differ in one character
(`DictionaryHash.OneCharacterDiffers`).

**Random numbers** (`Arc4`). The state stays a permutation, a step is a bijection,
every input byte keys a round, and range reduction is unbiased for every bound.
Different inputs can still leave the same state: the reset at the end of a window
forgets one index, which can lose byte 254 and never byte 255 (`Arc4.ResetMerges`,
`Arc4.LastByteMatters`).

**Intrusive queues** (`Sequences`, `CircleQueue`, `TailQueue`). The links spell one
sequence, in both directions for the circular queue, and the tail pointer of the
other one addresses the final next link after every operation.

## Model

| member | source | states |
|---|---|---|
| EvBuffers.InvokeCallbacks | libevent-2.0.20-stable/buffer.c:432-488 | Clears both counters; a callback is told the length since the counters were last cleared, the bytes added and the bytes removed |
| EvBuffers.ChainNew | libevent-2.0.20-stable/buffer.c:154-181 | A chunk at an address not in use, empty, with at least the size asked for, and with 976 bytes or less than twice the size and 48; all other memory is as it was |
| EvBuffers.FreeAllChains | libevent-2.0.20-stable/buffer.c:229-237 | Frees exactly the chunks of the list |
| EvBuffers.FirstVictim | libevent-2.0.20-stable/buffer.c:264-300 | The link where the loop stops: behind all chunks with data that follow the link, however far behind it is |
| EvBuffers.ChainsAllEmpty | libevent-2.0.20-stable/buffer.c:240-248 | True exactly if no chunk from there on holds data |
| EvBuffers.ChainInsert | libevent-2.0.20-stable/buffer.c:282-311 | For any list: aborts exactly if data stands behind the first empty chunk; otherwise the lists, links and bytes that result, and for a sound buffer the invariant is kept if and only if the new chunk is empty, or there is no data yet, or nothing is replaced |
| EvBuffers.IntactIff | libevent-2.0.20-stable/buffer.c:303-307 | When a list whose link may be behind satisfies the invariant: what the link does not lead to is empty, or is the first chunk alone |
| EvQueue.Add | libevent-2.0.20-stable/buffer.c:1533-1617 | On every buffer: aborts exactly in the case of AddAborts (two spare chunks, the last with some room, bytes that spill over); otherwise the bytes become old ++ new and the report is exact, and the invariant holds afterwards if and only if AddKeeps (no bytes, no spare chunk but a lone one, or a spill past a single spare chunk with room, or into a buffer without data whose last chunk has none) |
| EvQueue.Spill | libevent-2.0.20-stable/buffer.c:1584-1601 | The last chunk takes what it can and a new one, not linked yet, the rest, which is never empty |
| EvMixed.AddWithTwoSpare | libevent-2.0.20-stable/buffer.c:1584-1601 | A concrete buffer with two empty chunks behind its data on which evbuffer_add aborts |
| EvMixed.AddAfterExpand | libevent-2.0.20-stable/buffer.c:1557-1568 | A concrete buffer with one empty chunk behind its data whose link goes stale when one byte is added |
| EvMixed.AddBufferBreaks | libevent-2.0.20-stable/buffer.c:826-838 | Two concrete buffers: an empty chunk comes to stand between data |
| EvMixed.PrependBufferBreaks | libevent-2.0.20-stable/buffer.c:840-856 | Two concrete buffers: the same in front |
| EvMixed.RemoveBufferBreaks | libevent-2.0.20-stable/buffer.c:1152-1157 | Two concrete buffers: one byte is copied behind the link of dst |
| EvMixed.RemoveBufferAborts | libevent-2.0.20-stable/buffer.c:1152-1157 | Two concrete buffers on which evbuffer_remove_buffer aborts |
| EvMixed.StrspnAtEnd | libevent-2.0.20-stable/buffer.c:1391-1398 | A concrete chunk of line feeds: the pointer that is left cannot be gone on from |
| EvQueue.Prepend | libevent-2.0.20-stable/buffer.c:1619-1691 | The bytes become new ++ old; the report counts only the bytes that fit in front of the first window |
| EvQueue.Drain | libevent-2.0.20-stable/buffer.c:950-1017 | The bytes become the suffix behind min(len, length); freed chunks and nothing else leave the memory |
| EvQueue.Copyout | libevent-2.0.20-stable/buffer.c:1034-1078 | Returns exactly the prefix of min(datlen, length) bytes and changes nothing |
| EvQueue.Remove | libevent-2.0.20-stable/buffer.c:1020-1032 | The old bytes are what is returned followed by what is left |
| EvPullup.Pullup | libevent-2.0.20-stable/buffer.c:1173-1283 | The bytes stay the same, the first n are contiguous in the first chunk, all links hold whichever chunks were freed; fails exactly for 0 and for more than the length |
| EvPullup.PullRound | libevent-2.0.20-stable/buffer.c:1245-1257 | One round of the copying loop keeps its invariant: bytes copied ++ bytes still to come are the whole |
| EvSplice.AppendChain | libevent-2.0.20-stable/buffer.c:826-838 | The chunks of src linked behind those of dst: bytes, length and last of the joined list; sound if and only if dst has no empty chunk |
| EvSplice.PrependChain | libevent-2.0.20-stable/buffer.c:840-856 | The chunks of src linked in front of those of dst; sound if and only if src has no empty chunk |
| EvSplice.AddBuffer | libevent-2.0.20-stable/buffer.c:858-902 | On every two buffers: outbuf becomes outbuf ++ inbuf, inbuf becomes empty, no chunk is shared, both reports are exact; outbuf is sound if and only if it had no data or no empty chunk, or nothing is moved |
| EvSplice.PrependBuffer | libevent-2.0.20-stable/buffer.c:904-948 | On every two buffers: outbuf becomes inbuf ++ outbuf, inbuf becomes empty, no chunk is shared, both reports are exact; outbuf is sound if and only if it had no data or inbuf no empty chunk, or nothing is moved |
| EvSplice.AdvanceLastWithData | libevent-2.0.20-stable/buffer.c:645-659 | Moves the link to the last chunk with data when data chunks were linked behind it |
| EvSplice.RemoveBuffer | libevent-2.0.20-stable/buffer.c:1083-1171 | On every two buffers: moves exactly the first min(datlen, length) bytes by whole chunks and one partial copy; aborts, and leaves dst sound, exactly if RemoveAborts, RemoveKeeps: only when part of the first chunk is copied does it matter what evbuffer_add finds |
| EvSplice.Joined | libevent-2.0.20-stable/buffer.c:826-856 | Two lists linked together satisfy the invariant if and only if no empty chunk comes to stand between their data |
| EvSplice.ScanWhole | libevent-2.0.20-stable/buffer.c:1116-1128 | Counts the chunks covered wholly, stops inside the last chunk with data or before it, so that the assertion of the loop never fails |
| EvRuns.Do | libevent-2.0.20-stable/buffer.c:858-1691 | Any of nine operations on any of the buffers, aliased arguments included: contents change as plain byte strings would, invariants and disjointness hold |
| EvRuns.Run | libevent-2.0.20-stable/buffer.c:858-1691 | The same for every run, with the memory of others untouched; what the callbacks were told adds up to the lengths if every prepend of the run fitted |
| EvRuns.Lengthen | libevent-2.0.20-stable/buffer.c:1533-1691 | With a callback installed whose reports add up, they still do after an append or a prepend if and only if it is not a prepend that does not fit in front of the first window |
| EvMixed.PrependToFull | libevent-2.0.20-stable/buffer.c:1664-1683 | A concrete buffer: after one byte in front of a full chunk the callbacks were told nothing |
| EvMixed.ExpandSkipsChunk | libevent-2.0.20-stable/buffer.c:1725-1735 | A concrete buffer of two empty chunks of which the second is handed out |
| EvRuns.Delivery | libevent-2.0.20-stable/buffer.c:858-1171 | Bytes that are passed on from buffer to buffer come out once, complete and in order, however the operations interleave |
| EvRead.CountSpace | libevent-2.0.20-stable/buffer.c:1851-1876 | The counting loop: how many chunks have room and how much, with empty ones realigned; run to the end if neither suffices |
| EvRead.ExpandFast | libevent-2.0.20-stable/buffer.c:1830-1935 | Afterwards at most n chunks from the right one on have room for datlen bytes; no data is moved, only empty chunks are freed |
| EvRead.VecsTotal | libevent-2.0.20-stable/buffer.c:2001-2035 | With that room, the vectors add up to exactly howmuch in exact mode, and to at least that much otherwise |
| EvRead.ReadSetupVecs | libevent-2.0.20-stable/buffer.c:2001-2035 | Never runs off the chunks, uses at most n vectors of that total length, and points at the chunk where bytes go next |
| EvRead.ScatterHolds | libevent-2.0.20-stable/buffer.c:2121 | Bytes stored through the vectors are, chunk by chunk, those behind the windows |
| EvRead.Commit | libevent-2.0.20-stable/buffer.c:2154-2171 | Handing out n bytes over the chunks appends exactly those bytes and restores the invariant |
| EvRead.Read | libevent-2.0.20-stable/buffer.c:2057-2180 | With n the readable bytes if they are from 1 to 4096 and 4096 otherwise, and k the smaller of howmuch and n, or n if howmuch is negative: appends exactly the first min(k, what arrived) bytes, however they fall over the chunks, and returns how many; on an error returns -1 and appends nothing |
| EvExpand.AlignInPlace | libevent-2.0.20-stable/buffer.c:1694-1701 | Moves the window to the front without changing its bytes |
| EvExpand.Resize | libevent-2.0.20-stable/buffer.c:1794-1814 | The last chunk with data is replaced by a larger one with the same bytes |
| EvExpand.ExpandSinglechain | libevent-2.0.20-stable/buffer.c:1719-1826 | Keeps bytes and invariant; the result has datlen contiguous bytes, and is the chunk that bytes go to next if and only if not (no data, the first empty chunk full of misalignment, one behind it) |
| EvSearch.FindEolChar | libevent-2.0.20-stable/buffer.c:1317-1342 | The scan of 128 bytes at a time finds the first CR or LF, as a linear scan does |
| EvSearch.Strchr | libevent-2.0.20-stable/buffer.c:1295-1315 | The first position of the byte at or after the start, across chunks |
| EvSearch.FindEol | libevent-2.0.20-stable/buffer.c:1344-1364 | The first position of a CR or LF at or after the start, across chunks |
| EvSearch.Strspn | libevent-2.0.20-stable/buffer.c:1366-1403 | The length of the run of bytes in the set, across chunks, and the position behind it; the pointer left there is usable if and only if some byte from the start on is not in the set, or the last chunk is empty |
| EvSearch.SearchEol | libevent-2.0.20-stable/buffer.c:1415-1488 | For each of the four styles: the first end of line at or after the start, its length, and a usable pointer to it |
| EvSearch.Readln | libevent-2.0.20-stable/buffer.c:1490-1527 | The bytes are line ++ end of line ++ what is left, where the end of line is, by style, the first byte 10, that with a 13 before it if there is one, the first 13 10, or the first maximal run of 10 and 13; no line exactly if there is none, and then nothing changes |
| EvSearch.PtrSet | libevent-2.0.20-stable/buffer.c:2410-2450 | Succeeds exactly if a byte has that position, and then points at it |
| EvSearch.PtrMemcmp | libevent-2.0.20-stable/buffer.c:2456-2488 | At the first byte that differs from the pattern, the sign is that of the two bytes, across chunks; less if there are not enough bytes; zero exactly if the pattern is there |
| EvSearch.SearchRange | libevent-2.0.20-stable/buffer.c:2496-2559 | The least position where the pattern occurs between start and end, -1 exactly if there is none |
| EvSearch.FirstMatchBytes | libevent-2.0.20-stable/buffer.c:2496-2559 | What that position means byte by byte: the pattern stands there, and at no position before it |
| EvLines.CutMatters | libevent-2.0.20-stable/buffer.c:1415-1527 | Lines are the same wherever a stream is cut if and only if not (the style is ANY and the cut goes through a run of CR and LF) |
| EvLines.LinesCut | libevent-2.0.20-stable/buffer.c:1415-1527 | The lines before a cut, then those of what was left there with the bytes behind it, are the lines of the whole |
| EvLines.LinesCutRun | libevent-2.0.20-stable/buffer.c:1423-1433 | Cutting through a run with style ANY makes exactly one line more |
| EvLines.Session | libevent-2.0.20-stable/buffer.c:1490-2180 | Reads of any sizes and line reads in any order give the lines of the whole stream, with style ANY if no read cuts a run |
| LpProxy.Proxy.constructor | lp_connection.c:142-190 | All connections free and linked in order |
| LpProxy.Proxy.GetConnection | lp_connection.c:50-69 | Takes the first free connection and starts a new incarnation of it; none if the list is empty |
| LpProxy.Proxy.FreeConnection | lp_connection.c:71-100 | Empties the lists, zeroes all but the index and puts the connection in front of the free list |
| LpProxy.Proxy.CleanTaskTicks | lp_task.c:94-103 | Empties one connection's list of ticks |
| LpProxy.Proxy.CheckTaskTick | lp_task.c:77-92 | Whether the tick is there; removes its first occurrence and no other |
| LpProxy.Proxy.IoRegister | lp_ldap.c:175-257 | A connection taken, tied to a thread, and a registration task sent to it |
| LpSteps.IoRegisterInv | lp_ldap.c:278-310 | The pushed registration keeps every queue in order: each task once, for its thread, with its job |
| LpProxy.Proxy.IoUnregister | lp_ldap.c:538-568 | Closing and closed, the read event gone, the write event gone if it was active; only closing if it was closed before |
| LpSteps.QueryPushed | lp_mysql.c:58-72 | A query with its tick registered keeps pool, queues and history: the tick counts are those of the outstanding queries |
| LpProxy.Proxy.DoSearch | lp_ldap_logic.c:121-200 | A query with the message id, filter and tick of the request goes to the back of the queue of the worker in turn, and the tick to the list of the connection |
| LpProxy.Proxy.ProcessRequests | lp_ldap.c:487-536 | Takes the requests in order until the list is empty or one has no message id |
| LpProxy.Proxy.WriteReplies | lp_ldap.c:452-485 | Replies leave from the front until the socket stops it, and none is lost: those sent followed by those left are the same as before |
| LpProxy.Proxy.HandleEvent | lp_ldap.c:603-678 | Timeout, read and write of one event, and when the connection is freed |
| LpProxy.Proxy.SearchReply | lp_ldap_logic.c:202-346 | Puts on the list an entry and then a final message if the code is 0, and the final message alone otherwise, with the message id of the query |
| LpProxy.Proxy.ProcessMysqlTask | lp_ldap.c:692-718 | The reply goes to the connection only if it is on the same thread |
| LpProxy.Proxy.TaskProcess | lp_ldap.c:763-794 | The next task is one step of the machine: a registration adds the two events, an answer is dropped unless its tick is kept |
| LpProxy.Proxy.MysqlRoutine | lp_mysql.c:147-305 | The worker answers the next query to the thread it came from, with code 0 exactly if the lookups found what the filter asks for |
| LpProxy.Proxy.Lookup | lp_mysql.c:160-184 | Success for any filter that is not an equality; for mail exactly if one of the two lookups finds it; for domain always; for any other attribute never |
| LpProxy.Proxy.Do | lp_ldap.c:763-794 | One step of the program is one step of the state machine |
| LpProxy.Proxy.Run | lp_ldap.c:603-794 | Any sequence of possible steps takes the program through a run of the state machine |
| LpProxy.Serve | lp_connection.c:142-190 | The program from its start, after any possible steps: the pool adds up, closed connections have no events, replies are single and answer the queries of their slots |
| LpRuns.NextInv | lp_ldap.c:603-794 | Every step keeps the invariant of pool, tasks, queues and history |
| LpRuns.PoolSafety | lp_connection.c:50-190 | In every run: the number of slots stays, indices never change, free and used add up, no slot is twice in the free list, closed and closing agree, no incarnation is freed twice |
| LpReplies.ListedRepliesBelong | lp_ldap.c:692-718 | In every run, what was sent to a connection or is on its reply list answers a bind request or a query of that slot with its message id; with distinct ticks, a query of its present incarnation |
| LpReplies.NextLists | lp_ldap.c:603-794 | Every step keeps that the search replies sent to a connection and on its list are, in order, those accepted for its incarnation |
| LpReplies.AcceptedAreSent | lp_ldap.c:452-718 | In every run, every accepted reply of the present incarnation was sent or is still on the list, once and in order |
| LpMeaning.RequestsMean | lp_ldap.c:487-536 | Up to the first request without a message id: every bind request is answered, every search becomes a query with its message id, filter and tick, an unbind closes; what was on the reply list stays in front |
| LpMeaning.EventFrees | lp_ldap.c:603-678 | An event frees an open connection exactly if it is a timeout, or no request without a message id stops the handler and reading or writing failed or the client unbound |
| LpMeaning.EventSends | lp_ldap.c:603-678 | An event that does not free it sends what was on the list and then the bind responses to what was read, from the front, as far as the socket takes them |
| LpMeaning.CodeFound | lp_mysql.c:160-184 | The code of an answer is 0 exactly if the filter is no equality, or asks for domain, or for a mail that is a user or a list |
| LpMeaning.EntrySaysFound | lp_mysql.c:147-243 | In every run, an accepted reply carries an entry exactly if the lookups that some worker made for its query found what its filter asks for |
| LpRuns.ReplySafety | lp_mysql.c:196-243 | In every run, with no assumption on ticks: no query is answered twice, replies carry the query's message id, no incarnation gets more replies than it made queries |
| LpRuns.ReplyToAsker | lp_task.c:60-103 | In every run in which outstanding ticks of a connection are distinct: a reply is accepted only in the incarnation that asked |
| LpRuns.AnswerArrives | lp_ldap.c:692-718 | With distinct ticks, an answer to the present incarnation always reaches its reply list: the list with the packet at its end is sent from the front as far as the socket takes it, and what is left stays |
| LpRuns.AssertionsHold | lp_ldap.c:681-794 | In every run the program's assertions hold: receivers, idle connections from the pool, the discard callback |
| LpRuns.StaleAnswer | lp_ldap.c:692-718 | An answer to an incarnation that is over reaches its successor if and only if that one keeps the same tick on the same thread, and leaves it untouched if and only if it does not keep the tick |
| LpRuns.LateReplyMisdelivered | lp_task.c:77-113 | A concrete run with one tick used twice in which the first client's reply goes to the second client |
| Dictionaries.ComputeHash | confparser/dictionary.c:94-110 | The 32-bit hash of the key, for which the next two rows hold |
| DictionaryHash.KnownHashes | confparser/dictionary.c:94-110 | Its values for four keys, one of them with a character above 127 |
| DictionaryHash.OneCharacterDiffers | confparser/dictionary.c:94-110 | Two keys of one length that differ in one character never have the same hash: every step of it can be undone |
| Dictionaries.MemDouble | confparser/dictionary.c:44-55 | Twice the size, the old half kept, the new half zero |
| Dictionaries.Dictionary.constructor | confparser/dictionary.c:123-138 | The empty map, with at least 128 slots |
| Dictionaries.Dictionary.FindSlot | confparser/dictionary.c:181-199 | The slot of the key exactly if the map has it: equal keys have equal hashes, and unequal ones are told apart |
| Dictionaries.Dictionary.Get | confparser/dictionary.c:181-199 | The map's value, or the default |
| Dictionaries.Dictionary.Grow | confparser/dictionary.c:254-268 | Twice the slots, the same map |
| Dictionaries.Dictionary.FreeSlot | confparser/dictionary.c:270-276 | There is a free slot whenever fewer are used than there are |
| Dictionaries.Dictionary.Set | confparser/dictionary.c:227-282 | The map with that entry; nothing and -1 for a null key |
| Dictionaries.Dictionary.Unset | confparser/dictionary.c:295-330 | The map without that key |
| Dictionaries.EntrySet | confparser/dictionary.c:239-281 | Writing the slot of a key, or a free one, is an update of the map |
| Dictionaries.EntryUnset | confparser/dictionary.c:319-328 | Clearing a slot takes its key out of the map |
| Dictionaries.Perform | confparser/dictionary.c:181-330 | Any run of set, unset and get, doublings included, gives the results of the same run on a map |
| IniLine.Strlwc | confparser/iniparser.c:51-64 | The first 1024 characters, with 32 added to those from A to Z |
| IniLine.Strstrip | confparser/iniparser.c:79-96 | What stands between the blanks at both ends, with no blank at its own ends |
| IniLine.StripTrimmed | confparser/iniparser.c:79-96 | A string without blanks at its ends is left alone |
| IniLine.IniparserLine | confparser/iniparser.c:455-514 | The kind of the line and its section, key and value; what these are, by the characters of the line, is in the next three rows |
| IniMeaning.LineMeans | confparser/iniparser.c:468-512 | For every line, by its characters: it is empty, a comment, a section or an error exactly if it is blank, or its first character that is no blank is #, or it stands in brackets, or none of these and has no key before the first = |
| IniMeaning.SectionLineMeans | confparser/iniparser.c:476-481 | A section is what stands before the first closing bracket, without blanks and in lower case; without a name, the section before it |
| IniMeaning.EntryLineMeans | confparser/iniparser.c:482-508 | For every other line: the key is what stands before the first =, without blanks and in lower case, and the value what the text behind it gives |
| IniFile.Load | confparser/iniparser.c:530-629 | The dictionary that the lines of the file make, or null; what they make, by their characters, is in the rows of `IniMeaning` |
| IniMeaning.CommentsDropped | confparser/iniparser.c:591-594 | In any file, a comment line or a blank line can be left out without changing what is loaded |
| IniMeaning.BadLineFails | confparser/iniparser.c:605-628 | A file whose last line is neither a comment nor a section nor has a key is not loaded |
| IniMeaning.BadLineForgotten | confparser/iniparser.c:596-628 | Such a line changes nothing if a section or an entry follows it |
| IniMeaning.ValueForms | confparser/iniparser.c:482-496 | In a file with one section, for a key not led by [: `k = v ;text`, `k = v #text`, `k = "v"text` and the same with single quotes give the entry v, which in quotes may hold comment characters |
| IniMeaning.EmptyForms | confparser/iniparser.c:484-507 | In a file with one section: a key with nothing, a comment character or two quotes behind = gives the empty entry |
| IniMeaning.LinesJoin | confparser/iniparser.c:577-590 | A line that ends in a backslash and the one behind it are loaded as one |
| IniMeaning.LinesEnd | confparser/iniparser.c:564-575 | A file is not loaded if its last line has no end or a line has 1023 characters or more |
| IniFile.GetNSec | confparser/iniparser.c:116-131 | The number of keys without a colon |
| IniFile.GetSecName | confparser/iniparser.c:147-167 | The n-th of them in slot order, null outside |
| IniFile.DumpIni | confparser/iniparser.c:210-248 | Sections in slot order, each with its entries padded to 30 columns |
| IniEntry.EntryParsed | confparser/iniparser.c:455-514 | For every key and value: the printed line is parsed to them if and only if the key is trimmed, in lower case, without = and not led by #, the value is trimmed, has no comment character and no quote in front but a lone or a doubled one with more behind, and the line is not taken for a section |
| IniEntry.EntryKept | confparser/iniparser.c:564-622 | The loader, given the printed line, adds exactly that entry if and only if all this holds and the value does not end in a backslash |
| IniEntry.SectionParsed | confparser/iniparser.c:471-476 | A printed section line is parsed to its name if and only if the name is trimmed, in lower case and without a closing bracket; an empty one stands for the section before it |
| IniRoundTrip.RoundTrip | confparser/iniparser.c:210-248 | Loading what was printed gives the same map, missing values read back as empty, for every well-formed dictionary |
| IniRoundTrip.SaveAndLoad | confparser/iniparser.c:530-629 | The same for the two procedures themselves |
| IniRoundTrip.SmallDictionary | confparser/iniparser.c:210-248 | There are well-formed dictionaries with entries |
| IniPlain.PlainRoundTrip | confparser/iniparser.c:218-228 | A dictionary without sections whose keys and values the parser gives back is loaded with a colon before every key and the text (null) for every null value, so it comes back exactly if it is empty |
| IniExact.OneEntry | confparser/iniparser.c:210-248 | A dictionary of one section with one entry is loaded as it was printed if and only if the entry is as EntryOk says |
| IniExact.CommentLost | confparser/iniparser.c:483-485 | A dictionary whose value has a comment character is loaded as another one |
| IniExact.QuotesLost | confparser/iniparser.c:483-485 | A quoted value loses its quotes, a lone quote stays |
| Arc4.Generator.constructor | libevent-2.0.20-stable/arc4random.c:95-104 | The identity permutation, both indices 0 |
| Arc4.Generator.GetByte | libevent-2.0.20-stable/arc4random.c:408-420 | i goes up by one, j by entry i, the two entries are swapped, and the byte is the entry at their sum; the state stays a permutation |
| Arc4.Generator.GetWord | libevent-2.0.20-stable/arc4random.c:422-433 | Four bytes, the first one highest |
| Arc4.Generator.AddRandomBytes | libevent-2.0.20-stable/arc4random.c:106-121 | 256 rounds keyed by the data, repeated as needed, and j set to i; the state stays a permutation |
| Arc4.Generator.AddAll | libevent-2.0.20-stable/arc4random.c:448-463 | All of the input is absorbed, 256 bytes at a time |
| Arc4.Reversible | libevent-2.0.20-stable/arc4random.c:408-420 | A step keeps a permutation and can be undone |
| Arc4.Reachable | libevent-2.0.20-stable/arc4random.c:408-420 | Every state comes from another one: a step is a bijection on states |
| Arc4.EveryByte | libevent-2.0.20-stable/arc4random.c:95-121 | A permutation holds every byte |
| Arc4.EveryByteAbsorbed | libevent-2.0.20-stable/arc4random.c:448-463 | Byte k of the input is the key byte of round k mod 256 of window k div 256, whose result the rest of the input goes on from |
| Arc4.OneByteMatters | libevent-2.0.20-stable/arc4random.c:106-121 | Two inputs of any one length that differ in byte k lead to different states from round k + 1 on until the byte is used again |
| Arc4.ResetMerges | libevent-2.0.20-stable/arc4random.c:120 | The final reset of j can lose byte 254: two windows that differ in it alone leave the same state behind, from the state of arc4_init |
| Arc4.LastByteMatters | libevent-2.0.20-stable/arc4random.c:106-121 | It never loses byte 255: windows that differ in it alone leave different states behind |
| Arc4.ThresholdIs | libevent-2.0.20-stable/arc4random.c:505-521 | On both branches the 32-bit computation gives 2^32 mod bound, and more than half of all words are accepted |
| Arc4.HitsBlocks | libevent-2.0.20-stable/arc4random.c:505-538 | Any n blocks of `bound` words in a row hold each residue n times |
| Arc4.Unbiased | libevent-2.0.20-stable/arc4random.c:505-538 | Every number below the bound is the result of exactly (2^32 - threshold) / bound of the accepted words |
| Arc4.Uniform | libevent-2.0.20-stable/arc4random.c:505-538 | The residue of the first word that is not below the threshold; 0 for bounds below 2 |
| CircleQueue.CircleQ.constructor | include/ldap_queue.h:493-496 | The empty queue |
| CircleQueue.CircleQ.InsertAfter | include/ldap_queue.h:503-511 | The sequence with the entry behind the other one; only three entries' links change |
| CircleQueue.CircleQ.InsertBefore | include/ldap_queue.h:513-521 | The sequence with the entry before the other one |
| CircleQueue.CircleQ.InsertHead | include/ldap_queue.h:523-531 | The sequence with the entry in front |
| CircleQueue.CircleQ.InsertTail | include/ldap_queue.h:533-541 | The sequence with the entry at the end |
| CircleQueue.CircleQ.Remove | include/ldap_queue.h:549-560 | The sequence without the entry |
| CircleQueue.CircleQ.Forward | include/ldap_queue.h:483-486 | Walking forwards visits the sequence |
| CircleQueue.CircleQ.Backward | include/ldap_queue.h:488-491 | Walking backwards visits its reverse |
| CircleQueue.CircleQ.Run | include/ldap_queue.h:493-560 | After any legal run the two walks give the sequence and its reverse |
| CircleQueue.SpelledInserted | include/ldap_queue.h:503-541 | Linking an entry in between two neighbours spells the sequence with it, wherever it goes |
| CircleQueue.SpelledRemoved | include/ldap_queue.h:549-560 | Linking the two neighbours spells the sequence without it |
| CircleQueue.LinksRestored | include/ldap_queue.h:503-560 | Removing what was inserted restores every link but the entry's own |
| CircleQueue.OtherQueues | include/ldap_queue.h:503-560 | Queues over other entries keep their sequences |
| TailQueue.TailQ.constructor | include/ldap_queue.h:222-225 | The empty queue, its tail pointer at its own first field |
| TailQueue.TailQ.InsertHead | include/ldap_queue.h:242-246 | The sequence with the entry in front; the tail pointer moves if it was empty |
| TailQueue.TailQ.InsertTail | include/ldap_queue.h:248-252 | The sequence with the entry at the end, written through the tail pointer |
| TailQueue.TailQ.InsertAfter | include/ldap_queue.h:254-258 | The sequence with the entry behind the other one |
| TailQueue.TailQ.RemoveHead | include/ldap_queue.h:262-266 | The sequence without its first entry |
| TailQueue.TailQ.RemoveHeadUntil | include/ldap_queue.h:268-271 | The sequence behind the entry |
| TailQueue.TailQ.Before | include/ldap_queue.h:278-280 | The scan stops at the entry before, without a null link on the way |
| TailQueue.TailQ.Remove | include/ldap_queue.h:273-285 | The sequence without the entry; the tail pointer addresses the final next link |
| TailQueue.TailQ.Run | include/ldap_queue.h:222-285 | After any legal run the walk gives the sequence and the tail pointer addresses the final next link |
| TailQueue.SpelledInserted | include/ldap_queue.h:242-258 | An entry linked in anywhere: the links spell the longer sequence |
| TailQueue.SpelledRemoved | include/ldap_queue.h:262-285 | An entry bypassed: the links of the sequence without it |
| TailQueue.OtherQueues | include/ldap_queue.h:242-285 | Queues over other entries keep their sequences |

## Left out

- EvQueue.Add: where it aborts, nothing is said of the memory, and builds without assertions are not modelled.
- EvRead.ExpandFast: the source asserts n >= 2, and so does the model; expanding by more than one chunk for callers other than evbuffer_read is the same function.
- EvLines.Session: with style ANY it asks that no read cuts a run of CR and LF; `EvLines.CutMatters` gives the exact condition at each cut.
- IniRoundTrip.RoundTrip: for dictionaries whose sections hold no value and whose entries all belong to one; `IniEntry.EntryKept` and `IniExact.OneEntry` say exactly which entries come back.
- Arc4.Uniform: the words come as a finite sequence instead of from the generator, and the result may be to draw again.
- Chunks as addresses in a map instead of objects: updates in place and aliasing are modelled, C object layout is not.
- Pinned, immutable, reference, sendfile and mmap chunks, freezing, locks, reference counts and deferred callbacks.
- evbuffer_commit_space, evbuffer_peek, evbuffer_reserve_space, evbuffer_write and the printf family.
- Failing allocation, and wrap-around of size_t: byte counts are unbounded.
- Callbacks that change the buffer they are called for.
- BER encoding and decoding, entry attributes, and the request tags that make the proxy abort: a request is what the decoder gives, a reply is its messages.
- The choice of worker and thread in turn, and ticks from the clock: inputs of a step. Distinctness of ticks is a hypothesis where it is used.
- Failing pushes to a queue, failing event registration and removal, and the teardown of all connections.
- The unsynchronised task counter and the BUSY state.
- Whether every closed connection is freed in the end: not claimed by the code, which returns before the close label after a failed read of requests.
- Names and lines longer than the fixed buffers of iniparser: `WellFormed` excludes them, and the loader is modelled with its own limit on a line.
- The continuation test at the end of an empty line in iniparser_load, which looks at the character before the line: modelled as no continuation.
- iniparser_load_mem, the typed getters, and NUL characters inside strings.
- Seeding, stirring and arc4random_buf.
- The TAILQ, LIST and SLIST macros, the `_LAST` and `_PREV` macros, and the entry initialisers.
