# libevent 2.0.21: a verified model of its data paths

The repository vendors the event library libevent (`common/dep/libevent-2.0.21-stable`). This
project models the parts of it that carry data and state, in the form they have there: chunks,
rings, tables and counters are objects that methods change in place, with the loops and branches of
the C code. Each such method is proved against a statement about plain values (byte strings, sets,
maps, lists), and what the library is for is proved about those.

* **evbuffer** (`Bytes`, `Lists`, `Chains`, and the modules `Evbuffer...`). A byte queue kept as a linked list of chunks with
  slack at both ends, a cached length and the pointer-to-pointer `last_with_datap`. `Chains.Rep`
  is the representation invariant; the flat content of a buffer is `Flatten` of its pieces.
  Adding, prepending, draining, copying out, moving between buffers, pulling up, reserving and
  committing, searching and reading lines all refine one flat byte string. `EvbufferCases` holds
  the concrete runs on which something goes wrong.
* **Interest in descriptors** (`Epoll`, `Evmap`). Counters and event lists for each descriptor, the
  changelist that batches changes for `epoll`, and a model of the kernel's registrations, which go when
  a descriptor is closed. The main result is that batching changes nothing.
* **Rate limits** (`Division`, `Directions`, `TokenBucket`, `RateLimitModel`, `RateLimit`, `RateLimitRuns`,
  `RateLimitWindow`, `RateLimitLaws`).
  Token buckets in machine words, the suspend flags and refill timer of a bufferevent, and groups
  whose members may be locked by others. The main results are that no wakeup is lost, that the timer
  alone resumes a group and reaches its members, that a group which may go on has something left, and that no window of time lets more through than
  burst and rate.
* **DNS** (`DnsNames`, `DnsCompress`, `DnsRings`, `DnsModel`, `DnsRequests`, `DnsRuns`, `DnsModelLaws`,
  `Nameservers`, `NameserverRuns`). The decoder and the compressing encoder of names (section 4.1.4 of RFC 1035), the
  table of requests in flight with its waiting queue, and the ring of nameservers. Any run of calls on
  the linked structures refines the same run on plain lists of numbers, and there no request is lost,
  doubled or overtaken, a new one goes out exactly while there is room for it, and no server that is down is picked while one is up.
* **Tagged records** (`TagCodec`, `Tagging`, `TaggingLaws`). Integers in nibbles, tags in groups of seven bits, and
  records, on top of the proved evbuffer operations.
* **Random numbers** (`Arc4Random`). The generator's state and the theorem that
  `arc4random_uniform` has no bias; a step of stirring can be taken back and tells its byte.
* **Paired bufferevents** (`Pair`, `PairLaws`). A FIFO channel with a watermark and the callback that
  minds it, again on evbuffer operations; nothing arrives at an end that does not read.

## How to read it

A linked structure is passed together with its layout: `cs` is the list of chunks (or `rs`, `ns` the
ring) and `vs` the bytes that each chunk stores; both are ghost, and a method returns the new ones.
A chunk's memory is a field of the chunk, since the source allocates both as one block.
`IsTight` says that no chunk is empty but perhaps a single one, `NoSpare` that no chunk follows the
last one with data; tight buffers have none to spare. Where the
reading and the writing half of a function mirror each other there is one method with a direction.

Integers are unbounded; where the width matters it is written out: 32-bit ticks, tags and random
words, 64-bit limits and sizes (words of 64 bits are assumed), 16-bit counters and ids, bytes as a
subset of the integers. Bit operations are arithmetic on them. The clock is a parameter, so is the
list of random numbers (the model stops when it is used up), and `busy` is the set of bufferevents
whose locks a step fails to take.

## What the proofs found

* `evbuffer_remove_buffer` can leave `last_with_datap` of the source before the data: passing over an
  empty first chunk sets it back to `&first`, but the chunk stays in the list when no byte was in
  those passed over (`buffer.c:1117-1130`). This happens if and only if bytes stay behind, the first
  chunk is empty and all data is in one chunk; a reservation of two chunks of which only the second
  is used leads there (`RemoveLosesSlot`), and the next `evbuffer_add` that needs a chunk runs into
  the assertion of `evbuffer_chain_insert` (`AddHaltsAfterRemoving`).
* It can do the same to the destination, when an empty chunk moves before data (`buffer.c:1130-1148`).
  `RemoveBuffer` says exactly when. A reservation of three chunks of which the first is committed
  without a byte is such a source: moved whole behind a byte it leaves `last_with_datap` before the
  empty chunk (`RemoveBehindGap`), and with more bytes to follow than the last chunk moved has room for
  it runs into the assertion (`RemoveHaltsBehindGap`).
* `evbuffer_add` writes to the last chunk of the list. With spare empty chunks behind the data it
  can leave `last_with_datap` before the data (`buffer.c:1547-1554`), or run into that assertion
  (`buffer.c:304`). `AddSpecMeans` gives both conditions exactly; two reservations on a new buffer
  lead to either (`AddBehindAfterReserving`, `AddHaltsAfterReserving`).
* `evbuffer_commit_space` accepts a single vector in the last chunk wherever that is
  (`buffer.c:676-688`); more than one chunk behind the data `last_with_datap` stays behind.
  `CommitSpace` gives the condition exactly. Vectors that begin at the first chunk with room, as
  `evbuffer_reserve_space` gives them out, are safe; but a caller who gets three and commits only the
  last one meets it (`CommitOnlyLast`).
* But `evbuffer_commit_space` can reject the single vector that `evbuffer_reserve_space` has given
  out: when that is in the chunk behind one with a little room (`buffer.c:1776-1784`), and another
  chunk follows. `ReserveOne` gives the condition exactly, `ReservedIsRejected` such a layout.
* Without chunks pinned for reading the first test in the loop of `evbuffer_drain` (`buffer.c:988`)
  never holds; with them the loop is also used to drain everything (`buffer.c:976-982`). The first
  test in `PREPEND_CHAIN` (`buffer.c:848`) never holds.
* `ev_token_bucket_update` cuts a limit to its maximum only by way of the unsigned division: a limit
  above its maximum, as a refund to a bucket can make it, is raised further.
  `RaiseIsMinExactly` says when.
* `dnsname_to_labels` accepts names with empty labels, and what it writes ends at the first of them.
  A name comes back if and only if it has none (`MeaningIsName`).
* The zero that ends a name is written without a look at the length of the buffer
  (`evdns.c:1637`), so the model's buffer is one byte longer than the length it is given. It is
  written there, one byte too far, if and only if `Overruns` holds: the labels are short, the table
  knows no suffix of the name, the bytes up to the zero just fit, and the name does not end with a
  dot. "abc" into four bytes is such an input (`OneByteTooFar`).
* The comment on encoded integers calls the order of nibbles big-endian (`event_tagging.c:89-90`);
  the code puts the least significant first, and so does the model. The same comment writes the tag
  0x166 as 82 66 (`event_tagging.c:83-85`); the code makes it E6 02 (`TagExamples`).
* With a `min_share` of 0 the timer resumes a group whose limit is 0 (`bufferevent_ratelim.c:541-548`,
  `GoesOnWithNothing`); `RunSolvent` shows that with any other `min_share` a direction that may go on
  always has something left.
* `be_pair_transfer` with `ignore_wm` still stops at the watermark when the input is below it.
* A writer that is enabled while it is suspended is asked for by nobody: bytes that were waiting go
  out only with a later step (`EnabledUnasked`). `NoneLeftWaiting` shows that this is the only such
  step, reading and moving the watermark included.
* `evdns_base_clear_nameservers_and_suspend` puts each bucket's requests in reverse order in front
  of the queue.

## Model

| member | source | states |
|---|---|---|
| `Chains.LastDataIs` | common/dep/libevent-2.0.21-stable/evbuffer-internal.h:84-97 | The description of the last chunk with data fits exactly one place in the list: the recursive definition used everywhere agrees with every place that satisfies it. |
| `Chains.LastWithDataIsNth` | common/dep/libevent-2.0.21-stable/evbuffer-internal.h:84-97 | Following `last_with_datap` in the linked list leads to the chunk that the layout says it should, or to NULL behind the end. |
| `Chains.SlotIsOne` | common/dep/libevent-2.0.21-stable/evbuffer-internal.h:84-97 | The slot that `last_with_datap` addresses determines the chunk: it cannot name two places of one list. |
| `EvbufferAppend.ChainNew` | common/dep/libevent-2.0.21-stable/buffer.c:155-181 | A new chunk is empty, unlinked, holds at least `size` bytes and is less than twice as large as header and data need (or of minimal size). |
| `EvbufferAppend.ChainAlign` | common/dep/libevent-2.0.21-stable/buffer.c:1695-1701 | Realigning moves the stored bytes to the front of the memory and stores the same bytes. |
| `EvbufferAppend.ChainsAllEmpty` | common/dep/libevent-2.0.21-stable/buffer.c:241-262 | True exactly when no chunk from here on stores anything. |
| `EvbufferAppend.ChainInsert` | common/dep/libevent-2.0.21-stable/buffer.c:283-311 | The new chunk takes the place of the first chunk from the last one with data on that stores nothing, and of all that follow; the assertion fires exactly when one of those is not empty, and then nothing has changed; last_with_datap, last and total_len follow. |
| `EvbufferAppend.AddTo` | common/dep/libevent-2.0.21-stable/buffer.c:1534-1617 | evbuffer_add on any buffer with a chunk, spare empty chunks included, does what the specification function AddSpec says: contents, list, total_len and last_with_datap, or the assertion fires. |
| `EvbufferAppend.AddSpecMeans` | common/dep/libevent-2.0.21-stable/buffer.c:1534-1617 | What that means: the assertion fires if and only if AddHalts (the last chunk is a spare one whose memory is not all misalignment, the data is longer than that memory, and another spare chunk stands before it, or there is no data at all); otherwise the content grows by exactly the data, and last_with_datap stays exact if and only if AddKeepsSlot. Both conditions can be checked before the call. |
| `EvbufferAppend.AddBehind` | common/dep/libevent-2.0.21-stable/buffer.c:1534-1617 | And where last_with_datap stands before the data, next to an empty chunk: the assertion fires if and only if the data does not fit in the last chunk, and otherwise last_with_datap stays behind. |
| `EvbufferAppend.AddAny` | common/dep/libevent-2.0.21-stable/buffer.c:1534-1617 | evbuffer_add on every buffer, without chunks and wherever last_with_datap stands, does what the specification function says. |
| `EvbufferAppend.Add` | common/dep/libevent-2.0.21-stable/buffer.c:1534-1617 | Without spare chunks evbuffer_add always succeeds, gives content + data, and keeps the whole representation invariant and tightness. |
| `EvbufferCases.ReserveTwice` | common/dep/libevent-2.0.21-stable/buffer.c:613-643 | Two reservations on a new buffer leave two empty chunks. |
| `EvbufferCases.AddHaltsAfterReserving` | common/dep/libevent-2.0.21-stable/buffer.c:283-311 | On them evbuffer_add of more than the last one holds runs into the assertion: a run that shows AddHalts. |
| `EvbufferCases.AddBehindAfterReserving` | common/dep/libevent-2.0.21-stable/buffer.c:1547-1554 | And a single byte goes into the second one, while last_with_datap stays at the first: a run that shows where AddKeepsSlot fails. |
| `EvbufferPrepend.Prepend` | common/dep/libevent-2.0.21-stable/buffer.c:1620-1691 | evbuffer_prepend gives data + content on every buffer in order, spare chunks or not, whether the data fits in front, fits partly or needs a new first chunk; the invariant is kept, last_with_datap re-targeted. |
| `EvbufferDrain.Drain` | common/dep/libevent-2.0.21-stable/buffer.c:951-1017 | evbuffer_drain leaves the content from min(n, length) on, frees whole chunks only, and keeps the invariant also when last_with_datap was in a freed chunk. |
| `EvbufferDrain.FreeChunks` | common/dep/libevent-2.0.21-stable/buffer.c:978-1003 | The freeing loop stops inside the chunk where the n-th byte stands; a last_with_datap in or at a freed chunk falls back to `&first`, otherwise it is untouched. |
| `EvbufferDrain.Copyout` | common/dep/libevent-2.0.21-stable/buffer.c:1035-1078 | The first min(n, length) bytes are copied in order across chunks, the rest of the memory is untouched, and so is the buffer. |
| `EvbufferDrain.Remove` | common/dep/libevent-2.0.21-stable/buffer.c:1021-1032 | What is copied out followed by what is left is the old content. |
| `EvbufferMove.AppendChain` | common/dep/libevent-2.0.21-stable/buffer.c:827-838 | The lists are joined end to end and last_with_datap comes from the source list, re-targeted to the joining slot when it was `&first`. |
| `EvbufferMove.PrependChain` | common/dep/libevent-2.0.21-stable/buffer.c:841-856 | The lists are joined the other way round; last_with_datap moves to the joining slot when it was `&first`. |
| `EvbufferMove.AddBuffer` | common/dep/libevent-2.0.21-stable/buffer.c:859-902 | out becomes out + in, in becomes empty, no chunk is lost or shared, both invariants and tightness hold; a buffer added to itself is unchanged. |
| `EvbufferMove.PrependBuffer` | common/dep/libevent-2.0.21-stable/buffer.c:905-948 | out becomes in + out, in becomes empty, with the same guarantees. |
| `EvbufferRemove.WalkMoved` | common/dep/libevent-2.0.21-stable/buffer.c:1117-1128 | The chunks that move whole end before the one where the n-th byte stands, and a last_with_datap in the next slot of one of them falls back to `&first`. |
| `EvbufferMove.FreeTrailingEmpty` | common/dep/libevent-2.0.21-stable/buffer.c:265-278 | The slot returned is that of the first empty chunk at or behind the last one with data, and the list is cut there. |
| `EvbufferMove.AdvanceLastWithData` | common/dep/libevent-2.0.21-stable/buffer.c:646-659 | last_with_datap moves on over chunks with data and stops before the first empty one, so one empty chunk hides data behind it. |
| `EvbufferRemove.AdvanceMeans` | common/dep/libevent-2.0.21-stable/buffer.c:646-659 | So it gets to the last chunk with data if and only if no empty chunk stands on the way. |
| `EvbufferRemove.MovedMeans` | common/dep/libevent-2.0.21-stable/buffer.c:1130-1148 | The chunks that move whole come behind the data of the destination; its last_with_datap catches up with them if and only if NoGap: no empty chunk moves before data, but perhaps the first one into a buffer without data. |
| `EvbufferRemove.LosesIff` | common/dep/libevent-2.0.21-stable/buffer.c:1117-1128 | The walk ends on the last chunk with data, past nothing but empty ones, if and only if the first chunk is empty and all data is in one chunk. |
| `EvbufferRemove.RemoveMeans` | common/dep/libevent-2.0.21-stable/buffer.c:1130-1153 | Whole chunks and then evbuffer_add: what becomes of the destination, when the assertion fires, and when last_with_datap stays exact, for all pieces. |
| `EvbufferRemove.RemoveBuffer` | common/dep/libevent-2.0.21-stable/buffer.c:1084-1171 | evbuffer_remove_buffer on any two buffers, with empty and spare chunks anywhere: exactly the first min(n, length) bytes go from the source to the end of the destination, also when a chunk is split, and the two share no chunk; the result is the number moved, 0 for one and the same buffer. Exactly when the assertion of evbuffer_chain_insert fires (RemoveHalts), when last_with_datap of the destination stays exact (RemoveKeeps), and when that of the source does: unless bytes stay, the first chunk is empty and all data is in one chunk (LosesSlot). |
| `EvbufferRemove.RemoveTight` | common/dep/libevent-2.0.21-stable/buffer.c:1084-1171 | Buffers without empty chunks stay so, with the full invariant, and nothing of that can happen to them. |
| `EvbufferCases.CommitSecond` | common/dep/libevent-2.0.21-stable/buffer.c:662-729 | Two bytes committed in the second of two empty chunks: the invariant holds. |
| `EvbufferCases.RemoveLosesSlot` | common/dep/libevent-2.0.21-stable/buffer.c:1117-1128 | One of them removed by evbuffer_remove_buffer: last_with_datap of the source goes back to the empty first chunk. |
| `EvbufferCases.AddHaltsAfterRemoving` | common/dep/libevent-2.0.21-stable/buffer.c:283-311 | And the next evbuffer_add that needs a chunk runs into the assertion. |
| `EvbufferPullup.Swallow` | common/dep/libevent-2.0.21-stable/buffer.c:1244-1258 | The copy loop takes in every chunk that is wanted whole and reports exactly whether it freed the last chunk with data, and whether it freed the one whose next slot last_with_datap was. |
| `EvbufferPullup.PulledContent` | common/dep/libevent-2.0.21-stable/buffer.c:1244-1267 | Pieces swallowed whole, in part or not at all: the flat content is the same and the first piece has exactly the size asked for. |
| `EvbufferPullup.PulledSlot` | common/dep/libevent-2.0.21-stable/buffer.c:1269-1276 | Where the last chunk with data stands afterwards, in each case: swallowed, partly swallowed, or further back. |
| `EvbufferPullup.FixSlot` | common/dep/libevent-2.0.21-stable/buffer.c:1269-1276 | The three-way repair of last_with_datap. |
| `EvbufferPullup.Pullup` | common/dep/libevent-2.0.21-stable/buffer.c:1174-1283 | Fails exactly for nothing or for more than there is; otherwise the first chunk holds at least the bytes wanted, which are the first of the content; content and invariant (last_with_datap in every case) are unchanged. |
| `EvbufferReserve.ExpandFast` | common/dep/libevent-2.0.21-stable/buffer.c:1831-1935 | For n >= 2 the content is unchanged, the invariant holds and the first at most n chunks with room have datlen bytes together, whichever branch is taken. |
| `EvbufferReserve.ReadSetupVecs` | common/dep/libevent-2.0.21-stable/buffer.c:2002-2035 | At most n vectors; each begins right behind the stored bytes of its chunk and stays in its memory; together they have at least the length asked for, exactly that if so asked. |
| `EvbufferReserve.ReserveSpace` | common/dep/libevent-2.0.21-stable/buffer.c:613-643 | For two or more vectors: reserving changes no stored byte and yields vectors, none of them empty, that begin at the first chunk with room and that evbuffer_commit_space will accept. |
| `EvbufferExpand.ExpandSingle` | common/dep/libevent-2.0.21-stable/buffer.c:1719-1826 | evbuffer_expand_singlechain in all its branches (use, realign, use the next, resize, replace): content and invariant are unchanged, the chunk found has room for datlen bytes, and it is the last of the list or the first with room, unless UsesNext. |
| `EvbufferExpand.Resize` | common/dep/libevent-2.0.21-stable/buffer.c:1790-1815 | A larger chunk with the same bytes takes the place of the last one with data, and last_with_datap still addresses it. |
| `EvbufferExpand.InsertNew` | common/dep/libevent-2.0.21-stable/buffer.c:313-321 | Behind the data an empty chunk can always be inserted: the assertion does not fire. |
| `EvbufferExpand.ReserveOne` | common/dep/libevent-2.0.21-stable/buffer.c:613-643 | For one vector: it begins right behind the stored bytes of its chunk and is long enough; evbuffer_commit_space will accept it, or less of it, if and only if it is not the case that the chunk behind one with some room was used and that is not the last chunk. |
| `EvbufferCases.ReservedIsRejected` | common/dep/libevent-2.0.21-stable/buffer.c:1776-1784 | A concrete layout for that case: the vector that was given out is rejected. |
| `EvbufferReserve.WriteInto` | common/dep/libevent-2.0.21-stable/buffer.c:613-643 | Writing into a reserved vector changes no stored byte of the buffer and no other vector. |
| `EvbufferReserve.CheckVecs` | common/dep/libevent-2.0.21-stable/buffer.c:699-708 | The first pass accepts exactly the vectors that are the space of consecutive chunks and fit. |
| `EvbufferReserve.CommitSpace` | common/dep/libevent-2.0.21-stable/buffer.c:662-729 | Accepts exactly a single vector that fits in the last chunk, or the space of consecutive chunks from the first with room. A rejected commit changes nothing; an accepted one appends exactly the bytes written, each vector to its own chunk; last_with_datap stays exact if and only if it is not the case that a single non-empty vector in the last chunk was committed more than one chunk behind the data. |
| `EvbufferCases.ReserveThrice` | common/dep/libevent-2.0.21-stable/buffer.c:613-643 | Three vectors reserved on a new buffer begin at its first chunk with room, and none is empty. |
| `EvbufferCases.CommitOnlyLast` | common/dep/libevent-2.0.21-stable/buffer.c:676-688 | A byte committed in the last of them alone is accepted, and last_with_datap stays behind: a run that shows that case. |
| `EvbufferCases.CommitWithGap` | common/dep/libevent-2.0.21-stable/buffer.c:710-729 | All three committed, the first without a byte: an empty chunk stands before the data, and the invariant holds. |
| `EvbufferCases.RemoveBehindGap` | common/dep/libevent-2.0.21-stable/buffer.c:1130-1148 | evbuffer_remove_buffer moves the first two chunks of that buffer whole behind a byte that the destination holds: its last_with_datap stays before the empty one, a run on which RemoveKeeps fails. |
| `EvbufferCases.RemoveHaltsBehindGap` | common/dep/libevent-2.0.21-stable/buffer.c:1150-1153 | With more bytes to move than the last such chunk has room for, evbuffer_add then runs into the assertion: a run that shows RemoveHalts. |
| `EvbufferSearch.PtrSet` | common/dep/libevent-2.0.21-stable/buffer.c:2411-2450 | Succeeds exactly for positions below the length, and then the chunk and offset denote that position. |
| `EvbufferSearch.PtrAdd` | common/dep/libevent-2.0.21-stable/buffer.c:2411-2450 | The same for a step forward from a position. |
| `EvbufferSearch.PtrMemcmp` | common/dep/libevent-2.0.21-stable/buffer.c:2457-2488 | 0 exactly when the bytes at the position are the pattern, in however many chunks they stand. |
| `EvbufferSearch.SearchLoop` | common/dep/libevent-2.0.21-stable/buffer.c:2497-2559 | The loop finds the leftmost match for every way the content is cut into chunks. |
| `EvbufferSearch.SearchRange` | common/dep/libevent-2.0.21-stable/buffer.c:2491-2559 | The leftmost occurrence at or after start that ends by end, or -1 exactly when there is none, also for an end whose chunk is NULL; the position returned denotes itself. The empty pattern is found at the start. |
| `EvbufferSearch.LeftmostMeans` | common/dep/libevent-2.0.21-stable/buffer.c:2491-2559 | The position answered is that of a match within the range, and no match within the range begins before it; -1 means that there is none. |
| `EvbufferLines.FindEolChar` | common/dep/libevent-2.0.21-stable/buffer.c:1318-1342 | The block-wise scan returns the first CR or LF of the memory. |
| `EvbufferLines.ScanTo` | common/dep/libevent-2.0.21-stable/buffer.c:1296-1364 | Both walks (evbuffer_strchr for LF, evbuffer_find_eol_char) stop at the first such byte of the flat content. |
| `EvbufferLines.StrSpn` | common/dep/libevent-2.0.21-stable/buffer.c:1367-1403 | Counts the maximal run of CR and LF bytes across chunks. |
| `EvbufferLines.GetChr` | common/dep/libevent-2.0.21-stable/buffer.c:1407-1413 | The byte at a position of the flat content. |
| `EvbufferLines.SearchCrlf` | common/dep/libevent-2.0.21-stable/buffer.c:1450-1465 | The CRLF scan ends, and finds the least position with LF or CR LF, in the right chunk; a bare CR is passed over. |
| `EvbufferLines.SearchEol` | common/dep/libevent-2.0.21-stable/buffer.c:1416-1488 | For each style: the first line end at or after start and its length, or -1 exactly when there is none; the position returned denotes itself in chunk and offset. |
| `EvbufferLines.FirstEolIsOne` | common/dep/libevent-2.0.21-stable/buffer.c:1416-1488 | That answer is unique: position and length are determined by content, style and start. |
| `EvbufferLines.StylesDiffer` | common/dep/libevent-2.0.21-stable/buffer.c:1416-1488 | What the four styles make of the bytes "a", CR, LF, LF. |
| `EvbufferLines.Readln` | common/dep/libevent-2.0.21-stable/buffer.c:1491-1527 | The line is the content before the first line end, closed with a zero; what remains is the content behind the terminator; without a line end the buffer is unchanged and the result is null. |
| `EvbufferLines.ReadAllLines` | common/dep/libevent-2.0.21-stable/buffer.c:1491-1527 | Reading LF lines until there is none: the lines, each with its LF, and the rest make up the old content; no line and no rest contains LF. |
| `EvbufferRuns.CallAny` | common/dep/libevent-2.0.21-stable/buffer.c:859-1691 | Each of eight calls on two tight buffers does to the flat contents what Step says and keeps both invariants and tightness. |
| `EvbufferRuns.RunAll` | common/dep/libevent-2.0.21-stable/buffer.c:859-1691 | Every run of such calls on two new buffers refines the same run on two byte strings: both contents, and all that evbuffer_remove gives out. |
| `EvbufferRuns.RunConserves` | common/dep/libevent-2.0.21-stable/buffer.c:859-1691 | In every run, what was put in is in one of the buffers or has left: no byte is lost or made up. |
| `EvbufferRuns.PipeOrder` | common/dep/libevent-2.0.21-stable/buffer.c:859-1691 | Two buffers used as a pipe are a FIFO: in every run of adding to the first, moving on by evbuffer_add_buffer and evbuffer_remove_buffer, and removing from the second, what was added is what was removed, then the second content, then the first. |
| `EvbufferRuns.FrontUndone` | common/dep/libevent-2.0.21-stable/buffer.c:905-1691 | What evbuffer_prepend or evbuffer_prepend_buffer put in front is what is drained or removed next, and that undoes the call. |
| `EvbufferRuns.EndWaits` | common/dep/libevent-2.0.21-stable/buffer.c:859-1617 | What evbuffer_add or evbuffer_add_buffer put at the end comes out behind all that was there. |
| `EvbufferRuns.MoveMeans` | common/dep/libevent-2.0.21-stable/buffer.c:1083-1171 | evbuffer_remove_buffer is evbuffer_remove and evbuffer_add in one, evbuffer_add_buffer when it takes all; what stays behind is exact, and two moves are one of both amounts. |
| `Epoll.Kernel.EpollCtl` | common/dep/libevent-2.0.21-stable/epoll.c:260-330 | The kernel side: a closed descriptor gives EBADF, adding a registered one EEXIST, changing or deleting an unregistered one ENOENT, and refusals are counted. |
| `Epoll.Kernel.Close` | common/dep/libevent-2.0.21-stable/epoll.c:223-234 | Closing a descriptor drops its registration, which the changelist is not told. |
| `Epoll.ChooseOp` | common/dep/libevent-2.0.21-stable/epoll.c:174-262 | The call is DEL exactly when no interest is left, ADD exactly when something is added to nothing, MOD otherwise, and its events are what is left. |
| `Epoll.ApplyOneChange` | common/dep/libevent-2.0.21-stable/epoll.c:174-330 | Whatever was registered, afterwards exactly the interest the change leaves is, retries and closed descriptors included; it fails if and only if something is wanted of a closed descriptor. If the change knew the truth about the old interest no call is refused on the way, and never more than one. |
| `Evmap.UnionIsCounted` | common/dep/libevent-2.0.21-stable/evmap.c:286-304 | The two counters of a descriptor say exactly whether some event on it wants to read, and to write. |
| `Evmap.InverseIndex` | common/dep/libevent-2.0.21-stable/evmap.c:527-554 | idxplus1 is the exact inverse of the changelist, which names no descriptor twice. |
| `Evmap.OneFdSteps` | common/dep/libevent-2.0.21-stable/evmap.c:263-387 | A step that touches one descriptor and one change only keeps the invariant of all descriptors if it keeps it for that one. |
| `Evmap.EventBase.MakeSpace` | common/dep/libevent-2.0.21-stable/evmap.c:202-223 | The slot exists afterwards, no list of events has changed. |
| `Evmap.EventBase.Grow` | common/dep/libevent-2.0.21-stable/evmap.c:590-609 | The array of changes gets longer and keeps what it had. |
| `Evmap.EventBase.GetOrConstruct` | common/dep/libevent-2.0.21-stable/evmap.c:616-644 | The change of the descriptor that was there, or a new one that remembers the old interest; only this slot and this change are touched. |
| `Evmap.EventBase.ChangelistAdd` | common/dep/libevent-2.0.21-stable/evmap.c:647-675 | With the pending changes made, the kernel will watch for the old interest and the new one together. |
| `Evmap.EventBase.ChangelistDel` | common/dep/libevent-2.0.21-stable/evmap.c:678-726 | With the pending changes made, the kernel will watch for the old interest without what is deleted; deleting what a pending change adds cancels it. |
| `Evmap.EventBase.NochangelistAdd` | common/dep/libevent-2.0.21-stable/epoll.c:352-367 | The same at once, without the list; no call is refused. |
| `Evmap.EventBase.NochangelistDel` | common/dep/libevent-2.0.21-stable/epoll.c:370-383 | The same for deleting. |
| `Evmap.EventBase.IoAdd` | common/dep/libevent-2.0.21-stable/evmap.c:263-331 | The event is appended to the list of its descriptor, unless a counter would pass 0xffff; the result is 1 exactly when the union of wants changes; the invariant between events, changes and kernel holds. |
| `Evmap.RefusedIsFull` | common/dep/libevent-2.0.21-stable/evmap.c:286-304 | An event is refused exactly when a counter that it would raise stands at 65535. |
| `Evmap.EventBase.IoDel` | common/dep/libevent-2.0.21-stable/evmap.c:336-387 | The event leaves the list; the result is 1 exactly when the union of wants changes, -1 exactly beyond the table; the invariant holds. |
| `Evmap.EventBase.ApplyChanges` | common/dep/libevent-2.0.21-stable/epoll.c:333-349 | After the changes have been made every descriptor is settled: registered for what its counters want; and no more calls have been refused than registrations went with their descriptors. |
| `Evmap.EventBase.RemoveAll` | common/dep/libevent-2.0.21-stable/evmap.c:560-578 | Forgetting the changes clears every idxplus1 and no list of events. |
| `Evmap.EventBase.Dispatch` | common/dep/libevent-2.0.21-stable/epoll.c:402-403 | At every wait the kernel watches each descriptor for exactly the union of what its events want. |
| `Evmap.EventBase.Close` | common/dep/libevent-2.0.21-stable/epoll.c:265-303 | A descriptor without events may be closed while a change for it is pending and its registration is still there: the invariant holds, since that change takes nothing of the old interest for granted. |
| `Evmap.ClosedMeans` | common/dep/libevent-2.0.21-stable/epoll.c:265-303 | In a run a descriptor is closed exactly when it was closed with no event on it and has not been opened again since. |
| `Evmap.ClosedIsEmpty` | common/dep/libevent-2.0.21-stable/epoll.c:265-303 | In no run does an event come to a descriptor while it is closed. |
| `Evmap.Run` | common/dep/libevent-2.0.21-stable/evmap.c:263-726 | Any run of adding, deleting, waiting, closing and opening again, on the backend asked for, with or without the changelist, ends with lists, counters and kernel in agreement with the plain lists of events; calls are refused at most as often as a descriptor was closed while still registered. |
| `Evmap.RunBoth` | common/dep/libevent-2.0.21-stable/evmap.c:263-726 | Batching changes nothing: for every such run a base with the changelist and one without leave the kernel with identical registrations, equal to the union of wants; the one without never makes a refused call, the other at most one for each descriptor closed. |
| `TokenBucket.CfgNew` | common/dep/libevent-2.0.21-stable/bufferevent_ratelim.c:142-172 | A configuration is made exactly when 1 <= rate <= burst <= EV_SSIZE_MAX in both directions. |
| `TokenBucket.RaiseIsMin` | common/dep/libevent-2.0.21-stable/bufferevent_ratelim.c:95-104 | The division-based refill on 64-bit words equals min(maximum, limit + ticks * rate) without overflow whenever limit <= maximum. |
| `TokenBucket.RaiseIsMinExactly` | common/dep/libevent-2.0.21-stable/bufferevent_ratelim.c:95-104 | For arbitrary limits it does so if and only if limit <= maximum, or the refill goes round the whole word. |
| `TokenBucket.RaiseAboveMaximum` | common/dep/libevent-2.0.21-stable/bufferevent_ratelim.c:95-104 | Concretely: a limit of 11 with maximum 10 and rate 1 becomes 12 after a tick. |
| `TokenBucket.Update` | common/dep/libevent-2.0.21-stable/bufferevent_ratelim.c:73-110 | False and unchanged for no tick or more than INT_MAX ticks; otherwise both limits are refilled and the time is noted. |
| `TokenBucket.WrapTells` | common/dep/libevent-2.0.21-stable/bufferevent_ratelim.c:77-85 | The difference of two wrapping 32-bit ticks is the time passed, for up to INT_MAX ticks. |
| `TokenBucket.WentBack` | common/dep/libevent-2.0.21-stable/bufferevent_ratelim.c:97-103 | Time that has gone back, by up to half of the counter, counts as none. |
| `TokenBucket.RefilledTwice` | common/dep/libevent-2.0.21-stable/bufferevent_ratelim.c:73-110 | Updating at t1 and then at t2 is updating at t2. |
| `TokenBucket.Init` | common/dep/libevent-2.0.21-stable/bufferevent_ratelim.c:49-70 | A new bucket holds one tick of rate; a reinitialised one is cut to the new maximum and keeps its time. |
| `TokenBucket.BytesPaid` | common/dep/libevent-2.0.21-stable/bufferevent_ratelim.c:73-110 | Bytes of any run of allowed transfers are at most the limit at its start and the rate for each tick. |
| `TokenBucket.WindowBound` | common/dep/libevent-2.0.21-stable/bufferevent_ratelim.c:73-110 | And from one transfer on at most the burst and the rate for each tick since. |
| `RateLimitWindow.MoveSome` | common/dep/libevent-2.0.21-stable/bufferevent_ratelim.c:200-285 | A caller that moves at most what _bufferevent_get_read_max says and then decrements moves exactly min(wanted, max(0, refilled limit)); limit and time are as the unwrapped tick count says. |
| `RateLimitWindow.RunAlone` | common/dep/libevent-2.0.21-stable/bufferevent_ratelim.c:200-285 | In every run of such callers outside a group each transfer has exactly that size, the limit at the end is what the transfers leave of it, and in every window of the run the bytes moved are at most burst + ticks * rate, over wraps of the tick counter. |
| `RateLimit.Bufferevent.Suspend` | common/dep/libevent-2.0.21-stable/bufferevent.c:65-99 | The reason is added, and the backend runs exactly the directions that are enabled and have no reason to be suspended. |
| `RateLimit.Bufferevent.Unsuspend` | common/dep/libevent-2.0.21-stable/bufferevent.c:77-111 | The reason is taken away, with the same agreement. |
| `RateLimit.Bufferevent.Enable` | common/dep/libevent-2.0.21-stable/bufferevent.c:406-427 | Enabling keeps the agreement and loses no wakeup. |
| `RateLimit.Bufferevent.Disable` | common/dep/libevent-2.0.21-stable/bufferevent.c:497-510 | Disabling keeps the agreement and loses no wakeup. |
| `RateLimit.Bufferevent.DecrementOwn` | common/dep/libevent-2.0.21-stable/bufferevent_ratelim.c:275-296 | After a transfer the flag for bandwidth is set exactly when the limit is not positive, and the timer is pending exactly when a flag is set; no other reason changes. |
| `RateLimit.Bufferevent.DecrementLimit` | common/dep/libevent-2.0.21-stable/bufferevent_ratelim.c:901-954 | Manual decrements and refunds move the flag exactly when the limit crosses zero, and keep: the timer is pending exactly while a flag for bandwidth is set, and without the flag the limit is positive. |
| `RateLimit.Bufferevent.RefillCallback` | common/dep/libevent-2.0.21-stable/bufferevent_ratelim.c:396-441 | The timer callback refills, clears the flag exactly for the directions with a positive limit, and stays pending exactly while a flag is left. |
| `RateLimit.Bufferevent.RefillUntilAwake` | common/dep/libevent-2.0.21-stable/bufferevent_ratelim.c:396-441 | Left alone, the timer wakes the bufferevent in no more rounds than it is short of bytes. |
| `RateLimit.Bufferevent.SetRateLimit` | common/dep/libevent-2.0.21-stable/bufferevent_ratelim.c:559-635 | Setting, replacing, clearing or repeating a configuration: limit and flags are exactly those of the new configuration, every other reason for suspension stays, and no wakeup is lost. |
| `RateLimit.Bufferevent.GetRlimMax` | common/dep/libevent-2.0.21-stable/bufferevent_ratelim.c:200-260 | Outside a group: the refilled limit, not below 0; 16384 without a limit. |
| `RateLimit.Group.SuspendAll` | common/dep/libevent-2.0.21-stable/bufferevent_ratelim.c:352-391 | Suspending a group sets the flag of exactly the members whose lock is free. |
| `RateLimit.Group.UnsuspendFrom` | common/dep/libevent-2.0.21-stable/bufferevent_ratelim.c:473-484 | One stretch of FOREACH_RANDOM_ORDER visits exactly the members from one place to another. |
| `RateLimit.Group.UnsuspendAll` | common/dep/libevent-2.0.21-stable/bufferevent_ratelim.c:487-522 | From any random start every member is visited exactly once: the flag is cleared for all whose lock is free, and pending_unsuspend is set exactly when some lock was not. |
| `RateLimit.Group.Decrement` | common/dep/libevent-2.0.21-stable/bufferevent_ratelim.c:299-309 | The group is suspended if and only if its limit less the bytes is not positive; each member whose lock is free follows, the others are as they were, and nobody who stays behind is forgotten. |
| `RateLimit.Group.RefillCallback` | common/dep/libevent-2.0.21-stable/bufferevent_ratelim.c:528-556 | Limits, state and every member's flags after one tick are those of the plain model, whatever the random order and whichever locks are taken; an attempt that failed earlier is repeated. |
| `RateLimitModel.TimerMeans` | common/dep/libevent-2.0.21-stable/bufferevent_ratelim.c:528-556 | And there each direction is resumed exactly when it was suspended and its limit has reached min_share, and a member that can be told loses the flag exactly when its direction is resumed or somebody had been missed. |
| `RateLimit.Group.RefillOver` | common/dep/libevent-2.0.21-stable/bufferevent_ratelim.c:528-556 | The timer alone, over any number of ticks: a suspended direction is resumed exactly when its limit and the rates of the ticks so far come to min_share, and every member whose lock is free on that tick or a later one has lost the flag. |
| `RateLimit.ResumesWithin` | common/dep/libevent-2.0.21-stable/bufferevent_ratelim.c:528-556 | So no group stays suspended for more ticks than its limit is short of min_share. |
| `RateLimit.Group.SetMinShare` | common/dep/libevent-2.0.21-stable/bufferevent_ratelim.c:699-718 | min_share is never more than the rate of one tick, in either direction; too large a share is refused without a change. |
| `RateLimit.Group.SetCfg` | common/dep/libevent-2.0.21-stable/bufferevent_ratelim.c:668-697 | A new configuration cuts the limits and the share to size and keeps everything else; nobody is forgotten. |
| `RateLimitLaws.LeastShareMeans` | common/dep/libevent-2.0.21-stable/bufferevent_ratelim.c:709-716 | min_share is what was asked for, or the smaller of the two rates. |
| `RateLimitLaws.BegunMeans` | common/dep/libevent-2.0.21-stable/bufferevent_ratelim.c:41-66 | A bucket begins with the rate of one tick; one that is there already is only cut to its maximum. |
| `RateLimit.Group.JoinBegin` | common/dep/libevent-2.0.21-stable/bufferevent_ratelim.c:732-767 | Joining: from when the group gives up its lock, the member counts as bound to carry the flag that it has seen. |
| `RateLimit.Group.JoinEnd` | common/dep/libevent-2.0.21-stable/bufferevent_ratelim.c:768-775 | And then carries it in exactly those directions, even if the group has changed its mind meanwhile. |
| `RateLimit.Group.Leave` | common/dep/libevent-2.0.21-stable/bufferevent_ratelim.c:785-806 | Leaving removes exactly this member and clears its flags for the group. |
| `RateLimit.Group.GetRlimMax` | common/dep/libevent-2.0.21-stable/bufferevent_ratelim.c:200-260 | The smaller of own limit and share, 0 in a suspended group; all shares together fit in the limit of the group unless min_share raised them; the member is suspended if it had been missed. |
| `RateLimit.ShareMeans` | common/dep/libevent-2.0.21-stable/bufferevent_ratelim.c:243-252 | The share is min_share, or the most that all members together can have of the limit. |
| `RateLimitRuns.TransferStep` | common/dep/libevent-2.0.21-stable/bufferevent_ratelim.c:275-310 | A transfer by the thread that holds the member's lock does to all bufferevents and the group what the plain model says: its own bucket and the group's pay, its flag and everybody's flags follow the two limits as far as locks are free; the invariant is kept. |
| `RateLimitRuns.OwnStep` | common/dep/libevent-2.0.21-stable/bufferevent.c:65-562 | A step of one bufferevent changes that one as the plain model says, and nobody else; the invariant of the group is kept. |
| `RateLimitRuns.GroupTimerStep` | common/dep/libevent-2.0.21-stable/bufferevent_ratelim.c:528-556 | The group's timer between the steps of threads does what the plain model says, and keeps the invariant. |
| `RateLimitRuns.Run` | common/dep/libevent-2.0.21-stable/bufferevent_ratelim.c:275-806 | However steps of threads and timers follow each other, whichever locks cannot be taken, and whatever the random orders: all flags, limits, members and the state of the group are what the same run makes of plain values; a member that still carries the flag of a group that is not suspended will be tried again, because pending_unsuspend is set; and no bufferevent loses its own wakeup. |
| `RateLimitLaws.MovePays` | common/dep/libevent-2.0.21-stable/bufferevent_ratelim.c:275-296 | A transfer takes its bytes from the bucket of the one that makes it, which is suspended for bandwidth if and only if nothing is left; no other bucket changes. |
| `RateLimitLaws.MoveSuspends` | common/dep/libevent-2.0.21-stable/bufferevent_ratelim.c:299-309 | A transfer of a member suspends the group if and only if the limit of the group less the bytes is not positive; the other direction stays as it was. |
| `RateLimitLaws.MoveOutside` | common/dep/libevent-2.0.21-stable/bufferevent_ratelim.c:275-296 | A transfer of a bufferevent that is in no group leaves the group as it was. |
| `RateLimitLaws.MoveTells` | common/dep/libevent-2.0.21-stable/bufferevent_ratelim.c:352-391 | Each other member whose lock is free gets or loses the flag with the group, the others keep what they have, and the group remembers them when it goes on. |
| `RateLimitLaws.MoverTold` | common/dep/libevent-2.0.21-stable/bufferevent_ratelim.c:299-309 | The member that makes the transfer is told in any case. |
| `RateLimitLaws.RunSolvent` | common/dep/libevent-2.0.21-stable/bufferevent_ratelim.c:275-806 | In every run that never asks for a min_share of 0 a direction of the group that is not suspended has a positive limit. |
| `RateLimitLaws.GoesOnWithNothing` | common/dep/libevent-2.0.21-stable/bufferevent_ratelim.c:541-548 | With a min_share of 0 the timer resumes a group whose limit is 0. |
| `RateLimitModel.StepFollows` | common/dep/libevent-2.0.21-stable/bufferevent_ratelim.c:275-806 | With every lock free each step keeps: the members, and nobody else, carry the group's flag exactly while the group is suspended. |
| `RateLimitModel.RunFollows` | common/dep/libevent-2.0.21-stable/bufferevent_ratelim.c:275-806 | So in every run in which every lock can be taken and joining is not interrupted the flags of all members agree with the group, and nobody is missed. |
| `DnsNames.OneReading` | common/dep/libevent-2.0.21-stable/evdns.c:936-989 | Section 4.1.4 of RFC 1035 gives a position at most one name, along one number of pointers. |
| `DnsNames.LabelOnWire` | common/dep/libevent-2.0.21-stable/evdns.c:968-979 | A length byte of 1 to 63 stands before a label of as many bytes, and the name goes on behind it. |
| `DnsNames.ZeroOnWire` | common/dep/libevent-2.0.21-stable/evdns.c:957 | A zero ends the name. |
| `DnsNames.PointerOnWire` | common/dep/libevent-2.0.21-stable/evdns.c:958-967 | Two bytes that begin with two set bits are a pointer to the position that the other 14 bits say, high byte first. |
| `DnsNames.DotsBetween` | common/dep/libevent-2.0.21-stable/evdns.c:970-973 | Between two labels stands a dot, and nothing else is added. |
| `DnsNames.PointersOnTheWay` | common/dep/libevent-2.0.21-stable/evdns.c:936-989 | A name that can be read follows no pointer twice. |
| `DnsNames.JumpLimit` | common/dep/libevent-2.0.21-stable/evdns.c:965-967 | So the limit of one pointer for each byte of the packet rejects no name that can be read. |
| `DnsNames.NameParse` | common/dep/libevent-2.0.21-stable/evdns.c:936-989 | Ends on every packet, circles included; succeeds if and only if the position has a reading that leaves room for the closing zero; writes the labels joined by dots; the index goes behind the name as it stands. |
| `DnsCompress.LabelTable.GetPos` | common/dep/libevent-2.0.21-stable/evdns.c:1538-1546 | The position of an entry with that name, or -1 exactly when there is none. |
| `DnsCompress.LabelTable.Add` | common/dep/libevent-2.0.21-stable/evdns.c:1550-1564 | A table with 128 entries stays as it is; any other gets the entry. |
| `DnsCompress.NameToLabels` | common/dep/libevent-2.0.21-stable/evdns.c:1578-1641 | What has been written reads back, along pointers that lead backwards only, as the labels the name means, and so does every suffix in the table; nothing before the name changes; a name the table knows costs two bytes, and a name written is known unless the table was full. It succeeds if and only if Reaches: at most 255 bytes, short labels up to the longest suffix the table knows, and room; the result is one past the length of the buffer if and only if Overruns: no suffix is known, the bytes just fit, and the last label is not empty, so that the zero does not. |
| `DnsCompress.OutcomeMeans` | common/dep/libevent-2.0.21-stable/evdns.c:1578-1641 | What the result says, as conditions on the name: when there is one, how long the encoding is, and which error is given when there is none. |
| `DnsCompress.LongestLabel` | common/dep/libevent-2.0.21-stable/evdns.c:1595-1598 | A name without dots is accepted as a label up to 63 bytes. |
| `DnsCompress.OneByteTooFar` | common/dep/libevent-2.0.21-stable/evdns.c:1637 | Concretely: "abc" into a buffer of length 4 gives 5, the zero standing behind its end. |
| `DnsCompress.WriteTwice` | common/dep/libevent-2.0.21-stable/evdns.c:1578-1641 | So the second time a name takes two bytes, and both places read as the name. |
| `DnsCompress.MeaningIsName` | common/dep/libevent-2.0.21-stable/evdns.c:1578-1641 | A name reads back as itself if and only if no label of it is empty. |
| `DnsCompress.EmptyLabelEndsName` | common/dep/libevent-2.0.21-stable/evdns.c:1578-1641 | Concretely: "a..b" is accepted and reads back as "a". |
| `DnsCompress.Build` | common/dep/libevent-2.0.21-stable/evdns.c:1578-1641 | A message of names and other bytes, written with one table: every name stands where it was put, until the end; it succeeds when all names have at most 255 bytes in labels of at most 63 and the plain lengths fit, in at most that many bytes. |
| `DnsCompress.ReadName` | common/dep/libevent-2.0.21-stable/evdns.c:936-989 | Such a name is read back by name_parse from the packet alone, byte for byte if it has no empty label. |
| `DnsCompress.BuildAndRead` | common/dep/libevent-2.0.21-stable/evdns.c:936-989 | The round trip for whole messages: it succeeds under that condition, every name comes back, and name_parse ends just past its encoding. |
| `DnsCompress.RequestDataBuild` | common/dep/libevent-2.0.21-stable/evdns.c:1658-1682 | The query begins with the bytes of its id, high byte first, the flags 0x0100, and the counts 1, 0, 0, 0; the name stands at byte 12, type and class right behind it; it succeeds if and only if the name has at most 255 bytes in labels of at most 63 and the message fits, and its length is then 16 bytes and the name. |
| `DnsRings.Insert` | common/dep/libevent-2.0.21-stable/evdns.c:2656-2669 | The request goes to the end of the circular list; the others keep their order. |
| `DnsRings.Remove` | common/dep/libevent-2.0.21-stable/evdns.c:2618-2652 | Exactly this request leaves the circular list, also the head and the only one. |
| `DnsRings.InsertInFront` | common/dep/libevent-2.0.21-stable/evdns.c:2403-2409 | Inserting and moving the head back by one puts the request first. |
| `DnsRequests.InsertInTable` | common/dep/libevent-2.0.21-stable/evdns.c:2656-2669 | The request is in the bucket of its id, all others stay where they are, no two have one id. |
| `DnsRequests.RemoveFromTable` | common/dep/libevent-2.0.21-stable/evdns.c:2618-2652 | The request is gone from its bucket, the other buckets have not changed. |
| `DnsRequests.FindFromTransId` | common/dep/libevent-2.0.21-stable/evdns.c:479-493 | Finds a request exactly when one in flight has the id, and then that one. |
| `DnsRequests.TransactionIdPick` | common/dep/libevent-2.0.21-stable/evdns.c:1296-1307 | The first number drawn that is neither 0xffff nor in flight; all before it were. |
| `DnsRequests.SomeIdUnused` | common/dep/libevent-2.0.21-stable/evdns.c:1296-1307 | With fewer requests in flight than ids there is a free one, so drawing can succeed. |
| `DnsRequests.Submit` | common/dep/libevent-2.0.21-stable/evdns.c:2759-2773 | Into the table if a nameserver has been assigned, else to the end of the queue; table, queue and both counters stay right. |
| `DnsRequests.Promote` | common/dep/libevent-2.0.21-stable/evdns.c:731-751 | One waiting request goes out under a fresh id. |
| `DnsRequests.Pump` | common/dep/libevent-2.0.21-stable/evdns.c:731-751 | Requests go out from the front of the queue, in order, each under the first free number drawn, exactly as in the plain model; it stops only when enough are in flight or none waits; what it sends never passes the maximum. |
| `DnsRequests.FinishInflight` | common/dep/libevent-2.0.21-stable/evdns.c:648-697 | The request leaves the table, and the pump follows, as in the plain model. |
| `DnsRequests.FinishWaiting` | common/dep/libevent-2.0.21-stable/evdns.c:648-697 | The request leaves the queue, and the pump follows, as in the plain model. |
| `DnsRequests.Rehash` | common/dep/libevent-2.0.21-stable/evdns.c:3329-3336 | One request moves from the old table to its bucket in the new one; both are in order in between. |
| `DnsRequests.SetMaxInflight` | common/dep/libevent-2.0.21-stable/evdns.c:3315-3343 | The new table has (max + 4) / 5 buckets and holds exactly the same requests, each in the bucket of its id, in the order of the plain model. |
| `DnsRequests.ClearAndSuspend` | common/dep/libevent-2.0.21-stable/evdns.c:2390-2418 | Every request in flight waits again, in front of those that waited, in exactly the order of the plain model: bucket after bucket and each bucket from its end; none keeps its server or id. |
| `DnsRuns.NewStep` | common/dep/libevent-2.0.21-stable/evdns.c:2682-2773 | A new request changes table and queue as the plain model says, whose laws are the next two rows. |
| `DnsModelLaws.NewGoesOut` | common/dep/libevent-2.0.21-stable/evdns.c:2682-2690 | While fewer than the maximum are in flight and some number drawn is neither 0xffff nor taken, a new request goes out under the first such number, and the queue stays as it was. |
| `DnsModelLaws.NewWaits` | common/dep/libevent-2.0.21-stable/evdns.c:2682-2690 | With the maximum in flight it joins the end of the queue. |
| `DnsModelLaws.DrawMeans` | common/dep/libevent-2.0.21-stable/evdns.c:1296-1307 | The id drawn is the first number that is neither 0xffff nor taken, and none is drawn exactly when all are. |
| `DnsModelLaws.PumpMeans` | common/dep/libevent-2.0.21-stable/evdns.c:731-751 | Pumping sends the front of the queue, in order, until as many are in flight as may be, nobody waits, or no number can be used; never one more. |
| `DnsModelLaws.FinishMeans` | common/dep/libevent-2.0.21-stable/evdns.c:648-697 | A reply takes exactly the request that has the id, and the queue is pumped. |
| `DnsModelLaws.CancelMeans` | common/dep/libevent-2.0.21-stable/evdns.c:648-697 | A cancelled request leaves the queue, the order of the others stays, and the queue is pumped. |
| `DnsModelLaws.ResizeMeans` | common/dep/libevent-2.0.21-stable/evdns.c:3315-3343 | A new maximum is at least 1 and keeps who is in flight, under which id, and who waits. |
| `DnsModelLaws.ResizeOrder` | common/dep/libevent-2.0.21-stable/evdns.c:3322-3336 | Resizing moves the requests from the first bucket on and each bucket from its front: of any two, the one in the earlier old bucket, or earlier in the same one, comes first in the new table. |
| `DnsModelLaws.RunBounded` | common/dep/libevent-2.0.21-stable/evdns.c:731-751 | In every run that does not change the maximum no more requests are in flight than it allows. |
| `DnsModelLaws.ClearMeans` | common/dep/libevent-2.0.21-stable/evdns.c:2390-2418 | Clearing puts everybody in flight in front of those that waited: later buckets first, and within a bucket who went out last first. |
| `DnsRuns.FinishStep` | common/dep/libevent-2.0.21-stable/evdns.c:648-697 | A reply or a timeout takes exactly the request in flight that has the id, or none when no request has it. |
| `DnsRuns.Run` | common/dep/libevent-2.0.21-stable/evdns.c:648-3343 | Every run of submitting, finishing, cancelling, pumping, resizing and clearing on the linked table and queue refines the same run on the plain model of numbered requests: who is in flight under which id and in which bucket, who waits in which order, and how many were made and finished. |
| `DnsModel.StepConserves` | common/dep/libevent-2.0.21-stable/evdns.c:648-3343 | Each call keeps: every request that has been made is in flight, waits, or has been finished, exactly one of these and once; and no two in flight have one id. |
| `DnsModel.RunConserves` | common/dep/libevent-2.0.21-stable/evdns.c:648-3343 | So in every run no request is lost or doubled. |
| `DnsModel.RunInOrder` | common/dep/libevent-2.0.21-stable/evdns.c:731-751 | In every run without clearing the requests that wait do so in the order in which they were made. |
| `Nameservers.UpsCounted` | common/dep/libevent-2.0.21-stable/evdns.c:1313-1345 | global_good_nameservers, which every operation keeps equal to the length of the list of up servers, is the number of ring members that are up. |
| `Nameservers.Pick` | common/dep/libevent-2.0.21-stable/evdns.c:1313-1345 | With a server up, the next one in turn that is up, which goes to the end of the line; with none up, the second in turn; no link changes. |
| `Nameservers.PickUp` | common/dep/libevent-2.0.21-stable/evdns.c:1325-1344 | The scan ends on an up server. |
| `Nameservers.PickMany` | common/dep/libevent-2.0.21-stable/evdns.c:1313-1345 | Consecutive picks go round the up servers in order, however many picks. |
| `Nameservers.FairWindow` | common/dep/libevent-2.0.21-stable/evdns.c:1313-1345 | In any k consecutive picks with k servers up each of them comes exactly once. |
| `Nameservers.Failed` | common/dep/libevent-2.0.21-stable/evdns.c:557-587 | A server goes down once: the count falls by one, no other changes. |
| `Nameservers.Up` | common/dep/libevent-2.0.21-stable/evdns.c:617-635 | A server comes up once: the count rises by one, no other changes. |
| `Nameservers.Add` | common/dep/libevent-2.0.21-stable/evdns.c:2505-2517 | A new server goes in behind the one next in turn, and is up. |
| `NameserverRuns.Run` | common/dep/libevent-2.0.21-stable/evdns.c:557-2517 | Every run of adding servers, picking, failing and coming up on the linked ring refines the same run on a list of numbers and states: the ring from the one next in turn, and every pick. |
| `NameserverRuns.PickIsUp` | common/dep/libevent-2.0.21-stable/evdns.c:1313-1345 | In every run each pick gives out a server of the ring, one that is up if there is one; nobody exactly when the ring is empty. |
| `NameserverRuns.PickMeans` | common/dep/libevent-2.0.21-stable/evdns.c:1325-1344 | The first server in turn that is up is picked and goes to the end of the line, with those that were passed over before it. |
| `NameserverRuns.PickBlind` | common/dep/libevent-2.0.21-stable/evdns.c:1320-1324 | With nobody up the second in turn is tried, and the turn moves on by one. |
| `NameserverRuns.PickedWithin` | common/dep/libevent-2.0.21-stable/evdns.c:1313-1345 | Nobody starves: a server that is up is picked at the latest when all before it have had their turn. |
| `NameserverRuns.SwitchMeans` | common/dep/libevent-2.0.21-stable/evdns.c:557-635 | Failing and coming up change the state of that server and nothing else. |
| `NameserverRuns.RunStands` | common/dep/libevent-2.0.21-stable/evdns.c:2505-2517 | In every run each server that was added stands in the ring exactly once. |
| `TagCodec.EncodeInt` | common/dep/libevent-2.0.21-stable/event_tagging.c:115-135 | The digits in their nibbles, least significant first, behind their number less one. |
| `TagCodec.CollectDigits` | common/dep/libevent-2.0.21-stable/event_tagging.c:304-340 | Decoding from the most significant digit down gives the value of the digits. |
| `TagCodec.IntRoundTrip` | common/dep/libevent-2.0.21-stable/event_tagging.c:115-340 | Decoding an encoded integer gives it back, with the length of its encoding, whatever follows. |
| `TagCodec.OneEncoding` | common/dep/libevent-2.0.21-stable/event_tagging.c:115-135 | An integer has one encoding only. |
| `TagCodec.IntSays` | common/dep/libevent-2.0.21-stable/event_tagging.c:115-135 | The first nibble is the number of hexadecimal digits less one, and the lowest digits follow it. |
| `TagCodec.IntExample` | common/dep/libevent-2.0.21-stable/event_tagging.c:115-135 | As an integer 0xabc is 2C BA. |
| `TagCodec.EncodeTagBytes` | common/dep/libevent-2.0.21-stable/event_tagging.c:172-192 | Seven bits to a byte, least significant first, with the top bit on all but the last. |
| `TagCodec.TagLength` | common/dep/libevent-2.0.21-stable/event_tagging.c:172-192 | Tags of 32 bits take at most five bytes. |
| `TagCodec.CollectTag` | common/dep/libevent-2.0.21-stable/event_tagging.c:195-231 | The loop finds the tag, cut to 32 bits, and how many bytes it takes; it fails exactly when no byte ends it. |
| `TagCodec.TagRoundTrip` | common/dep/libevent-2.0.21-stable/event_tagging.c:172-231 | Decoding an encoded tag gives it back, whatever follows. |
| `TagCodec.TagExamples` | common/dep/libevent-2.0.21-stable/event_tagging.c:172-192 | As tags 0x66 is 66 and 0x166 is E6 02. |
| `Tagging.Marshal` | common/dep/libevent-2.0.21-stable/event_tagging.c:246-252 | The record is appended to what the buffer holds. |
| `Tagging.RecordExample` | common/dep/libevent-2.0.21-stable/event_tagging.c:246-252 | The bytes 7 and 8 under tag 1 are the record 01 02 07 08. |
| `Tagging.GetTag` | common/dep/libevent-2.0.21-stable/event_tagging.c:195-231 | The tag at the front; its bytes are drained if so asked, else the content is unchanged. |
| `Tagging.UnmarshalHeader` | common/dep/libevent-2.0.21-stable/event_tagging.c:423-436 | Tag and length are taken off, also when it fails behind them; it fails exactly when the payload is not there in full. |
| `Tagging.PeekLength` | common/dep/libevent-2.0.21-stable/event_tagging.c:387-418 | The length of the record, or of its payload, without a change to the content. |
| `Tagging.Consume` | common/dep/libevent-2.0.21-stable/event_tagging.c:439-447 | Exactly the record is gone. |
| `Tagging.PeekedIsConsumed` | common/dep/libevent-2.0.21-stable/event_tagging.c:387-447 | evtag_peek_length says how many bytes evtag_consume takes. |
| `Tagging.Unmarshal` | common/dep/libevent-2.0.21-stable/event_tagging.c:452-465 | The payload goes to the end of the destination and the record from the front of the source. |
| `Tagging.RecordInFront` | common/dep/libevent-2.0.21-stable/event_tagging.c:246-465 | With a record at the front, decoding finds its tag, its payload and the rest, for every rest. |
| `Tagging.UnmarshalAll` | common/dep/libevent-2.0.21-stable/event_tagging.c:452-465 | Of a buffer that holds the records of a list, one behind the other, evtag_unmarshal takes off those records in order, and nothing is left. |
| `Tagging.MarshalThenUnmarshal` | common/dep/libevent-2.0.21-stable/event_tagging.c:246-465 | Any list of records with 32-bit tags and payloads shorter than 2^31 that is marshalled into a new buffer comes back as it was, and the buffer is empty in the end. |
| `Tagging.MarshalInt` | common/dep/libevent-2.0.21-stable/event_tagging.c:266-286 | A record whose payload is the encoded integer. |
| `Tagging.UnmarshalInt` | common/dep/libevent-2.0.21-stable/event_tagging.c:470-519 | Fails exactly when the record is not whole, has another tag, or its number reaches beyond the payload; otherwise gives the number. What is left is what stands behind the record, or, if that does not fit, behind the tag, or tag and length. |
| `Tagging.IntComesBack` | common/dep/libevent-2.0.21-stable/event_tagging.c:266-519 | 32-bit and 64-bit integers come back over their full ranges. |
| `Tagging.MarshalTimeval` | common/dep/libevent-2.0.21-stable/event_tagging.c:295-302 | A record whose payload is the encoded seconds and then the encoded microseconds. |
| `Tagging.UnmarshalTimeval` | common/dep/libevent-2.0.21-stable/event_tagging.c:565-590 | Succeeds exactly when the payload of the tag asked for holds two integers. |
| `Tagging.TimeComesBack` | common/dep/libevent-2.0.21-stable/event_tagging.c:296-590 | Seconds and microseconds come back over the 32-bit range. |
| `TaggingLaws.AsIntMeans` | common/dep/libevent-2.0.21-stable/event_tagging.c:423-436 | The length returned is the signed number with the same 32 bits. |
| `TaggingLaws.FitsItsTag` | common/dep/libevent-2.0.21-stable/event_tagging.c:470-493 | A record is accepted for its own tag and no other. |
| `TaggingLaws.OnlyTagGone` | common/dep/libevent-2.0.21-stable/event_tagging.c:477-480 | When another tag is asked for, exactly the tag has been drained. |
| `TaggingLaws.IntOfPayload` | common/dep/libevent-2.0.21-stable/event_tagging.c:470-493 | The integer is decoded from the payload alone, whatever follows the record. |
| `TaggingLaws.TimeOfPayload` | common/dep/libevent-2.0.21-stable/event_tagging.c:565-590 | The seconds stand at the front of the payload, the microseconds right behind them. |
| `Arc4Random.EveryByte` | common/dep/libevent-2.0.21-stable/arc4random.c:96-104 | The table is a permutation: every byte value stands in it, at every moment, since swaps keep that. |
| `Arc4Random.Arc4Stream.GetByte` | common/dep/libevent-2.0.21-stable/arc4random.c:409-420 | One step of the cipher, and its output byte. |
| `Arc4Random.OutputTells` | common/dep/libevent-2.0.21-stable/arc4random.c:409-420 | The byte given out tells where in the table it stood: the sum of the two entries that were swapped. |
| `Arc4Random.StepBack` | common/dep/libevent-2.0.21-stable/arc4random.c:409-420 | Steps can be taken back: no two states step to the same one. |
| `Arc4Random.Arc4Stream.AddRandom` | common/dep/libevent-2.0.21-stable/arc4random.c:107-121 | 256 swaps that also use the data, all round the table: i ends one below where it was, j equals it; what the data does is in the next rows. |
| `Arc4Random.StirTells` | common/dep/libevent-2.0.21-stable/arc4random.c:107-121 | From one state no two bytes of data lead to the same state, and the byte 0 does what a step of the cipher does. |
| `Arc4Random.StirBack` | common/dep/libevent-2.0.21-stable/arc4random.c:107-121 | A swap with a byte that is known can be taken back. |
| `Arc4Random.KeyedApart` | common/dep/libevent-2.0.21-stable/arc4random.c:107-121 | Two strings of data that differ only in the byte used last lead to different states. |
| `Arc4Random.KeyedRepeats` | common/dep/libevent-2.0.21-stable/arc4random.c:107-121 | Data that is used up begins again. |
| `Arc4Random.Arc4Stream.GetWord` | common/dep/libevent-2.0.21-stable/arc4random.c:423-433 | The next four output bytes, read as a big-endian number. |
| `Arc4Random.FirstWord` | common/dep/libevent-2.0.21-stable/arc4random.c:423-433 | A generator that has not been seeded gives out 0x0205070D first. |
| `Arc4Random.SmallestAccepted` | common/dep/libevent-2.0.21-stable/arc4random.c:506-525 | Both branches of 32-bit arithmetic give 2^32 mod upper_bound. |
| `Arc4Random.Uniform` | common/dep/libevent-2.0.21-stable/arc4random.c:506-538 | The remainder of the first number drawn that is not below that bound. |
| `Arc4Random.PreimageCount` | common/dep/libevent-2.0.21-stable/arc4random.c:506-538 | In q runs of u successive numbers every remainder comes exactly q times. |
| `Arc4Random.Unbiased` | common/dep/libevent-2.0.21-stable/arc4random.c:506-538 | Every result below upper_bound has exactly (2^32 - min) / upper_bound accepted numbers behind it. |
| `Arc4Random.MoreThanHalf` | common/dep/libevent-2.0.21-stable/arc4random.c:506-538 | More than half of all numbers are accepted. |
| `Pair.Transfer` | common/dep/libevent-2.0.21-stable/bufferevent_pair.c:151-197 | The share that the watermark allows goes from the front of the output to the end of the input, the watermark callback notes whether the input is full, and both ends are frozen again. |
| `Pair.Moved` | common/dep/libevent-2.0.21-stable/bufferevent_pair.c:151-197 | No byte is lost or reordered; a normal transfer leaves the input within its high watermark if it was, and ends with the output empty or the input at the watermark; a flush below the watermark stops at it. |
| `Pair.NothingAsked` | common/dep/libevent-2.0.21-stable/bufferevent_pair.c:151-197 | When a transfer leaves the input below the watermark nothing is left to move, so the callback inside it asks for no further transfer. |
| `Pair.WatermarkCallback` | common/dep/libevent-2.0.21-stable/bufferevent.c:116-130 | Reading is suspended for the watermark exactly when the input has reached it; the backend is asked to go on exactly when nothing else stops reading. |
| `Pair.Talk` | common/dep/libevent-2.0.21-stable/bufferevent_pair.c:200-207 | A transfer happens exactly when writer and reader are enabled, reading is not suspended and there is something to move. |
| `Pair.Write` | common/dep/libevent-2.0.21-stable/bufferevent_pair.c:210-227 | Written bytes go to the end of the output, and from there to the other end exactly as far as the channel says. |
| `Pair.Read` | common/dep/libevent-2.0.21-stable/bufferevent.c:116-130 | Bytes taken out of the input make room, and waiting bytes come in if the ends are willing. |
| `Pair.MarkStep` | common/dep/libevent-2.0.21-stable/bufferevent.c:516-562 | bufferevent_setwatermark suspends reading, or lets it go on, by the new watermark; what waits comes in when there is room. |
| `Pair.FlagStep` | common/dep/libevent-2.0.21-stable/bufferevent_pair.c:230-255 | Enabling and unsuspending hand over what was waiting. |
| `Pair.Run` | common/dep/libevent-2.0.21-stable/bufferevent_pair.c:151-307 | Every run of writes, reads, flag and watermark changes and flushes on a new pair refines the same run on a channel of two byte strings. |
| `Pair.Fifo` | common/dep/libevent-2.0.21-stable/bufferevent_pair.c:151-307 | In every run, what was sent is what has been read, then the reader's input, then the writer's output. |
| `Pair.StaysWithin` | common/dep/libevent-2.0.21-stable/bufferevent_pair.c:158-176 | Without flushes and changes of the watermark an input within it stays there in every run. |
| `Pair.NoneLeftWaiting` | common/dep/libevent-2.0.21-stable/bufferevent_pair.c:200-255 | Every step, reading and moving the watermark included, leaves no bytes waiting between willing ends with room, with one exception, stated exactly: enabling writing while it is suspended. |
| `Pair.NeverWaits` | common/dep/libevent-2.0.21-stable/bufferevent_pair.c:200-255 | So after every run without that step no bytes wait between willing ends with room. |
| `PairLaws.ArrivesInOrder` | common/dep/libevent-2.0.21-stable/bufferevent_pair.c:151-197 | Whatever leaves the output in a step is the front of it, and comes to the end of the input. |
| `PairLaws.ArrivesWilling` | common/dep/libevent-2.0.21-stable/bufferevent_pair.c:200-227 | But for a flush, bytes come into the input only if afterwards writer and reader are enabled and reading is not suspended; those written or let through by enabling only if the watermark did not suspend reading before. |
| `PairLaws.NothingArrives` | common/dep/libevent-2.0.21-stable/bufferevent_pair.c:200-255 | In every run without flushes in which the reader is not enabled no byte reaches its input, and all that is written waits in order. |
| `PairLaws.RunFlags` | common/dep/libevent-2.0.21-stable/bufferevent.c:66-513 | In every run each of the four flags is as the last step about it has left it: enabling and disabling, suspending and letting go. |
| `PairLaws.WaitingGoesOut` | common/dep/libevent-2.0.21-stable/bufferevent_pair.c:151-255 | After every step that asks for a transfer no byte waits in the output of two willing ends unless the watermark forbids it. |
| `PairLaws.FlushMoves` | common/dep/libevent-2.0.21-stable/bufferevent_pair.c:151-197 | A flush moves everything, or, to an input below its watermark, what there is room for. |
| `PairLaws.StepMarks` | common/dep/libevent-2.0.21-stable/bufferevent.c:116-130 | Every step keeps: reading is suspended for the watermark exactly when the input has reached it; but setting the watermark to just what there is leaves that state as it was. |
| `PairLaws.RunMarks` | common/dep/libevent-2.0.21-stable/bufferevent.c:116-562 | So in every run that never does so reading is suspended for the watermark exactly when it has been reached. |
| `Pair.EnabledUnasked` | common/dep/libevent-2.0.21-stable/bufferevent.c:406-427 | A run that shows the exception: the byte stays in the output, although both ends are willing and the input is empty. |
| `Pair.ReadingResumes` | common/dep/libevent-2.0.21-stable/bufferevent.c:116-130 | A run in which reading a byte under a watermark of 1 lets the next one in. |

## Left out

- Chunks that are pinned, immutable, shared, or refer to memory or files elsewhere; callback lists and their byte counts; freeze flags but in the pair; locks and reference counts as such; failing allocations and event_add; sizes near SIZE_MAX and EV_SSIZE_MAX.
- `evbuffer_read` and `evbuffer_write`: system calls around `ReserveSpace` and `Drain`.
- EvbufferReserve.ReserveSpace: two or more vectors; a single one is `EvbufferExpand.ReserveOne`, and none is an error at once.
- EvbufferRuns.RunAll: runs on tight buffers; what spare chunks do is stated call by call (`AddTo`, `Prepend`, `Drain`, `AddBuffer`, `RemoveBuffer`, `Pullup`, `CommitSpace`).
- Epoll.ApplyOneChange: errors other than EEXIST, ENOENT and EBADF (EPERM on a delete is passed over like EBADF); EPOLLET, which the delete path does not keep.
- Evmap.EventBase.IoAdd: a descriptor that the program has closed; signal maps, debug checks and the hash variant of the descriptor table.
- Evmap.EventBase.Close: closing a descriptor while events are on it, and descriptors made by dup of one that is registered.
- RateLimit.Bufferevent.DecrementLimit: refunds up to the maximum; beyond it see `TokenBucket.RaiseIsMinExactly`.
- RateLimit.Group.Decrement: statistics, `bufferevent_rate_limit_group_decrement_read` and `_write`.
- RateLimit.Group.RefillOver: one tick after the other, as the persistent timer is meant to come; later ticks are `RefillCallback`.
- RateLimitRuns.Run: what `_bufferevent_get_rlim_max` answers is in the contract of `AskKeeps`, the run keeps its effects only; calls that a state does not admit are left out of a run.
- RateLimitWindow.RunAlone: gaps of at most INT_MAX ticks, beyond which the source takes time to have gone back.
- DnsNames.NameParse: a label that runs past the packet is rejected by the source in the next round, by the model at once.
- DnsCompress.NameToLabels: messages shorter than 0x4000 bytes, so that every position fits a compression pointer; the source writes no longer ones, its buffers have 1500 bytes.
- DnsRequests.Pump: needs a nameserver; transmission, retries, timeouts and search lists, with which probes submit outside the maximum; the id is drawn before the request leaves the queue, which nothing can tell apart.
- DnsRequests.ClearAndSuspend: freeing the nameservers and resetting the counters of transmissions.
- Nameservers.Failed: probing, timeouts and the reassignment of unsent requests.
- Nameservers.Up: the cancelled probe and its timer.
- Tagging.GetTag: tags of more than five bytes (`LongTag`), for which the source reads beyond the bytes it has made contiguous.
- Tagging.Consume: payloads of 2^31 bytes and more (`Huge`), whose length does not fit the int returned.
- Arc4Random.Uniform: seeding and stirring, and the platforms whose unsigned int is wider than 32 bits.
- Pair.Run: one direction of a pair; the other is the same with the ends exchanged. User callbacks, timeouts, events and the low watermarks, which only decide about user callbacks.
- The game client, its protocol buffers and sockets, and of libevent the other backends, TLS, HTTP and RPC: user interface and input/output around the parts modelled, or generated code.
