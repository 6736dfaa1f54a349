# libevent core, modelled and proved in Dafny

A Dafny 4.11 model of the core of libevent 2.1.8 as it is built into this repository: evbuffers,
the epoll changelist, the event base, rate limiting, the asynchronous resolver, tagged data and
the uniform random numbers. Each part is modelled at the level of its algorithm, with the
branches, constants and error conditions of the C code, and is proved against what the code is
for. `dafny verify dfyconfig.toml` checks everything.

## What is proved

- **Evbuffers** (`Chunks`, `Evbuffer`, `EvbufferMoves`, `EvbufferReserve`, `EvbufferFaults`,
  `EvbufferSearch`, `EvbufferRuns`). A buffer is a list of chains, each with a gap, data and
  room, plus the link `last_with_datap`. Every run of operations acts on the concatenated data
  exactly as on a flat byte string. `evbuffer_remove_buffer` does so if and only if no empty
  chain lies in the wrong place, and `EvbufferFaults` runs into the other case; two-phase append
  and searching do so wherever the chunk boundaries lie.
- **Changelist** (`EpollTable`, `Changelist`). The 512-row table is its closed form. Queued
  changes leave the kernel, after each dispatch, where immediate updates would have left it.
- **Event base** (`MinHeap`, `EventLists`, `CommonTimeouts`, `EventState`, `EventBase`,
  `EventLoop`). Over every run of calls from callbacks, from other threads and from the loop,
  flags, queues, heap and counters agree, every common-timeout queue is covered by its proxy
  event, and the loop never sleeps past a deadline, nor past one that another thread adds.
- **Base and backend together** (`Reactor`). Over every run of the base on top of the changelist,
  inserted flags and descriptor lists agree, and after every dispatch the kernel watches exactly
  what the inserted events wait for.
- **Rate limiting** (`TokenBucket`, `Bufferevent`, `RateGroup`). The overflow-avoiding refill is
  the naive one, in machine arithmetic, whenever the bucket is not overfull; `RefillExactIff` says
  exactly when. No run leaves a bufferevent stuck suspended. A group keeps its flags and debt in
  order whatever locks can be had, and owes less than a share as long as only grants that fit
  are out.
- **Resolver** (`DnsName`, `Nameservers`, `RequestLists`, `DnsRequests`). Compressed names come
  back (sections 3.1 and 4.1.4 of RFC 1035); the parser accepts exactly what spells a name.
  Over every run, buckets, ids and counters are right, and servers are picked in turn.
- **Tagged data** (`TagCodec`, `Tagging`). Streams of records round-trip through evbuffers.
- **Random numbers** (`Uniform`). Rejection leaves every result equally likely.

`IdLists` and `Machine` hold the lists and integer ranges the others share.

## Where the code is not what one would expect

- `evbuffer_remove_buffer` goes wrong on a source with an empty chain before its last data. It
  can reset the source's `last_with_datap` in front of the data (`MoveBreaksSource`). When it
  moves whole chains with a gap, the last piece lands in front of other bytes or replaces them:
  bytes are lost while `total_len` counts them (`MoveLosesBytes`, `LossExact`). This is the build
  with assertions compiled out; with them, the losing case aborts. `RemoveBuffer` says exactly
  when each happens.
- `evbuffer_prepend` is not atomic: when the allocation of a chain fails, the part of the data that
  fitted is in front already (`PrependLeavesPart`, `Prepend`).
- A single-vector commit leaves `last_with_datap` short of the data when a second empty chain
  lies between (`CommitStrands`, `LastLinkExact`). A reservation of one vector can be one that
  the commit refuses (`ReservesInVain`, `ReserveSpace`).
- `evbuffer_strspn` leaves its pointer at the start of the last chain when it reaches the end
  (`SpanLosesPlace`, `StrSpn`); its one caller does not look at it.
- `dnsname_to_labels` writes the terminator without a bounds check and can exceed the room by one
  byte (`OneByteTooMany`, `OverrunExact`); dotted names with empty labels do not come back
  (`TrailingDotLost`, `PlainRoundTripExact`).
- `name_parse` takes any length byte of 64 or more for a pointer, not only those from 192 on
  (`ReservedByteJumps`, `ParseExact`).
- A bucket that is refilled by hand beyond its maximum is not capped any more and can overflow
  into debt (`OverfullGrows`, `RefillExactIff`, `RefillPositive`).
- A minimum share of zero lets a group resume without tokens (`ZeroShareResumes`, `ShareExact`);
  grants that are out together can make it owe a share or more (`Overdraw`, `SettlementExact`).
- Tagged records of more than INT_MAX bytes have negative lengths: consuming one drains the whole
  buffer (`ConsumesTooMuch`, `Consume`), and unmarshalling one fails (`Unmarshal`). Times are cut to
  32 bits (`TimeRoundTrip`).
- The comment on the wire format in `event_tagging.c` shows tags with their most significant
  bits first; the code writes the least significant bits first, and the model follows the code.

## Model

| member | source | states |
|---|---|---|
| `Chunks.AppendedIsCopy` | core/src/main/jni/libevent/buffer.c:1722-1817 | Appending to a chain leaves its memory as the copy behind the data leaves it: three-part chains are the byte buffers of the code. |
| `Chunks.PrependedIsCopy` | core/src/main/jni/libevent/buffer.c:1819-1899 | Prepending to a chain is the copy into the gap in front of the data. |
| `Chunks.AlignedIsCopy` | core/src/main/jni/libevent/buffer.c:1902-1909 | Realigning moves the data to the start of the memory and loses none of it. |
| `Evbuffer.ChainNew` | core/src/main/jni/libevent/buffer.c:155-192 | A new chain is empty, holds at least the requested size and less than twice what that needs (or is of the smallest kind), and can be had exactly up to the size limit. |
| `Evbuffer.EvBuffer.constructor` | core/src/main/jni/libevent/buffer.c:360-374 | A new buffer is valid and empty. |
| `Evbuffer.EvBuffer.FreeTrailingEmptyChains` | core/src/main/jni/libevent/buffer.c:289-302 | The list is cut at the first empty chain at or behind the link, right or wrong; on a buffer in order exactly the chains behind the last data go and the contents stay. |
| `Evbuffer.EvBuffer.ChainInsert` | core/src/main/jni/libevent/buffer.c:307-326 | Linking a chain at the end appends its data and keeps last_with_datap on the last chain with data; on a buffer whose link lags it loses what lies behind the link. |
| `Evbuffer.EvBuffer.Add` | core/src/main/jni/libevent/buffer.c:1722-1817 | Appends exactly the data whatever room the chains have (in the last chain, after realigning, or in a new chain), or fails and changes nothing, exactly when frozen or too large; on a buffer whose link lags, says where the bytes go or which are lost, and that the buffer stays broken. |
| `Evbuffer.EvBuffer.Prepend` | core/src/main/jni/libevent/buffer.c:1819-1899 | Puts exactly the data in front; says exactly when it fails; when no chain can be allocated, what part of the data is in front already, and that the contents are unchanged if and only if there was no gap in front. |
| `Evbuffer.EvBuffer.Drain` | core/src/main/jni/libevent/buffer.c:1095-1161 | Removes exactly the first len bytes, or all, through whole and partial chains, keeping last_with_datap right. |
| `Evbuffer.EvBuffer.CopyOut` | core/src/main/jni/libevent/buffer.c:1178-1182 | Returns the first datlen bytes across chains and changes nothing. |
| `Evbuffer.EvBuffer.Remove` | core/src/main/jni/libevent/buffer.c:1164-1176 | What is returned followed by what is left is the old contents. |
| `Evbuffer.EvBuffer.Pullup` | core/src/main/jni/libevent/buffer.c:1344-1454 | Makes the first bytes contiguous in the first chain without changing the contents; fails exactly for zero, too many, or too large a size. |
| `EvbufferMoves.AddBuffer` | core/src/main/jni/libevent/buffer.c:960-1004 | Moves all bytes of one buffer behind the other; nothing changes on failure or self-move. |
| `EvbufferMoves.PrependBuffer` | core/src/main/jni/libevent/buffer.c:1049-1093 | Moves all bytes of one buffer in front of the other. |
| `EvbufferMoves.AdvancedExact` | core/src/main/jni/libevent/buffer.c:702-716 | advance_last_with_data from the end of the old chains finds the last chain with data exactly when the moved chains have no gap of empty chains, and stops short of it otherwise. |
| `EvbufferMoves.SpliceExact` | core/src/main/jni/libevent/buffer.c:1302-1319 | Relinking whole chains keeps all bytes, and leaves the link of the destination right if and only if the chains have no gap. |
| `EvbufferMoves.RemoveBuffer` | core/src/main/jni/libevent/buffer.c:1254-1342 | On every input: the first min(n, length) bytes leave the source; the source, the destination, and both are in order afterwards each exactly under a condition on where empty chains lie; and exactly which bytes the destination holds in either case. |
| `EvbufferMoves.LossExact` | core/src/main/jni/libevent/buffer.c:1302-1325 | A move loses bytes if and only if it takes whole chains with a gap and the last piece does not fit where the link stopped. |
| `EvbufferMoves.NoEarlyEmptyIsSafe` | core/src/main/jni/libevent/buffer.c:1254-1342 | A source without empty chains before its last data chain is safe for every length. |
| `EvbufferReserve.ExpandSingleChain` | core/src/main/jni/libevent/buffer.c:1927-2035 | Yields a chain with the requested contiguous room at or right behind the last data, contents unchanged, for every size that can be had; says exactly when that chain is neither the last one nor the first with room. |
| `EvbufferReserve.ExpandFast` | core/src/main/jni/libevent/buffer.c:2039-2147 | The first n chains with room offer the requested total, contents unchanged, in every branch (enough room, a new chain behind, all tail chains replaced); the list when one chain is added. |
| `EvbufferReserve.ReadSetupVecs` | core/src/main/jni/libevent/buffer.c:2213-2247 | The vectors are the rooms of consecutive chains and add up to at least what was asked for. |
| `EvbufferReserve.ReserveSpace` | core/src/main/jni/libevent/buffer.c:669-700 | Reserving leaves the contents alone and returns pieces, none of them empty, that hold the size and describe the room from the first chain with room on; a reservation of one piece can be committed if and only if no chain was passed over. |
| `EvbufferReserve.CommitSpace` | core/src/main/jni/libevent/buffer.c:718-786 | Commits all or nothing; succeeds exactly for vectors that describe the room; appends exactly the bytes in them, each piece in its chain; the buffer is in order afterwards if and only if the vector does not strand the link. |
| `EvbufferReserve.CommittedKeepsMemory` | core/src/main/jni/libevent/buffer.c:718-786 | Committing copies nothing: the bytes become live where they were written. |
| `EvbufferReserve.LastLinkExact` | core/src/main/jni/libevent/buffer.c:738-747 | The single-vector shortcut leaves last_with_datap right if and only if the last chain is at most one behind it, and short of the data otherwise. |
| `EvbufferReserve.WriteAndCommit` | core/src/main/jni/libevent/buffer.c:669-786 | Two-phase append: writing chunks into any first pieces of a reservation and committing them appends exactly the chunks, in order. |
| `EvbufferReserve.AppendInPieces` | core/src/main/jni/libevent/buffer.c:669-786 | Reserving room for the data in n pieces, filling them one after the other and committing appends exactly the data, and leaves no gap where there was none. |
| `EvbufferFaults.LeadingEmpty` | core/src/main/jni/libevent/buffer.c:669-786 | From a new buffer, two reservations and a commit of the second piece only reach a list with an empty chain in front of its data. |
| `EvbufferFaults.MoveBreaksSource` | core/src/main/jni/libevent/buffer.c:1254-1342 | Moving one byte off such a buffer leaves the source with a wrong link. |
| `EvbufferFaults.Gapped` | core/src/main/jni/libevent/buffer.c:1049-1093 | From new buffers, appending, reserving and prepending reach a full chain, an empty one and two more with data. |
| `EvbufferFaults.MoveLosesBytes` | core/src/main/jni/libevent/buffer.c:1254-1342 | Moving up to within the last of these chains loses all bytes of the third one, and total_len still counts them. |
| `EvbufferFaults.CommitStrands` | core/src/main/jni/libevent/buffer.c:718-786 | From a new buffer, a three-piece reservation committed only in its last piece leaves the link in front of the data. |
| `EvbufferFaults.ReservesInVain` | core/src/main/jni/libevent/buffer.c:669-786 | From a new buffer, reservations and a commit reach a state in which a reservation of one vector returns one that a commit refuses. |
| `EvbufferFaults.PrependLeavesPart` | core/src/main/jni/libevent/buffer.c:1819-1899 | A buffer with a gap of one byte, made by adding and draining: prepending two bytes without memory fails and leaves one of them. |
| `EvbufferRuns.DoStep` | core/src/main/jni/libevent/buffer.c:669-1342 | Each operation acts on the chunked buffers as its counterpart acts on two flat byte strings; only putting one buffer in front of another can leave an empty chain before data. |
| `EvbufferRuns.Run` | core/src/main/jni/libevent/buffer.c:669-2147 | Every run of add, prepend, drain, remove, copyout, pullup, expand, two-phase appends, moves of whole buffers and, until one buffer is put in front of another, partial moves is, byte for byte, the run on flat strings, and keeps total_len and last_with_datap right. |
| `EvbufferSearch.PtrSet` | core/src/main/jni/libevent/buffer.c:2609-2659 | A position, absolute or on from another one, becomes the chain and offset of that byte; fails exactly beyond the end. |
| `EvbufferSearch.PtrSubtract` | core/src/main/jni/libevent/buffer.c:2589-2607 | Moves a position back; fails exactly before the start. |
| `EvbufferSearch.CopyOutFrom` | core/src/main/jni/libevent/buffer.c:1184-1249 | Returns the bytes from a position on, up to datlen or the end, across chains; says exactly when it fails. |
| `EvbufferSearch.PtrEquals` | core/src/main/jni/libevent/buffer.c:2665-2699 | Comparing across chains answers whether the pattern occurs at the position of the flat contents. |
| `EvbufferSearch.SearchRange` | core/src/main/jni/libevent/buffer.c:2707-2769 | Returns the least occurrence in the flat contents from start on that ends within the range, or none, wherever the chunk boundaries lie. |
| `EvbufferSearch.SearchCrLf` | core/src/main/jni/libevent/buffer.c:1628-1648 | An LF, with the CR before it unless that lies before the start. |
| `EvbufferSearch.StrChr` | core/src/main/jni/libevent/buffer.c:1466-1486 | The first given byte at or behind the position, none earlier. |
| `EvbufferSearch.FindEolChar` | core/src/main/jni/libevent/buffer.c:1515-1535 | The first CR or LF at or behind the position. |
| `EvbufferSearch.StrSpn` | core/src/main/jni/libevent/buffer.c:1537-1574 | The exact length of the run of bytes from the set; the pointer behind it is right if and only if some byte that follows is not in the set, or there is no chain, or the last one is empty; what it is otherwise. |
| `EvbufferSearch.SpanLosesPlace` | core/src/main/jni/libevent/buffer.c:1537-1574 | One chain with one CR: the pointer behind the run is not at the end of the buffer. |
| `EvbufferSearch.SearchEol` | core/src/main/jni/libevent/buffer.c:1589-1677 | Finds the first terminator of the style and its length, or proves there is none, for all five styles. |
| `EvbufferSearch.ReadLn` | core/src/main/jni/libevent/buffer.c:1679-1716 | Old contents = line + terminator + rest, with no earlier terminator of the style; nothing changes when there is none. |
| `EpollTable.Index` | core/src/main/jni/libevent/epolltable-internal.h:124-130 | The index of a change is inside the table. |
| `EpollTable.TableIsClosedForm` | core/src/main/jni/libevent/epolltable-internal.h:40-1166 | Every row that a change can select says what the closed form (old minus deletes plus adds; add, modify, delete or nothing) says. |
| `EpollTable.OtherRowsAreImpossible` | core/src/main/jni/libevent/epolltable-internal.h:40-1166 | Every other of the 512 rows, for a change that is both an add and a delete, is marked impossible. |
| `Changelist.ApplyOne` | core/src/main/jni/libevent/epoll.c:268-355 | From any kernel state a change ends at (old minus deletes) plus adds, thanks to the retries; without surprises the first call suffices. |
| `Changelist.LinkedDistinct` | core/src/main/jni/libevent/evmap.c:740-759 | Entries and fdinfo indices are in bijection, so an fd has at most one entry. |
| `Changelist.QueueNew` | core/src/main/jni/libevent/evmap.c:823-887 | A first change of an fd keeps entries, indices, counters and kernel in step. |
| `Changelist.QueueAgain` | core/src/main/jni/libevent/evmap.c:854-939 | A further change of an fd keeps them in step, including deletes that cancel an add. |
| `Changelist.EventMap.QueueChange` | core/src/main/jni/libevent/evmap.c:823-939 | Only the entry of the fd changes, and its index is stored. |
| `Changelist.EventMap.IoAdd` | core/src/main/jni/libevent/evmap.c:265-342 | The event joins its fd; it fails, changing nothing, exactly when a counter would overflow; the result tells whether the wanted kinds changed. |
| `Changelist.EventMap.IoDel` | core/src/main/jni/libevent/evmap.c:346-409 | The event leaves its fd; the result tells whether the wanted kinds changed. |
| `Changelist.EventMap.TellNow` | core/src/main/jni/libevent/epoll.c:376-413 | The immediate backend leaves the kernel at what the events want. |
| `Changelist.ApplyAll` | core/src/main/jni/libevent/epoll.c:357-374 | Every queued change succeeds at its first call and reaches its target; other fds are untouched. |
| `Changelist.FlushKeeps` | core/src/main/jni/libevent/evmap.c:767-786 | Applying and clearing all changes leaves a consistent state in which nothing is queued. |
| `Changelist.EventMap.Dispatch` | core/src/main/jni/libevent/epoll.c:415-460 | After the changes are applied the kernel watches each fd for exactly what its inserted events want. |
| `Changelist.Settled` | core/src/main/jni/libevent/epoll.c:415-460 | Whenever nothing is queued, kernel interest equals what the events want. |
| `Changelist.RunBoth` | core/src/main/jni/libevent/evmap.c:265-409 | Batching refines immediate updates: after every run ending in a dispatch both backends watch the same kinds on every fd, namely those wanted. |
| `DnsName.NameParse` | core/src/main/jni/libevent/evdns.c:959-1013 | Terminates on every byte string and returns the parsed name and the index behind it. |
| `DnsName.ParseComplete` | core/src/main/jni/libevent/evdns.c:959-1013 | Bytes that spell labels, through any pointers, parse to the name made of them if it fits. |
| `DnsName.ParseSound` | core/src/main/jni/libevent/evdns.c:959-1013 | A successful parse found bytes that spell exactly that name. |
| `DnsName.ParseExact` | core/src/main/jni/libevent/evdns.c:959-1013 | A name is returned if and only if the bytes spell it with no more pointers than bytes and it fits the output. |
| `DnsName.ReservedByteJumps` | core/src/main/jni/libevent/evdns.c:959-1013 | A packet in which the byte 64 is followed as a pointer. |
| `DnsName.StrictIsRead` | core/src/main/jni/libevent/evdns.c:959-1013 | What a strict reader reads, name_parse reads alike. |
| `DnsName.LabelTable.GetPos` | core/src/main/jni/libevent/evdns.c:1559-1568 | The position remembered first for this label, or none. |
| `DnsName.LabelTable.Add` | core/src/main/jni/libevent/evdns.c:1571-1586 | Every earlier lookup answers as before; the new name is found at its position afterwards if and only if it was unknown and there was room, and keeps its first position if it was known. |
| `DnsName.OverrunExact` | core/src/main/jni/libevent/evdns.c:1599-1663 | With or without a table, the writer exceeds the room it was given by at most one byte, and does so if and only if the labels fill it, no part of the name is known and the last label is not empty. |
| `DnsName.OneByteTooMany` | core/src/main/jni/libevent/evdns.c:1599-1663 | The name "a" with room for two bytes: three are written. |
| `DnsName.NameToLabels` | core/src/main/jni/libevent/evdns.c:1599-1663 | Writes into the buffer exactly the encoding of the name against the table, and fails exactly for a long label or too little room; stays within memory of the given length exactly unless the name overruns it; a reader that follows section 4.1.4 of RFC 1035 to the letter finds the labels there, ending where the writer stopped, if the table was right. |
| `DnsName.EncodeFits` | core/src/main/jni/libevent/evdns.c:1599-1663 | The writer only appends, at most two bytes more than the name, and has room whenever the buffer has that much. |
| `DnsName.EncodeReads` | core/src/main/jni/libevent/evdns.c:1599-1663 | What is written spells the labels for a strict reader: pointers have both top bits set and lead back to earlier names, any other byte above 63 would be refused; the table stays right. |
| `DnsName.PacketGrows` | core/src/main/jni/libevent/evdns.c:1599-1663 | Writing one more name keeps every earlier one readable. |
| `DnsName.RoundTrip` | core/src/main/jni/libevent/evdns.c:959-1663 | Any list of names written with one shared label table: each parses back to itself, also for a strict reader, and to the index where the writer stopped, also after later writes. |
| `DnsName.PlainLayout` | core/src/main/jni/libevent/evdns.c:1590-1663 | Without a table the bytes are each label behind its length, and a terminator. |
| `DnsName.SecondIsPointer` | core/src/main/jni/libevent/evdns.c:1599-1663 | The name "a" written twice is 1, 97, 0, 0xc0, 0. |
| `DnsName.PlainRoundTripExact` | core/src/main/jni/libevent/evdns.c:1599-1663 | Without compression a name comes back if and only if it is empty or has no empty label: leading, trailing and doubled dots are lost. |
| `DnsName.TrailingDotLost` | core/src/main/jni/libevent/evdns.c:1599-1663 | The name "a." is written as "a" and comes back as that. |
| `MinHeap.TopIsLeast` | core/src/main/jni/libevent/minheap-internal.h:69-69 | The top of the heap is least. |
| `MinHeap.ShiftUp` | core/src/main/jni/libevent/minheap-internal.h:149-171 | Restores heap order and every event's index from a hole with an early element. |
| `MinHeap.ShiftDown` | core/src/main/jni/libevent/minheap-internal.h:173-186 | Restores heap order and every event's index from a hole with a late element. |
| `MinHeap.Push` | core/src/main/jni/libevent/minheap-internal.h:71-77 | Adds exactly one event to a well-formed heap. |
| `MinHeap.Erase` | core/src/main/jni/libevent/minheap-internal.h:96-115 | Takes exactly one event out of a well-formed heap, wherever it is. |
| `EventLists.CountsSet` | core/src/main/jni/libevent/event.c:3154-3171 | Setting or clearing one flag changes the two counters by the weights INCR_EVENT_COUNT and DECR_EVENT_COUNT use. |
| `EventLists.InsertSorted` | core/src/main/jni/libevent/event.c:3279-3307 | Insertion from the back keeps a common-timeout queue sorted. |
| `EventLists.InsertPlace` | core/src/main/jni/libevent/event.c:3279-3307 | The event goes behind all that are due no later, also at the same time, and before all that are due later. |
| `EventLists.ActiveCountExact` | core/src/main/jni/libevent/event.c:3883-3940 | event_count_active is the total length of all active queues and the later queue. |
| `EventLists.CountExact` | core/src/main/jni/libevent/event.c:3883-3940 | event_count is zero exactly when no user event carries a queue flag. |
| `CommonTimeouts.GuardWithout` | core/src/main/jni/libevent/event.c:3215-3235 | Taking an event off a common-timeout queue uncovers no queue. |
| `CommonTimeouts.GuardWith` | core/src/main/jni/libevent/event.c:3363-3385 | Putting an event into a common-timeout queue uncovers that queue at most, and only if the event is now its first. |
| `CommonTimeouts.NothingBeforeTop` | core/src/main/jni/libevent/event.c:3087-3122 | While nothing is active and no callback is owed, no pending timer anywhere is due before the top of the heap. |
| `EventState.PromoteKeeps` | core/src/main/jni/libevent/event.c:3387-3400 | Moving a callback from the later queue to its active queue leaves flags, queues and counters in agreement without touching the counters. |
| `EventBase.Base.constructor` | core/src/main/jni/libevent/event.c:564-699 | A new base is consistent and empty. |
| `EventBase.Base.Assign` | core/src/main/jni/libevent/event.c:2064-2111 | Assigning an idle event keeps the base consistent. |
| `EventBase.Base.InitCommonTimeout` | core/src/main/jni/libevent/event.c:1443-1515 | The queue for a duration is the one there is, or a new one with its proxy while there are fewer than 256; all events stay as they were. |
| `EventBase.CarriedMeans` | core/src/main/jni/libevent/event.c:1453-1461 | For all 32-bit microseconds: a million or less is left alone, the marks of an existing common timeout do not count, and otherwise the duration keeps its length with less than a second of microseconds. |
| `EventBase.Base.PrioritySet` | core/src/main/jni/libevent/event.c:2305-2318 | Fails exactly for an active event or a bad priority. |
| `EventBase.Base.SetInserted` | core/src/main/jni/libevent/event.c:3309-3323 | Flag and counter change together. |
| `EventBase.Base.InsertActive` | core/src/main/jni/libevent/event.c:3325-3344 | The callback goes to the tail of the queue of its priority; flag, queue and counters agree. |
| `EventBase.Base.RemoveActive` | core/src/main/jni/libevent/event.c:3184-3199 | The callback leaves its queue; flag, queue and counters agree. |
| `EventBase.Base.InsertLater` | core/src/main/jni/libevent/event.c:3346-3361 | The callback goes to the tail of the later queue. |
| `EventBase.Base.RemoveLater` | core/src/main/jni/libevent/event.c:3200-3214 | The callback leaves the later queue. |
| `EventBase.Base.RemoveTimeout` | core/src/main/jni/libevent/event.c:3215-3235 | The event leaves the heap or its common queue; every queue stays covered. |
| `EventBase.Base.InsertTimeout` | core/src/main/jni/libevent/event.c:3363-3385 | The event enters the heap or, in order, its common queue, which stays covered unless the event is now its first. |
| `EventBase.Base.Schedule` | core/src/main/jni/libevent/event.c:1406-1413 | Rescheduling the proxy for the first event covers the queue whatever became of the proxy before. |
| `EventBase.Base.Add` | core/src/main/jni/libevent/event.c:2546-2716 | Says exactly when it fails and that a failure changes nothing; what becomes of each flag, deadline and interval of the event; that no other event changes; keeps all queues covered; notifies the loop exactly when the map asks for it or the new timeout is, itself or by its proxy, first in the heap or that one is late; unless it notifies, no deadline is before all the old ones. |
| `EventBase.AddMeans` | core/src/main/jni/libevent/event.c:2546-2716 | The flags after adding: registered unless active or put off, the deadline, the remembered interval, and an activation by an earlier timeout withdrawn. |
| `EventBase.Base.Del` | core/src/main/jni/libevent/event.c:2760-2844 | The event leaves every list and all four flags are clear, or nothing happens to a finalizing one. |
| `EventBase.Base.Cancel` | core/src/main/jni/libevent/event.c:3013-3041 | The same for bare callbacks. |
| `EventBase.Base.CallbackActivate` | core/src/main/jni/libevent/event.c:2951-2979 | The callback is active afterwards unless finalizing; true exactly when it was neither active nor put off. |
| `EventBase.Base.Active` | core/src/main/jni/libevent/event.c:2864-2913 | The event is active once, no longer put off, and pending results add up; nothing happens to a finalizing one. |
| `EventBase.Base.ActiveLater` | core/src/main/jni/libevent/event.c:2923-2992 | The event is put off unless it is already active; pending results add up. |
| `EventBase.Base.Finalize` | core/src/main/jni/libevent/event.c:2196-2253 | The event waits for nothing any more and its finalizer is active, once. |
| `EventBase.Base.RemoveTimer` | core/src/main/jni/libevent/event.c:2504-2521 | Only the timeout and the remembered interval go. |
| `EventLoop.Fire` | core/src/main/jni/libevent/event.c:3138-3147 | A timeout that goes off takes the event off every list, makes it active and reports the timeout; a proxy that fires still covers its queue. |
| `EventLoop.TimeoutProcess` | core/src/main/jni/libevent/event.c:3125-3149 | Exactly the events of the heap that are due time out, flag by flag; all others stay as they were. |
| `EventLoop.CommonCallback` | core/src/main/jni/libevent/event.c:1418-1439 | Exactly the due events of the queue time out, flag by flag, and the proxy is rescheduled for the first of the others. |
| `EventLoop.WaitTime` | core/src/main/jni/libevent/event.c:1924-1933 | The wait is zero if and only if asked for, or something is active, or some timer is due; endless if and only if there is no timer and none of that; never past a deadline, in heap or common queue; a positive wait ends at some deadline. |
| `EventLoop.AddWhileAsleep` | core/src/main/jni/libevent/event.c:2682-2711 | An event added while the loop sleeps: unless the loop is notified, the wait it chose still respects every deadline there is now. |
| `EventLoop.NothingLeft` | core/src/main/jni/libevent/event.c:1935-1941 | The exit-on-empty test is exact. |
| `EventLoop.NextActive` | core/src/main/jni/libevent/event.c:1714-1757 | The next callback is the oldest of the most urgent priority that has any. |
| `EventLoop.Begin` | core/src/main/jni/libevent/event.c:1590-1640 | Starting a callback clears all flags of the event or, if persistent or finalizing, only its active flag; the callback of a proxy is owed. |
| `EventLoop.NextRun` | core/src/main/jni/libevent/event.c:1527-1568 | A persistent timeout runs one interval after the deadline it ran for, without drift, and one interval from now if it ran for another reason or that moment has passed. |
| `EventLoop.Persist` | core/src/main/jni/libevent/event.c:1518-1581 | The persistent event is pending again for that time, in the same common queue. |
| `EventLoop.MakeLaterActive` | core/src/main/jni/libevent/event.c:3387-3400 | All callbacks that were put off, and only they, become active and join the queues of their priorities, behind what was there and in order. |
| `EventLoop.OfPriorityConcat` | core/src/main/jni/libevent/event.c:3387-3400 | Picking a priority out of the later queue keeps its order. |
| `EventLoop.Do` | core/src/main/jni/libevent/event.c:2546-3041 | Each step, by any thread or by the loop, has its effect on the flags, spelled out, and keeps flags, queues, counters and cover; only adding can register an event. |
| `EventLoop.Run` | core/src/main/jni/libevent/event.c:1877-1978 | After every run of steps flags, queues and counters agree, and whenever the loop is about to sleep its wait respects every deadline and is zero exactly if something is active or due. |
| `Reactor.Register` | core/src/main/jni/libevent/evmap.c:265-342 | Asking the map to register one more event lists it, unless a counter would overflow; then nothing changes. |
| `Reactor.Unregister` | core/src/main/jni/libevent/evmap.c:346-409 | Taking events off the map, in any order, leaves exactly the others listed, each once. |
| `Reactor.AddStep` | core/src/main/jni/libevent/event.c:2546-2716 | event_add with the answer of the map: fails exactly if refused or a counter would overflow, otherwise sets the flags; keeps the inserted flags and the lists of the map the same. |
| `Reactor.PersistStep` | core/src/main/jni/libevent/event.c:1518-1581 | Rescheduling a persistent event: has its effect and keeps flags and lists the same. |
| `Reactor.OtherStep` | core/src/main/jni/libevent/event.c:2760-2844 | So does every other step, also one that deletes many events at once, as running timeouts does. |
| `Reactor.KernelAgrees` | core/src/main/jni/libevent/epoll.c:415-460 | With nothing queued the kernel watches an fd for a kind of event if and only if an event with the inserted flag waits for it there. |
| `Reactor.Run` | core/src/main/jni/libevent/event.c:1877-1978 | Every run of base, map and backend, queueing changes or not: flags and lists agree throughout, and after every dispatch the kernel watches exactly what inserted events wait for. |
| `TokenBucket.CfgNew` | core/src/main/jni/libevent/bufferevent_ratelim.c:142-173 | Accepts exactly positive rates not above bursts not above the largest limit. |
| `TokenBucket.RefillExact` | core/src/main/jni/libevent/bufferevent_ratelim.c:73-111 | Up to the maximum, the division-based update is min(maximum, limit + n*rate), with every machine operation in range. |
| `TokenBucket.RefillExactIff` | core/src/main/jni/libevent/bufferevent_ratelim.c:92-103 | For every limit: the update is the capped sum if and only if the limit is at most the maximum or the tokens make up for the wrapped gap. |
| `TokenBucket.OverfullGrows` | core/src/main/jni/libevent/bufferevent_ratelim.c:92-103 | Concrete buckets above their maximum that keep growing, and overflow into debt. |
| `TokenBucket.RefillPositive` | core/src/main/jni/libevent/bufferevent_ratelim.c:92-103 | A refill leaves a bucket with tokens positive if and only if the sum does not fall into the negative half of the type. |
| `TokenBucket.TickDistance` | core/src/main/jni/libevent/bufferevent_ratelim.c:126-140 | Ticks between two moments are counted right across wrap-around. |
| `TokenBucket.UpdateExact` | core/src/main/jni/libevent/bufferevent_ratelim.c:73-111 | Both directions and the tick number after an update. |
| `TokenBucket.UpdateSplits` | core/src/main/jni/libevent/bufferevent_ratelim.c:73-111 | Updating on the way changes nothing: any interval can be split at any tick. |
| `TokenBucket.UpdateWithin` | core/src/main/jni/libevent/bufferevent_ratelim.c:73-111 | An update keeps a bucket within its maximum and takes no tokens away. |
| `TokenBucket.Initialized` | core/src/main/jni/libevent/bufferevent_ratelim.c:49-71 | New buckets have tokens; reconfigured ones are only clipped, and exhausted before exactly when after. |
| `TokenBucket.WindowBound` | core/src/main/jni/libevent/bufferevent_ratelim.c:197-293 | Over any window of T ticks at most burst + T*rate bytes pass, and at most what was in the bucket + T*rate. |
| `Bufferevent.Bev.constructor` | core/src/main/jni/libevent/bufferevent.c:66-112 | A new bufferevent is idle and unlimited. |
| `Bufferevent.Bev.SuspendRead` | core/src/main/jni/libevent/bufferevent.c:66-76 | The backend reads exactly when reading is enabled and nothing suspends it. |
| `Bufferevent.Bev.UnsuspendRead` | core/src/main/jni/libevent/bufferevent.c:78-88 | The same, with one reason less. |
| `Bufferevent.Bev.SuspendWrite` | core/src/main/jni/libevent/bufferevent.c:90-100 | The same for writing. |
| `Bufferevent.Bev.UnsuspendWrite` | core/src/main/jni/libevent/bufferevent.c:102-112 | The same for writing, with one reason less. |
| `Bufferevent.Bev.Enable` | core/src/main/jni/libevent/bufferevent.c:459-480 | Enabling starts the backend only in directions that are not suspended. |
| `Bufferevent.Bev.Disable` | core/src/main/jni/libevent/bufferevent.c:550-563 | Disabling stops the backend. |
| `Bufferevent.Bev.SuspendFor` | core/src/main/jni/libevent/bufferevent.c:66-112 | Suspending or resuming for any other reason leaves the bandwidth bookkeeping alone. |
| `Bufferevent.Bev.GetMax` | core/src/main/jni/libevent/bufferevent_ratelim.c:197-224 | The bound is the refilled bucket, at least zero, and no bucket is exhausted unnoticed by a steady refill. |
| `Bufferevent.Bev.ChargeRead` | core/src/main/jni/libevent/bufferevent_ratelim.c:272-293 | Reading is suspended for bandwidth exactly when the bucket is exhausted, and then a refill is scheduled. |
| `Bufferevent.Bev.ChargeWrite` | core/src/main/jni/libevent/bufferevent_ratelim.c:310-331 | The same for writing. |
| `Bufferevent.Bev.DecrementReadLimit` | core/src/main/jni/libevent/bufferevent_ratelim.c:971-996 | The same for direct decrements, also negative ones. |
| `Bufferevent.Bev.DecrementWriteLimit` | core/src/main/jni/libevent/bufferevent_ratelim.c:998-1025 | The same for writing. |
| `Bufferevent.Bev.RefillFires` | core/src/main/jni/libevent/bufferevent_ratelim.c:393-405 | Between its timeout and its lock the refill callback is still to come. |
| `Bufferevent.Bev.RefillCallback` | core/src/main/jni/libevent/bufferevent_ratelim.c:393-439 | No stuck bufferevent: afterwards a direction is suspended exactly when it was and its bucket is still exhausted, and then another refill is scheduled. |
| `Bufferevent.Bev.SetRateLimit` | core/src/main/jni/libevent/bufferevent_ratelim.c:559-636 | A first configuration starts with one tick of tokens at the current tick, a later one only clips; suspended exactly when exhausted, with a refill scheduled; other reasons untouched; the very configuration in use changes nothing; without a configuration nothing is suspended for bandwidth. |
| `Bufferevent.Do` | core/src/main/jni/libevent/bufferevent_ratelim.c:272-636 | Every step takes effect and keeps it so: the backend works on what is enabled and not suspended, an exhausted bucket suspends its direction, and a refill is scheduled or about to run for whatever is suspended for bandwidth. |
| `Bufferevent.Run` | core/src/main/jni/libevent/bufferevent_ratelim.c:272-636 | So does every run of steps from a new bufferevent. |
| `RateGroup.Group.constructor` | core/src/main/jni/libevent/bufferevent_ratelim.c:638-670 | A new group is unsuspended with tokens and the default share. |
| `RateGroup.Group.Suspend` | core/src/main/jni/libevent/bufferevent_ratelim.c:349-371 | Exactly the members that can be locked are marked; the group is suspended and nothing is pending. |
| `RateGroup.Group.Unsuspend` | core/src/main/jni/libevent/bufferevent_ratelim.c:467-504 | From any random start every member is visited; exactly those that can be locked are unmarked; pending exactly when some could not. |
| `RateGroup.Group.GetMax` | core/src/main/jni/libevent/bufferevent_ratelim.c:197-258 | A suspended group grants nothing and marks the member; otherwise no more than the member may, above the minimum share only if all members could have as much, and less than the member may only if it is the minimum share or more and one more byte for each would exceed the limit; debt stays bounded; the group is covered afterwards if and only if the offer fitted, which can be told before. |
| `RateGroup.GrantedIsFair` | core/src/main/jni/libevent/bufferevent_ratelim.c:241-246 | The quotient that the code computes has that meaning, for every limit, number of members and minimum. |
| `RateGroup.OffersTogether` | core/src/main/jni/libevent/bufferevent_ratelim.c:241-246 | Offers made to all members at one limit exceed it together only if the minimum shares do. |
| `RateGroup.Group.Charge` | core/src/main/jni/libevent/bufferevent_ratelim.c:295-308 | Suspended exactly when the limit is used up; debt stays bounded; a covered group stays covered. |
| `RateGroup.Group.Transfer` | core/src/main/jni/libevent/bufferevent_ratelim.c:197-308 | Granting and charging as one step takes exactly what is used of the offer, and keeps the group covered if the offer fits. |
| `RateGroup.Group.AloneFits` | core/src/main/jni/libevent/bufferevent_ratelim.c:197-258 | With a positive share an offer always fits when no other grant is out. |
| `RateGroup.SettlementExact` | core/src/main/jni/libevent/bufferevent_ratelim.c:197-308 | Every way of settling the grants that are out, in any order and each for at most its amount, keeps the limit above minus one share if and only if using all of them up does. |
| `RateGroup.Settle` | core/src/main/jni/libevent/bufferevent_ratelim.c:279-312 | Charging the group in any such order takes exactly the sum. |
| `RateGroup.Overdraw` | core/src/main/jni/libevent/bufferevent_ratelim.c:197-308 | Two grants that are out together and make the group owe a whole share. |
| `RateGroup.Do` | core/src/main/jni/libevent/bufferevent_ratelim.c:197-810 | Each step of members and timer takes effect and keeps flags, marks and debt in order; one that gives out no grant, or a fitting one, keeps the group covered. |
| `RateGroup.Group.Refill` | core/src/main/jni/libevent/bufferevent_ratelim.c:528-557 | The tokens of the ticks that passed are added up to the burst; stays suspended exactly below a share, members that were missed are tried again; the flags are right afterwards if and only if no suspended group is resumed without tokens. |
| `RateGroup.ZeroShareResumes` | core/src/main/jni/libevent/bufferevent_ratelim.c:528-557 | A group with a share of zero that is resumed without a token. |
| `RateGroup.ShareExact` | core/src/main/jni/libevent/bufferevent_ratelim.c:528-557 | Every refill of every suspended group keeps the flags right if and only if the share is positive. |
| `RateGroup.Group.Decrement` | core/src/main/jni/libevent/bufferevent_ratelim.c:1027-1045 | Direct decrements suspend and resume as the limit crosses zero. |
| `RateGroup.Group.SetMinShare` | core/src/main/jni/libevent/bufferevent_ratelim.c:703-722 | The share is capped by both rates, is positive exactly when a positive one is asked for, and is refused beyond the largest limit. |
| `RateGroup.Group.SetCfg` | core/src/main/jni/libevent/bufferevent_ratelim.c:672-701 | A new configuration clips the limit and the share and keeps the group consistent. |
| `RateGroup.Group.Join` | core/src/main/jni/libevent/bufferevent_ratelim.c:735-764 | A member that joins a suspended group owes its own mark. |
| `RateGroup.Group.FinishJoin` | core/src/main/jni/libevent/bufferevent_ratelim.c:766-779 | It marks itself later, although the group may have been resumed in between, and will be unmarked. |
| `RateGroup.Group.Leave` | core/src/main/jni/libevent/bufferevent_ratelim.c:788-810 | A member that leaves is unmarked. |
| `RateGroup.Run` | core/src/main/jni/libevent/bufferevent_ratelim.c:197-557 | Every interleaving with any try-lock outcomes: unsuspended groups have tokens, pending implies unsuspended, with neither flag no member is marked, and debt is below one burst per member. |
| `RateGroup.TransferRun` | core/src/main/jni/libevent/bufferevent_ratelim.c:197-810 | Every run of one-step transfers, refills, joins and leaves: unsuspended groups have tokens, the limit stays above minus one share, pending implies unsuspended, and with neither flag no member is marked. |
| `RateGroup.CoveredRun` | core/src/main/jni/libevent/bufferevent_ratelim.c:197-810 | The same for every interleaving that gives out only grants that fit. |
| `Nameservers.Pick` | core/src/main/jni/libevent/evdns.c:1334-1367 | Takes at most one lap, returns the first up server from the head on if there is one, else the next, moves the head accordingly, and never reaches the all-down branch of the search. |
| `Nameservers.PickRound` | core/src/main/jni/libevent/evdns.c:1334-1367 | With k servers up, k picks return each of them exactly once. |
| `RequestLists.InsertInflight` | core/src/main/jni/libevent/evdns.c:2823-2841 | A request that goes in flight keeps buckets, ids, counters and server loads in agreement. |
| `RequestLists.RemoveInflight` | core/src/main/jni/libevent/evdns.c:648-664 | So does one that leaves. |
| `RequestLists.Swap` | core/src/main/jni/libevent/evdns.c:544-553 | So does moving a request to another server. |
| `DnsRequests.Resolver.constructor` | core/src/main/jni/libevent/evdns.c:3899-3976 | A new resolver is consistent and empty. |
| `DnsRequests.Resolver.Find` | core/src/main/jni/libevent/evdns.c:468-483 | Looking in one bucket finds the request in flight with the id, if and only if there is one. |
| `DnsRequests.Resolver.FreeId` | core/src/main/jni/libevent/evdns.c:1317-1329 | The id is not in flight and not 0xffff; one exists while fewer requests than ids are in flight. |
| `DnsRequests.Resolver.AddServer` | core/src/main/jni/libevent/evdns.c:2484-2564 | A new server is up, idle and next in the ring. |
| `DnsRequests.Resolver.PickServer` | core/src/main/jni/libevent/evdns.c:1334-1367 | None exactly without servers; the first up server from the head on whenever one is up; the ring turns behind it. |
| `DnsRequests.Resolver.SwapServer` | core/src/main/jni/libevent/evdns.c:544-553 | The request and the loads of both servers change together; no server goes up or down. |
| `DnsRequests.Resolver.ServerUp` | core/src/main/jni/libevent/evdns.c:617-636 | global_good_nameservers counts the servers that are up. |
| `DnsRequests.Resolver.ServerFailed` | core/src/main/jni/libevent/evdns.c:557-615 | Exactly this server goes down; unsent requests leave it whenever another one is up, requests that were sent stay, and counters follow. |
| `DnsRequests.Resolver.Transmit` | core/src/main/jni/libevent/evdns.c:2237-2286 | The request stays marked exactly if it has to be tried later and counts as sent otherwise; no other request changes but for its server; only a refused packet fails the server. |
| `DnsRequests.Resolver.TransmitAll` | core/src/main/jni/libevent/evdns.c:2344-2366 | Exactly the marked requests in flight are handed to their sockets, each once; what stays marked has to be tried later. |
| `DnsRequests.Resolver.Pump` | core/src/main/jni/libevent/evdns.c:742-770 | No request is left waiting while there is room in flight and a server; requests go in the order they came, each is handed to its socket, and so is what was marked; without refusals no server changes its state. |
| `DnsRequests.Resolver.Launch` | core/src/main/jni/libevent/evdns.c:2823-2841 | The request is in flight and was handed to its socket: marked for later or counted as sent. |
| `DnsRequests.Resolver.Submit` | core/src/main/jni/libevent/evdns.c:2746-2841 | A new request goes in flight exactly when there is room and a server, by the server whose turn it is, and is sent, or marked if it has to be tried later; else it goes unsent to the end of the waiting list. |
| `DnsRequests.Resolver.Finish` | core/src/main/jni/libevent/evdns.c:648-706 | The request is gone from its list and counters, and its room is used by the first that wait, each handed to its socket. |
| `DnsRequests.Resolver.Timeout` | core/src/main/jni/libevent/evdns.c:2160-2196 | A request sent often enough is given up and its server fails; any other is handed to the next server, which counts one more timeout in a row and fails after too many. |
| `DnsRequests.Resolver.Reissue` | core/src/main/jni/libevent/evdns.c:714-735 | Succeeds exactly if the server whose turn it is is a different one, in particular if its own is down and another is up, and then starts over; otherwise no request changes. |
| `DnsRequests.Resolver.BadReply` | core/src/main/jni/libevent/evdns.c:895-908 | The request starts over with a server that is up if it may be reissued, had been sent and there is such a server; it is gone once it may not. |
| `DnsRequests.Resolver.GoodReply` | core/src/main/jni/libevent/evdns.c:949-956 | The server is up and the others as before, unless packets sent on this occasion are refused; the request is gone. |
| `DnsRequests.Resolver.Probe` | core/src/main/jni/libevent/evdns.c:2314-2339 | A probe goes in flight to its server regardless of the limit, with an id of its own, and is sent, or marked if it has to be tried later. |
| `DnsRequests.Resolver.SetMaxInflight` | core/src/main/jni/libevent/evdns.c:3385-3414 | Rehashing into the new number of buckets keeps every request findable by its id. |
| `DnsRequests.Resolver.Rehash` | core/src/main/jni/libevent/evdns.c:3398-3407 | Every request in flight is in the new bucket of its id, and nothing else is. |
| `DnsRequests.Do` | core/src/main/jni/libevent/evdns.c:544-2877 | Each step takes effect and keeps lists, ids and counters in agreement. |
| `DnsRequests.Run` | core/src/main/jni/libevent/evdns.c:468-3414 | After every run: buckets by id modulo n, pairwise distinct ids, waiting requests without server, exact global and per-server counters, exact count of up servers. |
| `TagCodec.IntRoundTrip` | core/src/main/jni/libevent/event_tagging.c:117-366 | Every number that fits the field decodes to itself with arbitrary bytes following. |
| `TagCodec.IntLayout` | core/src/main/jni/libevent/event_tagging.c:117-149 | The first nibble is the number of nibbles less one, nibble j the one of weight 16^(j-1), and there is at most a nibble of padding. |
| `TagCodec.TagRoundTrip` | core/src/main/jni/libevent/event_tagging.c:173-242 | Every 32-bit tag decodes to itself with arbitrary bytes following. |
| `TagCodec.TagLayout` | core/src/main/jni/libevent/event_tagging.c:173-194 | Byte i of a tag holds the seven bits of weight 128^i, the high bit is set on all but the last, and no byte is wasted. |
| `TagCodec.TagExamples` | core/src/main/jni/libevent/event_tagging.c:83-88 | The tag 0x166 is written 0xe6, 2, least significant bits first. |
| `TagCodec.RecordHeader` | core/src/main/jni/libevent/event_tagging.c:256-451 | The header of a marshalled record is its tag and length, and its payload comes next. |
| `TagCodec.RecordExample` | core/src/main/jni/libevent/event_tagging.c:256-263 | Tag 1 with the byte 7 is written 1, 1, 7. |
| `TagCodec.StreamRoundTrip` | core/src/main/jni/libevent/event_tagging.c:256-480 | A list of records unmarshals to the same list with nothing left over if and only if none is longer than INT_MAX. |
| `TagCodec.PeekIsRecordSize` | core/src/main/jni/libevent/event_tagging.c:401-417 | The peeked length of a record is its size modulo 2^32, so its size if and only if that has 32 bits. |
| `Tagging.EncodeInt` | core/src/main/jni/libevent/event_tagging.c:117-149 | The nibble loop writes exactly the encoding: header nibble, nibbles, padding. |
| `Tagging.DecodeNibbles` | core/src/main/jni/libevent/event_tagging.c:315-350 | The loop computes the number the nibbles spell. |
| `Tagging.EncodeTag` | core/src/main/jni/libevent/event_tagging.c:173-194 | The loop writes exactly the encoding of the tag, least significant bits first. |
| `Tagging.DecodeTag` | core/src/main/jni/libevent/event_tagging.c:196-242 | Decodes the tag at the front of an evbuffer, rejecting tags over 32 bits, and drains it if asked to and the start is not frozen. |
| `Tagging.DecodeInt` | core/src/main/jni/libevent/event_tagging.c:315-373 | Decodes a number at an offset, contents unchanged. |
| `Tagging.Marshal` | core/src/main/jni/libevent/event_tagging.c:256-263 | Appends exactly the record to the buffer, for every 32-bit length. |
| `Tagging.MarshalInt` | core/src/main/jni/libevent/event_tagging.c:276-297 | Appends exactly the record whose payload is the number. |
| `Tagging.MarshalTime` | core/src/main/jni/libevent/event_tagging.c:306-313 | Appends exactly the record whose payload is the low 32 bits of the two numbers. |
| `Tagging.UnmarshalHeader` | core/src/main/jni/libevent/event_tagging.c:437-451 | Reads the header and leaves exactly the rest, also on failure; a length beyond INT_MAX comes back negative, the largest one as a failure. |
| `Tagging.Consume` | core/src/main/jni/libevent/event_tagging.c:453-462 | Says what is left in every case; exactly one record is taken off if and only if its length is at most INT_MAX, or it is all there is and its length is not the largest one. |
| `Tagging.ConsumesTooMuch` | core/src/main/jni/libevent/event_tagging.c:453-462 | A marshalled record of more than INT_MAX bytes and more bytes behind it: consuming the record takes them all. |
| `Tagging.Unmarshal` | core/src/main/jni/libevent/event_tagging.c:466-480 | Appends exactly the payload to the destination and takes the record off the source; fails, with the header gone, exactly for a bad header or a payload of more than INT_MAX bytes. |
| `Tagging.PeekLength` | core/src/main/jni/libevent/event_tagging.c:401-417 | Reports the record size and changes nothing. |
| `Tagging.UnmarshalInt` | core/src/main/jni/libevent/event_tagging.c:484-534 | Reads a number record, and none with another tag than the needed one. |
| `Tagging.IntRecordOf` | core/src/main/jni/libevent/event_tagging.c:484-534 | Any record with the needed tag is read as the number its own payload holds, or none, whatever follows, and is gone. |
| `Tagging.OtherTag` | core/src/main/jni/libevent/event_tagging.c:494-495 | A record with any other tag is not read, and only its tag is gone. |
| `Tagging.IntRecordRoundTrip` | core/src/main/jni/libevent/event_tagging.c:276-534 | Marshalled 32-bit and 64-bit numbers unmarshal to themselves with arbitrary bytes following. |
| `Tagging.UnmarshalTime` | core/src/main/jni/libevent/event_tagging.c:579-605 | Reads a time record with the needed tag; what is left on every failure, also for a length beyond INT_MAX. |
| `Tagging.TimeRecordOf` | core/src/main/jni/libevent/event_tagging.c:579-605 | Any record with the needed tag is read as the two numbers its own payload holds, or none, whatever follows, and is gone. |
| `Tagging.OtherTimeTag` | core/src/main/jni/libevent/event_tagging.c:588-605 | A record with any other tag is not read, and is gone. |
| `Tagging.TimeRoundTrip` | core/src/main/jni/libevent/event_tagging.c:306-605 | Marshalled times come back modulo 2^32 with arbitrary bytes following, so as they are if and only if both numbers have 32 bits. |
| `Tagging.TakeAll` | core/src/main/jni/libevent/event_tagging.c:466-480 | Unmarshalling until it fails yields, of any bytes, exactly the records they spell, and leaves exactly the rest. |
| `Tagging.Exchange` | core/src/main/jni/libevent/event_tagging.c:256-480 | Records marshalled one after the other into an evbuffer come out as they went in and leave it empty if and only if none is longer than INT_MAX. |
| `Uniform.ThresholdExact` | core/src/main/jni/libevent/arc4random.c:533-539 | The 32-bit formulas give 2^32 mod bound for every bound from 2 on. |
| `Uniform.Uniform` | core/src/main/jni/libevent/arc4random.c:522-555 | The result is below the bound and comes from the first draw that is not below the threshold. |
| `Uniform.EquallyLikely` | core/src/main/jni/libevent/arc4random.c:522-555 | Each result comes from exactly floor(2^32 / bound) of the accepted draws. |

## Left out

- Pinned, reference, multicast and file-backed chains, buffer callbacks, locking and reference counts: they add cases and no harder claim.
- Aliasing of chains: a chain is a value in a list, so pointers into a chain that outlive an operation, and the `last` pointer (always the end of the list), are not modelled.
- Evbuffer.EvBuffer.Add: an allocation fails only for sizes beyond the limit; running out of memory is modelled only where a contract names it, as for Prepend and for adding a timeout.
- Reactor.Run: events wait on descriptors; signals, and descriptors below zero, are not part of the run.
- MinHeap.Push: the heap, like the ring of nameservers, is a value that operations return anew and the base stores; writing into the array in place is not captured.
- File descriptors closed behind the changelist's back, epoll_wait, signals and the other backends.
- EventBase.Base.Add: assumes that rescheduling a proxy can enlarge the heap; a failure there is ignored by the code.
- EventBase.Base.PrioritySet: event_base_priority_init, which changes the number of queues, is not modelled.
- EventLoop.NextActive: event_continue, the dispatch limits and loopbreak, which end a pass early, are not modelled.
- Waiting for a running callback in event_del, and signal events' call counts.
- Bufferevent.Bev.GetMax: for a bucket refilled by hand beyond its maximum the promise holds only if the refill is steady, the exact condition of RefillPositive.
- TokenBucket.TickDistance: a tick shorter than a millisecond is accepted by ev_token_bucket_cfg_new and would divide by zero; the model requires a positive tick.
- Bufferevent.Bev.ChargeRead: the running totals of a group and event_add failures when scheduling a refill are not modelled.
- RateGroup.Group.SetCfg: the bounds on the group's debt over runs are stated for a fixed configuration and share.
- RateGroup.Group.Refill: while a bucket is overfull the group's promises hold only as long as the refill is steady.
- Search domains (search_try_next picks an id before the queue is pumped), resolv.conf and hosts parsing, getaddrinfo, the server side and teardown of the resolver.
- DnsRequests.Resolver.GoodReply: the probe that the code cancels while it brings the server up is cancelled in a separate step of a run.
- DnsRequests.Resolver.ServerUp: cancelling the server's own probe request is a separate step of a run.
- DnsRequests.Resolver.Probe: requires that fewer requests than ids are in flight; otherwise the code would draw for ever.
- DnsRequests.Resolver.FreeId: that the random draws end is not stated; any free id may be the one drawn.
- Tagging.UnmarshalHeader: requires a buffer whose start is not frozen, as the operations built on it do.
- HTTP, RPC, listeners, OpenSSL and the rest of the repository: not part of this model.
