# Order management service: a verified model

This project models, in Dafny, the order-management service of `app/do/stream/server/server.go`.
It also models the two string helpers `substr` and `getParentDirectory` of `app/tt/xt.go`.

The service keeps one in-memory store, `orderMap`, from order identifier to order. It offers five
operations over it:

- **AddOrder** (unary) stores an order under its identifier and confirms with `"Order Added: " + id`.
- **GetOrder** (unary) returns the stored order, or a NotFound status.
- **SearchOrders** (server streaming) sends every stored order with an item that contains the
  query. Each such order is sent once.
- **UpdateOrders** (client streaming) stores each received order as a full replacement. At end of
  input it replies `"Orders processed " + TrimRight("Updated Order IDs : " + "id1, id2, …", ", ")`.
- **ProcessOrders** (bidirectional streaming) resolves each received id against the store. It
  accumulates the orders into one combined shipment per destination, with id
  `"cmb - " + destination` and status `"Processed!"`. When the batch counter reaches
  `orderBatchSize` (3) it sends every held shipment and empties the map. At end of input it sends
  what is still held.

Modules:

- `Orders` holds the records.
- `Store` holds the store as a map, with its put/get algebra.
- `Strings` holds substring search, `TrimRight` and `Join`.
- `Batching` holds the batcher as functions of the received ids.
- `Server` holds the class `OrderManagement`, whose `orderMap` field the methods update.
- `Paths` holds the `xt.go` helpers.
- `Samples` holds the start-up data and the example client session.

The transport is modelled as values:

- An inbound stream is a sequence of messages followed by a `StreamEnd`: either `Eof`, or
  `Broken(reason)` for a transport error.
- The outbound half accepts `sendLimit` messages; the next `Send` fails (`SendFault`).
- Ranging over a Go map visits its keys in an unspecified order. `Server.EnumerateKeys` picks the
  keys one at a time with `:|`, and every contract holds for any such order.

Behaviour modelled as the code has it:

- **The batch counter.** `batchMarker` starts at 1 (server.go:91) but restarts at 0 after a flush
  (server.go:134). So the first automatic flush fires after 3 ids and every later one after 4.
  `Batching.WindowSize` and `Batching.WindowsShape` state this, and `Batching.AccumulatingMarkerBound`
  shows that the counter stays within 0..3.
- **Unknown ids are not rejected.** An id that is not in the store resolves to Go's zero-value
  order (`Batching.Resolve`). That order is grouped under destination `""`, in a shipment named
  `"cmb - "`. The code does not report such ids as errors, and neither does the model.
- **Sample data.** `initSampleData` gives order 103 the destination "changsha" (server.go:144),
  unlike the other four orders. So the first flush of the example session sends two shipments, not
  one.

Specification functions. The contracts below are stated in terms of these functions, and each
one encodes the source lines given here:

- `Store.Get` is the map lookup of server.go:38, and `Store.Put` is the write of server.go:32.
- `Store.PutAll` is the sequence of writes that UpdateOrders performs (server.go:70-85).
  `Store.LastWithId` picks the last received order with a given id.
- `Server.UpdateReply` is the reply text built at server.go:69-84 and sent at server.go:74.
  `Server.IdList` is the text accumulated at server.go:84.
- `Server.Matches` is the item test of server.go:50-52.
- `Orders.IdsOf` is the sequence of ids of the received orders.
- `Batching.Resolve` is the lookup of server.go:112-121, which yields the zero-value order for an
  unknown id. `Batching.Resolved` resolves a sequence of ids.
- `Batching.Accept` is one pass of server.go:112-125: append to the destination's shipment, or
  create `"cmb - " + d` with status `"Processed!"`.
- `Batching.Group` is the map after a window's orders have been accepted in turn.
- `Batching.WindowSize`, `Batching.Split` and `Batching.Windows` cut the received orders where
  the counter fires (server.go:91, 127-137).
- `Batching.ShipmentsAt` is one flush, in a given key order (server.go:100-104, 128-133).
  `Batching.Emitted` is the sequence of flushes of a session.

## Model

| member | source | states |
|---|---|---|
| Store.Put | app/do/stream/server/server.go:32 | Storing an order adds its id to the keys and maps that id to the order. Every other entry is unchanged, and every record stays filed under its own id. |
| Store.GetAfterPut | app/do/stream/server/server.go:30-43 | After AddOrder, a GetOrder of that id returns the new order. A GetOrder of any other id is unaffected. |
| Store.PutAllLastWriteWins | app/do/stream/server/server.go:70-85 | After a sequence of replacements, a lookup of `id` returns the last order put under `id`. If no such order was put, it returns what the store held before. |
| Store.PutAllKeyed | app/do/stream/server/server.go:81 | A batch of replacements keeps every record filed under its own identifier. |
| Store.PutAllSnoc | app/do/stream/server/server.go:81 | Applying one more order to a batch of replacements is one more put. |
| Store.LastWithIdCons | app/do/stream/server/server.go:81 | The last order with a given id is found in the tail if it occurs there, otherwise at the head. |
| Server.OrderManagement.AddOrder | app/do/stream/server/server.go:30-34 | The new store is the old one with the order put under its id (last write wins). The reply is exactly "Order Added: " + id. |
| Server.OrderManagement.GetOrder | app/do/stream/server/server.go:37-43 | Returns Ok exactly when the id is stored, with the stored record, whose id is the one asked for. Otherwise it returns NotFound(id), never a zero-value order. |
| Server.OrderManagement.SearchOrders | app/do/stream/server/server.go:46-64 | No more is sent than the transport accepts. Every order sent is a stored order with an item containing the query (`Matches`), and no key is sent twice. On success every matching stored order was sent. If a send fails, the limit was reached and some matching order was left unsent. |
| Server.OrderManagement.UpdateOrders | app/do/stream/server/server.go:67-86 | The store ends as the old one with every received order put in arrival order. On end of input the reply is UpdateReply of the received ids. On a broken stream it returns that error and sends no reply, and the updates already applied remain. |
| Server.IdListStep | app/do/stream/server/server.go:84 | Each received order extends the accumulated text by its id followed by ", ". |
| Server.IdListJoin | app/do/stream/server/server.go:69-84 | For a non-empty list of ids, the accumulated text is the ids joined with ", ", plus a trailing ", ". |
| Server.JoinEndsWithLast | app/do/stream/server/server.go:74 | The joined list ends with the last character of the last id. |
| Server.UpdateReplyLists | app/do/stream/server/server.go:69-84 | When the last id is non-empty and does not end in ',' or ' ', the reply is "Orders processed Updated Order IDs : " followed by the ids joined with ", ". Only the trailing separator is trimmed. |
| Server.TrimmedList | app/do/stream/server/server.go:69-84 | After any heading, trimming the accumulated text removes only the final ", " when the last id is non-empty and ends outside the cut set. What remains is the heading and the ids joined with ", ". |
| Server.UpdateReplyNoOrders | app/do/stream/server/server.go:69-74 | With no orders received, the reply is "Orders processed Updated Order IDs :" (the trailing space is trimmed). |
| Server.EnumerateKeys | app/do/stream/server/server.go:48 | Ranging over a map lists every key exactly once, in some order. |
| Server.SendAll | app/do/stream/server/server.go:100-104 | Sends a batch message by message. The batch succeeds exactly when it fits within the transport's limit. Otherwise the output is cut at the limit and the rest of the batch is not attempted. |
| Server.AcceptOrder | app/do/stream/server/server.go:112-125 | Adding one order to the accumulation map gives Accept of the old map. Its destination is then present, and every other destination's shipment is unchanged. |
| Server.FlushShipments | app/do/stream/server/server.go:127-133 | The map's shipments are sent in an order that lists each destination once, one shipment per destination. Sending stops at the first failed send. Every shipment sent is well formed. |
| Server.OrderManagement.ProcessOrders | app/do/stream/server/server.go:89-140 | Flush b sent exactly the shipments of window b, and the windows are where the counter fires. On Eof, every id is consumed and every window is flushed, with the last flush being the remainder. On a broken stream the error is returned and the open window is dropped. On a failed send, the failing flush is either an automatic flush of a complete window (the next window is still empty) or the final flush after end of input; it is the first flush that overflows the limit (everything before it fits), and the output is the session's output cut at the limit. Every shipment sent is well formed. On success the orders sent are, as a multiset, exactly the resolved received ids. |
| Batching.ResolvedSnoc | app/do/stream/server/server.go:94-121 | Receiving one more id appends its resolved order. |
| Batching.GroupCharacterized | app/do/stream/server/server.go:112-125 | After a window, the accumulation map has one entry per destination seen. Each entry has id "cmb - " + d and status "Processed!", and holds exactly the window's orders for d, in arrival order, with duplicates appended again. |
| Batching.FilterSnoc | app/do/stream/server/server.go:115-118 | An arriving order is appended at the end of its destination's list and leaves the others alone. |
| Batching.FilterNonEmpty | app/do/stream/server/server.go:112-123 | A destination has orders in the window exactly when some order of the window is bound there, and those orders are all bound there. |
| Batching.GroupWellFormed | app/do/stream/server/server.go:112-125 | Every held shipment is non-empty, is labelled "Processed!", and holds only orders for the destination its id names. |
| Batching.AcceptGroup | app/do/stream/server/server.go:112-125 | Accepting an order into the map of a window gives the map of the window extended by that order. |
| Batching.SplitShape | app/do/stream/server/server.go:91-138 | Joining the windows back together gives the input. Each complete window holds exactly its size, and the open window holds fewer. |
| Batching.WindowsShape | app/do/stream/server/server.go:91-138 | The first automatic flush follows the 3rd id and each later one follows 4 more. The windows joined back together are the whole input. The remainder at end of input is shorter than a window. |
| Batching.SplitSnoc | app/do/stream/server/server.go:127-138 | A new order either completes the open window (a flush, and an empty window opens) or joins it. |
| Batching.FilterEachSnoc | app/do/stream/server/server.go:112-125 | Listing the orders destination by destination, one more order adds itself once when its destination is listed. |
| Batching.FilterEachConserves | app/do/stream/server/server.go:112-125 | Over an enumeration of the window's destinations, the per-destination lists together are the window as a multiset. |
| Batching.FilterEachEmpty | app/do/stream/server/server.go:112-125 | The empty window contributes no orders to any destination. |
| Batching.ShipmentsAtOrders | app/do/stream/server/server.go:128-133 | The orders of the flushed shipments are the window's orders listed destination by destination. |
| Batching.FlushConserves | app/do/stream/server/server.go:128-133 | One flush sends one shipment per destination held. Together those shipments hold exactly the window's orders, each as often as it was received. |
| Batching.ShipmentsAtLength | app/do/stream/server/server.go:128-133 | Listing a map's shipments in an enumeration of its keys yields as many shipments as the map has keys. |
| Batching.ShipmentsAtAgree | app/do/stream/server/server.go:128-133 | The shipments listed depend only on the map entries under the listed keys. |
| Batching.FlushWellFormed | app/do/stream/server/server.go:128-133 | Every shipment a flush sends is well formed. |
| Batching.EmittedAgree | app/do/stream/server/server.go:127-138 | What earlier flushes sent does not change while the open window grows. |
| Batching.EmittedSnoc | app/do/stream/server/server.go:127-138 | One more flush appends the next window's shipments to the output. |
| Batching.EmittedWellFormed | app/do/stream/server/server.go:100-133 | Every shipment a session sends is well formed. |
| Batching.EmittedConserves | app/do/stream/server/server.go:100-138 | Once every window has been flushed, the shipments sent hold exactly the received orders, each as often as received. |
| Batching.AccumulatingMarkerBound | app/do/stream/server/server.go:91-138 | At every loop head the counter lies within 0..3. It reaches 3 exactly when the next id completes the open window. |
| Batching.PendingCount | app/do/stream/server/server.go:112-138 | At every loop head, the held shipments contain exactly the orders that the ids received since the last flush resolve to (an unknown id contributes the zero-value order). Their number is the counter, minus the initial 1 before the first flush. |
| Batching.AccumulatingInitially | app/do/stream/server/server.go:91-92 | A session starts with an empty map, the counter at 1, and nothing sent. |
| Batching.FlushedAllAgree | app/do/stream/server/server.go:127-138 | Flushes recorded for closed windows stay valid while only the open window changes. |
| Batching.AcceptWithoutFlush | app/do/stream/server/server.go:112-137 | Below the batch size, the order joins the open window and the counter moves up by one. |
| Batching.AcceptCompletesWindow | app/do/stream/server/server.go:112-127 | At the batch size, the order completes the open window, which becomes due for flushing. |
| Batching.FlushRestarts | app/do/stream/server/server.go:128-135 | After a flush the map is empty, the counter is 0, and the output has grown by that window's shipments. |
| Batching.FinalFlush | app/do/stream/server/server.go:96-105 | The end-of-input flush sends what is held, and then every window has been flushed. If nothing is held it sends nothing. |
| Orders.OrdersOfAppend | app/do/stream/server/server.go:100-133 | The orders of two runs of shipments are the orders of each run, concatenated. |
| Strings.Contains | app/do/stream/server/server.go:52 | The substring test is true exactly when the query occurs at some index. |
| Strings.TrimRight | app/do/stream/server/server.go:74 | The result is a prefix of the input. Every character removed is in the cut set, and the result does not end in one. |
| Strings.TrimRightDropsTail | app/do/stream/server/server.go:74 | Trimming a tail made only of cut characters, from text whose last character is not one, gives the text back. |
| Strings.MissingFirstChar | app/do/stream/server/server.go:52 | A text without the query's first character does not contain the query. |
| Paths.WrapAdd | app/tt/xt.go:40 | The 64-bit `int` sum: the exact sum when it fits, otherwise wrapped around by 2^64: negative when it overflows upwards, non-negative when it overflows downwards. |
| Paths.Substr | app/tt/xt.go:38-45 | Returns the characters of s from pos, at most `length` of them. The end is clamped at the length of s, so the result has `length` characters or runs to the end. The precondition excludes exactly the panicking inputs. |
| Paths.SubstrSliceInRange | app/tt/xt.go:40-44 | The rune slice is in range exactly when 0 <= pos <= |s|, length >= 0 and pos + length does not overflow `int`. Outside that range the end wraps or falls before pos, and `substr` panics. |
| Paths.HugeLengthWraps | app/tt/xt.go:40-44 | `substr("ab", 1, MaxInt)` computes a wrapped, negative end, so it panics instead of returning "b". |
| Paths.SubstrFromStart | app/tt/xt.go:38-45 | From position 0 the result is a prefix of s. It is s itself once `length` reaches the size of s, and a prefix plus the following substring gives s back. |
| Paths.LastIndex | app/tt/xt.go:48 | The index of the last `/` counted in characters. It is -1 exactly when there is none, and no `/` follows it. |
| Paths.LastIndexBytes | app/tt/xt.go:48 | The library's byte offset of the last `/`. It is -1 exactly when there is none. |
| Paths.AsciiSize | app/tt/xt.go:48 | On ASCII text, bytes and characters coincide. |
| Paths.Utf8SizePrefix | app/tt/xt.go:48 | A prefix of a text takes no more UTF-8 bytes than the whole text. |
| Paths.AtLeastAsManyBytes | app/tt/xt.go:48 | A text has at least as many UTF-8 bytes as characters. |
| Paths.GetParentDirectoryAsWritten | app/tt/xt.go:47-49 | For a path containing "/" (the byte length of a Go string fits in `int`), the program's cut (a byte offset used as a character count) is a prefix of the path, no shorter than the text before the last `/`. |
| Paths.GetParentDirectory | app/tt/xt.go:47-49 | The parent directory is strictly shorter than the path. Followed by "/" and the last component, it restores the path, and the last component holds no "/". |
| Paths.ParentAsWrittenOnAscii | app/tt/xt.go:47-49 | On an ASCII path the program's cut equals the parent directory. |
| Paths.NoSlashSlicesBeforeStart | app/tt/xt.go:47-49 | A path without "/" makes the slice end -1, which panics. |
| Paths.ParentAsWrittenKeepsSlash | app/tt/xt.go:47-49 | For "é/x" the program returns "é/", while the parent directory is "é". |
| Samples.SampleStore | app/do/stream/server/server.go:142-148 | The seeded store holds five orders, each under its own id. |
| Samples.ClientSessionWindows | app/do/stream/server/server.go:91-138 | With the seeded store, the ids 102, 103, 104, 101 cut into the window [102, 103, 104] and a remainder holding the zero-value order. |
| Samples.ClientFirstFlush | app/do/stream/server/server.go:112-133 | The first flush holds "cmb - shenzhen" with 102 then 104, and "cmb - changsha" with 103. |
| Samples.ClientFinalFlush | app/do/stream/server/server.go:96-123 | The final flush holds one shipment "cmb - " with the zero-value order of the unknown id 101. |
| Samples.SearchGoogleMatches | app/do/stream/server/server.go:143-145 | Searching the seeded store for "Google" matches orders 102 and 104. |
| Samples.SearchGoogleSkips | app/do/stream/server/server.go:144-147 | Orders 103, 105 and 106 do not match "Google". |
| Samples.NoItemHasFirstChar | app/do/stream/server/server.go:50-52 | An order none of whose items holds the query's first character does not match the query. |

## Left out

- gRPC plumbing is not modelled: `main`, `net.Listen`, server registration and every `log` call. None of it affects what is stored or sent.
- The streams are values, not channels. The receive side is a finished sequence of messages with its end. The send side is a transport that accepts a fixed number of messages.
- Context deadlines and cancellation have no counterpart in the model.
- Concurrent sessions and unsynchronised access to the global `orderMap` are out of scope. The model is one sequential caller.
- The server struct's unused `orderMap` field is not modelled. The methods use the package-level map, which the class's field models.
- Server.OrderManagement.UpdateOrders: `SendAndClose` is assumed to succeed. A failure of that final send is not modelled.
- Server.OrderManagement.GetOrder: the text of the NotFound status message is not modelled, only its code and the requested id.
- `Price` is a floating-point number in the service. The model carries an integer in its place and never inspects it. `Samples` writes the sample prices in hundredths.
- Paths.Substr: Go's `int` is taken to be 64 bits wide. On a 32-bit platform the overflow bound of `pos + length` would be 2^31 - 1 instead.
- Invalid UTF-8 strings cannot be written in this model, which works on Unicode characters.
- The example client (`app/do/stream/client/client.go`) is not part of this model. Its session of ids 102, 103, 104, 101 appears in `Samples`.
- The protobuf round trip in `app/do/test.go`, and `GetCurrentDirectoryV1`/`V2` and `main` in `app/tt/xt.go`, are not part of this model. They are file and OS calls around a library whose code is not here.

## Findings

| source | as written | input that shows it | evidently intended | confidence | as-written member | corrected member |
|---|---|---|---|---|---|---|
| app/tt/xt.go:47-49 | `strings.LastIndex` returns a UTF-8 byte offset, which is passed to `substr` as a count of runes. | "é/x": the last "/" is at byte 2 but at rune 1, so the result is "é/" | "é", the text before the last "/" | not executed | Paths.ParentAsWrittenKeepsSlash | Paths.GetParentDirectory |
