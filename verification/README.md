# Verified model of the Linux BLE host stack

This project models the parts of the stack whose correctness does not show in any single function, and
proves what they promise. It follows the program's own structure:

- **The ATT database, server and GATT client as one system.** `NewDB` numbers the attributes of the
  caller's service objects; the server packs ranges of that table into responses of at most one MTU; the
  client's discovery loops unpack them. The server and client are classes over byte buffers and lists with
  the loops of the source; the main result is that a client that discovers a profile from a server built
  by `NewDB` ends up with exactly the services, characteristics and descriptors the server was given, for
  every transmit length from 23 to 515. Long reads, prepared writes, the MTU exchange and subscriptions
  belong here too. `AttAccess` states what the server does with the PDUs of a peer octet by octet, and
  `DiscoveredProfile` what the client's objects hold field by field.
- **ATT client transactions** as a step protocol: request methods sharing one transmit buffer, the read
  loop and its one-slot response channel, the abandoned-transaction record and the poison flag. A run is
  any list of actions; actions that are not enabled change nothing, so that the lists are all the
  interleavings of any number of goroutines, the loop and the peer.
- **The ACL path**: the shared transmit pool with its in-flight queues, the fragment trains under the
  per-connection mutex, acknowledgements and teardown, again as a step protocol; and the fragmenting and
  reassembling code as methods proved to be each other's inverse.
- **Advertising packets and reports, the connection-update slot and the connection-parameter arithmetic.**

Handles, lengths and counters of the source that are `uint16`, `byte` or `int64` wrap around in the
model where they do there.

## Assumptions

- User read and write handlers are an oracle: for each request, any outcome per handle and per delivery.
- The peer of the ATT client answers each request at most once and in order, and otherwise sends what it
  likes, as long as its own PDUs carry no response opcode. A request write that reports an error has not
  reached the peer.
- The controller acknowledges no more packets than it was sent. It completes or refuses each connection
  update command at most once, whatever `Send` made of it, and reports no update that was not commanded. A
  connection handles its peer's requests, and the event loop its events, one after the other.
- Timers and contexts may fire at any moment.

## What turned out not to hold

Each of these comes with the inputs at which it fails and with the exact condition, proved for all runs.

- *Server transmit length >= client transmit length* fails after an exchange that the server handled but
  whose response the client never got, when it asked for less than the client has:
  `MtuExchange.LostResponseShortensLongReads` gives such a run, in which a long read of 60 bytes ends after
  22. It holds if and only if the last MTU the server handled reaches the one last agreed
  (`MtuExchange.CoverageOverRuns`).
- *The server sends no more than the client's connection receives* fails the other way round, after a lost
  response to a larger request: the server may send up to 515 bytes to a connection that still ends on more
  than 23 (`MtuExchange.LostResponseExceedsReceiveLimit`). It holds if and only if the last MTU handled is at
  most the last one completed (`MtuExchange.ReceiveLimitOverRuns`).
- *Each response is attributed to its request* can fail after a refusal write inside `sendReq` fails, an exit
  that records nothing. Such an exit leads to a wrong pairing if and only if the loop still reads and the
  request's answer is still to be read (`AttTransactions.HarmIsExact`; a reachable state in
  `HarmIsReachable`). In all runs without one, attribution holds, whether the loop lives or not
  (`AttTransactions.ResponsesAreAttributed`).
- *At most one transaction is outstanding* fails when the read loop has died on a read error of a live link:
  `sendReq` then leaves through its error arm (or a failed refusal) with its request on the wire and neither
  poisons the bearer nor records the transaction. `AttTransactions.DeadLoopOverwrites` is such a run, with two
  requests outstanding at the end. In runs without a harmful refusal failure it fails if and only if a wait
  was left that way (`AttTransactions.OverwritingIsExact`).
- *The late response of an abandoned request frees the bearer* fails when it comes while a PDU of the peer's
  own is in `rspc`: the loop drops it, and until the transaction's deadline poisons the bearer no request is
  written (`AttSettling.LateAnswerIsLost` is such a run). Another request can be written if and only if the
  bearer is open and the late answer is in `rspc`, or outstanding while the loop reads
  (`AttSettling.NextRequestIsExact`).
- *Each update completion reaches its claimant* fails when the slot is released with the completion still to
  come: an application call that gives up, as the source's own comment says, but also a call or a peer
  request whose `Send` times out on a command the controller executes all the same. The request handler
  then takes no completion to be owed (`UpdateSlot.LateCompletionIsMistaken` is such a run: an application
  call receives the completion of an earlier peer request). A release does harm if and only if the claim's
  completion can still reach the slot, that is, it is in the event loop's hands or owed on a live connection
  (`UpdateSlot.ReleaseIsExact`). In all other runs each command's completion is accounted for, with its own
  claimant (`UpdateSlot.CompletionsAreAttributed`).
- *A forced discovery finds the profile* fails on a client that has one: the walks append to the lists that
  are there. A discovery yields the server's hierarchy if and only if the client held no services before
  (`GattClient.Client.DiscoverProfile`); after a forced discovery right behind the first one every service is
  listed twice, and those of the first have every characteristic twice (`GattClient.Client.DiscoverAgain`).
- *Read hands over the SDU it counts* fails for a PDU longer than both its length field and the buffer: the
  buffer keeps what it held. It holds if and only if the payload fits or the SDU is empty
  (`Recombine.ReadIsExact`).
- *Reassembly returns an error for malformed packets* fails for short ones: recombine panics if and only if
  the first packet does not hold the L2CAP header or it reads beyond a later one
  (`Recombine.PanicIsExact`).

## Model

| member | source | states |
|---|---|---|
| AttDb.SubrangeIsFilter | linux/att/db.go:24-62 | index arithmetic on a range yields exactly the attributes whose handle lies in it, for every start <= end including 0 and 0xFFFF |
| AttDb.AtFindsByHandle | linux/att/db.go:35-41 | a handle is found exactly when the table holds it, and nothing else is returned |
| AttDb.GenDescAttrs | linux/att/db.go:126-143 | the descriptor loop lays the descriptors out one after the other and advances the handle by their number |
| AttDb.AttachCCCD | linux/att/db.go:118-121 | a characteristic that notifies or indicates gets one CCCD behind its declared descriptors, any other none |
| AttDb.GenCharAttr | linux/att/db.go:99-133 | declaration, value and descriptors in the specified layout; the object has its handle, value handle and CCCD written back, nothing else of it changes |
| AttDb.GenCharsAttrs | linux/att/db.go:80-97 | the characteristics of a service follow each other without gaps, each laid out as it was declared |
| AttDb.GenSvcAttr | linux/att/db.go:80-97 | the declaration of a service with its group end, then its characteristics |
| AttDb.NewDB | linux/att/db.go:65-78 | the database is exactly the table specified for the services passed, the last group running to 0xFFFF; each characteristic object carries the handles it was laid out at, its value, handlers and declared descriptors unchanged |
| AttLayout.TableIsConsecutive | linux/att/db.go:65-97 | attribute i has handle base + i |
| AttLayout.ServicesPartitionTable | linux/att/db.go:65-97 | the services' handle ranges tile the table: a group ends one below the next declaration, or at 0xFFFF, and the range holds exactly the service's attributes |
| AttLayout.CharacteristicsPartitionService | linux/att/db.go:80-133 | a characteristic's end handle is one below the next declaration of a characteristic or service, and its attributes fill the range |
| AttLayout.DeclarationAttribute | linux/att/db.go:99-106 | at a characteristic's handle stands its declaration: type 0x2803, the properties, the value's handle low byte first and the UUID, without handlers |
| AttLayout.ValueAttribute | linux/att/db.go:108-114 | one handle behind stands its value, under the declared UUID and with the declared static value, read handler and write handler |
| AttLayout.DescriptorAttribute | linux/att/db.go:118-143 | behind that stand the declared descriptors, each with its own UUID, value and handlers, and then, exactly if the characteristic notifies or indicates, a CCCD of type 0x2902 with both handlers |
| AttAccess.PlacedObjectIsInTable | linux/att/db.go:102-117 | the handles written back to a characteristic object are those of its own declaration and value, which has the object's UUID, value and handlers |
| AttAccess.PlacedDescriptorIsInTable | linux/att/db.go:118-143 | behind the value handle of the object stand its descriptor objects, each with its UUID, value and handlers |
| AttAccess.ValueIsServed | linux/att/server.go:757-802 | end to end over NewDB's table, byte by byte: a read of a value handle is answered with the declared value cut to the MTU, with what the declared read handler produces, or Read Not Permitted; a write calls the declared write handler with the data at offset 0, or gets Write Not Permitted |
| AttAccess.DescriptorIsServed | linux/att/db.go:135-143 | the same for each declared descriptor and for the CCCD |
| AttAccess.DeclarationIsServed | linux/att/db.go:99-106 | a declaration is read with its properties, value handle and UUID, and cannot be written |
| AttPdu.Written | handler.go:130-139 | a handler's writes never exceed the capacity |
| AttPdu.WrittenNext | handler.go:130-139 | the output grows by exactly the writes that fit what is left of the capacity |
| AttPdu.AllWritten | handler.go:130-139 | writes that fit together are all kept, in order |
| AttPdu.ReadValue | linux/att/server.go:757-802 | a dynamic value stays within the capacity it was asked for |
| AttPdu.PackRestIsMaximalPrefix | linux/att/server.go:309-337 | packing takes exactly the longest prefix of equal-sized entries that fits |
| AttServer.PutEntry | linux/att/server.go:418-447 | the first entry fixes the size; an entry is taken whole, behind the others, if it has that size and fits |
| AttServer.FillInformation | linux/att/server.go:309-337 | the buffer holds the format of the first attribute and the packed entries |
| AttServer.FillByType | linux/att/server.go:405-451 | the buffer holds what packing the matching values in order yields; an error of the first value's handler ends the request, a later one the list |
| AttServer.FillByGroup | linux/att/server.go:543-585 | the same for groups, where a handler may use the room left and its error always ends the request |
| AttServer.FillMatches | linux/att/server.go:354-389 | the handle list of the attributes with the value, or the error exit |
| AttServer.Server.HandleExchangeMTU | linux/att/server.go:257-291 | the response carries our receive MTU; all three buffers take the client's MTU, capped, and a malformed request changes nothing |
| AttServer.Server.HandleFindInformation | linux/att/server.go:294-337 | response within the buffer, equal to the specified one |
| AttServer.Server.HandleFindByTypeValue | linux/att/server.go:340-389 | response within the buffer, equal to the specified one |
| AttServer.Server.HandleReadByType | linux/att/server.go:392-451 | response within the buffer, equal to the specified one |
| AttServer.Server.HandleReadByGroup | linux/att/server.go:529-585 | response within the buffer, equal to the specified one |
| AttServer.Server.HandleRead | linux/att/server.go:454-486 | response within the buffer, equal to the specified one |
| AttServer.Server.HandleReadBlob | linux/att/server.go:489-526 | response within the buffer, equal to the specified one |
| AttServer.Server.HandleWrite | linux/att/server.go:588-608 | exactly one delivery at offset 0 when the attribute can be written, none otherwise, and the matching response |
| AttServer.Server.HandlePrepareWrite | linux/att/server.go:610-655 | a part is queued, within both caps, exactly when it is echoed; the queued total stays exact |
| AttServer.Server.NextRun | linux/att/server.go:688-699 | the run that starts at a part is the longest contiguous one, with its data joined |
| AttServer.Server.DeliverRuns | linux/att/server.go:687-707 | one delivery per run, up to the first refused |
| AttServer.Server.HandleExecuteWrite | linux/att/server.go:665-713 | flags 0 and 1 leave the queue empty, flag 1 delivers the runs, any other request changes nothing |
| AttServer.Server.HandleRequest | linux/att/server.go:216-254 | for every non-empty PDU: the response, the deliveries to write handlers, the prepare queue and the transmit lengths behind it are those of its opcode's handler; no handler slices out of range, and the response fits the buffer or echoes a Prepare Write |
| AttAccess.ReadOfAttribute | linux/att/server.go:454-486 | the octets of a Read Request and of its answer, for every kind of attribute |
| AttAccess.BlobOfAttribute | linux/att/server.go:489-526 | the same for Read Blob: the value from the offset on, Invalid Offset behind its end, and a handler's output as it is |
| AttAccess.WriteOfAttribute | linux/att/server.go:588-608 | a Write Request through the dispatch makes one delivery if the attribute can be written, none otherwise, and is answered with octet 0x13 or the error |
| AttAccess.CommandOfAttribute | linux/att/server.go:716-736 | a Write Command delivers the same, unless it is empty, and is never answered |
| AttAccess.PrepareOfAttribute | linux/att/server.go:610-655 | a Prepare Write Request queues its part with the handle and the offset in its octets and is echoed, exactly if the attribute can be written and 64 parts and 512 bytes are kept; else Write Not Permitted or Prepare Queue Full |
| AttAccess.UnknownHandleIsRefused | linux/att/server.go:454-626 | a read, blob read, write or prepare of a handle outside the table gets Invalid Handle and does nothing |
| AttAccess.UnusablePduIsRefused | linux/att/server.go:216-254 | a PDU of the wrong length gets Invalid PDU, an opcode that is not served Request Not Supported, and neither does anything |
| AttAccess.EmptyRangeIsRefused | linux/att/server.go:294-302 | a range request that is empty or starts at 0 gets Invalid Handle with its start |
| AttAccess.MtuRequestIsAnswered | linux/att/server.go:257-291 | the octets of the exchange; the transmit length becomes what was asked for, at most 515 |
| AttAccess.RangeIsAnswered | linux/att/server.go:294-585 | the octets of the three listing requests and of their answers: error, attribute not found, or opcode, entry size or format, and list |
| AttAccess.ValueSearchIsAnswered | linux/att/server.go:340-389 | the same for Find By Type Value |
| AttAccess.EntriesOnTheWire | linux/att/server.go:309-337 | the fields of the entries of each list, in order and low byte first |
| AttAccess.DynamicEntries | linux/att/server.go:543-585 | how many bytes of a read handler's output each of the listing requests takes, and when it fails |
| AttGrouped.FillIsMaximalPrefix | linux/att/server.go:405-451 | a list is the longest prefix of the matching entries whose size equals the first's after the caps and which fits |
| AttGrouped.ReadByTypeIsMaximalPrefix | linux/att/server.go:392-451 | over static attributes: exactly the maximal prefix of the in-range attributes of the type, in handle order |
| AttGrouped.ReadByGroupIsMaximalPrefix | linux/att/server.go:529-585 | the same with group ends |
| AttGrouped.InformationIsMaximalPrefix | linux/att/server.go:294-337 | exactly the maximal prefix of the in-range attributes with the first one's UUID format |
| AttGrouped.FindByTypeValueIsMaximalPrefix | linux/att/server.go:340-389 | over static attributes: the handle pairs of the first matches with the value, as many as fit |
| AttGrouped.GroupWalkIsFill | linux/att/server.go:529-585 | for static values the group walk and the type walk pack alike |
| PreparedWrites.CoalescingPreservesMeaning | linux/att/server.go:665-713 | the coalesced deliveries leave every byte store as the parts applied one by one in arrival order |
| PreparedWrites.DeliveriesArePrefix | linux/att/server.go:687-712 | on a refusal the deliveries are a prefix of the runs and the error names that run's handle and status; else all are made |
| PreparedWrites.LongWriteIsOneDelivery | linux/att/server.go:656-713 | the consecutive parts of a long write reach the handler as one delivery of the whole value |
| AttWrites.Write | linux/att/client.go:359-372 | a value within the MTU reaches the write handler once, whole, or the peer's error is returned; a longer one is refused |
| AttWrites.WriteCommand | linux/att/client.go:376-393 | the same without an answer |
| AttWrites.PrepareWrite | linux/att/client.go:423-441 | the part joins the server's queue with its handle and offset exactly when the call returns them echoed |
| AttWrites.ExecuteWrite | linux/att/client.go:446-454 | flag 1 delivers the queue's runs up to the first refused and returns that status, flag 0 delivers nothing; both empty the queue |
| AttWrites.LongWrite | linux/att/server.go:676-713 | the calls in sequence, for every value and MTU: a value of up to 512 bytes reaches a writable attribute's handler as exactly one delivery of all of it at offset 0; any other is refused with the matching error and nothing is delivered |
| AttCalls.RoundTrip | linux/att/client.go:160-185 | for any request: the server's response, or the error its envelope stands for; the server is left as its handler leaves it |
| AttCalls.ReadByGroupType | linux/att/client.go:331-355 | a whole number of entries of the declared length, or an error |
| AttCalls.ReadByType | linux/att/client.go:242-266 | a whole number of entries of the declared length, or an error |
| AttCalls.FindInformation | linux/att/client.go:190-224 | a whole number of entries of a known format, or an error |
| AttCalls.Read | linux/att/client.go:270-281 | the value part of a Read Response, or an error |
| AttCalls.ReadBlob | linux/att/client.go:286-298 | the part in a Read Blob Response, or an error |
| AttCalls.GroupReplyHolds | linux/att/client.go:331-355 | against the server, a group request yields attribute-not-found or the first k whole entries of the matches |
| AttCalls.TypeReplyHolds | linux/att/client.go:242-266 | the same for a type request |
| AttCalls.InformationReplyHolds | linux/att/client.go:190-224 | the same for an information request |
| Discovery.ServicesMatch | linux/gatt/client.go:166-206 | the attributes a service walk can match are the service declarations, in order |
| Discovery.CharsMatch | linux/gatt/client.go:271-313 | the attributes a characteristic walk can match are the characteristic declarations, in order |
| Discovery.TableIsWalkable | linux/att/db.go:65-133 | NewDB's table can be walked over any range: what is typed like a characteristic declaration is one, with its value right behind it |
| Discovery.HeadsAreExpected | linux/gatt/client.go:289-310 | what a walk makes of a service's declarations are its characteristics, with handles, properties, ends and UUIDs |
| Discovery.TakeService | linux/gatt/client.go:187-203 | an entry is read back as the handle, group end and UUID the server packed, and the next entry follows |
| Discovery.TakeCharacteristic | linux/gatt/client.go:289-309 | the same for handle, properties, value handle and UUID |
| Discovery.TakeAttribute | linux/gatt/client.go:332-344 | the same for handle and UUID |
| Discovery.NextService | linux/gatt/client.go:199-202 | the next start is the next service's declaration, and no service but the last ends at 0xFFFF |
| Discovery.NextCharacteristic | linux/gatt/client.go:304-309 | in any range, behind a declaration and its value exactly the later declarations remain |
| Discovery.NextDescriptor | linux/gatt/client.go:342-343 | in any range, behind an attribute exactly the later ones remain |
| Discovery.DescsOfCharacteristic | linux/gatt/client.go:317-321 | between a found characteristic's value and its end handle lie exactly its descriptors |
| GattClient.Client.DiscoverServices | linux/gatt/client.go:166-206 | terminates, finds exactly the database's services with their handles, ends and UUIDs, in order, and appends those the filter wants |
| GattClient.Client.AddServices | linux/gatt/client.go:187-204 | one reply's entries become services, and the walk resumes right behind them |
| GattClient.Client.DiscoverCharacteristics | linux/gatt/client.go:271-313 | over any range terminates and finds exactly the characteristics declared in it, each ending one below the next declaration whether that one is wanted or not, and appends those the filter wants; a range from 0 is refused |
| GattClient.Client.AddCharacteristics | linux/gatt/client.go:289-310 | one reply's entries become characteristics, and each ends the one before it |
| GattClient.Client.DiscoverDescriptors | linux/gatt/client.go:317-347 | over any range terminates and finds exactly the attributes behind the value, and appends those the filter wants; the CCCD is the last configuration descriptor found, wanted or not |
| GattClient.Client.DiscoverProfile | linux/gatt/client.go:140-162 | an unforced call returns the profile there is; any other yields the whole hierarchy the database was built from, nothing missed, repeated or torn, if and only if the client held no services before, and fails if and only if one it held has a range that cannot be requested |
| GattClient.FilterKeepsListed | linux/gatt/client.go:191 | a filter keeps exactly what carries any one of its UUIDs |
| DiscoveredProfile.ServiceIsFound | linux/gatt/client.go:166-206 | in the hierarchy found, service k has the declared UUID, the handle it was laid out at, and ends right before the next, the last at 0xFFFF |
| DiscoveredProfile.CharacteristicIsFound | linux/gatt/client.go:271-313 | characteristic j has the declared UUID and properties, its own handle and value handle, and ends right before the next, the last with its service |
| DiscoveredProfile.DescriptorIsFound | linux/gatt/client.go:317-347 | descriptor i has the declared UUID and its own handle, and a CCCD at the end is the characteristic's |
| GattClient.Client.DiscoverAgain | linux/gatt/client.go:140-162 | a forced discovery right behind the first lists every service twice, and every characteristic of the first ones twice |
| GattClient.Client.DiscoverAll | linux/gatt/client.go:148-159 | every listed service has what its range declares appended to its characteristics; blank ones end up with exactly that, each with its descriptors |
| GattClient.Client.ReadLongCharacteristic | linux/gatt/client.go:363-385 | terminates with the whole value of up to 65535 bytes if the server's length reaches the client's MTU, otherwise with the first response |
| GattClient.LongReadResult | linux/gatt/client.go:363-385 | the result is the value if and only if the server's length reaches the client's MTU or one response holds the value |
| MtuExchange.MtuClient.ExchangeMTU | linux/att/client.go:88-149 | the new lengths on both sides, for every fate of the exchange; arguments out of range change nothing |
| MtuExchange.ExchangesAgree | linux/att/client.go:88-149 | over any run, lengths stay in 23..515, the client sends no more than the server declared and the server no more than it was told |
| MtuExchange.ExchangeCovers | linux/att/server.go:257-291 | an exchange keeps server length >= client length if and only if it does not undercut it with a lost response |
| MtuExchange.CoverageOverRuns | linux/att/server.go:257-291 | over any run, the lengths are the last MTUs handled and completed, and the server covers the client if and only if the last MTU it handled reaches the last one agreed |
| MtuExchange.ReceiveLimitOverRuns | linux/att/client.go:132-139 | over any run, the server stays within what the client's connection receives if and only if the last MTU handled is at most the last one completed |
| MtuExchange.LostResponseExceedsReceiveLimit | linux/hci/conn.go:401-403 | a run after which the server may send 515 bytes to a connection that ends on more than 23 |
| MtuExchange.LostResponseShortensLongReads | linux/att/client.go:106-109 | a run after which a long read returns 22 of 60 bytes |
| MtuExchange.CoveredLongReadsAreWhole | linux/gatt/client.go:363-385 | after a covering run, long reads return the whole value |
| Subscriptions.Set | linux/gatt/client.go:495-549 | handlers stay matched to the recorded bits; 0x0001 concerns the notification handler and 0x0002 the indication handler alone; a failed write leaves the subscription as it was |
| Subscriptions.WritesOneBit | linux/gatt/client.go:531-547 | what is written differs from the recorded CCC in the one bit alone, which is set to subscribe and cleared to unsubscribe |
| Subscriptions.WritesWhenNeeded | linux/gatt/client.go:503-547 | a CCC is written exactly when that bit has to change |
| Subscriptions.Client.SetHandlers | linux/gatt/client.go:495-549 | the recorded CCC is the last acknowledged write; handlers match it; the one write, if any, carries the new value and goes out with handlers for the old and new bits in place |
| Subscriptions.Client.Reconcile | linux/gatt/client.go:503-549 | the write, rollback and state changes for one characteristic |
| Subscriptions.Client.Subscribe | linux/gatt/client.go:457-481 | refused without a CCCD, otherwise one direction of one characteristic changes |
| Subscriptions.Client.ClearSubscriptions | linux/gatt/client.go:552-565 | exactly the acknowledged subscriptions are forgotten; it stops at the first failing write |
| Subscriptions.Client.HandleNotification | linux/gatt/client.go:597-624 | at any time the indication handler, for opcode 0x1D, or else the notification handler of the PDU's own characteristic is called with the value, and one is called for every bit the handlers cover, also while a CCCD write is out; with the lock free, only if the peer acknowledged that direction |
| AttBearer.TransmitBufferIsConserved | linux/att/client.go:460-626 | in every run there is one transmit buffer, in the slot or with one goroutine, as long as the connection's MTU |
| AttTransactions.MoveFlows | linux/att/client.go:485-626 | every arm of sendReq and resolveAbandoned keeps the outstanding request owned, up to the exits that record nothing (what each wait ends with: AttSettling.ReceiveIsExact) |
| AttTransactions.LoopTurnFlows | linux/att/client.go:656-728 | the read loop moves an answer on or drops it, and never makes a second one outstanding |
| AttTransactions.ResponsesAreAttributed | linux/att/client.go:485-626 | over all schedules without harm from a failed refusal write, the loop alive or dead, each response returned is the peer's answer to that request |
| AttTransactions.AtMostOneOutstanding | linux/att/client.go:485-570 | in those schedules, while no wait was left stranded on a dead loop, at most the last request is outstanding and none is written over another |
| AttBearer.PoisonIsFinal | linux/att/client.go:469-491 | over all schedules a poisoned bearer stays poisoned and nothing issued under the slot is written to it |
| AttSettling.ReceiveIsExact | linux/att/client.go:584-607 | in every reachable state without refusal harm: what ends a wait is the answer to the last request and nothing else, an Error Response or the expected opcode; it clears the record of an abandoned request, which then goes on to send, or is handed out; any other PDU is refused and the record stays |
| AttSettling.ExitsAreExact | linux/att/client.go:542-626 | the bearer is poisoned exactly by a wait that times out and by a dead loop's error for a request that waits for an abandoned one; a request is recorded exactly when it is cancelled in its wait, and the record is cleared exactly by its answer |
| AttSettling.WaitsCanBeLeft | linux/att/client.go:542-567 | the context, the timer and the loop's error each end either wait, with nothing written or handed out |
| AttSettling.NewLengthIsAdopted | linux/att/client.go:132-149 | an exchange of MTUs ends with the new length, at most 515 for the peer's, for the connection and the buffer released |
| AttSettling.NextRequestIsServed | linux/att/client.go:485-626 | from every such state with the slot free, the loop reading, the bearer open and no request abandoned but one whose answer is outstanding, some continuation without harm or poison writes the next request and hands it its own answer |
| AttSettling.NextRequestIsExact | linux/att/client.go:571-626 | with a request abandoned, another is written in some continuation if and only if the bearer is open and the late answer is in rspc, or outstanding while the loop reads |
| AttSettling.LateAnswerIsLost | linux/att/client.go:709-726 | a run in which the loop drops the late answer because a PDU of the peer's own is in rspc, after which no request is ever written |
| AttTransactions.HarmIsExact | linux/att/client.go:538-541 | in every reachable state, a failing refusal write leads to a wrong pairing, in some continuation without further harm, if and only if the loop still reads and the answer is still to be read |
| AttTransactions.HarmIsReachable | linux/att/client.go:520-541 | a run from the start to a state where a failing refusal write does harm |
| AttTransactions.OverwritingIsExact | linux/att/client.go:542-543 | over all schedules without harm from a refusal, a request has been or can come to be written over one on the wire if and only if an earlier wait was left by the error arm, or a refusal on a dead loop, with its answer outstanding |
| AttTransactions.StrandedOverwrites | linux/att/client.go:542-543 | every orderly state with a stranded wait, without harm from a refusal and in which nothing has been overwritten yet, has a continuation that ends with two requests on the wire |
| AttTransactions.DeadLoopOverwrites | linux/att/client.go:542-543 | the run from the start in which the loop dies and the next request is written with the first unanswered |
| AclCredits.CapacitiesKept | linux/hci/conn.go:349-357 | a fragment never outgrows its buffer, so that no buffer is reallocated |
| AclCredits.StepConserves | linux/hci/buffer.go:18-119 | every step leaves each buffer in exactly one place, and every queue listing exactly the buffers at its place |
| AclCredits.BuffersAreConserved | linux/hci/buffer.go:18-119 | the same over every run, with capacities unchanged |
| AclCredits.SendsNeverBlock | linux/hci/buffer.go:72-119 | whoever has a buffer in hand finds room in the channel it sends to |
| AclCredits.HolderMoves | linux/hci/conn.go:317-375 | the counts of a connection survive every move under its train mutex |
| AclCredits.PutIsCounted | linux/hci/buffer.go:92-98 | Put takes the oldest buffer, and there is an older one while one is being filled |
| AclCredits.FillingBuffersAreInFlight | linux/hci/hci.go:1108-1124 | in every run a buffer that is being filled or not yet flushed is still in flight, as the newest |
| AclCredits.ReclaimIsFinal | linux/hci/hci.go:1061-1101 | after a finished teardown the in-flight queue is empty in every continuation of every run |
| AclProgress.CompletedBuffersAreBack | linux/hci/hci.go:1108-1124 | in every reachable state each packet reported completed is one Put, made or left to be made; while nothing was reclaimed each Put took a buffer in flight, so that with the loop idle exactly the completed ones are back and, when all are completed, none is in flight |
| AclProgress.CompletionRefillsPool | linux/hci/hci.go:1119-1121 | an entry for n packets, handled to its end, moves exactly the connection's n oldest buffers in flight to the pool, in order, and nothing else |
| AclProgress.WaitingTrainFlushes | linux/hci/conn.go:341-373 | a train that waits, with a buffer in the pool, flushes its next fragment with it |
| AclProgress.WaitingTrainGivesUp | linux/hci/buffer.go:83-86 | a train that waits can give up, which frees the mutex and changes nothing else |
| AclProgress.WritesCanFinish | linux/hci/conn.go:317-375 | from every reachable state with a buffer in the pool and the loop idle, a write of any length on an open connection with a free mutex has a continuation in which all of its fragments, as many as the buffer size demands, are flushed and the mutex is free again |
| AclProgress.TeardownCanFinish | linux/hci/buffer.go:108-119 | from every reachable state a teardown of a connection with a free mutex has a continuation that returns all of its buffers to the pool, in order, and frees the mutex |
| Fragments.PacketRoundTrip | linux/hci/conn.go:380-387 | handle, boundary flag, length and payload are read back as written |
| Fragments.PacketBytes | linux/hci/conn.go:380-387 | the octets of a packet: type 0x02, handle with the boundary flag above it, length, payload |
| Fragments.AttPduBytes | linux/hci/conn.go:286-293 | the octets of the PDU of an SDU |
| Fragments.Sender.WritePDU | linux/hci/conn.go:317-375 | the wire gets the PDU's train up to the first fragment that fails, and the count and error say so; the packets appended carry the PDU, or a prefix, and of their boundary flags only the first is 0x00, all others 0x01 |
| Fragments.Sender.Write | linux/hci/conn.go:277-314 | an SDU within the transmit MTU is written as one PDU, its length, channel 0x0004 and the SDU, flagged as one, with the count and error of that; a longer one not at all |
| Fragments.DeliverIsPrefix | linux/hci/conn.go:341-374 | the fragments written are those before the first failing turn |
| Fragments.TrainsDoNotInterleave | linux/hci/conn.go:317-375 | with any writers in any interleaving, a connection's fragments are whole trains in lock order |
| Fragments.TrainIsFlagged | linux/hci/conn.go:317-375 | of the packets of a PDU, or of the first k of them, the first is flagged 0x00 and the others 0x01, and they carry the PDU or a prefix of it |
| Fragments.FlagsDelimitPdus | linux/hci/conn.go:317-375 | for every interleaving of writers, the boundary flags alone cut what is on the wire of a connection into the PDUs its writers sent, in lock order |
| Recombine.Receiver.Recombine | linux/hci/conn.go:390-445 | for any packets: consumes those of one PDU and delivers it by channel, or returns the specified error, or panics |
| Recombine.PanicIsExact | linux/hci/conn.go:390-421 | it panics if and only if the first packet is too short for the L2CAP header, or it gets to a later packet that is shorter than what it reads of it |
| Recombine.Receiver.Read | linux/hci/conn.go:239-274 | the SDU of the next PDU into the caller's buffer, or the error for a closed, empty or oversized one; a payload beyond the buffer leaves the buffer as it was |
| Recombine.ReadIsExact | linux/hci/conn.go:239-274 | whatever the buffer held, it holds the counted SDU afterwards if and only if the whole payload fits or the SDU is empty |
| Recombine.Receiver.ReadEach | linux/att/client.go:673-676 | for any packets a loop of recombine and Read into one buffer gets the SDUs that ReadAll says |
| Recombine.RecombineInverts | linux/hci/conn.go:390-421 | every way of cutting a PDU into packets, the first with the L2CAP header, is put together again, whatever follows |
| Recombine.TrainCarries | linux/hci/conn.go:341-374 | a train is one of those ways |
| Recombine.SdusSurvive | linux/hci/conn.go:239-445 | the reader gets exactly the SDUs of the trains on the wire, whatever its buffer held |
| Recombine.WritersToReader | linux/hci/conn.go:239-445 | for every interleaving of writers the peer reads exactly the SDUs in lock order |
| AdvPacket.Packet.Append | linux/adv/packet.go:56-64 | length octet, type and data are added whole if they fit 31 bytes, else the packet is unchanged |
| AdvPacket.Packet.Field | linux/adv/packet.go:170-190 | the data of the first structure of the type in the plain parse |
| AdvPacket.Packet.FieldPos | linux/adv/packet.go:203-234 | the next matching structure behind an offset and where the remaining ones start; always makes progress |
| AdvPacket.Packet.UUIDsByType | linux/adv/packet.go:192-201 | terminates on any bytes with the UUIDs of all matching structures of the plain parse |
| AdvPacket.Packet.UuidList | linux/adv/packet.go:323-329 | whole UUIDs in order, a short rest dropped |
| AdvPacket.Packet.UUIDs | linux/adv/packet.go:272-281 | the six kinds of lists, in order |
| AdvPacket.ChunksInvertFlat | linux/adv/packet.go:323-329 | a list of UUIDs of one width, packed, is cut into just these, whatever shorter rest follows |
| AdvPacket.AppendedUUIDsAreFound | linux/adv/packet.go:192-201 | from an empty packet, the UUIDs found under a type are those of every list appended under it, in order |
| AdvPacket.ParseInvertsBuild | linux/adv/packet.go:56-64 | after any series of appends the packet is at most 31 bytes and parses as the structures that fitted |
| AdvPacket.FieldFindsFirstAppended | linux/adv/packet.go:170-190 | Field returns the first data appended under the type |
| AdvReport.ValidAdvReport | linux/hci/hci.go:731-750 | accepts exactly the payloads whose columns and runs account for every octet |
| AdvReport.Data | linux/hci/evt/evt.go:40-47 | the run of the report |
| AdvReport.RSSI | linux/hci/evt/evt.go:49-55 | the report's octet of the last column as a signed value |
| AdvReport.Signed | linux/hci/evt/evt.go:49-55 | the value in -128..127 that the octet is the two's complement of |
| AdvReport.Address | linux/hci/evt/evt.go:31-36 | the report's six octets |
| AdvReport.AcceptedReportsAreColumns | linux/hci/hci.go:731-750 | after acceptance every accessor is in bounds, and the runs are ordered, disjoint and fill the space between the columns |
| AdvReport.EncodedReportsAreRead | linux/hci/evt/evt.go:27-55 | every list of reports sent in the column layout is accepted and each accessor returns its field |
| UpdateSlot.ClaimsExclude | linux/hci/signal.go:234-248 | in all interleavings, abandoned calls included, the two claims are never held together |
| UpdateSlot.CompletionsAreAttributed | linux/hci/conn.go:523-605 | over all schedules in which no release abandons a completion, whatever Send returns and whenever the controller completes, each command's completion is in exactly one place: still owed, never to come, in the event loop's hands, due for its claimant's empty channel, in that channel, or received by its claimant |
| UpdateSlot.ReleaseIsExact | linux/hci/signal.go:257-264 | in every reachable state, a release of the slot by a call or by the request handler leads to a completion at a wrong claimant, in some continuation without another such release, if and only if its own completion can still reach the slot |
| UpdateSlot.CallHarmIsReachable | linux/hci/conn.go:545-572 | the runs of a call that gives up, or whose Send times out, on a command still to be completed |
| UpdateSlot.RequestHarmIsReachable | linux/hci/hci.go:344-355 | the run of a peer request whose Send times out on such a command |
| UpdateSlot.LateCompletionIsMistaken | linux/hci/conn.go:589-605 | from there the late completion is received by the application call that has the slot by then |
| UpdateProgress.WaitIsExact | linux/hci/conn.go:556-568 | in every reachable state before such a release, a call that waits can still receive its own completion if and only if the controller has not refused the command and the connection did not close before the completion |
| UpdateProgress.RequestIsExact | linux/hci/conn.go:589-595 | the same for a peer request that holds the slot, whose flag consumes the completion |
| ConnParams.DurUnitsRounds | conn.go:84-89 | nearest step, ties up; negative durations and overflowing sums never yield a positive count |
| ConnParams.ReducedTestIsTheRule | conn.go:111-115 | the integer test is timeout > (1 + latency) * intervalMax * 2 in milliseconds |
| ConnParams.EncodeIsExact | conn.go:95-121 | Encode yields a result if and only if it is the input in nearest steps and permitted in real time units |
| ConnParams.UnitsRoundTrip | conn.go:95-121 | permitted units turned into durations are encoded as themselves |

## Left out

- GattClient.Client.DiscoverProfile: databases with a handle of 0xFFFF, or with a value or descriptor typed like a declaration, are excluded, as the walks cannot tell them apart; what a forced discovery adds to the descriptors of old characteristics is not stated.
- GattClient.Client.ReadLongCharacteristic: values produced by a read handler, which may change between the reads.
- AttDb.NewDB: a characteristic object listed twice, or passed to a second NewDB, gets a second CCCD; objects are taken to be listed once.
- AttServer.Server.HandleRequest: notifications, indications and their confirmation, and the handler state behind a CCCD, are not modelled; NewServer's check of the receive MTU is a precondition.
- AttWrites.LongWrite: the stack has no call for a whole long write; the method is the sequence of its PrepareWrite and ExecuteWrite calls, from an empty queue.
- MtuExchange.MtuClient.ExchangeMTU: exchanges the peer initiates are only part of `AttBearer`, where they replace the transmit buffer.
- AttTransactions.ResponsesAreAttributed: PDUs of zero length and runt notifications, which the loop drops, confirmations, and the response to the peer's MTU request, which is written without the slot.
- Fragments.Sender.Write: the LE-frame layout, which is never enabled.
- Recombine.Receiver.Recombine: the bound of the delivery channel and the handlers of the other channels are not modelled.
- AclCredits.BuffersAreConserved: the contents of buffers; `Fragments` covers them.
- UpdateSlot.CompletionsAreAttributed: the role check and unmarshalling of the request, and the signalling response.
- Attribute discovery by Find Included Services, the device name, signed writes and multiple reads would add easy members.
- Dynamic L2CAP channels, SMP, signalling, HCI command marshalling, sockets, timers and logging are not part of this model.
- The scan-response ring and sends on a closed inbound channel: the code does not keep those promises in every interleaving.
