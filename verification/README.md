# predixy, modelled and proved

predixy is a proxy in front of Redis. Clients send it commands; it sends them on to the right servers, over shared
connections, and hands the replies back in order. Commands over many keys are cut into one request per key and the
replies are put together again; in a cluster it keeps the map of slots up to date, follows MOVED and ASK, and packs the
number of a group into the cursor of SCAN. All of this is done by hand-written state machines over chained buffers, and
by several threads that share counters without locks.

This project models those parts and proves what they are for. A `char` stands for one byte of the wire.

- **Wire format and parsers.** `Resp` writes RESP2. `ResponseMachine` and `RequestMachine` say what the two parsers do
  byte by byte; the classes in `ResponseParsing` and `RequestParsing` have the fields and loops of the source, skip over
  bodies in bulk, and are proved to do the same whatever the cutting into buffers. `RequestLanguage` and `ReplyLanguage`
  say exactly which bytes they take, malformed ones included. `RequestParts`, `ReplyStream` and
  `RequestReading` prove what that amounts to for printed commands and replies.
- **Splitting and merging.** `Merging` has the leader and its followers as objects; `MergeOutcome` says what the client
  gets for all orders of arrival; `ShardedStore` runs the parts on shards, and `SplitMerge` proves that the client sees
  one store. `ClientStream` puts the groups into the client's queue, and `Pipeline` proves the same of the bytes on the
  client's connection for any number of commands sent without waiting.
- **Output and queues.** `Buffers` has the chained buffers and the segment cursors; `Gather` the pieces that
  scatter-gather output lists, and `Writing` what is left when some of them are out; `ConnectConnections` the connection to
  a server, and `StrandedScans` a request that it loses; `AcceptConnections` the connection to a client; `Lists` and
  `Deques` the intrusive lists; `Redirection` the redirections of a cluster as a state machine over several connections;
  `IdleSweep` the search for idle clients.
- **Routing.** `Crc16` and `HashTags` for slots, `ClusterNodes`, `ClusterPools` and
  `ClusterMembers` for the listing of the nodes,
  `DataCenters` for the longest prefix of an address, `Ranking` and `ServerGroups` for the choice of a server, `Scanning`
  and `FullScans` for SCAN.
- **Threads.** `Allocation` for the memory limit and `CasTimers` for the compare-and-swap timers, each as a state machine
  over the single reads and writes of any number of calls.

What came out different from what one might expect:

- a reply with more than eight open arrays, or with a null array inside an array, makes the reply parser fail
  (`ResponseMachine.ReplyIsTaken`);
- numbers may have zeros in front, an argument whose length has no digits is empty, and in a reply one minus sign may stand
  anywhere in a number (`RequestLanguage.TakenExactly`, `ReplyLanguage.TakenExactly`);
- DEL, UNLINK, EXISTS and TOUCH answer with a number even when parts of them fail, and the number of the first reply
  counts whatever its type (`MergeOutcome.CountIsSent`);
- distinct addresses in a cluster listing do not keep a server in one group, since `a@1` and `a` are the same server
  (`ClusterPools.InTwoGroups`): a refresh keeps servers in one group exactly if for every line that has a server in a
  group, the server pointed there before, or the listing is complete and the last line about the server names the group
  (`ClusterMembers.RefreshKeepsMembersExactly`); addresses that differ in front of the `@` are enough, for any number of
  complete listings (`ClusterMembers.ListingsKeep`);
- one idle sweep posts at most one idle client, because posting moves the client behind all others: all that are overdue
  are posted exactly if there is one at most (`IdleSweep.OneIsHit`, `IdleSweep.Handler.CheckClientTimeout`);
- the memory limit bounds the bytes accounted for, not those got from the system (`Allocation.TakenOverLimit`): these
  exceed it exactly if the blocks between their subtraction and their delete are more than the room that the others
  leave (`Allocation.TakenExactly`);
- two calls can be refused where either would fit (`Allocation.BothRefused`): a block that fits beside all blocks is
  refused exactly if the reservations of other calls fill the room (`Allocation.RefusedExactly`);
- a key prefix of a user can be refused although the key has it (`DataCenters.RefusedWithAPrefix`), exactly when something
  configured sorts between the prefix and the key;
- a scan cursor comes back exactly below 2^54, and is printed without a sign below 2^53 (`Scanning.PackingRoundTrip`);
- a request that ends in its head, as a SCAN with a cursor and no options does, is sent but stays in the queue when its
  last piece is the last vector that `fill` has room for; it is then taken for empty, and replies are given to the wrong
  requests (`StrandedScans.LoseAScan`). Requests become sent ones with their last byte exactly but for these
  (`ConnectConnections.ConnectConnection.Write`), and the k-th reply is given to the k-th request exactly if none in
  front of it was one (`ConnectConnections.KthReplyToKthRequest`);
- `Segment::fill` never reports that it got to the end when that is at the front of a later buffer; `Segment::set` never
  makes such a segment (`Buffers.Segment.Fill`, `Buffers.Set`).

## Model

| member | source | states |
|---|---|---|
| `ResponseMachine.ReplyIsTaken` | src/ResponseParser.cpp:31-259 | Every printed reply is taken at its last byte, with its kind and number, if it is at most eight arrays deep and nests no null array; every other one makes the parser fail |
| `ResponseMachine.ProperPrefixIsPartial` | src/ResponseParser.cpp:31-259 | No proper prefix of a reply completes it or makes the parser fail |
| `ResponseMachine.StackIsOpenArrays` | src/ResponseParser.cpp:143-231 | In front of any element, however deep, the stack is exactly the list of open arrays with the elements each has had |
| `ResponseMachine.RunElement` | src/ResponseParser.cpp:143-231 | One element, whatever it nests, closes exactly the arrays it completes, and fails exactly when it does not fit |
| `ResponseMachine.RunConcat` | src/ResponseParser.cpp:31-259 | Cutting the stream anywhere changes nothing |
| `ReplyLanguage.TakenExactly` | src/ResponseParser.cpp:31-259 | A string of bytes brings the parser to the end with its last byte exactly if it is a reply: the kinds of lines there are, lengths that fit, numbers of digits with at most one sign wherever it stands, and at most eight arrays deep |
| `ReplyLanguage.InsideExactly` | src/ResponseParser.cpp:31-259 | The parser goes on exactly while the bytes can still become a reply, but that it notices an array that is too deep only behind the number of its elements |
| `ResponseParsing.ResponseParser.Parse` | src/ResponseParser.cpp:31-259 | One call on a buffer, with bodies skipped in bulk, reaches the state and the outcome of reading its bytes one by one, completes at the byte where the reply ends, and sets the span of the reply |
| `ResponseParsing.ResponseParser.CloseElements` | src/ResponseParser.cpp:218-231 | The loop over `mElementCnt` pops exactly the arrays that are complete |
| `ReplyStream.RepliesAreGot` | src/ConnectConnection.cpp:140-160 | A stream of replies yields exactly these replies with their spans, in order |
| `ReplyStream.GoodStream` | src/ConnectConnection.cpp:140-160 | No prefix of such a stream fails, and what it has yielded is a prefix of the replies |
| `RequestMachine.RunConcat` | src/RequestParser.cpp:70-445 | Cutting the stream of a client anywhere changes neither the state nor the requests handed over |
| `RequestMachine.RunCommand` | src/RequestParser.cpp:70-445 | A whole command is a fold over its arguments |
| `RequestLanguage.TakenExactly` | src/RequestParser.cpp:70-445 | A string of bytes brings the parser to the end with its last byte, and not before, exactly if it is a command: a positive number, so many strings with lengths that fit, and a name of 1 to 31 bytes |
| `RequestLanguage.InsideExactly` | src/RequestParser.cpp:70-445 | The parser is inside a command exactly while the bytes can still become one: it stops at the first byte from which on they cannot, names of 32 bytes and more aside |
| `RequestParts.CommandIsHandedOver` | src/RequestParser.cpp:37-68 | A valid command is read to its last byte and handed over whole or part by part as the mode of the command says |
| `RequestParts.PipelineIsHandedOver` | src/RequestParser.cpp:70-445 | Commands sent without waiting are handed over exactly, in order |
| `RequestParts.HandedOverStays` | src/RequestParser.cpp:70-445 | What has been handed over is not taken back, whatever bytes follow |
| `RequestParts.WholeMeans` | src/Request.cpp:114-174 | A command that is not cut is one request with all its bytes, and its key is the argument that the mode names |
| `RequestParts.SplitMeans` | src/Request.cpp:114-174 | There are as many parts as the leader counts followers; each has the key and value as sent, and with its head it is the command with that one key |
| `RequestParts.PartsAreTheArguments` | src/RequestParser.cpp:37-68 | The parts together are all arguments, none lost and none repeated |
| `RequestParts.RejectedIsHandedOver` | src/RequestParser.cpp:447-500 | Every command with a name of 1 to 31 bytes that is not in the table, or that does not take so many strings, is read to its last byte and handed over in one, as an unknown command or as one with wrong arguments |
| `RequestParts.LowerIs` | src/RequestParser.cpp:233 | A name is looked up with each letter from A to Z 32 higher, and all else as sent |
| `RequestParts.GetIsFound` | src/RequestParser.cpp:233 | "GET" finds "get" |
| `RequestParsing.RequestParser.Parse` | src/RequestParser.cpp:70-445 | One call on a buffer reaches the state, and hands over the part, that reading its bytes one by one does; it gives up on a rejected command only 1024 bytes and more into it |
| `RequestParsing.RequestParser.ParseCmd` | src/RequestParser.cpp:447-500 | Looks the name up in lower case and as a string, and so up to a zero byte, and leaves the status that `RequestParts.RejectedIsHandedOver` and `RequestParts.CommandIsHandedOver` fix for whole commands |
| `RequestReading.RequestReader.Read` | src/AcceptConnection.cpp:157-236 | Over any buffers, each read in the mode that cuts commands or in the other, what has been handed over is what the calls amount to; the connection turns bad only at a malformed byte, at one outside the model, or 1024 bytes and more into a rejected command |
| `RequestReading.CutDoesNotMatter` | src/AcceptConnection.cpp:157-236 | While all calls are in one mode, they amount to the whole stream, however it is cut into buffers |
| `RequestReading.ModeMatters` | src/AcceptConnection.cpp:161 | What is handed over for valid commands depends on the mode exactly if one of them can be cut |
| `RequestReading.ValidStreamIsNotBroken` | src/AcceptConnection.cpp:157-236 | No prefix of a stream of valid commands is given up on |
| `Merging.Response.AdjustForLeader` | src/Response.cpp:107-143 | Rewrites the reply and adds to the leader's reply as the command demands, on the objects |
| `Merging.Request.SetResponse` | src/Request.cpp:342-398 | A request that is no part of another keeps its reply; a part counts in its leader, MGET keeps the reply at the part, and for all others the leader has what `Merging.MergeInto` says |
| `Merging.Request.Take` | src/Request.cpp:351-390 | Which reply the leader keeps, and that the last sum is turned into a reply |
| `Merging.HandleReply` | src/Request.cpp:342-416 | The two steps on objects end in the state that `Merging.Deliver` describes for the group |
| `MergeOutcome.LeaderHoldsAll` | src/Request.cpp:342-416 | But for MGET only the leader ever holds a reply, and it is done exactly when all parts have been answered |
| `MergeOutcome.CountIsSent` | src/Response.cpp:107-143 | A counting command gets one integer: the first reply's number plus those of the integers that follow |
| `MergeOutcome.MsetOutcome` | src/Request.cpp:342-398 | MSET gets the first error to arrive, or else the first reply |
| `MergeOutcome.MsetnxOutcome` | src/Request.cpp:342-398 | On the wire MSETNX is the first error, else 0 if any part said 0, else 1 |
| `MergeOutcome.ScriptLoadOutcome` | src/Request.cpp:381-389 | SCRIPT LOAD gets the first reply to arrive that is not a string, or else the first reply |
| `MergeOutcome.MgetOutcome` | src/Request.cpp:400-416 | Every part of MGET sends its own adjusted reply as soon as that is there, whatever becomes of the others; `SplitMerge.MgetMerged` says which bytes |
| `MergeOutcome.DoneIsFinal` | src/Request.cpp:400-416 | Once a part is done, no later reply changes what it sends |
| `ShardedStore.ValueIsInTurn` | src/Request.cpp:114-174 | Whatever the schedule, a key's value is what the parts on it have made of it in their order |
| `ShardedStore.AnswersAreInTurn` | src/Request.cpp:114-174 | Every part is answered, and the stores end up, as if the parts ran in turn on one store |
| `SplitMerge.MergeIsWhole` | src/Request.cpp:342-416 | For every order of arrival, the replies that parts running in turn would get are merged to the reply to the unsplit command |
| `SplitMerge.MgetMerged` | src/Response.cpp:107-143 | For every order of arrival MGET gets one array: for each part the element of its reply, if that is an array of one, and a null if it is no array |
| `SplitMerge.SplitThenMerge` | src/Request.cpp:342-416 | For every assignment of keys to shards, every execution that keeps the order of parts on a shard and every order of arrival, the client gets the bytes of the unsplit command on the union, and the data ends up the same |
| `SplitMerge.PartIsOp` | src/Request.cpp:114-174 | Each part that the parser hands over is, with its head, the request for one key |
| `SplitMerge.CutCommandIsWhole` | src/Request.cpp:114-174 | From the bytes of a valid command that is cut to those of its answer: one part for each key, each the request for its op, and for every run and order of arrival the reply to the unsplit command |
| `Gather.FillQueueIsPrefix` | src/Request.cpp:328-340 | For any queue, filling lists the first `len` of all pieces, in order, those without bytes too; the last piece of each message is marked, but for a message that ends in its head with vector `len` |
| `Gather.EndIsMarked` | src/Response.cpp:168-181 | The end of any message is marked exactly if all its pieces are listed, except that one that ends in its head needs room for one more vector |
| `Gather.VecByVec` | src/ConnectConnection.cpp:51-111 | For any queue, messages with nothing left and messages that end in their head included: writing the first vector in full leaves a queue whose filling is the other vectors, and no byte is lost |
| `Gather.PartOfVec` | src/Buffer.cpp:327-332 | For any queue, writing part of the first vector leaves exactly the other bytes |
| `Buffers.Append` | src/Buffer.cpp:52-75 | The bytes go behind what the buffer holds, over as many new buffers as needed, all but the last full |
| `Buffers.Set` | src/Buffer.cpp:172-186 | The segment is exactly the bytes written, wherever the buffers break |
| `Buffers.Segment.Length` | src/Buffer.cpp:216-232 | The number of bytes of the segment, over all its buffers |
| `Buffers.Segment.Get` | src/Buffer.cpp:234-244 | Bytes at the cursor, and none exactly at the end |
| `Buffers.Segment.Fill` | src/Buffer.cpp:246-271 | The first pieces that are left, one per buffer; exactly when it reports that these are all |
| `Buffers.Segment.Cut` | src/Buffer.cpp:274-302 | Takes bytes off the front, moves the cursor with it, and empties the segment when nothing would be left |
| `Buffers.Segment.Use` | src/Buffer.cpp:305-325 | The bytes left lose exactly the first ones, as do the pieces left, and never more than there are |
| `Buffers.Segment.Seek` | src/Buffer.cpp:327-332 | From a position of the segment the bytes and pieces left are those behind it, less the bytes used |
| `Buffers.Segment.Dump` | src/Buffer.cpp:334-358 | Copies as much as fits and tells the length of all |
| `Buffers.Segment.HasPrefix` | src/Buffer.cpp:360-381 | True exactly if the bytes start with the prefix, across buffers |
| `Buffers.Segment.PiecesAreLeft` | src/Buffer.cpp:246-271 | The pieces left are together the bytes left |
| `Buffers.Segment.LastHasBytes` | src/Buffer.cpp:246-271 | The last of the pieces left has bytes, unless the segment ends in front of a buffer: what is left can be queued |
| `Writing.EndedLeavesAt` | src/ConnectConnection.cpp:88-110 | Of a queue of any messages, once `num` bytes of its first `len` vectors are out, the ones with something left that leave are exactly those whose last byte is out, but for one that ends in its head with vector `len` |
| `Writing.StaysIf` | src/ConnectConnection.cpp:88-110 | A message that is still there has nothing left exactly if its last byte is out, and then it is that one |
| `Writing.LeavesOnce` | src/AcceptConnection.cpp:118-132 | For any number of bytes and vectors there is one number of messages that leave |
| `ConnectConnections.ConnectConnection.Send` | src/ConnectConnection.cpp:51-65 | Any request that is not in the queue is queued behind all others, and its bytes behind theirs |
| `ConnectConnections.ConnectConnection.Fill` | src/ConnectConnection.cpp:51-65 | Lists the pieces of the queue up to the length given |
| `ConnectConnections.ConnectConnection.Write` | src/ConnectConnection.cpp:67-111 | Exactly the bytes taken go out. Of the requests with something left exactly those leave, and become sent ones, whose last byte is out, but for one that ends in its head with vector `len`: that one is stranded. Those with nothing left leave with the next that does, and are handed back without a reply. Nothing but one request left is changed, and the call reports that it has finished exactly if every vector is out and the last has bytes |
| `ConnectConnections.ConnectConnection.HandleResponse` | src/ConnectConnection.cpp:207-218 | The reply is given to the front of the sent requests; a reply nobody waits for is dropped without a reset |
| `ConnectConnections.ConnectConnection.ReadBuffer` | src/ConnectConnection.cpp:140-160 | Over any buffers the replies given out are those the stream holds, one for each request |
| `ConnectConnections.KthReplyToKthRequest` | src/ConnectConnection.cpp:88-110 | The k-th reply in the stream is given to the k-th request that became a sent one; that is the k-th request with bytes exactly if none in front of it was stranded |
| `StrandedScans.ScanEndsInHead` | src/Request.cpp:249-274 | A SCAN with a new cursor and no options has all its bytes in its head |
| `StrandedScans.ScanIsStranded` | src/ConnectConnection.cpp:88-110 | Behind any requests whose pieces leave just enough vectors for its own, such a request goes out to its last byte and does not leave the queue |
| `StrandedScans.ListedNoMore` | src/ConnectConnection.cpp:51-65 | From then on no call of `fill` lists it, whatever stands around it |
| `StrandedScans.LoseAScan` | src/ConnectConnection.cpp:88-110 | A connection on which a SCAN takes the last vector and another request follows: both go out, only the other waits for a reply, and the SCAN is handed back without one |
| `AcceptConnections.AcceptConnection.Append` | src/AcceptConnection.cpp:157-236 | A request that arrives is queued behind all others |
| `AcceptConnections.AcceptConnection.Finish` | src/Request.cpp:400-416 | A reply becomes final for its request, whatever its place in the queue, and nothing else changes |
| `AcceptConnections.AcceptConnection.Send` | src/AcceptConnection.cpp:238-245 | The writer is woken exactly if there is something it can take out of the queue |
| `AcceptConnections.AcceptConnection.Fill` | src/AcceptConnection.cpp:56-91 | Lists the pieces of the replies up to the first request that is not done, and drops as many requests from the front as it meets without a reply before it has listed anything |
| `AcceptConnections.AcceptConnection.Write` | src/AcceptConnection.cpp:93-136 | Exactly the bytes taken go out, in order; of the requests with something to send exactly those leave whose last byte is among them, but for one whose reply ends in its head with vector `len`; those in front leave with them; of the queue left only one reply may be shorter than it was |
| `AcceptConnections.ClientGetsRepliesInOrder` | src/AcceptConnection.cpp:56-136 | For every order of answers the client has got a prefix of the final replies in the order of the requests, and the rest is what is left |
| `ClientStream.GroupAfter` | src/Handler.cpp:835-838 | A reply takes the group of its command to the state that `Merging.Deliver` gives |
| `ClientStream.Client.Deliver` | src/Handler.cpp:835-841 | The request answered, and the one that sends for it, become final exactly when their group says that they are done, with what it holds for them; the writer is woken exactly if it has something to do |
| `ClientStream.Client.Serve` | src/AcceptConnection.cpp:37-236 | For every sequence of commands, parts, replies and writes of any size the queue stays that of the groups, and what has been sent stays sent |
| `ClientStream.RunGrows` | src/Request.cpp:342-416 | Whatever happens, commands and their arrivals are only added to |
| `ClientStream.ItemIsPart` | src/Request.cpp:400-416 | A request in the queue is done exactly if its group says so, and holds what the group holds for it until it is written to |
| `ClientStream.QueueIsPrefix` | src/AcceptConnection.cpp:56-91 | What can be sent is the beginning of the answers to the commands in order, as they will be at any later time |
| `ClientStream.ClientGetsAnswers` | src/AcceptConnection.cpp:56-136 | For every interleaving the client has got the beginning of the answers in the order of its commands |
| `ClientStream.NothingBehind` | src/AcceptConnection.cpp:62-73 | No byte from a request that is not done on has been sent |
| `ClientStream.NoByteBeforeLastPart` | src/Request.cpp:400-416 | But for MGET, no byte of a command is sent before all its parts have been answered |
| `ClientStream.AllIsSent` | src/AcceptConnection.cpp:37-54 | When all has been answered and nothing is left to write, the client has got all answers in full |
| `Pipeline.JobIsWhole` | src/Request.cpp:342-416 | When the parts of many commands, and commands with one key that are not cut, run on the shards, each is answered as on one server that has run those in front of it |
| `Pipeline.PipelineLooksUnsplit` | src/AcceptConnection.cpp:56-236 | For every sequence of commands, cut or with one key, every sharding, run, order of arrival and interleaving with writes, the bytes on the client's connection are the beginning of what one server answers to its commands one after the other, and all of it in the end |
| `Redirection.NextKeepsValid` | src/Handler.cpp:736-750 | Every step keeps the invariant of queues, orders, replies and counts, whether the request is sent, refused with an error, redirected or dropped |
| `Redirection.RepliesMatchRequests` | src/ConnectConnection.cpp:207-218 | In every run, sent and unsent are the part of the order not answered, and each reply went to the request in its place |
| `Redirection.RedirectionIsFollowed` | src/Handler.cpp:1428-1466 | While the client is there and the count is below 3, on an ASK the connection it leads to gets ASKING and the request, on a MOVED the request alone; no other gets anything, and nobody is told |
| `Redirection.RedirectionIsLost` | src/Handler.cpp:736-750 | A redirection to a connection that is not good loses the request |
| `Redirection.ReplyIsGiven` | src/Handler.cpp:774-838 | Every other reply to a request is given to its client, as the reply in its place, or to nobody if that is gone; nothing is sent |
| `Redirection.NewIsSent` | src/Handler.cpp:510-535 | A new request goes to its connection and nowhere else, or is refused if there is none or it is not good |
| `Redirection.NobodyIsMoved` | src/Handler.cpp:736-750 | Opening a connection, writing to one, its failure and the loss of a client move no request from one queue to another |
| `Redirection.FrontIsGivenBack` | src/ConnectConnection.cpp:221-233 | A connection that is closed answers the request at its front, if its client is there, and sends nothing |
| `Redirection.OrderIsHistory` | src/Handler.cpp:1428-1466 | In every run what a connection has been sent is what the steps say: new requests, what sets it up, and the redirections followed to it |
| `Redirection.GoodUntilItFails` | src/Handler.cpp:774-838 | In every run a connection is good until it fails, and a client there until it goes |
| `Redirection.AskingInFront` | src/Handler.cpp:1428-1466 | In every run ASKING stands in the order of a connection exactly where an ASK was followed to it, and right behind it stands the request that the ASK was the reply to |
| `Redirection.OnePlaceFewTimes` | src/Handler.cpp:1428-1466 | In every run a request is in one queue once, or answered once, by a server or by the proxy with an error, or lost, and is sent at most four times |
| `Lists.List.PopFront` | src/List.h:89-101 | The front is taken off and its link cleared, so that both lists stay exact |
| `Lists.MoveFront` | src/Handler.cpp:1452-1464 | Pushed onto one list while at the front of another through the same link, and popped: both lists are exactly what they should be, and the request is in one |
| `Deques.Deque.Remove` | src/Deque.h:116-139 | Takes out exactly the node given, and nothing if it is not there |
| `Deques.Deque.MoveBack` | src/Deque.h:140-154 | Moves the node behind all others |
| `Deques.Deque.PushBack` | src/Deque.h:94-104 | Adds the node behind all others |
| `Deques.Deque.PushFront` | src/Deque.h:105-115 | Adds the node in front of all others |
| `Deques.Deque.Exist` | src/Deque.h:89-93 | True exactly for the nodes in the list |
| `IdleSweep.Handler.SetActiveTime` | src/Handler.h:110-115 | The list stays sorted by the time of the last activity |
| `IdleSweep.QuietBehind` | src/Handler.cpp:480-484 | Behind a client that is not stale none is |
| `IdleSweep.OneIsHit` | src/Handler.cpp:475-499 | The client the sweep posts is overdue; there is one exactly if one is overdue, and it is all of them exactly if there is one at most |
| `IdleSweep.Handler.CheckClientTimeout` | src/Handler.cpp:475-499 | The sweep ends; it passes the stale clients up to the first that is idle and not posted, and posts that one; those passed that have requests get the time of the sweep and go behind the others, all others keep their time; how many idle ones it counts, and the order it leaves |
| `Crc16.TableIsRight` | src/Crc16.cpp:9-42 | Every entry of the table is what eight shifts make of its byte |
| `Crc16.TableStepIsEightBits` | src/Crc16.cpp:52-56 | The one-byte step is eight single bits fed into the register of the division |
| `Crc16.TableDivides` | src/Crc16.cpp:44-50 | For every byte string the table gives the remainder of long division by x^16 + x^12 + x^5 + 1 |
| `Crc16.Checksum` | src/Crc16.cpp:44-50 | The loop over a buffer computes the fold of the one-byte step, and so that remainder |
| `HashTags.TagIsHashed` | src/HashFunc.cpp:22-46 | A tag that is not empty, between the first opening mark and the first closing one behind it, is what is hashed |
| `HashTags.NoTagIsWhole` | src/HashFunc.cpp:22-46 | What is hashed is such a tag, or the whole key |
| `HashTags.HashTagStr` | src/HashFunc.cpp:22-46 | The two loops find that part |
| `HashTags.SameTagSameSlot` | src/ClusterServerPool.cpp:46-47 | Keys with the same tag that is not empty have the same slot in 0 to 16383 |
| `HashTags.SlotIsRemainder` | src/ClusterServerPool.cpp:46-47 | The slot of a key is the remainder of the bytes that are hashed, by x^16 + x^12 + x^5 + 1, as a number modulo 16384 |
| `HashTags.SlotOf` | src/ClusterServerPool.cpp:46-47 | Hash tag, table and mask together compute the slot, and that number |
| `ClusterNodes.ParseAfterPrint` | src/ClusterNodesParser.cpp:27-180 | Printing any well-formed records and parsing them reports the fields of each and its slots in order, and finishes |
| `ClusterNodes.OwnedAreReported` | src/ClusterNodesParser.cpp:123-169 | The slots reported are exactly those that are not being moved, in order |
| `ClusterNodes.FieldsAreReported` | src/ClusterNodesParser.cpp:78-121 | Each report of a record is a master if "master" occurs in the flags in front of any zero byte, a slave if only "slave" does, and else unknown; it has no address if "noaddr" occurs, and is otherwise as printed |
| `ClusterNodes.TooLongFails` | src/ClusterNodesParser.cpp:96-121 | A field that goes over its limit, of 32 bytes for an address and 48 for others, ends the listing with an error |
| `ClusterNodes.ClusterNodesParser.Parse` | src/ClusterNodesParser.cpp:27-180 | One call over any buffers reports what reading the bytes one by one does, and leaves the same bytes |
| `ClusterNodes.AllFromOne` | src/ClusterNodesParser.cpp:27-180 | All reports are those of one call followed by those of the calls behind it |
| `ClusterPools.SlotsAreLastClaims` | src/ClusterServerPool.cpp:177-181 | Each slot has the group of the last accepted line of a master that covers it, and all others what they had |
| `ClusterPools.RefreshSetsSlots` | src/ClusterServerPool.cpp:89-191 | The same after a refresh that finishes |
| `ClusterPools.NodeIsFound` | src/ClusterServerPool.cpp:112-150 | Which server a line is about: the one with its address, or the one asked if it calls itself that, or the one with what stands in front of the `@`, or a new one if it is in service and there is room, or none |
| `ClusterMembers.GroupIsFound` | src/ClusterServerPool.cpp:157-175 | The group of a master is the one with its name, or a new one while there are less than 1024, or none |
| `ClusterMembers.ListingSetsSlots` | src/ClusterServerPool.cpp:89-191 | From the bytes of a listing: when the nodes are in service and there is room, each slot has the group named as the last master listed with it, and the others have what they had |
| `ClusterMembers.MembersAfter` | src/ClusterServerPool.cpp:151-191 | The members of a group after all lines are those from before and those that a line has put there |
| `ClusterMembers.ServersAfter` | src/ClusterServerPool.cpp:151-191 | After all lines every server points to what it did, and is what the last line about it says |
| `ClusterMembers.RefreshKeepsMembersExactly` | src/ClusterServerPool.cpp:89-232 | Members point to their groups after a refresh exactly if for every line that has a server in a group, the server pointed to it before, or the listing is complete and the last line about the server names it |
| `ClusterMembers.ListingsKeepMembersExactly` | src/ClusterServerPool.cpp:89-232 | The same after every one of any number of listings |
| `ClusterMembers.ListingsKeep` | src/ClusterServerPool.cpp:89-232 | Over any number of complete listings that tell the nodes apart by address, asked of any servers, the indices, names, addresses and memberships stay in order |
| `ClusterMembers.NeverInTwoGroups` | src/ClusterServerPool.cpp:89-232 | Then no server is ever in two groups |
| `ClusterMembers.ConfiguredIsKept` | src/ClusterServerPool.cpp:67-79 | The pool of a configuration with distinct addresses is in order to begin with |
| `ClusterPools.AddressesAreEnough` | src/ClusterServerPool.cpp:112-124 | Addresses that differ in front of the `@`, with the node that calls itself the one asked listed under that server's address, are enough, and leave a pool that is ready for the next listing |
| `ClusterPools.InOneGroup` | src/ServerGroup.cpp:285-307 | If members point to their groups, no server is in two |
| `ClusterPools.InTwoGroups` | src/ClusterServerPool.cpp:112-124 | Two lines with different addresses that end with one server in two groups |
| `ClusterPools.RemovedMembers` | src/ServerGroup.cpp:298-307 | Removing takes one member out and keeps all others, in an order of its own |
| `ClusterPools.AddedMembers` | src/ServerGroup.cpp:285-296 | Adding keeps members distinct, keeps all others, and takes the one given in exactly if it is there or there is room |
| `ClusterPools.ClusterServerPool.HandleResponse` | src/ClusterServerPool.cpp:89-232 | Parsing in any buffers, applying every line and settling the groups is exactly the refresh the lemmas are about; a listing that ends early is not settled |
| `DataCenters.DataCenter.GetDC` | src/DC.cpp:64-79 | The probe gets strictly shorter, and the result is that of a search over all prefixes |
| `DataCenters.Longest` | src/DC.cpp:64-79 | The search over all prefixes finds the longest one of the address, or none exactly if none is there |
| `DataCenters.ShorterProbe` | src/DC.cpp:64-79 | The common prefix with the predecessor is shorter, and keeps every prefix of the address |
| `DataCenters.DataCenter.Add` | src/DC.cpp:39-45 | Keeps the map sorted, and refuses a prefix that is there |
| `DataCenters.PermissionIsSomePrefix` | src/Auth.cpp:53-76 | The one probe never allows too much, and allows too little exactly when something sorts between the longest prefix and the key |
| `DataCenters.PrefixFreeIsEnough` | src/Auth.cpp:53-76 | If no prefix extends another, the probe is true exactly if some prefix matches |
| `DataCenters.RefusedWithAPrefix` | src/Auth.cpp:53-76 | A key that is refused although it has a prefix |
| `Ranking.TopsAreBest` | src/ServerGroup.cpp:92-121 | Starting the list anew with every better candidate keeps exactly those that no other beats |
| `Ranking.IDUnique.Unique` | src/ID.h:75-89 | The elements are compacted in place to the distinct ones in order of first meeting, and all markers are clear again |
| `ServerGroups.GetMaster` | src/ServerGroup.cpp:24-38 | The first master that is online, and none exactly if there is none |
| `ServerGroups.GetReadServer` | src/ServerGroup.cpp:72-134 | The loop picks among the best candidates |
| `ServerGroups.ReadGoesToTheBest` | src/ServerGroup.cpp:72-134 | A candidate that is up if any is, with the highest priority and then the fewest pending requests; none exactly if there is no candidate |
| `ServerGroups.ReadGoesToKind` | src/ServerGroup.cpp:72-134 | If masters, configured slaves or found slaves have the highest priority and one of them is online and up, one of that kind is read from |
| `ServerGroups.AnyBestIsDrawn` | src/ServerGroup.cpp:122-134 | Every server that no other is better than is drawn by some number |
| `ServerGroups.GetReadServerFrom` | src/ServerGroup.cpp:136-277 | A live server if any candidate is live, in a data centre of highest priority and positive weight, best there; none exactly if no such data centre has weight; markers are clear again |
| `ServerGroups.ReadIsInBestDC` | src/ServerGroup.cpp:136-229 | A read goes to a server that is online, of a kind and in a data centre with positive priorities and weight, up if any such is, and in no data centre of lower priority than theirs |
| `ServerGroups.AheadIsRead` | src/ServerGroup.cpp:136-229 | If one data centre is ahead of all others and has weight, and a server there that may be read is up, a read goes there |
| `ServerGroups.NoneMayBeRead` | src/ServerGroup.cpp:136-229 | Without such a server nothing is read |
| `ServerGroups.ChooseDC` | src/ServerGroup.cpp:200-229 | Draws a data centre from the list that has a positive weight, and none exactly if none has |
| `ServerGroups.ChooseServer` | src/ServerGroup.cpp:232-276 | Compacting the array that is being read overwrites no entry before it is read, and picks among the best in the data centre |
| `Scanning.PackingRoundTrip` | src/Handler.cpp:816-821 | The group always comes back, the cursor exactly below 2^54, and the sign is right below 2^53 |
| `Scanning.RequestOnlyChangesCursor` | src/Request.cpp:249-274 | A request in one buffer, or one across buffers whose first 64 bytes reach to the cursor, becomes the same request with another cursor: the new head ends with that, and what is behind stays |
| `Scanning.ScanOnlyChangesCursor` | src/Request.cpp:249-274 | So in any SCAN nothing but the cursor changes, wherever its bytes lie |
| `Scanning.ReplyOnlyChangesCursor` | src/Handler.cpp:814-834 | A reply becomes the same reply with the cursor that leads on, or stays as it is at the end |
| `Scanning.AtolOfPrinted` | src/Handler.cpp:652 | Printing a number and reading it back gives the number |
| `Scanning.AtolReads` | src/Handler.cpp:652 | Behind spaces and one sign at most the digits are read as a number, up to the bounds of a `long` |
| `Scanning.AtolOfNoNumber` | src/Handler.cpp:652 | A text without digits there is read as 0 |
| `FullScans.ScanStep` | src/Handler.cpp:649-676 | The page that is next is given, with the cursor of the one behind it |
| `FullScans.FullScan` | src/Handler.cpp:649-676 | With masters that stay, a client visits every page of every group once, in the order of the groups, and then gets 0 |
| `FullScans.ServerIsAsked` | src/Request.cpp:249-274 | Whatever page is next, the bytes sent to the server ask for it under its own cursor, with all else as the client sent it |
| `FullScans.ScanFits` | src/Request.cpp:249-274 | A name of four bytes, as SCAN has, always leaves room for the cursor in the first 64 bytes |
| `FullScans.NoPage` | src/Handler.cpp:649-676 | A cursor whose low ten bits are no group gets an error, and one behind the last master the end of the scan, and no other cursor does |
| `FullScans.ClientGetsPage` | src/Handler.cpp:814-834 | For the bytes of its request the client gets those of the page that is next, under the cursor of the one behind it |
| `FullScans.FullScanBytes` | src/Handler.cpp:649-676 | From request bytes to reply bytes: a client that repeats the cursor it reads in each reply gets the lists of all pages of all groups once, in order, and an empty list behind them exactly if the last group has no master |
| `Allocation.NextKeepsValid` | src/Alloc.h:52-114 | Every single read or write of any call keeps the invariant |
| `Allocation.HeldWithinLimit` | src/Alloc.h:52-114 | In every run the counter is the bytes held plus those reserved, and with a limit those held never exceed it |
| `Allocation.NeverLiveAndFree` | src/Alloc.h:52-114 | In every run no block is in use twice, in use and cached, or cached twice |
| `Allocation.BuiltIsInUse` | src/Alloc.h:62-96 | A block that is built is in use; one whose construction fails goes back to its list if it came from there and there is room, and else to the system |
| `Allocation.DestroyedIsFree` | src/Alloc.h:100-114 | A block that is destroyed is in use no more, and is kept in its list exactly if there is room |
| `Allocation.TakenExactly` | src/Alloc.h:52-114 | In every run the memory got from the system is the blocks held and those about to be given back; it exceeds the limit exactly if the latter are more than the room the former leave, and never while no call is between its subtraction and its delete |
| `Allocation.OnlyNewTakes` | src/Alloc.h:77-96 | Only an allocation adds to it, and by the size of its block |
| `Allocation.TakenOverLimit` | src/Alloc.h:100-114 | A run in which it does |
| `Allocation.RefusedExactly` | src/Alloc.h:77-96 | In every run a call is refused exactly if there is a limit that the bytes held and reserved exceed; a block that fits beside those held is refused exactly if other calls' reservations fill the room |
| `Allocation.BothRefused` | src/Alloc.h:77-96 | A run in which two calls are refused though nothing is held |
| `CasTimers.WinnersAreApart` | src/ServerPool.cpp:29-37 | In every run each winner is at least the interval after the one before it |
| `CasTimers.OneWinnerPerValue` | src/Server.cpp:40-48 | With a positive gap no stored value is replaced twice |
| `CasTimers.AloneItWins` | src/ServerPool.cpp:29-37 | A call with nobody in between wins exactly if it is due, and then stores the time, or when the next is due; any other changes nothing |
| `CasTimers.LosesOnlyToAWinner` | src/ServerPool.cpp:29-37 | With a positive gap a call that gets as far as the swap fails exactly if another has won since it loaded the value |

## Left out

- Inline commands, and command names of 32 bytes and more: the request parser of the model leaves the model there.
- RequestParsing.RequestParser.Parse: the limit on an invalid command counts turns of the loop, of which a body takes one
  for each buffer; that at least 1024 bytes of the command have been read by then is proved, not at which byte it ends.
- RequestReading.RequestReader.Read: the error reply to a rejected command is a reply like any other; its text is left out.
- The connections hold what is left of a message as a list of pieces, one per buffer, as `Gather` has them; `Buffers`
  proves that a segment in a chain of buffers loses bytes and pieces in just that way. Sharing of buffers between
  segments, and their reference counts, are not modelled.
- A buffer of `Buffers` holds its bytes as a sequence of bounded length, not as memory that is written in place.
- `Segment::fset`, which formats into a buffer: its output is bytes like any other.
- Delivery from the queue of a client: which requests are sent on while one blocks, and in what order.
- That every request is answered: a redirected request meant for a connection that is not good is dropped, and
  `Redirection` counts it as lost; one sent for the first time is refused with an error.
- MSETNX over several shards: it is not one step there, so that only the bytes on the wire are described.
- How the address is read out of a MOVED or ASK error: a redirection comes with the connection it leads to.
- The counters of pending requests, transactions, subscriptions and private connections.
- How often each data centre is drawn: only that the index is in range and the weight positive.
- The arrays of pending counts and priorities in the choice of a server: the model keeps each with its server.
- `ServerPool::randServer`, `ServerPool::iter` and `Connection::getBuffer`: a circular search, a cursor and a condition.
- Readers of a group while a refresh changes it, and the pool of servers and groups being read by other threads.
- The library's map, `lower_bound` and formatting: by what they return.
- Time stamps that wrap, and counters that overflow.
- Scanning.RequestOnlyChangesCursor: a request across buffers whose cursor's length line ends behind the first 64 bytes,
  where the source searches a copy of just these; no SCAN is such a request (`Scanning.ScanOnlyChangesCursor`). The branch
  for a request that has a head already is for inline commands.
- RequestReading.RequestReader.Read: the mode is given with each call; the source takes it from the setting and from
  whether the client is in a transaction when the call begins.
- ConnectConnections.ConnectConnection.Write: what the handler does with a request that is handed back without a reply.
- Redirection.RepliesMatchRequests: every request that is written becomes a sent one; `ConnectConnections` has exactly
  when not.
- FullScans.FullScanBytes: every request is answered, so none is stranded on its way.
- SplitMerge.SplitThenMerge: not for MSETNX, which the proxy does not do in one step over shards.
- AcceptConnections.AcceptConnection.Finish: the reply is final when it is given; `ClientStream.Client.Deliver` derives it
  from the group.
- SplitMerge.MgetMerged: replies that are arrays of one element or no arrays; of any other array the source cuts the first
  four bytes, and so does `Merging.Response.AdjustForLeader`.
- AcceptConnections.AcceptConnection.Fill: not the delivery of requests that have been held up.
- Merging.Request.SetResponse: not the subscribing commands, which are cut as well; each part keeps its own reply.
- To which servers SCRIPT LOAD goes: its replies are merged, and only its leader is in the queue of the client.
- Pipeline.PipelineLooksUnsplit: commands that are not cut have one key; that parts reach a shard in the order they were
  sent is what `ConnectConnections` proves of one connection, and is taken for granted of the shard behind it.
- FullScans.FullScan: cursors of servers below 2^53, and masters that stay as they are during the scan.
