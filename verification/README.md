# Verification of the replicated list service

This project models the chain-replicated car list of List_Server in Dafny and proves properties of
it. `dafny verify dfyconfig.toml` checks everything.

Clients send writes (ADD, DEL) to the head of a chain of servers and queries to its tail. A server
takes the lock on its list, forwards a write to its successor, waits for any reply, and only then
applies the write itself; so the tail applies first and the head last. The query for the list in
order by year sorts the list in place where it is served, and is not forwarded, so replicas are not
equal as sequences. Much of what follows is about what they do have in common.

| file | part |
|---|---|
| `Data.dfy` | car records and their validation |
| `CarSeqs.dfy` | lists as sequences: stable order by year, and how it commutes with filter, append and removal |
| `CarList.dfy` | the linked list on the heap |
| `Messages.dfy` | requests and replies; what `invoke` does, as functions |
| `Answers.dfy` | each kind of request: its reply and its list, element by element |
| `Skeleton.dfy` | `invoke` on message objects and heap lists; one request on a server; list transfer |
| `Replicas.dfy` | replicas that got the same writes between different queries |
| `ChainProtocol.dfy` | the protocol as interleaved steps of threads, with its invariant |
| `ChainTheorems.dfy` | logs, replies, linearizability, list contents over all runs |
| `ChainProgress.dfy` | absence of deadlock, the exact amount of work, every request answered |
| `ChainDivergence.dfy` | exactly when replicas agree |
| `LossyChain.dfy` | what the fates of its messages make of one write after another |
| `LossyRuns.dfy` | the interleaved protocol with lost requests and replies |
| `LossyReplies.dfy` | what clients are told when messages are lost |
| `Topology.dfy` | neighbours chosen from an unordered child list |
| `Framing.dfy` | length-prefixed messages over partial reads and writes |
| `ServerLog.dfy` | the log queue and its writer thread |
| `ClientSlots.dfy` | the client table and the connection limit |

## Main results

- Over all interleavings in a chain of any length, with servers joining at the end: each log of
  invoked writes is a prefix of the log below it and at most one entry shorter
  (`LogsArePrefixes`); an acknowledged write is in every server's history, with the very reply that
  the client got (`AcknowledgedEverywhere`); the tail's history is a sequential execution that
  explains all replies given so far at the ends of the chain, also by servers that were the tail
  before others joined, and respects real time (`TailIsSequential`, `TailRespectsRealTime`).
- A pending request can always move (`SomethingCanMove`); every internal step does exactly one unit
  of work, a write costing `4n - 1` units in a chain of `n` servers (`StepDoesWork`); when nothing
  can move, everything has been answered and all logs are equal (`StuckMeansAnswered`, `Drain`). So
  from every reachable state any further request can be sent and is answered (`RequestIsAnswered`).
- Servers with equal logs, each at its own time, hold the same models (`SameLogSameModels`), without
  any assumption. They hold the same cars of every year exactly when no model spans two years
  (`ChainAgreesIff`): if one does, `ReplicasPart` gives the run in which the head keeps one car and
  the tail another.
- With lossy links, over all interleavings, a log is a subsequence of its successor's exactly when
  the successor never gave up a write that this server applied (`SubsequenceIff`). That always holds
  next to the tail (`TailMissesNothing`); a write that is missing further down was given up in
  between (`MissingWasGivenUp`), and with three servers that can stay hidden from the head
  (`HiddenFailureRun`). A client is always told the truth about the head: the reply to its write is
  the one of the head's history, or the error for a write that the head gave up and did not invoke
  (`WriterIsToldTheTruth`), though servers further down may have (`ErrorThoughInvoked`).
- What `invoke` replies, and what it does to the list, is stated for each kind of request over the
  elements of the list and in the numbers on the wire (`Answers.dfy`), and so is the handling of a
  failed forward (`HandleRequest`).
- Any messages sent under any schedule of partial and interrupted calls are received as they were
  sent, in order, and use up exactly their bytes (`SendMessages`, `ReceiveMessages`). Reading from a
  closed connection ends by itself exactly when `errno` was not EINTR before and no call was
  interrupted before the first one that saw the end (`ReadAll`); otherwise the loop never ends.
- The limit on connections does not bound the clients being served: their number can grow without
  bound before any of them has registered (`NoBoundOnClients`). The count falls short of it by the
  clients without a slot and by every departure of one that never had a slot (`CountIsShort`), so with
  six clients a seventh is admitted exactly when one of the six has no slot or such a departure has
  occurred (`AdmittedAtLimitIff`). As long as neither is so whenever there are six, there are never
  more (`LimitKept`, `LimitExceeded`). From the first such departure on nobody is ever told BUSY again
  (`LimitCanBeLost`, `LimitLostForGood`).

## Assumptions

- Allocation and the creation of threads succeed; addresses and node names parse; messages fit the
  length field when the protocol sends them (`Framing` treats the others).
- The current year is one constant of a run. The repository's README.md speaks of validation up to
  the current year plus one; the code accepts cars up to the current year, and the model follows the
  code. A price is the bit pattern of a 32-bit float, with the comparison against zero written out.
- Packing of messages is not part of this model: a message arrives as it was sent.
- In `ChainProtocol` links neither fail nor change, apart from joins, and a join (query of the
  predecessor's list and linking) is one step taken while the predecessor's list lock is free. The
  code does not enforce the latter. Writes enter at the head.
- In `LossyChain` and `LossyRuns` a lost reply is noticed only after the successor has handled the
  write. `LossyChain` has one write after the other; `LossyRuns` does not assume that.
- A call that succeeds leaves `errno` as it is. A write of at least one byte moves at least one, unless
  it fails.
- Sequence numbers that the neighbour searches can find lie strictly between INT_MIN and INT_MAX.
  The searches themselves are specified without that assumption.
- A list has fewer than 2^31 cars.

## Model

| member | source | states |
|---|---|---|
| Data.DataCreate | source/data.c:17-42 | succeeds exactly for years from 1886 to the current one, prices not below zero, five brands and four fuels, with a fresh record of that content |
| Data.DataDup | source/data.c:60-65 | a fresh copy, refused exactly when the pointer is null or the content fails validation again |
| Data.NegativeByFields | source/data.c:113-116 | the price test on the bits is `< 0` of the float format: negative zero and NaNs pass |
| CarSeqs.SortIsStable | include/list.h:50-53 | ordering sorts by year, permutes, and keeps the order of cars of one year |
| CarSeqs.SortedUnique | source/list.c:145-167 | a sorted list is determined by its cars of each year, so the result of ordering is unique |
| CarSeqs.YearEqIffSameSorted | source/list_skel.c:186-199 | two lists give the same ordered list if and only if they agree year by year |
| CarSeqs.SwapNeighbours | source/list.c:156-161 | exchanging neighbours in the wrong order removes exactly one inversion and changes no single year |
| CarSeqs.SortByYearKeepsYear | source/list.c:112-142 | a query by year gets the same answer before and after ordering |
| CarSeqs.ModelsRemove | source/list.c:68-93 | removal takes away exactly one car of the model, or leaves the list as it is |
| CarSeqs.RemoveKeepsYearEqIff | source/list.c:77-91 | removing a model keeps two lists year-equivalent if and only if their first matches are of one year |
| CarSeqs.SortThenRemoveIff | source/list_skel.c:186-188 | an ordering before a removal is invisible if and only if the first car of the model is its oldest |
| CarList.ListCreate | source/list.c:9-19 | a fresh valid empty list |
| CarList.ListAdd | source/list.c:39-66 | appends a fresh unaliased copy and keeps all other nodes; -1 and no change for null or invalid cars |
| CarList.Append | source/list.c:57-64 | the walk ends at the last node; the result is valid with the node last |
| CarList.ListRemoveByModel | source/list.c:68-93 | unlinks exactly the node of the first match and leaves the other records where they are; 0, 1 or -1 as documented |
| CarList.ListGetByMarca | source/list.c:96-110 | the very record of the first matching node, or null when there is none |
| CarList.ListGetByYear | source/list.c:112-142 | the null-terminated array holds the very records of the matching nodes in order, filling all counted slots; their cars are the filter by year |
| CarList.ListOrderByYear | source/list.c:145-167 | terminates; the list becomes its stable order; nodes and links stay, the records are the same ones; exchanges equal old inversions |
| CarList.BubblePass | source/list.c:153-163 | one pass: reports an exchange if and only if there was one, each lowering the inversions by one |
| CarList.ListSize | source/list.c:169-175 | the number of cars, or -1 for null |
| CarList.ListGetModelList | source/list.c:178-205 | size + 1 slots: every model in order, then the terminator |
| CarList.ListGetAll | source/list_skel.c:51-67 | size + 1 slots: the very record of every node in order, then the terminator |
| Messages.EffectKeepsValidated | source/list_skel.c:113-144 | only validated cars are ever in a list |
| Messages.EffectOnModels | source/list_skel.c:97-235 | what each request does to the multiset of models |
| Messages.UnforwardedKeepsYears | source/network_server.c:491-496 | a request that is not forwarded changes no year and no model |
| Messages.ForwardedReplySeesModelsOnly | source/network_server.c:458-490 | the reply to a write depends only on the multiset of models |
| Messages.ForwardedKeepsYearEqIff | source/list_skel.c:216-227 | a write keeps two lists year-equivalent if and only if it deletes cars of one year from both |
| Messages.WholeListReceived | source/chain_server.c:238-266 | the ordered list of a server is taken over to its last car |
| Answers.SizeAnswer | source/list_skel.c:102-111 | SIZE: 41 and the number of cars |
| Answers.AddAnswer | source/list_skel.c:113-144 | ADD: 11 with result 0 and the car last in the list, or 99 with -1 and no change |
| Answers.GetAnswer | source/list_skel.c:146-168 | GET by brand: 21 and the first car of the brand, 99 if there is none; no reply is made for other content |
| Answers.YearAnswer | source/list_skel.c:170-185 | year query: 61 and exactly the cars of that year, in order |
| Answers.WholeListAnswer | source/list_skel.c:186-199 | whole list: 61 and all cars in stable order by year, which the list itself then has |
| Answers.ModelsAnswer | source/list_skel.c:202-214 | GETMODELS: 51 and the model of every car in order |
| Answers.DelAnswer | source/list_skel.c:216-227 | DEL: 31 with 0 and the list without the first car of the model, or with 1 and no change; 99 unless exactly one model is given |
| Answers.OtherAnswer | source/list_skel.c:228-231 | every other request: 99 with -1 and no change |
| Skeleton.DataArrayToProtobufArray | source/list_skel.c:29-50 | copies exactly the records before the terminator, nothing for null |
| Skeleton.Invoke | source/list_skel.c:97-235 | the request becomes its reply and the list its successor state, for every opcode and error case |
| Skeleton.InvokeAdd | source/list_skel.c:113-144 | ADD with missing or invalid data fails without effect, otherwise appends |
| Skeleton.InvokeByYear | source/list_skel.c:170-200 | year query and ordered query; the latter leaves the list in order |
| Skeleton.InvokeDel | source/list_skel.c:216-227 | DEL removes the first match and replies 0 or 1; anything but one model fails |
| Skeleton.HandleRequest | source/network_server.c:458-496 | ADD, DEL and ORDER whose forward got no reply leave list and records alone and are answered with an error; in all other cases, whatever the outcome of forwarding (source/chain_server.c:340-366), the request is invoked |
| Skeleton.AddReceived | source/chain_server.c:216-267 | appends the received cars up to the first invalid one, and none of any other message; 0 exactly on a list reply (61, 60) with valid cars only |
| Skeleton.CopyList | source/chain_server.c:327-333 | the new list becomes equal to the predecessor's, which is now in order; -1 and still empty when no answer arrives |
| Skeleton.InitList | source/chain_server.c:269-338 | copies exactly when a predecessor is found and answers; -1 when it cannot be reached, does not answer, or cannot be disconnected from, with the state of both lists in each case |
| Replicas.ReplayKeepsValidated | source/data.c:103-126 | every list reached from empty holds validated cars only |
| Replicas.SameWritesSameModels | source/list_skel.c:216-227 | same writes, any queries between them: same models, same size, same reply to the next write |
| Replicas.OrderingsLeaveNoTrace | source/list_skel.c:186-199 | without a model spanning two years, unforwarded orderings change no year of the outcome |
| Replicas.ReplicasAgree | source/list_skel.c:186-199 | same writes and no model spanning two years: ordering makes both lists identical |
| Replicas.AgreementIff | source/list_skel.c:186-188 | replicas always agree if and only if no model spans two years |
| Replicas.Divergence | source/list_skel.c:186-188 | the concrete requests after which two replicas hold different cars |
| ChainProtocol.StepKeepsInv | source/network_server.c:451-505 | every step of every thread, and every join, keeps the invariant of servers, links and acknowledgements |
| ChainProtocol.LinkHandledAbove | source/network_server.c:483-488 | a server that applies a write after its successor's reply has caught up with it |
| ChainProtocol.LinkHandledBelow | source/network_server.c:465-476 | a successor that applies a write gets ahead of its predecessor by exactly that write |
| ChainProtocol.JoinKeepsInv | source/chain_server.c:422-437 | an atomic join keeps the invariant; the new list equals the predecessor's and is year-equivalent to the one before |
| ChainTheorems.LogsArePrefixes | source/network_server.c:462-490 | each log is a prefix of every log below it and at most one entry shorter |
| ChainTheorems.LogsAgreeWhenCalm | source/network_server.c:462-490 | while the head holds no write, all logs are equal |
| ChainTheorems.AcknowledgedEverywhere | source/chain_server.c:352-365 | an acknowledged write has been invoked by every server with the same whole reply |
| ChainTheorems.TailIsSequential | source/network_server.c:462-504 | the tail's history executes distinct received requests one by one and yields its list and all replies observed so far, those given by former tails included |
| ChainTheorems.TailRespectsRealTime | source/network_server.c:498-499 | a request answered before another arrived precedes it in that history |
| ChainTheorems.ServerCanJoin | source/chain_server.c:424-437 | in every reachable state in which the tail's list is not locked another server can join, with the tail's cars in order |
| ChainTheorems.SameLogSameModels | source/list_skel.c:216-227 | servers with equal logs, each at its own time, hold the same models and would answer any write alike |
| ChainTheorems.SameLogSameYears | source/list_skel.c:170-200 | and without a model spanning two years they answer every year query and ordered query alike |
| ChainProgress.SomethingCanMove | source/network_server.c:465-490 | no deadlock: some step is enabled while any thread is at work |
| ChainProgress.StepDoesWork | source/network_server.c:462-504 | every internal step lowers the remaining work by one; a write brings 4n - 1, another request 3 |
| ChainProgress.DrainLength | source/network_server.c:462-504 | no run without arrivals is longer than the work it starts with |
| ChainProgress.StuckMeansAnswered | source/network_server.c:498-505 | when nothing can move every request has been acknowledged and all logs are equal |
| ChainProgress.Drain | source/network_server.c:462-504 | such a state is reached from every state, in exactly as many steps as there is work |
| ChainProgress.RequestIsAnswered | source/network_server.c:451-505 | from every reachable state any request on an idle connection can be sent, is then invoked by its server, and is answered |
| ChainDivergence.WriteThrough | source/network_server.c:462-490 | a write into an idle chain is applied once by every server and leaves it idle |
| ChainDivergence.ReplicasPart | source/network_server.c:458-460 | a run of any chain, a single server being joined first, that ends idle with different cars at head and tail |
| ChainDivergence.ChainAgreesIff | source/network_server.c:458-460 | the replicas of a chain of any initial length agree in every run if and only if no model that clients may add spans two years |
| LossyChain.WhoInvokes | source/network_server.c:470-488 | which servers apply a write, by the fates above and at each, and which reply its sender gets |
| LossyChain.LogIsSubsequenceIff | source/chain_server.c:352-365 | a log is a subsequence of the next if and only if the next server gave up no write applied here |
| LossyChain.TailNeverMisses | source/network_server.c:470-488 | next to the tail, so in a chain of two, that is always the case |
| LossyChain.AcknowledgedIsEverywhereIff | source/chain_server.c:353 | an acknowledged write is everywhere if and only if nothing was lost below the first link |
| LossyChain.HiddenFailure | source/chain_server.c:353 | three servers, the second link fails, the head still reports success |
| LossyRuns.StepKeepsInv | source/network_server.c:451-505 | every step of every thread, with or without the loss of a message, keeps the invariant of servers and links |
| LossyRuns.SubsequenceIff | source/network_server.c:470-490 | in every reachable state a log is a subsequence of the next if and only if the next server has given up no write invoked here |
| LossyRuns.TailMissesNothing | source/network_server.c:465-476 | in every reachable state the log of the last server but one is a subsequence of the tail's |
| LossyRuns.MissingWasGivenUp | source/network_server.c:477-482 | a write invoked above and missing below was given up by a server in between that is not the tail |
| LossyRuns.ForwardCanFail | source/network_server.c:477-482 | in every reachable state a forward under way can fail: no change to the list, unlocked, the request answered with opcode 99 and result -1 |
| LossyRuns.HiddenFailureRun | source/chain_server.c:353 | a run of three servers in which the second gives up a write that the head invokes and reports as done |
| LossyRuns.ErrorThoughInvoked | source/network_server.c:477-482 | a run of two servers in which the tail invokes a write and the client is told that it failed |
| LossyReplies.ListsAreReplayed | source/network_server.c:470-490 | whatever is lost, every list is the outcome of the requests its server has invoked |
| LossyReplies.WriterIsToldTheTruth | source/network_server.c:477-490 | an acknowledged write was either invoked by the head, with the reply of its history, or given up and not invoked, with opcode 99 and result -1 |
| LossyReplies.ReaderIsToldTheTruth | source/network_server.c:491-504 | any other acknowledged request has the reply of its server's history |
| Topology.NumbersAreParsed | source/chain_server.c:133-135 | the numbers that are compared are exactly those parsed from the names of children |
| Topology.FindSuccessor | source/chain_server.c:124-141 | a child above one's own number with none in between, or -1 exactly if no child is above it, for every order of the children |
| Topology.FindPredecessor | source/chain_server.c:276-292 | a child below one's own number with none in between, or -1 exactly if no child is below it |
| Topology.FindEnds | source/chain_client.c:95-121 | least and greatest child in one pass; index 0 when no name parses |
| Topology.ServerLink.Update | source/chain_server.c:104-179 | the new link: unchanged for no children, dropped for one or on failure, else the successor |
| Topology.OneChain | source/chain_server.c:133-141 | following the chosen successors from the client's head visits every server once, in order, to the client's tail |
| Topology.ChildrenFormOneChain | source/chain_client.c:100-124 | the same for the numbers that the clients' and the servers' searches find in one child list |
| Topology.PredInvertsSucc | source/chain_server.c:284-292 | the predecessor found at joining is the server that links to the newcomer |
| Topology.EndsOfTheChain | source/chain_client.c:105-124 | the head is the only server nobody links to, the tail the only one that links to nobody |
| Topology.InsertChangesOneLink | source/chain_server.c:124-141 | a new child changes only its predecessor's successor |
| Topology.RelinkKeepsChain | source/chain_server.c:194-210 | searching again at the newcomer and at that predecessor is enough |
| Topology.ChangesKeepChain | source/chain_server.c:194-210 | after any sequence of changes the links form the one complete chain |
| Framing.WriteAll | source/message-private.c:7-18 | complete: exactly the buffer was appended; otherwise a proper prefix; completes given enough moves and no failure |
| Framing.ReadAll | source/message-private.c:20-31 | complete: exactly the front of the stream; otherwise a proper part of it; completes given enough moves and bytes; at the end of a closed stream it ends if and only if `errno` was not EINTR before and no call was interrupted before the first that saw the end |
| Framing.EndNoticed | source/message-private.c:23-27 | after an interruption the end of the stream is never noticed; without one it is, by the next read after the last byte |
| Framing.NetworkSend | source/network_server.c:622-647 | appends exactly one frame; sizes 0 and above 65535 are refused untouched |
| Framing.NetworkReceive | source/network_server.c:597-620 | takes exactly one frame off the stream under every schedule of partial reads; the same condition for a connection closed before a message |
| Framing.FrameBytes | source/network_server.c:631-644 | two bytes of length, the high one first, and then the payload |
| Framing.RoundTrip | source/network_server.c:597-647 | the frames of any sequence of payloads are parsed to these payloads, and parsing goes on behind them |
| Framing.RoundTripOfPrefix | source/network_server.c:597-647 | of any part of the frames that has arrived, the first payloads are parsed and no byte is out of place |
| Framing.SendMessages | source/network_server.c:498-504 | one message after another, one schedule each: exactly their frames are appended, up to a first failure that leaves a proper part of one frame |
| Framing.ReceiveMessages | source/network_server.c:451-454 | one message after another, one schedule each: what is received is the first of what was sent, all of it given calls enough, and the stream then holds exactly the rest |
| ServerLog.LogQueue.Enqueue | source/network_server.c:253-262 | appends one line; head and tail stay consistent |
| ServerLog.LogQueue.Dequeue | source/network_server.c:280-285 | takes the first line; head is null if and only if tail is |
| ServerLog.LogQueue.Clear | source/network_server.c:349-358 | shutdown empties the queue |
| ServerLog.WriteLine | source/network_server.c:287-303 | writes a prefix of the line, all of its bytes when no write fails, and nothing for a missing line |
| ServerLog.StepKeepsInv | source/network_server.c:253-308 | lines queued are lines finished, in hand, freed at shutdown and queued, in order; no wakeup is missed |
| ServerLog.FirstInFirstOut | source/network_server.c:265-308 | finished lines are the first ones queued, and the file is their text |
| ServerLog.NothingLeftAtExit | source/network_server.c:274-278 | at the writer's exit every line queued so far has been finished |
| ServerLog.WriterNeverStuck | source/network_server.c:270-273 | with a line queued or shutdown begun the writer is awake and has a step to take |
| ServerLog.Flush | source/network_server.c:265-308 | until the writer has exited it can write out all lines that have been queued, each whole |
| ServerLog.QueuedIsWritten | source/network_server.c:240-262 | any line can be queued, and is then written behind all lines before it |
| ServerLog.ShutsDown | source/network_server.c:274-278 | from every reachable state shutdown can begin, and the writer exits with everything written that was queued |
| ServerLog.LateLineIsLost | source/network_server.c:349-358 | a line queued after the writer's exit is freed unwritten |
| ClientSlots.ClientTable.Register | source/network_server.c:434-445 | takes the first free slot and counts, or does neither |
| ClientSlots.ClientTable.Unregister | source/network_server.c:511-521 | frees the caller's slot and always lowers the count |
| ClientSlots.StepKeepsInv | source/network_server.c:428-526 | slots and registered threads match; the count is the occupied slots less the slotless departures |
| ClientSlots.SeatedCanLeave | source/network_server.c:511-521 | a seated client can leave; its slot is free then, all other slots are untouched, and the count is one less |
| ClientSlots.BusyIff | source/network_server.c:549-558 | BUSY is reported if and only if all slots are taken and no slotless thread has ever left |
| ClientSlots.CountIsShort | source/network_server.c:549-558 | the count is the clients being served less those without a slot less the slotless departures so far |
| ClientSlots.AdmittedAtLimitIff | source/network_server.c:548-558 | with six clients being served, a seventh is admitted if and only if one of them has no slot or a slotless client has left |
| ClientSlots.LimitKept | source/network_server.c:548-558 | there are never more than six as long as neither is so whenever there are six |
| ClientSlots.LimitExceeded | source/network_server.c:548-558 | and where it is so, the run continues with a seventh |
| ClientSlots.NoBoundOnClients | source/network_server.c:428-440 | for every n a run without departures in which n clients are being served |
| ClientSlots.LimitCanBeLost | source/network_server.c:549-576 | a run in which a seventh client is admitted, finds no slot and leaves |
| ClientSlots.LimitLostForGood | source/network_server.c:512 | after one such departure BUSY is never reported again |

## Left out

- Sockets, ZooKeeper sessions and watches, address detection, signals, files and timestamps: only their outcomes appear, as parameters or as steps.
- Packing and unpacking of protocol buffers (source/sdmessage.pb-c.c).
- The command line client, printing, and the field copying in source/client_stub.c.
- Crashes of servers in the middle of a write and their recovery; only lost messages are modelled.
- A join that is not atomic: a write between the copy and the linking can miss the new server.
- The lock on the link to the successor: in a fixed chain it is only taken by the holder of the list lock.
- The formatting of log lines, including that formatting a DEL reads its first model whether or not it has one.
- Joining of client threads at shutdown, and the release of memory and list destruction.
- Branches of `invoke` taken only when allocation fails.
- Replacing the content of a record in place (data_replace), which no modelled code calls.
- The client's reconnection to the ends it has chosen.
