# A verified model of ccmqsrv

ccmqsrv is an RPC and event layer over AMQP.  A client publishes requests and waits for replies on a
callback queue; a server hands every delivery to a thread pool, which runs the registered function
and publishes a reply; events fan out to registered handlers.  This project models the parts where
threads, queues and encodings meet, and proves what they keep on every run.

    dafny verify dfyconfig.toml

## Structure

| module | part of the program |
|---|---|
| `Json`, `Values`, `RpcUtils` | JSON and C++ value trees; `_parse_json_element`, `json_loadb`, both message formats |
| `Recovery` | `getv` and `get_tuple`: from `std::any` trees to typed parameters |
| `Worker` | one request from delivery to reply, and the tail of `Caller::call` |
| `RpcServer`, `RpcHistory` | the server as a step system: deliveries, pool workers, registration changes; what its records mean over whole runs |
| `Slots`, `RpcClient` | `AsyncResult`, and the client as a step system: callers, event thread, publishers, four kinds of lock |
| `ClientTable`, `SlotSafety`, `PublishGate`, `GateRuns`, `Progress` | what every interleaving of the client keeps, and exactly when it goes wrong |
| `Channel` | what the client sends over whole runs: its own event for each publish, its own request for each call, each once |
| `RpcSystem`, `Queues`, `NoTimeout` | client, broker queues and server together: a remote call refines a local call, both queues keep order and lose nothing, and a waiting call whose request can be answered needs no timeout |
| `Events`, `EventRuns` | handler registry, dispatch and event workers as a step system, and over whole runs |
| `Server`, `Client` | `MessageQueueServer` and the slot table of `MessageQueueClient` as objects with fields |
| `SplitStr`, `Address`, `WaitConn` | the tokenizer, the connection string, the retry loop |

The concurrent parts are step systems.  A step is one lock acquisition, one critical section, one map
operation or one message; a run is any sequence of enabled steps from the initial state; a claim about
`Reachable` states is a claim about every state of every run, with any number of threads.  States carry
records of the past (causes of jobs, dispatched events, logs); `RpcHistory`, `EventRuns`, `GateRuns`, `Channel` and
`SlotSafety.UnnotifiedExactly` tie each record to the steps of the run that it stands for.  The
sequential code is imperative: methods with loops, and the classes `AsyncResult`,
`MessageQueueClient` and `MessageQueueServer`.  Steps and methods are specified by the same
functions (`SetDone`, `Check`, `Leave`, `Serve`, `Registered`, `Unregistered`, `Indexed`, ...), so a
fact about one is a fact about the other; `RpcServer.WorkerAlone` and `SlotSafety.AtomicResponseIsSafe`
say that the fine steps, taken in a row, are the whole member, and `Server.QueuesTasksFor` that the
heap method queues the tasks of the step system.

## Assumptions

- Generated request ids are distinct and not empty (`FreshId`).
- `dump` and `parse` of the JSON library are inverse on JSON values: a message body is either the
  dump of a value or text that does not parse.
- Each broker queue keeps its order (section 4.7 of AMQP 0-9-1), and nothing is redelivered.
- A single map or set operation, and a single publish on a channel, is atomic.
- Asserts are compiled in, and a type's `name()` identifies it.
- An exception that escapes a pool worker ends that worker's request only.  If it ended the process
  instead, the claims about the runs up to that point would still hold.
- A bound function is any relation between its parameters and its outcomes; an outcome is a value, no
  value, a `runtime_error` or another exception.
- A timeout may fire whenever its caller waits; spurious wakeups are a switch of the configuration.

## What the proofs bring to light

- The unlocked find-then-index of `on_response` is safe without spurious wakeups.  With them it is
  not: the slot is missing exactly when the handled call was woken without notification and has
  erased its slot (`SlotMissingExactly`), and such a run exists (`SpuriousWakeupCrashes`).  Even then
  no call ever returns a foreign result (`RefinesLocalCall` does not exclude spurious wakeups).
- Waiting under `req_events_mtx` does not deadlock, because the event thread never takes that lock; it
  does serialise all callers.  If the request can be answered, not even a timeout is needed
  (`NoTimeoutNeeded`); once it is abandoned, the timeout is the only end (`AbandonedTimesOut`).  `Caller::call` (include/client.h:79-86) is documented as having no
  timeout, but the code waits at most ten days (include/client.inl:25-30), and a timeout leaves its
  slot in the table (`TableAccounting`).
- A value survives the trip as an argument exactly when it is flat.  A non-empty vector or map of
  typed containers never does, although such parameters compile: the cast throws outside
  `runtime_error`, and the caller gets no reply (`NestedContainersFail`, `CallRoundTrip`).
- A scalar of the wrong type is silently replaced by the default value (`RecoverExact`); in particular
  an integer argument for a `double` parameter arrives as 0.0.
- `runtime_error("")` reaches the caller as a normal null result (`ResultRoundTrip`).
- A request for an unknown method is never answered: its empty result text fails to parse inside
  `send_reply`, outside the `try`.  Neither is one whose arguments cannot be recovered (`ServeExact`,
  `ReplyExactlyOnce`).
- Unregistering a method between a worker's find and its call leaves an empty function under the
  name, which blocks registering it again (`UnregisterRace`, with a run in `UnregisterRaceHappens`).
  An empty function stands under a name exactly if a worker called the name while it stood for nothing
  and it was not unregistered since (`RegistryExactly`).  The same happens to an unregistered event
  handler with a queued worker (`HandlersExactly`, `UnregisterQueuedHappens`).
- The inner test of `unregister_event_handler` (src/server.cc:167-169) can never hold, so empty event
  types stay in the map; a handler under the event type `""` is never removed (`UnregisterRemovesOne`).
- Two publishers declare a key twice exactly if both looked for it before either inserted it
  (`DeclaredTwiceExactly`).  A publisher stays parked although the flag is up exactly if a bind was
  confirmed between its test and its wait and none after it parked (`LostWakeupExactly`).  Both happen
  (`TwoPublishersDeclareTwice`, `LostWakeup`).  Bind before publish holds regardless.
- `2^i` is exclusive or, so the retry loop sleeps n(n-1)/2 + 0, 2, 4 or 2 seconds after n failures
  (`SleepClosedForm`), not exponentially.  When all attempts fail the server starts all the same,
  where include/server.h:202-209 suggests that it stops.
- include/client.h:199 says that `call_async` returns a result; it returns the request id.

## Model

| member | source | states |
|---|---|---|
| RpcSystem.RefinesLocalCall | include/client.inl:7-23 | over every run of client, broker and server, with any interleaving and completion order, a call that returns or throws was served by exactly one job, that of its own request, and ends as a local call of a function registered under its own method name can end on its own arguments |
| RpcSystem.SeesOwnArguments | include/server.inl:98-110 | at matching parameter types the method sees the caller's own arguments if and only if all of them are flat |
| RpcSystem.OutcomeSeen | include/client.inl:17-22 | how a finished call reads its method's outcome: values unchanged, void as 0, an empty error as null, and it throws `what` iff the method threw the non-empty `what` |
| Channel.CallsExactly | include/client.inl:7-10 | over every run a started call keeps its key, method, arguments and id; it fails for an empty name iff the name is empty; otherwise it has, from its publish on and in particular once finished, exactly one request on the channel, to its key, with its id as header, the callback queue as reply-to and a body that decodes to id, method, arguments and no keywords, and none before |
| Channel.CallWasStarted | include/client.inl:54-73 | every call comes from one start step, with its key, method, arguments and id |
| Channel.TimedOutExactly | src/client.cc:20-24 | over every run a finished call has timed out iff its wait ended by the timeout, even when the reply had arrived |
| Queues.QueuesKeepOrder | include/client.inl:66-71 | in every reachable state this client's requests at the server are the ones it published to the server's queue, in order, and the messages received are the replies to its queue that the broker took from the server, in order, with id and body |
| Queues.RequestArrives | include/client.inl:66-71 | a call to the server's queue that has published has its own request at the server, once |
| RpcSystem.ClientSurvives | src/client.cc:34-45 | in every run without spurious wakeups the event thread never dereferences a missing slot and never meets a reply it cannot decode |
| RpcSystem.CallsEndProperly | include/client.inl:7-23 | without spurious wakeups no call ends by failing to parse its result |
| RpcSystem.OneReplyPerId | src/server.cc:109-148 | the client receives at most one reply per request id, so the assumption of the slot-safety results is met by every run of the system |
| RpcSystem.HeadersAgree | src/rpc_utils.cc:53-75 | every request of this client and every reply carries the right type tag, and in its body the id of its header, in five fields for a request and four for a reply, so the asserts of both decoders hold |
| RpcSystem.Projects | src/server.cc:49-57 | a run of the whole system is a run of the client and a run of the server, so all claims about either hold of them together |
| SlotSafety.SlotSafe | src/client.cc:39-43 | with distinct ids, at most one reply per id and no spurious wakeups, the slot that was found is registered until it is set, under every interleaving with register, wait, wake and erase |
| SlotSafety.SlotMissingExactly | src/client.cc:39-43 | spurious wakeups allowed: the found slot is gone if and only if its own call left the wait without a notification and has already erased it |
| SlotSafety.UnnotifiedExactly | src/client.cc:20-24 | over every run a call counts as woken without a notification iff some step woke it so |
| SlotSafety.SpuriousWakeupCanCrash | src/client.cc:39-43 | from every reachable state in which a call waits for the reply just found, one spurious wakeup can lead to a dereferenced missing slot |
| SlotSafety.SpuriousWakeupCrashes | src/client.cc:22-26 | such a state is reachable, by a concrete run |
| SlotSafety.NoParseFailure | include/client.inl:21-22 | the client alone: no spurious wakeups and one reply per id imply that a taken result always parses |
| SlotSafety.AtomicResponseIsSafe | src/client.cc:34-45 | taken without interruption, `on_response` sets a registered slot or changes nothing, from every state |
| ClientTable.TableAccounting | include/client.inl:11-16 | the keys of `req_events` are exactly the ids of registered unfinished calls and of timed-out calls; ids are distinct |
| ClientTable.CallUsesOwnReply | include/client.inl:11-22 | a call that returns or throws does so on a reply that was received under its own id, also with spurious wakeups |
| ClientTable.StepKeepsInv | include/client.inl:54-73 | every step of every thread keeps: each lock is held exactly by the thread inside its critical section, a call has a slot exactly between insert and erase, and every pair in a slot came in under its id |
| NoTimeout.NoTimeoutNeeded | include/client.inl:12-22 | without spurious wakeups, from every reachable state in which a call waits under the table lock for a request that has been, is being, or can be answered, steps of server, broker, event thread and the call itself let it return or throw |
| NoTimeout.AbandonedTimesOut | src/client.cc:20-24 | once its request is abandoned a call can end only by its timeout |
| NoTimeout.ReachableHeard | src/client.cc:34-45 | in every reachable system state a call whose reply has been handled finds the result when it looks, or has been notified if it waits; every taken reply was received |
| Progress.LockOrder | include/client.inl:12-16 | what a thread holds when it has to acquire: at most the table for a slot, at most the gate for the channel, nothing for the table or the gate; a parked publisher holds nothing; the event thread holds a slot only while it sets it |
| Progress.DeadlockFree | include/client.inl:12-16 | in every reachable state with an unfinished call some thread can step, and so that the remaining work drops |
| Progress.CanFinish | include/client.inl:7-23 | from every reachable state the system can go on until every call has finished |
| Progress.CallMeasure | include/client.inl:7-23 | each step of a call lowers its rank, no other step raises it, so a call takes at most 13 steps |
| PublishGate.BindBeforePublish | include/client.inl:35-51 | in the command log of every run each event publish is preceded by a declare of its key and then a bind of its key, also with concurrent publishers |
| Channel.PublishesExactly | include/client.inl:35-51 | over every run a publish of type t and data v to a key has put on the channel, once it is done, exactly one event, to that key with the body [t, v], and none before |
| Channel.EventWasPublished | include/client.inl:49-50 | every event on the channel is that of one publish, started earlier with its key, type and data |
| Channel.EventRoundTrip | src/server.cc:79-83 | the body of a published event decodes at the server to its type and its data |
| Progress.PublisherCanFinish | include/client.inl:44-50 | once the flag is up every publisher that has not missed it can finish, whatever the other threads are at |
| PublishGate.ExactlyOnePreparation | include/client.inl:37-42 | with one publisher no key is declared or bound twice, and each published key exactly once |
| PublishGate.TwoPublishersDeclareTwice | include/client.inl:37-42 | such a run exists: two overlapping publishers declare a key twice |
| GateRuns.LostWakeupExactly | include/client.inl:44-47 | over every run a publisher is parked unnotified with the flag up iff a bind was confirmed between its test of the flag and its wait, and none after it parked |
| GateRuns.NotifiedExactly | include/client.inl:40 | a parked publisher has been notified iff a bind was confirmed after it parked |
| GateRuns.StaysParked | include/client.inl:45-47 | without spurious wakeups an unnotified parked publisher stays parked until a bind is confirmed |
| GateRuns.DeclaredTwiceExactly | include/client.inl:37-42 | over every run a key is declared more than once iff two publishers each looked for it while it was not inserted and went on to declare it |
| PublishGate.LostWakeup | include/client.inl:44-47 | such a run exists: the flag is up and the publisher is parked unnotified |
| RpcHistory.AnsweredExactly | src/server.cc:109-148 | over every run and pool schedule a finished request has exactly one reply iff it carries keyword arguments, or some step called the function that then stood in the registry under its method, the parameters were recovered, and the function returned or threw `runtime_error`; otherwise none |
| RpcHistory.RegisteredIsAnswered | src/server.cc:125-137 | a request whose method stands registered as m from its delivery on was called as m with an outcome that m allows, and has one reply iff m's parameters were recovered and the outcome was no other exception |
| RpcHistory.CausesHappened | src/server.cc:125-127 | what is recorded of a request happened: its method was unknown only if a worker found the name unregistered, and it was called only as what the registry held |
| RpcHistory.RegistryExactly | include/server.inl:122-142 | over every run a function stands under a name iff it was registered there while the name was free and not unregistered since; an empty one iff a worker called the free name and it was not unregistered since |
| RpcServer.OnlyRegisteredAreCalled | include/server.inl:122-131 | in every reachable state the functions in the registry and the called ones were registered |
| RpcServer.ReplyExactlyOnce | src/server.cc:109-148 | the same seen from one state: an unfinished delivery has no reply, a replied one exactly one, an abandoned one none, with a cause that accounts for it |
| RpcServer.RepliesAreOwn | src/server.cc:140-148 | every published reply goes to its request's reply-to under its id, and decodes to the answer of its own request |
| RpcHistory.DeliveriesConserved | src/server.cc:75-77 | over every run the deliveries taken = queued + running + replied + abandoned, and replies published = replied |
| RpcServer.WorkerAlone | src/server.cc:109-138 | the fine steps of one worker in a row publish exactly what the sequential `_rpc_worker` publishes, and touch no other job and no binding |
| RpcHistory.UnregisterRace | src/server.cc:125-127 | a call changes the registry iff its name is gone; then there is no reply, and the name is blocked for registration until it is unregistered |
| RpcHistory.UnregisterRaceHappens | src/server.cc:150-155 | a run in which a method was registered at arrival and at the find, and its request is abandoned and its name blocked |
| Worker.ServeExact | src/server.cc:109-148 | a request is answered if and only if it decodes and carries keyword arguments, or its method is bound, its parameters are recovered and the function returns or throws `runtime_error`; the reply goes to its own reply-to and decodes to the local answer |
| Worker.ServeFails | src/server.cc:109-148 | exactly how a request goes unanswered: it does not decode, its method is unknown or empty, its parameters are not recovered, or another exception is thrown |
| Worker.KeywordsAreRefused | src/server.cc:120-131 | the caller of a request with keyword arguments throws "Invalid parameter passing mode<k: v>", whatever the method |
| Worker.ReplyForExact | src/server.cc:140-146 | what `send_reply` publishes, field by field, and that a result that does not parse is not sent |
| Worker.NullErrorIsSuccess | src/rpc_utils.cc:72-74 | a reply with a null error ends the call normally with its result |
| Worker.ConcludeExact | include/client.inl:17-22 | the call throws exactly a non-empty error, returns exactly the parsed result of an empty one, and otherwise fails to parse |
| Worker.ResultRoundTrip | src/rpc_utils.cc:64-75 | from the end of the function to the end of `call`: values unchanged, void as 0, and the caller throws m iff the function threw the non-empty m |
| Worker.CallProxy | include/server.inl:98-110 | the proxy fills the record as `Invoke` says, or lets the exception of recovery or of the function escape |
| Recovery.CallRoundTrip | include/server.inl:71-76 | encode, dump, parse, load, decode, recover: id, method and empty keyword arguments always come back, the arguments if and only if each is flat |
| Recovery.ArgumentRoundTrip | include/server.inl:39-69 | a well-typed value comes back unchanged at its own type if and only if it is flat |
| Recovery.RecoverExact | include/server.inl:39-69 | exact classification of `getv`: match; scalar mismatch, which gives 0, 0.0, "", false or null by the type; elementwise conversion iff every element has exactly the element type; otherwise `bad_any_cast` |
| Recovery.NestedContainersFail | include/server.inl:52-65 | a container of typed containers is never recovered from a non-empty array or object |
| Recovery.RecoverAllExact | include/server.inl:71-76 | the tuple exists iff there are enough arguments and each is recovered on its own; surplus arguments are ignored |
| Recovery.RecoverAllFails | include/server.inl:71-76 | the tuple fails at the first parameter that has no argument or whose argument is not recovered, with that failure |
| Recovery.RecoveredType | include/server.inl:39-69 | a recovered value has exactly the parameter's type |
| Recovery.GetV | include/server.inl:39-69 | the loops over vector and map compute the recovery of the value, or the cast that throws; a mismatched scalar gives 0, 0.0, "", false or null; a recovered value has the parameter's type |
| Recovery.GetTuple | include/server.inl:71-76 | the left-to-right fill computes the recovery of the whole tuple, or its first failure |
| RpcUtils.DecodeKeepsStructure | src/rpc_utils.cc:7-42 | along every path the decoded tree has a node exactly where the JSON tree has one, of the same kind, size, keys and scalar, integers modulo 2^32 in the signed range |
| RpcUtils.ToJsonKeepsStructure | include/rpc_utils.h:28-31 | the JSON form of a value has along every path a node exactly where the value has one, with the same kind, size, keys and scalar |
| RpcUtils.EraseUndoesDecode | src/rpc_utils.cc:7-42 | erasing the types restores the JSON tree if and only if all its integers lie in [-2^31, 2^31) |
| RpcUtils.ParseJsonElement | src/rpc_utils.cc:7-42 | the recursive loops over objects, in any key order, and arrays build the decoded tree |
| RpcUtils.JsonLoadb | src/rpc_utils.cc:44-51 | the elements of an array, the values of an object in key order, or a scalar once; text that does not parse is an error |
| RpcUtils.LoadJsonExact | src/rpc_utils.cc:44-51 | what is loaded, without reference to the loader: array elements in order, object values in ascending key order, nothing from null, any other scalar once |
| Json.StringLeExact | src/rpc_utils.cc:47-49 | the key order: a prefix comes first, otherwise the first different character decides |
| RpcUtils.RequestRoundTrip | include/rpc_utils.h:28-31 | the decoders undo `rpc_encode_req`, and the id assert fails exactly on a different non-empty header |
| RpcUtils.DecodeReqExact | src/rpc_utils.cc:53-62 | a request is accepted if and only if its five leading elements spell it out and the header is empty or its id |
| RpcUtils.DecodeReqRefuses | src/rpc_utils.cc:53-62 | how a request is refused: a missing field, a type tag or id that fails its assert, or a field of the wrong type, whichever comes first |
| RpcUtils.DecodeRepExact | src/rpc_utils.cc:64-75 | a reply is accepted iff it is an array that starts with the tag 1 and a string that agrees with a non-empty header; its error is the third field if that is a string and empty otherwise, its result the fourth field or null |
| RpcUtils.DecodeRepRefuses | src/rpc_utils.cc:64-70 | how a reply is refused: text that does not parse, a tag or id that fails its assert, or a wrong type |
| RpcUtils.ReplyRoundTrip | src/rpc_utils.cc:64-75 | decoding undoes the reply body that `send_reply` builds, and the id assert fails exactly on a different non-empty header |
| Values.ToInt32 | src/rpc_utils.cc:27-29 | the narrowed integer fits, is the original iff that fits, and is congruent to it modulo 2^32 |
| Slots.AsyncResult.Set | src/client.cc:6-11 | stores the pair, marks it done and notifies a waiter; without one the notification is lost |
| Slots.AsyncResult.BeginGet | src/client.cc:18-21 | takes the result if it is there, otherwise parks the caller and frees the mutex |
| Slots.AsyncResult.EndGet | src/client.cc:22-27 | after the wait `done_` is cleared unless the wait timed out |
| Slots.AsyncResult.Move | include/client.inl:14 | moving out of the returned reference empties the pair and gives its old content |
| Client.MessageQueueClient.Insert | include/client.inl:62-65 | a fresh slot under the id, every other slot untouched |
| Client.MessageQueueClient.OnResponse | src/client.cc:34-45 | on the heap: exactly the slot of the id is set, to the decoded reply; an unknown id changes nothing; a reply that does not decode escapes iff its id is known |
| Client.MessageQueueClient.BeginTake | include/client.inl:13-15 | if the result is there, the pair of the slot is returned and exactly this slot disappears; otherwise the caller is parked in its slot and nothing else changes |
| Client.MessageQueueClient.EndTake | include/client.inl:14-15 | after the wait: a timeout leaves the table as it is, otherwise the pair is returned and exactly this slot disappears |
| Server.MessageQueueServer.RpcWorker | src/server.cc:109-138 | the sequential worker ends as `Serve` says and appends its reply, if any, to the channel |
| Server.MessageQueueServer.SendReply | src/server.cc:140-148 | one message with the record's reply-to and id, or the exception of `parse` or indexing and no message |
| Server.MessageQueueServer.RegisterRpc | include/server.inl:122-142 | throws iff the name is taken, otherwise binds the name and nothing else |
| Server.MessageQueueServer.UnregisterRpc | src/server.cc:150-155 | the name is unbound and nothing else changes |
| Server.MessageQueueServer.RegisterEventHandler | include/server.inl:144-168 | the next id under the type; the freshness assert holds; ids stay unique and in 1..`evt_cb_id` |
| Server.MessageQueueServer.UnregisterEventHandler | src/server.cc:157-171 | whatever the order of the scan, the registry is the one without the id under non-empty types |
| Server.MessageQueueServer.OnEventMessage | src/server.cc:79-93 | appends to the pool one task per handler of the event's type, in id order, with the event's type and data; malformed events escape and queue nothing |
| Server.MessageQueueServer.Detach | src/server.cc:90-92 | one task for each handler id and no other, in ascending order |
| Server.MessageQueueServer.EventWorker | src/server.cc:95-107 | indexes the registry, creating a missing handler empty, and lets every exception but `runtime_error` escape |
| Events.IdsAreUnique | include/server.inl:144-155 | over every run all handler ids lie in 1..`evt_cb_id`, none stands under two types, and the next id is unused |
| Events.UnregisterRemovesOne | src/server.cc:157-171 | an id under a non-empty type: exactly this handler goes and all others stay; under the empty type nothing changes |
| Server.QueuesTasksFor | src/server.cc:90-92 | the tasks that the heap method queues are, as a multiset, those of the step system |
| EventRuns.FanOutExactlyOnce | src/server.cc:90-92 | over every run and pool schedule, for an event received by step k, tasks plus invocations are one for each handler id that stood in the registry under its type at step k and zero otherwise, with the event's own type and data |
| EventRuns.DispatchReadsRegistry | src/server.cc:79-93 | a received event is recorded with the type and data of its message and the handlers that the registry then held |
| EventRuns.EventWasReceived | src/server.cc:79-93 | nothing is dispatched that was not received |
| EventRuns.DiesExactly | src/server.cc:79-88 | the event thread dies on the first message that is not an event and on nothing else, so not on an unknown type |
| Events.DecodeEventExact | src/server.cc:81-83 | a message is an event iff it has at least two fields and the first is a string; a first field of another type is a bad cast |
| EventRuns.QueuedHandlersAreCalled | src/server.cc:95-107 | if no queued handler is unregistered, each invocation calls the bound handler that stood under its id in the registry when its event was received |
| EventRuns.HandlersExactly | src/server.cc:157-171 | over every run a bound handler stands under an id iff it was registered as that id and not unregistered since; an empty one iff a worker ran its task while it was gone and it was not unregistered since |
| EventRuns.UnregisterQueuedHappens | src/server.cc:100 | a run in which a queued handler is unregistered, an empty function is called, and it stands in the registry again |
| Events.QueuedTaskKeepsRegistry | src/server.cc:100 | under the same schedules the workers' indexing never changes the registry |
| EventRuns.IndexingChangesRegistry | src/server.cc:100 | under any schedule it changes the registry iff the handler is gone, and then an empty one is put back |
| SplitStr.Split | src/common.cc:3-20 | the loop returns the tokens of the string |
| SplitStr.TokensAreMaximalRuns | src/common.cc:3-20 | the tokens are exactly the maximal delimiter-free non-empty runs of the string, in order |
| SplitStr.TokensLoseOnlyDelimiters | src/common.cc:3-20 | the tokens concatenated are the string with its delimiters deleted |
| SplitStr.SplitUndoesJoin | src/common.cc:3-20 | splitting a join gives the tokens back if and only if all are non-empty and free of the delimiter |
| Address.ReadAddress | src/server.cc:205-210 | the nested splits read host and port, or fail on a missing part or a port that is not a number |
| Address.AddressRoundTrip | src/server.cc:205-210 | for every prefix without '@', host without '@' and ':', port n and suffix that is empty or starts with '/', exactly host and n modulo 2^32 are recovered, and ports of 2^64 or more are refused |
| Address.ParseConnExact | src/server.cc:205-210 | exactly which connection strings are refused: a part is missing, or the port is refused as a number |
| Address.StoulReads | src/server.cc:210 | a number with leading spaces, sign and trailing rest is read as its value, negated modulo 2^64 after a minus sign, and refused from 2^64 on |
| Address.SpacesExact | src/server.cc:210 | the leading characters that are skipped, by code |
| Address.StoulRefuses | src/server.cc:210 | a string is refused as a number iff it does not start like one |
| WaitConn.Wait | src/server.cc:180-203 | stops at the first success or after `max_tries` attempts, with the exact sleep of its failures, and connects once in every attempt that got a socket, to 127.0.0.1 for "localhost" and to the host otherwise |
| WaitConn.SleepClosedForm | src/server.cc:185-197 | n failures sleep n(n-1)/2 + c seconds with c = 0, 2, 4, 2 for n mod 4 = 0, 1, 2, 3 |
| WaitConn.XorTwo | src/server.cc:185 | `2^i` is i + 2 when i mod 4 is 0 or 1 and i - 2 otherwise |

## Left out

- Sockets, TCP, libevent, the AMQP handshake, `setQos`, acknowledgements and queue flags: foreign I/O.
  The model keeps queues, the send-channel command log and the outcomes of connection attempts.
- The text syntax of JSON, UUID generation, the inside of the thread pool (including its size) and of condition
  variables: libraries, covered by the assumptions.
- Data races on containers, lifetime of messages and iterators, C++ undefined behaviour: an index beyond the end of
  a vector is modelled as the failure `OutOfRange`, a null slot as the crash `NullSlot`.
- `call` and `publish` as methods on the heap: they block in the middle, so they are modelled on
  values, step by step, in `RpcClient`.  The classes `AsyncResult` and `MessageQueueClient`
  run their critical sections in place; the steps use the same functions.
- `AsyncResult::wait`, which nothing calls.
- Liveness of publishers: a wakeup can be lost, so only safety is claimed at the gate.  Callers can always
  finish (`Progress.CanFinish`), which is possibility, not fairness.
- Progress.DeadlockFree: stated for the client alone, where a timeout counts as a step; on the whole
  system `NoTimeout.NoTimeoutNeeded` does without.
- Server.MessageQueueServer.RegisterEventHandler: requires that the 32-bit handler counter does not overflow;
  the step system of `Events` does not register beyond it either.
- A bind may be confirmed more than once in the model, while the broker confirms each one once: the claims
  at the gate hold of more runs than there are.
- WaitConn.Wait: `max_tries` is at most 2^31 - 1, since the counter is an `int` and overflows beyond.
- Other clients and Python peers appear only as foreign requests with arbitrary bodies, and there is one
  server; requests to other routing keys leave the model.
- Doubles are opaque, except that a floating-point type tag of a foreign reply is truncated; beyond the range of
  `int`, where C++ leaves that undefined, it is reduced modulo 2^32.  Printing them is not modelled.
- Copying and moving of clients and servers, `release`, setup and teardown flags, src/base.cc, src/exc.cc,
  src/config.cc: only easy members.
- The example programs, the test drivers and the generated documentation.
