# Verified models of the scanner's matcher, broker, worker and file cache

This project models the parts of the repository whose behaviour is hardest to see from the code, and proves what they do for all inputs and all runs.  `dafny verify dfyconfig.toml` checks all of it with Dafny 4.11.

**The wildcard matcher** (`WildcardScanners` to `WildcardExactness`).  The source matches with index arithmetic over the pattern text: six scanners rediscover sets and alternatives on every call.  The model keeps this form.  Each scanner is there twice, as the recursive function of the constexpr branch and as the loop that GCC compiles, and the two are proved equal; so are the two forms of `match` and `match_alt`.  Beside it stands a meaning: a pattern tree, its language `In`, and the list `Ends` of the places where a backtracking search stops, in the order in which it finds them.  The matcher is proved to follow that list on every sequence and every pattern text, so it terminates and never throws.  Soundness holds for every pattern.  `WildcardExamples` says what each card keeps.  The search is complete when every branch of every alternative has one length, in particular without alternatives; and when all branches of an alternative have one common length, a partial match takes the shortest prefix.  Completeness for all patterns is false: `(a*)c` does not match `abc`.  For satisfiable patterns without a star outside their alternatives, and with nested alternatives of one common length each, the project proves exactly when it holds: if and only if no branch holds a star.  The proof counts: a search that commits to the first stop of each branch finds only so many of infinitely many words.

**The Majordomo broker and worker** (ZeroMQ RFC 7, sections "MDP/Worker" and "Heartbeating").  `WorkerContainer` has the five ordered indexes as sequences and shows that every query is the query on a plain map.  `MessageBroker` has the handlers as methods, each proved to make a step of `BrokerSpec`, so that every execution of its loop is a run of `BrokerSpec`; `BrokerTheorems` says what its steps mean to clients and workers, and that a worker that shows life stays registered.  `MessageWorker` has the worker's loop, its postponed actions and its replies; every execution of its loop is proved to be a run of `WorkerSpec`.  `MdpSystem` puts the broker, any number of workers and the channels together.  Channels deliver in order and may lose messages, and every frame passes through the translation of binary identities on its way.  The main result accounts for every task, an action that a client asked for in a session: at every moment of every run it is delivered, on its way, with a worker, waiting, or lost at a named place, and it is in one place only.  It follows that a result of an action sent to a client is that of an action which this client asked for, in that session and with that id, and that none is sent more often than it was asked for.  `MdpLosses` adds when the workers lose nothing: with distinct ids and no action that throws, everything asked for is delivered once such a run comes to rest.  `MdpCounts` counts what was asked in the clients' own messages.  `MdpSessions` adds that every message with results, whatever they report, is in a session in which its client asked.

**The file cache and the PE reader** (`FileMapper`, `PeContext`, `ResourceWalk`).  The cache is a buffer with a normal-form interval set.  The header parser over the lazily filled buffer is proved to give what the same parser gives over the whole file.  The resource walk builds its doubly linked list of nodes in the heap; the backward searches are proved to find the directory that the loop enumerates, and an aborted walk has freed every node that it allocated, each once; nodes live on a modelled heap on which only an allocated node can be read or freed.  `PeImage` writes a file from its headers and proves that the parser reads them back; `ResourceImage` does the same with a resource tree, and finds when the walk is right: the offsets that the code takes for the second and further languages of a resource are wrong, so it is right exactly when, in a file whose parts do not overlap, every resource has one language at most.  `FindResources` puts reader, cache, parser and walk together.

**Base64** (`Base64`).  The encoder with its 24-bit container is proved equal to section 4 of RFC 4648, stated on bits.

Conventions.  A pair of iterators is a text with two indices; a thrown exception is the outcome `Threw`.  Frames are texts of bytes or JSON bodies; of a JSON body only the session, the action ids and names and the results are kept.  The clock, what the sockets deliver, what an action returns and how much a read yields are arbitrary: they are nondeterministic choices or parameters.  The clock does not go back.  The proofs of an object's methods use ghost fields for what the object has sent, for the actions that it has run, and for the run of its specification.

Where the code and its comments differ the model follows the code: the comment at the head of `service_dispatch` says that it selects an idle worker, but the worker that expires last is taken whether it is idle or not (`BrokerSpec.MayServe`); and the session recorded for a worker is that of the call, not that of the dispatched request (`BrokerSpec.Assign`).

## Model

| member | source | states |
|---|---|---|
| WildcardScanners.IsSetLoop | src/common/wildcards.hpp:641-701 | the loop form of `is_set` equals its recursive twin on every pattern text and from every state |
| WildcardScanners.SetEndLoop | src/common/wildcards.hpp:703-782 | the loop form of `set_end` equals its recursive twin, throws included |
| WildcardScanners.MatchSetLoop | src/common/wildcards.hpp:784-906 | the loop form of `match_set` equals its recursive twin, throws included |
| WildcardScanners.IsAltLoop | src/common/wildcards.hpp:908-982 | the loop form of `is_alt`, stepping over sets and escapes, equals its recursive twin at any depth |
| WildcardScanners.AltEndLoop | src/common/wildcards.hpp:984-1080 | the loop form of `alt_end` equals its recursive twin at any depth |
| WildcardScanners.AltSubEndLoop | src/common/wildcards.hpp:1082-1168 | the loop form of `alt_sub_end` equals its recursive twin at any depth |
| WildcardScanners.IsSetIffSetEnd | src/common/wildcards.hpp:641-782 | `is_set` holds if and only if `set_end` returns rather than throws |
| WildcardScanners.IsAltIffAltEnd | src/common/wildcards.hpp:908-1080 | `is_alt` never throws, and holds if and only if `alt_end` returns |
| WildcardGrammar.SetEndFindsClose | src/common/wildcards.hpp:703-782 | `set_end` returns just behind the closing card that the grammar assigns to the set |
| WildcardGrammar.MatchSetMatchesItems | src/common/wildcards.hpp:784-906 | in a closed set `match_set` succeeds exactly when the next character is among the items, or among none of them when negated |
| WildcardGrammar.AltEndFindsClose | src/common/wildcards.hpp:984-1080 | `alt_end` returns exactly when the alternative closes in the grammar, and just behind that card |
| WildcardGrammar.AltSubEndFindsBranchEnd | src/common/wildcards.hpp:1082-1168 | `alt_sub_end` cuts a branch at exactly its own level's bar or closing card |
| WildcardGrammar.BranchesShrink | src/common/wildcards.hpp:1181-1194 | the branches are the same when read up to the alternative's own end instead of the pattern's end, the shorter bound that the code passes on |
| WildcardGrammar.BranchStandsAlone | src/common/wildcards.hpp:1181-1194 | a branch cut out of its alternative parses on its own to the same pattern |
| WildcardMatcher.RunMatch | src/common/wildcards.hpp:1206-1256 | the compiled form over the scanner loops equals the recursive `match`, throws included, and terminates under (sequence left, pattern left) |
| WildcardMatcher.RunMatchAlt | src/common/wildcards.hpp:1175-1204 | the compiled form equals the recursive `match_alt` and terminates |
| WildcardSearch.MatchFollowsEnds | src/common/wildcards.hpp:1206-1298 | on every sequence and pattern text the matcher returns without a throw, and its result is the first stop of the parsed pattern's search, or the first at the sequence's end in full mode |
| WildcardSearch.MatchAltFollowsEnds | src/common/wildcards.hpp:1175-1204 | `match_alt` tries the branches in order, each committed to its first stop, followed by the rest of the pattern |
| WildcardSearch.MatchOpening | src/common/wildcards.hpp:1248-1252 | at an alternative that closes, the matcher calls `match_alt` with the first branch's end and the position behind the alternative |
| WildcardSearch.MatchStrayAltCard | src/common/wildcards.hpp:1248-1256 | a card of alternatives that opens or ends none is ordinary text |
| WildcardTheorems.EndsAreInLanguage | src/common/wildcards.hpp:1206-1256 | every stop of the search is the end of a word of the language |
| WildcardTheorems.MatchIsSound | src/common/wildcards.hpp:1171-1256 | for every pattern: a successful match consumed a word of the language and the whole pattern, and in full mode the whole sequence |
| WildcardTheorems.RigidSearchIsComplete | src/common/wildcards.hpp:1206-1256 | when every branch has one length the search finds every word of the language |
| WildcardTheorems.RigidMatchIsExact | src/common/wildcards.hpp:1175-1256 | for such patterns a full match succeeds if and only if the sequence is in the language |
| WildcardTheorems.EarlierStartEndsNoLater | src/common/wildcards.hpp:1220-1230 | the exchange argument: with uniform alternatives a word that starts later can be traded for one that starts earlier and ends no later |
| WildcardTheorems.PartialMatchIsShortest | src/common/wildcards.hpp:1212-1230 | with uniform alternatives a partial match consumes the shortest prefix in the language and fails only if no prefix is in it |
| WildcardExactness.NoOpeningCardIsUniform | src/common/wildcards.hpp:1248-1252 | a text in which no alternative can open is in both classes above |
| WildcardExactness.AlternativeFreeMatchIsExact | src/backend/services/samba_based/smb/actions/list_dir.cpp:65-73 | without alternatives a file name is kept if and only if it is in the pattern's language |
| WildcardExactness.SameFirstStop | src/common/wildcards.hpp:1183-1190 | in a longer sequence a branch stops first where it did in the shorter one |
| WildcardExactness.FindsFew | src/common/wildcards.hpp:1183-1194 | of words that continue one another up to a common ending, the search from one position finds at most a number fixed by the pattern |
| WildcardExactness.GrowingWords | src/common/wildcards.hpp:1181-1194 | a pattern with a star in a branch has as many such words as one likes |
| WildcardExactness.StarInBranchLosesWord | src/common/wildcards.hpp:1183-1194 | a pattern with a star in a branch and none outside loses a word of its language |
| WildcardExactness.ExactIffNoStarInBranch | src/common/wildcards.hpp:1175-1256 | a satisfiable pattern without a star outside its alternatives, whatever else stands before and after them, and with nested alternatives of one common length each, is decided exactly on all sequences if and only if no branch holds a star |
| WildcardExactness.ShortTextIsSatisfiable | src/common/wildcards.hpp:1240-1246 | in a text of fewer than 256 characters no set leaves out every byte, so that every part of the pattern has words |
| WildcardExactness.CommittedIsNotExact | src/common/wildcards.hpp:1183-1194 | `(a*)c` is not decided exactly, by the theorem |
| WildcardExactness.RecoveredIsExact | src/common/wildcards.hpp:1183-1230 | with a star outside, a star in a branch need not lose a word: `(a*)*` is decided exactly |
| WildcardExactness.StarInBranchExample | src/common/wildcards.hpp:1183-1194 | `(a*)c` does not match `abc`, which is in its language |
| WildcardExamples.CardsMean | src/common/wildcards.hpp:57-82 | the cards of `list_dir`, for every name: `*` keeps all, `?` one character, an escaped card itself, a set its characters, a negated set the others, an alternative its branches |
| WorkerIndex.InsertIndexes | src/frontend/worker_container.hpp:99-103 | inserting at the upper bound of its key makes a sorted index of a map that of the larger map |
| WorkerIndex.RemoveIndexes | src/frontend/worker_container.hpp:105-116 | erasing makes a sorted index of a map that of the smaller map |
| WorkerIndex.ModifyIndexes | src/frontend/worker_container.hpp:126-142 | modifying an element, moved only when its place no longer fits, keeps a sorted index of the map |
| WorkerIndex.WeakOrder | src/frontend/worker_container.hpp:170-213 | the five orders, the composed one on identity and idleness included, are strict weak orders |
| WorkerContainer.WorkerContainer.Get | src/frontend/worker_container.hpp:71-82 | lookup by identity is lookup in the map |
| WorkerContainer.WorkerContainer.GetNextWorker | src/frontend/worker_container.hpp:83-90 | a worker with the greatest expiry, idle or not, or nothing when there is none |
| WorkerContainer.WorkerContainer.GetByLastWorkedSession | src/frontend/worker_container.hpp:91-98 | a worker recorded with the session, or nothing exactly when there is none |
| WorkerContainer.WorkerContainer.IdleWorkers | src/frontend/worker_container.hpp:131-135 | exactly the idle workers, each once |
| WorkerContainer.WorkerContainer.IsIdle | src/frontend/worker_container.hpp:117-121 | holds exactly for registered idle workers |
| WorkerContainer.WorkerContainer.Insert | src/frontend/worker_container.hpp:99-103 | adds the worker to all five indexes with a fresh expiry, unless its identity is there |
| WorkerContainer.WorkerContainer.Erase | src/frontend/worker_container.hpp:105-116 | removes the worker from all five indexes |
| WorkerContainer.WorkerContainer.ModifyIdle | src/frontend/worker_container.hpp:153-169 | sets the idleness of a registered worker in all five indexes and of no other |
| WorkerContainer.WorkerContainer.UpdateLastWorked | src/frontend/worker_container.hpp:126-130 | records the session in all five indexes |
| WorkerContainer.WorkerContainer.UpdateExpiration | src/frontend/worker_container.hpp:137-142 | moves the expiry in all five indexes |
| MessageBroker.MessageBroker.PurgeWorkers | src/frontend/message_broker.cpp:62-78 | removes exactly the idle workers expired at its reading of the clock |
| MessageBroker.MessageBroker.ServiceDispatch | src/frontend/message_broker.cpp:83-113 | purges; if then a worker is idle the whole queue goes out in order, each request to an allowed worker; otherwise nothing is sent |
| MessageBroker.MessageBroker.Choose | src/frontend/message_broker.cpp:99-106 | an idle worker that last worked for the session, when all that did are idle; one that expires last, when none of them is idle |
| MessageBroker.MessageBroker.WorkerRequire | src/frontend/message_broker.cpp:115-128 | registers an unknown sender, idle and with a fresh expiry |
| MessageBroker.MessageBroker.WorkerDelete | src/frontend/message_broker.cpp:133-140 | unregisters the worker, after a DISCONNECT to it when asked to |
| MessageBroker.MessageBroker.WorkerProcess | src/frontend/message_broker.cpp:145-198 | makes the step that the specification gives for the command and for whether the sender was known |
| MessageBroker.MessageBroker.WorkerWaiting | src/frontend/message_broker.cpp:231-240 | the worker is idle with a fresh expiry, and then a dispatch follows |
| MessageBroker.MessageBroker.SplitActions | src/frontend/message_broker.cpp:295-309 | every action of the request is in one of the two lists, by whether its name is local, and each list keeps the request's order |
| MessageBroker.MessageBroker.ClientProcess | src/frontend/message_broker.cpp:271-343 | malformed messages and local actions are answered at once; the other actions are queued as one request and dispatched |
| MessageBroker.MessageBroker.HandleInternal | src/frontend/message_broker.cpp:345-364 | a message with the worker header is processed as from its sender; any other message changes nothing |
| MessageBroker.MessageBroker.HandleExternal | src/frontend/message_broker.cpp:345-364 | a message with the client header is processed as from its sender; any other message changes nothing |
| MessageBroker.MessageBroker.Tick | src/frontend/message_broker.cpp:390-403 | purges and sends every idle worker left one HEARTBEAT |
| MessageBroker.MessageBroker.BrokerLoop | src/frontend/message_broker.cpp:367-405 | whatever arrives, the execution is a run of the specification with exactly the events that arrived, and with the readings of the clock in order; with valid commands the requests sent and those waiting are the accepted ones, in order |
| BrokerSpec.WorkerStepKeeps | src/frontend/message_broker.cpp:145-198 | a worker's message keeps the order of requests whatever it says; it leaves requests waiting beside an idle worker if and only if it is an unknown command from an unknown sender while requests wait |
| BrokerSpec.ClientStepKeeps | src/frontend/message_broker.cpp:271-343 | a client's message keeps the order, leaves no request waiting beside an idle worker, and accepts exactly its remote actions |
| BrokerSpec.TickStepKeeps | src/frontend/message_broker.cpp:390-403 | the heartbeat keeps order and queue |
| BrokerSpec.StepSendsToRegistered | src/frontend/message_broker.cpp:98-112 | in every step each request goes to a worker that is registered at that moment |
| BrokerSpec.RunIsFifo | src/frontend/message_broker.cpp:83-113 | in every run of valid commands: the requests sent to workers followed by the queue are the accepted requests in order, none lost and none twice, and the queue is not empty only if no registered worker is idle |
| BrokerSpec.RegisteredIsAutomaton | src/frontend/message_broker.cpp:145-198 | a worker is registered exactly when its automaton says so: entered by READY, left by a second READY or DISCONNECT, or purged while idle and expired; a busy worker is never purged |
| BrokerSpec.PurgeLeavesNoneExpired | src/frontend/message_broker.cpp:62-78 | after a step that purges no idle worker is registered that had expired by then |
| BrokerSpec.StepSendsToClients | src/frontend/message_broker.cpp:161-171 | what every step sends to clients: a registered worker's reply rewrapped for its client, the broker's own replies, or nothing |
| BrokerSpec.StepSends | src/frontend/message_broker.cpp:204-226 | everything that any step sends to a worker has the frames that the worker expects |
| BrokerTheorems.SplitIs | src/frontend/message_broker.cpp:295-309 | the local and the remote actions of a request together are its actions, each at its own places, in order |
| BrokerTheorems.ClientIsAnswered | src/frontend/message_broker.cpp:256-335 | a client that has an address and named a service gets a report when its message breaks off, and one message with one result for each of its local actions, with these frames; otherwise nothing |
| BrokerTheorems.ReplyFrames | src/frontend/message_broker.cpp:161-168 | a worker's reply reaches its client as address, empty frame, client header, empty frame, body |
| BrokerTheorems.TickSends | src/frontend/message_broker.cpp:388-400 | at heartbeat time every worker that is idle and not expired is sent one HEARTBEAT, and nothing else is sent |
| BrokerTheorems.DispatchAssigns | src/frontend/message_broker.cpp:83-115 | a dispatch sends all waiting requests in order when a worker is idle, marks the chosen workers busy with the session of the call, and leaves the others as they were |
| BrokerTheorems.FirstGoesTo | src/frontend/message_broker.cpp:101-108 | the first request goes to a worker that last worked for its session when all that did are idle, and to one that expires last when none is |
| BrokerTheorems.HeartbeatRefreshes | src/frontend/message_broker.cpp:179-186 | a HEARTBEAT of a registered worker moves its expiry to the interval from now, and leaves its idleness, its session and every other worker as they were |
| BrokerTheorems.LifeSignKeepsAlive | src/frontend/message_broker.cpp:62-81 | in every run a worker whose HEARTBEAT, READY or REPLY was handled at a time stays registered until the interval has passed since, whatever happens, unless it sends READY again or DISCONNECT |
| PostponedActions.InsertIsQueueIff | src/backend/utils/postponed_actions.hpp:97-116 | adding keeps the queue ordered, and its ids unique if and only if the id is new |
| PostponedActions.WithoutIsQueue | src/backend/utils/postponed_actions.hpp:89-96 | removal keeps the queue and leaves no entry with the id |
| PostponedActions.OthersStayDue | src/backend/utils/postponed_actions.hpp:76-88 | removing the first due entry, or putting it off past now, leaves the other due entries, in order |
| PostponedActions.DueIff | src/backend/utils/postponed_actions.hpp:98-102 | due at a time are exactly the entries whose time has come by then |
| PostponedActions.PostponedQueue.Find | src/backend/utils/postponed_actions.hpp:78-81 | finds the entry with the id, if there is one |
| PostponedActions.PostponedQueue.Add | src/backend/utils/postponed_actions.hpp:97-97 | inserts in order of expiration, and refuses an id that is queued |
| PostponedActions.PostponedQueue.DecrementRunsAndUpdateExpiration | src/backend/utils/postponed_actions.hpp:76-88 | the entry has one run fewer in byte arithmetic and is due one second from now, with action, client and session as they were; the other entries are the same, and the queue is in order |
| PostponedActions.PostponedQueue.RemoveById | src/backend/utils/postponed_actions.hpp:89-96 | removes the entry with the id and no other |
| WorkerSpec.PutOffFits | src/backend/message_worker.cpp:130-135 | the byte of remaining runs never wraps, and runs made and left add up to the stored retries |
| WorkerSpec.RanTopConserves | src/backend/message_worker.cpp:116-156 | a postponed action stays queued or is answered, never both and never neither |
| WorkerSpec.RanTopDue | src/backend/message_worker.cpp:115-116 | each run of a due action leaves the others due at the fixed time, in order: the loop over them ends and runs each once |
| WorkerSpec.PutOffIsDueLater | src/backend/utils/postponed_actions.hpp:77-88 | an action put off again at a time is due from one second later on, and not before |
| WorkerSpec.QueuedIsDueLater | src/backend/message_worker.cpp:275-282 | an action of a request that is put off until a time is due from then on, and not before |
| WorkerSpec.ResultsAreInOrder | src/backend/message_worker.cpp:256-303 | the results of a request are those of its actions that are not put off, in the request's order |
| WorkerSpec.DroppedHasTwin | src/backend/message_worker.cpp:274-282 | an action is dropped only when another task with its id was taken too |
| WorkerSpec.ActionConserves | src/backend/message_worker.cpp:260-303 | every action of a request is answered by a result with its id (run, or its name not known), queued, or dropped, and counted once |
| WorkerSpec.ProcessKeeps | src/backend/message_worker.cpp:248-326 | processing a request, broken off or not, keeps the whole account, the queue and what is expected |
| WorkerSpec.BreakOffIsReported | src/backend/message_worker.cpp:305-318 | a request that breaks off is answered to its client, in its session, with the results so far and then a report with the id `unknown` |
| WorkerSpec.RepliedConserves | src/backend/message_worker.cpp:158-171 | sending the reply moves its tasks into what was sent, or keeps them with the reply that has no address |
| WorkerSpec.RunKeeps | src/backend/message_worker.cpp:113-322 | at every moment of every run every task taken is in exactly one place (in an answer with its id, sent or in hand; queued; dropped; cut off; answered to no client; in the request in hand), no queued action has run more often than its retries and once more, `replied_` counts the replies, and the reply is there when expected |
| WorkerSpec.ReplyIsThere | src/backend/message_worker.cpp:162-162 | the assertion at the start of `recv` never fails |
| WorkerSpec.NothingIsCutOff | src/backend/message_worker.cpp:260-311 | tasks are cut off only behind an action that breaks its request off: none in a run without such an action |
| WorkerSpec.NothingIsLost | src/backend/message_worker.cpp:243-322 | with distinct ids, named clients and no action that breaks its request off, every task taken is answered by a result with its id, queued, or in hand |
| MessageWorker.MessageWorker.HandlePostponedActions | src/backend/message_worker.cpp:113-157 | terminates, and runs the actions that are due at its fixed time in order, each exactly once, each ending in the status with which it is answered or put off; it leaves none due at that time unless one throws, and the worker dies if and only if the run of a due action throws, which is then its last |
| MessageWorker.MessageWorker.RunDue | src/backend/message_worker.cpp:117-155 | runs the first due action once; it is put off with one run fewer, or answered once and removed, as that run says, or the run throws and nothing changes but that the worker dies; its name is registered |
| MessageWorker.MessageWorker.Recv | src/backend/message_worker.cpp:158-231 | sends the reply, then waits; it returns at the first REQUEST, or with nothing when interrupted, or dead since a postponed action threw; no request that arrives is passed over |
| MessageWorker.MessageWorker.SendReplyIfAny | src/backend/message_worker.cpp:161-171 | the reply goes out to the saved address, or is kept when there is no address |
| MessageWorker.MessageWorker.HandlePoll | src/backend/message_worker.cpp:181-220 | what each outcome of a poll does; reconnects, under a new identity and with a new heartbeat time, exactly when the liveness reaches 0 or a DISCONNECT arrives |
| MessageWorker.MessageWorker.HandleMessage | src/backend/message_worker.cpp:183-213 | only a REQUEST is returned, and its client address saved; a DISCONNECT reconnects |
| MessageWorker.MessageWorker.HeartbeatIfTime | src/backend/message_worker.cpp:221-225 | a HEARTBEAT goes out, and its next time moves by the interval, exactly when it is time |
| MessageWorker.MessageWorker.ConnectToBroker | src/backend/message_worker.cpp:93-109 | READY goes out under a new identity to which the broker can send, and liveness and heartbeat time start anew |
| MessageWorker.SetId | src/common/zmq/zmq_helpers.cpp:25-32 | nine characters that cross the translation of identities unchanged |
| MessageWorker.MessageWorker.ProcessRequest | src/backend/message_worker.cpp:248-326 | runs the request's actions whose names are known in order, each once, up to one that throws, which breaks the request off, and forms the reply that the specification gives for what these runs ended in |
| MessageWorker.MessageWorker.RunAction | src/backend/message_worker.cpp:260-303 | an action whose name is known runs once; it is answered with its id, queued, or dropped, as that run says, or the run throws and breaks the request off; one whose name is not known does not run and is answered with an error |
| MessageWorker.MessageWorker.WorkerLoop | src/backend/message_worker.cpp:233-332 | whatever arrives and however the actions end, the execution is a run of the worker's specification, and the tasks of all requests that arrived are those answered by a result with their id, queued, dropped, cut off or without a client to answer; if no run of an action throws the worker lives on and nothing is cut off, and then with distinct ids and named clients every task is answered or queued |
| MdpSystem.StepKeeps | src/frontend/message_broker.cpp:367-405 | every event of broker, workers and channels keeps the accounts and the frames in the channels |
| MdpSystem.EverythingIsAccountedFor | src/frontend/message_broker.cpp:83-343 | in every run what clients asked of workers, each remote action of each request counted in the request itself, equals, as a multiset, what is delivered, on its way up or down, with a worker, waiting, or lost on the way |
| MdpCounts.AskedAreCounted | src/frontend/message_broker.cpp:295-309 | the account counts a task as often as clients asked for it: by the places, in the requests of that client in that session, of actions with that id and a name that is not local |
| MdpLosses.EveryAnswerHasAClient | src/backend/message_worker.cpp:158-171 | in every run of the system no worker has a reply that goes to no client |
| MdpLosses.WorkersLoseNothing | src/backend/message_worker.cpp:233-332 | in every run of the system with distinct ids and no action that breaks its request off, what clients asked of workers is delivered, on its way up or down, queued or in hand at a worker, waiting, or lost by a channel or the broker |
| MdpLosses.AtRestAllIsDelivered | src/frontend/message_broker.cpp:83-343 | when such a run comes to rest with nothing lost on the way, what is delivered is, as a multiset, what was asked for |
| MdpSystem.ResultsReachTheirClient | src/frontend/message_broker.cpp:161-171 | in every run every result of an action (run at once, put off, or its name not known) that is sent to a client carries the session and id of an action that was asked for by the very client to whose identity the message leaves on the wire, and none is sent more often than it was asked for |
| MdpSessions.SessionsReachTheirClient | src/frontend/message_broker.cpp:161-171 | in every run every message with results to a client, the broker's own replies and reports of malformed messages included, is in a session in which the very client to whose identity it leaves has asked |
| MdpSystem.MessagesAreAccepted | src/backend/message_worker.cpp:186-194 | in every run every message on its way passes the assertions of its receiver, and what a worker sends is a valid command |
| MdpMessage.UnwrapWrapIff | src/common/zmq/zmq_message.cpp:221-239 | `unwrap` undoes `wrap` with an empty delimiter if and only if the address has no NUL |
| ZmqMessage.EncodeUuid | src/common/zmq/zmq_message.cpp:58-73 | `@` and then the two hexadecimal digits of each byte |
| ZmqMessage.HexDigits | src/common/zmq/zmq_message.cpp:60-60 | the digits of the encoding are 0 to 9 and A to F |
| ZmqMessage.DecodeUuid | src/common/zmq/zmq_message.cpp:75-96 | 17 bytes, 0 and then the byte that each pair of digits writes |
| ZmqMessage.DecodeUndoesEncode | src/common/zmq/zmq_message.cpp:58-96 | decoding undoes encoding on every 17-byte identity that starts with 0 |
| ZmqMessage.RepliesReturnIff | src/common/zmq/zmq_message.cpp:115-164 | a reply goes back to the identity that asked if and only if this is a binary identity, or has no NUL and does not look like a printed one |
| ZmqMessage.MisaddressedExample | src/common/zmq/zmq_message.cpp:142-150 | the reply to a client named `@` and 32 hexadecimal digits leaves for another identity |
| ZmqMessage.Zmsg.PopFront | src/common/zmq/zmq_message.cpp:197-205 | takes the first frame away, or yields an empty one when there is none |
| ZmqMessage.Zmsg.BodySet | src/common/zmq/zmq_message.cpp:168-174 | replaces the last frame, or adds the first |
| ZmqMessage.Zmsg.Wrap | src/common/zmq/zmq_message.cpp:221-227 | puts address and delimiter in front, each cut at its first NUL |
| ZmqMessage.Zmsg.Unwrap | src/common/zmq/zmq_message.cpp:229-239 | takes off the address, and an empty delimiter after it if there is one |
| ZmqMessage.Zmsg.Recv | src/common/zmq/zmq_message.cpp:115-140 | the frames of the wire in order, each binary identity printed |
| ZmqMessage.Zmsg.Send | src/common/zmq/zmq_message.cpp:142-164 | the frames in order, each printed identity as bytes; the message is empty afterwards |
| ZmqMessage.Relay | src/common/zmq/zmq_message.cpp:115-164 | receiving and sending preserves a frame if and only if it is not 33 bytes starting with `@` |
| IntervalSet.AddKeepsNormal | src/backend/utils/file_mapper.cpp:26-26 | adding a range keeps the set sorted, disjoint and joined |
| IntervalSet.AddCoversUnion | src/backend/utils/file_mapper.cpp:26-26 | adding a range covers exactly what was covered and the range |
| IntervalSet.FoundIffWithinUnion | src/backend/utils/file_mapper.cpp:23-24 | in a normal set the element found contains a range if and only if the union covers it |
| SmbReader.SmbClient.Read | src/backend/services/samba_based/smb/smb_client.cpp:245-265 | with reads of any length: all bytes up to the size or the file's end, each at its place, or an error |
| FileMapping.FileMapper.constructor | src/backend/utils/file_mapper.hpp:30-37 | a zeroed buffer of the file's size with nothing loaded |
| FileMapping.FileMapper.MapChunk | src/backend/utils/file_mapper.cpp:19-41 | keeps the cache coherent; success means that the range is loaded; a read is issued if and only if the rounded range is not loaded, and reads what was asked for but at least 16 KiB, as far as the file goes |
| PeFormat.ParseSucceeds | src/backend/utils/pe_context.cpp:147-233 | after a successful parse the directory and section tables lie inside the file |
| PeContext.PeContext.Parse | src/backend/utils/pe_context.cpp:147-233 | over the lazy cache: success yields what parsing the whole file yields; with a reader that never fails code and fields always agree; the tables are loaded |
| PeImage.ImageIsParsed | src/backend/utils/pe_context.cpp:147-233 | a file written from known headers, PE32 or PE32+, field by field in the sizes of the format, is parsed into exactly these headers, whatever follows; the code is that of the first limit passed, and a file that ends with an empty section table is refused |
| PeImage.TablesAreRead | src/backend/utils/pe_context.cpp:206-226 | every data directory and every section header of such a file is read back as it was written |
| PeFormat.OffsetIsUnique | src/backend/utils/pe_context.cpp:235-271 | the relation between addresses and file offsets is a function |
| PeContext.PeContext.Rva2Ofs | src/backend/utils/pe_context.cpp:235-271 | over loaded tables: the offset in the first section that holds the address; otherwise the rules for one section and for none |
| PeImage.AddressLeadsToByte | src/backend/utils/pe_context.cpp:243-262 | the address of a byte in a section of the file leads to that byte: as far behind the raw data of the first section that holds the address as the address is behind the section |
| ResourceList.CreateNode | src/backend/utils/pe_context.cpp:129-144 | a new node linked behind the current one |
| ResourceList.LastNodeByTypeAndLevel | src/backend/utils/pe_context.cpp:92-110 | the last node of this kind and level at or before the current one |
| ResourceList.FreeNodes | src/backend/utils/pe_context.cpp:72-90 | from any node of the list exactly its nodes are gone from the heap, each freed once while it was allocated and none read after that |
| ResourceWalk.Bound | src/backend/utils/pe_context.cpp:307-311 | the re-evaluated loop bound is that of the directory being enumerated, however many nodes came since |
| ResourceWalk.WalkLevel3 | src/backend/utils/pe_context.cpp:399-437 | the innermost loop appends exactly the nodes that the walk over the whole file gives |
| ResourceWalk.WalkLevel2 | src/backend/utils/pe_context.cpp:354-438 | the middle loop likewise |
| ResourceWalk.WalkLevel1 | src/backend/utils/pe_context.cpp:307-440 | the outer loop likewise |
| ResourceWalk.WalkFrom | src/backend/utils/pe_context.cpp:288-447 | one doubly linked list that shows the walk over the whole file, its nodes exactly the newly allocated ones; or nothing, and the heap holds the same nodes as before; with a reader that never fails the latter exactly when the walk needs what is not there |
| ResourceWalk.Discover | src/backend/utils/pe_context.cpp:281-447 | the same from the resource directory's entry, at the file offset of its address; nothing when there is no such entry |
| ResourceWalk.FindResources | src/backend/utils/pe_context.cpp:147-447 | end to end from the remote file: code, fields, the resource directory's offset and the list are those of the whole file, and a failure at any point leaves no node allocated |
| ResourceImage.WalkVisitsTreeIff | src/backend/utils/pe_context.cpp:281-447 | over a file that holds a resource tree the walk visits exactly the tree, every named and numbered entry of every directory in order, if and only if each further language of a resource stands just behind the data entry before it and is, or is named by, its own |
| ResourceImage.WalkIsRightIffOneLanguageEach | src/backend/utils/pe_context.cpp:399-437 | when no data entry overlaps its directory, the walk is right if and only if every resource has one language at most |
| ResourceImage.TwoLanguagesExample | src/backend/utils/pe_context.cpp:421-437 | in a file of 112 bytes with one resource in two languages the walk does not visit the tree |
| ResourceFile.ResourcesAreLocated | src/backend/utils/pe_context.cpp:281-286 | in a file with known headers the walk starts at the bytes that the third data directory names, through the section that holds it |
| ResourceFile.FileShowsTreeIff | src/backend/utils/pe_context.cpp:147-447 | end to end from headers and tree: what is found is exactly the tree if and only if every resource has one language at most |
| Base64Spec.DecodingUndoesEncoding | src/backend/services/samba_based/smb/actions/read_file.cpp:36-82 | decoding the encoding of section 4 of RFC 4648 gives every byte string back |
| ReadFile.EncodingLength | src/backend/services/samba_based/smb/actions/read_file.cpp:36-36 | the encoding has exactly the precomputed length |
| ReadFile.ContainerSextets | src/backend/services/samba_based/smb/actions/read_file.cpp:57-62 | the shifts and masks of the container are the four groups of six bits of three bytes |
| ReadFile.PartialGrows | src/backend/services/samba_based/smb/actions/read_file.cpp:53-67 | the container holds the bytes of the unfinished group in order |
| ReadFile.GroupOfOne | src/backend/services/samba_based/smb/actions/read_file.cpp:70-78 | a last single byte gives two characters, completed by zero bits |
| ReadFile.GroupOfTwo | src/backend/services/samba_based/smb/actions/read_file.cpp:70-78 | a last pair gives three characters, completed by zero bits |
| ReadFile.Base64Encode | src/backend/services/samba_based/smb/actions/read_file.cpp:38-82 | the loop over the buffer yields exactly the encoding of section 4 of RFC 4648, and nothing for no buffer |
| Base64Spec.AlphabetAt | src/backend/services/samba_based/smb/actions/read_file.cpp:29-33 | the 64 characters stand at the values of section 4 of RFC 4648, and the pad is none of them |
| ReadFile.TestVectors | src/backend/services/samba_based/smb/actions/read_file.cpp:36-82 | the encodings of `f`, `fo` and `foo` are those of section 10 of RFC 4648 |

## Left out

- RigidMatchIsExact: the converse, that only these patterns are decided exactly, is proved for patterns without a star outside their alternatives, in ExactIffNoStarInBranch; with one it is false, as RecoveredIsExact shows.
- ExactIffNoStarInBranch: the alternatives nested in a branch must each have branches of one common length, and every class and branch must have a word, as in every text of fewer than 256 characters.
- MisaddressedExample: clients whose identity is not routable (empty, cut short by a NUL, or 33 bytes that start with `@`) do not take part in MdpSystem, since the code replies to another identity.
- EncodeUuid: the identity is a string of bytes; the buffer's closing NUL is left to the string type.
- MapChunk: assumes that offset plus size fits in 64 bits; the code's sum wraps around.
- FileMapper.constructor: the source leaves the size undefined when the reader cannot be opened; the model starts from an open reader.  Files are shorter than 2^63 bytes, as the reader's signed sizes demand.
- HandlePoll: the length of the poll's timeout and the pause before a reconnect are not modelled.
- ConnectToBroker: the socket itself, and messages lost with the old one, are part of MdpSystem, where channels may lose messages.
- ResultsReachTheirClient: speaks of results that answer an action with its id; results of the broker's own actions (`do_act`) have no id in the model, and reports of malformed messages have the id `unknown` or `N/A`; SessionsReachTheirClient covers these.
- The element comparison of the matcher is equality; cards are pairwise distinct as far as they can start or end an element.  Card and sequence types other than characters are not modelled.
- JSON text: parsing and printing are left to the JSON library; a body is its session, its actions and its results.
- Sockets, polling, signals, sleeping and logging; a channel is a sequence of messages.
- What actions do, Samba and its client library, and their results beyond an id.
- `shared_mem_sessions_cache`, and with it the session touched by the broker; it would repeat the worker container.
- The assertion that a worker's identity is not empty, and memory that cannot be allocated.
- WalkVisitsTreeIff: an entry of the second level that leads to data and not to a directory has no place in the tree; the code takes it for a directory.  Of a name only the first four bytes are looked at, as in the code.
- `pe_context::extract_info`: the scan for version strings walks raw pointers without a bound that the code establishes.
- The libraries behind the containers (Boost multi_index and ICL): their documented behaviour is written out on sequences.
- Supervisor, timers, plug-in loading, settings, credentials and error tables: plumbing that would add only easy members.
