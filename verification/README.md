# A verification model of rpcrace

rpcrace stands between a Bitcoin mining program and several Bitcoin nodes. It sends each
JSON-RPC request to all nodes, or to one sticky node, and gives the client the first good
answer. It watches for new blocks and relays them. This project models its logic in Dafny and
proves what that logic guarantees, for every input and every run.

| files | what they model |
|---|---|
| `RaceModel`, `RaceLog`, `RaceSafety`, `RaceTimers`, `RaceRefinement`, `RaceSockets`, `RaceTheorems` | the race engine as a state machine over the callbacks of the event loop, with a ghost log of what it did; what a lawful log is; what every reachable state satisfies |
| `RpcProxy` | the same engine as objects that are updated in place, each method proved to do what the state machine does |
| `HttpFraming`, `HttpReceiver` | how the end of a response and of a request is found while bytes arrive in pieces |
| `NotifierModel`, `NotifierHistory`, `Notifier` | which block notifies are accepted, and which nodes are warned about |
| `Powers`, `DecimalText`, `BigInt`, `BigCompare`, `SlowPath`, `Misreadings` | the exact comparison by which the JSON number reader rounds |
| `IntegerText` | the integer printer and the integer path of the number reader |
| `Utf8`, `JsonStrings`, `StringCodec`, `StringReader` | the JSON string writer and the string reader that decodes in place |
| `PoolTiles`, `FreeList`, `Pool` | the allocator that lives in a fixed buffer |
| `Lists`, `UtHash`, `HashTable`, `MergeSort`, `ListSort` | the hash table and its merge sort on linked items |
| `Options` | an optional value, shared by all |

## How to read it

Where the program updates objects or buffers, the model is a class or a method on arrays whose
postcondition names a function of the old contents; the guarantees are lemmas about that
function. Sockets, clocks and timers are events and parameters. A connect's outcome, a created
timer or an allocation that may fail is a parameter of the event.

The state machine covers every order of events that the event loop can produce: client
requests, complete and partial responses, lost connections, finished connects, rotation timers,
the timeout timer (also timers whose descriptor was overwritten and that still fire), block
notifies, and clients that come and go. The log of a run is judged by `RaceLog.Law`, which does
not look at the proxy's fields: a node gets a request once and at most one retry; the decision
is the first non-error answer in order of arrival, else, when everybody has finished, the error
answer of the node that finished last, else a hangup; a timeout with no success is a hangup.

Which request an answer belongs to is not something the program knows. The model keeps, for each
socket, the requests sent on it whole and not yet answered: HTTP answers come in the order of
the requests (section 9.3.2 of RFC 9112). Where a request or an answer was broken off and the
socket kept, or more bytes came than answers are owed, what comes later answers no request.

## What turned out not to hold

- The proxy does not record which request a connection answers. If a connection still drains an
  older request when a new one is dispatched, its answer is counted, and may be forwarded, for
  the new one (`RaceSockets.StaleAnswerForwarded`). A connection that has answered and reports
  again is counted twice (`RaceSockets.RepeatedAnswerCounted`). A connection that a timeout gives
  up keeps its socket, so the next request on it is answered with the answer to the one before
  (`RaceSockets.LateAnswerForwarded`, `RaceTheorems.FirstAnswerToSecondRequest`). Every answer
  belongs to its request if and only if each event of a node is timely, a check on the connection
  before the event (`RaceTheorems.GenuineExactlyWhenTimely`). The count of decisions and the
  choice among the answers counted hold without any such condition.
- The best-height fallback of getblocktemplate is never reached: the first valid answer always
  wins (`RaceSafety.LastErrorForwarded`, `RaceSafety.GbtSuccessIs`), although the comments speak
  of waiting for the best height.
- A Content-Length label followed by nothing but white space makes `strtoull` read on into the
  body, so the framing then depends on what has arrived (`HttpFraming.SettledExactly`).
- A number literal of more than 768 digits that lies exactly half-way between two doubles is
  rounded up even if the lower one is even, because trailing zeros are kept and the last kept
  digit becomes a 1 (`Misreadings.TieLost`). A literal with at least 770 digits before its point
  is read ten times too large; it needs a negative exponent to be in range
  (`Misreadings.PointMisplaced`, whose literal ends in `e-751`). `SlowPath.Decide` says exactly
  which of them are rounded wrongly, and that all other literals are rounded right.

## Model

| member | source | states |
|---|---|---|
| `RaceTheorems.EveryRunIsLawful` | src/rpc_proxy.c:949-1480 | for every run from creation: each dispatched request gets exactly one decision (one forwarded answer or one client close), and it is the one `RaceLog.Choose` names; a node gets a request at most twice; a getblocktemplate goes to the sticky node only after a race started since the latest notify; the sticky index is -1 or a node |
| `RaceTheorems.EveryRunIsGuarded` | src/rpc_proxy.c:902-1060 | for every run in which timers can be created: while a race is on, or any active connection carries a request (also while draining in IDLE), a timeout timer is armed |
| `RaceTheorems.GenuineExactlyWhenTimely` | src/rpc_proxy.c:1063-1480 | for every run from creation, if and only if each connection that reports or fails during a race carries the current request, has not reported before and, if it answers, has a socket that owes the answer to the current request next: every counted outcome and every retry is of a participant of the current request that had not finished, and every forwarded answer answers the current request; each participant is then counted at most once |
| `RaceTheorems.EveryCalmRunIsGenuine` | src/rpc_proxy.c:1063-1480 | in particular for every run in which no timer fires, nothing is in flight at a dispatch, a node sends nothing but its one answer, and a connection that has answered stays up while the race lasts |
| `RaceTheorems.BroadcastsAreHeardOut` | src/rpc_proxy.c:1311-1385 | for every run from creation: whenever the proxy is idle or takes the next request, a broadcast before it that reached a node has ended by race_complete, after the timeout or after as many outcomes as it has participants; if every event was timely, every participant is among them |
| `RaceTheorems.SlowNode` | src/rpc_proxy.c:253-383 | one node, one request and no answer yet: the state from which the wrong answer below is reached |
| `RaceTheorems.FirstAnswerToSecondRequest` | src/rpc_proxy.c:949-1060 | from creation, with eight events: the client that asks again after the timeout gets the answer to its first request |
| `RaceTheorems.HeightNeverDecreases` | src/rpc_proxy.c:1187-1238 | no event lowers the last block height |
| `RaceTheorems.HeightOverRun` | src/rpc_proxy.c:1187-1238 | over any run the last block height is at least what it was |
| `RaceLog.LawfulEverywhere` | src/rpc_proxy.c:1311-1385 | the one-bit summary of a log is set exactly when every entry was allowed by the history before it |
| `RaceLog.OneDecisionEach` | src/rpc_proxy.c:327-378 | in a lawful log the requests are the decisions plus the one still open |
| `RaceLog.OverMeansAll` | src/rpc_proxy.c:1032-1060 | in a lawful log a race that is over has its decision, and a timeout or as many outcomes as participants; nothing is counted for it afterwards |
| `RaceLog.AtMostTwoSends` | src/rpc_proxy.c:1423-1443 | in a lawful log a node got the current request once if it took part, once more if it was retried, and never again |
| `RaceLog.FirstSuccessIsFirst` | src/rpc_proxy.c:1270-1303 | the choice of a winner is the earliest non-error answer in arrival order, and there is none exactly when every answer is an error |
| `RaceSafety.RotateFacts` | src/conn_pair.c:62-83 | a rotation keeps the standby slot free of requests and never touches an active slot that carries one |
| `RaceSafety.ConnectEndsFacts` | src/conn_pair.c:88-132 | a finished connect, with the swap it may cause, keeps the standby slot free of requests and never touches an active slot that carries one |
| `RaceSafety.RotationSparesRequests` | src/conn_pair.c:39-118 | in every reachable state a rotation timer or a finished connect leaves every connection that carries a request exactly as it was |
| `RaceSafety.RaceCompleteKeeps` | src/rpc_proxy.c:1032-1060 | ending a race whose decision is made keeps the invariant and leaves no active connection in flight |
| `RaceSafety.FinishKeeps` | src/rpc_proxy.c:1109-1127 | counting one outcome keeps the pending count equal to the outcomes still owed |
| `RaceSafety.JudgeKeeps` | src/rpc_proxy.c:1121-1309 | whatever height logic runs, a decision is made by this answer exactly when it is the first success, and it is this answer that is forwarded |
| `RaceSafety.GbtSuccessIs` | src/rpc_proxy.c:1187-1263 | with no winner yet, both height branches come to the same: this node wins, becomes sticky and is forwarded; only the bookkeeping differs |
| `RaceSafety.LastErrorForwarded` | src/rpc_proxy.c:1314-1365 | when the last outcome arrives and there is no winner, the best-height branch is not taken: the error answer of the node that finished last is forwarded |
| `RaceSafety.LeaveEarlyKeeps` | src/rpc_proxy.c:1367-1385 | returning to IDLE right after a non-broadcast winner keeps the invariant |
| `RaceSafety.ConcludeKeeps` | src/rpc_proxy.c:1311-1385 | whichever way a response ends or continues the race, the invariant holds afterwards |
| `RaceSafety.ResponseKeeps` | src/rpc_proxy.c:1063-1386 | a complete response, in a race or late, keeps the invariant |
| `RaceSafety.DrainOneKeeps` | src/rpc_proxy.c:1076-1099 | a late response or error on the idle proxy keeps the invariant |
| `RaceSafety.NodeFailedKeeps` | src/rpc_proxy.c:1445-1480 | a failed participant is counted, and if it was the last, the race ends with a hangup only where no answer is due |
| `RaceSafety.RetryKeeps` | src/rpc_proxy.c:1423-1443 | a retry on the swapped connection is logged once per node and keeps the invariant |
| `RaceSafety.ErrorKeeps` | src/rpc_proxy.c:1389-1480 | a lost connection, before, during or after a race, keeps the invariant |
| `RaceSafety.TimeoutKeeps` | src/rpc_proxy.c:949-1029 | the timeout keeps the invariant and leaves no active connection in flight |
| `RaceSafety.NotifyKeeps` | src/rpc_proxy.c:1595-1614 | a block notify keeps the invariant, also in the middle of a race |
| `RaceSafety.TargetsAre` | src/rpc_proxy.c:534-573 | the participants of a fan-out are exactly the available nodes, each once, in index order |
| `RaceSafety.FanoutKeeps` | src/rpc_proxy.c:327-378 | a fan-out, with participants or with none, keeps the invariant |
| `RaceSafety.StickyKeeps` | src/rpc_proxy.c:579-684 | a sticky dispatch, direct or fallen back to a fan-out, keeps the invariant |
| `RaceSafety.RequestKeeps` | src/rpc_proxy.c:253-383 | a complete client request keeps the invariant in every phase |
| `RaceSafety.StepKeeps` | src/rpc_proxy.c:253-1614 | every event that the event loop can deliver keeps the invariant |
| `RaceSafety.InitInv` | src/rpc_proxy.c:1484-1562 | the invariant holds at creation, whatever the first connects do |
| `RaceSafety.RunKeeps` | src/rpc_proxy.c:253-1614 | the invariant holds after every run |
| `RaceTimers.StepGuarded` | src/rpc_proxy.c:902-1060 | every event keeps the timer armed while a request is under way, if a dispatch can create its timer |
| `RaceTimers.RunGuarded` | src/rpc_proxy.c:902-1060 | the same over whole runs from any guarded state |
| `RaceTimers.TimeoutEndsAll` | src/rpc_proxy.c:949-1060 | when the timer fires the proxy is idle, nothing is in flight and no timer is armed |
| `RaceTimers.UnguardedWithoutTimer` | src/rpc_proxy.c:902-934 | if the timer cannot be created, a fan-out that reaches a node runs unwatched: the condition on timers is needed |
| `RaceTimers.FailingSlotIsActive` | src/conn_pair.c:243-269 | a connection that fails while carrying a request is its pair's active slot, and reporting the error disconnects exactly that slot, keeps the other as it is and makes it active |
| `RaceTimers.UpstreamDrops` | src/rpc_proxy.c:1109-1480 | outside IDLE every answer and every lost request ends the race or lowers pending answers plus unused retries |
| `RaceTimers.OthersSpareMeasure` | src/rpc_proxy.c:1109-1480 | no other event raises that measure |
| `RaceTimers.RaceEnds` | src/rpc_proxy.c:1109-1480 | a race sees fewer upstream events than that measure, which is at most twice the number of nodes |
| `RaceRefinement.StepGenuine` | src/rpc_proxy.c:1063-1480 | a timely event keeps every outcome, retry and forwarded answer tied to the current request, whatever other connections still drain or owe |
| `RaceRefinement.UntimelyStep` | src/rpc_proxy.c:1063-1480 | an event that is not timely always leaves an outcome or a retry that does not belong to the current request |
| `RaceRefinement.RunGenuineExactly` | src/rpc_proxy.c:1063-1480 | the two together over whole runs from any such state |
| `RaceRefinement.StepLogGrows` | src/rpc_proxy.c:253-1614 | no event takes back what the log says happened |
| `RaceRefinement.GenuineOncePerNode` | src/rpc_proxy.c:1109-1127 | in such a log no node is counted twice and only participants are counted |
| `RaceRefinement.AllParticipantsFinished` | src/rpc_proxy.c:1311-1366 | then the pending count reaches zero only when every participant has finished |
| `RaceRefinement.RaceOverMeansAllHeard` | src/rpc_proxy.c:1032-1060 | in a genuine log a race ends by race_complete only when every participant has finished or the timeout fired, and its client has been answered |
| `RaceRefinement.HeardBeforeNext` | src/rpc_proxy.c:327-378 | in a lawful log no request follows a broadcast that was not heard out |
| `RaceSockets.StepSocks` | src/rpc_conn.c:435-537 | a calm event leaves every socket owing exactly the answer its connection waits for |
| `RaceSockets.CalmRunIsTimely` | src/rpc_proxy.c:327-378 | so in a calm run every event is timely |
| `RaceSockets.StaleAnswerForwarded` | src/rpc_proxy.c:1078-1110 | a connection still receiving an older request is taken for a participant, and its answer is forwarded to the client of the newer request |
| `RaceSockets.RepeatedAnswerCounted` | src/rpc_proxy.c:1109-1110 | a second report of a connection that has answered is counted again |
| `RaceSockets.TimeoutKeepsAnswer` | src/rpc_conn.c:505-537 | the timeout makes a connection that waits for its answer usable again and keeps the socket, which still owes that answer |
| `RaceSockets.LateAnswerForwarded` | src/rpc_proxy.c:949-1060 | in every state in which a node is waited for: after the timeout the next raced request goes out on the same socket, and the answer to the request that timed out is forwarded to its client |
| `RpcProxyObjects.RpcConn.Disconnect` | src/rpc_conn.c:482-503 | the object ends in the state the value model computes for a disconnect, whatever it was |
| `RpcProxyObjects.RpcConn.Reset` | src/rpc_conn.c:505-537 | a request in flight is dropped: the connection is connected again, or disconnected if the server asked to close |
| `RpcProxyObjects.RpcConn.Send` | src/rpc_conn.c:435-454 | a request is taken only by a connected connection; otherwise nothing changes |
| `RpcProxyObjects.RpcConn.SendComplete` | src/rpc_conn.c:212-228 | once sent, the connection waits for an answer to the same request |
| `RpcProxyObjects.ConnPair.Tick` | src/conn_pair.c:283-311 | the slots after a tick are those of the value model |
| `RpcProxyObjects.ConnPair.ReportError` | src/conn_pair.c:243-269 | the slots after a reported error are those of the value model |
| `RpcProxyObjects.ConnPair.StandbyOnConnected` | src/conn_pair.c:88-118 | the swap and what follows from it are those of the value model |
| `RpcProxyObjects.ConnPair.RefreshStandby` | src/conn_pair.c:39-59 | the standby slot is reconnected as in the value model, the active one left alone |
| `RpcProxyObjects.ConnPair.Rotate` | src/conn_pair.c:62-83 | the slots after a rotation timer are those of the value model |
| `RpcProxyObjects.ConnPair.constructor` | src/conn_pair.c:136-200 | a new pair has both slots as their first connects left them, the first one active |
| `RpcProxyObjects.RpcProxy.RaceComplete` | src/rpc_proxy.c:1032-1060 | the two loops over all pairs and the cleared fields give the state of the value model |
| `RpcProxyObjects.RpcProxy.GbtSuccess` | src/rpc_proxy.c:1187-1269 | the height branches give the state of the value model |
| `RpcProxyObjects.RpcProxy.Judge` | src/rpc_proxy.c:1121-1309 | the choice made for an answer is that of the value model |
| `RpcProxyObjects.RpcProxy.OnResponse` | src/rpc_proxy.c:1063-1386 | the callback gives the state, and the log of what it did, of the value model |
| `RpcProxyObjects.RpcProxy.OnError` | src/rpc_proxy.c:1389-1480 | the callback, with swap, retry and failure, gives the state of the value model |
| `RpcProxyObjects.RpcProxy.Retry` | src/rpc_proxy.c:1423-1447 | the swapped connection gets the request if it can take it, else the node is counted as failed, as in the value model |
| `RpcProxyObjects.RpcProxy.OnTimeout` | src/rpc_proxy.c:949-1029 | both branches of the timeout give the state of the value model |
| `RpcProxyObjects.RpcProxy.OnNotify` | src/rpc_proxy.c:1595-1614 | a notify gives the state of the value model |
| `RpcProxyObjects.RpcProxy.DispatchFanout` | src/rpc_proxy.c:534-573 | the loop sends to exactly the available nodes and counts them |
| `RpcProxyObjects.RpcProxy.DispatchSticky` | src/rpc_proxy.c:579-684 | the sticky node, or the fall-back, gets the request as in the value model |
| `RpcProxyObjects.RpcProxy.ClientRequest` | src/rpc_proxy.c:253-383 | a complete request is routed, sent and timed as in the value model |
| `RpcProxyObjects.RpcProxy.Deliver` | src/rpc_proxy.c:253-1614 | every event changes the live objects as one step of the value model |
| `RpcProxyObjects.RpcProxy.Serve` | src/rpc_proxy.c:253-1614 | a whole run on the live objects ends in the state of the value model's run and satisfies its invariant |
| `RpcProxyObjects.RpcProxy.constructor` | src/rpc_proxy.c:1484-1562 | a new proxy is in the initial state of the value model |
| `HttpFraming.ChunkIndependent` | src/rpc_conn.c:66-112 | for every way of cutting a response that settles its length and fits the buffer, over any left-over bytes: completion is reported exactly from the read on that reaches header plus content length, with the same headers and the same body |
| `HttpFraming.AnyCut` | src/rpc_conn.c:232-288 | after any reads the remembered headers are those of the response itself, and equal to what a fresh parse of the buffer gives |
| `HttpFraming.ParseStays` | src/rpc_proxy.c:389-426 | once the headers are in and settle the length, no byte behind them, old or new, changes the parse |
| `HttpFraming.SettledExactly` | src/rpc_conn.c:91-98 | the content length depends on the headers alone exactly when something other than white space follows the label in them |
| `HttpFraming.BodyDecides` | src/rpc_conn.c:91-98 | otherwise the first digit of the body is taken for the length |
| `HttpFraming.LengthLocal` | src/rpc_conn.c:91-98 | a settled length is the same for any two memories that agree on the headers |
| `HttpFraming.CloseLocal` | src/rpc_conn.c:101-109 | the close flag depends on the headers alone, always |
| `HttpFraming.HeaderEndStays` | src/rpc_conn.c:76-82 | more received bytes never move the end of the headers |
| `HttpFraming.HeaderEndReach` | src/rpc_conn.c:76-82 | the end of the headers is found by the first read that brings it |
| `HttpFraming.Received` | src/rpc_conn.c:232-288 | after any reads the buffer begins with exactly the bytes received |
| `HttpReceiver.ScanHeaderEnd` | src/rpc_conn.c:76-82 | the loop finds the first blank line inside the received bytes, or none |
| `HttpReceiver.ScanLength` | src/rpc_conn.c:91-98 | the number behind the first label, if that label stands in the headers, else zero |
| `HttpReceiver.ScanClose` | src/rpc_conn.c:101-109 | whether the first Connection label in the headers is followed by close |
| `HttpReceiver.RequestComplete` | src/rpc_proxy.c:389-426 | the stateless parse of the client buffer accepts exactly the complete messages |
| `HttpReceiver.Connection.ParseHeaders` | src/rpc_conn.c:66-112 | headers are parsed once; later calls change nothing |
| `HttpReceiver.Connection.OnReadable` | src/rpc_conn.c:232-288 | the connection is lost exactly on a full buffer, an error or the end of the stream, without change; otherwise the bytes are appended and a response is reported exactly when one is finished |
| `HttpReceiver.Connection.Response` | src/rpc_conn.c:467-480 | the body is handed out exactly when the response is finished |
| `NotifierHistory.RunRemembers` | src/notifier.c:910-1045 | after any history the last hash, its time and the grace period are those of the last acceptance, where acceptance is defined from the previous acceptance alone |
| `NotifierHistory.Neighbours` | src/notifier.c:978-1013 | consecutive accepted hashes differ, and the source changes only after ten seconds |
| `NotifierHistory.SameSource` | src/notifier.c:978-1003 | any two acceptances less than ten seconds apart come from the same source |
| `NotifierHistory.RareChanges` | src/notifier.c:978-1020 | between any two acceptances the source changes at most once every ten seconds |
| `NotifierHistory.TablesTrack` | src/notifier.c:932-976 | after any history a node's row holds its last report and the time of the latest report that differed from its own previous one |
| `NotifierHistory.AliveIs` | src/notifier.c:651-656 | the health test on the tables holds exactly when the node made such a report at or after the given time |
| `NotifierHistory.WarnedOnce` | src/notifier.c:647-664 | a node is warned about at most once per accepted block, and its flag says whether it was |
| `NotifierHistory.WarnsExactly` | src/notifier.c:619-666 | a node is warned about exactly when it has ZMQ, is not in IBD, sixty seconds have passed since the last acceptance, it made no differing report since and was not warned about yet |
| `NotifierObject.Notifier.constructor` | src/notifier.c:671-706 | a new notifier has empty tables |
| `NotifierObject.Notifier.Source` | src/notifier.c:956-975 | the source is the first node of that name, or none |
| `NotifierObject.Notifier.Record` | src/notifier.c:961-973 | a report changes one row of the tables, and its time only if the hash is new to the node |
| `NotifierObject.Notifier.ProcessHash` | src/notifier.c:910-1045 | the tables and the answer are those of the value model, on all three paths |
| `NotifierObject.Notifier.SilenceCheck` | src/notifier.c:619-666 | the flags set and the warnings logged are exactly those of the value model |
| `BigInts.BigInt.SetU64` | include/yyjson.c:3681-3684 | the number is the given one |
| `BigInts.BigInt.AddU64` | include/yyjson.c:3582-3596 | the number grows by the given one, with every carry, and keeps a non-zero top chunk |
| `BigInts.BigInt.MulU64` | include/yyjson.c:3603-3615 | the number is multiplied exactly and keeps a non-zero top chunk |
| `BigInts.BigInt.MulPow2` | include/yyjson.c:3622-3643 | the number is multiplied by the power of two, by whole chunks and bits, and keeps a non-zero top chunk |
| `BigInts.BigInt.MulPow10` | include/yyjson.c:3650-3656 | the number is multiplied by the power of ten |
| `BigInts.BigInt.SetDigits` | include/yyjson.c:3687-3736 | the number read is the one `BufValue` names: all digits, or the kept ones with a 1 for the rest, and the scale that goes with it |
| `BigInts.BigInt.Cmp` | include/yyjson.c:3663-3674 | the sign of the comparison is the order of the two numbers |
| `BigInts.Pow10Table` | include/yyjson.c:1200-1211 | the table holds the powers of ten |
| `BigCompare.HalfWayDigits` | include/yyjson.c:3706-3711 | no half-way point between doubles has more than 768 significant digits |
| `BigCompare.TenthStandsForRest` | include/yyjson.c:3720-3724 | putting a 1 for any non-empty rest keeps the order to every multiple of the unit, except that an exact hit looks larger |
| `BigCompare.ReadOrder` | include/yyjson.c:3687-3736 | the number read has the literal's own order to a half-way point exactly when it has at most 768 digits or is not exactly on that point; otherwise it looks larger |
| `BigCompare.MisplacedOrder` | include/yyjson.c:3706-3711 | with 770 or more digits before the decimal point the number read is ten times too large and always looks larger than a half-way point near the literal |
| `SlowPath.NextDouble` | include/yyjson.c:4393-4404 | the half-way significand and exponent describe the middle between a double and its successor, also where the exponent changes |
| `SlowPath.CompareHalfWay` | include/yyjson.c:4393-4419 | the sign is the exact order between the number read and the half-way point, and no chunk beyond the 58th is ever written |
| `SlowPath.ScaleTen` | include/yyjson.c:4409-4413 | the power of ten goes to the side where it is whole; both numbers stay exact and within the chunks |
| `SlowPath.ScaleTwo` | include/yyjson.c:4414-4418 | the power of two goes to the side where it is whole; both numbers stay exact and within the chunks |
| `SlowPath.Decide` | include/yyjson.c:4391-4429 | given a candidate that is right or one too low: the result is the nearest double, the even one of two, if and only if it is the successor exactly when the literal lies on that side; that is so for all literals but those of more than 768 digits exactly half-way above an even candidate and those with a misplaced point, for which it is said, at the candidate zero too, when the result is the successor |
| `SlowPath.NearCandidate` | include/yyjson.c:4391-4419 | such a candidate is near enough for the chunk bound |
| `Misreadings.TieLost` | include/yyjson.c:3720-3724 | a literal of 769 digits exactly half-way between two doubles that is rounded to the odd one |
| `Misreadings.PointMisplaced` | include/yyjson.c:3706-3711 | a literal of 770 digits before its point that is rounded up although the lower double is nearest |
| `IntegerText.HundredthIs` | include/yyjson.c:7109-7116 | the multiply-and-shift by 5243 is division by 100 on its range, without overflow |
| `IntegerText.TenThousandthIs` | include/yyjson.c:7137-7148 | the multiply-and-shift by 429497 is division by 10000 on its range |
| `IntegerText.WideTenThousandthIs` | include/yyjson.c:7094-7107 | the multiply-and-shift by 109951163 is division by 10000 on its range |
| `IntegerText.Write8` | include/yyjson.c:7094-7107 | eight digits, leading zeros included |
| `IntegerText.Write4` | include/yyjson.c:7109-7116 | four digits, leading zeros included |
| `IntegerText.Write1To8` | include/yyjson.c:7118-7163 | the canonical decimal text of a number below 10^8 |
| `IntegerText.Write5To8` | include/yyjson.c:7165-7195 | the canonical decimal text of a number of five to eight digits |
| `IntegerText.WriteU64` | include/yyjson.c:7197-7222 | the canonical decimal text of every 64-bit number |
| `IntegerText.WriteNum` | include/yyjson.c:8263-8269 | the canonical text of the signed or unsigned value of the 64 bits |
| `IntegerText.ReadDigits` | include/yyjson.c:3945-3968 | the value of at most nineteen digits, without overflow |
| `IntegerText.ReadInteger` | include/yyjson.c:3880-4028 | a literal is read as an integer exactly when it is one, has no leading zero and fits; its value is the number its digits name |
| `IntegerText.RoundTrip` | include/yyjson.c:3945-4028 | whatever 64 bits were printed are read back, for both subtypes, if neither a digit nor a floating-point mark follows |
| `Utf8.Seq2Is` | include/yyjson.c:1131-1133 | the two-byte mask test accepts exactly the two-byte sequences of section 4 of RFC 3629 |
| `Utf8.Seq3Is` | include/yyjson.c:1153-1156 | the three-byte mask test accepts exactly its three-byte sequences, surrogates excluded |
| `Utf8.Seq4Is` | include/yyjson.c:1173-1176 | the four-byte mask test accepts exactly its four-byte sequences |
| `Utf8.HexBack` | include/yyjson.c:1060-1069 | four hexadecimal digits written are read as the same number |
| `Utf8.Unit3Back` | include/yyjson.c:4674-4679 | a three-byte sequence survives being written as an escape and read back |
| `Utf8.Point4Back` | include/yyjson.c:4686-4706 | a four-byte sequence survives being written as a surrogate pair and read back |
| `JsonStrings.AcceptsUtf8` | include/yyjson.c:8641-8850 | the writer fails on exactly the strings that are not well-formed UTF-8 |
| `JsonStrings.SixTimes` | include/yyjson.c:8631-8641 | six bytes for every byte of the string are always enough |
| `JsonStrings.RoundTrip` | include/yyjson.c:4724-5040 | reading what was written gives the same bytes, with unicode and slash escaping on or off, anywhere in a text |
| `JsonStrings.PlainIsOwnText` | include/yyjson.c:4805-4814 | a string read without escapes is its own text, is well formed, and is written unchanged under the copy table |
| `StringCodec.PieceAt` | include/yyjson.c:8694-8828 | the switch with its word tests takes the next sequence and writes for it what the model names |
| `StringCodec.WriteStr` | include/yyjson.c:8641-8850 | the buffer gains the quotes and the encoded string, or the writer fails where the model does, invalid input included |
| `StringCodec.WriteNoesc` | include/yyjson.c:8609-8628 | the buffer gains the quotes and the bytes as they are |
| `StringReader.SkipUtf8` | include/yyjson.c:4817-4862 | the three loops skip exactly the sequences that stand for themselves, and stop with an error exactly where there is none |
| `StringReader.CopyUtf8` | include/yyjson.c:4984-5036 | the loops move sequences down without touching what is still to be read, though four bytes are stored for three |
| `StringReader.CopyText` | include/yyjson.c:4945-5036 | text is moved down while the write position stays strictly below the read position |
| `StringReader.UnicodeAt` | include/yyjson.c:4660-4711 | an escape or surrogate pair is decoded, or refused with the error the model names |
| `StringReader.EscapeShrinks` | include/yyjson.c:4866-4881 | an escape is longer than the bytes it stands for, so decoding in place never overtakes |
| `StringReader.ReadStr` | include/yyjson.c:4724-5040 | the string is decoded in place: value, length, terminator, end and escape flag are those of the model, and bytes outside stay as they were |
| `StringReader.ReadsBackWritten` | include/yyjson.c:4724-5040 | reading in place what the writer wrote gives the string back, wherever it stands |
| `StringReader.NoescWritten` | include/yyjson.c:8609-8628 | a string tagged as free of escapes is written the same with and without looking at it |
| `PoolTiles.EveryRun` | include/yyjson.c:2241-2297 | after any requests live blocks and free chunks partition the buffer, no two free chunks touch, and with nothing in use the buffer is the initial chunk |
| `PoolTiles.Partition` | include/yyjson.c:2222-2234 | every cell lies in exactly one chunk |
| `PoolTiles.TakeLive` | include/yyjson.c:2241-2270 | an allocation adds one block, at most one cell larger than needed, and leaves the others alone |
| `PoolTiles.GiveKeeps` | include/yyjson.c:2273-2297 | a release keeps the partition and leaves no two free chunks side by side |
| `PoolTiles.GiveLive` | include/yyjson.c:2273-2297 | a release removes one block and leaves the others alone |
| `PoolTiles.AllFree` | include/yyjson.c:2273-2297 | with nothing in use there is one chunk of the whole buffer |
| `FreeList.Locate` | include/yyjson.c:2276-2281 | the place in the address-sorted list where a chunk belongs |
| `FreeList.FirstFit` | include/yyjson.c:2249-2255 | the first entry that is large enough; everything before it is too small |
| `FreeList.Insert` | include/yyjson.c:2283-2284 | the list with one entry hooked in, still sorted |
| `FreeList.Remove` | include/yyjson.c:2261-2268 | the list without one entry, still sorted |
| `FreeList.Replace` | include/yyjson.c:2256-2268 | the list with a chunk replaced by its rest, still sorted |
| `PoolAllocator.Pool.Init` | include/yyjson.c:2346-2369 | null exactly for a buffer below 64 bytes or an address that wraps; otherwise one free chunk, aligned and inside the buffer |
| `PoolAllocator.Pool.Malloc` | include/yyjson.c:2241-2270 | the lowest free chunk that is large enough is taken, split if the rest is worth it; it fails exactly when no free chunk is large enough |
| `PoolAllocator.Pool.Free` | include/yyjson.c:2273-2297 | the block is given back and joined with its free neighbours, in the headers and in the list |
| `PoolAllocator.Pool.Serve` | include/yyjson.c:2241-2297 | any program that frees only what it holds: the chunks, and every pointer handed out, are those of the plain list of chunks; when nothing is held the buffer is one chunk again |
| `UtHash.MaskIsRemainder` | include/uthash.h:430-433 | with a power of two of buckets the mask is the remainder |
| `UtHash.DoubledBucket` | include/uthash.h:849-868 | doubling sends an item to its old bucket or to that one's twin |
| `UtHash.FindInBucket` | include/uthash.h:745-764 | an item of the chain with that hash value and key, or none if there is none |
| `UtHash.FileItem` | include/uthash.h:767-777 | the item is the head of the bucket of its hash value; all other buckets are as before |
| `UtHash.UnfileItem` | include/uthash.h:789-801 | the item has left its chain; all other buckets are as before |
| `UtHash.Rehash` | include/uthash.h:833-868 | every item is in the new bucket of its hash value, none is lost, and the count of items beyond the ideal length is exact |
| `UtHash.CountsAddUp` | include/uthash.h:542-544 | the bucket counts add up to the number of items |
| `HashTables.HashTable.Find` | include/uthash.h:153-163 | the item of that key in the map the table stands for, or null |
| `HashTables.HashTable.Add` | include/uthash.h:396-417 | the map gains the key and the application order the item at its end, expansion or not |
| `HashTables.HashTable.Expand` | include/uthash.h:833-883 | the doubled table holds the same items; ideal length, excess and the flags against further growth are as documented |
| `HashTables.IdealIsCeiling` | include/uthash.h:844-848 | the shift and the mask compute the items per bucket, rounded up |
| `HashTables.HashTable.Delete` | include/uthash.h:450-477 | the map loses the key and the application order that item; the last item takes the table with it |
| `HashTables.HashTable.Replace` | include/uthash.h:254-262 | the map holds the new item under the key, and the old one is returned |
| `HashTables.HashTable.Serve` | include/uthash.h:396-477 | for any hash function and any sequence of operations the answers and the order of keys are those of a plain list of keys |
| `HashTables.HashTable.Check` | include/uthash.h:516-563 | the consistency check finds nothing wrong in any table these operations built |
| `HashTables.HashTable.SortItems` | include/uthash.h:890-972 | the application order becomes a permutation of itself; for a preorder it is sorted and equal items keep their order; buckets and map are untouched |
| `MergeSort.SortCorrect` | include/uthash.h:890-972 | bottom-up merging sorts and is stable |
| `MergeSort.SortPermutes` | include/uthash.h:890-972 | for any comparison at all the result is a permutation |
| `MergeSort.PassRuns` | include/uthash.h:901-955 | a pass turns sorted runs of n into sorted runs of 2n |
| `MergeSort.MergeStable` | include/uthash.h:916-952 | merging keeps equal elements in their order |
| `ListSort.MergeRuns` | include/uthash.h:916-952 | the relinked output is the merge of the two runs, with every prev and next right, and what lies ahead is untouched |
| `ListSort.RunPass` | include/uthash.h:898-958 | one pass leaves a consistent list that is the pass of the model, and says whether one merge took in everything |
| `ListSort.SortList` | include/uthash.h:890-972 | the sort ends for every list that an unsigned counter can count, with the right head and tail |

## Left out

- Sockets, epoll, timerfd, ZMQ, the Unix-socket and HTTP relays: their effects are events and parameters.
- Which client receives an answer after the listener replaced the client in mid-race, and the sharing of the request buffer by several connections.
- JSON-RPC method extraction and the interpretation of JSON bodies: whether a response is an error, and its height, are part of the response event.
- What a node makes of a request that was broken off, and the parser of the rest of an answer: from there on, answers on that socket count as answers to no request.
- The receive buffer is modelled as ending with a zero byte, which `strcasestr` and `strtoull` rely on; the program does not put one there.
- `pool_realloc`, the dynamic allocator and the default allocator.
- The fast paths of the floating-point reader, the shortest float printer and the table of powers of ten: the slow path is proved for any candidate that is right or one too low, which is what the fast path promises.
- The single-quote, extended-escape, invalid-unicode and incremental modes of the string reader, and the raw and extended modes of the number reader.
- The unrolled loops of the string reader and writer are modelled one byte or sequence at a time.
- Insertion in sorted order, Bloom filters, HASH_SELECT and the out-of-memory recovery of uthash; its hash functions are arbitrary functions.
- HashTables.HashTable.Add: asks for room in the unsigned counters (items and doubled buckets below 2^32), because the table's counters wrap beyond it.
- HashTables.HashTable.SortItems: takes the comparison as a predicate of two items, true where the program's comparison is not positive.
- Paths into a document (RFC 6901), patches (RFC 6902, RFC 7386), the incremental reader and JSON5.
- Configuration, HTTP status server, statistics, logging, watchdog, event loop and start-up.
