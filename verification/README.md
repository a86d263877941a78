# Metric server for JITServer: a verified model

This project models the metric server that a JITServer process runs beside itself, and the two demo
scripts around it, in Dafny 4.11, and proves what they promise.

`dafny verify dfyconfig.toml` checks everything.

## What is modelled

* **The connection loop.** `Handler.dfy` is the server's main loop as a class: the vectors `fds` and
  `clients` are kept in step and changed in place (accepting, dispatching by event mask, erasing dead
  entries, draining). `ConnectionTable.dfy` says on values what one iteration and a whole run do, and
  there the results about every run are proved; each method of the class is proved to do exactly that.
  `Vectors.dfy` is the in-place filtering of two vectors. `Outcomes.dfy` says, in terms of the bytes of a
  request and the masks of `poll`, what a peer is told and what becomes of its connection, and
  `Scrapes.dfy` what scrapers are sent over whole runs.
* **One connection.** `Client.dfy` has the receive and send loops over a 4096-byte buffer and the open
  descriptors of the process (`Kernel`); `HttpRequest.dfy` has the request parser with its bounded
  buffers, its unsigned subtraction and its uninitialised memory; `MetricDatabase.dfy` and
  `MetricBody.dfy` have the database and the rendered page, `HttpResponse.dfy` the framing, and
  `Service.dfy` the routing and the whole exchange. `CStrings.dfy` holds the C library calls the parser
  makes, on buffers and on text; `MessageLines.dfy` the line layout of section 3 of RFC 7230.
* **Starting and stopping.** `MonitorProtocol.dfy` is the handshake between the controlling thread and
  the worker as a step relation over one monitor, with the connection loop inside it.
* **The demo scripts.** `Autoscaler.dfy` and `Launcher.dfy` are the two processes, `Wire.dfy` their
  message, `DemoAgreement.dfy` both together.

What the outside decides is input, in scripts with no precondition: each `recv`, `send`, `accept`,
`poll`, TLS handshake, the bytes in uninitialised memory, the numbers a refresh reads, the messages on a
socket. A theorem for all scripts is a theorem for everything the outside can do. An accepted descriptor
that is not positive and free stands for a failed `accept`. The theorems about every run hold for any
result and any masks of `poll`; where a run is shown to exist, and in the steps of the start/stop protocol,
`poll` returns only what it can return for entries that ask for POLLIN: masks of POLLIN, POLLERR, POLLHUP
and POLLNVAL, and the number of entries reported (`ConnectionTable.Delivers`). Characters stand for bytes.

## Where code and documentation differ

The model follows the code.

* `server/README.md` calls `-XX:MetricServerMaxConnections` the greatest number of connections handled at
  once. The test comes before the push and is strict, so one more is held
  (`ConnectionTable.EverySizeIsReached`), and reaching the limit ends the server loop.
* `README.md` says 400 is sent when the request is no GET and has no Host field. The code looks at the
  method only.
* Section 3.2.4 of RFC 7230 allows no space before the colon of a header field; the response has one.
* The comment in `demo/jitserver_autoscaler.py` describes the message as one 4-byte integer; loads follow it.
* Both `-XX:MetricHttpsPort` (code) and `-XX:MetricServerHttpsPort` (documentation) name the same option;
  options are not modelled.

## False as promised, with the exact condition

* The start/stop handshake is safe under every schedule exactly when the handler leaves for no other
  reason than the exit flag and no wakeup comes without a notify (`MonitorProtocol.SafeExactlyWhenBenign`;
  the two failing runs are `LimitLosesWakeup` and `SpuriousWakeupDestroysTooEarly`).
* A `Connection` value decides about keep-alive whatever the uninitialised memory holds exactly when it is
  not a non-empty proper prefix of `keep-alive` (`RequestProofs.DecisionIndependentOfMemory`); a message
  without such a value is decided whatever it holds (`RequestProofs.OtherwiseMemoryIsUnused`).
* The launcher's loop ends exactly when it starts with a server or the first thing on its socket names one
  (`Launcher.Launcher.SendReq`).
* The loads of a message, which carries no keys, land on the right servers exactly when every server behind
  one that was not reported has load zero (`DemoAgreement.LoadsAgreeExactly`).
* Descriptors are conserved on every way out of the handler but the connection limit, where exactly the
  one just accepted stays open (`Handler.Start`).

## Model

| member | source | states |
|---|---|---|
| CStrings.StrtokR | server/MetricHttpRequest.cpp:50-75 | each call cuts the next space-separated token out of the buffer in place, and the calls together yield all tokens of the line |
| HttpRequest.Request.constructor | server/MetricHttpRequest.cpp:25-30 | a new request has empty strings over arbitrary memory |
| HttpRequest.Request.ParseRequestLine | server/MetricHttpRequest.cpp:44-77 | the tokenising loop stores the kind of the first token, GET exactly for `GET`, and the first 15 bytes of the second, terminated if it is shorter, and nothing of the others |
| HttpRequest.NameThenColon | server/MetricHttpRequest.cpp:84-91 | the bounded, truncated field comparison matches just where the line starts with `Connection:`, and then the copied value starts inside the text |
| HttpRequest.WalkHeaders | server/MetricHttpRequest.cpp:79-96 | the pointer walk ends, stays within the text and four bytes past the blank line, and stops where the specification does |
| HttpRequest.Request.StoreConnection | server/MetricHttpRequest.cpp:91-92 | the copy with the wrapping unsigned length leaves exactly the specified sixteen bytes |
| HttpRequest.Request.GetMetric | server/MetricHttpRequest.hpp:54-57 | reading the target as a C string, including the run-on into the next field when it is not terminated |
| HttpRequest.Request.Parse | server/MetricHttpRequest.cpp:32-98 | for any terminated buffer parsing ends, reads and writes in bounds, refuses exactly the messages without a blank line and leaves them without effect, and otherwise fills the fields as specified |
| HttpRequest.ParsedHasEnd | server/MetricHttpRequest.cpp:92 | after parsing, `_connection` always holds a NUL, so reading either string stops inside the object |
| MessageLines.LinesOfJoin | server/MetricHttpRequest.cpp:79-96 | lines joined by CRLF are found again by the line cutting the walk performs |
| MessageLines.JoinOfLines | server/MetricHttpRequest.cpp:79-96 | where every CR has its LF, that cutting is CRLF splitting |
| RequestProofs.HeaderScan | server/MetricHttpRequest.cpp:79-96 | the walk stops at the first line named exactly `Connection`, and finds none just when there is none |
| RequestProofs.RequestRoundTrip | server/MetricHttpRequest.cpp:32-77 | any rendered request comes back with its method; a target of up to 14 characters comes back whole and of a longer one the first 15, whatever version, headers and old memory |
| RequestProofs.RenderedTokens | server/MetricHttpRequest.cpp:46-76 | the words of a request line as they come out of the 63 bytes that are kept of it |
| RequestProofs.HeadersRoundTrip | server/MetricHttpRequest.cpp:36-96 | the lines scanned are exactly the rendered header lines |
| RequestProofs.KeepAliveDecision | server/MetricHttpRequest.cpp:84-94 | the decision for any message, exactly: close without a `Connection` line, by the value and the old memory with one, and by what follows the line's CR where the line ends at its colon |
| RequestProofs.FieldOfLines | server/MetricHttpRequest.cpp:79-96 | what decides is the first header line named `Connection`: its value, or a line that is nothing but the name and the colon |
| RequestProofs.BareNameCloses | server/MetricHttpRequest.cpp:91-92 | where every CR has its LF, a `Connection:` line without a value never asks to keep, although the copied length wraps |
| RequestProofs.DecisionIndependentOfMemory | server/MetricServerHandler.cpp:533-549 | for a message whose first `Connection` line has a value: parsed over every memory it is kept iff the value starts with `keep-alive`; over every memory it is closed iff the value neither does nor is a non-empty proper prefix of it |
| RequestProofs.OtherwiseMemoryIsUnused | server/MetricServerHandler.cpp:533-549 | for any other message the decision is the same over any two memories |
| Client.Client.Accept | server/MetricClient.cpp:106-145 | on success a fresh descriptor is open and recorded with its TLS flag; on failure, also of the handshake, the open descriptors are as before |
| Client.Client.Receive | server/MetricClient.cpp:147-212 | success and failure exactly as specified; on success the buffer is the received bytes and NULs; on failure the descriptor is closed |
| Client.Client.ReceiveAll | server/MetricClient.cpp:163-179 | the accumulating loop ends, stays in bounds, and accounts for every byte up to 4095 |
| Client.GatherIsPrefix | server/MetricClient.cpp:163-179 | what is accumulated is the first bytes of the stream, as many as fit |
| Client.ChunkingIndependence | server/MetricClient.cpp:147-212 | fewer than 4095 bytes are received exactly, however they are cut into pieces |
| Client.OverlongMessage | server/MetricClient.cpp:166-196 | longer messages are cut at 4095 bytes, and the old errno decides about success |
| Client.BufferText | server/MetricClient.cpp:208 | the buffer's C string is the message up to its own first NUL |
| Client.Client.Send | server/MetricClient.cpp:214-263 | what leaves is the reply as far as the script of `send` results takes it; it fails, and closes the connection, exactly when a hard error is met before sending stops |
| Client.TakingIs | server/MetricClient.cpp:229-256 | the sending loop comes to the bytes the peer takes, up to the whole reply, and to a failure just at a hard error |
| Client.TakesConcat | server/MetricClient.cpp:229-240 | pieces add up as long as each call takes something |
| Client.AcceptsExactly | server/MetricClient.cpp:106-145 | an offer gives a connection iff its descriptor is positive and free and, for TLS, the handshake succeeds |
| Client.Client.Clear | server/MetricClient.cpp:280-303 | the descriptor, if any, is closed and forgotten with its BIO; the buffer is zeroed and the TLS flag cleared |
| Decimals.DecimalRoundTrip | server/MetricDatabase.cpp:83-152 | the printed decimal of any integer reads back as that integer |
| Decimals.DecimalNotation | server/MetricDatabase.cpp:83-152 | it is decimal notation: one digit more for every factor of ten, no leading zeros, a minus sign |
| MetricDatabase.MetricDatabase.SetMetric | server/MetricDatabase.cpp:40-51 | whether the name is found and assigned or inserted, afterwards it has the value, and every other entry is as before |
| MetricDatabase.MetricDatabase.Update | server/MetricDatabase.cpp:75-156 | a refresh performs exactly the writes for what could be read, in order; afterwards each number stands under its own name, and every name not written is as before |
| MetricDatabase.RefreshIsTold | server/MetricDatabase.cpp:83-152 | the eighteen names and the number each stands for after a refresh of any database, each under its guard |
| MetricDatabase.RefreshLeavesAlone | server/MetricDatabase.cpp:101-155 | other names, and those of a group that could not be read, keep what they had |
| MetricDatabase.MetricDatabase.PrepareAllMetricsBody | server/MetricDatabase.cpp:53-65 | the iteration over the map yields the page of all keys in order |
| MetricBody.BodyRoundTrip | server/MetricDatabase.cpp:53-65 | reading the lines of a page gives back exactly the database |
| MetricBody.PageOfOne | server/MetricDatabase.cpp:59-62 | a metric's line is its name, one space, its value and a line feed |
| MetricBody.BodyAscends | server/MetricDatabase.cpp:57-63 | the lines stand in strictly ascending order of the names |
| MetricDatabase.RefreshedIsClean | server/MetricDatabase.cpp:75-156 | after any refreshes no name or value holds a separator, and each value is the decimal of the last number written |
| MetricDatabase.ScrapeRecoversNumbers | server/MetricDatabase.cpp:53-156 | after any refreshes the page gives back every metric with the last number written |
| HttpResponse.Response.AddHeaderField | server/MetricHttpResponse.cpp:31-43 | appends the status line or the field, separator and value, and CRLF |
| HttpResponse.Response.AddBody | server/MetricHttpResponse.cpp:45-50 | appends the empty line and the body |
| HttpResponse.FrameRoundTrip | server/MetricHttpResponse.cpp:31-55 | splitting a framed message at its first empty line gives back its lines and its body, even if the body has empty lines |
| Service.HttpErrorCheck | server/MetricServerHandler.cpp:152-193 | the bytes built step by step are the framed answer of the verdict on method and target |
| Service.AnswerIsRead | server/MetricServerHandler.cpp:152-193 | a reader of the answer finds the status of the verdict and exactly its body |
| Service.MetricsEndToEnd | server/MetricServerHandler.cpp:477-550 | from a GET for the metrics, found in the first 15 characters of the target, arriving in any pieces to the numbers on the page: status 200 and every metric with its last number; a reader cut short has a prefix |
| Outcomes.Routing | server/MetricServerHandler.cpp:152-193 | from the bytes of any request to the reply: 400 unless it is a GET, the page for the metrics, an empty page for the liveness, 404 otherwise |
| Outcomes.WholeReplyIsSent | server/MetricClient.cpp:229-256 | a peer that takes everything is sent the whole reply, and without a hard error sending never fails |
| Outcomes.Refused | server/MetricServerHandler.cpp:483-511 | a message that is not received, or has no empty line, is answered with nothing and its connection closed |
| Outcomes.KeepAliveOutcome | server/MetricServerHandler.cpp:533-550 | from the bytes of any request to the decision: kept if its first `Connection` value starts with `keep-alive`, closed for `close`, for any value memory cannot complete, and without the header |
| Outcomes.KeptInTable | server/MetricServerHandler.cpp:477-577 | and so in the table after the iteration: the connection that asked to be kept is there and open, the one that asked to be closed is neither |
| Outcomes.OtherMasks | server/MetricServerHandler.cpp:552-563 | of the connections without data the idle ones and those hung up are closed and erased, all others stay |
| Outcomes.PollOutcome | server/MetricServerHandler.cpp:336-403 | the flag ends the loop, a timeout or an interruption does nothing, another failure or an unexpected event at a listener ends the process |
| Outcomes.NewcomersAre | server/MetricServerHandler.cpp:407-467 | who is accepted on either listener, from what `poll` and `accept` say |
| Outcomes.LimitExactly | server/MetricServerHandler.cpp:420-423 | an iteration ends at the limit iff an accepted connection finds more than the configured number before it |
| Scrapes.HeadIsRefreshed | server/MetricServerHandler.cpp:469 | at each head of the loop, over every run, the database is what the refreshes so far have made of it |
| Scrapes.SentInRun | server/MetricServerHandler.cpp:336-578 | what an iteration sends is among what the whole run sends |
| Scrapes.EveryScrapeIsCurrent | server/MetricServerHandler.cpp:468-520 | in any iteration of any run a GET for the metrics on a connection of the table is sent, as far as the peer takes it, a reply with every metric's last number, the numbers of that iteration's refresh under their names |
| ConnectionTable.AdmittedKeeps | server/MetricServerHandler.cpp:404-467 | both listeners' turns keep the table sound, add in order exactly the connections their `accept` gave, on descriptors that were closed, and at the limit leave one more descriptor open |
| ConnectionTable.IterateKeeps | server/MetricServerHandler.cpp:336-578 | one iteration keeps the table sound and no descriptor outside it is opened or closed, but for the one at the limit |
| ConnectionTable.SurvivorTheorem | server/MetricServerHandler.cpp:404-577 | afterwards the table is, in order, exactly the older connections that stay and those the listeners accepted; an older descriptor is open just when its connection stays; no other is closed |
| ConnectionTable.SurvivorsInTable | server/MetricServerHandler.cpp:474-577 | an older connection is in the table afterwards iff it was served and kept alive or had a mask other than idle, readable or hung up |
| ConnectionTable.EveryHeadIsSound | server/MetricServerHandler.cpp:316-589 | over every run: descriptors positive, distinct, open, listeners open, at most one connection above the limit, and the other descriptors untouched |
| ConnectionTable.EverySizeIsReached | server/MetricServerHandler.cpp:407-467 | every size up to the limit plus one occurs in a run whose every `poll` returns something it can return, so the bound is tight |
| ConnectionTable.LimitIsReached | server/MetricServerHandler.cpp:420-423 | some such run ends at the limit |
| ConnectionTable.ArrivalIsDelivered | server/MetricServerHandler.cpp:340-342 | in those runs `poll` counts the entries it reports and writes masks it can write |
| ConnectionTable.DescriptorsAreConserved | server/MetricServerHandler.cpp:336-594 | on every way out all descriptors opened are closed, except the one just accepted at the limit |
| Handler.VerdictsStay | server/MetricServerHandler.cpp:477-552 | the code's tests on mask, TLS flag and just-accepted descriptors amount to the survivor condition |
| Handler.Handler.ServeReadable | server/MetricServerHandler.cpp:477-550 | one readable connection: exactly the reply goes out, and it is kept unchanged or closed and marked in both vectors |
| Handler.Handler.ServeEntry | server/MetricServerHandler.cpp:474-563 | one entry of the loop, what it is sent, and all others and their alignment untouched |
| Handler.Handler.Dispatch | server/MetricServerHandler.cpp:473-563 | the serving loop sends each readable connection its reply, marks exactly the connections that do not stay, in both vectors, and closes exactly theirs |
| Vectors.InStepStep | server/MetricServerHandler.cpp:566-577 | one turn of the erase loop keeps both vectors filtered by the same flags, with indices in range |
| Handler.Handler.Compact | server/MetricServerHandler.cpp:564-577 | the erase loop ends and leaves both vectors as the order-preserving filter of what they were |
| Handler.Handler.Accept | server/MetricServerHandler.cpp:407-436 | accepting joins both vectors, or changes nothing, or stops at the limit, as the table says |
| Handler.Handler.AcceptBoth | server/MetricServerHandler.cpp:404-467 | both turns, and what the loop remembers as just accepted |
| Handler.Handler.Iterate | server/MetricServerHandler.cpp:336-578 | one iteration of the real loop is the table's iteration, on every branch, and sends what the table says |
| Handler.Handler.Drain | server/MetricServerHandler.cpp:579-589 | the downward drain empties both vectors and closes every connection |
| Handler.Handler.ClearEverything | server/MetricServerHandler.cpp:363-403 | the two ways to `exit(1)` close everything first |
| Handler.Handler.Loop | server/MetricServerHandler.cpp:336-604 | a whole run and its shutdown end as the table's run, with the same open descriptors and the same bytes sent |
| Handler.Start | server/MetricServerHandler.cpp:195-604 | descriptor conservation for the whole handler, per way out, and everything it sends |
| MonitorProtocol.StepKeeps | server/MetricServer.cpp:68-166 | every step of every thread keeps mutual exclusion, the order of the threads' places, and the table |
| MonitorProtocol.NoLostWakeup | server/MetricServer.cpp:81-101 | whenever `stop` waits, the last `notifyAll` is still to come; the first never meets a waiting `stop` |
| MonitorProtocol.SafeDestruction | server/MetricServer.cpp:156-166 | the monitor is destroyed only after the worker's last release, with nobody owning it |
| MonitorProtocol.StoppedMeansClosed | server/MetricServer.cpp:92-101 | when `stop` returns the worker is gone and has closed every descriptor it opened |
| MonitorProtocol.StopIsNeverStuck | server/MetricServer.cpp:156-166 | until `stop` has returned some thread can move |
| MonitorProtocol.ShutdownTerminates | server/MetricServer.cpp:92-166 | from the flag on at most a fixed number of steps follows under any scheduling, and they end with `stop` returned and everything closed |
| MonitorProtocol.LimitLosesWakeup | server/MetricServerHandler.cpp:420-423 | a run, with results `poll` can return, in which the handler leaves at its limit and `stop` waits for ever |
| MonitorProtocol.SpuriousWakeupDestroysTooEarly | server/MetricServer.cpp:161-163 | a run in which one unnotified wakeup destroys the monitor under the worker |
| MonitorProtocol.SafeExactlyWhenBenign | server/MetricServer.cpp:68-166 | safe under every schedule iff neither of the two happens |
| Wire.PackRoundTrip | demo/jitserver_autoscaler.py:27-33 | every 32-bit integer survives the wire |
| Wire.BigEndian | demo/jitserver_autoscaler.py:27-33 | the most significant byte goes first, in two's complement |
| Wire.ShortRead | demo/jitserver_request_launcher.py:26-34 | missing bytes count as zeros behind those there are, unless the peer stalls |
| Wire.Connection.RecvFour | demo/jitserver_request_launcher.py:26-34 | the four bytes read do not depend on the pieces they come in; the end of the stream supplies zeros and a stall raises |
| Launcher.Launcher.RecvMsg | demo/jitserver_request_launcher.py:17-53 | one thing on the socket updates ports, loads and the finished flag as specified, also when it breaks off in the middle |
| Launcher.HeardPorts | demo/jitserver_request_launcher.py:35-53 | a message names one more server or ends the listening; a timeout ends it without a change, and afterwards nothing is heard |
| Launcher.Launcher.FireRound | demo/jitserver_request_launcher.py:59-74 | a round starts exactly the specified processes in order, none on a server with load 5 or more, and leaves the specified remainder and loads of 4 |
| Launcher.ShareOfEach | demo/jitserver_request_launcher.py:60-66 | every server's share: none at a load of 5 or more, else up to the cap as far as the requests go |
| Launcher.BlockOfEach | demo/jitserver_request_launcher.py:67-71 | as many processes are pointed at each server as its share, server by server |
| Launcher.RoundConserves | demo/jitserver_request_launcher.py:60-71 | processes started and requests left make up the requests there were, for a round over any loads; progress wherever a server is below the target |
| Launcher.RoundWithinCap | demo/jitserver_request_launcher.py:60-66 | load and new requests of a server never exceed the larger of 5 and the largest load; servers passed over are full |
| Launcher.Launcher.SendReq | demo/jitserver_request_launcher.py:56-78 | the loop ends iff there is or comes a server; then exactly the requested number of processes was started |
| Autoscaler.Autoscaler.SendNewPort | demo/jitserver_autoscaler.py:18-37 | the bytes sent are the port and the reported loads in order |
| Autoscaler.Autoscaler.Turn | demo/jitserver_autoscaler.py:84-101 | one turn adds the specified server or nothing |
| Autoscaler.ScaledKeeps | demo/jitserver_autoscaler.py:84-101 | a turn keeps the fleet regular and within five; it starts the next server, on its ports, iff a known one reports a load of 5 or more and there is room, and sends one message for it if the launcher can be reached |
| Autoscaler.PortsNeverCollide | demo/jitserver_autoscaler.py:72-93 | no two listeners of a fleet share a port |
| DemoAgreement.MessageHeard | demo/jitserver_request_launcher.py:34-46 | a delivered message adds its port, and the loads become the reported values in order, padded with zeros |
| DemoAgreement.FillStalls | demo/jitserver_request_launcher.py:37-46 | if the peer stalls the loads read so far stay, the others keep what they had, and the launcher stops listening |
| DemoAgreement.LoadsAgreeExactly | demo/jitserver_request_launcher.py:37-46 | the loads are those of their servers iff no gap in the report has a non-zero load behind it |
| DemoAgreement.BeatKeepsAgreement | demo/jitserver_autoscaler.py:84-97 | ports agree after every turn; a report of just the earlier servers gives each its load and the new one zero |
| DemoAgreement.LauncherKnowsTheServers | demo/jitserver_autoscaler.py:71-97 | over every run the launcher's ports are those the servers were started on, in order |

## Left out

- The TLS library, its context and its memory: a handshake is an outcome in the script, and `_bio` only a flag.
- Socket options and the set-up of the listening sockets: listeners start open, positive and free, and `setsockopt` succeeds.
- Command line options, thread attachment and detachment, logging, and the failures of starting up that end in `exit(1)`.
- Where the numbers of a refresh come from: they are arbitrary integers, and only their presence, names and decimal form are kept.
- Other threads of the process opening and closing descriptors in between; a second `close` of the same descriptor, which the code performs after a hard receive error or a failed handshake, is a no-op.
- Descriptor 0 as the result of `accept`.
- MonitorProtocol.StepKeeps: the two threads are steps over one state value and not a class, because they interleave; the fields of `TR_MetricServer` are fields of that value.
- Handler.Handler.Iterate: clients are references where the C++ vector holds copies; they are kept distinct, so the difference does not show.
- HttpRequest.Request.Parse: the output to stderr on a malformed request is not modelled; nor are HTTP features the code lacks.
- Outcomes.Routing: the reply to a GET whose target has 15 or more characters is stated only where the first 15 hold the metrics path (`Service.MetricsEndToEnd`); elsewhere it follows the bytes behind `_metric`, as `HttpRequest.MetricText` reads them.
- Launcher.Launcher.RecvMsg: a reset connection, which ends the script with an exception, is not modelled.
- Autoscaler.Autoscaler.SendNewPort: every `send` takes the whole message part; loads outside 32 bits, on which `struct.pack` raises, are excluded.
- The subprocesses, Prometheus and its query, signals, waiting times, and `tester/tester.sh`.
- `MetricDatabase::print` and `findMetric`, which nothing calls.
