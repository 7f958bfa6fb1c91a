# Verification of the HTTP server

A Dafny 4.11 model of the server's logic and proofs about it. `dafny verify dfyconfig.toml` checks
everything.

| file | what it models |
|---|---|
| `ProcessPool.dfy` | the pre-forked process pool: child protocol, report pipe, command channel, fork/retire controller |
| `HttpMessage.dfy` | what a request means: a pure parse of the received bytes |
| `RequestParser.dfy` | the in-place request parser, over a mutable buffer, proved to compute that parse |
| `MessageTheorems.dfy` | laws of the parse: end of headers, tiling, grammar, round trip, header names |
| `UriMapping.dfy` | `parse_uri` and `prepend` over mutable string buffers |
| `ResponseWriter.dfy` | the partial-write loop and the two writes of a static response |
| `RequestQueue.dfy` | the linked request queue |
| `ThreadHandoff.dfy` | threads exchanging requests through the queue under one mutex |
| `Configuration.dfy` | the layered configuration reader |
| `ConfigEditor.dfy` | the form of the configuration editor, and what the reader makes of its file |
| `CText.dfy`, `Common.dfy` | C strings and numbers; an option type |
| `NumberTheorems.dfy` | what the number scanner reads: printed numbers come back |

## How the main models work

**Process pool.** `State` holds the phase of every child ever forked, the two FIFO channels and the
parent's counters; `Step` is one atomic action of one process. Accepting a connection and reporting
it are separate steps. A child that leaves after 'n' without 'f' is `ExitedEarly`. Commands carry no address: any `Waiting`
child may take the oldest one. `lo` and `hi` are PRECHILD and MAXCHILD. The class `Pool` holds the
same state in fields and its methods are the loop bodies of parent and children; `Controller` is the
server's own copy of the parent loop, which carries on after a failed fork.

The parent never learns of early exits. `AcceptsAgainIff` gives the exact consequence: a pool can
still come to accept a connection iff at most `hi` children have exited early. For every
valid pair of limits a run leads to a state where it cannot, and nothing at all can happen any more
(`PoolCanDie`).

The server's parent survives a failed fork, which leaves the pool smaller than the load asks for.
`FailedForks` gives the exact shortfall after any reports, `ClosedFormIff` when it is made up for.

**Request parser.** `ParseMessage` finds line feeds, cuts each line at the start of the CRs before
its LF, and reads the pieces; it never writes. `HeaderParse` is the five-state scanner over an
`array<char>`, with `line_end` and `header_line` as options so that using one before it is set would
be a proof failure. Its contract equates result, request fields, reported header fields and what the
request handler sees with `ParseMessage` of the bytes as received.

**Numbers.** `CText.ScanNumber` and `CText.ToInt` follow the C library, on a machine whose long has 64
bits and whose int has 32.

**Threads.** Each action of a thread (accept, lock, queue operation, unlock, end of a request) is
one step; any number of threads of any of three roles interleave. `Server` runs them over the linked
queue.

## Model

| member | source | states |
|---|---|---|
| ProcessPool.Conservation | JudaoTest/process_pool.c:56-140 | in every reachable state `child_num - req_num` is children accepting or about to report + unread 'c' + unread 'n'; 0 <= `req_num` <= `child_num` <= MAXCHILD+1; with both channels empty there is such a child iff `req_num` <= MAXCHILD |
| ProcessPool.ReportOrder | JudaoTest/process_pool.c:60-65 | whatever the unaddressed commands did, each child's unread records alternate and end in 'n' iff it holds a request, and `req_num` is the number of children whose 'n' but not 'f' has been handled |
| ProcessPool.Population | JudaoTest/process_pool.c:114-139 | waiting children = unread 'f' + unread commands; `child_num` = living children - unread 'e' + early exits |
| ProcessPool.CommandsInOrder | JudaoTest/process_pool.c:121-139 | in every run the commands obeyed, read off what the children do next, followed by the unread ones are those the parent gave, read off its counters, in order |
| ProcessPool.ReportsInOrder | JudaoTest/process_pool.c:278-303 | in every run the records the parent counted, followed by the unread ones, are those the children wrote, in order |
| ProcessPool.ClosedForm | JudaoTest/process_pool.c:284-329 | after any reports with successful forks `child_num` = max(PRECHILD, min(`req_num`+1, MAXCHILD+1)) |
| ProcessPool.FailedForks | server.c:301-377 | with any pattern of failed forks over any reports, exactly how far `child_num` stays behind that closed form: max(start + balance, largest suffix balance), where a report weighs +1 for an 'n' and -1 for an 'f' that moves the closed form, and -1 for a fork that works; never above the closed form, never below the lower limit |
| ProcessPool.ShortfallStep | server.c:301-377 | one report moves the shortfall D to max(0, D + its weight) |
| ProcessPool.PeakIs | server.c:301-377 | the largest suffix balance used there is attained and bounds every suffix balance |
| ProcessPool.ClosedFormIff | server.c:301-377 | after any reports and failed forks `child_num` is on the closed form iff start shortfall + whole balance <= 0 and every suffix balance <= 0; it is back on it whenever `req_num` is below the lower limit |
| ProcessPool.SingleLimit | server.c:287-376 | with one size P for both limits, `child_num` is P+1 iff `req_num` >= P, else P |
| ProcessPool.QuietWork | JudaoTest/process_pool.c:114-139 | without new connections every schedule uses up the same amount of work, one unit a step and two more for each early exit |
| ProcessPool.StuckIffDrained | JudaoTest/process_pool.c:278-329 | a state has no step left but an accept iff both channels are empty and nobody is about to report, serves or waits: no command is lost |
| ProcessPool.Draining | JudaoTest/process_pool.c:275-330 | from any reachable state every schedule without new connections is bounded, and where it ends `req_num` is the number d of early exits, `child_num` the closed form for d, acceptors `child_num` - d; with d = 0, PRECHILD children accept |
| ProcessPool.Drain | JudaoTest/process_pool.c:275-330 | from any state satisfying the invariant a schedule without connections or early exits reaches a drained state |
| ProcessPool.EarlyExitBound | JudaoTest/process_pool.c:73-102 | at most MAXCHILD+1 children exit early; when that many have, nobody accepts, reports or serves and no 'c' is unread |
| ProcessPool.AcceptsAgainIff | JudaoTest/process_pool.c:73-102 | some schedule leads to an accepting child iff at most MAXCHILD children have exited early |
| ProcessPool.BadRequests | JudaoTest/process_pool.c:58-102 | for any limits and any k <= MAXCHILD+1, some run from the start reaches an idle pool with exactly k early exits |
| ProcessPool.PoolCanDie | JudaoTest/process_pool.c:58-102 | for any limits the bound of MAXCHILD+1 early exits is reached, and there no process can do anything |
| ProcessPool.InvStep | JudaoTest/process_pool.c:44-141 | every step of parent or child keeps the whole invariant |
| ProcessPool.Pool.constructor | JudaoTest/process_pool.c:253-273 | pre-forking gives the initial state |
| ProcessPool.Pool.ParentLoopBody | JudaoTest/process_pool.c:275-330 | the parent's loop body takes exactly the parent's protocol step |
| ProcessPool.Pool.WriteReport | JudaoTest/process_pool.c:58-65 | writing 'n' or 'f' is the child's protocol step |
| ProcessPool.Pool.ReadCommand | JudaoTest/process_pool.c:121-139 | a waiting child takes the oldest command and retires on 'e', accepts on 'c' |
| ProcessPool.Pool.Run | JudaoTest/process_pool.c:44-141 | any interleaving of the loop bodies is the run of the protocol and keeps its invariant |
| ProcessPool.Controller.constructor | server.c:287-288 | both limits and the initial count are the configured size |
| ProcessPool.Controller.LoopBody | server.c:290-377 | one report updates the counters and answers 'f' as the controller function says, also when the fork fails |
| ProcessPool.Controller.HandleAll | server.c:290-377 | after any reports the pool has P children, or P+1 if `req_num` >= P, less the largest suffix balance of the reports; so it has P or P+1, and exactly what the load asks for if no fork fails |
| RequestParser.HeaderParse | http_handler.c:128-226 | the destructive single pass returns, sets, reports and serves what the pure parse of the received bytes says; the bytes in the buffer when each line is handed over are exactly the lines of the original; bytes past the received ones are untouched; the version that points into the buffer still reads as received when the headers end |
| RequestParser.ScanStep | http_handler.c:138-179 | when the scanner completes a line, `line_end` is the start of the maximal CR run before the LF; a line of CRs alone ends the headers |
| RequestParser.TakeOption | http_handler.c:184-209 | handling one header line keeps the parse on course and leaves the request line's string in the buffer intact |
| RequestParser.TakeFirst | http_handler.c:199-209 | handling the request line starts the header lines or settles the rejection |
| RequestParser.ProcessLogline | http_handler.c:306-416 | result and every request field, set as far as parsing got, are those of the pure request-line parse |
| RequestParser.FindUriEnd | http_handler.c:360-362 | the scan stops at the first blank or the end of the line |
| RequestParser.ProcessOptionLine | http_handler.c:228-287 | the line is split at its first colon into canonical name and value without leading blanks; only bytes up to the colon change |
| RequestParser.ToUpper | http_handler.c:289-304 | exactly the bytes of the string change, each to its canonical form |
| RequestParser.Classify | http_handler.c:251-285 | a header is selected by its whole name |
| RequestParser.WholeName | http_handler.c:251-281 | comparing through the NUL is comparing whole names |
| MessageTheorems.EndIsFirst | http_handler.c:160-175 | the headers end at the first LF that completes an LF CR* LF, and nowhere if there is none |
| MessageTheorems.ServedIff | http_handler.c:183-225 | the request is served iff its request line is complete and accepted and the bytes hold LF CR* LF; the result is -1 iff the first line is complete and rejected |
| MessageTheorems.LinesTile | http_handler.c:136-210 | the lines with their CR runs and LFs are the received bytes, up to an unfinished line or the blank line |
| MessageTheorems.LinesClean | http_handler.c:160-210 | every line handed over is non-empty, has no LF and does not end in CR |
| MessageTheorems.AcceptedIff | http_handler.c:314-408 | which request lines are accepted, and with which URI and version: both directions |
| MessageTheorems.UnknownMethodRejected | http_handler.c:306-337 | a line that starts with none of the three methods is rejected with only the version set |
| MessageTheorems.ShapedRejected | http_handler.c:349-415 | a URI over 1024 bytes is rejected before it is stored, a bad version after that |
| MessageTheorems.EmptyUriIff | http_handler.c:349-375 | the accepted URI is empty exactly when only blanks follow the method |
| MessageTheorems.PlainVersionIff | http_handler.c:382-405 | a version is refused iff its numbers, clamped to 64 bits and cut to 32, are above 1.1; kept iff 1.0 or 1.1; what follows it is ignored |
| MessageTheorems.VersionMalformed | http_handler.c:372-410 | after a blank, a version without "HTTP/", either number or the dot is refused |
| MessageTheorems.RequestLineAccepted | http_handler.c:306-416 | a rendered request line parses to its method and URI, and is served as its version, or as HTTP/0.9 if it states none |
| MessageTheorems.HeaderTextField | http_handler.c:241-249 | a rendered header line gives its canonical name and its value, whatever blanks stand after the colon |
| MessageTheorems.NoField | http_handler.c:241-243 | a line gives no field iff it has no colon |
| MessageTheorems.TailIgnored | http_handler.c:138-225 | once the headers have ended or the request line is rejected, any bytes after them change nothing |
| MessageTheorems.MoreBytes | http_handler.c:136-210 | with more bytes the header fields only grow, and what a complete request line said stays |
| MessageTheorems.RoundTrip | http_handler.c:128-416 | parsing a rendered request, with or without a version, any blanks after colons, any CRs before LFs and any body behind it, gives back method, URI, version and all headers, and serves it |
| MessageTheorems.CanonicalIff | http_handler.c:289-304 | two names have one canonical form iff they differ only in letter case and '-'/'_'; canonicalising twice changes nothing |
| MessageTheorems.KnownHeaderIff | http_handler.c:251-285 | each known header is selected iff the whole name is its own up to letter case and '-'/'_' |
| UriMapping.Prepend | http_handler.c:25-30 | the string in the buffer becomes t followed by the old string |
| UriMapping.ParseUri | http_handler.c:467-506 | static iff "cgi-bin" occurs nowhere in the URI; then the static name and no arguments; else the dynamic name and the arguments; the URI buffer is cut at the mark only in the dynamic case |
| UriMapping.DynamicSplit | http_handler.c:493-504 | the name is a dot before a part of the URI; that part, mark and arguments concatenate to the URI, and no other split at a first mark does |
| UriMapping.StaticFile | http_handler.c:471-490 | the static name is the root, the rest of the URI, and index.html iff the URI ends in a slash |
| UriMapping.SameFileIff | http_handler.c:471-490 | two URIs name one file iff equal or one spells out the default document |
| ResponseWriter.ResponseWrite | http_handler.c:559-580 | the loop delivers the bytes the specification says, in order, and returns n or the error value |
| ResponseWriter.DeliveredIs | http_handler.c:565-577 | all n bytes are delivered unless the socket fails first, and then exactly what it took before |
| ResponseWriter.CountBound | http_handler.c:559-580 | n is returned iff n bytes went out |
| ResponseWriter.ServeStatic | http_handler.c:525-538 | header then body are written, the body also after a failed header |
| ResponseWriter.SentWholeIff | http_handler.c:525-538 | the peer gets header and whole body iff both writes complete |
| ResponseWriter.SentPrefixIff | http_handler.c:525-580 | for header and body of h and n bytes the peer always gets a prefix of the response iff the socket never fails, takes h bytes before it fails, fails a second time before taking anything more, or n is 0 |
| ResponseWriter.BodyAlone | http_handler.c:525-538 | a socket that fails once at the start delivers the body alone, which is no prefix of the response |
| RequestQueue.Queue.Enqueue | myqueue.c:21-33 | appends one request to the linked nodes and keeps head, tail and links consistent |
| RequestQueue.Queue.Dequeue | myqueue.c:37-52 | removes and returns the first request, or returns none only when empty |
| RequestQueue.Perform | myqueue.c:21-52 | any sequence of operations behaves as on a sequence; head is NULL iff tail is NULL iff it is empty |
| RequestQueue.FirstInFirstOut | myqueue.c:21-52 | requests taken, then those left, are those put in, in order |
| ThreadHandoff.HandedOnce | JudaoTest/Integration_with_processes_1/server.c:513-538 | in every interleaving of any threads: mutual exclusion, dispatched is a prefix of enqueued with the rest queued, no ticket twice, no two threads serve one ticket, and every accepted ticket is enqueued or held by the one thread about to enqueue it |
| ThreadHandoff.TicketsStep | JudaoTest/Integration_with_processes_1/server.c:253-255 | one action of any thread, a separate producer included, keeps enqueued = dispatched + queued without repeats |
| ThreadHandoff.TakenStep | JudaoTest/Integration_with_processes_1/server.c:516-524 | one action of any thread keeps the tickets being served dispatched and pairwise different |
| ThreadHandoff.CountedStep | server.c:515-521 | one action of a thread that enqueues before it dequeues keeps queue length = threads in between |
| ThreadHandoff.NeverEmptyHanded | server.c:515-523 | when all threads enqueue before they dequeue, the queue holds one request for each thread in between, so no dequeue returns NULL |
| ThreadHandoff.NeverStuck | server.c:515-521 | some thread can always act |
| ThreadHandoff.ServedInOrder | JudaoTest/Integration_with_processes_1/server.c:513-538 | in every run of any threads the services begun are the dispatched tickets in queue order, each once, except one still in the hands of the mutex owner |
| ThreadHandoff.WorkerServesAll | JudaoTest/Integration_with_processes_1/server.c:513-538 | with a worker among any threads, from every reachable state a run without new connections leads to where every accepted ticket is dispatched and all threads wait |
| ThreadHandoff.ReachableRoles | JudaoTest/Integration_with_processes_1/server.c:513-538 | a producer never dequeues and a worker never accepts |
| ThreadHandoff.KeptStep | server.c:485-517 | no action of any thread loses an accepted ticket |
| ThreadHandoff.AllServed | server.c:480-544 | with threads that enqueue before they dequeue, from any reachable state every schedule without new connections is bounded by what the threads have left to do, and ends exactly there, with the queue empty, every accepted ticket dispatched and all threads accepting |
| ThreadHandoff.Server.Act | server.c:480-544 | one action of a thread over the linked queue is the protocol step |
| ThreadHandoff.Server.Run | server.c:480-544 | any interleaving over the linked queue is the run of the protocol |
| Configuration.ReadConfiguration | get_configuration.c:309-324 | for every option list, file and environment: how reading ends, and every field of the record by precedence |
| Configuration.Config.ReadCommandLine | get_configuration.c:106-169 | text options keep their first value, number options their last; help and unknown options end the program |
| Configuration.Config.ReadFile | get_configuration.c:171-275 | the file fills only fields still unset; a malformed file ends the program |
| Configuration.Config.ReadEnvironment | get_configuration.c:277-289 | the environment fills only fields still unset |
| Configuration.Config.ReadDefaults | get_configuration.c:291-307 | defaults fill what is left |
| Configuration.TextPrecedence | get_configuration.c:75-81 | a text field has the value of the first layer that sets it |
| Configuration.IntPrecedence | get_configuration.c:100-104 | a number has the first non-zero value of the layers, so none is left zero |
| Configuration.FirstTextWins | get_configuration.c:134-149 | the command line counts with the first occurrence of a text option |
| Configuration.LastIntWins | get_configuration.c:150-158 | the command line counts with the last occurrence of a number option, even a zero |
| Configuration.OptionNumberRead | get_configuration.c:150-158 | the last option for a number, printed in decimal, is the number the program gets if it is positive and fits 32 bits |
| Configuration.OptionTextRead | get_configuration.c:134-149 | the first option for a text is the text the program gets |
| Configuration.TextSources | get_configuration.c:171-307 | by name: without an option a text comes from its file key, else its variable, else its default |
| Configuration.IntSources | get_configuration.c:171-307 | by name: the same for numbers, where zero counts as unset |
| Configuration.EndingReady | get_configuration.c:128-168 | the option list is read to its end iff it holds no help and no unknown option |
| Configuration.EndingDecided | get_configuration.c:159-167 | the first help or unknown option decides how reading ends |
| NumberTheorems.ReadBackIff | get_configuration.c:153-154 | white space, a sign and a printed number, before anything but a digit, are read as that number iff it fits 32 bits |
| NumberTheorems.ReadBackValue | get_configuration.c:93-95 | otherwise the number is clamped to 64 bits and cut to 32 |
| NumberTheorems.NoNumber | get_configuration.c:93-95 | text with no number in front reads as zero |
| Configuration.DocumentedPortIgnored | get_configuration.c:286 | DC_PORT, which the usage text names, has no effect |
| ConfigEditor.TrimWhitespaces | config_editor_dynamic.c:33-53 | in place, the buffer holds the trimmed string at the returned position; none iff all is white |
| ConfigEditor.TrimAllWhitespaces | config_editor_dynamic.c:61-93 | the result is the string without its white characters, none if nothing is left |
| ConfigEditor.IsNumber | config_editor_dynamic.c:12-21 | true iff every character is a digit |
| ConfigEditor.Submit | config_editor_dynamic.c:140-208 | the form is accepted iff no field is blank, the numbers are digits and the mode is 1 or 2; what is then written |
| ConfigEditor.EditorToReader | config_editor_dynamic.c:182-208 | the reader returns every text trimmed and every non-zero number typed; a zero falls through; the mode is the one typed |
| ConfigEditor.TrimIff | config_editor_dynamic.c:33-53 | trimming removes all white space at both ends and nothing else |
| ConfigEditor.SqueezeConcat | config_editor_dynamic.c:74-78 | squeezing distributes over concatenation |
| ConfigEditor.SqueezeFixed | config_editor_dynamic.c:74-78 | squeezing leaves no white character and changes nothing iff there was none |
| ConfigEditor.SqueezeBlank | config_editor_dynamic.c:74-86 | nothing is left iff the field is all white space |
| ConfigEditor.SqueezePadded | config_editor_dynamic.c:74-78 | padding is removed and nothing put in its place |
| ConfigEditor.AcceptableIff | config_editor_dynamic.c:140-172 | the form is accepted iff no field is blank, the number fields hold digits and white space only, and the mode reads as 1 or 2 |
| ConfigEditor.FormToConfiguration | config_editor_dynamic.c:140-208 | texts and printed numbers typed with any padding: accepted iff the low 32 bits of the mode are 1 or 2 and it fits 64, and the reader then returns the texts, the mode and every positive number that fits |
| ConfigEditor.NumberTypedIff | config_editor_dynamic.c:168-172 | a typed number is read as its decimal value iff it fits a 32-bit int |

## Where code and documentation differ

- The usage text and the readme name DC_PORT; the code reads DC_SERVER_PORT (get_configuration.c:286).
  The model follows the code.
- The usage text names config.conf; the code opens config.cfg. The model has one file either way.
- The long option for the default document exists, its short form is not in the option string
  (get_configuration.c:128), so the short form ends the program; an option list here holds what
  getopt_long reports.

## Left out

- Sockets, pipes, files, stat, mmap, exec, signals, time and logging: inputs of the model or absent.
- Pipe records are atomic and pipe reads and writes succeed: process_pool.c leaves the process
  otherwise, and server.c would handle the previous record again.
- Forks succeed in the pool protocol, since process_pool.c stops the parent otherwise; the controller
  alone is also proved for failing forks. Pre-forking that fails in server.c is not modelled.
- The child half of process mode in server.c, which never writes reports.
- `process_header_end`: choosing between static, dynamic and the 404 page by stat results, and
  `serve_dynamic`, would add only case lists; the handler is represented by the request it sees.
- UriMapping.ParseUri: takes a non-empty URI and buffers large enough, as `parse_uri` itself assumes;
  `MessageTheorems.EmptyUriIff` says when the parser passes it an empty one.
- RequestParser.HeaderParse: starts with the option flag at 0, as every request in the server does;
  the bytes left behind inside lines already parsed are not stated beyond the request line's text.
- RequestParser.ProcessLogline: the URI field is a value, not the separately allocated buffer the
  source copies it to.
- MessageTheorems.PlainVersionIff: signs and white space before the numbers of a version are modelled
  in `CText.ScanNumber` and `CText.AsUnsigned` but no law is stated for them.
- Request storage: a ticket stands for one enqueued request; the stack variable whose address the
  threads enqueue is not modelled, nor is freeing of nodes.
- ResponseWriter.ResponseWrite: runs with endlessly many interruptions are not represented; after a
  finite list of attempts the socket takes everything.
- The formatting of the response header, MIME types, and the header's self-referencing sprintf.
- getopt and libconfig syntax: an option list and a finite map with typed entries stand for them.
- ConfigEditor.Submit: writing the file succeeds; windows and key handling are absent.
- Memory allocation failures; characters are compared as in the C locale.
- The copies and earlier drafts of these files elsewhere in the repository, and the clients.
