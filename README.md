# Stack, linked list and deployment driver — a Dafny model

This project models the sequential logic of three small services and the
driver that deploys them:

- **The C stack server** (`StackServer`, `Stack.dfy`). The global
  `int stack[100]` and its index `top` (-1 when empty) form the class
  `Stack`, with an `array<int32>` of 100 slots. `Push`, `Pop` and `Peek`
  are proved against functions on the live slots. `HandleRequest` is one
  pass of the request router. `"POST /push"` is matched before
  `"GET /pop"`, and anything else is the health check. A push on a full
  stack is dropped, but the reply still says "pushed" with `top` at 99.
  The pop route answers "empty" whenever the popped value is -1, so a
  stored -1 is removed and reported as "empty".
- **The Java capped doubly linked list** (`LinkedList`, `LinkedList.dfy`).
  `Node` and `DoublyLinkedList` are classes with `prev`/`next`/`head`/`tail`
  pointers. A ghost node sequence carries the link invariant:
  `head.prev == null`, `tail.next == null` and `n.next.prev == n`.
  - `Add` appends at the tail and drops the head once the list holds more
    than eight elements.
  - `Size` and `ToString` are the pointer-walking loops, proved against
    the element sequence and the rendering `[ A <-> B <-> C ]` /
    `[ Empty ]`.
- **The Python deployment driver** (`Manager`, `Manager.dfy`).
  - the readiness test over a `kubectl get pods` listing and the bounded
    polling loop of `wait_for_pods`, with its terminal outcomes (ready,
    abort on a background failure, kubectl failure, kubectl not started,
    time-out);
  - the `docker-env` line parser, which updates the environment map in
    place;
  - the write-once `_terraform_error` slot;
  - the `docker build` commands and image tags;
  - the ingress URL with its `<minikube-ip>` fallback;
  - the deployment check.

  Every external command is replaced by its result, passed in as a value.
  The results of the status queries and the background error slot are
  functions of the iteration number.
- **Shared string operations** (`Text`, `Text.dfy`). These are the C
  `strstr` / Python `in` substring test, Python's `str.strip()` and
  `str.strip(chars)`, `str.splitlines()` and `str.split(sep, 1)[1]`,
  written out character by character. `str.strip()` uses the `str.isspace`
  character set. `str.splitlines()` treats `\r\n` as one boundary and
  recognises all of Python's line boundaries.

C `int` values are the newtype `int32`. No arithmetic is done on stored
values, so no wrap-around arises. The only integer arithmetic is on `top`,
which stays within -1..99.

## Model

| member | source | states |
|---|---|---|
| StackServer.Stack.constructor | stack/stack_server.c:11-12 | the stack starts with 100 zeroed slots, `top == -1` and no live element |
| StackServer.Stack.Push | stack/stack_server.c:14-18 | below 99, `top` rises by one and `val` is stored there, every other slot unchanged; at 99 nothing changes; the live slots become `AfterPush` of the old ones |
| StackServer.Stack.Pop | stack/stack_server.c:20-23 | an empty stack returns -1 and keeps `top == -1`; otherwise it returns `stack[top]` and `top` drops by one; the array is never written |
| StackServer.Stack.Peek | stack/stack_server.c:25-28 | returns exactly what `Pop` would return (the top slot, or -1 when empty), changing nothing |
| StackServer.PushThenPop | stack/stack_server.c:14-23 | on a non-full stack, push then pop gives back the pushed value and the previous stack |
| StackServer.BoundaryCases | stack/stack_server.c:15-21 | a push on a full stack is ignored; an empty stack pops -1 and stays empty |
| StackServer.RunStaysBounded | stack/stack_server.c:11-28 | whatever sequence of push/pop/peek runs, at most 100 slots are live, so `top` stays within -1..99 |
| StackServer.Route | stack/stack_server.c:83-97 | push route iff "POST /push" occurs somewhere, even when "GET /pop" also does; pop route iff only "GET /pop" occurs; health route iff neither occurs |
| StackServer.PopResponse | stack/stack_server.c:99-103 | the pop route answers "empty" exactly for the sentinel -1, and otherwise reports the popped value itself |
| StackServer.PopRouteReportsEmpty | stack/stack_server.c:98-103 | the pop route answers "empty" exactly when the stack was empty or its top slot held -1 |
| StackServer.Stack.HandleRequest | stack/stack_server.c:83-107 | per route: push with "val=" pushes the parsed value and reports the new `top`; push without it changes nothing and reports the missing value; pop pops and reports "empty" or the value; health changes nothing and reports the size `top + 1`, within 0..100 |
| LinkedList.Node.constructor | linkedlist/LinkedListService.java:11-19 | a new node holds its data and has no neighbours |
| LinkedList.DoublyLinkedList.constructor | linkedlist/LinkedListService.java:22-23 | the list starts empty, with `head == tail == null` |
| LinkedList.DoublyLinkedList.Append | linkedlist/LinkedListService.java:27-34 | the link invariant is kept and the contents gain the new element at the end; on an empty list `head == tail` and holds it |
| LinkedList.DoublyLinkedList.Add | linkedlist/LinkedListService.java:26-37 | contents `s` become `s + [x]`, with the first element dropped when that exceeds eight; link invariant kept; on an empty list `head == tail` holds `x` |
| LinkedList.DoublyLinkedList.RemoveFirst | linkedlist/LinkedListService.java:39-47 | nothing on an empty list; `head == tail == null` after removing the only node; otherwise contents become `s[1..]`; link invariant kept |
| LinkedList.DoublyLinkedList.Size | linkedlist/LinkedListService.java:49-54 | the number of nodes reached from `head` by `next` links is the number of elements |
| LinkedList.DoublyLinkedList.ToString | linkedlist/LinkedListService.java:57-68 | the text is "[ Empty ]" for an empty list, otherwise "[ " + the elements joined by " <-> " + " ]" |
| LinkedList.AddKeepsCap | linkedlist/LinkedListService.java:36 | a list of at most eight stays at most eight after `add`, and the added element is last |
| LinkedList.AddAllKeepsLastEight | linkedlist/LinkedListService.java:26-37 | any sequence of `add`s leaves exactly the last eight of all elements ever held, in order |
| LinkedList.LastNAppend | linkedlist/LinkedListService.java:36 | trimming to eight before appending does not change the last eight after appending |
| LinkedList.AddAndRemoveFirst | linkedlist/LinkedListService.java:26-47 | below the cap, `add` then `removeFirst` gives the old tail followed by the new element (nothing, from an empty list); on a full list `add` equals `removeFirst` followed by appending |
| LinkedList.RenderEmptyIff | linkedlist/LinkedListService.java:57-68 | the rendering is "[ Empty ]" exactly for the empty list and for the one-element list holding "Empty" |
| LinkedList.RenderShape | linkedlist/LinkedListService.java:59-66 | a non-empty rendering starts with "[ " and the head's text and ends with " ]" |
| LinkedList.JoinedHasSeparator | linkedlist/LinkedListService.java:61-63 | with two or more elements, " <-> " occurs in the joined text right after the joined text of all but the last element |
| LinkedList.JoinedStartsWithHead | linkedlist/LinkedListService.java:61-63 | the joined text starts with the head's data |
| Text.Contains | stack/stack_server.c:83-97 | the left-to-right substring test holds exactly when the pattern occurs at some index |
| Text.StripBy | driver/manager.py:105-107 | stripped text is no longer than the input and neither of its ends is a stripped character |
| Text.StripBySlice | driver/manager.py:52 | stripped text is a slice of the input with only stripped characters outside it |
| Text.StripByEmptyIff | driver/manager.py:52 | stripping leaves nothing exactly when every character is a stripped one |
| Text.Strip | driver/manager.py:52 | `str.strip()` leaves nothing exactly when the text is all whitespace |
| Text.StripKeepsContains | driver/manager.py:125-126 | stripping never changes whether a pattern whose ends are not whitespace occurs |
| Text.StripByUnchanged | driver/manager.py:105 | a text whose ends are not stripped characters is left as it is |
| Text.StripByEnclosed | driver/manager.py:107 | stripping quotes removes exactly one enclosing quote on each side of a value whose own ends are not quotes |
| Text.TrimStartSuffix | driver/manager.py:52 | leading stripping keeps a suffix after a run of stripped characters |
| Text.TrimEndPrefix | driver/manager.py:52 | trailing stripping keeps a prefix before a run of stripped characters |
| Text.SplitLines | driver/manager.py:176 | no lines exactly for the empty text, and no line holds a line boundary |
| Text.SplitJoinRoundTrip | driver/manager.py:104 | splitting lines that are each followed by "\n" gives back those lines, when no line holds a line boundary |
| Text.SplitJoinedRoundTrip | driver/manager.py:176 | splitting `"\n".join(lines)` gives back those lines, when no line holds a line boundary and the last line is not empty, which is the shape of a stripped multi-line output |
| Text.AfterFirst | driver/manager.py:107 | no result (the `IndexError`) exactly when '=' is absent; otherwise the text after the first '=' |
| Text.AfterFirstOf | driver/manager.py:107 | the text after the first separator, when the part before it has none, is everything after it |
| Manager.NotReadyCount | driver/manager.py:179-181 | the count is at most the number of lines, and zero iff every line contains "Running" |
| Manager.CapturedLines | driver/manager.py:176 | the captured listing has no lines exactly when the output is all whitespace, and no line holds a line boundary |
| Manager.CapturedListingLines | driver/manager.py:176 | a listing printed as its lines joined by "\n", without whitespace at either end, is captured as exactly those lines |
| Manager.Ready | driver/manager.py:179-183 | reference definition of an accepted listing: a data line exists and every data line contains "Running" |
| Manager.CountNotReady | driver/manager.py:176-183 | the loop counts the data lines lacking "Running"; zero with more than one line iff the listing is ready (a data line exists and every data line says "Running") |
| Manager.ListingIsReady | driver/manager.py:175-183 | the test accepts a captured output exactly when its stripped, split listing is ready |
| Manager.WaitForPods | driver/manager.py:163-192 | the outcome is the polling specification's; queries issued and progress marks match that outcome |
| Manager.PollFrom | driver/manager.py:170-192 | from counter `k`, the loop stops at a counter value between `k` and 39 (flag seen, kubectl failed or not started, or listing ready), or times out, which needs the flag clear at every remaining iteration |
| Manager.Poll | driver/manager.py:167-192 | the whole loop issues at most 40 queries and times out only if the flag was never seen set |
| Manager.PollStopsAt | driver/manager.py:170-190 | after `k` iterations that neither stopped nor failed, the outcome is decided from iteration `k` on |
| Manager.PollFromCharacterized | driver/manager.py:170-192 | each outcome names its stopping iteration: every earlier iteration continued, and the stopping one saw the flag, a failed query, a query that could not start or a ready listing; a time-out means all 40 iterations continued |
| Manager.PollStopsAtFirstNonContinuing | driver/manager.py:170-192 | the loop stops at the first iteration that does not continue, and never issues more than 40 queries |
| Manager.NeverReadyTimesOut | driver/manager.py:167-192 | with the flag never set and no ready listing, exactly 40 queries are made and the loop returns without exiting |
| Manager.FlagCheckedFirst | driver/manager.py:171-175 | a flag seen set at iteration `k` aborts with exit code 1 after `k` queries, whatever the next listing would show |
| Manager.FlagStopsLoop | driver/manager.py:171-175 | a flag set at iteration `k` stops the loop by iteration `k`, and no query is issued once it is seen |
| Manager.FirstListingReady | driver/manager.py:183-185 | a ready first listing returns after one query with the counter at 0 |
| Manager.ReadyOnThirdQuery | driver/manager.py:170-188 | two not-ready listings then a ready one end in success after three queries |
| Manager.HeaderOnlyNeverReady | driver/manager.py:176-183 | an output whose stripped text has no line boundary captures at most one line, and the loop never accepts it |
| Manager.ProgressMarksExact | driver/manager.py:188-190 | the progress message is logged exactly at the positive multiples of five the counter reaches |
| Manager.ProgressMarksCount | driver/manager.py:187-190 | `n` retries log `n / 5` progress messages, eight over a full time-out |
| Manager.ExportKey | driver/manager.py:106-112 | a selected variable is one of the three Docker variables and the line starts with its `export` prefix; none is selected only when no prefix matches |
| Manager.ParseEnvLine | driver/manager.py:104-114 | a line is skipped iff no prefix matches; it raises iff a prefix matches and it has no '='; an assignment targets the matched variable and its value has no quote at either end |
| Manager.AssignedValue | driver/manager.py:107 | the stored value is the text after the first '=' of the stripped line, stripped of whitespace and then of quotes |
| Manager.EnvLineRoundTrip | driver/manager.py:104-114 | parsing `export KEY="value"` assigns that value to that Docker variable, for every value that neither begins nor ends with a quote (`strip` removes all enclosing quotes, so other values are not given back) |
| Manager.ExportLineStripped | driver/manager.py:105 | an `export` line needs no stripping |
| Manager.ExportKeySelects | driver/manager.py:106-112 | each `export` prefix selects its own variable, whatever follows it |
| Manager.ExportLineValue | driver/manager.py:107 | the text after the first '=' of an `export` line is its quoted value |
| Manager.OnlyDockerKeysChange | driver/manager.py:104-114 | every variable other than the three Docker ones keeps its presence and value |
| Manager.SkippedLinesKeepEnv | driver/manager.py:104-114 | lines without a matching `export` prefix leave the environment unchanged |
| Manager.ApplyEnvLines | driver/manager.py:103-114 | the parse never removes a variable and adds none beyond the three Docker ones |
| Manager.RaiseEndsParse | driver/manager.py:104-118 | once a line raises, no later line has any effect, and the earlier assignments stay |
| Manager.LaterLineWins | driver/manager.py:104-114 | a line assigning a variable decides its final value when the parse reaches it and no later line raises or assigns the same variable |
| Manager.InfrastructureManager.SetDockerEnv | driver/manager.py:94-118 | a failed command changes nothing; otherwise the environment and completion flag are those of the line-by-line parse of the output |
| Manager.InfrastructureManager.constructor | driver/manager.py:30-34 | the error slot and the address start unset |
| Manager.InfrastructureManager.TerraformApplyWorker | driver/manager.py:143-150 | `apply` runs only after `init` produced output; a non-zero exit of either records exit code 1; a command that cannot be started leaves the slot as it was; a set slot is never cleared |
| Manager.InfrastructureManager.BuildImages | driver/manager.py:134-141 | one build per service, in order; the process exits iff some build fails, after issuing exactly the builds up to the first failing one |
| Manager.BuildCommands | driver/manager.py:136-138 | one `docker build -t <service>-service:latest ./<service>` command per service, in order |
| Manager.ImageTag | driver/manager.py:138 | the tag is the service name followed by "-service:latest" |
| Manager.BuildContext | driver/manager.py:138 | the build context is "./" followed by the service name |
| Manager.TagRoundTrip | driver/manager.py:138 | the service can be read back from its tag |
| Manager.TagInjective | driver/manager.py:138 | distinct services never share an image tag |
| Manager.DisplayHost | driver/manager.py:197 | the displayed host is never empty |
| Manager.IngressUrl | driver/manager.py:197-198 | the URL starts with "http://", ends with ":32080/" and has a non-empty host between them |
| Manager.IngressUrlRoundTrip | driver/manager.py:197-198 | the URL holds the address when it is set and non-empty, and "<minikube-ip>" when it is unset or empty |
| Manager.CheckIfDeployed | driver/manager.py:122-132 | a failing kubectl ends the process with exit code 1; a kubectl that cannot be started gives "not deployed"; otherwise the result is whether "backend-deployment" occurs in the raw output |

## Left out

- Socket setup, the accept loop, `read`/`send`, the HTTP header and the
  request buffer of the C server are not modelled. The buffer starts zeroed
  and is cleared after every request. The request text is therefore
  NUL-terminated, except after a read that fills all 4096 bytes. The
  model's request is a finite string and does not capture reading past
  such a buffer.
- `strstr` stops at the first NUL byte, so the C routing only sees the
  buffer's text up to that byte. `Route` and `HandleRequest` take `request`
  to be exactly that text, so a NUL byte inside `request` is not modelled.
  Bytes a client sends after an embedded NUL count for `Contains` but not
  for the C server. For example, "GET /x", a NUL and then "POST /push" is
  the push route in the model and the health check in C. The same holds for
  a NUL before "val=".
- `atoi` is not modelled: `HandleRequest` takes the parsed value as a
  parameter. The `sprintf` JSON texts are the constructors of `Response`.
- The `HttpServer` contexts of the Java service are not modelled. This
  includes the query split of `/add`, which relies on Java's regular
  expression `String.split`. The static list is an ordinary
  `DoublyLinkedList` object.
- `subprocess`, `sys.exit`, `time.sleep`, the `Logger` calls and `print`
  are not modelled. Command results are inputs (`Reply`, `Option<string>`,
  success predicates). A `Reply` is the output, a non-zero exit (which
  `run_cmd` turns into `SystemExit`) or a command that cannot be started
  (an `OSError`, which `run_cmd` does not catch). Exits are outcome values:
  `WaitOutcome`, `DeployCheck`, and the `exited` result of `BuildImages`.
  In `BuildImages`, a failed build and one that cannot be started both end
  the process, so a single predicate covers both.
- The terraform thread is not modelled; it runs concurrently with
  `wait_for_pods`. `WaitForPods` reads the error slot as the input
  `failed(i)`, one value per iteration. `TerraformApplyWorker` models the
  worker body as a sequential method. The recorded `SystemExit` object is
  its exit code, 1.
- `discover_services`, `check_minikube` (including where `minikube_ip`
  comes from) and `main` are not modelled. The services and the address
  are inputs.
- `utils/logger.py` and `graph/graph_service.py` are not part of this
  model.
- Manager.ParseEnvLine: its own contract says only that the assigned value
  has no quote at either end. The full value, the text after the first '='
  stripped of whitespace and then of quotes, is stated by
  `Manager.AssignedValue`.
- Text.StripBy: its own contract says only that the ends are not stripped
  characters. The slice property is stated by `Text.StripBySlice`.
- The polling lemmas (`PollFromCharacterized`, `NeverReadyTimesOut`,
  `FlagCheckedFirst` and the others) hold for any readiness test.
  `WaitForPods` applies them to the captured-listing test `OutputReady`.
