/** The decision logic of the local-development driver: the readiness test and
    bounded polling loop of `wait_for_pods`, the `docker-env` line parser, the
    write-once background error slot, and the image-tag and URL formatting.
    Every external command is replaced by its result, passed in as a value. */
module Manager {
  import opened Text

  const MaxRetries: nat := 40
  const ProgressEvery: nat := 5
  const RunningMarker: string := "Running"
  const DeploymentMarker: string := "backend-deployment"

  /** What `run_cmd` gets back from one command: its standard output; a
      non-zero exit, after which `run_cmd` calls `sys.exit(1)`; or a command
      that could not be started, whose `OSError` `run_cmd` lets through. */
  datatype Reply = Output(stdout: string) | NonZeroExit | LaunchError

  /** The lines of a captured output: `run_cmd` strips it, then it is split.
      There are none exactly when the output is all whitespace. */
  function CapturedLines(stdout: string): (lines: seq<string>)
    ensures lines == [] <==> forall i :: 0 <= i < |stdout| ==> IsSpace(stdout[i])
    ensures forall i :: 0 <= i < |lines| ==> NoBreaks(lines[i])
  {
    SplitLines(Strip(stdout))
  }

  // ---------------------------------------------------------------------------
  // Readiness of one `kubectl get pods` listing.

  /** Number of lines lacking "Running", counted from the first line on. */
  function NotReadyCount(lines: seq<string>): (n: nat)
    ensures n <= |lines|
    ensures n == 0 <==> forall i :: 0 <= i < |lines| ==> Contains(lines[i], RunningMarker)
    decreases |lines|
  {
    if lines == [] then 0
    else
      var init := lines[..|lines| - 1];
      assert forall i :: 0 <= i < |init| ==> init[i] == lines[i];
      NotReadyCount(init) + (if Contains(lines[|lines| - 1], RunningMarker) then 0 else 1)
  }

  /** `lines[1:]`: every line after the header. */
  function DataLines(lines: seq<string>): seq<string>
  {
    if lines == [] then [] else lines[1..]
  }

  /** A listing is ready when it has a line after the header and every such line says "Running". */
  ghost predicate Ready(lines: seq<string>)
  {
    |lines| > 1 && forall i :: 1 <= i < |lines| ==> Contains(lines[i], RunningMarker)
  }

  /** The counting loop of `wait_for_pods` over `lines[1:]`; the listing is
      accepted when the count is zero and there is more than one line. */
  method CountNotReady(lines: seq<string>) returns (count: nat)
    ensures count == NotReadyCount(DataLines(lines))
    ensures count == 0 && |lines| > 1 <==> Ready(lines)
  {
    var data := DataLines(lines);
    count := 0;
    var k := 0;
    while k < |data|
      invariant k <= |data|
      invariant count == NotReadyCount(data[..k])
    {
      if !Contains(data[k], RunningMarker) {
        count := count + 1;
      }
      assert data[..k + 1][..k] == data[..k];
      k := k + 1;
    }
    assert data[..k] == data;
    assert forall i :: 1 <= i < |lines| ==> lines[i] == data[i - 1];
  }

  // ---------------------------------------------------------------------------
  // The polling loop of `wait_for_pods`.

  /** How `wait_for_pods` ends. `retries` is the counter's value at the end. */
  datatype WaitOutcome =
    | AllReady(retries: nat)     // returns after the success message
    | Aborted(retries: nat)      // background failure seen: sys.exit(1)
    | QueryFailed(retries: nat)  // kubectl failed inside run_cmd: sys.exit(1)
    | LaunchFailed(retries: nat) // kubectl could not be started: the OSError escapes
    | TimedOut                   // warning, then returns normally

  /** The process exit code an outcome forces, if any: `sys.exit(1)`, or the
      interpreter's status 1 for an exception nothing catches. */
  function ExitCode(o: WaitOutcome): Option<int>
  {
    if o.TimedOut? || o.AllReady? then None else Some(1)
  }

  /** Status queries issued before the outcome. */
  function QueriesIssued(o: WaitOutcome): nat
  {
    match o
    case AllReady(r) => r + 1
    case Aborted(r) => r
    case QueryFailed(r) => r + 1
    case LaunchFailed(r) => r + 1
    case TimedOut => MaxRetries
  }

  function FinalRetries(o: WaitOutcome): nat
  {
    match o
    case AllReady(r) => r
    case Aborted(r) => r
    case QueryFailed(r) => r
    case LaunchFailed(r) => r
    case TimedOut => MaxRetries
  }

  /** The readiness test applied to one raw `kubectl get pods` output. */
  ghost predicate OutputReady(stdout: string)
  {
    Ready(CapturedLines(stdout))
  }

  /** The test inside the loop: capture and split the output, count the data
      lines lacking "Running", accept when none does and there is a data line. */
  method ListingIsReady(stdout: string) returns (ready: bool)
    ensures ready == OutputReady(stdout)
  {
    var lines := CapturedLines(stdout);
    var notReady := CountNotReady(lines);
    ready := notReady == 0 && |lines| > 1;
  }

  /** Iteration `i` neither stops nor fails: flag clear, query answered, listing
      not ready. The loop lemmas below hold for any readiness test `ready`. */
  ghost predicate Continues(reply: nat -> Reply, failed: nat -> bool, ready: string -> bool, i: nat)
  {
    !failed(i) && reply(i).Output? && !ready(reply(i).stdout)
  }

  /** The loop from a given counter value. `failed(i)` is the error slot as seen
      at the start of iteration `i`; `reply(i)` is that iteration's query result.
      The loop stops at a counter value it reaches and below 40, or times out. */
  ghost function PollFrom(reply: nat -> Reply, failed: nat -> bool, ready: string -> bool, retries: nat): (o: WaitOutcome)
    ensures o.TimedOut? || retries <= FinalRetries(o) < MaxRetries
    ensures o.TimedOut? ==> forall j :: retries <= j < MaxRetries ==> !failed(j)
    decreases MaxRetries - retries
  {
    if retries >= MaxRetries then TimedOut
    else if failed(retries) then Aborted(retries)
    else match reply(retries)
      case NonZeroExit => QueryFailed(retries)
      case LaunchError => LaunchFailed(retries)
      case Output(stdout) =>
        if ready(stdout) then AllReady(retries)
        else PollFrom(reply, failed, ready, retries + 1)
  }

  /** The whole loop: at most 40 queries, and a time-out only when the flag was
      never seen set. */
  ghost function Poll(reply: nat -> Reply, failed: nat -> bool, ready: string -> bool): (o: WaitOutcome)
    ensures QueriesIssued(o) <= MaxRetries
    ensures o.TimedOut? ==> forall j :: 0 <= j < MaxRetries ==> !failed(j)
  {
    PollFrom(reply, failed, ready, 0)
  }

  /** The counter values at which "Still waiting for pods..." is logged, up to `n`. */
  function ProgressMarks(n: nat): seq<nat>
  {
    if n == 0 then []
    else ProgressMarks(n - 1) + (if n % ProgressEvery == 0 then [n] else [])
  }

  /** `wait_for_pods`: the flag is checked before each query, at most
      `MaxRetries` queries are made, and a progress message follows every fifth retry. */
  method WaitForPods(reply: nat -> Reply, failed: nat -> bool)
    returns (outcome: WaitOutcome, queries: nat, progress: seq<nat>)
    ensures outcome == Poll(reply, failed, OutputReady)
    ensures queries == QueriesIssued(outcome)
    ensures progress == ProgressMarks(FinalRetries(outcome))
  {
    var retries: nat := 0;
    queries, progress := 0, [];
    while retries < MaxRetries
      invariant retries <= MaxRetries
      invariant forall j :: 0 <= j < retries ==> Continues(reply, failed, OutputReady, j)
      invariant queries == retries
      invariant progress == ProgressMarks(retries)
    {
      if failed(retries) {
        PollStopsAt(reply, failed, OutputReady, retries);
        return Aborted(retries), queries, progress;
      }
      var r := reply(retries);
      queries := queries + 1;
      if r.NonZeroExit? {
        PollStopsAt(reply, failed, OutputReady, retries);
        return QueryFailed(retries), queries, progress;
      }
      if r.LaunchError? {
        PollStopsAt(reply, failed, OutputReady, retries);
        return LaunchFailed(retries), queries, progress;
      }
      var ready := ListingIsReady(r.stdout);
      if ready {
        PollStopsAt(reply, failed, OutputReady, retries);
        return AllReady(retries), queries, progress;
      }
      retries := retries + 1;
      if retries % ProgressEvery == 0 {
        progress := progress + [retries];
      }
    }
    PollStopsAt(reply, failed, OutputReady, MaxRetries);
    outcome := TimedOut;
  }

  /** After `k` continuing iterations the outcome is decided from iteration `k` on. */
  lemma {:induction false} PollStopsAt(reply: nat -> Reply, failed: nat -> bool, ready: string -> bool, k: nat)
    requires k <= MaxRetries
    requires forall j :: 0 <= j < k ==> Continues(reply, failed, ready, j)
    ensures Poll(reply, failed, ready) == PollFrom(reply, failed, ready, k)
    decreases k
  {
    if k > 0 {
      PollStopsAt(reply, failed, ready, k - 1);
      assert Continues(reply, failed, ready, k - 1);
    }
  }

  /** Where the loop stops and why, from any counter value `k`: every earlier
      iteration continued, and the stopping iteration has the outcome's cause. */
  lemma {:induction false} PollFromCharacterized(reply: nat -> Reply, failed: nat -> bool, ready: string -> bool, k: nat)
    requires k <= MaxRetries
    ensures match PollFrom(reply, failed, ready, k)
      case AllReady(r) =>
        k <= r < MaxRetries && (forall j :: k <= j < r ==> Continues(reply, failed, ready, j)) &&
        !failed(r) && reply(r).Output? && ready(reply(r).stdout)
      case Aborted(r) =>
        k <= r < MaxRetries && (forall j :: k <= j < r ==> Continues(reply, failed, ready, j)) && failed(r)
      case QueryFailed(r) =>
        k <= r < MaxRetries && (forall j :: k <= j < r ==> Continues(reply, failed, ready, j)) &&
        !failed(r) && reply(r).NonZeroExit?
      case LaunchFailed(r) =>
        k <= r < MaxRetries && (forall j :: k <= j < r ==> Continues(reply, failed, ready, j)) &&
        !failed(r) && reply(r).LaunchError?
      case TimedOut =>
        forall j :: k <= j < MaxRetries ==> Continues(reply, failed, ready, j)
    decreases MaxRetries - k
  {
    if k < MaxRetries && !failed(k) && reply(k).Output? && !ready(reply(k).stdout) {
      PollFromCharacterized(reply, failed, ready, k + 1);
    }
  }

  /** The loop's stopping iteration, or `MaxRetries` when it times out. */
  lemma PollStopsAtFirstNonContinuing(reply: nat -> Reply, failed: nat -> bool, ready: string -> bool)
    ensures var o := Poll(reply, failed, ready);
      FinalRetries(o) <= MaxRetries &&
      (forall j :: 0 <= j < FinalRetries(o) ==> Continues(reply, failed, ready, j)) &&
      (o != TimedOut ==> FinalRetries(o) < MaxRetries && !Continues(reply, failed, ready, FinalRetries(o)))
      && QueriesIssued(o) <= MaxRetries
  {
    PollFromCharacterized(reply, failed, ready, 0);
  }

  /** With the flag never set and no listing ever ready, exactly `MaxRetries`
      queries are issued and the loop returns with a warning, without exiting. */
  lemma NeverReadyTimesOut(reply: nat -> Reply, failed: nat -> bool, ready: string -> bool)
    requires forall j :: 0 <= j < MaxRetries ==> Continues(reply, failed, ready, j)
    ensures Poll(reply, failed, ready) == TimedOut
    ensures QueriesIssued(Poll(reply, failed, ready)) == MaxRetries
    ensures ExitCode(Poll(reply, failed, ready)) == None
  {
    PollStopsAtFirstNonContinuing(reply, failed, ready);
  }

  /** The flag is checked before the query: once it is seen set, the loop aborts
      with exit code 1 without querying, whatever that query would have shown. */
  lemma FlagCheckedFirst(reply: nat -> Reply, failed: nat -> bool, ready: string -> bool, k: nat)
    requires k < MaxRetries && failed(k)
    requires forall j :: 0 <= j < k ==> Continues(reply, failed, ready, j)
    ensures Poll(reply, failed, ready) == Aborted(k)
    ensures QueriesIssued(Poll(reply, failed, ready)) == k
    ensures ExitCode(Poll(reply, failed, ready)) == Some(1)
  {
    PollStopsAtFirstNonContinuing(reply, failed, ready);
    PollFromCharacterized(reply, failed, ready, 0);
    assert !Continues(reply, failed, ready, k);
  }

  /** A flag set at iteration `k` stops the loop there at the latest: no query
      is made after it is seen, and the loop never times out. */
  lemma FlagStopsLoop(reply: nat -> Reply, failed: nat -> bool, ready: string -> bool, k: nat)
    requires k < MaxRetries && failed(k)
    ensures Poll(reply, failed, ready) != TimedOut
    ensures FinalRetries(Poll(reply, failed, ready)) <= k
    ensures QueriesIssued(Poll(reply, failed, ready)) <= k + (if Poll(reply, failed, ready).Aborted? then 0 else 1)
  {
    PollStopsAtFirstNonContinuing(reply, failed, ready);
    assert !Continues(reply, failed, ready, k);
  }

  /** A ready first listing ends the loop after one query with the counter at 0. */
  lemma FirstListingReady(reply: nat -> Reply, failed: nat -> bool, ready: string -> bool)
    requires !failed(0) && reply(0).Output? && ready(reply(0).stdout)
    ensures Poll(reply, failed, ready) == AllReady(0)
    ensures QueriesIssued(Poll(reply, failed, ready)) == 1
  {
  }

  /** Two not-ready listings then a ready one: success after exactly three queries. */
  lemma ReadyOnThirdQuery(reply: nat -> Reply, failed: nat -> bool, ready: string -> bool)
    requires Continues(reply, failed, ready, 0) && Continues(reply, failed, ready, 1)
    requires !failed(2) && reply(2).Output? && ready(reply(2).stdout)
    ensures Poll(reply, failed, ready) == AllReady(2)
    ensures QueriesIssued(Poll(reply, failed, ready)) == 3
  {
    assert PollFrom(reply, failed, ready, 2) == AllReady(2);
    assert PollFrom(reply, failed, ready, 1) == AllReady(2);
  }

  /** A listing printed as its lines joined by "\n", with no whitespace at
      either end, is captured as exactly those lines. */
  lemma CapturedListingLines(lines: seq<string>)
    requires lines != [] && lines[0] != [] && lines[|lines| - 1] != []
    requires !IsSpace(lines[0][0]) && !IsSpace(lines[|lines| - 1][|lines[|lines| - 1]| - 1])
    requires forall i :: 0 <= i < |lines| ==> NoBreaks(lines[i])
    ensures CapturedLines(JoinLines(lines[..|lines| - 1]) + lines[|lines| - 1]) == lines
  {
    var last := lines[|lines| - 1];
    var s := JoinLines(lines[..|lines| - 1]) + last;
    if |lines| == 1 {
      assert s == last;
    } else {
      JoinedInitCons(lines);
      assert s[0] == lines[0][0];
    }
    assert s[|s| - 1] == last[|last| - 1];
    StripByUnchanged(s, IsSpace);
    SplitJoinedRoundTrip(lines);
  }

  /** An output whose stripped text has no line boundary is one header line
      at most, so the loop never accepts it. */
  lemma HeaderOnlyNeverReady(stdout: string)
    requires NoBreaks(Strip(stdout))
    ensures |CapturedLines(stdout)| <= 1
    ensures !OutputReady(stdout)
  {
    var s := Strip(stdout);
    if s != [] {
      assert FirstBreak(s) == |s|;
    }
  }

  /** The progress message is logged at exactly the positive multiples of five. */
  lemma {:induction false} ProgressMarksExact(n: nat, x: nat)
    ensures x in ProgressMarks(n) <==> 1 <= x <= n && x % ProgressEvery == 0
  {
    if n > 0 {
      ProgressMarksExact(n - 1, x);
    }
  }

  /** One message per five retries: eight over a full timeout. */
  lemma {:induction false} ProgressMarksCount(n: nat)
    ensures |ProgressMarks(n)| == n / ProgressEvery
  {
    if n > 0 {
      ProgressMarksCount(n - 1);
    }
  }

  // ---------------------------------------------------------------------------
  // `docker-env` output parsing.

  const DockerHost: string := "DOCKER_HOST"
  const DockerTlsVerify: string := "DOCKER_TLS_VERIFY"
  const DockerCertPath: string := "DOCKER_CERT_PATH"

  /** The only variables the parser writes. */
  ghost predicate IsDockerKey(k: string)
  {
    k == DockerHost || k == DockerTlsVerify || k == DockerCertPath
  }

  /** What one output line does to the environment: nothing, an assignment, or
      an `IndexError` (a matching line without '='), which ends the parse. */
  datatype LineEffect = Skip | Assign(key: string, value: string) | Raise

  /** The variable a stripped line's `export` prefix selects, with the prefixes tried in source order. */
  function ExportKey(line: string): (k: Option<string>)
    ensures k.Some? ==> IsDockerKey(k.value) && StartsWith(line, "export " + k.value)
    ensures k.None? ==> forall key :: IsDockerKey(key) ==> !StartsWith(line, "export " + key)
  {
    if StartsWith(line, "export " + DockerHost) then Some(DockerHost)
    else if StartsWith(line, "export " + DockerTlsVerify) then Some(DockerTlsVerify)
    else if StartsWith(line, "export " + DockerCertPath) then Some(DockerCertPath)
    else None
  }

  /** One iteration of the parse loop: strip the line, pick the variable by
      prefix, take the text after the first '=' and strip blanks, then quotes. */
  function ParseEnvLine(raw: string): (e: LineEffect)
    ensures var line := Strip(raw);
      && (e.Skip? <==> ExportKey(line).None?)
      && (e.Raise? <==> ExportKey(line).Some? && '=' !in line)
      && (e.Assign? ==> ExportKey(line) == Some(e.key) && '=' in line)
      && (e.Assign? ==> e.value == [] || (!IsQuote(e.value[0]) && !IsQuote(e.value[|e.value| - 1])))
  {
    var line := Strip(raw);
    match ExportKey(line)
    case None => Skip
    case Some(key) =>
      match AfterFirst(line, '=')
      case None => Raise
      case Some(rest) => Assign(key, StripBy(Strip(rest), IsQuote))
  }

  /** The stored value is the text after the first '=' of the stripped line,
      stripped of blanks and then of quote characters. */
  lemma AssignedValue(raw: string)
    requires ParseEnvLine(raw).Assign?
    ensures var line := Strip(raw);
      exists i :: 0 <= i < |line| && line[i] == '=' && '=' !in line[..i] &&
        ParseEnvLine(raw).value == StripBy(Strip(line[i + 1..]), IsQuote)
  {
    var line := Strip(raw);
    var rest := AfterFirst(line, '=');
    assert rest.Some?;
    var i :| 0 <= i < |line| && line[i] == '=' && '=' !in line[..i] && rest.value == line[i + 1..];
  }

  /** A value between double quotes. */
  function Quoted(value: string): string
  {
    "\"" + value + "\""
  }

  /** The line `docker-env --shell bash` prints for one variable. */
  function ExportLine(key: string, value: string): string
  {
    "export " + key + "=" + Quoted(value)
  }

  /** Parsing an export line gives back its variable and value, provided the
      value does not itself begin or end with a quote. */
  lemma EnvLineRoundTrip(key: string, value: string)
    requires IsDockerKey(key)
    requires value == [] || (!IsQuote(value[0]) && !IsQuote(value[|value| - 1]))
    ensures ParseEnvLine(ExportLine(key, value)) == Assign(key, value)
  {
    var line := ExportLine(key, value);
    ExportLineStripped(key, value);
    ExportKeySelects(key, value);
    ExportLineValue(key, value);
    StripByUnchanged(Quoted(value), IsSpace);
    StripByEnclosed(value, '"', IsQuote);
    assert Quoted(value) == ['"'] + value + ['"'];
  }

  lemma ExportLineStripped(key: string, value: string)
    ensures Strip(ExportLine(key, value)) == ExportLine(key, value)
  {
    var line := ExportLine(key, value);
    assert line[0] == 'e' && line[|line| - 1] == '"';
    StripByUnchanged(line, IsSpace);
  }

  /** The `export` prefix of a line selects the variable it names. */
  lemma ExportKeySelects(key: string, value: string)
    requires IsDockerKey(key)
    ensures ExportKey(ExportLine(key, value)) == Some(key)
  {
    var prefix := "export " + key;
    var line := ExportLine(key, value);
    assert line == prefix + ("=" + Quoted(value));
    assert line[..|prefix|] == prefix;
    assert line[14] == prefix[14];
  }

  lemma ExportLineValue(key: string, value: string)
    requires IsDockerKey(key)
    ensures AfterFirst(ExportLine(key, value), '=') == Some(Quoted(value))
  {
    var prefix := "export " + key;
    assert ExportLine(key, value) == prefix + ['='] + Quoted(value);
    assert '=' !in prefix;
    AfterFirstOf(prefix, Quoted(value), '=');
  }

  /** The environment after the loop has run over `lines`, and whether it
      finished (false: an `IndexError` ended it, keeping earlier assignments). */
  function ApplyEnvLines(env: map<string, string>, lines: seq<string>): (r: (map<string, string>, bool))
    ensures env.Keys <= r.0.Keys
    ensures r.0.Keys <= env.Keys + {DockerHost, DockerTlsVerify, DockerCertPath}
    decreases |lines|
  {
    if lines == [] then (env, true)
    else
      var (e, ok) := ApplyEnvLines(env, lines[..|lines| - 1]);
      if !ok then (e, false)
      else match ParseEnvLine(lines[|lines| - 1])
        case Skip => (e, true)
        case Assign(k, v) => (e[k := v], true)
        case Raise => (e, false)
  }

  /** Only the three Docker variables can change; every other entry is kept. */
  lemma {:induction false} OnlyDockerKeysChange(env: map<string, string>, lines: seq<string>, k: string)
    requires !IsDockerKey(k)
    ensures var e := ApplyEnvLines(env, lines).0;
      (k in e <==> k in env) && (k in env ==> e[k] == env[k])
    decreases |lines|
  {
    if lines != [] {
      OnlyDockerKeysChange(env, lines[..|lines| - 1], k);
    }
  }

  /** Lines that select no variable leave the environment as it was. */
  lemma {:induction false} SkippedLinesKeepEnv(env: map<string, string>, lines: seq<string>)
    requires forall i :: 0 <= i < |lines| ==> ExportKey(Strip(lines[i])).None?
    ensures ApplyEnvLines(env, lines) == (env, true)
    decreases |lines|
  {
    if lines != [] {
      SkippedLinesKeepEnv(env, lines[..|lines| - 1]);
    }
  }

  /** An `IndexError` ends the parse: no later line has any effect. */
  lemma {:induction false} RaiseEndsParse(env: map<string, string>, lines: seq<string>, k: nat)
    requires k <= |lines| && !ApplyEnvLines(env, lines[..k]).1
    ensures ApplyEnvLines(env, lines) == ApplyEnvLines(env, lines[..k])
    decreases |lines|
  {
    if k < |lines| {
      var init := lines[..|lines| - 1];
      assert init[..k] == lines[..k];
      RaiseEndsParse(env, init, k);
    } else {
      assert lines[..k] == lines;
    }
  }

  /** A line that assigns a variable decides its final value, provided the
      parse reached it and no later line raises or assigns the same variable. */
  lemma {:induction false} LaterLineWins(env: map<string, string>, lines: seq<string>, j: nat, k: string, v: string)
    requires j < |lines| && ParseEnvLine(lines[j]) == Assign(k, v)
    requires forall i :: j < i < |lines| ==>
               !ParseEnvLine(lines[i]).Raise? && (ParseEnvLine(lines[i]).Assign? ==> ParseEnvLine(lines[i]).key != k)
    requires ApplyEnvLines(env, lines[..j]).1
    ensures ApplyEnvLines(env, lines).1 && k in ApplyEnvLines(env, lines).0 && ApplyEnvLines(env, lines).0[k] == v
    decreases |lines|
  {
    if j == |lines| - 1 {
      assert lines[..|lines| - 1] == lines[..j];
    } else {
      var init := lines[..|lines| - 1];
      assert init[..j] == lines[..j];
      assert init[j] == lines[j];
      LaterLineWins(env, init, j, k, v);
      var e := ParseEnvLine(lines[|lines| - 1]);
      assert !e.Raise? && (e.Assign? ==> e.key != k);
      assert ApplyEnvLines(env, lines) == (if e.Assign? then ApplyEnvLines(env, init).0[e.key := e.value] else ApplyEnvLines(env, init).0, true);
    }
  }

  // ---------------------------------------------------------------------------
  // Image tags, build commands and access URLs.

  const TagSuffix: string := "-service:latest"

  /** `f"{service}-service:latest"`. */
  function ImageTag(service: string): (t: string)
    ensures StartsWith(t, service) && t[|service|..] == TagSuffix
  {
    service + TagSuffix
  }

  /** `f"./{service}"`. */
  function BuildContext(service: string): (c: string)
    ensures StartsWith(c, "./") && c[2..] == service
  {
    "./" + service
  }

  function BuildCommand(service: string): seq<string>
  {
    ["docker", "build", "-t", ImageTag(service), BuildContext(service)]
  }

  /** The service a tag was made from. */
  function ServiceOfTag(tag: string): Option<string>
  {
    if |tag| >= |TagSuffix| && tag[|tag| - |TagSuffix|..] == TagSuffix
    then Some(tag[..|tag| - |TagSuffix|]) else None
  }

  /** A tag names its service back, so distinct services never share an image tag. */
  lemma TagRoundTrip(service: string)
    ensures ServiceOfTag(ImageTag(service)) == Some(service)
  {
    var t := ImageTag(service);
    assert t[|t| - |TagSuffix|..] == TagSuffix;
    assert t[..|t| - |TagSuffix|] == service;
  }

  lemma TagInjective(a: string, b: string)
    requires ImageTag(a) == ImageTag(b)
    ensures a == b
  {
    TagRoundTrip(a);
    TagRoundTrip(b);
  }

  const Placeholder: string := "<minikube-ip>"
  const UrlScheme: string := "http://"
  const IngressPortPath: string := ":32080/"

  /** `self.minikube_ip or "<minikube-ip>"`: unset and empty both fall back. */
  function DisplayHost(ip: Option<string>): (h: string)
    ensures h != []
  {
    if ip.Some? && ip.value != "" then ip.value else Placeholder
  }

  /** `f"http://{ip}:32080/"`, with a host part that is never empty. */
  function IngressUrl(ip: Option<string>): (u: string)
    ensures |u| > |UrlScheme| + |IngressPortPath|
    ensures StartsWith(u, UrlScheme) && u[|u| - |IngressPortPath|..] == IngressPortPath
  {
    UrlScheme + DisplayHost(ip) + IngressPortPath
  }

  /** The host part of an ingress URL, if it has that shape. */
  function HostOfUrl(url: string): Option<string>
  {
    if |url| >= |UrlScheme| + |IngressPortPath| && StartsWith(url, UrlScheme)
       && url[|url| - |IngressPortPath|..] == IngressPortPath
    then Some(url[|UrlScheme|..|url| - |IngressPortPath|]) else None
  }

  /** The URL carries the resolved address when there is one, the placeholder otherwise. */
  lemma IngressUrlRoundTrip(ip: Option<string>)
    ensures HostOfUrl(IngressUrl(ip)) == Some(DisplayHost(ip))
    ensures ip.Some? && ip.value != "" ==> HostOfUrl(IngressUrl(ip)) == Some(ip.value)
    ensures ip.None? || ip == Some("") ==> HostOfUrl(IngressUrl(ip)) == Some(Placeholder)
  {
    var h := DisplayHost(ip);
    var u := IngressUrl(ip);
    assert u[..|UrlScheme|] == UrlScheme;
    assert u[|u| - |IngressPortPath|..] == IngressPortPath;
    assert u[|UrlScheme|..|u| - |IngressPortPath|] == h;
  }

  /** `check_if_deployed`, as it behaves: a failing kubectl makes `run_cmd` raise
      `SystemExit`, which `except Exception` does not catch; a kubectl that
      cannot be started raises an `OSError`, which it does catch. */
  datatype DeployCheck = Deployed(found: bool) | ProcessExit(code: int)

  function CheckIfDeployed(reply: Reply): (c: DeployCheck)
    ensures reply.NonZeroExit? ==> c == ProcessExit(1)
    ensures reply.LaunchError? ==> c == Deployed(false)
    ensures reply.Output? ==> c == Deployed(Contains(reply.stdout, DeploymentMarker))
  {
    match reply
    case NonZeroExit => ProcessExit(1)
    case LaunchError => Deployed(false)
    case Output(stdout) =>
      StripKeepsContains(stdout, DeploymentMarker, IsSpace);
      Deployed(Contains(Strip(stdout), DeploymentMarker))
  }

  // ---------------------------------------------------------------------------
  // The driver object's mutable state.

  const TerraformInit: seq<string> := ["terraform", "init"]
  const TerraformApply: seq<string> := ["terraform", "apply", "-auto-approve"]

  /** The commands `build_images` runs, one per service. */
  function BuildCommands(services: seq<string>): (cmds: seq<seq<string>>)
    ensures |cmds| == |services|
    ensures forall i :: 0 <= i < |services| ==> cmds[i] == BuildCommand(services[i])
  {
    seq(|services|, i requires 0 <= i < |services| => BuildCommand(services[i]))
  }

  class InfrastructureManager {
    var env: map<string, string>
    var services: seq<string>
    /** `_terraform_error`: `None` until the background worker records a failure. */
    var terraformError: Option<int>
    var minikubeIp: Option<string>

    /** The host environment and the discovered services are inputs. */
    constructor (hostEnv: map<string, string>, discovered: seq<string>)
      ensures env == hostEnv && services == discovered
      ensures terraformError == None && minikubeIp == None
    {
      env, services := hostEnv, discovered;
      terraformError, minikubeIp := None, None;
    }

    /** `set_docker_env`: `output` is the `docker-env` output, or `None` when
        the command failed (the error is logged and nothing changes). Returns
        false when an exception ended the parse. */
    method SetDockerEnv(output: Option<string>) returns (ok: bool)
      modifies this`env
      ensures output.None? ==> env == old(env) && !ok
      ensures output.Some? ==> (env, ok) == ApplyEnvLines(old(env), SplitLines(output.value))
    {
      if output.None? {
        return false;
      }
      var lines := SplitLines(output.value);
      var k := 0;
      while k < |lines|
        invariant k <= |lines|
        invariant (env, true) == ApplyEnvLines(old(env), lines[..k])
      {
        assert lines[..k + 1][..k] == lines[..k];
        var effect := ParseEnvLine(lines[k]);
        if effect.Raise? {
          RaiseEndsParse(old(env), lines, k + 1);
          return false;
        }
        if effect.Assign? {
          env := env[effect.key := effect.value];
        }
        k := k + 1;
      }
      assert lines[..k] == lines;
      ok := true;
    }

    /** `_terraform_apply_worker`: runs init, then apply if init succeeded. A
        non-zero exit is recorded as exit code 1; a command that cannot be
        started ends the thread with the slot untouched, since only
        `SystemExit` is caught. The slot is never cleared. */
    method TerraformApplyWorker(init: Reply, apply: Reply) returns (ran: seq<seq<string>>)
      modifies this`terraformError
      ensures ran == if init.Output? then [TerraformInit, TerraformApply] else [TerraformInit]
      ensures terraformError ==
                if init.NonZeroExit? || (init.Output? && apply.NonZeroExit?) then Some(1) else old(terraformError)
      ensures old(terraformError).Some? ==> terraformError.Some?
    {
      ran := [TerraformInit];
      if init.NonZeroExit? {
        terraformError := Some(1);
        return;
      }
      if init.LaunchError? {
        return;
      }
      ran := ran + [TerraformApply];
      if apply.NonZeroExit? {
        terraformError := Some(1);
      }
    }

    /** `build_images`: one build per service in order, stopping the process at
        the first build that fails or cannot be started (`buildSucceeds` is
        false for both). Returns the commands run and whether it exited. */
    method BuildImages(buildSucceeds: string -> bool) returns (issued: seq<seq<string>>, exited: bool)
      ensures exited <==> exists i :: 0 <= i < |services| && !buildSucceeds(services[i])
      ensures !exited ==> issued == BuildCommands(services)
      ensures exited ==> exists k :: 0 <= k < |services| && !buildSucceeds(services[k]) &&
                                     (forall j :: 0 <= j < k ==> buildSucceeds(services[j])) &&
                                     issued == BuildCommands(services[..k + 1])
    {
      issued := [];
      var k := 0;
      while k < |services|
        invariant k <= |services|
        invariant forall j :: 0 <= j < k ==> buildSucceeds(services[j])
        invariant issued == BuildCommands(services[..k])
      {
        issued := issued + [BuildCommand(services[k])];
        if !buildSucceeds(services[k]) {
          return issued, true;
        }
        k := k + 1;
      }
      assert services[..k] == services;
      exited := false;
    }
  }
}
