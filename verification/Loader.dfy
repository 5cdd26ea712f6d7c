/** From the parsed fields of one job to its `JobSpec` (src/dsl/loader.rs), and what the executors rely on. */
module Loader {
  import opened Wrappers
  import opened Dsl
  import opened Text
  import opened IpRules
  import Executor

  /******* A job as it is written *******/

  datatype RawTrigger = Bool(on: bool) | Str(text: string)

  datatype RawCommand = Line(text: string) | List(argv: seq<string>)

  // One entry of `headers:` or `headerEnvs:`, in the order of the map.
  datatype Entry = Entry(key: string, value: string)

  datatype RawJob = RawJob(
    trigger: RawTrigger, ty: string,
    startDate: Option<int>, endDate: Option<int>,
    retryCount: Option<u32>, retryDelayMs: Option<nat>, ignoreFailures: Option<bool>,
    httpMethod: Option<string>, url: Option<string>,
    headers: Option<seq<Entry>>, headerEnvs: Option<seq<Entry>>,
    command: Option<RawCommand>, allowedEnvs: Option<seq<string>>)

  datatype LoadPolicy = LoadPolicy(maxFileBytes: nat, maxRetryCount: u32, blockPrivateNetworks: bool)

  // A parsed URL: its scheme and host.
  datatype Url = Url(scheme: string, host: Option<Host>)

  // What the libraries and the process environment answer: whether a cron expression parses,
  // a header name in lower case or None, whether a header value is valid, the value of an
  // environment variable, and a URL or None.
  datatype World = World(
    cronParses: string -> bool,
    headerName: string -> Option<string>,
    headerValueIsValid: string -> bool,
    env: string -> Option<string>,
    parseUrl: string -> Option<Url>)

  datatype LoadError =
    | TriggerIsTrue
    | InvalidCron(expr: string)
    | TooManyRetries(count: nat, cap: nat)
    | NoMethod | NoUrl | UnknownMethod(name: string)
    | BadUrl | BadScheme(scheme: string) | NoHost | PrivateIp(ip: IpAddr)
    | BadHeaderName(name: string) | ForbiddenHeader(name: string) | BadHeaderValue(name: string)
    | HeaderTwice(name: string) | BadEnvName(name: string) | BadEnvValue(name: string) | EnvNotSet(name: string)
    | NoCommand | EmptyCommand
    | UnknownType(ty: string)

  /******* Headers *******/

  const FORBIDDEN_HEADERS := ["host", "content-length", "transfer-encoding", "connection", "upgrade", "te", "trailer"]

  function CheckName(name: string, w: World): Result<string, LoadError> {
    match w.headerName(name)
    case None => Err(BadHeaderName(name))
    case Some(parsed) => if parsed in FORBIDDEN_HEADERS then Err(ForbiddenHeader(name)) else Ok(parsed)
  }

  predicate IsDigit(c: char) { '0' <= c <= '9' }

  predicate IsEnvName(name: string) {
    && name != "" && !IsDigit(name[0])
    && forall i :: 0 <= i < |name| ==>
         'a' <= name[i] <= 'z' || 'A' <= name[i] <= 'Z' || IsDigit(name[i]) || name[i] == '_'
  }

  predicate EnvIsUsable(name: string, w: World) {
    w.env(name).Some? && w.env(name).value != "" && w.headerValueIsValid(w.env(name).value)
  }

  function LiteralHeader(e: Entry, w: World): Result<HttpHeader, LoadError> {
    match CheckName(e.key, w)
    case Err(error) => Err(error)
    case Ok(name) =>
      if w.headerValueIsValid(e.value) then Ok(HttpHeader(name, HeaderSource.Literal(e.value)))
      else Err(BadHeaderValue(name))
  }

  predicate NameIn(name: string, out: seq<HttpHeader>) {
    exists i :: 0 <= i < |out| && out[i].name == name
  }

  function EnvHeader(e: Entry, out: seq<HttpHeader>, w: World): Result<HttpHeader, LoadError> {
    match CheckName(e.key, w)
    case Err(error) => Err(error)
    case Ok(name) =>
      if NameIn(name, out) then Err(HeaderTwice(name))
      else if !IsEnvName(e.value) then Err(BadEnvName(name))
      else if w.env(e.value).None? then Err(EnvNotSet(e.value))
      else if !EnvIsUsable(e.value, w) then Err(BadEnvValue(e.value))
      else Ok(HttpHeader(name, HeaderSource.Env(e.value)))
  }

  // The headers of the first entries of both maps, or the first error.
  function LiteralHeaders(entries: seq<Entry>, w: World): Result<seq<HttpHeader>, LoadError> {
    if entries == [] then Ok([])
    else
      match LiteralHeaders(entries[..|entries| - 1], w)
      case Err(error) => Err(error)
      case Ok(out) =>
        match LiteralHeader(entries[|entries| - 1], w)
        case Err(error) => Err(error)
        case Ok(header) => Ok(out + [header])
  }

  function Headers(literal: seq<Entry>, envs: seq<Entry>, w: World): Result<seq<HttpHeader>, LoadError> {
    if envs == [] then LiteralHeaders(literal, w)
    else
      match Headers(literal, envs[..|envs| - 1], w)
      case Err(error) => Err(error)
      case Ok(out) =>
        match EnvHeader(envs[|envs| - 1], out, w)
        case Err(error) => Err(error)
        case Ok(header) => Ok(out + [header])
  }

  lemma {:induction false} LiteralErrorSticks(entries: seq<Entry>, i: nat, w: World)
    requires i <= |entries| && LiteralHeaders(entries[..i], w).Err?
    ensures LiteralHeaders(entries, w) == LiteralHeaders(entries[..i], w)
  {
    if i == |entries| {
      assert entries[..i] == entries;
    } else {
      var front := entries[..|entries| - 1];
      assert front[..i] == entries[..i];
      LiteralErrorSticks(front, i, w);
    }
  }

  lemma {:induction false} HeaderErrorSticks(literal: seq<Entry>, envs: seq<Entry>, i: nat, w: World)
    requires i <= |envs| && Headers(literal, envs[..i], w).Err?
    ensures Headers(literal, envs, w) == Headers(literal, envs[..i], w)
  {
    if i == |envs| {
      assert envs[..i] == envs;
    } else {
      var front := envs[..|envs| - 1];
      assert front[..i] == envs[..i];
      HeaderErrorSticks(literal, front, i, w);
    }
  }

  method BuildHttpHeaders(literal: seq<Entry>, envs: seq<Entry>, w: World) returns (r: Result<seq<HttpHeader>, LoadError>)
    ensures r == Headers(literal, envs, w)
  {
    var out: seq<HttpHeader> := [];
    for i := 0 to |literal|
      invariant LiteralHeaders(literal[..i], w) == Ok(out)
    {
      assert literal[..i + 1][..i] == literal[..i];
      match LiteralHeader(literal[i], w) {
        case Ok(header) => out := out + [header];
        case Err(error) =>
          LiteralErrorSticks(literal, i + 1, w);
          HeaderErrorSticks(literal, envs, 0, w);
          return Err(error);
      }
    }
    assert literal[..|literal|] == literal && envs[..0] == [];
    for i := 0 to |envs|
      invariant Headers(literal, envs[..i], w) == Ok(out)
    {
      assert envs[..i + 1][..i] == envs[..i];
      match EnvHeader(envs[i], out, w) {
        case Ok(header) => out := out + [header];
        case Err(error) =>
          HeaderErrorSticks(literal, envs, i + 1, w);
          return Err(error);
      }
    }
    assert envs[..|envs|] == envs;
    r := Ok(out);
  }

  // What each map asks for, whether or not it is allowed.
  function Wanted(literal: seq<Entry>, envs: seq<Entry>, w: World): seq<Option<string>> {
    seq(|literal| + |envs|, i requires 0 <= i < |literal| + |envs| =>
      w.headerName(if i < |literal| then literal[i].key else envs[i - |literal|].key))
  }

  // The headers that may be sent: no bad or forbidden name, valid values, usable variables,
  // and no name of `headerEnvs` a second time anywhere.
  ghost predicate HeadersAllowed(literal: seq<Entry>, envs: seq<Entry>, w: World) {
    var names := Wanted(literal, envs, w);
    && (forall i :: 0 <= i < |names| ==> names[i].Some? && names[i].value !in FORBIDDEN_HEADERS)
    && (forall i :: 0 <= i < |literal| ==> w.headerValueIsValid(literal[i].value))
    && (forall i :: 0 <= i < |envs| ==> IsEnvName(envs[i].value) && EnvIsUsable(envs[i].value, w))
    && (forall i, j :: 0 <= i < j < |names| && |literal| <= j ==> names[i] != names[j])
  }

  // The header at each place comes from the entry at that place.
  ghost predicate Matches(literal: seq<Entry>, envs: seq<Entry>, w: World, out: seq<HttpHeader>) {
    && |out| == |literal| + |envs|
    && forall i :: 0 <= i < |out| ==>
         && Some(out[i].name) == Wanted(literal, envs, w)[i]
         && out[i].source ==
            if i < |literal| then HeaderSource.Literal(literal[i].value) else HeaderSource.Env(envs[i - |literal|].value)
  }

  ghost predicate NameAllowed(name: Option<string>) {
    name.Some? && name.value !in FORBIDDEN_HEADERS
  }

  lemma LiteralsAllowedMore(literal: seq<Entry>, last: Entry, w: World)
    ensures Wanted(literal + [last], [], w) == Wanted(literal, [], w) + [w.headerName(last.key)]
    ensures HeadersAllowed(literal + [last], [], w) <==>
      HeadersAllowed(literal, [], w) && NameAllowed(w.headerName(last.key)) && w.headerValueIsValid(last.value)
  {
    var all, names := literal + [last], Wanted(literal + [last], [], w);
    assert names == Wanted(literal, [], w) + [w.headerName(last.key)];
    assert all[|literal|] == last && names[|literal|] == w.headerName(last.key);
    assert forall i :: 0 <= i < |literal| ==> all[i] == literal[i] && names[i] == Wanted(literal, [], w)[i];
  }

  lemma AllowedMore(literal: seq<Entry>, envs: seq<Entry>, last: Entry, w: World)
    ensures Wanted(literal, envs + [last], w) == Wanted(literal, envs, w) + [w.headerName(last.key)]
    ensures HeadersAllowed(literal, envs + [last], w) <==>
      && HeadersAllowed(literal, envs, w) && NameAllowed(w.headerName(last.key))
      && IsEnvName(last.value) && EnvIsUsable(last.value, w) && w.headerName(last.key) !in Wanted(literal, envs, w)
  {
    var all, before, names := envs + [last], Wanted(literal, envs, w), Wanted(literal, envs + [last], w);
    assert names == before + [w.headerName(last.key)];
    assert all[|envs|] == last && names[|before|] == w.headerName(last.key);
    assert forall i :: 0 <= i < |envs| ==> all[i] == envs[i];
    assert forall i :: 0 <= i < |before| ==> names[i] == before[i];
  }

  lemma {:induction false} LiteralsAreExact(literal: seq<Entry>, w: World)
    ensures LiteralHeaders(literal, w).Ok? <==> HeadersAllowed(literal, [], w)
    ensures LiteralHeaders(literal, w).Ok? ==> Matches(literal, [], w, LiteralHeaders(literal, w).value)
  {
    if literal != [] {
      var front, last := literal[..|literal| - 1], literal[|literal| - 1];
      assert literal == front + [last];
      LiteralsAreExact(front, w);
      LiteralsAllowedMore(front, last, w);
    }
  }

  // The headers are built exactly when they are allowed, and then they are what both maps
  // say, literals first.
  lemma {:induction false} HeadersAreExact(literal: seq<Entry>, envs: seq<Entry>, w: World)
    ensures Headers(literal, envs, w).Ok? <==> HeadersAllowed(literal, envs, w)
    ensures Headers(literal, envs, w).Ok? ==> Matches(literal, envs, w, Headers(literal, envs, w).value)
  {
    if envs == [] {
      LiteralsAreExact(literal, w);
    } else {
      var front, last := envs[..|envs| - 1], envs[|envs| - 1];
      assert envs == front + [last];
      HeadersAreExact(literal, front, w);
      AllowedMore(literal, front, last, w);
      if Headers(literal, front, w).Ok? {
        if w.headerName(last.key).Some? {
          NamesAreWanted(literal, front, w, Headers(literal, front, w).value, w.headerName(last.key));
        }
      }
    }
  }

  lemma NamesAreWanted(literal: seq<Entry>, envs: seq<Entry>, w: World, out: seq<HttpHeader>, name: Option<string>)
    requires Matches(literal, envs, w, out) && name.Some?
    ensures NameIn(name.value, out) <==> name in Wanted(literal, envs, w)
  {
    var names := Wanted(literal, envs, w);
    assert forall i :: 0 <= i < |out| ==> (out[i].name == name.value <==> names[i] == name);
  }

  // So no forbidden header is sent, and one whose value is a secret is sent once only.
  lemma HeadersAreSafe(literal: seq<Entry>, envs: seq<Entry>, w: World)
    requires Headers(literal, envs, w).Ok?
    ensures var out := Headers(literal, envs, w).value;
      && (forall i :: 0 <= i < |out| ==> out[i].name !in FORBIDDEN_HEADERS)
      && (forall i, j :: 0 <= i < |out| && 0 <= j < |out| && i != j && out[j].source.Env? ==> out[i].name != out[j].name)
  {
    HeadersAreExact(literal, envs, w);
    var out := Headers(literal, envs, w).value;
    assert forall j :: 0 <= j < |out| && out[j].source.Env? ==> j >= |literal|;
  }

  /******* The whole job *******/

  const KNOWN_METHODS := ["GET", "POST", "PUT", "DELETE", "PATCH", "HEAD", "OPTIONS"]

  function NormaliseTrigger(raw: RawTrigger): Result<Trigger, LoadError> {
    match raw
    case Bool(on) => if on then Err(TriggerIsTrue) else Ok(Manual)
    case Str(text) => if AsciiLower(text) in ["off", "false", "no", "disabled"] then Ok(Manual) else Ok(Cron(text))
  }

  function IntoArgv(command: RawCommand): Result<seq<string>, LoadError> {
    var argv := match command case Line(text) => Words(text) case List(v) => v;
    if argv == [] || argv[0] == "" then Err(EmptyCommand) else Ok(argv)
  }

  function ValidateHttpUrl(url: string, policy: LoadPolicy, w: World): Result<(), LoadError> {
    match w.parseUrl(url)
    case None => Err(BadUrl)
    case Some(parsed) =>
      if parsed.scheme != "http" && parsed.scheme != "https" then Err(BadScheme(parsed.scheme))
      else
        match parsed.host
        case None => Err(NoHost)
        case Some(host) =>
          if policy.blockPrivateNetworks && host.Literal? && IsPrivateOrLocal(host.ip) then Err(PrivateIp(host.ip))
          else Ok(())
  }

  function OrElse<T>(o: Option<T>, default: T): T {
    if o.Some? then o.value else default
  }

  function HttpKind(raw: RawJob, policy: LoadPolicy, w: World): Result<JobKind, LoadError> {
    match raw.httpMethod
    case None => Err(NoMethod)
    case Some(name) =>
      match raw.url
      case None => Err(NoUrl)
      case Some(url) =>
        if AsciiUpper(name) !in KNOWN_METHODS then Err(UnknownMethod(name))
        else
          match ValidateHttpUrl(url, policy, w)
          case Err(error) => Err(error)
          case Ok(_) =>
            match Headers(OrElse(raw.headers, []), OrElse(raw.headerEnvs, []), w)
            case Err(error) => Err(error)
            case Ok(headers) => Ok(Http(name, url, headers))
  }

  function ExecKind(raw: RawJob): Result<JobKind, LoadError> {
    match raw.command
    case None => Err(NoCommand)
    case Some(command) =>
      match IntoArgv(command)
      case Err(error) => Err(error)
      case Ok(argv) => Ok(Exec(argv, OrElse(raw.allowedEnvs, [])))
  }

  function IntoSpec(raw: RawJob, key: JobKey, policy: LoadPolicy, w: World): Result<JobSpec, LoadError> {
    match NormaliseTrigger(raw.trigger)
    case Err(error) => Err(error)
    case Ok(trigger) =>
      if trigger.Cron? && !w.cronParses(trigger.expr) then Err(InvalidCron(trigger.expr))
      else
        var count := OrElse(raw.retryCount, 0);
        if count > policy.maxRetryCount then Err(TooManyRetries(count, policy.maxRetryCount))
        else
          var kind :=
            if raw.ty == "http" then HttpKind(raw, policy, w)
            else if raw.ty == "exec" then ExecKind(raw)
            else Err(UnknownType(raw.ty));
          match kind
          case Err(error) => Err(error)
          case Ok(k) =>
            Ok(JobSpec(key, trigger, TimeWindow(raw.startDate, raw.endDate),
              RetryPolicy(count, OrElse(raw.retryDelayMs, 1000), OrElse(raw.ignoreFailures, false)), k))
  }

  // A job that may be loaded, in no particular order of its parts.
  ghost predicate Acceptable(raw: RawJob, policy: LoadPolicy, w: World) {
    && raw.trigger != Bool(true)
    && (IsScheduled(raw.trigger) ==> w.cronParses(raw.trigger.text))
    && (raw.retryCount.Some? ==> raw.retryCount.value <= policy.maxRetryCount)
    && (AcceptableHttp(raw, policy, w) || AcceptableExec(raw))
  }

  predicate IsScheduled(t: RawTrigger) {
    t.Str? && AsciiLower(t.text) !in ["off", "false", "no", "disabled"]
  }

  ghost predicate AcceptableHttp(raw: RawJob, policy: LoadPolicy, w: World) {
    && raw.ty == "http"
    && raw.httpMethod.Some? && AsciiUpper(raw.httpMethod.value) in KNOWN_METHODS
    && raw.url.Some? && MayFetch(w.parseUrl(raw.url.value), policy)
    && HeadersAllowed(OrElse(raw.headers, []), OrElse(raw.headerEnvs, []), w)
  }

  predicate MayFetch(url: Option<Url>, policy: LoadPolicy) {
    && url.Some? && url.value.scheme in ["http", "https"]
    && url.value.host.Some? && LoadAdmits(url.value.host.value, policy.blockPrivateNetworks)
  }

  ghost predicate AcceptableExec(raw: RawJob) {
    && raw.ty == "exec" && raw.command.Some?
    && match raw.command.value
       case Line(text) => Words(text) != []
       case List(argv) => argv != [] && argv[0] != ""
  }

  // The kind that the fields of a job ask for.
  ghost predicate IsKindOf(kind: JobKind, raw: RawJob, w: World) {
    match kind
    case Http(name, url, headers) =>
      && raw.ty == "http" && raw.httpMethod == Some(name) && raw.url == Some(url)
      && Matches(OrElse(raw.headers, []), OrElse(raw.headerEnvs, []), w, headers)
    case Exec(argv, allowedEnvs) =>
      && raw.ty == "exec" && allowedEnvs == OrElse(raw.allowedEnvs, [])
      && (raw.command == Some(List(argv))
          || (raw.command.Some? && raw.command.value.Line? && argv == Words(raw.command.value.text)))
  }

  lemma HttpKindIsExact(raw: RawJob, policy: LoadPolicy, w: World)
    requires raw.ty == "http"
    ensures HttpKind(raw, policy, w).Ok? <==> AcceptableHttp(raw, policy, w)
    ensures HttpKind(raw, policy, w).Ok? ==> IsKindOf(HttpKind(raw, policy, w).value, raw, w)
  {
    HeadersAreExact(OrElse(raw.headers, []), OrElse(raw.headerEnvs, []), w);
  }

  lemma ExecKindIsExact(raw: RawJob, w: World)
    requires raw.ty == "exec"
    ensures ExecKind(raw).Ok? <==> AcceptableExec(raw)
    ensures ExecKind(raw).Ok? ==> IsKindOf(ExecKind(raw).value, raw, w)
  {
    if raw.command.Some? && raw.command.value.Line? {
      WordsAreWords(raw.command.value.text);
      assert Words(raw.command.value.text) != [] ==> IsWord(Words(raw.command.value.text)[0]);
    }
  }

  // A job loads exactly when it is acceptable, and then its spec says what its fields say:
  // no retries, a second between them, and failures that count, unless they say otherwise.
  lemma SpecIsExact(raw: RawJob, key: JobKey, policy: LoadPolicy, w: World)
    ensures IntoSpec(raw, key, policy, w).Ok? <==> Acceptable(raw, policy, w)
    ensures IntoSpec(raw, key, policy, w).Ok? ==>
      var spec := IntoSpec(raw, key, policy, w).value;
      && spec.key == key && IsKindOf(spec.kind, raw, w)
      && spec.trigger == (if IsScheduled(raw.trigger) then Cron(raw.trigger.text) else Manual)
      && spec.window == TimeWindow(raw.startDate, raw.endDate)
      && spec.retry.count == (if raw.retryCount.Some? then raw.retryCount.value else 0)
      && spec.retry.delayMs == (if raw.retryDelayMs.Some? then raw.retryDelayMs.value else 1000)
      && (spec.retry.ignoreFailures <==> raw.ignoreFailures == Some(true))
  {
    if raw.ty == "http" {
      HttpKindIsExact(raw, policy, w);
    } else if raw.ty == "exec" {
      ExecKindIsExact(raw, w);
    }
  }

  /******* What the executors rely on *******/

  // The shell executor's first step: the program and its arguments.
  function ProgramOf(argv: seq<string>): Option<(string, seq<string>)> {
    if argv == [] then None else Some((argv[0], argv[1..]))
  }

  ghost predicate IsAscii(s: string) {
    forall i :: 0 <= i < |s| ==> s[i] < 128 as char
  }

  // `upper` is the Unicode upper case, of which only ASCII text is known.
  ghost predicate ExtendsAsciiUpper(upper: string -> string) {
    forall s :: IsAscii(s) ==> upper(s) == AsciiUpper(s)
  }

  // The loader tests the method in ASCII upper case and the executor sends it in Unicode
  // upper case; a method that passes the test is the same in both.
  lemma KnownMethodStaysKnown(name: string, upper: string -> string)
    requires AsciiUpper(name) in KNOWN_METHODS && ExtendsAsciiUpper(upper)
    ensures upper(name) == AsciiUpper(name) && upper(name) in KNOWN_METHODS
  {
    var known := AsciiUpper(name);
    assert forall k, i :: 0 <= k < |KNOWN_METHODS| && 0 <= i < |KNOWN_METHODS[k]| ==> 'A' <= KNOWN_METHODS[k][i] <= 'Z';
    forall i | 0 <= i < |name|
      ensures name[i] < 128 as char
    {
      assert known[i] == ToAsciiUpper(name[i]);
    }
    assert IsAscii(name);
  }

  // What the executors would otherwise refuse: there is a program to start, the method is
  // known, the URL is an http one whose literal address may be used, no header is forbidden
  // and none with a secret is sent twice, and the attempts do not wrap around.
  ghost predicate Runs(spec: JobSpec, policy: LoadPolicy, w: World, upper: string -> string) {
    && spec.retry.count <= policy.maxRetryCount
    && (policy.maxRetryCount < U32_MAX ==> Executor.MaxAttempts(spec) == spec.retry.count + 1)
    && match spec.kind {
         case Exec(argv, _) => ProgramOf(argv).Some? && ProgramOf(argv).value.0 != ""
         case Http(name, url, headers) =>
           && upper(name) in KNOWN_METHODS
           && w.parseUrl(url).Some? && w.parseUrl(url).value.scheme in ["http", "https"]
           && w.parseUrl(url).value.host.Some?
           && LoadAdmits(w.parseUrl(url).value.host.value, policy.blockPrivateNetworks)
           && (forall i :: 0 <= i < |headers| ==> headers[i].name !in FORBIDDEN_HEADERS)
           && (forall i, j :: 0 <= i < |headers| && 0 <= j < |headers| && i != j && headers[j].source.Env? ==>
                 headers[i].name != headers[j].name)
       }
  }

  // Nothing an executor refuses can come out of the loader.
  lemma LoadedSpecsRun(raw: RawJob, key: JobKey, policy: LoadPolicy, w: World, upper: string -> string)
    requires IntoSpec(raw, key, policy, w).Ok? && ExtendsAsciiUpper(upper)
    ensures var spec := IntoSpec(raw, key, policy, w).value;
      spec.key == key && Runs(spec, policy, w, upper)
  {
    var spec := IntoSpec(raw, key, policy, w).value;
    if raw.ty == "http" {
      KnownMethodStaysKnown(spec.kind.httpMethod, upper);
      HeadersAreSafe(OrElse(raw.headers, []), OrElse(raw.headerEnvs, []), w);
    }
  }

  // `exec_command_display`.
  function ExecCommandDisplay(kind: JobKind): Option<string> {
    if kind.Exec? then Some(Join(kind.argv)) else None
  }

  // A command written as one line loads exactly when it holds a word, and reading its display
  // again gives the same argv.
  lemma CommandLineRoundTrip(text: string, allowedEnvs: seq<string>)
    ensures IntoArgv(Line(text)) == if Words(text) == [] then Err(EmptyCommand) else Ok(Words(text))
    ensures IntoArgv(Line(text)).Ok? ==>
      var display := ExecCommandDisplay(Exec(IntoArgv(Line(text)).value, allowedEnvs)).value;
      IntoArgv(Line(display)) == IntoArgv(Line(text))
    ensures AllWords(Words(text))
  {
    WordsAreWords(text);
    JoinIsReversible(Words(text));
  }

  // A command written as a list loads unless its program is missing; its display can be read
  // back exactly when every argument is a word.
  lemma CommandListRoundTrip(argv: seq<string>, allowedEnvs: seq<string>)
    ensures IntoArgv(List(argv)).Ok? <==> argv != [] && argv[0] != ""
    ensures IntoArgv(List(argv)).Ok? ==>
      var display := ExecCommandDisplay(Exec(argv, allowedEnvs)).value;
      (IntoArgv(Line(display)) == IntoArgv(List(argv)) <==> AllWords(argv))
  {
    JoinIsReversible(argv);
  }

  ghost predicate AllDistinct<T>(xs: seq<T>) {
    forall i, j :: 0 <= i < j < |xs| ==> xs[i] != xs[j]
  }

  function NamesOf(out: seq<HttpHeader>): seq<string> {
    seq(|out|, i requires 0 <= i < |out| => out[i].name)
  }

  // Literal headers are not compared with each other. The headers of a job that loads have
  // different names exactly when its literal keys stand for different names.
  lemma NamesAreDistinct(literal: seq<Entry>, envs: seq<Entry>, w: World)
    requires Headers(literal, envs, w).Ok?
    ensures AllDistinct(NamesOf(Headers(literal, envs, w).value)) <==>
      forall i, j :: 0 <= i < j < |literal| ==> w.headerName(literal[i].key) != w.headerName(literal[j].key)
  {
    HeadersAreExact(literal, envs, w);
    var out, names := Headers(literal, envs, w).value, Wanted(literal, envs, w);
    assert forall i :: 0 <= i < |out| ==> Some(NamesOf(out)[i]) == names[i];
    assert forall i :: 0 <= i < |literal| ==> names[i] == w.headerName(literal[i].key);
    assert AllDistinct(NamesOf(out)) ==> forall i, j :: 0 <= i < j < |literal| ==> NamesOf(out)[i] != NamesOf(out)[j];
  }

  // So two keys that differ in case load, and make one name twice.
  lemma LiteralsMayCollide(w: World, value: string)
    requires w.headerName("X-A") == w.headerName("x-a") == Some("x-a") && w.headerValueIsValid(value)
    ensures var r := Headers([Entry("X-A", value), Entry("x-a", value)], [], w);
      r.Ok? && |r.value| == 2 && r.value[0].name == r.value[1].name
  {
    var literal := [Entry("X-A", value), Entry("x-a", value)];
    assert Wanted(literal, [], w) == [Some("x-a"), Some("x-a")];
    HeadersAreExact(literal, [], w);
  }

  /******* One file *******/

  // The jobs of a file in the order of their names, or None when it cannot be read or parsed.
  datatype FileContent = FileContent(size: nat, jobs: Option<seq<(string, RawJob)>>)

  datatype FileError = TooBig | Unreadable | BadJob(name: string, error: LoadError)

  // Every job of the first entries, or the error of the first job that is refused.
  function Specs(jobs: seq<(string, RawJob)>, group: string, policy: LoadPolicy, w: World): Result<seq<JobSpec>, FileError> {
    if jobs == [] then Ok([])
    else
      match Specs(jobs[..|jobs| - 1], group, policy, w)
      case Err(error) => Err(error)
      case Ok(out) =>
        var (name, raw) := jobs[|jobs| - 1];
        match IntoSpec(raw, JobKey(group, name), policy, w)
        case Err(error) => Err(BadJob(name, error))
        case Ok(spec) => Ok(out + [spec])
  }

  function LoadedFile(file: FileContent, group: string, policy: LoadPolicy, w: World): Result<seq<JobSpec>, FileError> {
    if file.size > policy.maxFileBytes then Err(TooBig)
    else if file.jobs.None? then Err(Unreadable)
    else Specs(file.jobs.value, group, policy, w)
  }

  lemma {:induction false} SpecsErrorSticks(jobs: seq<(string, RawJob)>, i: nat, group: string, policy: LoadPolicy, w: World)
    requires i <= |jobs| && Specs(jobs[..i], group, policy, w).Err?
    ensures Specs(jobs, group, policy, w) == Specs(jobs[..i], group, policy, w)
  {
    if i == |jobs| {
      assert jobs[..i] == jobs;
    } else {
      var front := jobs[..|jobs| - 1];
      assert front[..i] == jobs[..i];
      SpecsErrorSticks(front, i, group, policy, w);
    }
  }

  method LoadFile(file: FileContent, group: string, policy: LoadPolicy, w: World) returns (r: Result<seq<JobSpec>, FileError>)
    ensures r == LoadedFile(file, group, policy, w)
  {
    if file.size > policy.maxFileBytes {
      return Err(TooBig);
    }
    if file.jobs.None? {
      return Err(Unreadable);
    }
    var jobs := file.jobs.value;
    var out: seq<JobSpec> := [];
    for i := 0 to |jobs|
      invariant Specs(jobs[..i], group, policy, w) == Ok(out)
    {
      assert jobs[..i + 1][..i] == jobs[..i];
      match IntoSpec(jobs[i].1, JobKey(group, jobs[i].0), policy, w) {
        case Ok(spec) => out := out + [spec];
        case Err(error) =>
          SpecsErrorSticks(jobs, i + 1, group, policy, w);
          return Err(BadJob(jobs[i].0, error));
      }
    }
    assert jobs[..|jobs|] == jobs;
    r := Ok(out);
  }

  // All or nothing: a file loads exactly when each of its jobs does, and then gives one spec
  // per job under its own name.
  lemma {:induction false} FilesAreAllOrNothing(jobs: seq<(string, RawJob)>, group: string, policy: LoadPolicy, w: World)
    ensures var r := Specs(jobs, group, policy, w);
      && (r.Ok? <==> forall i :: 0 <= i < |jobs| ==> IntoSpec(jobs[i].1, JobKey(group, jobs[i].0), policy, w).Ok?)
      && (r.Ok? ==> |r.value| == |jobs| && forall i :: 0 <= i < |jobs| ==>
           Ok(r.value[i]) == IntoSpec(jobs[i].1, JobKey(group, jobs[i].0), policy, w))
  {
    if jobs != [] {
      var front := jobs[..|jobs| - 1];
      FilesAreAllOrNothing(front, group, policy, w);
      assert forall i :: 0 <= i < |front| ==> front[i] == jobs[i];
    }
  }

  // The error of a file names the first job that is refused.
  lemma {:induction false} FirstBadJobIsNamed(jobs: seq<(string, RawJob)>, group: string, policy: LoadPolicy, w: World)
    requires Specs(jobs, group, policy, w).Err?
    ensures var error := Specs(jobs, group, policy, w).error;
      error.BadJob? && exists i ::
        && 0 <= i < |jobs| && error.name == jobs[i].0
        && IntoSpec(jobs[i].1, JobKey(group, jobs[i].0), policy, w) == Err(error.error)
        && forall j :: 0 <= j < i ==> IntoSpec(jobs[j].1, JobKey(group, jobs[j].0), policy, w).Ok?
  {
    var front := jobs[..|jobs| - 1];
    assert forall i :: 0 <= i < |front| ==> front[i] == jobs[i];
    if Specs(front, group, policy, w).Err? {
      FirstBadJobIsNamed(front, group, policy, w);
    } else {
      FilesAreAllOrNothing(front, group, policy, w);
      var last := jobs[|jobs| - 1];
      assert IntoSpec(last.1, JobKey(group, last.0), policy, w).Err?;
    }
  }

  lemma {:induction false} FileSpecsRun(jobs: seq<(string, RawJob)>, group: string, policy: LoadPolicy, w: World, upper: string -> string)
    requires Specs(jobs, group, policy, w).Ok? && ExtendsAsciiUpper(upper)
    ensures forall spec :: spec in Specs(jobs, group, policy, w).value ==> Runs(spec, policy, w, upper) && spec.key.group == group
  {
    if jobs != [] {
      var (name, raw) := jobs[|jobs| - 1];
      FileSpecsRun(jobs[..|jobs| - 1], group, policy, w, upper);
      LoadedSpecsRun(raw, JobKey(group, name), policy, w, upper);
    }
  }
}
