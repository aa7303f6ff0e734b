/** The action as a whole (entrypoint.py, main): the checks made before any
    command runs, packaging, the registry login and the push, and the report
    of success. A run is a trace of the observable events and an outcome.
    What the helm runs do is given by an `Oracle`, and what the file system
    holds by a `FileSystem`. */
module Entrypoint {
  import opened Outcomes
  import opened Text
  import opened Inputs
  import opened Registry
  import opened Packaging
  import opened Commands

  /** The line appended to the workflow's output file after a push. */
  const STATUS_LINE: string := "push-status=success\n"
  /** The confirmation printed on standard output at the end of a run. */
  const DONE: string := "Helm chart pushed successfully."
  /** The user name of token mode when no user name is given. */
  const TOKEN_USER: string := "AWS"

  /** Everything main reads from the environment. */
  datatype Config = Config(
    registryUrl: string,
    chartFolder: string,
    force: bool,
    plainHttp: bool,
    workspace: string,
    accessToken: string,
    username: string,
    password: string,
    githubOutput: string)

  /** The inputs as main reads them: the four first inputs with their
      defaults, the workspace with "." for a missing variable, the three
      credential inputs, and the output file ("" for none). */
  function ReadConfig(env: Env): (cfg: Config)
    ensures cfg.registryUrl == GetInput(env, "registry-url", "")
    ensures cfg.chartFolder == GetInput(env, "chart-folder", "chart")
    ensures cfg.force == Flag(GetInput(env, "force", "false"))
    ensures cfg.plainHttp == Flag(GetInput(env, "plain-http", "false"))
    ensures cfg.accessToken == GetInput(env, "access-token", "")
    ensures cfg.username == GetInput(env, "username", "")
    ensures cfg.password == GetInput(env, "password", "")
    ensures IsStripped(cfg.registryUrl) && IsStripped(cfg.chartFolder)
    ensures IsStripped(cfg.accessToken) && IsStripped(cfg.username) && IsStripped(cfg.password)
    ensures Lookup(env, UnderscoreKey("chart-folder")) == "" && Lookup(env, HyphenKey("chart-folder")) == "" ==>
              cfg.chartFolder == "chart"
    ensures Lookup(env, UnderscoreKey("force")) == "" && Lookup(env, HyphenKey("force")) == "" ==> !cfg.force
    ensures "GITHUB_WORKSPACE" in env ==> cfg.workspace == env["GITHUB_WORKSPACE"]
    ensures "GITHUB_WORKSPACE" !in env ==> cfg.workspace == "."
    ensures cfg.githubOutput != "" ==> "GITHUB_OUTPUT" in env && cfg.githubOutput == env["GITHUB_OUTPUT"]
    ensures "GITHUB_OUTPUT" in env && env["GITHUB_OUTPUT"] != "" ==> cfg.githubOutput == env["GITHUB_OUTPUT"]
  {
    ChartFolderDefault(env);
    ForceDefault(env);
    Config(
      GetInput(env, "registry-url", ""),
      GetInput(env, "chart-folder", "chart"),
      Flag(GetInput(env, "force", "false")),
      Flag(GetInput(env, "plain-http", "false")),
      EnvGet(env, "GITHUB_WORKSPACE", "."),
      GetInput(env, "access-token", ""),
      GetInput(env, "username", ""),
      GetInput(env, "password", ""),
      Lookup(env, "GITHUB_OUTPUT"))
  }

  /** The path of the chart, as main joins it: an absolute chart folder is
      the path; otherwise the folder follows the workspace. */
  function ChartPath(cfg: Config): (path: string)
    ensures EndsWith(path, cfg.chartFolder)
    ensures StartsWith(cfg.chartFolder, "/") ==> path == cfg.chartFolder
    ensures !StartsWith(cfg.chartFolder, "/") ==> StartsWith(path, cfg.workspace)
  {
    JoinPath(cfg.workspace, cfg.chartFolder)
  }

  /** The user name and password the login uses. */
  datatype Credentials = Credentials(username: string, password: string)

  /** The credential mode: an access token is the password, with the user
      name given or else "AWS"; without a token both the user name and the
      password must be given. */
  function SelectCredentials(token: string, username: string, password: string): (r: Result<Credentials>)
    ensures r.Ok? ==> r.value.username != "" && r.value.password != ""
    ensures r.Fail? <==> token == "" && (username == "" || password == "")
    ensures r.Fail? ==> r.why == MissingCredentials
    ensures token != "" ==> r.Ok? && r.value.password == token
    ensures token != "" && username != "" ==> r.Ok? && r.value.username == username
    ensures token != "" && username == "" ==> r == Ok(Credentials(TOKEN_USER, token))
    ensures token == "" && r.Ok? ==> r.value == Credentials(username, password)
  {
    if token != "" then
      Ok(Credentials(if username != "" then username else TOKEN_USER, token))
    else if username == "" || password == "" then
      Fail(MissingCredentials)
    else
      Ok(Credentials(username, password))
  }

  /** What the checks of main see of the file system: the paths that exist
      and those that are directories. */
  datatype FileSystem = FileSystem(present: set<string>, dirs: set<string>)

  /** The results of the external commands: the packaging run, and whether
      the login and the push exit with status 0. */
  datatype Oracle = Oracle(package: PackageRun, loginSucceeds: bool, pushSucceeds: bool)

  /** The observable effects of a run, in order: a command run, a text
      appended to a file, a line printed on standard output. */
  datatype Event = Exec(cmd: Command) | AppendOutput(path: string, text: string) | Say(text: string)

  /** How a run ends: exit status 0, or exit status 1 for a reason. */
  datatype Outcome = Success | Exit1(why: Failure)

  datatype Run = Run(trace: seq<Event>, outcome: Outcome)

  /** The checks main makes before any command runs, in its order. */
  function Validate(cfg: Config, fs: FileSystem): (r: Result<Credentials>)
    ensures r == Fail(MissingRegistryUrl) <==> cfg.registryUrl == ""
    ensures r == Fail(ChartNotFound) <==> cfg.registryUrl != "" && ChartPath(cfg) !in fs.present
    ensures r.Fail? ==> r.why in {MissingRegistryUrl, ChartNotFound, MissingCredentials}
    ensures r.Ok? ==> cfg.registryUrl != "" && ChartPath(cfg) in fs.present &&
                      r == SelectCredentials(cfg.accessToken, cfg.username, cfg.password)
    ensures cfg.registryUrl != "" && ChartPath(cfg) in fs.present ==>
              r == SelectCredentials(cfg.accessToken, cfg.username, cfg.password)
  {
    if cfg.registryUrl == "" then Fail(MissingRegistryUrl)
    else if ChartPath(cfg) !in fs.present then Fail(ChartNotFound)
    else SelectCredentials(cfg.accessToken, cfg.username, cfg.password)
  }

  /** The events of the chart step and the archive it leaves to push. */
  datatype Prepared = Prepared(trace: seq<Event>, chart: Result<string>)

  /** A directory is packaged; a path ending in ".tgz" is pushed as it is;
      anything else ends the run. */
  function PrepareChart(cfg: Config, fs: FileSystem, package: PackageRun): (p: Prepared)
    ensures |p.trace| <= 1 && (p.trace != [] <==> ChartPath(cfg) in fs.dirs)
    ensures forall i :: 0 <= i < |p.trace| ==> p.trace[i] == Exec(PackageCommand(ChartPath(cfg), cfg.workspace))
    ensures ChartPath(cfg) in fs.dirs ==> p.chart == ResolveArchive(package)
    ensures ChartPath(cfg) !in fs.dirs ==>
              (p.chart.Ok? <==> EndsWith(ChartPath(cfg), ".tgz")) && (p.chart.Ok? ==> p.chart.value == ChartPath(cfg))
    ensures p.chart.Fail? ==> p.chart.why in {NotAChart, PackageFailed, NoArchive}
  {
    var chartPath := ChartPath(cfg);
    if chartPath in fs.dirs then
      Prepared([Exec(PackageCommand(chartPath, cfg.workspace))], ResolveArchive(package))
    else if EndsWith(chartPath, ".tgz") then Prepared([], Ok(chartPath))
    else Prepared([], Fail(NotAChart))
  }

  /** What a successful run reports: the status line when there is an output
      file, then the confirmation. */
  function Report(githubOutput: string): (r: seq<Event>)
    ensures |r| == (if githubOutput != "" then 2 else 1) && r[|r| - 1] == Say(DONE)
    ensures AppendOutput(githubOutput, STATUS_LINE) in r <==> githubOutput != ""
    ensures forall i :: 0 <= i < |r| ==> !r[i].Exec?
  {
    (if githubOutput != "" then [AppendOutput(githubOutput, STATUS_LINE)] else []) + [Say(DONE)]
  }

  /** The registry host, then the session with it. */
  function Publish(cfg: Config, creds: Credentials, chart: string, oracle: Oracle): (pub: Run)
    ensures pub.trace == [] <==> GetRegistryHost(cfg.registryUrl).Fail?
    ensures pub.trace == [] ==> pub.outcome == Exit1(InvalidRegistryUrl)
  {
    match GetRegistryHost(cfg.registryUrl) {
      case Fail(why) => Run([], Exit1(why))
      case Ok(host) => Session(host, cfg, creds, chart, oracle)
    }
  }

  /** The login, then the push, then the report; a failing command ends the
      run. */
  function Session(host: string, cfg: Config, creds: Credentials, chart: string, oracle: Oracle): (s: Run)
    ensures |s.trace| >= 1 && s.trace[0] == Exec(LoginCommand(host, creds.username, creds.password, cfg.plainHttp))
    ensures !oracle.loginSucceeds ==> s == Run(s.trace[..1], Exit1(LoginFailed))
    ensures oracle.loginSucceeds ==>
              |s.trace| >= 2 && s.trace[1] == Exec(PushCommand(chart, cfg.registryUrl, cfg.force, cfg.plainHttp))
    ensures oracle.loginSucceeds && !oracle.pushSucceeds ==> s == Run(s.trace[..2], Exit1(PushFailed))
    ensures s.outcome == Success <==> oracle.loginSucceeds && oracle.pushSucceeds
    ensures s.outcome == Success ==> s.trace[2..] == Report(cfg.githubOutput)
  {
    var login := Exec(LoginCommand(host, creds.username, creds.password, cfg.plainHttp));
    if !oracle.loginSucceeds then Run([login], Exit1(LoginFailed))
    else
      var push := Exec(PushCommand(chart, cfg.registryUrl, cfg.force, cfg.plainHttp));
      if !oracle.pushSucceeds then Run([login, push], Exit1(PushFailed))
      else Run([login, push] + Report(cfg.githubOutput), Success)
  }

  /** main, given its configuration, the file system and the results of the
      commands it runs. */
  function Entrypoint(cfg: Config, fs: FileSystem, oracle: Oracle): (run: Run)
    ensures |run.trace| <= 5
    ensures run.outcome == Success ==> |run.trace| >= 3 && run.trace[|run.trace| - 1] == Say(DONE)
  {
    match Validate(cfg, fs) {
      case Fail(why) => Run([], Exit1(why))
      case Ok(creds) =>
        var prep := PrepareChart(cfg, fs, oracle.package);
        match prep.chart {
          case Fail(why) => Run(prep.trace, Exit1(why))
          case Ok(chart) =>
            var pub := Publish(cfg, creds, chart, oracle);
            Run(prep.trace + pub.trace, pub.outcome)
        }
    }
  }

  /** main step by step: each check may end the run, in main's order. The
      inputs are read first; reading them has no effect, so the order of
      the reads is not observable. */
  method RunAction(env: Env, fs: FileSystem, oracle: Oracle) returns (run: Run)
    ensures run == Entrypoint(ReadConfig(env), fs, oracle)
  {
    var cfg := ReadConfig(env);
    run := MainSteps(cfg, fs, oracle);
  }

  /** The steps of main once its inputs are read. */
  method MainSteps(cfg: Config, fs: FileSystem, oracle: Oracle) returns (run: Run)
    ensures run == Entrypoint(cfg, fs, oracle)
  {
    if cfg.registryUrl == "" {
      return Run([], Exit1(MissingRegistryUrl));
    }
    var chartPath := ChartPath(cfg);
    if chartPath !in fs.present {
      return Run([], Exit1(ChartNotFound));
    }

    var username: string, password: string;
    if cfg.accessToken != "" {
      username := cfg.username;
      if username == "" {
        username := TOKEN_USER;
      }
      password := cfg.accessToken;
    } else {
      username := cfg.username;
      password := cfg.password;
      if username == "" || password == "" {
        assert Validate(cfg, fs) == Fail(MissingCredentials);
        return Run([], Exit1(MissingCredentials));
      }
    }
    assert Validate(cfg, fs) == Ok(Credentials(username, password));

    var trace: seq<Event> := [];
    if chartPath in fs.dirs {
      trace := trace + [Exec(PackageCommand(chartPath, cfg.workspace))];
      var archive := PackageChart(oracle.package);
      if archive.Fail? {
        assert PrepareChart(cfg, fs, oracle.package) == Prepared(trace, archive);
        return Run(trace, Exit1(archive.why));
      }
      chartPath := archive.value;
    } else if !EndsWith(chartPath, ".tgz") {
      assert PrepareChart(cfg, fs, oracle.package) == Prepared([], Fail(NotAChart));
      return Run(trace, Exit1(NotAChart));
    }
    assert PrepareChart(cfg, fs, oracle.package) == Prepared(trace, Ok(chartPath));

    var pub := LoginAndPush(cfg, Credentials(username, password), chartPath, oracle);
    run := Run(trace + pub.trace, pub.outcome);
  }

  /** The end of main: the registry host, the login vector and the push
      vector grown by appending, and the report. */
  method LoginAndPush(cfg: Config, creds: Credentials, chart: string, oracle: Oracle) returns (pub: Run)
    ensures pub == Publish(cfg, creds, chart, oracle)
  {
    var host := GetRegistryHost(cfg.registryUrl);
    if host.Fail? {
      assert Publish(cfg, creds, chart, oracle) == Run([], Exit1(host.why));
      return Run([], Exit1(host.why));
    }

    var loginArgv := ["helm", "registry", "login", host.value, "--username", creds.username, "--password-stdin"];
    if cfg.plainHttp {
      loginArgv := loginArgv + [PLAIN_HTTP];
    }
    assert loginArgv == LoginArgv(host.value, creds.username, cfg.plainHttp);
    var login := Exec(Command(loginArgv, Some(creds.password), None));
    if !oracle.loginSucceeds {
      assert Publish(cfg, creds, chart, oracle) == Run([login], Exit1(LoginFailed));
      return Run([login], Exit1(LoginFailed));
    }

    var pushArgv := ["helm", "push", chart, cfg.registryUrl];
    if cfg.force {
      pushArgv := pushArgv + [FORCE];
    }
    if cfg.plainHttp {
      pushArgv := pushArgv + [PLAIN_HTTP];
    }
    assert pushArgv == PushArgv(chart, cfg.registryUrl, cfg.force, cfg.plainHttp);
    var push := Exec(Command(pushArgv, None, None));
    if !oracle.pushSucceeds {
      assert Publish(cfg, creds, chart, oracle) == Run([login, push], Exit1(PushFailed));
      return Run([login, push], Exit1(PushFailed));
    }

    var report: seq<Event> := [];
    if cfg.githubOutput != "" {
      report := [AppendOutput(cfg.githubOutput, STATUS_LINE)];
    }
    assert Report(cfg.githubOutput) == report + [Say(DONE)];
    report := report + [Say(DONE)];
    assert Publish(cfg, creds, chart, oracle) == Run([login, push] + report, Success);
    pub := Run([login, push] + report, Success);
  }

  // ---------------------------------------------------------------------
  // Properties

  /** A helm command with the given leading words. */
  predicate RunsHelm(e: Event, words: seq<string>) {
    e.Exec? && |words| <= |e.cmd.argv| && e.cmd.argv[..|words|] == words
  }

  predicate IsLogin(e: Event) {
    RunsHelm(e, ["helm", "registry", "login"])
  }

  predicate IsPush(e: Event) {
    RunsHelm(e, ["helm", "push"])
  }

  /** The three commands are told apart by their leading words. */
  lemma CommandKinds(chartPath: string, workspace: string, host: string, username: string, password: string,
                     chart: string, registryUrl: string, force: bool, plainHttp: bool)
    ensures var package := Exec(PackageCommand(chartPath, workspace));
            !IsLogin(package) && !IsPush(package)
    ensures var login := Exec(LoginCommand(host, username, password, plainHttp));
            IsLogin(login) && !IsPush(login)
    ensures var push := Exec(PushCommand(chart, registryUrl, force, plainHttp));
            IsPush(push) && !IsLogin(push)
  {
    assert "package"[1] != "push"[1] && "package"[0] != "registry"[0];
    assert "registry"[0] != "push"[0];
    var login := LoginArgv(host, username, plainHttp);
    assert login[..3] == LoginBase(host, username)[..3] == ["helm", "registry", "login"];
    assert login[..2] != ["helm", "push"] by { assert login[1] == "registry"; }
    var push := PushArgv(chart, registryUrl, force, plainHttp);
    assert push[..2] == PushBase(chart, registryUrl)[..2] == ["helm", "push"];
    assert push[1] == "push";
  }

  /** No event of the trace is a push. */
  predicate NoPush(trace: seq<Event>) {
    forall i :: 0 <= i < |trace| ==> !IsPush(trace[i])
  }

  /** Every push of the trace comes right after a login. */
  predicate PushFollowsLogin(trace: seq<Event>) {
    forall i :: 0 <= i < |trace| && IsPush(trace[i]) ==> 0 < i && IsLogin(trace[i - 1])
  }

  /** No event of the trace writes the output file. */
  predicate NoAppend(trace: seq<Event>) {
    forall i :: 0 <= i < |trace| ==> !trace[i].AppendOutput?
  }

  /** Every write of the output file in the trace is the status line. */
  predicate AppendsStatus(trace: seq<Event>, githubOutput: string) {
    forall i :: 0 <= i < |trace| && trace[i].AppendOutput? ==>
      trace[i] == AppendOutput(githubOutput, STATUS_LINE)
  }

  lemma PushFollowsLoginAppend(a: seq<Event>, b: seq<Event>)
    requires NoPush(a) && PushFollowsLogin(b)
    ensures PushFollowsLogin(a + b)
  {
    var t := a + b;
    forall i | 0 <= i < |t| && IsPush(t[i]) ensures 0 < i && IsLogin(t[i - 1]) {
      if i >= |a| {
        assert t[i] == b[i - |a|];
        assert t[i - 1] == b[i - 1 - |a|];
      }
    }
  }

  lemma NoPushAppend(a: seq<Event>, b: seq<Event>)
    requires NoPush(a) && NoPush(b)
    ensures NoPush(a + b)
  {
    var t := a + b;
    forall i | 0 <= i < |t| ensures !IsPush(t[i]) {
      if i < |a| {
        assert t[i] == a[i];
      } else {
        assert t[i] == b[i - |a|];
      }
    }
  }

  lemma AppendsStatusAppend(a: seq<Event>, b: seq<Event>, githubOutput: string)
    requires NoAppend(a) && AppendsStatus(b, githubOutput)
    ensures AppendsStatus(a + b, githubOutput)
    ensures NoAppend(b) ==> NoAppend(a + b)
  {
    var t := a + b;
    forall i | 0 <= i < |t| ensures t[i] == if i < |a| then a[i] else b[i - |a|] {
    }
  }

  /** The chart step runs at most `helm package`. */
  lemma PreparingRunsNoSession(cfg: Config, fs: FileSystem, package: PackageRun)
    ensures var prep := PrepareChart(cfg, fs, package);
            NoPush(prep.trace) && NoAppend(prep.trace) &&
            forall i :: 0 <= i < |prep.trace| ==> prep.trace[i] == Exec(PackageCommand(ChartPath(cfg), cfg.workspace))
  {
    CommandKinds(ChartPath(cfg), cfg.workspace, "", "", "", "", "", false, false);
  }

  /** The session in the order of main: a push only after a login that
      succeeded, the status line only after a push that succeeded. */
  lemma SessionOrder(host: string, cfg: Config, creds: Credentials, chart: string, oracle: Oracle)
    ensures var s := Session(host, cfg, creds, chart, oracle);
            PushFollowsLogin(s.trace) && (!oracle.loginSucceeds ==> NoPush(s.trace)) &&
            AppendsStatus(s.trace, cfg.githubOutput) &&
            (s.outcome != Success ==> NoAppend(s.trace))
  {
    var s := Session(host, cfg, creds, chart, oracle);
    CommandKinds("", "", host, creds.username, creds.password, chart, cfg.registryUrl, cfg.force, cfg.plainHttp);
    forall i | 2 <= i < |s.trace| ensures !s.trace[i].Exec? {
      assert s.trace[i] == Report(cfg.githubOutput)[i - 2];
    }
  }

  /** The end of main has the same order. */
  lemma PublishOrder(cfg: Config, creds: Credentials, chart: string, oracle: Oracle)
    ensures var pub := Publish(cfg, creds, chart, oracle);
            PushFollowsLogin(pub.trace) && (!oracle.loginSucceeds ==> NoPush(pub.trace)) &&
            AppendsStatus(pub.trace, cfg.githubOutput) &&
            (pub.outcome != Success ==> NoAppend(pub.trace))
  {
    var host := GetRegistryHost(cfg.registryUrl);
    if host.Ok? {
      SessionOrder(host.value, cfg, creds, chart, oracle);
    }
  }

  /** The failures of the end of main are its own three, and success needs
      a login and a push that succeed. */
  lemma PublishOutcome(cfg: Config, creds: Credentials, chart: string, oracle: Oracle)
    ensures var pub := Publish(cfg, creds, chart, oracle);
            (pub.outcome.Exit1? ==> pub.outcome.why in {InvalidRegistryUrl, LoginFailed, PushFailed}) &&
            (pub.outcome == Success <==>
               GetRegistryHost(cfg.registryUrl).Ok? && oracle.loginSucceeds && oracle.pushSucceeds)
  {
    var host := GetRegistryHost(cfg.registryUrl);
    if host.Fail? {
      assert host.why == InvalidRegistryUrl;
    }
  }

  /** The checks before packaging end a run with an empty trace, and each
      failure comes from its own check: a missing registry URL first, then a
      missing chart, then missing credentials. */
  lemma ChecksPrecedeCommands(cfg: Config, fs: FileSystem, oracle: Oracle)
    ensures var run := Entrypoint(cfg, fs, oracle);
            (run.outcome == Exit1(MissingRegistryUrl) <==> cfg.registryUrl == "") &&
            (run.outcome == Exit1(ChartNotFound) <==>
               cfg.registryUrl != "" && ChartPath(cfg) !in fs.present) &&
            (run.outcome == Exit1(MissingCredentials) <==>
               cfg.registryUrl != "" && ChartPath(cfg) in fs.present &&
               cfg.accessToken == "" && (cfg.username == "" || cfg.password == "")) &&
            (Validate(cfg, fs).Fail? ==> run.trace == [])
  {
    match Validate(cfg, fs) {
      case Fail(_) =>
      case Ok(creds) =>
        var prep := PrepareChart(cfg, fs, oracle.package);
        if prep.chart.Ok? {
          PublishOutcome(cfg, creds, prep.chart.value, oracle);
        }
    }
  }

  /** The chart kind is checked after the credentials and before any
      command: a chart that is neither a directory nor a ".tgz" name ends
      the run with nothing run. */
  lemma ChartKindChecked(cfg: Config, fs: FileSystem, oracle: Oracle)
    ensures var run := Entrypoint(cfg, fs, oracle);
            run.outcome == Exit1(NotAChart) <==>
              Validate(cfg, fs).Ok? && ChartPath(cfg) !in fs.dirs && !EndsWith(ChartPath(cfg), ".tgz")
    ensures var run := Entrypoint(cfg, fs, oracle);
            run.outcome == Exit1(NotAChart) ==> run.trace == []
  {
    match Validate(cfg, fs) {
      case Fail(_) =>
      case Ok(creds) =>
        var prep := PrepareChart(cfg, fs, oracle.package);
        if prep.chart.Ok? {
          PublishOutcome(cfg, creds, prep.chart.value, oracle);
        }
    }
  }

  /** The host is parsed only after packaging: a registry URL without a
      network location fails after `helm package` has run. */
  lemma BadUrlFailsAfterPackaging(cfg: Config, fs: FileSystem, oracle: Oracle)
    requires Validate(cfg, fs).Ok? && ChartPath(cfg) in fs.dirs
    requires ResolveArchive(oracle.package).Ok?
    requires GetRegistryHost(cfg.registryUrl).Fail?
    ensures Entrypoint(cfg, fs, oracle) ==
              Run([Exec(PackageCommand(ChartPath(cfg), cfg.workspace))], Exit1(InvalidRegistryUrl))
  {
  }

  /** Push is issued only right after a login, and never when the login
      failed. */
  lemma PushOnlyAfterLogin(cfg: Config, fs: FileSystem, oracle: Oracle)
    ensures var trace := Entrypoint(cfg, fs, oracle).trace;
            PushFollowsLogin(trace) && (!oracle.loginSucceeds ==> NoPush(trace))
  {
    match Validate(cfg, fs) {
      case Fail(_) =>
      case Ok(creds) =>
        var prep := PrepareChart(cfg, fs, oracle.package);
        PreparingRunsNoSession(cfg, fs, oracle.package);
        if prep.chart.Ok? {
          var pub := Publish(cfg, creds, prep.chart.value, oracle);
          PublishOrder(cfg, creds, prep.chart.value, oracle);
          PushFollowsLoginAppend(prep.trace, pub.trace);
          if !oracle.loginSucceeds {
            NoPushAppend(prep.trace, pub.trace);
          }
        }
    }
  }

  /** The output file is written only with the status line and only in a
      successful run, and a successful run with an output file writes it. */
  lemma StatusOnlyOnSuccess(cfg: Config, fs: FileSystem, oracle: Oracle)
    ensures var run := Entrypoint(cfg, fs, oracle);
            AppendsStatus(run.trace, cfg.githubOutput) &&
            (run.outcome != Success ==> NoAppend(run.trace))
    ensures var run := Entrypoint(cfg, fs, oracle);
            run.outcome == Success && cfg.githubOutput != "" ==>
              AppendOutput(cfg.githubOutput, STATUS_LINE) in run.trace
  {
    var run := Entrypoint(cfg, fs, oracle);
    match Validate(cfg, fs) {
      case Fail(_) =>
      case Ok(creds) =>
        var prep := PrepareChart(cfg, fs, oracle.package);
        PreparingRunsNoSession(cfg, fs, oracle.package);
        if prep.chart.Ok? {
          var pub := Publish(cfg, creds, prep.chart.value, oracle);
          PublishOrder(cfg, creds, prep.chart.value, oracle);
          AppendsStatusAppend(prep.trace, pub.trace, cfg.githubOutput);
          if run.outcome == Success && cfg.githubOutput != "" {
            SuccessfulPublish(cfg, creds, prep.chart.value, oracle);
            assert run.trace[|prep.trace| + 2] == pub.trace[2];
          }
        }
    }
  }

  /** A successful end of main is the login, the push and the report. */
  lemma SuccessfulPublish(cfg: Config, creds: Credentials, chart: string, oracle: Oracle)
    requires Publish(cfg, creds, chart, oracle).outcome == Success
    ensures GetRegistryHost(cfg.registryUrl).Ok?
    ensures Publish(cfg, creds, chart, oracle).trace ==
              [Exec(LoginCommand(GetRegistryHost(cfg.registryUrl).value, creds.username, creds.password, cfg.plainHttp)),
               Exec(PushCommand(chart, cfg.registryUrl, cfg.force, cfg.plainHttp))] +
              Report(cfg.githubOutput)
  {
  }

  /** A run succeeds exactly when every check passes, the chart step leaves
      an archive, the host is found, and login and push succeed; its trace
      is then the chart step, the login, the push and the report. */
  lemma SuccessfulRun(cfg: Config, fs: FileSystem, oracle: Oracle)
    ensures var run := Entrypoint(cfg, fs, oracle);
            var prep := PrepareChart(cfg, fs, oracle.package);
            run.outcome == Success <==>
              Validate(cfg, fs).Ok? && prep.chart.Ok? && GetRegistryHost(cfg.registryUrl).Ok? &&
              oracle.loginSucceeds && oracle.pushSucceeds
    ensures var run := Entrypoint(cfg, fs, oracle);
            var prep := PrepareChart(cfg, fs, oracle.package);
            run.outcome == Success ==>
              Validate(cfg, fs).Ok? && prep.chart.Ok? && GetRegistryHost(cfg.registryUrl).Ok? &&
              var creds := Validate(cfg, fs).value;
              run.trace == prep.trace +
                ([Exec(LoginCommand(GetRegistryHost(cfg.registryUrl).value, creds.username, creds.password, cfg.plainHttp)),
                  Exec(PushCommand(prep.chart.value, cfg.registryUrl, cfg.force, cfg.plainHttp))] +
                 Report(cfg.githubOutput))
  {
    match Validate(cfg, fs) {
      case Fail(_) =>
      case Ok(creds) =>
        var prep := PrepareChart(cfg, fs, oracle.package);
        if prep.chart.Ok? {
          PublishOutcome(cfg, creds, prep.chart.value, oracle);
          if oracle.loginSucceeds && oracle.pushSucceeds && GetRegistryHost(cfg.registryUrl).Ok? {
            SuccessfulPublish(cfg, creds, prep.chart.value, oracle);
          }
        }
    }
  }

  /** A trace with the standard input of every command dropped. */
  function Redact(trace: seq<Event>): (r: seq<Event>)
    ensures |r| == |trace|
    ensures forall i :: 0 <= i < |trace| ==>
              r[i] == if trace[i].Exec? then Exec(trace[i].cmd.(stdin := None)) else trace[i]
  {
    if trace == [] then []
    else [if trace[0].Exec? then Exec(trace[0].cmd.(stdin := None)) else trace[0]] + Redact(trace[1..])
  }

  lemma {:induction false} RedactAppend(a: seq<Event>, b: seq<Event>)
    ensures Redact(a + b) == Redact(a) + Redact(b)
  {
    if a != [] {
      assert (a + b)[1..] == a[1..] + b;
      RedactAppend(a[1..], b);
    }
  }

  /** Two sessions whose login passwords differ differ only on standard
      input. */
  lemma SessionRedacted(host: string, cfg: Config, cfg': Config, creds: Credentials, creds': Credentials,
                        chart: string, oracle: Oracle)
    requires creds.username == creds'.username
    requires cfg' == cfg.(accessToken := cfg'.accessToken, password := cfg'.password)
    ensures var s, s' := Session(host, cfg, creds, chart, oracle), Session(host, cfg', creds', chart, oracle);
            Redact(s.trace) == Redact(s'.trace) && s.outcome == s'.outcome
  {
    var login := Exec(LoginCommand(host, creds.username, creds.password, cfg.plainHttp));
    var login' := Exec(LoginCommand(host, creds'.username, creds'.password, cfg'.plainHttp));
    var rest := AfterLogin(cfg, chart, oracle);
    SessionSplits(host, cfg, creds, chart, oracle);
    SessionSplits(host, cfg', creds', chart, oracle);
    assert AfterLogin(cfg', chart, oracle) == rest;
    RedactAppend([login], rest);
    RedactAppend([login'], rest);
    assert Redact([login]) == Redact([login']);
  }

  /** The events of a session after its login. */
  function AfterLogin(cfg: Config, chart: string, oracle: Oracle): seq<Event> {
    if !oracle.loginSucceeds then []
    else
      var push := Exec(PushCommand(chart, cfg.registryUrl, cfg.force, cfg.plainHttp));
      if !oracle.pushSucceeds then [push] else [push] + Report(cfg.githubOutput)
  }

  lemma SessionSplits(host: string, cfg: Config, creds: Credentials, chart: string, oracle: Oracle)
    ensures Session(host, cfg, creds, chart, oracle).trace ==
              [Exec(LoginCommand(host, creds.username, creds.password, cfg.plainHttp))] + AfterLogin(cfg, chart, oracle)
  {
  }

  /** The secret is sent on standard input only: two runs whose token and
      password differ, but are given or missing alike, issue the same
      commands with the same arguments and end alike. */
  lemma SecretOnlyOnStdin(cfg: Config, fs: FileSystem, oracle: Oracle, token: string, password: string)
    requires (token == "") == (cfg.accessToken == "") && (password == "") == (cfg.password == "")
    ensures var other := cfg.(accessToken := token, password := password);
            var run, run' := Entrypoint(cfg, fs, oracle), Entrypoint(other, fs, oracle);
            Redact(run.trace) == Redact(run'.trace) && run.outcome == run'.outcome
  {
    var other := cfg.(accessToken := token, password := password);
    var v, v' := Validate(cfg, fs), Validate(other, fs);
    assert v.Ok? <==> v'.Ok?;
    assert PrepareChart(cfg, fs, oracle.package) == PrepareChart(other, fs, oracle.package);
    if v.Ok? {
      assert v.value.username == v'.value.username;
      var prep := PrepareChart(cfg, fs, oracle.package);
      if prep.chart.Ok? {
        var host := GetRegistryHost(cfg.registryUrl);
        if host.Ok? {
          SessionRedacted(host.value, cfg, other, v.value, v'.value, prep.chart.value, oracle);
        }
        RedactAppend(prep.trace, Publish(cfg, v.value, prep.chart.value, oracle).trace);
        RedactAppend(prep.trace, Publish(other, v'.value, prep.chart.value, oracle).trace);
      }
    }
  }

  /** Every login of a run uses the host of the registry URL and the
      selected credentials, the password on standard input. */
  predicate LogsInWith(trace: seq<Event>, host: string, username: string, password: string, plainHttp: bool) {
    forall i :: 0 <= i < |trace| && IsLogin(trace[i]) ==>
      trace[i] == Exec(LoginCommand(host, username, password, plainHttp))
  }

  lemma RunLogsInWithSelected(cfg: Config, fs: FileSystem, oracle: Oracle)
    ensures var trace := Entrypoint(cfg, fs, oracle).trace;
            (exists i :: 0 <= i < |trace| && IsLogin(trace[i])) ==>
              Validate(cfg, fs).Ok? && GetRegistryHost(cfg.registryUrl).Ok? &&
              var creds := Validate(cfg, fs).value;
              LogsInWith(trace, GetRegistryHost(cfg.registryUrl).value, creds.username, creds.password, cfg.plainHttp)
  {
    var trace := Entrypoint(cfg, fs, oracle).trace;
    match Validate(cfg, fs) {
      case Fail(_) =>
      case Ok(creds) =>
        var prep := PrepareChart(cfg, fs, oracle.package);
        PreparingRunsNoSession(cfg, fs, oracle.package);
        CommandKinds(ChartPath(cfg), cfg.workspace, "", "", "", "", "", false, false);
        if prep.chart.Ok? {
          var host := GetRegistryHost(cfg.registryUrl);
          if host.Ok? {
            var s := Session(host.value, cfg, creds, prep.chart.value, oracle);
            SessionLogsIn(host.value, cfg, creds, prep.chart.value, oracle);
            assert trace == prep.trace + s.trace;
            forall i | 0 <= i < |trace| && IsLogin(trace[i])
              ensures trace[i] == Exec(LoginCommand(host.value, creds.username, creds.password, cfg.plainHttp))
            {
              if i >= |prep.trace| {
                assert trace[i] == s.trace[i - |prep.trace|];
              }
            }
          } else {
            assert trace == prep.trace;
            forall i | 0 <= i < |trace| ensures !IsLogin(trace[i]) {
              assert trace[i] == Exec(PackageCommand(ChartPath(cfg), cfg.workspace));
            }
          }
        } else {
          forall i | 0 <= i < |trace| ensures !IsLogin(trace[i]) {
            assert trace[i] == Exec(PackageCommand(ChartPath(cfg), cfg.workspace));
          }
        }
    }
  }

  lemma SessionLogsIn(host: string, cfg: Config, creds: Credentials, chart: string, oracle: Oracle)
    ensures LogsInWith(Session(host, cfg, creds, chart, oracle).trace, host, creds.username, creds.password, cfg.plainHttp)
  {
    var s := Session(host, cfg, creds, chart, oracle);
    CommandKinds("", "", host, creds.username, creds.password, chart, cfg.registryUrl, cfg.force, cfg.plainHttp);
    forall i | 0 < i < |s.trace| ensures !IsLogin(s.trace[i]) {
      if i >= 2 {
        assert s.trace[i] == Report(cfg.githubOutput)[i - 2];
      }
    }
  }

  /** In token mode without a user name every login is as "AWS" with the
      token on standard input. */
  lemma TokenModeLogsInAsAws(cfg: Config, fs: FileSystem, oracle: Oracle)
    requires cfg.accessToken != "" && cfg.username == ""
    ensures var trace := Entrypoint(cfg, fs, oracle).trace;
            (exists i :: 0 <= i < |trace| && IsLogin(trace[i])) ==>
              GetRegistryHost(cfg.registryUrl).Ok? &&
              LogsInWith(trace, GetRegistryHost(cfg.registryUrl).value, TOKEN_USER, cfg.accessToken, cfg.plainHttp)
  {
    RunLogsInWithSelected(cfg, fs, oracle);
  }

  /** A failing login or push ends the run after that command: the
      failing login is the last event, and a failing push comes
      right after its login. */
  lemma FailedCommandEndsRun(cfg: Config, fs: FileSystem, oracle: Oracle)
    requires Validate(cfg, fs).Ok? && PrepareChart(cfg, fs, oracle.package).chart.Ok?
    requires GetRegistryHost(cfg.registryUrl).Ok?
    ensures var prep, creds, host := PrepareChart(cfg, fs, oracle.package), Validate(cfg, fs).value,
                                     GetRegistryHost(cfg.registryUrl).value;
            var login := Exec(LoginCommand(host, creds.username, creds.password, cfg.plainHttp));
            var push := Exec(PushCommand(prep.chart.value, cfg.registryUrl, cfg.force, cfg.plainHttp));
            (!oracle.loginSucceeds ==> Entrypoint(cfg, fs, oracle) == Run(prep.trace + [login], Exit1(LoginFailed))) &&
            (oracle.loginSucceeds && !oracle.pushSucceeds ==>
               Entrypoint(cfg, fs, oracle) == Run(prep.trace + [login, push], Exit1(PushFailed)))
  {
  }
}
