/** The helm commands the action runs (entrypoint.py, _package_chart and
    main): their argument vectors, what is written to their standard input,
    and the directory they run in. */
module Commands {
  import opened Outcomes
  import opened Text

  /** One subprocess.run call: the argument vector, the bytes sent on
      standard input (as text), and the working directory (None: the
      action's own). */
  datatype Command = Command(argv: seq<string>, stdin: Option<string>, cwd: Option<string>)

  const FORCE: string := "--force"
  const PLAIN_HTTP: string := "--plain-http"

  /** The fixed start of the login command, up to and including the request
      to read the password from standard input. */
  function LoginBase(host: string, username: string): seq<string> {
    ["helm", "registry", "login", host, "--username", username, "--password-stdin"]
  }

  /** The fixed start of the push command: the chart and the registry URL. */
  function PushBase(chart: string, registryUrl: string): seq<string> {
    ["helm", "push", chart, registryUrl]
  }

  /** `helm package <chart path>`, run in the workspace. */
  function PackageCommand(chartPath: string, workspace: string): (c: Command)
    ensures |c.argv| == 3 && c.argv[..2] == ["helm", "package"] && c.argv[2] == chartPath
    ensures c.stdin == None && c.cwd == Some(workspace)
  {
    Command(["helm", "package", chartPath], None, Some(workspace))
  }

  /** The login argument vector: the fixed start, then "--plain-http"
      exactly when plain HTTP is asked for. */
  function LoginArgv(host: string, username: string, plainHttp: bool): (argv: seq<string>)
    ensures |argv| == 7 + (if plainHttp then 1 else 0)
    ensures argv[..7] == LoginBase(host, username)
    ensures PLAIN_HTTP in argv[7..] <==> plainHttp
    ensures forall k :: 7 <= k < |argv| ==> argv[k] == PLAIN_HTTP
  {
    LoginBase(host, username) + (if plainHttp then [PLAIN_HTTP] else [])
  }

  /** The push argument vector: the fixed start with the registry URL as
      given, then "--force" exactly when forced, then "--plain-http" exactly
      when plain HTTP is asked for. */
  function PushArgv(chart: string, registryUrl: string, force: bool, plainHttp: bool): (argv: seq<string>)
    ensures |argv| == 4 + (if force then 1 else 0) + (if plainHttp then 1 else 0)
    ensures argv[..4] == PushBase(chart, registryUrl)
    ensures force ==> argv[4] == FORCE
    ensures FORCE in argv[4..] <==> force
    ensures PLAIN_HTTP in argv[4..] <==> plainHttp
    ensures forall k :: 4 <= k < |argv| ==> argv[k] in {FORCE, PLAIN_HTTP}
  {
    assert FORCE[2] != PLAIN_HTTP[2];
    var forced := PushBase(chart, registryUrl) + (if force then [FORCE] else []);
    var argv := forced + (if plainHttp then [PLAIN_HTTP] else []);
    assert argv[4..] == (if force then [FORCE] else []) + (if plainHttp then [PLAIN_HTTP] else []);
    argv
  }

  /** `helm registry login`: the password goes to standard input only. */
  function LoginCommand(host: string, username: string, password: string, plainHttp: bool): (c: Command)
    ensures c.argv == LoginArgv(host, username, plainHttp)
    ensures c.stdin == Some(password) && c.cwd == None
  {
    Command(LoginArgv(host, username, plainHttp), Some(password), None)
  }

  /** `helm push`: the action writes nothing to its standard input (the
      push inherits the action's own). */
  function PushCommand(chart: string, registryUrl: string, force: bool, plainHttp: bool): (c: Command)
    ensures c.argv == PushArgv(chart, registryUrl, force, plainHttp)
    ensures c.stdin == None && c.cwd == None
  {
    Command(PushArgv(chart, registryUrl, force, plainHttp), None, None)
  }

  // ---------------------------------------------------------------------
  // Properties

  /** No word of the login arguments is anything but a fixed word, the host
      or the user name: a password different from all of those is not among
      them. */
  lemma LoginArgvOmitsPassword(host: string, username: string, password: string, plainHttp: bool)
    requires password !in {"helm", "registry", "login", "--username", "--password-stdin", PLAIN_HTTP}
    requires password != host && password != username
    ensures password !in LoginArgv(host, username, plainHttp)
  {
    var argv := LoginArgv(host, username, plainHttp);
    forall k | 0 <= k < |argv| ensures argv[k] != password {
      if k < 7 {
        assert argv[k] == argv[..7][k];
      }
    }
  }

  /** The order of the optional push flags: "--force" comes before
      "--plain-http", and whichever flag is set last ends the vector. */
  lemma PushFlagOrder(chart: string, registryUrl: string, force: bool, plainHttp: bool)
    ensures var argv := PushArgv(chart, registryUrl, force, plainHttp);
            (force && !plainHttp ==> Last(argv) == FORCE) &&
            (plainHttp ==> Last(argv) == PLAIN_HTTP) &&
            (force && plainHttp ==> argv[4..] == [FORCE, PLAIN_HTTP]) &&
            (!force && !plainHttp ==> argv == PushBase(chart, registryUrl))
  {
  }
}
