# HelmPush entrypoint in Dafny

This is a model of the entrypoint of the HelmPush GitHub Action, `entrypoint.py`. The action reads its inputs from `INPUT_*` environment variables and checks them. It packages a chart directory with `helm package`, or takes a `.tgz` as it is. It finds the registry host from the registry URL and logs in with `helm registry login`, sending the secret on standard input. It pushes with `helm push` and reports success in the workflow's output file.

A run of `main` is modelled as a trace of observable events plus an outcome:

- The events are a command run, text appended to a file, and a line printed.
- The outcome is `Success` or `Exit1` with a reason.

The modules follow the functions of the script:

- `Outcomes`: `Option`, `Result` and the reasons a run ends with status 1.
- `Text`: the ASCII text operations the script relies on. These are Python's `strip`, `upper`, `lower`, `replace`, `in`, `startswith`, `endswith` and `split`, and `posixpath.join`. A `Join` that the script never calls is the inverse by which `Split` is specified.
- `Inputs`: `get_input` and the two boolean flags.
- `Registry`: `get_registry_host`, in three steps:
  - the `oci://` rewrite;
  - the network location `urllib.parse.urlsplit` finds, which is the authority of section 3.2 of RFC 3986;
  - the exit when there is none.
- `Packaging`: `_package_chart` after `helm package` has run:
  - the scan of its output for `saved it to:`;
  - the `isfile` test;
  - the fallback to the newest archive of the glob listing.
- `Commands`: the exact argument vectors, standard input and working directory of the three helm commands.
- `Entrypoint`: `main`, in two forms:
  - `Entrypoint` is a function that gives the run main makes from its configuration, the file system and the command results.
  - The methods `RunAction`, `MainSteps` and `LoginAndPush` follow the script's steps, with its early returns and the argument lists grown by appending, and are proved equal to that function.

  The module ends with lemmas on the order of the steps:

  - which check ends the run;
  - no push without a successful login just before it;
  - the status line only on success;
  - the secret only on standard input.

External effects are parameters:

- a `FileSystem` gives what `os.path.exists` and `os.path.isdir` answer for the chart path;
- a `PackageRun` records what the action observes of `helm package`: its exit status, its standard output, the paths `os.path.isfile` accepts afterwards, and the glob listing of workspace archives with their modification times;
- an `Oracle` adds whether the login and the push exit with status 0;
- an `Env` map is the process environment.

## Model

| member | source | states |
|---|---|---|
| Text.Strip | entrypoint.py:18-22 | the result has no ASCII whitespace at either end and is the slice of the input that is left once its leading and trailing whitespace is removed |
| Text.StripEmptyIffBlank | entrypoint.py:18-22 | a stripped value is empty exactly when the value is all whitespace |
| Text.StripIdempotent | entrypoint.py:18-22 | stripping twice is stripping once |
| Text.StripPadded | entrypoint.py:18-22 | whitespace around a stripped non-empty text is removed and nothing else |
| Text.Upper | entrypoint.py:15 | every character is upper-cased one for one |
| Text.Lower | entrypoint.py:64-65 | every character is lower-cased one for one |
| Text.Replace | entrypoint.py:16-17 | every occurrence of one character is replaced and nothing else changes |
| Text.Contains | entrypoint.py:49 | `m in s`: some position of `s` starts an occurrence of `m` |
| Text.StartsWith | entrypoint.py:27 | `s.startswith(p)`: `p` is a prefix of `s` |
| Text.EndsWith | entrypoint.py:96 | `s.endswith(p)`: `p` is a suffix of `s` |
| Text.IndexOf | entrypoint.py:31 | the first occurrence of a text, or none exactly when it does not occur |
| Text.Split | entrypoint.py:48-50 | at least one piece; joining the pieces with the separator gives back the text; no piece holds the separator; without the separator the text is the one piece, and otherwise the first piece is the text before its first occurrence |
| Text.LastPieceFollowsSep | entrypoint.py:50 | the last piece of a split is the text after some occurrence of the separator |
| Text.JoinPath | entrypoint.py:72 | an absolute second part is the result. Otherwise the result starts with the first part and ends with the second, with exactly one "/" inserted between them when the first part is non-empty and does not end in "/", and nothing inserted otherwise |
| Text.JoinPathArchiveSuffix | entrypoint.py:72-96 | the joined chart path ends in ".tgz" exactly when the chart folder does |
| Inputs.Lookup | entrypoint.py:19-20 | a set, non-empty variable reads as its value; an absent variable reads as ""; a non-empty result is always the variable's value |
| Inputs.ChartFolderDefault | entrypoint.py:63 | a "chart-folder" input that is set in neither spelling reads as "chart" |
| Inputs.ForceDefault | entrypoint.py:64 | a "force" input that is set in neither spelling leaves the flag unset |
| Inputs.EnvGet | entrypoint.py:71 | the variable's value when it is set, even when empty, else the default |
| Inputs.GetInput | entrypoint.py:13-22 | the result is stripped and is taken from the underscore variable if non-empty, otherwise from the hyphen variable if non-empty, otherwise from the default |
| Inputs.BlankInputHidesDefault | entrypoint.py:18-22 | an input variable that holds only whitespace reads as "" and hides the default |
| Inputs.GetInputEmptyIff | entrypoint.py:18-22 | an input reads as "" exactly when the selected value is all whitespace |
| Inputs.KeysAgreeOnPlainNames | entrypoint.py:16-17 | for a name with no "-" and no "_", both variable names are the same |
| Inputs.UnderscoreKey | entrypoint.py:15-16 | the first variable name is "INPUT_" followed by one character per character of the name |
| Inputs.HyphenKey | entrypoint.py:15-17 | the second variable name is "INPUT_" followed by one character per character of the name |
| Inputs.KeyCharacters | entrypoint.py:15-17 | after "INPUT_", each character is the name's character upper-cased; the first name turns "-" into "_", the second "_" into "-" |
| Inputs.UnderscoreKeyShape | entrypoint.py:15-16 | the first variable name has no "-" and no lower-case letter |
| Inputs.Flag | entrypoint.py:64-65 | the `.lower() == "true"` test of a flag; FlagIff spells out the values it accepts |
| Inputs.FlagIff | entrypoint.py:64-65 | a flag is set exactly when the stripped input is "true" in any letter case; a variable such as "  TRUE " sets it, since the input is stripped first |
| Inputs.ReadsUnderscoreVariable | tests/test_entrypoint.py:15-17 | "registry-url" is read from INPUT_REGISTRY_URL |
| Inputs.MissingInputGivesDefault | tests/test_entrypoint.py:19-24 | a missing "chart-folder" reads as its default "chart" |
| Inputs.InputIsStripped | tests/test_entrypoint.py:26-28 | "  token123  " reads as "token123" |
| Registry.RewriteOci | entrypoint.py:27-30 | a leading "oci://" becomes "https://" with the rest unchanged; any other URL is left as it is |
| Registry.AfterScheme | entrypoint.py:31 | when the text before the first ":" is a scheme (an ASCII letter, then letters, digits, "+", "-" or "."), the rest is what follows that ":"; otherwise the rest is the whole URL |
| Registry.Netloc | entrypoint.py:31-32 | no network location unless the rest after the scheme opens with "//"; then the longest text after "//" with no "/", "?" or "#" |
| Registry.UpToDelimiter | entrypoint.py:31 | the longest prefix with no "/", "?" or "#"; it is followed by such a delimiter or by the end of the text |
| Registry.GetRegistryHost | entrypoint.py:25-35 | a host is non-empty and holds no "/", "?" or "#", so it never includes a path, query or fragment; a failure is the invalid-URL exit |
| Registry.OciAndHttpsAgree | entrypoint.py:27-28 | "oci://X" and "https://X" give the same host, or both exit |
| Registry.HostOfAuthorityUrl | entrypoint.py:31-35 | for scheme://authority[/path] the host is exactly the authority |
| Registry.HostOfOciUrl | entrypoint.py:27-35 | for oci://authority[/path] the host is exactly the authority |
| Registry.HostFollowsDoubleSlash | entrypoint.py:31-35 | a host that is found appears in the URL right after a "//" |
| Registry.NoDoubleSlashExits | entrypoint.py:31-34 | a URL with no "//" has no network location and ends the run |
| Registry.OciHostWithoutPath | tests/test_entrypoint.py:34-35 | "oci://ghcr.io" gives the host "ghcr.io" |
| Registry.OciHostDropsPath | tests/test_entrypoint.py:37-38 | "oci://ghcr.io/org" gives the host "ghcr.io" without the path |
| Registry.HttpsHost | tests/test_entrypoint.py:40-41 | "https://h.cfcr.io/user_or_org/reponame" gives "h.cfcr.io" |
| Registry.BareWordExits | tests/test_entrypoint.py:43-45 | "not-a-valid-url-without-netloc" ends the run |
| Packaging.Lines | entrypoint.py:48 | the lines cover the stripped output: joined with line feeds they give it back, and none holds a line feed |
| Packaging.SavedPath | entrypoint.py:49-50 | a path is announced exactly when the line holds the marker, and the path is stripped |
| Packaging.LastMarkerUnique | entrypoint.py:50 | two markers of a line, neither followed by another marker, are the same marker |
| Packaging.SavedPathAfterLastMarker | entrypoint.py:50 | the path is the stripped text after the line's last marker, whatever comes before that marker |
| Packaging.Announced | entrypoint.py:48-50 | one entry per output line, each the path that line announces |
| Packaging.IsFileIn | entrypoint.py:51 | `os.path.isfile` of an announced path: the line announces a path, the path is not empty, and the file system holds a regular file there |
| Packaging.FirstFile | entrypoint.py:48-52 | the first line whose announced path is a file, or none exactly when no line announces a file |
| Packaging.NewestIndex | entrypoint.py:58 | an archive with the greatest modification time, the first of those in listing order |
| Packaging.ResolveArchive | entrypoint.py:38-58 | it fails with the packaging failure exactly when helm fails. It fails with no-archive exactly when helm succeeds, no line announces a file and the listing is empty. When the output announces a file, the result is the path of the first line that does. Otherwise the result is a path of the listing |
| Packaging.PackageChart | entrypoint.py:38-58 | the loop with its early return and the fallback computes exactly ResolveArchive |
| Packaging.ScanLines | entrypoint.py:48-52 | the loop over the lines finds the path of the first line that announces a file, and nothing when no line does |
| Packaging.AnnouncedFile | entrypoint.py:49-52 | one line yields a path exactly when its marker path is a non-empty path of a file, and the path it yields is that marker path |
| Packaging.AnnouncedFileWins | entrypoint.py:48-52 | the first announced file is returned, whatever the listing holds |
| Packaging.FallbackIsNewest | entrypoint.py:53-58 | without an announced file the newest archive is returned; none is newer, and any as new comes later in the listing |
| Packaging.ResolvedIsFileOrArchive | entrypoint.py:51-58 | what packaging leaves to push is a non-empty file path that some output line announces, or a ".tgz" path of the listing |
| Packaging.ConfirmationYieldsPath | tests/test_entrypoint.py:61-62 | helm's one-line confirmation "... saved it to: <path>" yields that path when it is a file |
| Commands.PackageCommand | entrypoint.py:40-46 | helm package <chart path>, run in the workspace, with nothing written to its standard input |
| Commands.LoginArgv | entrypoint.py:103-113 | the vector is helm registry login <host> --username <user> --password-stdin, then "--plain-http" exactly when plain HTTP is set; its length is 7 or 8 accordingly |
| Commands.PushArgv | entrypoint.py:128-132 | the vector is helm push <chart> <registry URL as given>. "--force" follows exactly when forced, in fifth place, and "--plain-http" exactly when plain HTTP is set; the length is four plus one per flag set |
| Commands.LoginCommand | entrypoint.py:114-120 | the arguments are the login vector; the password is the login's standard input; it runs in the action's directory |
| Commands.PushCommand | entrypoint.py:128-135 | the arguments are the push vector; the action writes nothing to the push's standard input (the push inherits the action's own) and sets no directory |
| Commands.LoginArgvOmitsPassword | entrypoint.py:103-117 | a password that is not the host, the user name or a fixed word is not an argument of the login |
| Commands.PushFlagOrder | entrypoint.py:128-132 | "--force" comes before "--plain-http"; with force alone the last argument is "--force"; with neither flag the vector is the fixed four words |
| Entrypoint.ReadConfig | entrypoint.py:62-143 | each field is read from its own input: the registry URL, chart folder, access token, user name and password through get_input with their defaults, and force and plain HTTP as flags of their inputs, all stripped. A missing chart folder reads as "chart" and a missing force flag as unset. A missing GITHUB_WORKSPACE gives ".". The output file is GITHUB_OUTPUT's value exactly when that is non-empty, and "" otherwise |
| Entrypoint.ChartPath | entrypoint.py:72 | an absolute chart folder is the chart path; otherwise the path starts with the workspace; it always ends with the chart folder |
| Entrypoint.SelectCredentials | entrypoint.py:78-92 | with a token, the token is the password and the user name is the given one or, when none is given, "AWS". Without a token, the given pair is used, and the check fails exactly when either part is empty |
| Entrypoint.Validate | entrypoint.py:67-92 | a missing registry URL fails first; a chart path that does not exist fails next; once both checks pass, the result is exactly the credential selection's |
| Entrypoint.PrepareChart | entrypoint.py:94-98 | a directory runs `helm package` in the workspace and leaves what packaging resolves; otherwise nothing runs and the chart path is kept exactly when it ends in ".tgz" |
| Entrypoint.Report | entrypoint.py:142-148 | the status line for the output file exactly when one is given, then the confirmation, and no command |
| Entrypoint.Publish | entrypoint.py:100-140 | nothing happens exactly when the URL has no host, and the run then ends with the invalid-URL exit |
| Entrypoint.Session | entrypoint.py:103-148 | the login comes first; a failed login ends the run there; otherwise the push follows, and a failed push ends the run there; success exactly when both succeed, followed by the report |
| Entrypoint.Entrypoint | entrypoint.py:61-148 | a run has at most five events, and a successful run at least three, the last the confirmation |
| Entrypoint.RunAction | entrypoint.py:61-148 | the action step by step gives exactly the run Entrypoint describes for the configuration read from the environment |
| Entrypoint.MainSteps | entrypoint.py:67-100 | the checks, credential selection and chart step with their early returns give exactly Entrypoint's run |
| Entrypoint.LoginAndPush | entrypoint.py:100-148 | the host, the login and push argument lists grown by appending, and the report, give exactly Publish's run |
| Entrypoint.CommandKinds | entrypoint.py:41-128 | the package, login and push commands are told apart by their leading words |
| Entrypoint.PublishOutcome | entrypoint.py:100-140 | the end of main fails only for an invalid URL, a failed login or a failed push. It succeeds exactly when the host is found and both commands succeed |
| Entrypoint.SessionOrder | entrypoint.py:112-146 | in the session a push comes right after a login; without a successful login there is no push; the output file receives only the status line and only on success |
| Entrypoint.ChecksPrecedeCommands | entrypoint.py:67-92 | a missing registry URL, a missing chart and missing credentials each end the run exactly under their own condition and in that order, with nothing run |
| Entrypoint.ChartKindChecked | entrypoint.py:94-98 | a chart that is neither a directory nor a ".tgz" ends the run, exactly when the earlier checks pass, with nothing run |
| Entrypoint.BadUrlFailsAfterPackaging | entrypoint.py:94-100 | a URL with no host fails after `helm package` has run and before any login |
| Entrypoint.PushOnlyAfterLogin | entrypoint.py:114-135 | in every run each push comes right after a login, and a failed login means no push at all |
| Entrypoint.StatusOnlyOnSuccess | entrypoint.py:142-146 | the output file receives only the status line, only in a successful run, and always in a successful run with an output file |
| Entrypoint.SuccessfulPublish | entrypoint.py:100-148 | a successful end of main is exactly the login, the push and the report |
| Entrypoint.SuccessfulRun | entrypoint.py:61-148 | a run succeeds exactly when the checks pass, the chart step leaves an archive, the host is found and both commands succeed. Its trace is then the chart step, the login, the push and the report |
| Entrypoint.FailedCommandEndsRun | entrypoint.py:114-140 | a failed login is the last event of the run; a failed push ends the run right after the login and the push |
| Entrypoint.SecretOnlyOnStdin | entrypoint.py:78-120 | runs whose tokens and passwords differ, but are given or missing alike, run the same commands with the same arguments and end alike |
| Entrypoint.RunLogsInWithSelected | entrypoint.py:78-117 | every login of a run uses the host of the registry URL and the selected credentials, with the password on standard input |
| Entrypoint.TokenModeLogsInAsAws | entrypoint.py:78-82 | in token mode without a user name every login is as "AWS", with the token on standard input |

## Left out

- Running subprocesses is not modelled. The exit status of each helm run is part of the oracle. The output of `helm push` and the captured stderr of the login are not modelled.
  - The packaging failure: `check=True` raises on a non-zero exit. The uncaught exception ends the process with status 1, so it is modelled as that exit.
- Files and their contents are not modelled:
  - `os.path.exists`, `os.path.isdir` and `os.path.isfile` are sets of paths given to the model. The empty path is never taken as a file, whatever the `isfile` set holds, since `os.path.isfile("")` is false.
  - The glob listing of `<workspace>` archives, with modification times, is given to the model.
  - Appending to `GITHUB_OUTPUT` is an event.
- The file system is seen twice. The `FileSystem` answers `exists` and `isdir` for the chart path before packaging. The `PackageRun` answers `isfile` and gives the glob listing after `helm package` has run. Within each view nothing changes: other changes between the checks, and files created by other processes, are not modelled.
  - The `isfile` test on helm's announced path is relative to the action's own directory, not to the workspace helm ran in. The model takes the set of paths that test accepts as given.
- Diagnostics on standard error and their wording are left out. Every exit with status 1 carries a reason instead.
- Unicode is not modelled:
  - `strip` removes the ASCII whitespace Python removes from text: tab, line feed, vertical tab, form feed, carriage return, the four separators 28-31 and space.
  - `upper` and `lower` map ASCII letters only.
  - Other Unicode whitespace and case mappings are not modelled.
- Only the network-location step of `urllib.parse.urlsplit` is modelled: the scheme rule, the "//" that opens the authority, and the first "/", "?" or "#" that closes it. Not modelled:
  - the check of brackets for IPv6 hosts, which raises ValueError;
  - the splitting of params, query and fragment, which do not affect the network location.
  - Userinfo and port are kept in the network location, exactly as Python keeps them, but not parsed apart.
- GetRegistryHost: does not model urlsplit's clean-up of the URL before it is split: it removes every tab, line feed and carriage return, and strips leading C0 control characters and spaces. The model reads the URL as it is. So "\x01https://h/x" gives the host "h" in Python but ends the run in the model, and "https://h\r/x" gives "h" in Python but "h\r" in the model.
- Appending the status line to the output file always succeeds in the model. In the script, a failing `open(github_output, "a")` raises after the push has succeeded, and the run ends with status 1 (entrypoint.py:143-145).
- Inputs are read when main starts, into `Config`. The script reads the credentials only after the first two checks. Reading has no effect, so the order of the reads is not observable.
- Host examples of the action's own tests that use the long Amazon ECR host name are stated through `Registry.HostOfOciUrl` for any host, and exemplified with the shorter "ghcr.io". The ECR host itself is not spelled out as a literal.
