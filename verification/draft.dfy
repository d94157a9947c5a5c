/**
 The alternate draft of the manager (`server/new.py`): it locates experiments
 by directory rather than through the registry, and lets the caller choose the
 container name and command. Its commands are run without a timeout, so the
 engine never reports one.
 */
module Draft {

  import opened Wrappers
  import opened Text
  import opened Host
  import opened Naming
  import opened Registry
  import Manager

  /** The outcome of a command run without a timeout. */
  type Completed = o: Outcome | !o.TimedOut? witness Ok("")

  /** The container engine as the draft drives it. */
  type Cli = Argv -> Completed

  /** A non-empty optional text; `None` and `""` are both false in Python. */
  predicate Truthy(o: Option<string>) {
    o.Some? && o.value != ""
  }

  /** Runs a command to completion: its output on a zero exit, otherwise a 500
      whose detail is the stripped captured output. */
  function RunCli(o: Completed): (r: Result<string, HttpError>)
    ensures r.Success? <==> o.Ok?
    ensures r.Success? ==> r.value == o.out
    ensures r.Failure? ==> r.error == HttpError(500, Strip(o.out))
  {
    match o
    case Ok(out) => Success(out)
    case Fail(out) => Failure(HttpError(500, Strip(out)))
  }

  /** The reply carrying a container identifier: the stripped output. */
  function IdReply(o: Completed): (r: Result<string, HttpError>)
    ensures r.Success? <==> o.Ok?
    ensures r.Success? ==> r.value == Strip(o.out)
    ensures r.Failure? ==> r == RunCli(o)
  {
    match RunCli(o)
    case Success(out) => Success(Strip(out))
    case Failure(e) => Failure(e)
  }

  /** The experiment's directory under `base`, or a 404 unless it is a
      directory holding a regular file named `Dockerfile`. */
  function ExperimentDir(fs: Fs, base: string, name: string): (r: Result<string, HttpError>)
    ensures r.Success? <==> fs.IsDir(JoinPath(base, name)) && fs.IsFile(JoinPath(JoinPath(base, name), "Dockerfile"))
    ensures r.Success? ==> r.value == JoinPath(base, name)
    ensures r.Failure? ==> r.error == HttpError(404, "Experiment '" + name + "' not found or missing Dockerfile")
  {
    var dir := JoinPath(base, name);
    if !fs.IsDir(dir) || !fs.IsFile(JoinPath(dir, "Dockerfile")) then
      Failure(HttpError(404, "Experiment '" + name + "' not found or missing Dockerfile"))
    else Success(dir)
  }

  datatype BuildReply = BuildReply(imageTag: string, buildLog: string)

  /** The build endpoint: one build in the experiment directory, tagged with the
      normalised name, which the reply repeats along with the log. */
  function Build(fs: Fs, base: string, cli: Cli, name: string): (r: Exchange<BuildReply>)
    ensures ExperimentDir(fs, base, name).Failure? ==>
      r.issued == [] && r.reply == Failure(ExperimentDir(fs, base, name).error)
    ensures ExperimentDir(fs, base, name).Success? ==>
      r.issued == [Invocation(["docker", "build", "-t", ImageTag(name), "."], Some(JoinPath(base, name)))]
    ensures r.reply.Success? ==> r.reply.value.imageTag == ImageTag(name) == r.issued[0].argv[3]
    ensures r.reply.Success? ==> r.reply.value.buildLog == cli(r.issued[0].argv).out
    ensures ExperimentDir(fs, base, name).Success? ==> (r.reply.Success? <==> cli(r.issued[0].argv).Ok?)
    ensures ExperimentDir(fs, base, name).Success? && r.reply.Failure? ==>
      r.reply.error == RunCli(cli(r.issued[0].argv)).error
  {
    match ExperimentDir(fs, base, name)
    case Failure(e) => Exchange([], Failure(e))
    case Success(dir) =>
      var tag := ImageTag(name);
      var argv := ["docker", "build", "-t", tag, "."];
      var reply := match RunCli(cli(argv))
        case Success(log) => Success(BuildReply(tag, log))
        case Failure(e) => Failure(e);
      Exchange([Invocation(argv, Some(dir))], reply)
  }

  /** `command.split()` when a command is given, else nothing. */
  function CommandWords(command: Option<string>): (ws: seq<string>)
    ensures !Truthy(command) ==> ws == []
    ensures Truthy(command) ==> ws == Tokens(command.value)
  {
    if Truthy(command) then Tokens(command.value) else []
  }

  /** The run endpoint's command. */
  function RunArgv(name: string, containerName: Option<string>, command: Option<string>): (argv: Argv)
    ensures |argv| == 4 + (if Truthy(containerName) then 2 else 0) + |CommandWords(command)|
    ensures argv[..3] == ["docker", "run", "--detach"]
    ensures Truthy(containerName) ==> argv[3..] == ["--name", containerName.value, ImageTag(name)] + CommandWords(command)
    ensures !Truthy(containerName) ==> argv[3..] == [ImageTag(name)] + CommandWords(command)
  {
    ["docker", "run", "--detach"]
      + (if Truthy(containerName) then ["--name", containerName.value] else [])
      + [ImageTag(name)]
      + CommandWords(command)
  }

  /** The run endpoint: one detached run, with no directory check and no
      removal of an older container. */
  function Run(cli: Cli, name: string, containerName: Option<string>, command: Option<string>)
    : (r: Exchange<string>)
    ensures |r.issued| == 1 && r.issued[0].cwd.None? && |r.issued[0].argv| >= 4
    ensures r.issued[0].argv[..3] == ["docker", "run", "--detach"]
    ensures Truthy(containerName) ==>
      r.issued[0].argv[3..] == ["--name", containerName.value, ImageTag(name)] + CommandWords(command)
    ensures !Truthy(containerName) ==> r.issued[0].argv[3..] == [ImageTag(name)] + CommandWords(command)
    ensures r.reply == IdReply(cli(r.issued[0].argv))
  {
    var argv := RunArgv(name, containerName, command);
    Exchange([Plain(argv)], IdReply(cli(argv)))
  }

  /** The name the reset endpoint stops, removes and re-creates. */
  function ResetName(name: string, containerName: Option<string>): (n: string)
    ensures Truthy(containerName) ==> n == containerName.value
    ensures !Truthy(containerName) ==> n == ImageTag(name)
  {
    if Truthy(containerName) then containerName.value else ImageTag(name)
  }

  /** The reset endpoint's re-run command: the run endpoint's command with the
      reset name always given as the container name. */
  function ResetArgv(name: string, containerName: Option<string>, command: Option<string>): (argv: Argv)
    ensures |argv| == 6 + |CommandWords(command)|
    ensures argv[3..5] == ["--name", ResetName(name, containerName)]
    ensures ResetName(name, containerName) != "" ==>
      argv == RunArgv(name, Some(ResetName(name, containerName)), command)
  {
    ["docker", "run", "--detach", "--name", ResetName(name, containerName), ImageTag(name)]
      + CommandWords(command)
  }

  /** The reset endpoint: `stop`, then `rm` only if the stop succeeded, both
      failures ignored; then the named re-run, whose outcome is the reply. */
  function Reset(cli: Cli, name: string, containerName: Option<string>, command: Option<string>)
    : (r: Exchange<string>)
    ensures 2 <= |r.issued| <= 3
    ensures r.issued[0] == Plain(["docker", "stop", ResetName(name, containerName)])
    ensures |r.issued| == 3 <==> cli(["docker", "stop", ResetName(name, containerName)]).Ok?
    ensures |r.issued| == 3 ==> r.issued[1] == Plain(["docker", "rm", ResetName(name, containerName)])
    ensures r.issued[|r.issued| - 1] ==
      Plain(["docker", "run", "--detach", "--name", ResetName(name, containerName), ImageTag(name)]
        + CommandWords(command))
    ensures r.reply == IdReply(cli(r.issued[|r.issued| - 1].argv))
  {
    var n := ResetName(name, containerName);
    var stop := ["docker", "stop", n];
    var cleanup := if cli(stop).Ok? then [Plain(stop), Plain(["docker", "rm", n])] else [Plain(stop)];
    var argv := ResetArgv(name, containerName, command);
    Exchange(cleanup + [Plain(argv)], IdReply(cli(argv)))
  }

  /** Without a container name, reset re-creates the container under the bare
      image tag, which never equals the name the main server gives it. */
  lemma ResetDefaultNameDiffers(name: string, command: Option<string>)
    ensures ResetName(name, None) == ImageTag(name)
    ensures ResetName(name, None) != ContainerName(name)
  {
  }

  /** Build, run and reset use one and the same image tag. */
  lemma SameTagEverywhere(fs: Fs, base: string, cli: Cli, name: string, cn: Option<string>, command: Option<string>)
    requires Build(fs, base, cli, name).reply.Success?
    ensures Build(fs, base, cli, name).reply.value.imageTag ==
      Reset(cli, name, cn, command).issued[|Reset(cli, name, cn, command).issued| - 1].argv[5]
    ensures Build(fs, base, cli, name).reply.value.imageTag ==
      Run(cli, name, cn, command).issued[0].argv[if Truthy(cn) then 5 else 3]
  {
  }

  // ---------------------------------------------------------------------------
  // against the main server

  /** On a completed command both servers' command runners agree on success and
      output; a failure is a 500 in both, and the draft strips the detail the
      main server passes on verbatim. Only the main server can answer 504. */
  lemma RunClisAgree(o: Completed)
    ensures RunCli(o).Success? <==> Manager.RunCli(o).Success?
    ensures RunCli(o).Success? ==> RunCli(o).value == Manager.RunCli(o).value
    ensures o.Fail? ==> Manager.RunCli(o).error.status == 500 == RunCli(o).error.status
    ensures o.Fail? ==> RunCli(o).error.detail == Strip(Manager.RunCli(o).error.detail)
    ensures Manager.RunCli(Outcome.TimedOut).error.status == 504
  {
  }

  /** The draft's directory check is the stricter one: whenever it accepts an
      experiment that the registry knows, the main server's build, on a machine
      that is not `aarch64`, finds its `Dockerfile` too. */
  lemma DirCheckStricter(reg: seq<Experiment>, base: string, machine: string, fs: Fs, name: string)
    requires machine != "aarch64" && Lookup(reg, name).Success?
    requires ExperimentDir(fs, base, name).Success?
    ensures Manager.BuildImage(reg, base, machine, fs, name).Success?
  {
  }

  /** The converse fails: a `Dockerfile` that is a directory satisfies the main
      server's existence test but not the draft's regular-file test. */
  lemma DockerfileDirectoryDiffers(reg: seq<Experiment>, base: string, name: string)
    requires Lookup(reg, name).Success?
    ensures var fs := Fs({}, {JoinPath(base, name), JoinPath(JoinPath(base, name), "Dockerfile")});
      Manager.BuildImage(reg, base, "x86_64", fs, name).Success? && ExperimentDir(fs, base, name).Failure?
  {
  }
}
