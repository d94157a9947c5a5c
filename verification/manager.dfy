/**
 The experiment manager's endpoints (build, run, remove, artifacts) reduced to
 what they decide: which registry entry, which paths, which `docker` commands
 in which order, and which reply or HTTP error. The engine and the filesystem
 are parameters.
 */
module Manager {

  import opened Wrappers
  import opened Text
  import opened Host
  import opened Registry
  import opened Naming

  /** An experiment's entry, its directory, and its artifacts directory if one
      is configured. */
  datatype Paths = Paths(config: Experiment, expDir: string, artifactsDir: Option<string>)

  /** Resolves an experiment's directories under `base`. The artifacts
      directory is absent exactly when the configured path is blank. */
  function ExpPaths(reg: seq<Experiment>, base: string, name: string): (r: Result<Paths, HttpError>)
    ensures r.Success? <==> Lookup(reg, name).Success?
    ensures r.Failure? ==> r.error == NotFound(name)
    ensures r.Success? ==> r.value.config == Lookup(reg, name).value
    ensures r.Success? ==> r.value.expDir == JoinPath(base, name)
    ensures r.Success? ==> (r.value.artifactsDir.None? <==> Strip(r.value.config.artifactsPath) == "")
    ensures r.Success? && r.value.artifactsDir.Some? ==>
      r.value.artifactsDir.value == JoinPath(r.value.expDir, Strip(r.value.config.artifactsPath))
  {
    var cfg :- Lookup(reg, name);
    var expDir := JoinPath(base, cfg.name);
    var rel := Strip(cfg.artifactsPath);
    Success(Paths(cfg, expDir, if rel != "" then Some(JoinPath(expDir, rel)) else None))
  }

  /** A blank artifacts path is one made only of whitespace. */
  lemma NoArtifactsWhenBlank(reg: seq<Experiment>, base: string, name: string)
    requires ExpPaths(reg, base, name).Success?
    ensures ExpPaths(reg, base, name).value.artifactsDir.None? <==> Blank(Lookup(reg, name).value.artifactsPath)
  {
    var path := Lookup(reg, name).value.artifactsPath;
    StripSetEmpty(path, Whitespace);
    assert Strip(path) == StripSet(path, Whitespace);
    assert (forall k | 0 <= k < |path| :: path[k] in Whitespace) <==> (forall k | 0 <= k < |path| :: IsSpace(path[k]));
    var p := ExpPaths(reg, base, name).value;
    assert p.config.artifactsPath == path;
    assert p.artifactsDir.None? <==> Strip(path) == "";
  }

  /** A string made only of whitespace. */
  predicate Blank(s: string) {
    forall k | 0 <= k < |s| :: IsSpace(s[k])
  }

  const TimeoutDetail := "Command timed out"

  /** Runs a command to completion: its output on a zero exit, a 500 carrying
      the captured output on a non-zero exit, a 504 on a timeout. */
  function RunCli(o: Outcome): (r: Result<string, HttpError>)
    ensures r.Success? <==> o.Ok?
    ensures r.Success? ==> r.value == o.out
    ensures r.Failure? ==> r.error.status in {500, 504}
    ensures r.Failure? && r.error.status == 500 <==> o.Fail?
    ensures o.Fail? ==> r.error.detail == o.out
    ensures o.TimedOut? ==> r.error == HttpError(504, TimeoutDetail)
  {
    match o
    case Ok(out) => Success(out)
    case Fail(out) => Failure(HttpError(500, out))
    case TimedOut => Failure(HttpError(504, TimeoutDetail))
  }

  // ---------------------------------------------------------------------------
  // build

  /** The build descriptor for the host's machine architecture. */
  function ArchDockerfile(machine: string): (dockerfile: string)
    ensures dockerfile == "Dockerfile.arm64" <==> machine == "aarch64"
    ensures dockerfile == "Dockerfile" <==> machine != "aarch64"
  {
    if machine == "aarch64" then "Dockerfile.arm64" else "Dockerfile"
  }

  /** The build endpoint: the process whose output it streams back, or a 404
      when the experiment is unknown or its build descriptor is missing, in
      which case no process starts. */
  function BuildImage(reg: seq<Experiment>, base: string, machine: string, fs: Fs, name: string)
    : (r: Result<Invocation, HttpError>)
    ensures Lookup(reg, name).Failure? ==> r == Failure(NotFound(name))
    ensures Lookup(reg, name).Success? && !fs.Exists(JoinPath(JoinPath(base, name), ArchDockerfile(machine))) ==>
      r == Failure(HttpError(404, ArchDockerfile(machine) + " not found"))
    ensures r.Success? <==> Lookup(reg, name).Success? && fs.Exists(JoinPath(JoinPath(base, name), ArchDockerfile(machine)))
    ensures r.Success? ==> r.value.cwd == Some(JoinPath(base, name))
    ensures r.Success? ==> r.value.argv == ["docker", "build", "-t", ImageTag(name), "-f", ArchDockerfile(machine), "."]
  {
    var p :- ExpPaths(reg, base, name);
    var dockerfile := ArchDockerfile(machine);
    if !fs.Exists(JoinPath(p.expDir, dockerfile)) then
      Failure(HttpError(404, dockerfile + " not found"))
    else
      var tag := ImageTag(p.config.name);
      Success(Invocation(["docker", "build", "-t", tag, "-f", dockerfile, "."], Some(p.expDir)))
  }

  // ---------------------------------------------------------------------------
  // run

  function InspectArgv(cname: string): Argv {
    ["docker", "inspect", cname]
  }

  function ForceRemoveArgv(cname: string): Argv {
    ["docker", "rm", "-f", cname]
  }

  /** The detached run of `tag` as container `cname`, with the experiment
      directory mounted at `/app`, followed by the entrypoint's words. */
  function RunArgv(cname: string, expDir: string, tag: string, entrypoint: string): (argv: Argv)
    ensures |argv| == 10 + |Tokens(entrypoint)|
    ensures argv[..10] == ["docker", "run", "--name", cname, "--detach",
                           "--volume", expDir + ":/app", "--workdir", "/app", tag]
    ensures argv[10..] == Tokens(entrypoint)
  {
    var cmd := ["docker", "run", "--name", cname, "--detach",
                "--volume", expDir + ":/app", "--workdir", "/app", tag];
    if entrypoint != "" then cmd + Tokens(entrypoint) else cmd
  }

  /** The removal attempted before a run: `rm -f` only after a successful
      `inspect`; failures of either are ignored. */
  function Cleanup(engine: Engine, cname: string): (issued: seq<Invocation>)
    ensures 1 <= |issued| <= 2 && issued[0] == Plain(InspectArgv(cname))
    ensures |issued| == 2 <==> engine(InspectArgv(cname)).Ok?
    ensures |issued| == 2 ==> issued[1] == Plain(ForceRemoveArgv(cname))
  {
    if engine(InspectArgv(cname)).Ok? then
      [Plain(InspectArgv(cname)), Plain(ForceRemoveArgv(cname))]
    else [Plain(InspectArgv(cname))]
  }

  /** The argument vector the run endpoint starts the experiment with: the
      container is named after the experiment, the experiment directory is
      mounted, and the image is the experiment's tag. */
  function RunCommand(cfg: Experiment, base: string): (argv: Argv)
    ensures |argv| == 10 + |Tokens(cfg.entrypoint)|
    ensures argv[3] == ContainerName(cfg.name)
    ensures argv[6] == base + "/" + cfg.name + ":/app"
    ensures argv[9] == ImageTag(cfg.name)
    ensures argv[10..] == Tokens(cfg.entrypoint)
  {
    RunArgv(ContainerName(cfg.name), JoinPath(base, cfg.name), ImageTag(cfg.name), cfg.entrypoint)
  }

  /** The run endpoint: replaces any container of the derived name, then starts
      a new one and replies with its stripped identifier. */
  function RunContainer(reg: seq<Experiment>, base: string, engine: Engine, name: string)
    : (r: Exchange<string>)
    ensures Lookup(reg, name).Failure? ==> r.issued == [] && r.reply == Failure(NotFound(name))
    ensures Lookup(reg, name).Success? ==> 2 <= |r.issued| <= 3
    ensures Lookup(reg, name).Success? ==> r.issued[0] == Plain(InspectArgv(ContainerName(name)))
    ensures Lookup(reg, name).Success? ==> (|r.issued| == 3 <==> engine(InspectArgv(ContainerName(name))).Ok?)
    ensures |r.issued| == 3 ==> r.issued[1] == Plain(ForceRemoveArgv(ContainerName(name)))
    ensures Lookup(reg, name).Success? ==>
      r.issued[|r.issued| - 1] == Plain(RunCommand(Lookup(reg, name).value, base))
    ensures Lookup(reg, name).Success? ==>
      (r.reply.Success? <==> engine(RunCommand(Lookup(reg, name).value, base)).Ok?)
    ensures r.reply.Success? ==> r.reply.value == Strip(engine(RunCommand(Lookup(reg, name).value, base)).out)
    ensures Lookup(reg, name).Success? && r.reply.Failure? ==>
      r.reply.error == RunCli(engine(RunCommand(Lookup(reg, name).value, base))).error
  {
    match ExpPaths(reg, base, name)
    case Failure(e) => Exchange([], Failure(e))
    case Success(p) =>
      var cname := ContainerName(p.config.name);
      var cleanup := Cleanup(engine, cname);
      var cmd := RunArgv(cname, p.expDir, ImageTag(p.config.name), p.config.entrypoint);
      var reply := match RunCli(engine(cmd))
        case Success(out) => Success(Strip(out))
        case Failure(e) => Failure(e);
      Exchange(cleanup + [Plain(cmd)], reply)
  }

  /** A failing `inspect` or `rm -f` is swallowed: two engines that agree on
      the run command give the same reply. */
  lemma RunIgnoresCleanupFailures(reg: seq<Experiment>, base: string, e1: Engine, e2: Engine, name: string)
    requires Lookup(reg, name).Success?
    requires e1(RunCommand(Lookup(reg, name).value, base)) == e2(RunCommand(Lookup(reg, name).value, base))
    ensures RunContainer(reg, base, e1, name).reply == RunContainer(reg, base, e2, name).reply
  {
  }

  /** The image the run endpoint starts is the image the build endpoint tags,
      and the container it names is the one the remove endpoint targets. */
  lemma RunUsesBuiltImage(reg: seq<Experiment>, base: string, machine: string, fs: Fs, name: string)
    requires BuildImage(reg, base, machine, fs, name).Success?
    ensures RunCommand(Lookup(reg, name).value, base)[9] == BuildImage(reg, base, machine, fs, name).value.argv[3]
    ensures RunCommand(Lookup(reg, name).value, base)[3] == RemoveArgvFor(name)[3]
  {
  }

  // ---------------------------------------------------------------------------
  // remove

  /** The remove endpoint's command: derived from the raw request name, with no
      registry lookup. */
  function RemoveArgvFor(name: string): Argv {
    ForceRemoveArgv(ContainerName(name))
  }

  /** The remove endpoint: one forced removal of the derived container name;
      replies with that name, or with the command's error. */
  function RemoveContainer(engine: Engine, name: string): (r: Exchange<string>)
    ensures r.issued == [Plain(["docker", "rm", "-f", ContainerName(name)])]
    ensures r.reply.Success? <==> engine(["docker", "rm", "-f", ContainerName(name)]).Ok?
    ensures r.reply.Success? ==> r.reply.value == ContainerName(name)
    ensures r.reply.Failure? ==> r.reply.error == RunCli(engine(RemoveArgvFor(name))).error
  {
    var cname := ContainerName(name);
    var reply := match RunCli(engine(RemoveArgvFor(name)))
      case Success(_) => Success(cname)
      case Failure(e) => Failure(e);
    Exchange([Plain(RemoveArgvFor(name))], reply)
  }

  /** Removing does not consult the registry: an unknown name is handled like
      a known one. */
  lemma RemoveIgnoresRegistry(reg: seq<Experiment>, base: string, engine: Engine, name: string)
    requires Lookup(reg, name).Failure?
    ensures RemoveContainer(engine, name).issued != []
    ensures RunContainer(reg, base, engine, name).issued == []
  {
  }

  // ---------------------------------------------------------------------------
  // artifacts

  /** The archive handed back: the directory zipped, the archive's path beside
      it, and the file name offered for download. */
  datatype Archive = Archive(rootDir: string, zipPath: string, downloadName: string)

  /** The artifacts endpoint: a 404 unless the experiment is known, has a
      non-blank artifacts path, and that path is an existing directory. */
  function DownloadArtifacts(reg: seq<Experiment>, base: string, fs: Fs, name: string)
    : (r: Result<Archive, HttpError>)
    ensures r.Success? <==> && ExpPaths(reg, base, name).Success?
                            && ExpPaths(reg, base, name).value.artifactsDir.Some?
                            && fs.IsDir(ExpPaths(reg, base, name).value.artifactsDir.value)
    ensures r.Failure? ==> r.error.status == 404
    ensures Lookup(reg, name).Failure? ==> r == Failure(NotFound(name))
    ensures Lookup(reg, name).Success? && r.Failure? ==>
      r.error == HttpError(404, "No artifacts found for experiment '" + name + "'")
    ensures r.Success? ==> r.value.rootDir == JoinPath(JoinPath(base, name), Strip(Lookup(reg, name).value.artifactsPath))
    ensures r.Success? ==> r.value.zipPath == r.value.rootDir + ".zip"
    ensures r.Success? ==> r.value.downloadName == name + "-artifacts.zip"
  {
    var p :- ExpPaths(reg, base, name);
    match p.artifactsDir
    case None => Failure(HttpError(404, "No artifacts found for experiment '" + name + "'"))
    case Some(dir) =>
      if !fs.Exists(dir) || !fs.IsDir(dir) then
        Failure(HttpError(404, "No artifacts found for experiment '" + name + "'"))
      else
        Success(Archive(dir, dir + ".zip", p.config.name + "-artifacts.zip"))
  }

  /** The `test` experiment's artifacts live in its `results` directory. */
  lemma TestPaths(base: string)
    ensures ExpPaths(Experiments, base, "test").Success?
    ensures ExpPaths(Experiments, base, "test").value.artifactsDir == Some(base + "/test/results")
  {
    TestEntry();
    ResultsStrips();
    ResolvedArtifacts(Experiments, base, "test", "results");
    assert JoinPath(JoinPath(base, "test"), "results") == base + "/test/results";
  }

  /** A known experiment whose configured path is already stripped and not
      empty keeps its artifacts in that path under its directory. */
  lemma ResolvedArtifacts(reg: seq<Experiment>, base: string, name: string, path: string)
    requires Lookup(reg, name).Success? && Lookup(reg, name).value.artifactsPath == path
    requires Strip(path) == path && path != ""
    ensures ExpPaths(reg, base, name).Success?
    ensures ExpPaths(reg, base, name).value.artifactsDir == Some(JoinPath(JoinPath(base, name), path))
  {
  }

  lemma ResultsStrips()
    ensures Strip("results") == "results"
  {
    StripSetNoop("results", Whitespace);
  }

  /** Once an experiment's artifacts directory is known, the archive depends
      only on whether that directory exists. */
  lemma ArchiveOf(reg: seq<Experiment>, base: string, fs: Fs, name: string, dir: string)
    requires ExpPaths(reg, base, name).Success? && ExpPaths(reg, base, name).value.artifactsDir == Some(dir)
    ensures !fs.IsDir(dir) ==> DownloadArtifacts(reg, base, fs, name).Failure?
    ensures fs.IsDir(dir) ==>
      DownloadArtifacts(reg, base, fs, name) == Success(Archive(dir, dir + ".zip", name + "-artifacts.zip"))
  {
  }

  /** The example of the `test` experiment: no archive while `results` is not
      a directory, an archive of it once it is. */
  lemma TestArtifactsExample(base: string, fs: Fs)
    ensures !fs.IsDir(base + "/test/results") ==> DownloadArtifacts(Experiments, base, fs, "test").Failure?
    ensures fs.IsDir(base + "/test/results") ==>
      DownloadArtifacts(Experiments, base, fs, "test") == Success(Archive(base + "/test/results", base + "/test/results.zip", "test-artifacts.zip"))
  {
    TestPaths(base);
    var dir := base + "/test/results";
    ArchiveOf(Experiments, base, fs, "test", dir);
    ZipBeside(base);
  }

  lemma ZipBeside(base: string)
    ensures (base + "/test/results") + ".zip" == base + "/test/results.zip"
    ensures "test" + "-artifacts.zip" == "test-artifacts.zip"
  {
  }
}
