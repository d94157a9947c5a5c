/**
 What the experiment manager sees of its host: the container engine's command
 line, reduced to what a command did, and the filesystem, reduced to which
 paths exist and which of them are directories or regular files.
 */
module Host {

  import opened Wrappers

  /** An argument vector handed to the operating system. */
  type Argv = seq<string>

  /** What one finished command did: exit status zero with its merged standard
      output and error, a non-zero exit with that merged output, or the
      timeout expiring before it finished. */
  datatype Outcome = Ok(out: string) | Fail(out: string) | TimedOut

  /** The container engine's CLI, as a function from argument vector to outcome. */
  type Engine = Argv -> Outcome

  /** A process launched by an endpoint: its arguments and working directory. */
  datatype Invocation = Invocation(argv: Argv, cwd: Option<string>)

  /** A process launched in the server's own working directory. */
  function Plain(argv: Argv): Invocation {
    Invocation(argv, None)
  }

  /** An error raised as an HTTP response: status code and detail text. */
  datatype HttpError = HttpError(status: int, detail: string)

  /** The processes an endpoint launched, in order, and the reply it gave. */
  datatype Exchange<T> = Exchange(issued: seq<Invocation>, reply: Result<T, HttpError>)

  /** The filesystem as a set of regular-file paths and a set of directory paths. */
  datatype Fs = Fs(files: set<string>, dirs: set<string>) {

    predicate Exists(path: string) {
      path in files || path in dirs
    }

    predicate IsDir(path: string) {
      path in dirs
    }

    predicate IsFile(path: string) {
      path in files
    }
  }

  /** `Path(dir) / name` for a relative, non-empty `name`. */
  function JoinPath(dir: string, name: string): string {
    dir + "/" + name
  }
}
