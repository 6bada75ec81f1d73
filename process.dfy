/** The operating system as git.go sees it: `exec.LookPath`, `filepath.Abs` after
    `filepath.Clean`, and running a child process with `cmd.Output()`. What these
    answer is chosen by an oracle; the host records every process it is asked to run. */
module Process {
  import opened Wrappers

  newtype byte = b: int | 0 <= b < 256

  /** An `*exec.ExitError`: the process ran and did not exit successfully. */
  class ExitError {
    /** The text of `Error()`, for instance "exit status 128". */
    const state: string
    /** What the process wrote to standard error. */
    const stderr: string

    constructor (state: string, stderr: string)
      ensures this.state == state && this.stderr == stderr
    {
      this.state := state;
      this.stderr := stderr;
    }
  }

  /** The error `cmd.Output()` returns: an exit error, or any other failure to run the
      process to completion (binary not startable, context expired, ...). */
  datatype Failure = Exited(exit: ExitError) | NotRun(text: string)

  /** `err.Error()`. */
  function Text(f: Failure): string
  {
    match f
    case Exited(e) => e.state
    case NotRun(text) => text
  }

  /** `errors.Is(err, target)` for a target of type `*exec.ExitError`. That type has no
      `Is` and no `Unwrap` method, so only the identity of the pointer is compared: when it
      matches, the target is the returned error itself. */
  function ErrorsIs(err: Failure, target: ExitError): (matches: bool)
    ensures !err.Exited? ==> !matches
    ensures matches ==> err.Exited? && err.exit == target
    ensures matches ==> Text(err) == target.state && err.exit.stderr == target.stderr
  {
    err.Exited? && err.exit == target
  }

  /** What `cmd.Output()` returns: standard output, or an error. */
  datatype Reply = Stdout(bytes: seq<byte>) | Failed(cause: Failure)

  /** One child process: the binary, its arguments (without `argv[0]`), `cmd.Dir`, and
      the timeout in seconds of the context it runs under. */
  datatype Invocation = Invocation(bin: string, argv: seq<string>, dir: string, timeout: nat)

  /** A Go `(string, error)` pair. */
  datatype PathResult = PathResult(path: string, err: Option<string>)

  /** The answers of the environment: `exec.LookPath(file)`,
      `filepath.Abs(filepath.Clean(dir))`, and the reply of a process given every
      process run before it. */
  datatype Oracle = Oracle(
    lookPath: string -> PathResult,
    absClean: string -> PathResult,
    run: (seq<Invocation>, Invocation) -> Reply)

  class Host {
    const oracle: Oracle
    /** Every process run so far, in order. */
    var issued: seq<Invocation>

    constructor (oracle: Oracle)
      ensures this.oracle == oracle && issued == []
    {
      this.oracle := oracle;
      issued := [];
    }

    /** `exec.LookPath(file)`. */
    method LookPath(file: string) returns (path: string, err: Option<string>)
      ensures PathResult(path, err) == oracle.lookPath(file)
    {
      var r := oracle.lookPath(file);
      path, err := r.path, r.err;
    }

    /** `filepath.Abs(filepath.Clean(dir))`. */
    method AbsClean(dir: string) returns (path: string, err: Option<string>)
      ensures PathResult(path, err) == oracle.absClean(dir)
    {
      var r := oracle.absClean(dir);
      path, err := r.path, r.err;
    }

    /** Runs one process and waits for it: `exec.CommandContext(...).Output()`. */
    method Run(inv: Invocation) returns (reply: Reply)
      modifies this`issued
      ensures issued == old(issued) + [inv]
      ensures reply == oracle.run(old(issued), inv)
    {
      reply := oracle.run(issued, inv);
      issued := issued + [inv];
    }
  }
}
