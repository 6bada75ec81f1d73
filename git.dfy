/** Package `git` of gitleaks' `detect` (detect/git/git.go): which argument vectors are
    sent to the git binary, in what order, and where the pipeline stops. Running the
    binary is left to the host (module Process); the patch parser `gitdiff.Parse` is
    represented by the bytes it is handed. */
module Git {
  import opened Wrappers
  import opened GoText
  import opened Process

  /** The binary looked up on the search path. */
  const Bin: string := "git"
  /** `math.MaxUint16`, the rename limit set at bootstrap. */
  const MaxUint16: nat := 0xFFFF
  /** The 10-second context shared by both bootstrap commands. */
  const BootstrapTimeout: nat := 10
  /** The 5-minute context of the `git log` and `git diff` commands. */
  const ExtractTimeout: nat := 5 * 60

  // ---------------------------------------------------------------------------
  // Argument vectors

  /** The arguments of `git log`: patch output without context, then either the
      caller's options split at every single space, or all refs with full history. */
  function LogArgs(logOpts: string): (args: seq<string>)
    ensures |args| >= 4 && args[..3] == ["log", "--patch", "--unified=0"]
    ensures logOpts == "" ==> args[3..] == ["--full-history", "--all"]
    ensures logOpts != "" ==> |args| == 4 + Occurrences(logOpts, ' ')
    ensures logOpts != "" ==> Join(args[3..], " ") == logOpts
    ensures logOpts != "" ==> forall i :: 3 <= i < |args| ==> ' ' !in args[i]
  {
    var base := ["log", "--patch", "--unified=0"];
    if logOpts != "" then
      var tail := Split(logOpts, ' ');
      JoinSplit(logOpts, ' ');
      SplitLength(logOpts, ' ');
      SplitNoSeparator(logOpts, ' ');
      assert (base + tail)[3..] == tail;
      base + tail
    else
      base + ["--full-history", "--all"]
  }

  /** The arguments of `git diff`: no context, the whole tree, and the index only when
      `staged`. */
  function DiffArgs(staged: bool): (args: seq<string>)
    ensures |args| >= 3 && args[..2] == ["diff", "--unified=0"]
    ensures args[|args| - 1] == "."
    ensures staged <==> "--staged" in args
    ensures staged <==> |args| == 4
    ensures !staged ==> args == ["diff", "--unified=0", "."]
  {
    var base := ["diff", "--unified=0"];
    if staged then base + ["--staged", "."] else base + ["."]
  }

  /** What `gitter.exec` passes to the binary: no pager, the handle's directory, then the
      caller's arguments unchanged. */
  function ExecArgv(path: string, args: seq<string>): (argv: seq<string>)
    ensures |argv| == 3 + |args|
    ensures argv[..3] == ["--no-pager", "-C", path] && argv[3..] == args
  {
    ["--no-pager", "-C", path] + args
  }

  /** Bootstrap step one: trust the directory in the global configuration. */
  function SafeDirectoryArgs(dir: string): (args: seq<string>)
    ensures |args| == 5 && args[..4] == ["config", "--add", "--global", "safe.directory"]
    ensures args[4] == dir
  {
    ["config", "--add", "--global", "safe.directory", dir]
  }

  /** Bootstrap step two: raise the rename limit to the decimal text of `math.MaxUint16`. */
  function RenameLimitArgs(): (args: seq<string>)
    ensures args == ["config", "diff.renameLimit", "65535"]
  {
    assert FormatUint(6) == "6";
    assert FormatUint(65) == FormatUint(6) + "5" == "65";
    assert FormatUint(655) == FormatUint(65) + "5" == "655";
    assert FormatUint(6553) == FormatUint(655) + "3" == "6553";
    assert FormatUint(65535) == FormatUint(6553) + "5" == "65535";
    ["config", "diff.renameLimit", FormatUint(MaxUint16)]
  }

  // ---------------------------------------------------------------------------
  // Errors

  datatype Error =
    | MissingBinary(bin: string, reason: string)
    | NotAbsolute(dir: string, reason: string)
    | ExecFailed(argv: seq<string>, cause: Failure)
    | ExecFailedWithOutput(argv: seq<string>, stderr: string, cause: Failure)

  /** The text of the error, as `fmt.Errorf` formats it (`%w` shows `Error()`). */
  function Message(e: Error): (m: string)
    ensures (e.ExecFailed? || e.ExecFailedWithOutput?) ==>
      var head := "error executing 'git " + Join(e.argv, " ") + "'";
      |head| <= |m| && m[..|head|] == head
  {
    match e
    case MissingBinary(bin, reason) => bin + " is required for executing: " + reason
    case NotAbsolute(dir, reason) => dir + " is not an absolute path: " + reason
    case ExecFailed(argv, cause) =>
      "error executing 'git " + Join(argv, " ") + "': " + Text(cause)
    case ExecFailedWithOutput(argv, stderr, cause) =>
      "error executing 'git " + Join(argv, " ") + "', output: " + stderr + " : " + Text(cause)
  }

  /** The classification the error path evidently intends (`errors.As` into an
      `*exec.ExitError`): an exit error reports its trimmed standard error. */
  function IntendedFailure(argv: seq<string>, cause: Failure): (e: Error)
    ensures (e.ExecFailed? || e.ExecFailedWithOutput?) && e.argv == argv && e.cause == cause
    ensures e.ExecFailedWithOutput? <==> cause.Exited?
    ensures e.ExecFailedWithOutput? ==> e.stderr == TrimSpace(cause.exit.stderr)
  {
    match cause
    case Exited(ee) => ExecFailedWithOutput(argv, TrimSpace(ee.stderr), cause)
    case NotRun(_) => ExecFailed(argv, cause)
  }

  // ---------------------------------------------------------------------------
  // The pipeline as a function of the host's answers

  /** The value of a `gitter`. */
  datatype Handle = Handle(binPath: string, path: string)

  /** What `gitdiff.Parse(bytes.NewReader(patch))` is handed; the stream of files it
      produces is outside this model. */
  datatype FileStream = Parsed(patch: seq<byte>)

  /** The processes a step issued and what it returned. */
  datatype Transcript<T> = Transcript(issued: seq<Invocation>, result: Result<T, Error>)

  /** The reply to `issued[i]`, when `history` and the commands before it were run first. */
  function ReplyTo(o: Oracle, history: seq<Invocation>, issued: seq<Invocation>, i: nat): Reply
    requires i < |issued|
  {
    o.run(history + issued[..i], issued[i])
  }

  predicate Succeeded(o: Oracle, history: seq<Invocation>, issued: seq<Invocation>, i: nat)
    requires i < |issued|
  {
    ReplyTo(o, history, issued, i).Stdout?
  }

  /** Every command except possibly the last succeeded: nothing is issued after a failure. */
  predicate StopsAtFailure(o: Oracle, history: seq<Invocation>, issued: seq<Invocation>)
  {
    forall i :: 0 <= i < |issued| - 1 ==> Succeeded(o, history, issued, i)
  }

  predicate AllSucceeded(o: Oracle, history: seq<Invocation>, issued: seq<Invocation>)
  {
    forall i :: 0 <= i < |issued| ==> Succeeded(o, history, issued, i)
  }

  /** Replies to a concatenation are the replies to its parts, the second part after the first. */
  lemma ReplyToAppend(o: Oracle, history: seq<Invocation>, a: seq<Invocation>, b: seq<Invocation>)
    ensures forall i :: 0 <= i < |a| ==> ReplyTo(o, history, a + b, i) == ReplyTo(o, history, a, i)
    ensures forall j :: 0 <= j < |b| ==> ReplyTo(o, history, a + b, |a| + j) == ReplyTo(o, history + a, b, j)
  {
    forall i | 0 <= i < |a|
      ensures ReplyTo(o, history, a + b, i) == ReplyTo(o, history, a, i)
    {
      assert (a + b)[..i] == a[..i];
    }
    forall j | 0 <= j < |b|
      ensures ReplyTo(o, history, a + b, |a| + j) == ReplyTo(o, history + a, b, j)
    {
      assert history + (a + b)[..|a| + j] == (history + a) + b[..j];
    }
  }

  /** The process `gitter.exec` starts for `args` on handle `h`. */
  function Command(h: Handle, timeout: nat, args: seq<string>): (inv: Invocation)
    ensures inv.bin == h.binPath && inv.dir == h.path && inv.timeout == timeout
    ensures |inv.argv| == 3 + |args|
    ensures inv.argv[..3] == ["--no-pager", "-C", h.path] && inv.argv[3..] == args
  {
    Invocation(h.binPath, ExecArgv(h.path, args), h.path, timeout)
  }

  /** The handle `newGitter(dir)` builds from the located binary and the resolved path. */
  function Planned(o: Oracle, dir: string): Handle
  {
    Handle(o.lookPath(Bin).path, o.absClean(dir).path)
  }

  /** The two bootstrap commands, in order. */
  function BootstrapPlan(h: Handle): (plan: seq<Invocation>)
    ensures |plan| == 2
    ensures forall i :: 0 <= i < |plan| ==>
      plan[i].bin == h.binPath && plan[i].dir == h.path && plan[i].timeout == BootstrapTimeout
    ensures |plan[0].argv| == 8 && plan[0].argv[..3] == ["--no-pager", "-C", h.path]
    ensures plan[0].argv[3..] == ["config", "--add", "--global", "safe.directory", h.path]
    ensures |plan[1].argv| == 6 && plan[1].argv[..3] == ["--no-pager", "-C", h.path]
    ensures plan[1].argv[3..] == ["config", "diff.renameLimit", "65535"]
  {
    [Command(h, BootstrapTimeout, SafeDirectoryArgs(h.path)), Command(h, BootstrapTimeout, RenameLimitArgs())]
  }

  /** `g.exec(ctx, args...)` after `history`, as the code is written: every failure is
      reported without standard error (see Gitter.Exec). */
  function ExecSpec(o: Oracle, history: seq<Invocation>, h: Handle, timeout: nat, args: seq<string>): (t: Transcript<seq<byte>>)
    ensures t.issued == [Command(h, timeout, args)]
    ensures t.result.Ok? <==> o.run(history, t.issued[0]).Stdout?
    ensures t.result.Ok? ==> t.result.value == o.run(history, t.issued[0]).bytes
    ensures t.result.Err? ==>
      t.result.error == ExecFailed(t.issued[0].argv, o.run(history, t.issued[0]).cause)
  {
    var inv := Command(h, timeout, args);
    match o.run(history, inv)
    case Stdout(bs) => Transcript([inv], Ok(bs))
    case Failed(cause) => Transcript([inv], Err(ExecFailed(inv.argv, cause)))
  }

  /** `newGitter(dir)`: locate git, resolve the path, then the two bootstrap commands,
      stopping at the first failure. */
  function NewGitterSpec(o: Oracle, history: seq<Invocation>, dir: string): (t: Transcript<Handle>)
    ensures t.issued <= BootstrapPlan(Planned(o, dir))
    ensures t.issued == [] <==> o.lookPath(Bin).err.Some? || o.absClean(dir).err.Some?
    ensures o.lookPath(Bin).err.Some? ==>
      t.result == Err(MissingBinary(Bin, o.lookPath(Bin).err.value))
    ensures o.lookPath(Bin).err.None? && o.absClean(dir).err.Some? ==>
      t.result == Err(NotAbsolute(o.absClean(dir).path, o.absClean(dir).err.value))
    ensures StopsAtFailure(o, history, t.issued)
    ensures t.result.Ok? <==> |t.issued| == 2 && AllSucceeded(o, history, t.issued)
    ensures t.result.Ok? ==> t.result.value == Planned(o, dir)
    ensures t.result.Err? && t.issued != [] ==>
      var last := |t.issued| - 1;
      !Succeeded(o, history, t.issued, last)
      && t.result.error == ExecFailed(t.issued[last].argv, ReplyTo(o, history, t.issued, last).cause)
  {
    var look := o.lookPath(Bin);
    if look.err.Some? then Transcript([], Err(MissingBinary(Bin, look.err.value)))
    else
      var abs := o.absClean(dir);
      if abs.err.Some? then Transcript([], Err(NotAbsolute(abs.path, abs.err.value)))
      else
        var h := Handle(look.path, abs.path);
        var first := ExecSpec(o, history, h, BootstrapTimeout, SafeDirectoryArgs(abs.path));
        assert history + first.issued[..0] == history;
        if first.result.Err? then Transcript(first.issued, Err(first.result.error))
        else
          var second := ExecSpec(o, history + first.issued, h, BootstrapTimeout, RenameLimitArgs());
          ReplyToAppend(o, history, first.issued, second.issued);
          assert (history + first.issued) + second.issued[..0] == history + first.issued;
          var issued := first.issued + second.issued;
          assert issued == BootstrapPlan(h);
          assert ReplyTo(o, history, issued, 1) == ReplyTo(o, history + first.issued, second.issued, 0);
          if second.result.Err? then
            assert !Succeeded(o, history, issued, 1);
            Transcript(issued, Err(second.result.error))
          else Transcript(issued, Ok(h))
  }

  /** `GitLog` and `GitDiff` after the arguments are built: `newGitter(source)`, then the
      main command, then the parser, stopping at the first failure. */
  function ExtractSpec(o: Oracle, history: seq<Invocation>, source: string, args: seq<string>): (t: Transcript<FileStream>)
    ensures var h := Planned(o, source);
      t.issued <= BootstrapPlan(h) + [Command(h, ExtractTimeout, args)]
    ensures t.issued == [] <==> o.lookPath(Bin).err.Some? || o.absClean(source).err.Some?
    ensures t.issued == [] ==>
      t.result.Err? && NewGitterSpec(o, history, source).result.Err?
      && t.result.error == NewGitterSpec(o, history, source).result.error
    ensures StopsAtFailure(o, history, t.issued)
    ensures t.result.Ok? <==> |t.issued| == 3 && AllSucceeded(o, history, t.issued)
    ensures t.result.Ok? ==>
      Succeeded(o, history, t.issued, 2) && t.result.value == Parsed(ReplyTo(o, history, t.issued, 2).bytes)
    ensures t.result.Err? && t.issued != [] ==>
      var last := |t.issued| - 1;
      !Succeeded(o, history, t.issued, last)
      && t.result.error == ExecFailed(t.issued[last].argv, ReplyTo(o, history, t.issued, last).cause)
  {
    var boot := NewGitterSpec(o, history, source);
    match boot.result
    case Err(e) =>
      Transcript(boot.issued, Err(e))
    case Ok(h) =>
      var main := ExecSpec(o, history + boot.issued, h, ExtractTimeout, args);
      ReplyToAppend(o, history, boot.issued, main.issued);
      assert (history + boot.issued) + main.issued[..0] == history + boot.issued;
      var issued := boot.issued + main.issued;
      assert issued == BootstrapPlan(h) + [Command(h, ExtractTimeout, args)];
      assert ReplyTo(o, history, issued, 2) == ReplyTo(o, history + boot.issued, main.issued, 0);
      assert Succeeded(o, history, boot.issued, 0) && Succeeded(o, history, boot.issued, 1);
      assert Succeeded(o, history, issued, 0) && Succeeded(o, history, issued, 1);
      match main.result
      case Err(e) =>
        assert !Succeeded(o, history, issued, 2);
        Transcript(issued, Err(e))
      case Ok(bs) => Transcript(issued, Ok(Parsed(bs)))
  }

  // ---------------------------------------------------------------------------
  // The code

  /** `gitter`: the located binary and the cleaned absolute directory, both fixed. */
  class Gitter {
    const binPath: string
    const path: string

    constructor (binPath: string, path: string)
      ensures this.binPath == binPath && this.path == path
    {
      this.binPath := binPath;
      this.path := path;
    }

    function ToHandle(): Handle
    {
      Handle(binPath, path)
    }

    /** `g.exec(ctx, args...)`. The exit-error test compares the error with a pointer to
        a fresh local `exec.ExitError`, which never matches, so every failure takes the
        message without standard error. */
    method Exec(host: Host, timeout: nat, args: seq<string>) returns (r: Result<seq<byte>, Error>)
      modifies host
      ensures host.issued == old(host.issued) + ExecSpec(host.oracle, old(host.issued), ToHandle(), timeout, args).issued
      ensures r == ExecSpec(host.oracle, old(host.issued), ToHandle(), timeout, args).result
    {
      var argv := ExecArgv(path, args);
      var reply := host.Run(Invocation(binPath, argv, path, timeout));
      if reply.Stdout? {
        return Ok(reply.bytes);
      }
      var cause := reply.cause;
      var ee := new ExitError("", "");
      var stderr := ee.stderr;
      if !ErrorsIs(cause, ee) {
        return Err(ExecFailed(argv, cause));
      }
      return Err(ExecFailedWithOutput(argv, TrimSpace(stderr), cause));
    }
  }

  /** `newGitter(dir)`: a gitter, or the first error met. */
  method NewGitter(host: Host, dir: string) returns (g: Gitter?, err: Option<Error>)
    modifies host
    ensures var t := NewGitterSpec(host.oracle, old(host.issued), dir);
      host.issued == old(host.issued) + t.issued
      && (g == null <==> err.Some?)
      && (g != null ==> fresh(g) && t.result == Ok(g.ToHandle()))
      && (err.Some? ==> t.result == Err(err.value))
  {
    var binPath, lookErr := host.LookPath(Bin);
    if lookErr.Some? {
      return null, Some(MissingBinary(Bin, lookErr.value));
    }
    var path, absErr := host.AbsClean(dir);
    if absErr.Some? {
      return null, Some(NotAbsolute(path, absErr.value));
    }
    g := new Gitter(binPath, path);
    var r := g.Exec(host, BootstrapTimeout, SafeDirectoryArgs(path));
    if r.Err? {
      return null, Some(r.error);
    }
    r := g.Exec(host, BootstrapTimeout, RenameLimitArgs());
    if r.Err? {
      return null, Some(r.error);
    }
    err := None;
  }

  /** `GitLog(source, logOpts)`. */
  method GitLog(host: Host, source: string, logOpts: string) returns (r: Result<FileStream, Error>)
    modifies host
    ensures var t := ExtractSpec(host.oracle, old(host.issued), source, LogArgs(logOpts));
      host.issued == old(host.issued) + t.issued && r == t.result
  {
    var args := LogArgs(logOpts);
    var g, err := NewGitter(host, source);
    if err.Some? {
      return Err(err.value);
    }
    var bs := g.Exec(host, ExtractTimeout, args);
    if bs.Err? {
      return Err(bs.error);
    }
    return Ok(Parsed(bs.value));
  }

  /** `GitDiff(source, staged)`. */
  method GitDiff(host: Host, source: string, staged: bool) returns (r: Result<FileStream, Error>)
    modifies host
    ensures var t := ExtractSpec(host.oracle, old(host.issued), source, DiffArgs(staged));
      host.issued == old(host.issued) + t.issued && r == t.result
  {
    var args := DiffArgs(staged);
    var g, err := NewGitter(host, source);
    if err.Some? {
      return Err(err.value);
    }
    var bs := g.Exec(host, ExtractTimeout, args);
    if bs.Err? {
      return Err(bs.error);
    }
    return Ok(Parsed(bs.value));
  }
}
