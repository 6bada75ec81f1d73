/** Properties of the argument vectors and of the pipeline of detect/git/git.go, for every
    answer the environment may give. */
module GitProperties {
  import opened Wrappers
  import opened GoText
  import opened Process
  import opened Git

  // ---------------------------------------------------------------------------
  // Argument vectors

  /** The log override is recovered exactly from the argument vector: two different
      non-empty overrides never produce the same command. */
  lemma LogOverrideRecoverable(a: string, b: string)
    requires a != "" && b != ""
    requires LogArgs(a) == LogArgs(b)
    ensures a == b
  {
  }

  /** The override tail is the one list of space-free tokens whose join is the override. */
  lemma LogOverrideTokensUnique(logOpts: string, tokens: seq<string>)
    requires logOpts != "" && |tokens| >= 1
    requires forall i :: 0 <= i < |tokens| ==> ' ' !in tokens[i]
    requires Join(tokens, " ") == logOpts
    ensures LogArgs(logOpts)[3..] == tokens
  {
    SplitJoin(tokens, ' ');
    var args := LogArgs(logOpts);
    forall i | 0 <= i < |args[3..]|
      ensures ' ' !in args[3..][i]
    {
      assert args[3..][i] == args[3 + i];
    }
    SplitJoin(args[3..], ' ');
  }

  /** The default tail appears only for the empty override, or for an override that
      spells out the defaults itself. */
  lemma LogDefaultsOnlyWhenAsked(logOpts: string)
    requires LogArgs(logOpts)[3..] == ["--full-history", "--all"]
    ensures logOpts == "" || logOpts == "--full-history --all"
  {
    if logOpts != "" {
      var tail := LogArgs(logOpts)[3..];
      assert tail[1..] == ["--all"];
      assert Join(["--all"], " ") == "--all";
      assert Join(tail, " ") == "--full-history" + " " + Join(tail[1..], " ");
    }
  }

  /** The override is split at every single space and nowhere else: an option with a
      space-separated value becomes three arguments. */
  lemma LogOverrideExample(logOpts: string)
    requires logOpts == "--since=2020-01-01 -- src/"
    ensures LogArgs(logOpts) == ["log", "--patch", "--unified=0", "--since=2020-01-01", "--", "src/"]
  {
    var parts := ["--since=2020-01-01", "--", "src/"];
    assert parts[1..] == ["--", "src/"] && parts[1..][1..] == ["src/"];
    assert Join(["--", "src/"], " ") == "--" + " " + "src/";
    assert Join(parts, " ") == logOpts;
    LogOverrideTokensUnique(logOpts, parts);
    var args := LogArgs(logOpts);
    assert args == args[..3] + args[3..];
  }

  /** Two consecutive spaces give an empty argument, and a tab separates nothing. */
  lemma LogOverrideNaiveTokens()
    ensures LogArgs("--all  -p")[3..] == ["--all", "", "-p"]
    ensures LogArgs("--all\t-p")[3..] == ["--all\t-p"]
  {
    var parts := ["--all", "", "-p"];
    assert parts[1..] == ["", "-p"] && parts[1..][1..] == ["-p"];
    assert Join(["-p"], " ") == "-p";
    assert Join(["", "-p"], " ") == "" + " " + "-p";
    assert Join(parts, " ") == "--all" + " " + ("" + " " + "-p");
    assert Join(parts, " ") == "--all  -p";
    SplitJoin(parts, ' ');
    assert Join(["--all\t-p"], " ") == "--all\t-p";
    SplitJoin(["--all\t-p"], ' ');
  }

  /** The rename limit sent to git reads back as the largest 16-bit unsigned value. */
  lemma RenameLimitIsMaxUint16()
    ensures var text := RenameLimitArgs()[2];
      (forall i :: 0 <= i < |text| ==> '0' <= text[i] <= '9') && ParseUint(text) == MaxUint16 == 0x1_0000 - 1
  {
    ParseFormatUint(MaxUint16);
    assert RenameLimitArgs()[2] == FormatUint(MaxUint16);
  }

  // ---------------------------------------------------------------------------
  // newGitter

  /** A successful bootstrap issued exactly the two configuration commands, in order, on
      the resolved directory, which is also the directory of the handle. */
  lemma BootstrapIssuesBothConfigs(o: Oracle, history: seq<Invocation>, dir: string)
    requires NewGitterSpec(o, history, dir).result.Ok?
    ensures var t := NewGitterSpec(o, history, dir);
      var h := t.result.value;
      var p := o.absClean(dir).path;
      h == Handle(o.lookPath(Bin).path, p)
      && |t.issued| == 2
      && t.issued[0].argv == ["--no-pager", "-C", p, "config", "--add", "--global", "safe.directory", p]
      && t.issued[1].argv == ["--no-pager", "-C", p, "config", "diff.renameLimit", "65535"]
      && t.issued[0].dir == t.issued[1].dir == p
      && t.issued[0].timeout == t.issued[1].timeout == BootstrapTimeout
  {
  }

  /** When the first configuration command fails, the second is never issued and no
      handle is returned. */
  lemma BootstrapStopsAtSafeDirectory(o: Oracle, history: seq<Invocation>, dir: string)
    requires o.lookPath(Bin).err.None? && o.absClean(dir).err.None?
    requires o.run(history, BootstrapPlan(Planned(o, dir))[0]).Failed?
    ensures var t := NewGitterSpec(o, history, dir);
      t.issued == [BootstrapPlan(Planned(o, dir))[0]] && t.result.Err?
  {
  }

  // ---------------------------------------------------------------------------
  // GitLog and GitDiff

  /** Every process the pipeline starts runs the located binary in the resolved directory,
      with `--no-pager -C <dir>` ahead of the step's own arguments. */
  lemma EveryInvocationPinned(o: Oracle, history: seq<Invocation>, source: string, args: seq<string>)
    ensures var t := ExtractSpec(o, history, source, args);
      var p := o.absClean(source).path;
      forall i :: 0 <= i < |t.issued| ==>
        t.issued[i].bin == o.lookPath(Bin).path && t.issued[i].dir == p
        && |t.issued[i].argv| >= 3 && t.issued[i].argv[..3] == ["--no-pager", "-C", p]
  {
  }

  /** The main command is issued only third, after both bootstrap commands succeeded, and
      carries the caller's arguments unchanged. */
  lemma MainCommandAfterBootstrap(o: Oracle, history: seq<Invocation>, source: string, args: seq<string>)
    requires |ExtractSpec(o, history, source, args).issued| == 3
    ensures var t := ExtractSpec(o, history, source, args);
      var h := Planned(o, source);
      t.issued[..2] == BootstrapPlan(h)
      && Succeeded(o, history, t.issued, 0) && Succeeded(o, history, t.issued, 1)
      && t.issued[2].argv == ["--no-pager", "-C", h.path] + args
      && t.issued[2].timeout == ExtractTimeout
  {
  }

  /** On failure nothing reaches the parser, and an error from a process names the whole
      command line that failed. */
  lemma FailureNamesCommand(o: Oracle, history: seq<Invocation>, source: string, args: seq<string>)
    requires ExtractSpec(o, history, source, args).result.Err?
    requires ExtractSpec(o, history, source, args).issued != []
    ensures var t := ExtractSpec(o, history, source, args);
      var failed := t.issued[|t.issued| - 1];
      var head := "error executing 'git " + Join(failed.argv, " ") + "'";
      |head| <= |Message(t.result.error)| && Message(t.result.error)[..|head|] == head
      && failed.argv[..3] == ["--no-pager", "-C", o.absClean(source).path]
  {
  }

  /** `git log` always starts with patch output without context. Without an override it
      covers all refs with full history; with one, it carries the override's pieces
      between single spaces, none of which holds a space. */
  lemma LogCommandShape(o: Oracle, history: seq<Invocation>, source: string, logOpts: string)
    requires |ExtractSpec(o, history, source, LogArgs(logOpts)).issued| == 3
    ensures var main := ExtractSpec(o, history, source, LogArgs(logOpts)).issued[2];
      main.argv[3..6] == ["log", "--patch", "--unified=0"]
      && (logOpts == "" ==> main.argv[6..] == ["--full-history", "--all"])
      && (logOpts != "" ==> Join(main.argv[6..], " ") == logOpts)
      && (logOpts != "" ==> forall i :: 6 <= i < |main.argv| ==> ' ' !in main.argv[i])
      && (logOpts != "" ==> main.argv[6..] == Split(logOpts, ' '))
  {
  }

  /** `git diff` always ends with the whole tree, and asks for the index exactly when
      `staged`: the tail is `--staged .` or `.` alone. */
  lemma DiffCommandShape(o: Oracle, history: seq<Invocation>, source: string, staged: bool)
    requires |ExtractSpec(o, history, source, DiffArgs(staged)).issued| == 3
    ensures var main := ExtractSpec(o, history, source, DiffArgs(staged)).issued[2];
      main.argv[3..5] == ["diff", "--unified=0"]
      && main.argv[|main.argv| - 1] == "."
      && main.argv[5..] == (if staged then ["--staged", "."] else ["."])
  {
  }

  // ---------------------------------------------------------------------------
  // The exit-error test

  /** For an exit error, the message as written and the intended message part right
      after the command line: one goes on with ": ", the other with ", output: ". */
  lemma WrittenMessageDiffers(argv: seq<string>, ee: ExitError)
    ensures Message(ExecFailed(argv, Exited(ee))) != Message(IntendedFailure(argv, Exited(ee)))
  {
  }

  /** As written, an exit error is reported without its standard error: the message is
      the command line and the exit state only, and never the message the intended
      classification gives. */
  lemma ExitErrorLosesStderr(o: Oracle, history: seq<Invocation>, h: Handle, timeout: nat, args: seq<string>, ee: ExitError)
    requires o.run(history, Command(h, timeout, args)) == Failed(Exited(ee))
    ensures var argv := ["--no-pager", "-C", h.path] + args;
      var written := ExecSpec(o, history, h, timeout, args).result;
      written == Err(ExecFailed(argv, Exited(ee)))
      && Message(written.error) == "error executing 'git " + Join(argv, " ") + "': " + ee.state
      && Message(written.error) != Message(IntendedFailure(argv, Exited(ee)))
  {
  }

  /** When the rename-limit command fails after the safe-directory command succeeded, the
      main command is never issued, and the error names the rename-limit command. */
  lemma BootstrapStopsAtRenameLimit(o: Oracle, history: seq<Invocation>, source: string, args: seq<string>, cause: Failure)
    requires o.lookPath(Bin).err.None? && o.absClean(source).err.None?
    requires o.run(history, BootstrapPlan(Planned(o, source))[0]).Stdout?
    requires o.run(history + [BootstrapPlan(Planned(o, source))[0]], BootstrapPlan(Planned(o, source))[1]) == Failed(cause)
    ensures var t := ExtractSpec(o, history, source, args);
      var plan := BootstrapPlan(Planned(o, source));
      t.issued == plan && t.result == Err(ExecFailed(plan[1].argv, cause))
  {
    var plan := BootstrapPlan(Planned(o, source));
    var t := ExtractSpec(o, history, source, args);
    assert t.issued != [] && t.issued[0] == plan[0];
    assert history + t.issued[..0] == history;
    assert Succeeded(o, history, t.issued, 0);
    if |t.issued| > 1 {
      assert t.issued[1] == plan[1];
      assert history + t.issued[..1] == history + [plan[0]];
      assert !Succeeded(o, history, t.issued, 1);
    }
    assert t.issued == t.issued[..2] == plan;
  }

  /** A concrete case: `GitDiff` on a directory that is not a repository. The safe-directory
      command succeeds, but `config diff.renameLimit` has no `--global`, so it needs a
      repository; git exits with status 128 and explains why on standard error. The diff
      is never issued, and the explanation is not in the message. */
  lemma ExitErrorLosesStderrExample(o: Oracle, source: string, ee: ExitError, argv: seq<string>)
    requires o.lookPath(Bin) == PathResult("/usr/bin/git", None)
    requires o.absClean(source) == PathResult("/src", None)
    requires o.run([], BootstrapPlan(Planned(o, source))[0]).Stdout?
    requires o.run([BootstrapPlan(Planned(o, source))[0]], BootstrapPlan(Planned(o, source))[1]) == Failed(Exited(ee))
    requires ee.state == "exit status 128" && ee.stderr == "fatal: not in a git directory\n"
    requires argv == ["--no-pager", "-C", "/src", "config", "diff.renameLimit", "65535"]
    ensures var t := ExtractSpec(o, [], source, DiffArgs(false));
      |t.issued| == 2 && t.result == Err(ExecFailed(argv, Exited(ee)))
      && Message(t.result.error) == "error executing 'git " + Join(argv, " ") + "': " + "exit status 128"
      && Message(t.result.error) != Message(IntendedFailure(argv, Exited(ee)))
  {
    var plan := BootstrapPlan(Planned(o, source));
    assert [] + [plan[0]] == [plan[0]];
    BootstrapStopsAtRenameLimit(o, [], source, DiffArgs(false), Exited(ee));
    var a := plan[1].argv;
    assert a == a[..3] + a[3..];
    assert a == argv;
    WrittenMessageDiffers(argv, ee);
  }

  /** With the intended classification the message of an exit error carries the trimmed
      standard error, right after the command line. */
  lemma IntendedMessageCarriesStderr(argv: seq<string>, ee: ExitError)
    ensures var m := Message(IntendedFailure(argv, Exited(ee)));
      var k := |"error executing 'git " + Join(argv, " ") + "', output: "|;
      var trimmed := TrimSpace(ee.stderr);
      k + |trimmed| <= |m| && m[k..k + |trimmed|] == trimmed
  {
  }
}
