# gitleaks `detect/git`: git command construction and short-circuiting

This project models the part of gitleaks' `detect/git` package (`detect/git/git.go`) that
decides which argument vectors go to the `git` binary, in what order, and when the
pipeline stops. `GitLog` and `GitDiff` build the arguments of the main command. `newGitter`
locates `git`, cleans the directory and makes it absolute, then runs two configuration
commands. These mark the directory as a safe directory and raise `diff.renameLimit` to
65535. `gitter.exec` prefixes every command with `--no-pager -C <dir>`, runs it and turns a
failure into an error message. On success the main command's standard output is handed to
the patch parser.

The operating system is an oracle (module `Process`):

- `exec.LookPath` and `filepath.Abs(filepath.Clean(dir))` are functions of their argument.
- Each process gets a reply chosen as a function of everything run before it.
- The `Host` records every process it starts (binary, arguments, directory, timeout).

The pipeline is defined twice:

- as functions of the oracle (`Git.NewGitterSpec`, `Git.ExtractSpec`), each returning
  the processes issued and the result;
- as methods (`Git.NewGitter`, `Git.Gitter.Exec`, `Git.GitLog`, `Git.GitDiff`) whose
  contracts equate the host's new record and their result with those functions.

Modules:

- `Wrappers`: `Option` and `Result`.
- `GoText`: `strings.Split`, `strings.Join`, `strings.TrimSpace` and
  `strconv.FormatUint` in base 10, with their round trips.
- `Process`: the environment and the `*exec.ExitError` type.
- `Git`: the package itself.
- `GitProperties`: lemmas about the pipeline for every oracle.

Two behaviours of the code are easy to misread:

- The log override is split at every single space character (`strings.Split(logOpts, " ")`),
  not at white space in general. Two spaces in a row give an empty argument, and a tab
  separates nothing. `"--since=2020-01-01 -- src/"` becomes the three arguments
  `--since=2020-01-01`, `--` and `src/` (`GitProperties.LogOverrideExample`).
- Exit errors and start failures are reported alike. Every failure of a process gets the
  message without standard error (see Findings). A context deadline is reported the same
  way, as whatever error `cmd.Output()` returns.

## Model

| member | source | states |
|---|---|---|
| `GoText.Split` | detect/git/git.go:23 | `strings.Split` never returns an empty list; its round trips with `Join` are the next four rows |
| `GoText.Join` | detect/git/git.go:109 | joining no elements gives the empty text, and the first element starts the joined text |
| `GoText.JoinSplit` | detect/git/git.go:23 | joining the pieces of `strings.Split(s, " ")` with `" "` gives `s` back exactly |
| `GoText.SplitLength` | detect/git/git.go:23 | the split has one piece more than the number of `' '` characters |
| `GoText.SplitNoSeparator` | detect/git/git.go:23 | no piece of the split contains `' '` |
| `GoText.SplitJoin` | detect/git/git.go:23 | splitting the join of space-free pieces gives the pieces back (the other direction of the round trip) |
| `GoText.TrimSpace` | detect/git/git.go:111 | the result is the slice of the input between its leading and trailing white space, and does not start or end with white space |
| `GoText.FormatUint` | detect/git/git.go:88 | the decimal text is non-empty, all digits, and has no leading zero; zero is written `0` |
| `GoText.ParseFormatUint` | detect/git/git.go:88 | reading the decimal text of `n` back gives `n` |
| `Process.ErrorsIs` | detect/git/git.go:108 | a failure that is not an exit error never matches; when it matches, the failure is an exit error and the target is that very `*exec.ExitError` (the same object, not an equal copy), so its state and standard error are the error's |
| `Process.Host.LookPath` | detect/git/git.go:68 | `exec.LookPath` answers with the oracle's `(path, error)` pair |
| `Process.Host.AbsClean` | detect/git/git.go:72-73 | `filepath.Abs(filepath.Clean(dir))` answers with the oracle's `(path, error)` pair |
| `Process.Host.Run` | detect/git/git.go:103-105 | running a process appends it to the host's record, and the reply is the oracle's answer given everything run before |
| `Git.LogArgs` | detect/git/git.go:21-26 | the log command starts with `log --patch --unified=0`; with an empty override the tail is `--full-history --all`; otherwise the tail is space-free tokens, one more than the spaces in the override, whose join is the override |
| `Git.DiffArgs` | detect/git/git.go:45-50 | the diff command starts with `diff --unified=0` and ends with `.`; it has `--staged` (and four elements) exactly when `staged`, and otherwise it is exactly `diff --unified=0 .` |
| `Git.ExecArgv` | detect/git/git.go:102 | the arguments passed on are `--no-pager -C <path>` followed by the caller's arguments unchanged and in order |
| `Git.SafeDirectoryArgs` | detect/git/git.go:84 | the first configuration command is `config --add --global safe.directory` followed by the resolved directory |
| `Git.RenameLimitArgs` | detect/git/git.go:88 | the second configuration command is `config diff.renameLimit 65535` |
| `Git.Message` | detect/git/git.go:106-111 | the message of a failed process starts with `error executing 'git ` and the space-joined argument vector |
| `Git.IntendedFailure` | detect/git/git.go:107-111 | corrected classification: an exit error carries its trimmed standard error, and any other failure carries none |
| `Git.Command` | detect/git/git.go:102-104 | the process runs the located binary in the handle's directory under the given timeout, with `--no-pager -C <dir>` ahead of the caller's arguments |
| `Git.BootstrapPlan` | detect/git/git.go:82-88 | the bootstrap is two processes, both running the located binary in the resolved directory under the 10-second context: the safe-directory command, then `config diff.renameLimit 65535` |
| `Git.ExecSpec` | detect/git/git.go:101-113 | exactly one process is issued. The result is its standard output when it succeeds; otherwise it is the as-written error, naming the full command line and the cause, without standard error |
| `Git.NewGitterSpec` | detect/git/git.go:66-94 | the issued processes are a prefix of [safe.directory, renameLimit] on the resolved path. Nothing is issued exactly when lookup or path resolution fails, and those failures give `<bin> is required for executing` and `<dir> is not an absolute path` with the cause. Nothing is issued after a failure. A handle is returned exactly when both commands ran and succeeded, and it holds the located binary and the resolved path. Otherwise the error names the failed command |
| `Git.ExtractSpec` | detect/git/git.go:28-39 | the issued processes are a prefix of the two bootstrap commands plus the main command, and nothing is issued after a failure. When nothing is issued, the error is the one `newGitter` returned. The parser is reached exactly when all three ran and succeeded, and it gets the main command's standard output. Otherwise the error names the failed command |
| `Git.Gitter.constructor` | detect/git/git.go:77-80 | the gitter holds the located binary and the resolved directory |
| `Git.Gitter.Exec` | detect/git/git.go:101-114 | exactly one process is recorded. Its reply decides the result, and a failure is reported without standard error, because the fresh `ExitError` never matches |
| `Git.NewGitter` | detect/git/git.go:66-94 | the host's record grows by what `NewGitterSpec` issues. A gitter is returned exactly when there is no error, and it is a new object whose binary and path are the spec's handle |
| `Git.GitLog` | detect/git/git.go:20-40 | the host's record and the result are those of `ExtractSpec` for `LogArgs(logOpts)` |
| `Git.GitDiff` | detect/git/git.go:44-64 | the host's record and the result are those of `ExtractSpec` for `DiffArgs(staged)` |
| `GitProperties.LogOverrideRecoverable` | detect/git/git.go:22-23 | two non-empty overrides that give the same log command are equal |
| `GitProperties.LogOverrideTokensUnique` | detect/git/git.go:23 | the override tail is the only list of space-free tokens whose join is the override |
| `GitProperties.LogDefaultsOnlyWhenAsked` | detect/git/git.go:22-26 | the tail `--full-history --all` comes only from the empty override, or from an override that spells it out |
| `GitProperties.LogOverrideExample` | detect/git/git.go:23 | `--since=2020-01-01 -- src/` becomes three appended arguments |
| `GitProperties.LogOverrideNaiveTokens` | detect/git/git.go:23 | two spaces give an empty argument, and a tab does not separate |
| `GitProperties.RenameLimitIsMaxUint16` | detect/git/git.go:88 | the rename-limit text is all digits and reads back as 2^16 - 1 |
| `GitProperties.BootstrapIssuesBothConfigs` | detect/git/git.go:77-93 | a successful bootstrap issued exactly `config --add --global safe.directory <p>`, then `config diff.renameLimit 65535`, both prefixed with `--no-pager -C <p>`, in `<p>`, under the 10-second context. `<p>` is the path of the handle |
| `GitProperties.BootstrapStopsAtSafeDirectory` | detect/git/git.go:84-87 | when the safe-directory command fails, it is the only process issued and no handle is returned |
| `GitProperties.BootstrapStopsAtRenameLimit` | detect/git/git.go:88-91 | when the safe-directory command succeeds and the rename-limit command fails, exactly those two are issued, the main command never runs, and the error names the rename-limit command with its cause |
| `GitProperties.EveryInvocationPinned` | detect/git/git.go:102-104 | every process runs the located binary in the resolved directory, with `--no-pager -C <dir>` first |
| `GitProperties.MainCommandAfterBootstrap` | detect/git/git.go:28-35 | the main command is issued third, after both bootstrap commands succeeded. It carries the caller's arguments unchanged and runs under the 5-minute context |
| `GitProperties.FailureNamesCommand` | detect/git/git.go:36-37 | when a process fails, the error message names the full command line of the last process issued, and that line starts with `--no-pager -C <dir>` |
| `GitProperties.LogCommandShape` | detect/git/git.go:20-35 | the main log command is `log --patch --unified=0` followed by the defaults or, for an override, exactly `strings.Split(logOpts, " ")`: space-free tokens whose join is the override |
| `GitProperties.DiffCommandShape` | detect/git/git.go:44-59 | the main diff command is `diff --unified=0` followed by `--staged .` when `staged`, and by `.` alone otherwise |
| `GitProperties.WrittenMessageDiffers` | detect/git/git.go:107-111 | for an exit error, the message as written differs from the intended one right after the command line |
| `GitProperties.ExitErrorLosesStderr` | detect/git/git.go:107-109 | as written, an exit error is reported as the command line and the exit state only |
| `GitProperties.ExitErrorLosesStderrExample` | detect/git/git.go:107-111 | `GitDiff` on a directory that is not a repository: the safe-directory command succeeds, then `config diff.renameLimit 65535` (no `--global`, so it needs a repository) exits with status 128 and explains why on standard error. Exactly two processes are issued, and the error message is exactly `error executing 'git --no-pager -C /src config diff.renameLimit 65535': exit status 128`, without that explanation; it differs from the intended message |
| `GitProperties.IntendedMessageCarriesStderr` | detect/git/git.go:111 | with the corrected classification, the trimmed standard error stands right after `', output: ` |

## Findings

| source | as written | input that shows it | evidently intended | confidence | as-written member | corrected member |
|---|---|---|---|---|---|---|
| detect/git/git.go:107-111 | `errors.Is(err, &ee)` compares the returned `*exec.ExitError` with the address of a fresh local. This never matches, so every failure takes the message of line 109, and line 111 is dead. Even if it matched, `ee.Stderr` would be empty | `GitDiff` on a directory that is not a repository: the bootstrap command `config diff.renameLimit 65535` exits with status 128, standard error `fatal: not in a git directory` | exit errors reported with their trimmed standard error (`errors.As` into a `*exec.ExitError`) | high; not executed | `GitProperties.ExitErrorLosesStderrExample` | `Git.IntendedFailure` |

`Git.Gitter.Exec`, `Git.ExecSpec` and the pipeline built on them keep the classification
as written, because this is what the package does. The error they state for a failed
process is therefore the as-written one. The processes issued, their order and where the
pipeline stops depend only on whether each reply succeeded, not on how a failure is
classified.

## Left out

- Process execution (`exec.LookPath`, `exec.CommandContext`, `cmd.Output`): their answers come from the oracle. Capturing and truncating standard error are not modelled.
- `filepath.Clean` and `filepath.Abs`: these are one opaque step that may fail. The path used in the "is not an absolute path" message is whatever that step returned.
- Timeouts: an invocation records the seconds of its context (10 for both bootstrap commands, which share one context; 300 for log and diff). Deadlines, cancellation and `defer cancel()` are not modelled.
- `gitdiff.Parse` and its channel: the result names the bytes handed to the parser. The concurrent stream of files and any parser error are outside the model.
- The global git configuration that the bootstrap writes: the model records the commands only, not their effect on git's state. Bootstrap idempotence is therefore not stated.
- Error wrapping with `%w`: an error keeps its cause as a value, and its message shows the cause's `Error()` text. `errors.Is` and `errors.As` on the wrapped chain are not modelled.
- Go's `nil` byte slice: results are a `Result`, so a failure carries no bytes by construction. `nil` and empty output are not distinguished.
- `GoText.Split`: only one-character separators, the only case the package uses.
- `GoText.IsSpace` follows `unicode.IsSpace` on characters. Decoding the standard-error bytes to characters (invalid UTF-8) is not modelled.
- `Process.Oracle`: `LookPath` and path resolution depend only on their argument. So the environment is fixed during one call, while process replies may depend on everything run before.
- The zero `exec.ExitError` declared at line 107: its `Stderr`, read only on the dead branch at line 111, is modelled as empty. Nothing calls `Error()` on it.
