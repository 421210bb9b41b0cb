/** pkg/cmd/root/root.go: Execute, which tries Dispatch before the command tree
    and turns the outcome into the process's exit code. */
module Root {
  import opened Errors
  import opened FileSystem
  import opened Extension

  const ExitOK: int := 0
  const ExitError: int := 1

  /** The process's exit code, and whether the built-in command tree was run. */
  datatype Run = Run(code: int, treeRan: bool)

  /** The exit code a dispatched child's ending becomes: success exactly when the
      child exited 0, its own status when it exited. */
  function ChildStatus(c: Child): (code: int)
    ensures code == ExitOK <==> c == Exited(0)
    ensures c.Exited? ==> code == c.code
    ensures c == SpawnFailed ==> code == ExitError
  {
    match c
    case Exited(code) => code
    case Signaled => -1
    case SpawnFailed => ExitError
  }

  /** Execute. `fs` is the store at NewManager's directory; `builtin` and `run` are
      as for Dispatch; `treeFails` says whether rootCmd.Execute returns an error.
      A Terminated dispatch stands for os.Exit inside executeExtension: Execute
      never returns then, and the code is the process's status all the same. */
  function Execute(fs: Fs, args: seq<string>, builtin: seq<string> -> bool,
                   run: (string, seq<string>) -> Child, treeFails: bool): (r: Run)
    ensures r.treeRan <==> |args| == 0 || builtin(args) || Missing(fs, args[0])
    ensures r.treeRan ==> r.code == if treeFails then ExitError else ExitOK
    ensures !r.treeRan ==> r.code == ChildStatus(run(args[0], args[1..]))
  {
    match Dispatch(fs, args, builtin, run)
    case Terminated(code) => Run(code, false)
    case Handled(status) => Run(if status.Err? then ExitError else ExitOK, false)
    case NotHandled => Run(if treeFails then ExitError else ExitOK, true)
  }

  /** Exit-code transparency: when an extension is dispatched and exits, the process
      exits with the same status, zero included, and the command tree never runs. */
  lemma ExitStatusPassesThrough(fs: Fs, args: seq<string>, builtin: seq<string> -> bool,
                                run: (string, seq<string>) -> Child, treeFails: bool, code: nat)
    requires |args| > 0 && !builtin(args) && !Missing(fs, args[0])
    requires run(args[0], args[1..]) == Exited(code)
    ensures Execute(fs, args, builtin, run, treeFails) == Run(code, false)
  {
  }

  /** A child that cannot be started gives ExitError, not the tree. */
  lemma SpawnFailureIsExitError(fs: Fs, args: seq<string>, builtin: seq<string> -> bool,
                                run: (string, seq<string>) -> Child, treeFails: bool)
    requires |args| > 0 && !builtin(args) && !Missing(fs, args[0])
    requires run(args[0], args[1..]) == SpawnFailed
    ensures Execute(fs, args, builtin, run, treeFails) == Run(ExitError, false)
  {
  }

  /** plz's only built-in at the top is `extension` (alias `ext`): with extensions
      named `extension` and `list` installed, `plz extension list` runs the built-in,
      while `plz list`, which no built-in resolves, runs the extension. */
  lemma BuiltinBeatsExtension(fs: Fs, builtin: seq<string> -> bool,
                              run: (string, seq<string>) -> Child, treeFails: bool)
    requires IsExtension(fs, "extension") && builtin(["extension", "list"])
    requires IsExtension(fs, "list") && !builtin(["list"])
    ensures Execute(fs, ["extension", "list"], builtin, run, treeFails).treeRan
    ensures !Execute(fs, ["list"], builtin, run, treeFails).treeRan
  {
  }
}
