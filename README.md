# plz extension registry and dispatcher, in Dafny

`plz` is a Go command-line tool. Its built-in commands can be extended by executables
stored in one directory, the extension store `<home>/.plz/extensions`. This project
models the store and the code that works on it:

- name validation;
- the executable filter behind `extension list`;
- `extension install` and `extension uninstall`, both as `Manager` methods and as the
  subcommands' own copies;
- the dispatch decision that runs an extension instead of a built-in;
- the exit code that `Execute` gives the process.

The filesystem is a value `FileSystem.Fs`. It records whether the store directory and its
parent `<home>/.plz` exist, maps each store entry name to an `Entry` (directory flag,
permission bits, bytes), and keeps a second map `beyond` for files reached through names
that hold a `/`. The class `FileSystem.Store` holds that state. Its methods `MkdirAll`,
`WriteFile` and `Remove` update it in place, as `os.MkdirAll`, `os.WriteFile` and
`os.Remove` do. The source file of an install is a second map, from path to entry.

`os.Stat` can fail in two ways, and the code tells them apart: `os.IsNotExist` is tested
in `List`, `Uninstall`, `Dispatch`, `FindExtension` and the subcommands, while
`IsExtension` treats every error alike. The state therefore also holds the set `denied`
of names whose stat fails for another reason (no search permission on a component, a
component that is a file, a name too long). `FileSystem.Missing` is "stat failed because
nothing is there"; `FileSystem.Stat` answers `None` for both kinds of failure.

What `filepath.Join(store, name)` reaches is decided by `FileSystem.TargetOf`:

- `""` and `"."` are the store directory itself;
- `".."` is its parent;
- a name holding `/` leads outside the store's own entries;
- anything else is a plain entry.

This is how the model shows what happens when the `Manager` methods receive names that
the subcommands would refuse. The host is Unix, so `\` is an ordinary file-name
character.

Modules follow the Go packages:

| module | file |
|---|---|
| `Extension` | `pkg/cmd/extension/manager.go` |
| `InstallCommand` | `install/install.go` |
| `UninstallCommand` | `uninstall/uninstall.go` |
| `ListCommand` | `list/list.go` |
| `Root` | `pkg/cmd/root/root.go` |
| `FileSystem` | the host's `os` package, as these files use it |
| `Errors` | the error results |

Each operation is given twice:

- a method that runs the Go steps in order, with the store updated in place or with loops and their invariants;
- a function of the old state (`InstallOutcome`, `UninstallOutcome`, `Listed`, `ListOutcome`, `RunInstallOutcome`, `RunUninstallOutcome`).

Each method's postcondition equates its result with that function. The lemmas then state
the source's promises about the function.

In four places copies of the same logic in the code behave differently, or differently
from what their names suggest; the model follows each as written:

- **Name validation.** `Manager.Install` and `Manager.Uninstall` do not validate names.
  Only the subcommands do. See `ManagerInstallCanLeaveStore` and `ManagerUninstallCanRemoveStore`.
- **Execute bits on reinstall.** Reinstalling over an existing file keeps that file's
  mode, because `os.WriteFile` applies 0755 only when it creates the file. So "install,
  then the name is an extension" holds only when the name was new or already executable.
  See `InstallMakesExtensionIff`.
- **Dispatch.** Dispatch tests only that os.Stat does not report `<store>/args[0]`
  missing, not `IsExtension`, and it does not validate `args[0]`. A name os.Stat cannot
  reach is therefore dispatched. See `DispatchIgnoresExecBitAndValidation`.
- **Missing home directory.** `NewManager` falls back to `"."` when there is no home
  directory. The subcommands fail instead. See `HomeFallbackDiffers`.

## Model

| member | source | states |
|---|---|---|
| `Extension.ValidateExtensionName` | pkg/cmd/extension/manager.go:198-209 | nil exactly for non-empty names without `/` or `\` other than `.` and `..`; the empty check wins over the separator check, which wins over the reserved-name check |
| `Extension.ValidNamesArePlainEntries` | pkg/cmd/extension/manager.go:202-207 | a name passes validation iff it denotes a plain entry of the store and holds no backslash, so a validated name cannot leave the store |
| `Extension.ExtensionDirFor` | pkg/cmd/extension/manager.go:18-26 | the Manager's directory is `<home>/.plz/extensions`, and `.plz/extensions` (the cleaned `./.plz/extensions`) when the home directory is unknown |
| `Extension.SubcommandExtensionDir` | pkg/cmd/extension/install/install.go:53-57 | the subcommands fail with the home-directory error when there is no home directory |
| `Extension.HomeFallbackDiffers` | pkg/cmd/extension/uninstall/uninstall.go:40-44 | Manager and subcommands agree on the directory when there is a home; without one the Manager uses a relative directory where the subcommands fail |
| `Extension.FindExtension` | pkg/cmd/extension/manager.go:154-160 | found (with `GetExtensionPath(dir, name)`) iff os.Stat does not report the name missing, otherwise "extension '<name>' not found"; other stat errors count as found |
| `Extension.IsExtension` | pkg/cmd/extension/manager.go:183-190 | false whenever os.Stat fails, whether the name is missing or unreachable; true only for an existing non-directory |
| `Extension.GetExtensionPath` | pkg/cmd/extension/manager.go:193-195 | the path is the store directory, one separator, then the name, so the name is recoverable from it (see `InstallCommand.BaseOfJoin`) |
| `Extension.FindIsWeakerThanIsExtension` | pkg/cmd/extension/manager.go:183-190 | every extension is found; a directory, and a name os.Stat cannot reach, are found although neither is an extension |
| `Extension.Executables` | pkg/cmd/extension/manager.go:44-56 | the filter's result holds exactly the names of non-directory entries whose Info() succeeded with an execute bit set |
| `Extension.ExecutablesAscending` | pkg/cmd/extension/manager.go:39-58 | the filter keeps ReadDir's sorted order, so its result is strictly ascending |
| `Extension.ListedExactlyTheExtensions` | pkg/cmd/extension/manager.go:45-55 | over a faithful listing with no Info() failure, a name is listed iff it is a plain store name for which IsExtension holds |
| `Extension.ListedAreExtensions` | pkg/cmd/extension/manager.go:46-54 | with Info() failures allowed, every listed name is an extension (failures only drop names) |
| `Extension.Listed` | pkg/cmd/extension/manager.go:34-42 | a store os.Stat reports missing lists nothing without error; a ReadDir failure (including on a store os.Stat cannot reach) is the read error; names come only from an existing store |
| `Extension.ListedNamesAreDistinctExtensions` | pkg/cmd/extension/manager.go:39-58 | a successful List over a faithful listing returns extensions only, ascending, each once |
| `Extension.Manager.List` | pkg/cmd/extension/manager.go:34-59 | the loop returns exactly the filter's result, and the absent-store and ReadDir-error answers |
| `Extension.Manager.PrintExtensions` | pkg/cmd/extension/manager.go:163-180 | a List error is returned with nothing printed; no extensions print only the hint; otherwise a header and one `  - <name>` line per listed name, in List's order |
| `Extension.InstallCreatesStoreFirst` | pkg/cmd/extension/manager.go:64-76 | a missing or directory source is an error returned after the store directory exists, with no entry written |
| `Extension.InstallSucceedsIff` | pkg/cmd/extension/manager.go:62-91 | Install succeeds iff the store can be made, the source is a readable non-directory, the target is not a directory and the write succeeds; `""`, `.` and `..` always fail |
| `Extension.InstallStoresSource` | pkg/cmd/extension/manager.go:78-88 | on success the entry holds the source's bytes; it has mode 0755 if new and keeps its mode if not; no other name changes |
| `Extension.InstallMakesExtensionIff` | pkg/cmd/extension/manager.go:84-88 | after a successful install the name is an extension iff it was new or already had an execute bit |
| `Extension.InstallIdempotent` | pkg/cmd/extension/manager.go:84-88 | installing the same source under the same name again succeeds and changes nothing (last install wins) |
| `Extension.InstallTwiceListedOnce` | pkg/cmd/extension/manager.go:45-55 | after two installs of a new or executable name, a faithful List shows the name exactly once |
| `Extension.Manager.Install` | pkg/cmd/extension/manager.go:62-91 | the step sequence (MkdirAll, stat, directory check, read, write) gives the new store and result of `InstallOutcome`, and keeps the store invariant |
| `Extension.InstallOutcome` | pkg/cmd/extension/manager.go:62-91 | Install keeps the store invariant, and a failed Install changes no entry (at most the store directory was created) |
| `Extension.UninstallRemovesOnlyTarget` | pkg/cmd/extension/manager.go:94-106 | a missing name gives "extension '<name>' not found"; a failing os.Remove, or a name os.Stat cannot reach, gives the removal error; both change nothing; a reachable store entry with no fault is removed, and only it |
| `Extension.InstallThenUninstall` | pkg/cmd/extension/manager.go:94-106 | uninstalling a freshly installed new name restores the store's entries |
| `Extension.Manager.Uninstall` | pkg/cmd/extension/manager.go:94-106 | stat then remove gives the new store and result of `UninstallOutcome` |
| `Extension.UninstallOutcome` | pkg/cmd/extension/manager.go:94-106 | Uninstall keeps the store invariant, a failure changes nothing, and after a success the name no longer exists |
| `Extension.ExecuteExtension` | pkg/cmd/extension/manager.go:137-151 | running an extension always counts as handled |
| `Extension.DispatchDecision` | pkg/cmd/extension/manager.go:109-134 | not handled iff args are empty, a built-in resolves them, or os.Stat reports args[0] missing; otherwise the child gets exactly args[1:] and its ending decides |
| `Extension.Dispatch` | pkg/cmd/extension/manager.go:109-134 | every extension no built-in shadows is dispatched, and whatever is dispatched has non-empty args, no built-in, and a name os.Stat does not report missing |
| `Extension.BuiltinPrecedence` | pkg/cmd/extension/manager.go:116-119 | when a built-in resolves the arguments, no extension is dispatched |
| `Extension.DispatchIgnoresExecBitAndValidation` | pkg/cmd/extension/manager.go:121-125 | a non-executable entry is dispatched, so is a name with `/` that validation refuses, and so is a name os.Stat cannot reach (`notes/x` with `notes` a file) |
| `Extension.Manager.NewManager` | pkg/cmd/extension/manager.go:18-26 | the Manager's directory is `ExtensionDirFor(home)` |
| `FileSystem.Overwritten` | pkg/cmd/extension/manager.go:86 | what os.WriteFile leaves: a regular file with the new bytes, mode 0755 if it is new and its old mode if it existed |
| `InstallCommand.Base` | pkg/cmd/extension/install/install.go:38 | `filepath.Base` is `.` for the empty path, `/` exactly for a path of slashes, and otherwise the last slash-free element before any trailing slashes |
| `InstallCommand.BaseOfJoin` | pkg/cmd/extension/install/install.go:37-38 | the default name of `dir/name` is `name` |
| `InstallCommand.BaseIgnoresTrailingSlash` | pkg/cmd/extension/install/install.go:38 | a trailing slash does not change the default name |
| `InstallCommand.DefaultNameValidation` | pkg/cmd/extension/install/install.go:36-39 | a default name is never rejected as empty; it is rejected iff it is `.`, `..`, `/` or holds a backslash |
| `InstallCommand.ParseInstallArgs` | pkg/cmd/extension/install/install.go:30-39 | 1 or 2 positional arguments are accepted; the name is args[1] verbatim, or else the base of args[0] |
| `InstallCommand.RunInstallRejectsFirst` | pkg/cmd/extension/install/install.go:49-56 | an invalid name, and then a missing home directory, are refused with no filesystem change |
| `InstallCommand.RunInstallAgreesWithManager` | pkg/cmd/extension/install/install.go:59-84 | with a valid name and a home, runInstall behaves as Manager.Install |
| `InstallCommand.RunInstallStaysInStore` | pkg/cmd/extension/install/install.go:48-90 | runInstall never writes outside the store's entries; on success the name is a store entry holding the source's bytes |
| `InstallCommand.ManagerInstallCanLeaveStore` | pkg/cmd/extension/manager.go:84-88 | Manager.Install writes `../tool` outside the store where runInstall refuses it |
| `InstallCommand.RunInstall` | pkg/cmd/extension/install/install.go:48-90 | the subcommand's step sequence gives the new store and result of `RunInstallOutcome` |
| `InstallCommand.RunInstallOutcome` | pkg/cmd/extension/install/install.go:48-90 | runInstall keeps the store invariant, and a failed runInstall changes no entry |
| `UninstallCommand.ParseUninstallArgs` | pkg/cmd/extension/uninstall/uninstall.go:25-28 | exactly one positional argument is accepted, and it is the name |
| `UninstallCommand.RunUninstallFailuresChangeNothing` | pkg/cmd/extension/uninstall/uninstall.go:35-53 | an invalid name, a missing home, a missing entry, and a failing removal (or an unreachable name) give their errors in that precedence, and none changes the filesystem |
| `UninstallCommand.RunUninstallAgreesWithManager` | pkg/cmd/extension/uninstall/uninstall.go:45-53 | with a valid name and a home, runUninstall behaves as Manager.Uninstall |
| `UninstallCommand.RunUninstallRemovesOneEntry` | pkg/cmd/extension/uninstall/uninstall.go:35-53 | runUninstall succeeds iff the name is valid, there is a home, the name is a reachable store entry and the host lets it go; it then removes exactly that entry |
| `UninstallCommand.ManagerUninstallCanRemoveStore` | pkg/cmd/extension/manager.go:94-106 | Manager.Uninstall of `""` removes an empty store directory; runUninstall refuses the empty name |
| `UninstallCommand.RunUninstall` | pkg/cmd/extension/uninstall/uninstall.go:35-58 | the subcommand's steps give the new store and result of `RunUninstallOutcome` |
| `UninstallCommand.RunUninstallOutcome` | pkg/cmd/extension/uninstall/uninstall.go:35-58 | runUninstall keeps the store invariant, and a failure changes nothing |
| `ListCommand.Rows` | pkg/cmd/extension/list/list.go:63-73 | each printed row is a kept name whose re-stat succeeded, with the size that stat reported |
| `ListCommand.RowsAscending` | pkg/cmd/extension/list/list.go:64-73 | rows keep the kept names' order |
| `ListCommand.RowsComplete` | pkg/cmd/extension/list/list.go:64-73 | when every kept name still exists, every one is printed, in order, with its size |
| `ListCommand.ListOutcome` | pkg/cmd/extension/list/list.go:26-78 | no home directory is an error; the only errors are the home-directory and ReadDir failures |
| `ListCommand.ListOutcomeAgreesWithManager` | pkg/cmd/extension/list/list.go:33-61 | with a home, the "No extensions installed." hint appears iff Manager.List returns no names, and runList fails iff Manager.List fails |
| `ListCommand.ShownRowsAreTheExtensions` | pkg/cmd/extension/list/list.go:44-73 | over a faithful listing, the printed rows name each extension of the store exactly once |
| `ListCommand.RunList` | pkg/cmd/extension/list/list.go:26-78 | the filtering loop and the printing loop give `ListOutcome` |
| `Root.Execute` | pkg/cmd/root/root.go:34-57 | the tree runs iff Dispatch did not handle the arguments, and then the code is ExitError (1) on a tree error and ExitOK (0) otherwise; when dispatched, the code is the child's status |
| `Root.ChildStatus` | pkg/cmd/extension/manager.go:143-150 | the process reports success exactly when the child exited 0; an exited child's status is passed on; a child that cannot start gives ExitError |
| `Root.ExitStatusPassesThrough` | pkg/cmd/extension/manager.go:143-148 | a dispatched extension's exit status, zero included, becomes the process's exit code, and the tree never runs |
| `Root.SpawnFailureIsExitError` | pkg/cmd/root/root.go:43-45 | a child that cannot be started gives ExitError and the tree does not run |
| `Root.BuiltinBeatsExtension` | pkg/cmd/root/root.go:28-29 | with extensions `extension` and `list` installed, `plz extension list` runs the built-in, while `plz list`, which the root's only built-in `extension` does not resolve, runs the extension |

## Left out

- Process spawning, inheritance of standard input, output and error, and `os.Exit` are
  not modelled. The child is a function from `(name, arguments)` to how it ended:
  `Exited(code)`, `Signaled` or `SpawnFailed`. A signal gives `ExitCode() == -1`, which
  `executeExtension` passes to `os.Exit` itself; that the operating system keeps only
  the low 8 bits (so the shell sees 255) is not modelled.
- cobra is not modelled. `rootCmd.Find` becomes a predicate "the arguments resolve to a
  non-root built-in", and `rootCmd.Execute` becomes a boolean "the tree returned an
  error". `pkg/cmd/extension/extension.go` is not part of this model.
- The `NewCmdRoot` error branch (pkg/cmd/root/root.go:35-39) is left out, because
  `NewCmdRoot` always returns a nil error.
- `os.UserHomeDir` becomes an `Option<string>` parameter. `os.ReadDir`'s answer becomes a
  `listing` parameter, and `FileSystem.ListingOf` states when it is faithful. `Info()` can
  fail in the listing, but races between processes are not modelled.
- Host failures that the state does not determine are booleans in `Faults`: a failing
  create, read, write, remove or directory read (permissions on the file itself, a full
  disk, a non-empty subdirectory).
- A name os.Stat cannot reach (in `denied`) is taken to be unreachable for os.Remove,
  os.WriteFile, os.ReadDir and os.MkdirAll too, since they resolve the same path; an
  error that only some of them meet is not modelled.
- `filepath.Join` path cleaning is not modelled. Every name holding `/` is treated as
  leaving the store, including `x/`, `./x` and `a/../x`, which clean back to a store entry.
- The contents of directories are not modelled.
- Symbolic links are not modelled.
- Windows separators are not modelled.
- The umask is not modelled: a new file's mode is exactly 0755.
- A source path that names a store entry is not modelled. The source map and the store
  are independent.
- Error message texts and the column formatting of `runList` are not modelled. Each error is a constructor of
  `Errors.Error`, and a printed line is a `(name, size)` row.
- `Manager.ExtensionDir`, a getter, is not modelled.
- Concurrent invocations are not modelled.
