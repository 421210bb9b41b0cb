/** pkg/cmd/extension/manager.go: the extension registry (name validation, the
    executable filter, install, uninstall, lookup) and the dispatch decision. */
module Extension {
  import opened Errors
  import opened FileSystem

  // ----- Name validation -----

  /** ValidateExtensionName; install.go and uninstall.go hold verbatim copies,
      which this one definition models too. None stands for a nil error. */
  function ValidateExtensionName(name: string): (r: Option<NameError>)
    ensures r == None <==> name != "" && '/' !in name && '\\' !in name && name != "." && name != ".."
    ensures r == Some(EmptyName) <==> name == ""
    ensures r == Some(PathSeparator) <==> name != "" && ('/' in name || '\\' in name)
    ensures r == Some(ReservedName) <==> name == "." || name == ".."
  {
    if name == "" then Some(EmptyName)
    else if '/' in name || '\\' in name then Some(PathSeparator)
    else if name == "." || name == ".." then Some(ReservedName)
    else None
  }

  /** What validation protects: the accepted names are exactly the plain file names
      inside the store, less those holding a backslash (a file-name character on Unix,
      refused so that the rule also holds where it separates paths). */
  lemma ValidNamesArePlainEntries(name: string)
    ensures ValidateExtensionName(name) == None <==> TargetOf(name) == Plain && '\\' !in name
  {
  }

  // ----- Store location -----

  const StoreSuffix: string := "/.plz/extensions"

  /** NewManager's directory: falls back to "." when there is no home directory,
      which filepath.Join cleans away (the cleaning of a home path is not modelled). */
  function ExtensionDirFor(home: Option<string>): (dir: string)
    ensures home.Some? ==> dir == home.value + StoreSuffix
    ensures home.None? ==> dir == ".plz/extensions"
  {
    if home.Some? then home.value + StoreSuffix else StoreSuffix[1..]
  }

  /** The subcommands resolve the same directory but refuse to run without a home. */
  function SubcommandExtensionDir(home: Option<string>): (r: Result<string>)
    ensures r.Failure? <==> home.None?
    ensures r.Failure? ==> r.error == NoHomeDir
  {
    if home.None? then Failure(NoHomeDir) else Success(home.value + StoreSuffix)
  }

  /** Manager and subcommands agree on the directory whenever there is a home; without
      one the Manager works in a relative directory where the subcommands stop. */
  lemma HomeFallbackDiffers(home: Option<string>)
    ensures home.Some? ==> SubcommandExtensionDir(home) == Success(ExtensionDirFor(home))
    ensures home.None? ==> SubcommandExtensionDir(home).Failure? && ExtensionDirFor(home)[0] != '/'
  {
  }

  // ----- Lookup -----

  /** IsExtension: the entry exists, is not a directory and has an execute bit;
      a failed stat is false, whatever the error. */
  function IsExtension(fs: Fs, name: string): (b: bool)
    ensures Missing(fs, name) || name in fs.denied ==> !b
    ensures b ==> Stat(fs, name).Some? && !Stat(fs, name).value.isDir
  {
    match Stat(fs, name)
    case None => false
    case Some(e) => !e.isDir && HasExecBit(e.mode)
  }

  /** GetExtensionPath: the store directory, a separator, the name (the cleaning
      filepath.Join does is not modelled). */
  function GetExtensionPath(extensionDir: string, name: string): (p: string)
    ensures |p| == |extensionDir| + 1 + |name|
    ensures p[..|extensionDir|] == extensionDir && p[|extensionDir|] == '/'
    ensures p[|extensionDir| + 1..] == name
  {
    extensionDir + "/" + name
  }

  /** FindExtension: only "does not exist" is not found; any other stat error, and
      a non-executable entry, count as found. */
  function FindExtension(extensionDir: string, fs: Fs, name: string): (r: Result<string>)
    ensures r.Success? <==> !Missing(fs, name)
    ensures r.Success? ==> r.value == GetExtensionPath(extensionDir, name)
    ensures r.Failure? ==> r.error == NotFound(name)
  {
    if Missing(fs, name) then Failure(NotFound(name))
    else Success(GetExtensionPath(extensionDir, name))
  }

  /** Every extension is found; a directory is found too, and so is a name os.Stat
      cannot reach, though neither is an extension. */
  lemma FindIsWeakerThanIsExtension(dir: string, fs: Fs, name: string)
    ensures IsExtension(fs, name) ==> FindExtension(dir, fs, name).Success?
    ensures Stat(fs, name).Some? && Stat(fs, name).value.isDir ==>
              FindExtension(dir, fs, name).Success? && !IsExtension(fs, name)
    ensures name in fs.denied ==> FindExtension(dir, fs, name).Success? && !IsExtension(fs, name)
  {
  }

  // ----- The executable filter shared by List and runList -----

  /** The filter's test on one directory entry: not a directory, Info() succeeds,
      some execute bit is set. */
  predicate Kept(e: DirEntry) {
    !e.isDir && e.info.Some? && HasExecBit(e.info.value)
  }

  /** The names the filter keeps, in listing order. */
  function Executables(l: seq<DirEntry>): (r: seq<string>)
    ensures |r| <= |l|
    ensures forall n :: n in r <==> exists i :: 0 <= i < |l| && l[i].name == n && Kept(l[i])
  {
    if l == [] then []
    else
      var init := l[..|l| - 1];
      assert forall i :: 0 <= i < |init| ==> init[i] == l[i];
      Executables(init) + (if Kept(l[|l| - 1]) then [l[|l| - 1].name] else [])
  }

  /** The filter keeps the listing's order: a sorted listing gives a strictly
      ascending result, so no name is kept twice. */
  lemma {:induction false} ExecutablesAscending(l: seq<DirEntry>)
    requires Sorted(l)
    ensures Ascending(Executables(l))
  {
    if l != [] {
      var init := l[..|l| - 1];
      assert Sorted(init) by {
        forall i, j | 0 <= i < j < |init|
          ensures Below(init[i].name, init[j].name)
        {
          assert init[i] == l[i] && init[j] == l[j];
        }
      }
      ExecutablesAscending(init);
      var head := Executables(init);
      var last := l[|l| - 1];
      if Kept(last) {
        forall k | 0 <= k < |head|
          ensures Below(head[k], last.name)
        {
          assert head[k] in head;
          var i :| 0 <= i < |init| && init[i].name == head[k] && Kept(init[i]);
          assert init[i] == l[i];
        }
        assert Executables(l) == head + [last.name];
      } else {
        assert Executables(l) == head;
      }
    }
  }

  /** Over a faithful listing in which every Info() succeeds, the filter keeps
      exactly the plain store names for which IsExtension holds. */
  lemma ListedExactlyTheExtensions(fs: Fs, l: seq<DirEntry>, name: string)
    requires Valid(fs) && ListingOf(l, fs)
    requires forall i :: 0 <= i < |l| ==> l[i].info.Some?
    ensures name in Executables(l) <==> TargetOf(name) == Plain && IsExtension(fs, name)
  {
    if TargetOf(name) == Plain && IsExtension(fs, name) {
      assert name in fs.files;
      var i :| 0 <= i < |l| && l[i].name == name;
      assert Kept(l[i]);
    }
  }

  /** With Info() failures allowed, the filter keeps only extensions. */
  lemma ListedAreExtensions(fs: Fs, l: seq<DirEntry>, name: string)
    requires Valid(fs) && ListingOf(l, fs)
    ensures name in Executables(l) ==> IsExtension(fs, name)
  {
  }

  /** Manager.List: nothing (and no error) when the store does not exist, the read
      error when os.ReadDir fails (as it does on a store os.Stat cannot reach), the
      filtered listing otherwise. */
  function Listed(fs: Fs, listing: seq<DirEntry>, f: Faults): (r: Result<seq<string>>)
    ensures Missing(fs, "") ==> r == Success([])
    ensures !Missing(fs, "") && (f.readDirFails || "" in fs.denied) ==> r == Failure(ReadDirFailed)
    ensures r.Success? && r.value != [] ==> fs.present
  {
    if Missing(fs, "") then Success([])
    else if f.readDirFails || "" in fs.denied then Failure(ReadDirFailed)
    else Success(Executables(listing))
  }

  /** List on a store whose listing is faithful: every name it returns is an
      extension, each once, in ascending order. */
  lemma ListedNamesAreDistinctExtensions(fs: Fs, listing: seq<DirEntry>, f: Faults)
    requires Valid(fs) && ListingOf(listing, fs)
    ensures Listed(fs, listing, f).Success? ==>
              var names := Listed(fs, listing, f).value;
              && Ascending(names)
              && (forall i, j :: 0 <= i < j < |names| ==> names[i] != names[j])
              && (forall n :: n in names ==> IsExtension(fs, n))
  {
    if Listed(fs, listing, f) == Success(Executables(listing)) {
      ExecutablesAscending(listing);
      AscendingDistinct(Executables(listing));
      forall n | n in Executables(listing)
        ensures IsExtension(fs, n)
      {
        ListedAreExtensions(fs, listing, n);
      }
    }
  }

  // ----- Install and Uninstall, as effects on the filesystem -----

  /** The filesystem after an operation, and what the operation returned. */
  datatype Effect = Effect(after: Fs, result: Status)

  /** Manager.Install: create the store, check the source, read it, write the entry.
      The name is not validated. */
  function InstallOutcome(fs: Fs, src: map<string, Entry>, sourcePath: string,
                          name: string, f: Faults): (e: Effect)
    requires Valid(fs)
    ensures Valid(e.after)
    ensures e.result.Err? ==> e.after.files == fs.files && e.after.beyond == fs.beyond
  {
    match MkdirAllEffect(fs, f)
    case None => Effect(fs, Err(CreateDirFailed))
    case Some(made) =>
      if sourcePath !in src then Effect(made, Err(SourceNotFound))
      else if src[sourcePath].isDir then Effect(made, Err(SourceIsDirectory))
      else if f.readFails then Effect(made, Err(ReadSourceFailed))
      else match WriteFileEffect(made, name, src[sourcePath].data, f)
        case None => Effect(made, Err(WriteFailed))
        case Some(written) => Effect(written, Ok)
  }

  /** The store directory is created before the source is checked: a missing or
      directory source fails after the directory exists, and no entry is written. */
  lemma InstallCreatesStoreFirst(fs: Fs, src: map<string, Entry>, sourcePath: string,
                                 name: string, f: Faults)
    requires Valid(fs) && "" !in fs.denied && (fs.present || !f.mkdirFails)
    requires sourcePath !in src || src[sourcePath].isDir
    ensures var e := InstallOutcome(fs, src, sourcePath, name, f);
            && e.result == Err(if sourcePath !in src then SourceNotFound else SourceIsDirectory)
            && e.after.present
            && e.after.files == fs.files && e.after.beyond == fs.beyond
  {
  }

  /** When Install succeeds: it needs the store, a readable regular source, and a
      target that is not a directory; "", "." and ".." therefore always fail. */
  lemma InstallSucceedsIff(fs: Fs, src: map<string, Entry>, sourcePath: string,
                           name: string, f: Faults)
    requires Valid(fs)
    ensures InstallOutcome(fs, src, sourcePath, name, f).result == Ok <==>
              && "" !in fs.denied && (fs.present || !f.mkdirFails)
              && sourcePath in src && !src[sourcePath].isDir && !f.readFails
              && (TargetOf(name) == Plain || TargetOf(name) == Elsewhere)
              && name !in fs.denied
              && !(Stat(fs, name).Some? && Stat(fs, name).value.isDir)
              && !f.writeFails
  {
    if MkdirAllEffect(fs, f).Some? {
      var made := MkdirAllEffect(fs, f).value;
      assert Stat(made, "") == Some(Directory);
      if ".." !in fs.denied {
        assert Stat(made, "..") == Some(Directory);
      }
      if TargetOf(name) == Plain || TargetOf(name) == Elsewhere {
        assert Stat(made, name) == Stat(fs, name);
      }
    }
  }

  /** A successful Install stores the source's bytes under the name: a new entry
      gets mode 0755, an existing one keeps its mode (last install wins), and no
      other name changes. */
  lemma InstallStoresSource(fs: Fs, src: map<string, Entry>, sourcePath: string,
                            name: string, f: Faults)
    requires Valid(fs) && InstallOutcome(fs, src, sourcePath, name, f).result == Ok
    ensures var after := InstallOutcome(fs, src, sourcePath, name, f).after;
            && after.present
            && Stat(after, name).Some?
            && !Stat(after, name).value.isDir
            && Stat(after, name).value.data == src[sourcePath].data
            && Stat(after, name).value.mode ==
                 (if Stat(fs, name).Some? then Stat(fs, name).value.mode else Perm0755)
            && (forall n :: n != name && TargetOf(n) in {Plain, Elsewhere} ==> Stat(after, n) == Stat(fs, n))
  {
    InstallSucceedsIff(fs, src, sourcePath, name, f);
    var made := MkdirAllEffect(fs, f).value;
    assert Stat(made, name) == Stat(fs, name);
    forall n | n != name && TargetOf(n) in {Plain, Elsewhere}
      ensures Stat(InstallOutcome(fs, src, sourcePath, name, f).after, n) == Stat(fs, n)
    {
      assert Stat(made, n) == Stat(fs, n);
    }
  }

  /** After a successful Install the name is an extension exactly when it was new
      or already had an execute bit: os.WriteFile keeps an existing file's mode. */
  lemma InstallMakesExtensionIff(fs: Fs, src: map<string, Entry>, sourcePath: string,
                                 name: string, f: Faults)
    requires Valid(fs) && InstallOutcome(fs, src, sourcePath, name, f).result == Ok
    ensures IsExtension(InstallOutcome(fs, src, sourcePath, name, f).after, name) <==>
              Stat(fs, name).None? || HasExecBit(Stat(fs, name).value.mode)
  {
    InstallStoresSource(fs, src, sourcePath, name, f);
  }

  /** Installing the same source under the same name twice leaves what one install left. */
  lemma InstallIdempotent(fs: Fs, src: map<string, Entry>, sourcePath: string,
                          name: string, f: Faults)
    requires Valid(fs) && InstallOutcome(fs, src, sourcePath, name, f).result == Ok
    ensures var once := InstallOutcome(fs, src, sourcePath, name, f).after;
            InstallOutcome(once, src, sourcePath, name, f) == Effect(once, Ok)
  {
    var once := InstallOutcome(fs, src, sourcePath, name, f).after;
    InstallStoresSource(fs, src, sourcePath, name, f);
    InstallSucceedsIff(fs, src, sourcePath, name, f);
    InstallSucceedsIff(once, src, sourcePath, name, f);
    var again := WriteFileEffect(once, name, src[sourcePath].data, f).value;
    assert Stat(again, name) == Stat(once, name);
    if TargetOf(name) == Plain {
      assert again.files == once.files;
    } else {
      assert again.beyond == once.beyond;
    }
  }

  /** Installing a new (or executable) plain name twice, then listing the store
      faithfully, shows the name exactly once. */
  lemma InstallTwiceListedOnce(fs: Fs, src: map<string, Entry>, sourcePath: string,
                               name: string, f: Faults, listing: seq<DirEntry>)
    requires Valid(fs) && TargetOf(name) == Plain && !f.readDirFails
    requires Stat(fs, name).None? || HasExecBit(Stat(fs, name).value.mode)
    requires InstallOutcome(fs, src, sourcePath, name, f).result == Ok
    requires var twice := InstallOutcome(InstallOutcome(fs, src, sourcePath, name, f).after, src, sourcePath, name, f).after;
             && ListingOf(listing, twice)
             && (forall i :: 0 <= i < |listing| ==> listing[i].info.Some?)
    ensures var twice := InstallOutcome(InstallOutcome(fs, src, sourcePath, name, f).after, src, sourcePath, name, f).after;
            && Listed(twice, listing, f).Success?
            && var names := Listed(twice, listing, f).value;
            && name in names
            && (forall i, j :: 0 <= i < j < |names| ==> names[i] != names[j])
  {
    var once := InstallOutcome(fs, src, sourcePath, name, f).after;
    InstallIdempotent(fs, src, sourcePath, name, f);
    InstallMakesExtensionIff(fs, src, sourcePath, name, f);
    InstallStoresSource(fs, src, sourcePath, name, f);
    ListedExactlyTheExtensions(once, listing, name);
    ListedNamesAreDistinctExtensions(once, listing, f);
  }

  /** Manager.Uninstall: a name that does not exist is "not found" and nothing
      changes; otherwise os.Remove decides. The name is not validated. */
  function UninstallOutcome(fs: Fs, name: string, f: Faults): (e: Effect)
    requires Valid(fs)
    ensures Valid(e.after)
    ensures e.result.Err? ==> e.after == fs
    ensures e.result == Ok ==> Stat(e.after, name).None?
  {
    if Missing(fs, name) then Effect(fs, Err(NotFound(name)))
    else match RemoveEffect(fs, name, f)
      case None => Effect(fs, Err(RemoveFailed))
      case Some(removed) => Effect(removed, Ok)
  }

  /** Uninstall fails exactly when the name is absent (not found, nothing changes)
      or the removal fails (a name os.Stat cannot reach is not "not found": its
      removal is attempted and fails); a store entry with no fault is removed, and
      a successful uninstall of a store entry removes that entry and nothing else. */
  lemma UninstallRemovesOnlyTarget(fs: Fs, name: string, f: Faults)
    requires Valid(fs)
    ensures Missing(fs, name) ==> UninstallOutcome(fs, name, f) == Effect(fs, Err(NotFound(name)))
    ensures !Missing(fs, name) && (f.removeFails || name in fs.denied) ==>
              UninstallOutcome(fs, name, f) == Effect(fs, Err(RemoveFailed))
    ensures TargetOf(name) == Plain && name in fs.files && name !in fs.denied && !f.removeFails ==>
              UninstallOutcome(fs, name, f).result == Ok
    ensures UninstallOutcome(fs, name, f).result.Err? ==> UninstallOutcome(fs, name, f).after == fs
    ensures UninstallOutcome(fs, name, f).result == Ok ==>
              && Stat(UninstallOutcome(fs, name, f).after, name).None?
              && !IsExtension(UninstallOutcome(fs, name, f).after, name)
    ensures UninstallOutcome(fs, name, f).result == Ok && TargetOf(name) == Plain ==>
              UninstallOutcome(fs, name, f).after == fs.(files := fs.files - {name})
  {
  }

  /** Uninstall undoes Install: installing a new plain name and uninstalling it
      gives back the entries the store had (the store directory now exists). */
  lemma {:induction false} InstallThenUninstall(fs: Fs, src: map<string, Entry>, sourcePath: string,
                                                name: string, f: Faults)
    requires Valid(fs) && TargetOf(name) == Plain && Stat(fs, name).None? && !f.removeFails
    requires InstallOutcome(fs, src, sourcePath, name, f).result == Ok
    ensures var u := UninstallOutcome(InstallOutcome(fs, src, sourcePath, name, f).after, name, f);
            && u.result == Ok
            && u.after == fs.(present := true, parentPresent := true)
  {
    var made := MkdirAllEffect(fs, f).value;
    var after := InstallOutcome(fs, src, sourcePath, name, f).after;
    assert after.files == fs.files[name := Overwritten(None, src[sourcePath].data)];
    assert name !in fs.files;
    assert after.files - {name} == fs.files;
  }

  // ----- Dispatch -----

  /** How the child process ended (exec.Cmd.Run). */
  datatype Child =
    | Exited(code: nat)   // ran and exited with this status
    | Signaled            // ran and was killed by a signal: ExitCode() is -1
    | SpawnFailed         // could not be started

  /** What Dispatch amounts to: its (handled, error) answer, or the process
      ending inside executeExtension through os.Exit. */
  datatype Dispatched =
    | NotHandled
    | Handled(status: Status)
    | Terminated(code: int)

  /** executeExtension: a zero exit is success, a non-zero exit (or a signal)
      ends the whole process with the child's ExitCode(), a spawn failure is an error. */
  function ExecuteExtension(c: Child): (d: Dispatched)
    ensures d != NotHandled
  {
    match c
    case Exited(code) => if code == 0 then Handled(Ok) else Terminated(code)
    case Signaled => Terminated(-1)
    case SpawnFailed => Handled(Err(ExecFailed))
  }

  /** Dispatch. `builtin(args)` stands for cobra's rootCmd.Find(args) succeeding with a
      command other than the root; `run(name, args)` is how the child started from
      `<store>/name` with those arguments ends. Only existence of the name is
      tested, and the name is not validated. */
  function Dispatch(fs: Fs, args: seq<string>, builtin: seq<string> -> bool,
                    run: (string, seq<string>) -> Child): (d: Dispatched)
    ensures |args| > 0 && !builtin(args) && IsExtension(fs, args[0]) ==> d != NotHandled
    ensures d != NotHandled ==> |args| > 0 && !builtin(args) && !Missing(fs, args[0])
  {
    if |args| == 0 then NotHandled
    else if builtin(args) then NotHandled
    else if Missing(fs, args[0]) then NotHandled
    else ExecuteExtension(run(args[0], args[1..]))
  }

  /** Dispatch falls through in exactly three cases; otherwise the child is run
      with exactly the arguments after the first, and its ending decides. */
  lemma DispatchDecision(fs: Fs, args: seq<string>, builtin: seq<string> -> bool,
                         run: (string, seq<string>) -> Child)
    ensures Dispatch(fs, args, builtin, run) == NotHandled <==>
              |args| == 0 || builtin(args) || Missing(fs, args[0])
    ensures Dispatch(fs, args, builtin, run) != NotHandled ==>
              Dispatch(fs, args, builtin, run) == ExecuteExtension(run(args[0], args[1..]))
  {
  }

  /** Built-ins win: an extension with a built-in's name is never dispatched. */
  lemma BuiltinPrecedence(fs: Fs, args: seq<string>, builtin: seq<string> -> bool,
                          run: (string, seq<string>) -> Child)
    requires builtin(args)
    ensures Dispatch(fs, args, builtin, run) == NotHandled
  {
  }

  /** Dispatch tests only that os.Stat does not report the name missing, not
      IsExtension, and skips validation: a store entry without an execute bit is
      dispatched, so is a path that leaves the store, and so is a path os.Stat
      cannot reach (`plz notes/x`, where notes is a file). */
  lemma DispatchIgnoresExecBitAndValidation(run: (string, seq<string>) -> Child)
    ensures var fs := Fs(true, true, map["notes" := Entry(false, 0x1A4, [])], map["../bin/tool" := Entry(false, Perm0755, [])], {"notes/x"});
            var never := (args: seq<string>) => false;
            && !IsExtension(fs, "notes")
            && Dispatch(fs, ["notes"], never, run) != NotHandled
            && ValidateExtensionName("../bin/tool") == Some(PathSeparator)
            && Dispatch(fs, ["../bin/tool", "-v"], never, run) == ExecuteExtension(run("../bin/tool", ["-v"]))
            && !IsExtension(fs, "notes/x")
            && Dispatch(fs, ["notes/x"], never, run) == ExecuteExtension(run("notes/x", []))
  {
    var fs := Fs(true, true, map["notes" := Entry(false, 0x1A4, [])], map["../bin/tool" := Entry(false, Perm0755, [])], {"notes/x"});
    assert ["notes/x"][1..] == [];
    assert TargetOf("notes") == Plain;
    assert '/' in "../bin/tool";
    assert TargetOf("../bin/tool") == Elsewhere;
    assert ["../bin/tool", "-v"][1..] == ["-v"];
  }

  // ----- Manager -----

  /** The Manager of manager.go. `store` is the filesystem as found at `extensionDir`. */
  class Manager {
    const extensionDir: string
    const store: Store

    /** NewManager: home is what os.UserHomeDir gave (None on error). */
    constructor NewManager(home: Option<string>, store: Store)
      ensures extensionDir == ExtensionDirFor(home) && this.store == store
    {
      extensionDir := ExtensionDirFor(home);
      this.store := store;
    }

    /** List; `listing` is what os.ReadDir of the store gives. */
    method List(listing: seq<DirEntry>, f: Faults) returns (r: Result<seq<string>>)
      ensures r == Listed(store.State(), listing, f)
    {
      if Missing(store.State(), "") {
        return Success([]);
      }
      if f.readDirFails || "" in store.denied {
        return Failure(ReadDirFailed);
      }
      var extensions: seq<string> := [];
      var i := 0;
      while i < |listing|
        invariant 0 <= i <= |listing|
        invariant extensions == Executables(listing[..i])
      {
        var entry := listing[i];
        if !entry.isDir {
          match entry.info {
            case None =>
            case Some(mode) =>
              if mode & ExecBits != 0 {
                extensions := extensions + [entry.name];
              }
          }
        }
        assert listing[..i + 1][..i] == listing[..i];
        i := i + 1;
      }
      assert listing[..i] == listing;
      r := Success(extensions);
    }

    /** PrintExtensions: the lines written (without their newlines) and the error
        returned. A List error is returned with nothing written; no extensions
        give the hint; otherwise a header and one bulleted line per listed name. */
    method PrintExtensions(listing: seq<DirEntry>, f: Faults) returns (lines: seq<string>, r: Status)
      ensures r.Err? <==> Listed(store.State(), listing, f).Failure?
      ensures r.Err? ==> r.error == Listed(store.State(), listing, f).error && lines == []
      ensures Listed(store.State(), listing, f) == Success([]) ==> lines == ["No extensions installed."]
      ensures var l := Listed(store.State(), listing, f);
              l.Success? && l.value != [] ==>
                && |lines| == |l.value| + 1
                && lines[0] == "Installed extensions:"
                && forall k :: 0 <= k < |l.value| ==> lines[k + 1] == "  - " + l.value[k]
    {
      var extensions := List(listing, f);
      if extensions.Failure? {
        return [], Err(extensions.error);
      }
      var names := extensions.value;
      if |names| == 0 {
        return ["No extensions installed."], Ok;
      }
      lines := ["Installed extensions:"];
      var i := 0;
      while i < |names|
        invariant 0 <= i <= |names|
        invariant |lines| == i + 1 && lines[0] == "Installed extensions:"
        invariant forall k :: 0 <= k < i ==> lines[k + 1] == "  - " + names[k]
      {
        lines := lines + ["  - " + names[i]];
        i := i + 1;
      }
      r := Ok;
    }

    method Install(sourcePath: string, name: string, src: map<string, Entry>, f: Faults)
      returns (r: Status)
      requires Valid(store.State())
      modifies store
      ensures Valid(store.State())
      ensures Effect(store.State(), r) == InstallOutcome(old(store.State()), src, sourcePath, name, f)
    {
      var made := store.MkdirAll(f);
      if !made {
        return Err(CreateDirFailed);
      }
      if sourcePath !in src {
        return Err(SourceNotFound);
      }
      var sourceInfo := src[sourcePath];
      if sourceInfo.isDir {
        return Err(SourceIsDirectory);
      }
      if f.readFails {
        return Err(ReadSourceFailed);
      }
      var written := store.WriteFile(name, sourceInfo.data, f);
      if !written {
        return Err(WriteFailed);
      }
      r := Ok;
    }

    method Uninstall(name: string, f: Faults) returns (r: Status)
      requires Valid(store.State())
      modifies store
      ensures Valid(store.State())
      ensures Effect(store.State(), r) == UninstallOutcome(old(store.State()), name, f)
    {
      if Missing(store.State(), name) {
        return Err(NotFound(name));
      }
      var removed := store.Remove(name, f);
      if !removed {
        return Err(RemoveFailed);
      }
      r := Ok;
    }
  }
}
