/** pkg/cmd/extension/install/install.go: `plz extension install <source-path> [name]`. */
module InstallCommand {
  import opened Errors
  import opened FileSystem
  import opened Extension

  // ----- filepath.Base on a Unix host -----

  /** The path less its trailing slashes. */
  function TrimTrailingSlashes(p: string): (q: string)
    ensures |q| <= |p| && q == p[..|q|]
    ensures forall k :: |q| <= k < |p| ==> p[k] == '/'
    ensures q == [] || q[|q| - 1] != '/'
  {
    if p != [] && p[|p| - 1] == '/' then TrimTrailingSlashes(p[..|p| - 1]) else p
  }

  /** The longest suffix without a slash. */
  function LastElement(q: string): (e: string)
    ensures |e| <= |q| && e == q[|q| - |e|..]
    ensures '/' !in e
    ensures |e| < |q| ==> q[|q| - |e| - 1] == '/'
  {
    if q == [] || q[|q| - 1] == '/' then []
    else
      var e := LastElement(q[..|q| - 1]);
      assert q[..|q| - 1][|q| - 1 - |e|..] + [q[|q| - 1]] == q[|q| - 1 - |e|..];
      e + [q[|q| - 1]]
  }

  /** filepath.Base: the last element, trailing slashes removed; "." for the empty
      path and "/" for a path of slashes only. */
  function Base(path: string): (b: string)
    ensures b != ""
    ensures path == "" ==> b == "."
    ensures '/' in b <==> b == "/"
    ensures b == "/" <==> path != "" && forall k :: 0 <= k < |path| ==> path[k] == '/'
    ensures path != "" && b != "/" ==>
              var j := |TrimTrailingSlashes(path)|;
              && |b| <= j && b == path[j - |b|..j]
              && (j == |b| || path[j - |b| - 1] == '/')
              && forall k :: j <= k < |path| ==> path[k] == '/'
  {
    if path == "" then "."
    else
      var trimmed := TrimTrailingSlashes(path);
      if trimmed == "" then "/" else LastElement(trimmed)
  }

  /** The base of `dir/name` is `name`, whatever the directory. */
  lemma BaseOfJoin(dir: string, name: string)
    requires name != "" && '/' !in name
    ensures Base(dir + "/" + name) == name
  {
    var p := dir + "/" + name;
    assert TrimTrailingSlashes(p) == p by {
      assert p[|p| - 1] == name[|name| - 1];
    }
    assert p[|p| - |name|..] == name;
    assert p[|p| - |name| - 1] == '/';
  }

  /** Trailing slashes do not change the base. */
  lemma BaseIgnoresTrailingSlash(path: string)
    requires path != ""
    ensures Base(path + "/") == Base(path)
  {
    assert (path + "/")[..|path + "/"| - 1] == path;
  }

  /** A default name is never empty; it is refused exactly when it is ".", "..",
      "/" (a path of slashes) or holds a backslash. */
  lemma DefaultNameValidation(path: string)
    ensures ValidateExtensionName(Base(path)) != Some(EmptyName)
    ensures ValidateExtensionName(Base(path)) == None <==>
              Base(path) != "." && Base(path) != ".." && Base(path) != "/" && '\\' !in Base(path)
  {
  }

  // ----- Arguments -----

  datatype InstallOptions = InstallOptions(sourcePath: string, name: string)

  /** cobra.RangeArgs(1, 2), then the name: the second argument verbatim, or
      else the base of the source path. */
  function ParseInstallArgs(args: seq<string>): (r: Result<InstallOptions>)
    ensures r.Failure? <==> |args| < 1 || |args| > 2
    ensures r.Failure? ==> r.error == ArgCount(|args|)
    ensures r.Success? ==> r.value.sourcePath == args[0]
    ensures |args| == 2 ==> r.Success? && r.value.name == args[1]
    ensures |args| == 1 ==> r.Success? && r.value.name == Base(args[0])
  {
    if |args| < 1 || |args| > 2 then Failure(ArgCount(|args|))
    else if |args| == 2 then Success(InstallOptions(args[0], args[1]))
    else Success(InstallOptions(args[0], Base(args[0])))
  }

  // ----- runInstall -----

  /** runInstall: validate the name, resolve the home directory (no fallback),
      then the same steps as Manager.Install. */
  function RunInstallOutcome(fs: Fs, opts: InstallOptions, home: Option<string>,
                             src: map<string, Entry>, f: Faults): (e: Effect)
    requires Valid(fs)
    ensures Valid(e.after)
    ensures e.result.Err? ==> e.after.files == fs.files && e.after.beyond == fs.beyond
  {
    match ValidateExtensionName(opts.name)
    case Some(reason) => Effect(fs, Err(InvalidName(reason)))
    case None =>
      if SubcommandExtensionDir(home).Failure? then Effect(fs, Err(NoHomeDir))
      else InstallOutcome(fs, src, opts.sourcePath, opts.name, f)
  }

  /** An invalid name is refused before anything is touched, and so is a missing
      home directory. */
  lemma RunInstallRejectsFirst(fs: Fs, opts: InstallOptions, home: Option<string>,
                               src: map<string, Entry>, f: Faults)
    requires Valid(fs)
    ensures ValidateExtensionName(opts.name).Some? ==>
              RunInstallOutcome(fs, opts, home, src, f) ==
                Effect(fs, Err(InvalidName(ValidateExtensionName(opts.name).value)))
    ensures ValidateExtensionName(opts.name).None? && home.None? ==>
              RunInstallOutcome(fs, opts, home, src, f) == Effect(fs, Err(NoHomeDir))
  {
  }

  /** On a valid name with a home directory the subcommand does what Manager.Install does. */
  lemma RunInstallAgreesWithManager(fs: Fs, opts: InstallOptions, home: Option<string>,
                                    src: map<string, Entry>, f: Faults)
    requires Valid(fs) && ValidateExtensionName(opts.name).None? && home.Some?
    ensures RunInstallOutcome(fs, opts, home, src, f) == InstallOutcome(fs, src, opts.sourcePath, opts.name, f)
  {
  }

  /** What validation buys: runInstall never writes outside the store's own
      entries, and on success the name is a store entry holding the source's bytes. */
  lemma RunInstallStaysInStore(fs: Fs, opts: InstallOptions, home: Option<string>,
                               src: map<string, Entry>, f: Faults)
    requires Valid(fs)
    ensures var e := RunInstallOutcome(fs, opts, home, src, f);
            && e.after.beyond == fs.beyond
            && (e.result == Ok ==> opts.name in e.after.files
                                   && e.after.files[opts.name].data == src[opts.sourcePath].data)
  {
    if ValidateExtensionName(opts.name).None? && home.Some? {
      ValidNamesArePlainEntries(opts.name);
      var e := InstallOutcome(fs, src, opts.sourcePath, opts.name, f);
      if e.result == Ok {
        InstallStoresSource(fs, src, opts.sourcePath, opts.name, f);
      }
      if MkdirAllEffect(fs, f).Some? {
        var made := MkdirAllEffect(fs, f).value;
        assert made.beyond == fs.beyond;
      }
    }
  }

  /** Manager.Install has no such guard: a name leading out of the store is written
      there, where runInstall refuses the same request. */
  lemma ManagerInstallCanLeaveStore()
    ensures var fs := Fs(true, true, map[], map[], {});
            var src := map["tool" := Entry(false, Perm0755, [1])];
            var f := Faults(false, false, false, false, false);
            && InstallOutcome(fs, src, "tool", "../tool", f).result == Ok
            && "../tool" in InstallOutcome(fs, src, "tool", "../tool", f).after.beyond
            && RunInstallOutcome(fs, InstallOptions("tool", "../tool"), Some("/home/u"), src, f)
                 == Effect(fs, Err(InvalidName(PathSeparator)))
  {
    assert '/' in "../tool";
    assert TargetOf("../tool") == Elsewhere;
  }

  /** runInstall; `home` is what os.UserHomeDir gave and `store` the filesystem
      at `<home>/.plz/extensions`; `src` is the rest of the filesystem the source
      path is looked up in. Printing the success message is not modelled. */
  method RunInstall(opts: InstallOptions, home: Option<string>, store: Store,
                    src: map<string, Entry>, f: Faults) returns (r: Status)
    requires Valid(store.State())
    modifies store
    ensures Valid(store.State())
    ensures Effect(store.State(), r) == RunInstallOutcome(old(store.State()), opts, home, src, f)
  {
    var invalid := ValidateExtensionName(opts.name);
    if invalid.Some? {
      return Err(InvalidName(invalid.value));
    }
    var extensionDir := SubcommandExtensionDir(home);
    if extensionDir.Failure? {
      return Err(extensionDir.error);
    }
    var made := store.MkdirAll(f);
    if !made {
      return Err(CreateDirFailed);
    }
    if opts.sourcePath !in src {
      return Err(SourceNotFound);
    }
    var sourceInfo := src[opts.sourcePath];
    if sourceInfo.isDir {
      return Err(SourceIsDirectory);
    }
    if f.readFails {
      return Err(ReadSourceFailed);
    }
    var written := store.WriteFile(opts.name, sourceInfo.data, f);
    if !written {
      return Err(WriteFailed);
    }
    r := Ok;
  }
}
