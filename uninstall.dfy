/** pkg/cmd/extension/uninstall/uninstall.go: `plz extension uninstall <extension-name>`. */
module UninstallCommand {
  import opened Errors
  import opened FileSystem
  import opened Extension

  /** cobra.ExactArgs(1): the one argument is the name. */
  function ParseUninstallArgs(args: seq<string>): (r: Result<string>)
    ensures r.Success? <==> |args| == 1
    ensures r.Success? ==> r.value == args[0]
    ensures r.Failure? ==> r.error == ArgCount(|args|)
  {
    if |args| != 1 then Failure(ArgCount(|args|)) else Success(args[0])
  }

  /** runUninstall: validate the name, resolve the home directory, then the same
      steps as Manager.Uninstall. */
  function RunUninstallOutcome(fs: Fs, name: string, home: Option<string>, f: Faults): (e: Effect)
    requires Valid(fs)
    ensures Valid(e.after)
    ensures e.result.Err? ==> e.after == fs
  {
    match ValidateExtensionName(name)
    case Some(reason) => Effect(fs, Err(InvalidName(reason)))
    case None =>
      if SubcommandExtensionDir(home).Failure? then Effect(fs, Err(NoHomeDir))
      else UninstallOutcome(fs, name, f)
  }

  /** Every failure leaves the filesystem as it was: an invalid name (checked
      first), a missing home directory, an absent entry ("not found"), a failed
      removal (which is also what a name os.Stat cannot reach comes to). */
  lemma RunUninstallFailuresChangeNothing(fs: Fs, name: string, home: Option<string>, f: Faults)
    requires Valid(fs)
    ensures RunUninstallOutcome(fs, name, home, f).result.Err? ==> RunUninstallOutcome(fs, name, home, f).after == fs
    ensures ValidateExtensionName(name).Some? ==>
              RunUninstallOutcome(fs, name, home, f).result == Err(InvalidName(ValidateExtensionName(name).value))
    ensures ValidateExtensionName(name).None? && home.None? ==>
              RunUninstallOutcome(fs, name, home, f).result == Err(NoHomeDir)
    ensures ValidateExtensionName(name).None? && home.Some? && Missing(fs, name) ==>
              RunUninstallOutcome(fs, name, home, f).result == Err(NotFound(name))
    ensures ValidateExtensionName(name).None? && home.Some? && !Missing(fs, name)
            && (f.removeFails || name in fs.denied) ==>
              RunUninstallOutcome(fs, name, home, f).result == Err(RemoveFailed)
  {
    UninstallRemovesOnlyTarget(fs, name, f);
  }

  /** On a valid name with a home directory the subcommand does what Manager.Uninstall does. */
  lemma RunUninstallAgreesWithManager(fs: Fs, name: string, home: Option<string>, f: Faults)
    requires Valid(fs) && ValidateExtensionName(name).None? && home.Some?
    ensures RunUninstallOutcome(fs, name, home, f) == UninstallOutcome(fs, name, f)
  {
  }

  /** What validation buys: runUninstall succeeds exactly on a valid name with a
      home directory, naming a reachable store entry, when the host lets it go; it
      then removes exactly that entry and never the store directory, its parent or
      anything outside. */
  lemma RunUninstallRemovesOneEntry(fs: Fs, name: string, home: Option<string>, f: Faults)
    requires Valid(fs)
    ensures RunUninstallOutcome(fs, name, home, f).result == Ok <==>
              && ValidateExtensionName(name).None? && home.Some?
              && name in fs.files && name !in fs.denied && !f.removeFails
    ensures RunUninstallOutcome(fs, name, home, f).result == Ok ==>
              RunUninstallOutcome(fs, name, home, f).after == fs.(files := fs.files - {name})
  {
    if ValidateExtensionName(name).None? {
      ValidNamesArePlainEntries(name);
      UninstallRemovesOnlyTarget(fs, name, f);
    }
  }

  /** Manager.Uninstall has no such guard: given "" it removes an empty store
      directory itself, which runUninstall refuses as an empty name. */
  lemma ManagerUninstallCanRemoveStore()
    ensures var fs := Fs(true, true, map[], map[], {});
            var f := Faults(false, false, false, false, false);
            && UninstallOutcome(fs, "", f) == Effect(fs.(present := false), Ok)
            && RunUninstallOutcome(fs, "", Some("/home/u"), f) == Effect(fs, Err(InvalidName(EmptyName)))
  {
  }

  /** runUninstall; `home` is what os.UserHomeDir gave and `store` the filesystem
      at `<home>/.plz/extensions`. Printing the success message is not modelled. */
  method RunUninstall(name: string, home: Option<string>, store: Store, f: Faults) returns (r: Status)
    requires Valid(store.State())
    modifies store
    ensures Valid(store.State())
    ensures Effect(store.State(), r) == RunUninstallOutcome(old(store.State()), name, home, f)
  {
    var invalid := ValidateExtensionName(name);
    if invalid.Some? {
      return Err(InvalidName(invalid.value));
    }
    var extensionDir := SubcommandExtensionDir(home);
    if extensionDir.Failure? {
      return Err(extensionDir.error);
    }
    if Missing(store.State(), name) {
      return Err(NotFound(name));
    }
    var removed := store.Remove(name, f);
    if !removed {
      return Err(RemoveFailed);
    }
    r := Ok;
  }
}
