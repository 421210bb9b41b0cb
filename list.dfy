/** pkg/cmd/extension/list/list.go: `plz extension list`. */
module ListCommand {
  import opened Errors
  import opened FileSystem
  import opened Extension

  /** One printed line: the name and the size its re-stat reported. */
  datatype Row = Row(name: string, size: nat)

  /** What runList does: fail, print the "No extensions installed." hint, or print rows. */
  datatype ListReport =
    | Failed(error: Error)
    | NothingInstalled
    | Shown(rows: seq<Row>)

  /** The printing loop: one row per kept name whose re-stat succeeds, in order. */
  function Rows(fs: Fs, names: seq<string>): (rows: seq<Row>)
    ensures |rows| <= |names|
    ensures forall k :: 0 <= k < |rows| ==>
              && rows[k].name in names
              && Stat(fs, rows[k].name).Some?
              && rows[k].size == |Stat(fs, rows[k].name).value.data|
  {
    if names == [] then []
    else
      var init := names[..|names| - 1];
      var last := names[|names| - 1];
      assert forall n :: n in init ==> n in names;
      Rows(fs, init) + match Stat(fs, last) {
        case Some(e) => [Row(last, |e.data|)]
        case None => []
      }
  }

  /** Rows keep the order of the names, so ascending names give each row once. */
  lemma {:induction false} RowsAscending(fs: Fs, names: seq<string>)
    requires Ascending(names)
    ensures forall i, j :: 0 <= i < j < |Rows(fs, names)| ==>
              Below(Rows(fs, names)[i].name, Rows(fs, names)[j].name)
  {
    if names != [] {
      var init := names[..|names| - 1];
      var last := names[|names| - 1];
      assert Ascending(init) by {
        forall i, j | 0 <= i < j < |init|
          ensures Below(init[i], init[j])
        {
          assert init[i] == names[i] && init[j] == names[j];
        }
      }
      RowsAscending(fs, init);
      var head := Rows(fs, init);
      forall k | 0 <= k < |head|
        ensures Below(head[k].name, last)
      {
        var i :| 0 <= i < |init| && init[i] == head[k].name;
        assert init[i] == names[i];
      }
    }
  }

  /** When every name still exists, each one is printed, with its size. */
  lemma {:induction false} RowsComplete(fs: Fs, names: seq<string>)
    requires forall n :: n in names ==> Stat(fs, n).Some?
    ensures |Rows(fs, names)| == |names|
    ensures forall k :: 0 <= k < |names| ==>
              Rows(fs, names)[k] == Row(names[k], |Stat(fs, names[k]).value.data|)
  {
    if names != [] {
      var init := names[..|names| - 1];
      assert forall n :: n in init ==> n in names;
      RowsComplete(fs, init);
      assert names[|names| - 1] in names;
      forall k | 0 <= k < |names|
        ensures Rows(fs, names)[k] == Row(names[k], |Stat(fs, names[k]).value.data|)
      {
        if k < |init| {
          assert init[k] == names[k];
        }
      }
    }
  }

  /** runList's decisions; `listing` is what os.ReadDir of the store gives. */
  function ListOutcome(fs: Fs, home: Option<string>, listing: seq<DirEntry>, f: Faults): (r: ListReport)
    ensures home.None? ==> r == Failed(NoHomeDir)
    ensures r.Failed? ==> r.error == NoHomeDir || r.error == ReadDirFailed
  {
    if SubcommandExtensionDir(home).Failure? then Failed(NoHomeDir)
    else if Missing(fs, "") then NothingInstalled
    else if f.readDirFails || "" in fs.denied then Failed(ReadDirFailed)
    else
      var kept := Executables(listing);
      if kept == [] then NothingInstalled else Shown(Rows(fs, kept))
  }

  /** With a home directory, runList prints the hint exactly when Manager.List
      returns no names, and fails exactly when Manager.List fails. */
  lemma ListOutcomeAgreesWithManager(fs: Fs, home: Option<string>, listing: seq<DirEntry>, f: Faults)
    requires home.Some?
    ensures ListOutcome(fs, home, listing, f) == NothingInstalled <==> Listed(fs, listing, f) == Success([])
    ensures ListOutcome(fs, home, listing, f).Failed? <==> Listed(fs, listing, f).Failure?
  {
  }

  /** Over a faithful listing where every Info() succeeds, runList prints each
      extension of the store exactly once, in ascending order, with its size. */
  lemma ShownRowsAreTheExtensions(fs: Fs, home: Option<string>, listing: seq<DirEntry>, f: Faults)
    requires Valid(fs) && ListingOf(listing, fs)
    requires forall i :: 0 <= i < |listing| ==> listing[i].info.Some?
    requires ListOutcome(fs, home, listing, f).Shown?
    ensures var rows := ListOutcome(fs, home, listing, f).rows;
            && (forall i, j :: 0 <= i < j < |rows| ==> rows[i].name != rows[j].name)
            && (forall n :: (exists k :: 0 <= k < |rows| && rows[k].name == n) <==>
                              TargetOf(n) == Plain && IsExtension(fs, n))
  {
    var kept := Executables(listing);
    ExecutablesAscending(listing);
    forall n | n in kept
      ensures Stat(fs, n).Some?
    {
      ListedAreExtensions(fs, listing, n);
    }
    RowsComplete(fs, kept);
    RowsAscending(fs, kept);
    var rows := Rows(fs, kept);
    forall i, j | 0 <= i < j < |rows|
      ensures rows[i].name != rows[j].name
    {
      BelowIrreflexive(rows[i].name);
    }
    forall n
      ensures (exists k :: 0 <= k < |rows| && rows[k].name == n) <==>
                TargetOf(n) == Plain && IsExtension(fs, n)
    {
      ListedExactlyTheExtensions(fs, listing, n);
      if n in kept {
        var k :| 0 <= k < |kept| && kept[k] == n;
        assert rows[k].name == n;
      }
    }
  }

  /** runList. Printing is not modelled beyond which rows are printed. */
  method RunList(home: Option<string>, store: Store, listing: seq<DirEntry>, f: Faults)
    returns (r: ListReport)
    ensures r == ListOutcome(store.State(), home, listing, f)
  {
    var extensionDir := SubcommandExtensionDir(home);
    if extensionDir.Failure? {
      return Failed(extensionDir.error);
    }
    if Missing(store.State(), "") {
      return NothingInstalled;
    }
    if f.readDirFails || "" in store.denied {
      return Failed(ReadDirFailed);
    }
    var extensions: seq<string> := [];
    var i := 0;
    while i < |listing|
      invariant 0 <= i <= |listing|
      invariant extensions == Executables(listing[..i])
    {
      var entry := listing[i];
      if !entry.isDir {
        match entry.info {
          case None =>
          case Some(mode) =>
            if mode & ExecBits != 0 {
              extensions := extensions + [entry.name];
            }
        }
      }
      assert listing[..i + 1][..i] == listing[..i];
      i := i + 1;
    }
    assert listing[..i] == listing;
    if |extensions| == 0 {
      return NothingInstalled;
    }
    var rows: seq<Row> := [];
    var j := 0;
    while j < |extensions|
      invariant 0 <= j <= |extensions|
      invariant rows == Rows(store.State(), extensions[..j])
    {
      var ext := extensions[j];
      match Stat(store.State(), ext) {
        case None =>
        case Some(info) =>
          rows := rows + [Row(ext, |info.data|)];
      }
      assert extensions[..j + 1][..j] == extensions[..j];
      j := j + 1;
    }
    assert extensions[..j] == extensions;
    r := Shown(rows);
  }
}
