/** The part of the host filesystem the extension commands touch, seen from the
    extension store `<home>/.plz/extensions`: whether the store directory and its
    parent `<home>/.plz` exist, the store's own entries, and the files reached
    through names that leave the flat store (names holding a '/'). Paths are
    relative to the store; Go's os package is modelled for a Unix host, where '/'
    is the only separator. */
module FileSystem {
  import opened Errors

  /** Go's os.FileMode permission bits. */
  type Mode = bv32
  type Bytes = seq<bv8>

  /** The execute bits of owner, group and others (octal 0111). */
  const ExecBits: Mode := 0x49
  /** Octal 0755, the permission the commands pass to os.MkdirAll and os.WriteFile. */
  const Perm0755: Mode := 0x1ED

  datatype Entry = Entry(isDir: bool, mode: Mode, data: Bytes)

  /** How a directory answers os.Stat; its contents are not modelled. */
  const Directory: Entry := Entry(true, Perm0755, [])

  predicate HasExecBit(mode: Mode) {
    mode & ExecBits != 0
  }

  /** What `filepath.Join(store, name)` points at. */
  datatype Target =
    | StoreDir   // "" and "." name the store directory itself
    | ParentDir  // ".." names <home>/.plz
    | Elsewhere  // a name holding '/' reaches past the store's own entries
    | Plain      // a file name inside the store

  function TargetOf(name: string): Target {
    if name == "" || name == "." then StoreDir
    else if name == ".." then ParentDir
    else if '/' in name then Elsewhere
    else Plain
  }

  /** `denied` holds the names whose os.Stat fails with an error other than "does
      not exist": a path component without search permission, a component that is
      a file, a name too long. "" stands for the store directory itself. */
  datatype Fs = Fs(present: bool, parentPresent: bool,
                   files: map<string, Entry>, beyond: map<string, Entry>,
                   denied: set<string>)

  ghost predicate Valid(fs: Fs) {
    && ("" in fs.denied <==> "." in fs.denied)
    && (!fs.present ==> fs.files == map[])
    && (fs.present ==> fs.parentPresent)
    && (forall n :: n in fs.files ==> TargetOf(n) == Plain)
    && (forall p :: p in fs.beyond ==> TargetOf(p) == Elsewhere)
  }

  /** os.Stat of `<store>/name`: None is any error, "does not exist" or another. */
  function Stat(fs: Fs, name: string): Option<Entry> {
    if name in fs.denied then None
    else match TargetOf(name)
    case StoreDir => if fs.present then Some(Directory) else None
    case ParentDir => if fs.parentPresent then Some(Directory) else None
    case Plain => if name in fs.files then Some(fs.files[name]) else None
    case Elsewhere => if name in fs.beyond then Some(fs.beyond[name]) else None
  }

  /** os.IsNotExist of os.Stat's error: the stat failed because nothing is there. */
  predicate Missing(fs: Fs, name: string) {
    Stat(fs, name).None? && name !in fs.denied
  }

  /** Failures of the host that the model cannot derive from the state
      (permissions, a full disk, a path component that is a file). */
  datatype Faults = Faults(mkdirFails: bool, readFails: bool, writeFails: bool,
                           removeFails: bool, readDirFails: bool)

  /** os.MkdirAll on the store: nothing to do when it exists; a store os.Stat
      cannot reach cannot be created either. */
  function MkdirAllEffect(fs: Fs, f: Faults): (r: Option<Fs>)
    requires Valid(fs)
    ensures r.Some? <==> "" !in fs.denied && (fs.present || !f.mkdirFails)
    ensures r.Some? ==> Valid(r.value) && r.value == fs.(present := true, parentPresent := true)
  {
    if "" in fs.denied then None
    else if fs.present then Some(fs)
    else if f.mkdirFails then None
    else Some(fs.(present := true, parentPresent := true))
  }

  /** What os.WriteFile leaves at a path: an existing file keeps its mode and takes
      the new bytes; a new file is created with mode 0755 (the umask is not modelled). */
  function Overwritten(existing: Option<Entry>, data: Bytes): (e: Entry)
    ensures !e.isDir && e.data == data
    ensures e.mode == if existing.Some? then existing.value.mode else Perm0755
  {
    match existing
    case Some(prev) => Entry(false, prev.mode, data)
    case None => Entry(false, Perm0755, data)
  }

  /** os.WriteFile of `<store>/name`, after the store has been created; a path
      os.Stat cannot reach cannot be opened either. */
  function WriteFileEffect(fs: Fs, name: string, data: Bytes, f: Faults): (r: Option<Fs>)
    requires Valid(fs) && fs.present
    ensures r.Some? <==> !f.writeFails && name !in fs.denied && !(Stat(fs, name).Some? && Stat(fs, name).value.isDir)
    ensures r.Some? ==> Valid(r.value)
    ensures r.Some? ==> Stat(r.value, name) == Some(Overwritten(Stat(fs, name), data))
    ensures r.Some? ==> forall n :: n != name ==> Stat(r.value, n) == Stat(fs, n)
  {
    var existing := Stat(fs, name);
    if f.writeFails || name in fs.denied || (existing.Some? && existing.value.isDir) then None
    else if TargetOf(name) == Plain then Some(fs.(files := fs.files[name := Overwritten(existing, data)]))
    else Some(fs.(beyond := fs.beyond[name := Overwritten(existing, data)]))
  }

  /** os.Remove of `<store>/name`, which os.Stat did not report missing: a path
      os.Stat cannot reach cannot be removed, a directory goes only when empty, a
      file always goes unless the host refuses. */
  function RemoveEffect(fs: Fs, name: string, f: Faults): (r: Option<Fs>)
    requires Valid(fs) && !Missing(fs, name)
    ensures r.Some? ==> Valid(r.value) && Stat(r.value, name).None?
    ensures (TargetOf(name) == Plain || TargetOf(name) == Elsewhere) ==>
              (r.Some? <==> !f.removeFails && name !in fs.denied)
  {
    if f.removeFails || name in fs.denied then None
    else match TargetOf(name)
      case StoreDir => if fs.files == map[] then Some(fs.(present := false)) else None
      case ParentDir => if !fs.present then Some(fs.(parentPresent := false)) else None
      case Plain => Some(fs.(files := fs.files - {name}))
      case Elsewhere => Some(fs.(beyond := fs.beyond - {name}))
  }

  /** The filesystem as a mutable object: the commands change it in place. */
  class Store {
    var present: bool
    var parentPresent: bool
    var files: map<string, Entry>
    var beyond: map<string, Entry>
    var denied: set<string>

    function State(): Fs
      reads this
    {
      Fs(present, parentPresent, files, beyond, denied)
    }

    constructor (fs: Fs)
      requires Valid(fs)
      ensures State() == fs
    {
      present, parentPresent := fs.present, fs.parentPresent;
      files, beyond, denied := fs.files, fs.beyond, fs.denied;
    }

    method MkdirAll(f: Faults) returns (ok: bool)
      requires Valid(State())
      modifies this
      ensures Valid(State())
      ensures ok == MkdirAllEffect(old(State()), f).Some?
      ensures State() == if ok then MkdirAllEffect(old(State()), f).value else old(State())
    {
      if "" in denied {
        ok := false;
      } else if present {
        ok := true;
      } else if f.mkdirFails {
        ok := false;
      } else {
        present, parentPresent := true, true;
        ok := true;
      }
    }

    method WriteFile(name: string, data: Bytes, f: Faults) returns (ok: bool)
      requires Valid(State()) && present
      modifies this
      ensures Valid(State())
      ensures ok == WriteFileEffect(old(State()), name, data, f).Some?
      ensures State() == if ok then WriteFileEffect(old(State()), name, data, f).value else old(State())
    {
      var existing := Stat(State(), name);
      if f.writeFails || name in denied || (existing.Some? && existing.value.isDir) {
        return false;
      }
      if TargetOf(name) == Plain {
        files := files[name := Overwritten(existing, data)];
      } else {
        beyond := beyond[name := Overwritten(existing, data)];
      }
      ok := true;
    }

    method Remove(name: string, f: Faults) returns (ok: bool)
      requires Valid(State()) && !Missing(State(), name)
      modifies this
      ensures Valid(State())
      ensures ok == RemoveEffect(old(State()), name, f).Some?
      ensures State() == if ok then RemoveEffect(old(State()), name, f).value else old(State())
    {
      if f.removeFails || name in denied {
        return false;
      }
      match TargetOf(name) {
        case StoreDir =>
          if files != map[] { return false; }
          present := false;
        case ParentDir =>
          if present { return false; }
          parentPresent := false;
        case Plain =>
          files := files - {name};
        case Elsewhere =>
          beyond := beyond - {name};
      }
      ok := true;
    }
  }

  /** One element of os.ReadDir's answer: the name and directory flag, and what
      its Info() call gives (None when that call fails). */
  datatype DirEntry = DirEntry(name: string, isDir: bool, info: Option<Mode>)

  /** Byte-wise lexicographic order on names, the order os.ReadDir sorts by. */
  predicate Below(a: string, b: string) {
    if a == [] then b != []
    else b != [] && (a[0] < b[0] || (a[0] == b[0] && Below(a[1..], b[1..])))
  }

  predicate Ascending(s: seq<string>) {
    forall i, j :: 0 <= i < j < |s| ==> Below(s[i], s[j])
  }

  predicate Sorted(l: seq<DirEntry>) {
    forall i, j :: 0 <= i < j < |l| ==> Below(l[i].name, l[j].name)
  }

  /** `l` is what os.ReadDir of the store reports for its entries: every entry
      once, sorted by name, with the right kind and, when Info() succeeds, the right
      mode; Info() fails for an entry os.Stat cannot reach. */
  ghost predicate ListingOf(l: seq<DirEntry>, fs: Fs) {
    && Sorted(l)
    && (forall i :: 0 <= i < |l| ==>
          && l[i].name in fs.files
          && l[i].isDir == fs.files[l[i].name].isDir
          && (l[i].info.None? || l[i].info.value == fs.files[l[i].name].mode)
          && (l[i].name in fs.denied ==> l[i].info.None?))
    && (forall n :: n in fs.files ==> exists i :: 0 <= i < |l| && l[i].name == n)
  }

  lemma {:induction false} BelowIrreflexive(a: string)
    ensures !Below(a, a)
  {
    if a != [] {
      BelowIrreflexive(a[1..]);
    }
  }

  /** A strictly ascending sequence of names holds each name at most once. */
  lemma AscendingDistinct(s: seq<string>)
    requires Ascending(s)
    ensures forall i, j :: 0 <= i < j < |s| ==> s[i] != s[j]
  {
    forall i, j | 0 <= i < j < |s|
      ensures s[i] != s[j]
    {
      BelowIrreflexive(s[i]);
    }
  }
}
