/** fileOrganizer with directoryCreator and fileMover: every listed file is moved
    to destination/<bucket>/<name>, in list order, until the first move fails. */
module Organizer {
  import opened Wrappers
  import opened Files
  import opened Extensions

  /** directoryCreator: when destination/folderName exists, whatever it is, nothing
      happens; otherwise one mkdir is attempted. */
  function CreateDirectory(t: Tree, destination: Path, folderName: string): (r: Tree)
    ensures var p := Resolve(destination, folderName);
      && (p in t ==> r == t)
      && (p !in t && ParentIsDirectory(t, p) ==> IsDirectory(r, p))
      && (p !in t && !ParentIsDirectory(t, p) ==> r == t)
  {
    var p := Resolve(destination, folderName);
    if p in t then t else MakeDirectory(t, p)
  }

  /** directoryCreator touches no path but destination/folderName. */
  lemma CreateDirectoryFrame(t: Tree, destination: Path, folderName: string)
    ensures var r, p := CreateDirectory(t, destination, folderName), Resolve(destination, folderName);
      && (forall q :: q in t ==> q in r && r[q] == t[q])
      && (forall q :: q in r ==> q in t || q == p)
  {
    MakeDirectoryFrame(t, Resolve(destination, folderName));
  }

  /** Calling directoryCreator twice is the same as calling it once. */
  lemma CreateDirectoryIdempotent(t: Tree, destination: Path, folderName: string)
    ensures var once := CreateDirectory(t, destination, folderName);
      CreateDirectory(once, destination, folderName) == once
  {
  }

  /** The extension of a file's name: what getExtension gives for it, by
      GetExtensionIsAfterLastDot. */
  function Extension(f: FileRecord): string
  {
    AfterLastDot(f.Name())
  }

  /** The folder fileOrganizer finally moves f into: "hidden" for a hidden file,
      its extension otherwise. */
  function Bucket(f: FileRecord): string
  {
    if f.hidden then "hidden" else Extension(f)
  }

  /** fileDestination as it stands when fileMover is called. */
  function Destination(destination: Path, f: FileRecord): Path
  {
    Resolve(Resolve(destination, Bucket(f)), f.Name())
  }

  /** A hidden file goes to destination/hidden/<name> whatever its extension; any
      other file to destination/<extension>/<name>, except that an empty extension
      (a name ending in '.') resolves to the destination itself. */
  lemma DestinationShape(destination: Path, f: FileRecord)
    requires f.Name() != ""
    ensures f.hidden ==> Destination(destination, f) == destination + ["hidden", f.Name()]
    ensures !f.hidden && Extension(f) != "" ==>
      Destination(destination, f) == destination + [Extension(f), f.Name()]
    ensures !f.hidden && Extension(f) == "" ==> Destination(destination, f) == destination + [f.Name()]
    ensures '.' !in f.Name() && !f.hidden ==> Destination(destination, f) == destination + [f.Name(), f.Name()]
  {
    GetExtensionIsAfterLastDot(f.Name());
    ExtensionCases(f.Name());
  }

  /** The directories fileOrganizer asks for before moving f: its extension folder
      always, and the "hidden" folder as well when f is hidden. */
  function Provision(t: Tree, destination: Path, f: FileRecord): Tree
  {
    var t1 := CreateDirectory(t, destination, Extension(f));
    if f.hidden then CreateDirectory(t1, destination, "hidden") else t1
  }

  /** Provisioning keeps every entry, adds none but the bucket directories, and
      leaves both of them present when destination is a directory. */
  lemma ProvisionFrame(t: Tree, destination: Path, f: FileRecord)
    ensures var r := Provision(t, destination, f);
      && (forall q :: q in t ==> q in r && r[q] == t[q])
      && (forall q :: q in r ==>
            q in t || q == Resolve(destination, Extension(f)) || (f.hidden && q == Resolve(destination, "hidden")))
      && (IsDirectory(t, destination) ==> Resolve(destination, Extension(f)) in r)
      && (IsDirectory(t, destination) && f.hidden ==> Resolve(destination, "hidden") in r)
  {
    var t1 := CreateDirectory(t, destination, Extension(f));
    CreateDirectoryFrame(t, destination, Extension(f));
    CreateDirectoryFrame(t1, destination, "hidden");
  }

  /** The file tree after a run, and the error that ended it early, if any. */
  datatype Run = Run(tree: Tree, failure: Option<IoError>)

  /** fileOrganizer over the walked list of files: provision, then move; the first
      failing move ends the run, keeping every change made before it. */
  function Organize(t: Tree, destination: Path, files: seq<FileRecord>): Run
    decreases |files|
  {
    if files == [] then Run(t, None)
    else
      var f := files[0];
      var t' := Provision(t, destination, f);
      match MoveEntry(t', f.path, Destination(destination, f))
      case Failure(e) => Run(t', Some(e))
      case Success(t'') => Organize(t'', destination, files[1..])
  }

  /** Files are handled in list order: organizing a + b organizes a, and then b only
      when a ended without failure. */
  lemma {:induction false} OrganizeAppend(t: Tree, destination: Path, a: seq<FileRecord>, b: seq<FileRecord>)
    ensures Organize(t, destination, a + b) ==
      var r := Organize(t, destination, a);
      if r.failure.Some? then r else Organize(r.tree, destination, b)
    decreases |a|
  {
    if a == [] {
      assert a + b == b;
    } else {
      assert (a + b)[0] == a[0];
      assert (a + b)[1..] == a[1..] + b;
      var t' := Provision(t, destination, a[0]);
      match MoveEntry(t', a[0].path, Destination(destination, a[0]))
      case Failure(e) =>
      case Success(t'') =>
        OrganizeAppend(t'', destination, a[1..], b);
    }
  }

  /** Every directory a run may create. */
  function Buckets(destination: Path, files: seq<FileRecord>): set<Path> {
    (set f | f in files :: Resolve(destination, Extension(f))) +
    (set f | f in files && f.hidden :: Resolve(destination, "hidden"))
  }

  /** q lies at or below none of the files' sources and targets. */
  predicate Untouched(q: Path, destination: Path, files: seq<FileRecord>) {
    forall f :: f in files ==> !Within(q, f.path) && !Within(q, Destination(destination, f))
  }

  /** q lies at or below none of the files' targets. */
  predicate OutsideTargets(q: Path, destination: Path, files: seq<FileRecord>) {
    forall f :: f in files ==> !Within(q, Destination(destination, f))
  }

  /** The first file's bucket directories belong to the list's, and the rest of the
      list is part of the list. */
  lemma TouchedByFirst(destination: Path, files: seq<FileRecord>)
    requires files != []
    ensures files[0] in files
    ensures Resolve(destination, Extension(files[0])) in Buckets(destination, files)
    ensures files[0].hidden ==> Resolve(destination, "hidden") in Buckets(destination, files)
    ensures forall g :: g in files[1..] ==> g in files
    ensures Buckets(destination, files[1..]) <= Buckets(destination, files)
  {
    assert files[0] in files;
    assert forall g :: g in files[1..] ==> g in files;
  }

  /** A run leaves every entry that lies outside the files' sources and targets, and
      the subtrees below them, as it was, whether it fails or not. */
  lemma {:induction false} OrganizeKeeps(t: Tree, destination: Path, files: seq<FileRecord>, q: Path)
    requires q in t && Untouched(q, destination, files)
    ensures var r := Organize(t, destination, files); q in r.tree && r.tree[q] == t[q]
    decreases |files|
  {
    if files != [] {
      var f, rest := files[0], files[1..];
      TouchedByFirst(destination, files);
      var t' := Provision(t, destination, f);
      ProvisionFrame(t, destination, f);
      match MoveEntry(t', f.path, Destination(destination, f))
      case Failure(e) =>
      case Success(t'') =>
        MoveEntryFrame(t', f.path, Destination(destination, f));
        OrganizeKeeps(t'', destination, rest, q);
    }
  }

  /** A run creates nothing but bucket directories and entries at or below the
      files' targets, whether it fails or not. */
  lemma {:induction false} OrganizeAddsOnly(t: Tree, destination: Path, files: seq<FileRecord>, q: Path)
    requires q !in t && q !in Buckets(destination, files) && OutsideTargets(q, destination, files)
    ensures q !in Organize(t, destination, files).tree
    decreases |files|
  {
    if files != [] {
      var f, rest := files[0], files[1..];
      TouchedByFirst(destination, files);
      var t' := Provision(t, destination, f);
      ProvisionFrame(t, destination, f);
      assert q !in t';
      match MoveEntry(t', f.path, Destination(destination, f))
      case Failure(e) =>
      case Success(t'') =>
        MoveEntryFrame(t', f.path, Destination(destination, f));
        assert !Within(q, Destination(destination, f));
        assert q !in t'';
        OrganizeAddsOnly(t'', destination, rest, q);
    }
  }

  /** Neither f's source nor its target lies at or below g's. */
  predicate Apart(destination: Path, f: FileRecord, g: FileRecord) {
    !Within(f.path, g.path) && !Within(Destination(destination, f), Destination(destination, g))
  }

  /** f's source lies neither at or below g's target nor above it. */
  predicate Clear(destination: Path, f: FileRecord, g: FileRecord) {
    !Within(f.path, Destination(destination, g)) && !Within(Destination(destination, g), f.path)
  }

  /** No file's source or target lies at or below another file's source or target,
      no source lies at or below its own target or the other way round, and no
      source is a bucket directory. */
  predicate Separate(destination: Path, files: seq<FileRecord>) {
    && (forall i, j {:trigger Apart(destination, files[i], files[j])} ::
          0 <= i < |files| && 0 <= j < |files| && i != j ==> Apart(destination, files[i], files[j]))
    && (forall i, j {:trigger Clear(destination, files[i], files[j])} ::
          0 <= i < |files| && 0 <= j < |files| ==> Clear(destination, files[i], files[j]))
    && (forall f :: f in files ==> f.path !in Buckets(destination, files))
  }

  /** Dropping the first file keeps a list separate. */
  lemma SeparateRest(destination: Path, files: seq<FileRecord>)
    requires files != [] && Separate(destination, files)
    ensures Separate(destination, files[1..])
  {
    var rest := files[1..];
    TouchedByFirst(destination, files);
    forall i, j | 0 <= i < |rest| && 0 <= j < |rest|
      ensures i != j ==> Apart(destination, rest[i], rest[j])
      ensures Clear(destination, rest[i], rest[j])
    {
      assert rest[i] == files[i + 1] && rest[j] == files[j + 1];
    }
  }

  /** What Separate says about the first file against the rest. */
  lemma SeparateFirst(destination: Path, files: seq<FileRecord>)
    requires files != [] && Separate(destination, files)
    ensures var f, rest, target := files[0], files[1..], Destination(destination, files[0]);
      && !Within(f.path, target)
      && f.path !in Buckets(destination, rest)
      && OutsideTargets(f.path, destination, rest)
      && Untouched(target, destination, rest)
      && (forall g :: g in rest ==>
            !Within(g.path, f.path) && !Within(g.path, target) && g.path !in Buckets(destination, files))
  {
    var f, rest, target := files[0], files[1..], Destination(destination, files[0]);
    TouchedByFirst(destination, files);
    assert Clear(destination, files[0], files[0]);
    forall g | g in rest
      ensures !Within(f.path, Destination(destination, g))
      ensures !Within(target, g.path) && !Within(target, Destination(destination, g))
      ensures !Within(g.path, f.path) && !Within(g.path, target) && g.path !in Buckets(destination, files)
    {
      var j :| 0 <= j < |rest| && rest[j] == g;
      assert files[j + 1] == g;
      assert Apart(destination, files[0], files[j + 1]) && Apart(destination, files[j + 1], files[0]);
      assert Clear(destination, files[0], files[j + 1]) && Clear(destination, files[j + 1], files[0]);
    }
  }

  /** The first step of a separate run moves the first file and leaves the other
      files' sources as they were. */
  lemma FirstStep(t: Tree, destination: Path, files: seq<FileRecord>)
    requires files != [] && Separate(destination, files)
    requires MoveEntry(Provision(t, destination, files[0]), files[0].path, Destination(destination, files[0])).Success?
    ensures var f, target := files[0], Destination(destination, files[0]);
      var t'' := MoveEntry(Provision(t, destination, f), f.path, target).value;
      && f.path in t && f.path !in t'' && target in t'' && t''[target] == t[f.path]
      && forall g :: g in files[1..] ==>
           (g.path in t'' <==> g.path in t) && (g.path in t ==> t''[g.path] == t[g.path])
  {
    var f := files[0];
    var t' := Provision(t, destination, f);
    SeparateFirst(destination, files);
    TouchedByFirst(destination, files);
    ProvisionFrame(t, destination, f);
    MoveEntryFrame(t', f.path, Destination(destination, f));
  }

  /** A run that ends without failure moved its first file and went on with the rest. */
  lemma OrganizeStep(t: Tree, destination: Path, files: seq<FileRecord>)
    requires files != [] && Organize(t, destination, files).failure.None?
    ensures var f := files[0];
      var m := MoveEntry(Provision(t, destination, f), f.path, Destination(destination, f));
      m.Success? && Organize(t, destination, files) == Organize(m.value, destination, files[1..])
  {
  }

  /** The first step of a separate run leaves the k-th file's source as it was. */
  lemma FirstStepKeeps(t: Tree, destination: Path, files: seq<FileRecord>, k: nat)
    requires 0 < k < |files| && Separate(destination, files)
    requires MoveEntry(Provision(t, destination, files[0]), files[0].path, Destination(destination, files[0])).Success?
    ensures var f, g := files[0], files[k];
      var t'' := MoveEntry(Provision(t, destination, f), f.path, Destination(destination, f)).value;
      (g.path in t'' <==> g.path in t) && (g.path in t ==> t''[g.path] == t[g.path])
  {
    var f, g := files[0], files[k];
    assert Apart(destination, g, f) && Clear(destination, g, f);
    assert g in files;
    TouchedByFirst(destination, files);
    ProvisionFrame(t, destination, f);
    MoveEntryFrame(Provision(t, destination, f), f.path, Destination(destination, f));
  }

  /** When no move clashes with another, a run that ends without failure leaves
      the first file at its destination with the content it had at its source, and
      its source gone. */
  lemma OrganizeMovesFirst(t: Tree, destination: Path, files: seq<FileRecord>)
    requires files != [] && Separate(destination, files)
    requires Organize(t, destination, files).failure.None?
    ensures var r, f := Organize(t, destination, files), files[0];
      && f.path in t
      && f.path !in r.tree
      && Destination(destination, f) in r.tree
      && r.tree[Destination(destination, f)] == t[f.path]
  {
    var f, rest := files[0], files[1..];
    var target := Destination(destination, f);
    var t'' := MoveEntry(Provision(t, destination, f), f.path, target).value;
    OrganizeStep(t, destination, files);
    SeparateFirst(destination, files);
    FirstStep(t, destination, files);
    OrganizeKeeps(t'', destination, rest, target);
    OrganizeAddsOnly(t'', destination, rest, f.path);
  }

  /** The same for the k-th file. */
  lemma {:induction false} OrganizeMovesFile(t: Tree, destination: Path, files: seq<FileRecord>, k: nat)
    requires Separate(destination, files) && k < |files|
    requires Organize(t, destination, files).failure.None?
    ensures var r, f := Organize(t, destination, files), files[k];
      && f.path in t
      && f.path !in r.tree
      && Destination(destination, f) in r.tree
      && r.tree[Destination(destination, f)] == t[f.path]
    decreases |files|, 2
  {
    if k == 0 {
      OrganizeMovesFirst(t, destination, files);
    } else {
      OrganizeMovesLater(t, destination, files, k);
    }
  }

  /** A file after the first is moved by the rest of the run, from a source the
      first step left as it was. */
  lemma {:induction false} OrganizeMovesLater(t: Tree, destination: Path, files: seq<FileRecord>, k: nat)
    requires Separate(destination, files) && 0 < k < |files|
    requires Organize(t, destination, files).failure.None?
    ensures var r, f := Organize(t, destination, files), files[k];
      && f.path in t
      && f.path !in r.tree
      && Destination(destination, f) in r.tree
      && r.tree[Destination(destination, f)] == t[f.path]
    decreases |files|, 1
  {
    var f := files[0];
    OrganizeStep(t, destination, files);
    var t'' := MoveEntry(Provision(t, destination, f), f.path, Destination(destination, f)).value;
    FirstStepKeeps(t, destination, files, k);
    OrganizeMovesFrom(t, t'', destination, files, k);
  }

  /** The k-th file, for k > 0, is moved by the run over the rest of the list that
      starts from the tree t'' the first step left. */
  lemma {:induction false} OrganizeMovesFrom(t: Tree, t'': Tree, destination: Path, files: seq<FileRecord>, k: nat)
    requires Separate(destination, files) && 0 < k < |files|
    requires Organize(t'', destination, files[1..]).failure.None?
    requires files[k].path in t'' <==> files[k].path in t
    requires files[k].path in t ==> t''[files[k].path] == t[files[k].path]
    ensures var r, f := Organize(t'', destination, files[1..]), files[k];
      && f.path in t
      && f.path !in r.tree
      && Destination(destination, f) in r.tree
      && r.tree[Destination(destination, f)] == t[f.path]
    decreases |files|, 0
  {
    var rest := files[1..];
    assert rest[k - 1] == files[k];
    SeparateRest(destination, files);
    OrganizeMovesFile(t'', destination, rest, k - 1);
  }

  /** The same for every file of the list. */
  lemma OrganizeMovesEveryFile(t: Tree, destination: Path, files: seq<FileRecord>)
    requires Separate(destination, files)
    requires Organize(t, destination, files).failure.None?
    ensures var r := Organize(t, destination, files);
      forall k :: 0 <= k < |files| ==>
        && files[k].path in t
        && files[k].path !in r.tree
        && Destination(destination, files[k]) in r.tree
        && r.tree[Destination(destination, files[k])] == t[files[k].path]
  {
    forall k | 0 <= k < |files| {
      OrganizeMovesFile(t, destination, files, k);
    }
  }

  /** Running fileOrganizer over files that already sit at their destinations, with
      their extension folders (and the "hidden" folder for hidden ones) present,
      changes nothing: each move is of a file onto itself. */
  lemma {:induction false} OrganizeAlreadyInPlace(t: Tree, destination: Path, files: seq<FileRecord>)
    requires forall f :: f in files ==>
      && f.path == Destination(destination, f)
      && f.path in t
      && Resolve(destination, Extension(f)) in t
      && (f.hidden ==> Resolve(destination, "hidden") in t)
    ensures Organize(t, destination, files) == Run(t, None)
    decreases |files|
  {
    if files != [] {
      var f := files[0];
      assert Provision(t, destination, f) == t;
      assert forall g :: g in files[1..] ==> g in files;
      OrganizeAlreadyInPlace(t, destination, files[1..]);
    }
  }

  /** directoryCreator. */
  method DirectoryCreator(fs: FileSystem, destination: Path, folderName: string)
    modifies fs
    ensures fs.entries == CreateDirectory(old(fs.entries), destination, folderName)
  {
    var directory := Resolve(destination, folderName);
    var present := fs.Exists(directory);
    if !present {
      var _ := fs.Mkdir(directory);
    }
  }

  /** fileMover: Files.move with REPLACE_EXISTING; a thrown IOException is Some(error). */
  method FileMover(fs: FileSystem, source: Path, destination: Path) returns (error: Option<IoError>)
    modifies fs
    ensures MoveEntry(old(fs.entries), source, destination).Success? ==>
      error == None && fs.entries == MoveEntry(old(fs.entries), source, destination).value
    ensures MoveEntry(old(fs.entries), source, destination).Failure? ==>
      error == Some(MoveEntry(old(fs.entries), source, destination).error) && fs.entries == old(fs.entries)
  {
    error := fs.Move(source, destination);
  }

  /** fileOrganizer, given the files the walk of the source directory found. */
  method FileOrganizer(fs: FileSystem, destination: Path, files: seq<FileRecord>) returns (failure: Option<IoError>)
    modifies fs
    ensures Run(fs.entries, failure) == Organize(old(fs.entries), destination, files)
  {
    for i := 0 to |files|
      invariant Organize(old(fs.entries), destination, files) == Organize(fs.entries, destination, files[i..])
    {
      var file := files[i];
      ghost var before := fs.entries;
      var extension := GetExtension(Some(file.Name())).value;
      GetExtensionIsAfterLastDot(file.Name());
      DirectoryCreator(fs, destination, extension);
      var fileSource := file.path;
      var fileDestination := Resolve(Resolve(destination, extension), file.Name());
      if file.hidden {
        extension := "hidden";
        DirectoryCreator(fs, destination, extension);
        fileDestination := Resolve(Resolve(destination, extension), file.Name());
      }
      assert fs.entries == Provision(before, destination, file);
      assert fileDestination == Destination(destination, file);
      assert files[i..][0] == file && files[i..][1..] == files[i + 1..];
      failure := FileMover(fs, fileSource, fileDestination);
      if failure.Some? {
        return;
      }
    }
    failure := None;
  }
}
