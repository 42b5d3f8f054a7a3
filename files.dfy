/** The slice of java.io.File, java.nio.file.Path and java.nio.file.Files that the
    program uses, over an abstract file tree: a map from a path to the entry stored there. */
module Files {
  import opened Wrappers

  /** A path as its sequence of name elements. */
  type Path = seq<string>

  /** The name separator File.toString puts between name elements. */
  const Separator: char := '/'

  /** Path.resolve with a single name: the empty name resolves to the path itself. */
  function Resolve(p: Path, other: string): (r: Path)
    ensures other == "" ==> r == p
    ensures other != "" ==> |r| == |p| + 1 && r[..|p|] == p && r[|p|] == other
  {
    if other == "" then p else p + [other]
  }

  /** File.toString: the name elements joined by the separator. */
  function PathString(p: Path): string
  {
    if |p| == 0 then ""
    else if |p| == 1 then p[0]
    else PathString(p[..|p| - 1]) + [Separator] + p[|p| - 1]
  }

  /** Every character of a path string is the separator or a character of one of
      the name elements. */
  lemma {:induction false} PathStringChars(p: Path, c: char)
    requires c in PathString(p)
    ensures c == Separator || exists i :: 0 <= i < |p| && c in p[i]
    decreases |p|
  {
    if |p| >= 2 {
      var init := p[..|p| - 1];
      if c in PathString(init) && c != Separator {
        PathStringChars(init, c);
        var i :| 0 <= i < |init| && c in init[i];
        assert p[i] == init[i];
      }
    }
  }

  datatype Entry = Directory | Regular(content: string)

  type Tree = map<Path, Entry>

  predicate IsDirectory(t: Tree, p: Path) {
    p in t && t[p].Directory?
  }

  /** The immediate parent of p is a directory of t. */
  predicate ParentIsDirectory(t: Tree, p: Path) {
    |p| > 0 && IsDirectory(t, p[..|p| - 1])
  }

  /** Some entry of t lies strictly below p. */
  predicate HasChildren(t: Tree, p: Path) {
    exists q :: q in t && |p| < |q| && q[..|p|] == p
  }

  /** q is p itself or lies below p. */
  predicate Within(q: Path, p: Path) {
    |p| <= |q| && q[..|p|] == p
  }

  /** Two paths that share a descendant lie one within the other. */
  lemma WithinBoth(q: Path, a: Path, b: Path)
    requires Within(q, a) && Within(q, b) && |a| <= |b|
    ensures Within(b, a)
  {
    assert b[..|a|] == q[..|b|][..|a|] == q[..|a|];
  }

  datatype IoError =
    | NoSuchFile(path: Path)
    | NotADirectory(path: Path)
    | DirectoryNotEmpty(path: Path)
    | FileAlreadyExists(path: Path)
    | IsADirectory(path: Path)
    | InvalidArgument(path: Path)

  /** The error for a path whose parent is not a directory: the parent is missing,
      or it is some other kind of entry. */
  function ParentError(t: Tree, p: Path): (e: IoError)
    requires !ParentIsDirectory(t, p)
    ensures e.path == p
    ensures e.NotADirectory? <==> |p| > 0 && p[..|p| - 1] in t
    ensures e.NoSuchFile? <==> !(|p| > 0 && p[..|p| - 1] in t)
  {
    if |p| > 0 && p[..|p| - 1] in t then NotADirectory(p) else NoSuchFile(p)
  }

  /** File.mkdir: creates one directory when nothing is at p and p's parent is a
      directory; otherwise it fails, and the failure leaves the tree as it was. */
  function MakeDirectory(t: Tree, p: Path): (r: Tree)
    ensures p in r <==> p in t || ParentIsDirectory(t, p)
    ensures p !in t && p in r ==> r[p] == Directory
  {
    if p !in t && ParentIsDirectory(t, p) then t[p := Directory] else t
  }

  /** mkdir touches no path but p. */
  lemma MakeDirectoryFrame(t: Tree, p: Path)
    ensures var r := MakeDirectory(t, p);
      && (forall q :: q in t ==> q in r && r[q] == t[q])
      && (forall q :: q in r ==> q in t || q == p)
  {
  }

  /** Where an entry at or below source lands when source is renamed to target. */
  function Rebase(q: Path, source: Path, target: Path): (r: Path)
    requires Within(q, source)
    ensures Within(r, target) && |r| - |target| == |q| - |source|
  {
    target + q[|source|..]
  }

  /** Distinct paths below source land on distinct paths below target. */
  lemma RebaseInjective(source: Path, target: Path)
    ensures forall q1, q2 :: Within(q1, source) && Within(q2, source) && Rebase(q1, source, target) == Rebase(q2, source, target) ==> q1 == q2
  {
    forall q1, q2 | Within(q1, source) && Within(q2, source) && Rebase(q1, source, target) == Rebase(q2, source, target)
      ensures q1 == q2
    {
      assert q1[|source|..] == Rebase(q1, source, target)[|target|..] == q2[|source|..];
      assert q1 == q1[..|source|] + q1[|source|..];
      assert q2 == q2[..|source|] + q2[|source|..];
    }
  }

  /** The tree after renaming source to target: every entry at or below source is
      carried to the same place below target, replacing what was there. */
  function Renamed(t: Tree, source: Path, target: Path): Tree
  {
    RebaseInjective(source, target);
    (map q | q in t && !Within(q, source) :: t[q]) +
    (map q | q in t && Within(q, source) :: Rebase(q, source, target) := t[q])
  }

  /** Files.move(source, target, REPLACE_EXISTING), a rename: it fails when the
      source is missing, when the target has entries below it, when the target's
      parent is not a directory, and when the target lies inside the source. */
  function MoveEntry(t: Tree, source: Path, target: Path): (r: Result<Tree, IoError>)
    ensures r.Failure? <==>
      source !in t ||
      (source != target && (HasChildren(t, target) || !ParentIsDirectory(t, target) || Within(target, source)))
    ensures r.Success? && source == target ==> r.value == t
    ensures r.Success? ==> target in r.value && r.value[target] == t[source]
    ensures r.Success? && source != target ==> source !in r.value
  {
    if source !in t then Failure(NoSuchFile(source))
    else if source == target then Success(t)
    else if HasChildren(t, target) then Failure(DirectoryNotEmpty(target))
    else if !ParentIsDirectory(t, target) then Failure(ParentError(t, target))
    else if Within(target, source) then Failure(InvalidArgument(target))
    else
      RenamedCarries(t, source, target, source);
      assert Rebase(source, source, target) == target;
      RenamedLeavesSource(t, source, target);
      Success(Renamed(t, source, target))
  }

  /** Renaming carries the entry at q, at or below source, to its place below target. */
  lemma RenamedCarries(t: Tree, source: Path, target: Path, q: Path)
    requires q in t && Within(q, source)
    ensures Rebase(q, source, target) in Renamed(t, source, target)
    ensures Renamed(t, source, target)[Rebase(q, source, target)] == t[q]
  {
    RebaseInjective(source, target);
    var carried := map p | p in t && Within(p, source) :: Rebase(p, source, target) := t[p];
    assert Rebase(q, source, target) in carried;
    assert carried[Rebase(q, source, target)] == t[q];
  }

  /** When the target has nothing below it and is not inside the source, renaming
      leaves nothing at or below the source. */
  lemma RenamedLeavesSource(t: Tree, source: Path, target: Path)
    requires source in t && !HasChildren(t, target) && !Within(target, source)
    ensures forall q :: Within(q, source) ==> q !in Renamed(t, source, target)
  {
    forall q | Within(q, source) ensures q !in Renamed(t, source, target) {
      if q in Renamed(t, source, target) {
        assert Within(q, target);
        if |source| <= |target| {
          WithinBoth(q, source, target);
        } else {
          WithinBoth(q, target, source);
        }
      }
    }
  }

  /** A successful move changes nothing outside the source's and the target's
      subtrees, and adds nothing outside the target's. */
  lemma MoveEntryFrame(t: Tree, source: Path, target: Path)
    requires MoveEntry(t, source, target).Success?
    ensures var r := MoveEntry(t, source, target).value;
      && (forall q :: !Within(q, source) && !Within(q, target) ==>
            (q in r <==> q in t) && (q in t ==> r[q] == t[q]))
      && (forall q :: q in r && !Within(q, target) ==> q in t)
  {
  }

  /** A successful move carries every entry at or below the source to the same
      place below the target, and leaves nothing at or below the source. */
  lemma MoveEntryCarries(t: Tree, source: Path, target: Path)
    requires MoveEntry(t, source, target).Success? && source != target
    ensures var r := MoveEntry(t, source, target).value;
      && (forall q :: q in t && Within(q, source) ==>
            Rebase(q, source, target) in r && r[Rebase(q, source, target)] == t[q])
      && (forall q :: Within(q, source) ==> q !in r)
  {
    forall q | q in t && Within(q, source)
      ensures var r := MoveEntry(t, source, target).value;
        Rebase(q, source, target) in r && r[Rebase(q, source, target)] == t[q]
    {
      RenamedCarries(t, source, target, q);
    }
    RenamedLeavesSource(t, source, target);
  }

  /** Moving an entry with nothing below it, a regular file say, removes it from
      the source and puts it at the target, replacing whatever was there. */
  lemma MoveEntryLeaf(t: Tree, source: Path, target: Path)
    requires MoveEntry(t, source, target).Success? && source != target && !HasChildren(t, source)
    ensures MoveEntry(t, source, target).value == (t - {source})[target := t[source]]
  {
    var r, e := MoveEntry(t, source, target).value, (t - {source})[target := t[source]];
    assert Rebase(source, source, target) == target;
    forall q | q in t && Within(q, source) ensures q == source {
      assert q[..|source|] == source;
    }
    forall q ensures q in r <==> q in e {
      if q in e && q != target {
        assert q in t && !Within(q, source);
      }
    }
    forall q | q in r ensures r[q] == e[q] {
      if q != target {
        assert q in t && !Within(q, source);
      }
    }
  }

  /** Files.createFile: a new empty regular file. */
  function CreateFile(t: Tree, p: Path): (r: Result<Tree, IoError>)
    ensures r.Success? <==> p !in t && ParentIsDirectory(t, p)
    ensures r.Success? ==> r.value == t[p := Regular("")]
  {
    if p in t then Failure(FileAlreadyExists(p))
    else if !ParentIsDirectory(t, p) then Failure(ParentError(t, p))
    else Success(t[p := Regular("")])
  }

  /** The bytes Files.write(p, lines) stores: every line followed by a line separator. */
  function LinesText(lines: seq<string>): string
  {
    if lines == [] then "" else LinesText(lines[..|lines| - 1]) + lines[|lines| - 1] + "\n"
  }

  /** Writing one more line appends it and its separator to the text. */
  lemma {:induction false} LinesTextAppend(a: seq<string>, b: seq<string>)
    ensures LinesText(a + b) == LinesText(a) + LinesText(b)
  {
    if b == [] {
      assert a + b == a;
    } else {
      var b' := b[..|b| - 1];
      assert (a + b)[..|a + b| - 1] == a + b';
      LinesTextAppend(a, b');
    }
  }

  /** Files.write(p, lines) with its default options: create or truncate, then write. */
  function WriteFile(t: Tree, p: Path, lines: seq<string>): (r: Result<Tree, IoError>)
    ensures r.Success? <==> if p in t then !t[p].Directory? else ParentIsDirectory(t, p)
    ensures r.Success? ==> r.value == t[p := Regular(LinesText(lines))]
  {
    if p in t && t[p].Directory? then Failure(IsADirectory(p))
    else if p !in t && !ParentIsDirectory(t, p) then Failure(ParentError(t, p))
    else Success(t[p := Regular(LinesText(lines))])
  }

  /** One entry found by walking a tree: java.io.File with the answers of its
      isHidden, canRead and canWrite queries taken at walk time. */
  datatype FileRecord = FileRecord(path: Path, hidden: bool, readable: bool, writable: bool)
  {
    /** File.getName: the last name element, or "" for the empty path. */
    function Name(): string {
      if |path| == 0 then "" else path[|path| - 1]
    }

    /** getParentFile() is not null. */
    predicate HasParent() {
      |path| >= 2
    }

    /** getParentFile().getName(). */
    function ParentName(): string
      requires HasParent()
    {
      path[|path| - 2]
    }
  }

  /** The file system the program acts on; its methods are the OS calls. */
  class FileSystem {
    var entries: Tree

    constructor (t: Tree)
      ensures entries == t
    {
      entries := t;
    }

    /** File.exists. */
    method Exists(p: Path) returns (b: bool)
      ensures b <==> p in entries
    {
      b := p in entries;
    }

    /** File.mkdir, whose boolean result says whether a directory was created. */
    method Mkdir(p: Path) returns (created: bool)
      modifies this
      ensures entries == MakeDirectory(old(entries), p)
      ensures created <==> p !in old(entries) && p in entries
    {
      created := p !in entries && ParentIsDirectory(entries, p);
      if created {
        entries := entries[p := Directory];
      }
    }

    /** Files.move with REPLACE_EXISTING; an IOException becomes Some(error). */
    method Move(source: Path, target: Path) returns (error: Option<IoError>)
      modifies this
      ensures MoveEntry(old(entries), source, target).Success? ==>
        error == None && entries == MoveEntry(old(entries), source, target).value
      ensures MoveEntry(old(entries), source, target).Failure? ==>
        error == Some(MoveEntry(old(entries), source, target).error) && entries == old(entries)
    {
      match MoveEntry(entries, source, target)
      case Success(t) =>
        entries := t;
        error := None;
      case Failure(e) =>
        error := Some(e);
    }

    /** Files.createFile. */
    method CreateNewFile(p: Path) returns (error: Option<IoError>)
      modifies this
      ensures CreateFile(old(entries), p).Success? ==>
        error == None && entries == CreateFile(old(entries), p).value
      ensures CreateFile(old(entries), p).Failure? ==>
        error == Some(CreateFile(old(entries), p).error) && entries == old(entries)
    {
      match CreateFile(entries, p)
      case Success(t) =>
        entries := t;
        error := None;
      case Failure(e) =>
        error := Some(e);
    }

    /** Files.write(p, lines). */
    method Write(p: Path, lines: seq<string>) returns (error: Option<IoError>)
      modifies this
      ensures WriteFile(old(entries), p, lines).Success? ==>
        error == None && entries == WriteFile(old(entries), p, lines).value
      ensures WriteFile(old(entries), p, lines).Failure? ==>
        error == Some(WriteFile(old(entries), p, lines).error) && entries == old(entries)
    {
      match WriteFile(entries, p, lines)
      case Success(t) =>
        entries := t;
        error := None;
      case Failure(e) =>
        error := Some(e);
    }
  }
}
