/** The three-file example: a.txt, the hidden .bashrc and b, organized from src
    into a destination d whose name elements hold no '.', and then summarized. */
module Scenario {
  import opened Wrappers
  import opened Text
  import opened Files
  import opened Extensions
  import opened Organizer
  import opened Summary

  const A: FileRecord := FileRecord(["src", "a.txt"], false, true, true)
  const Bashrc: FileRecord := FileRecord(["src", ".bashrc"], true, true, true)
  const B: FileRecord := FileRecord(["src", "b"], false, true, true)

  /** a.txt goes to txt/. */
  lemma DestinationOfA(d: Path)
    ensures Destination(d, A) == d + ["txt", "a.txt"]
  {
    assert AfterLastDot("a.txt") == "txt" by {
      assert "a.txt"[..4] == "a.tx";
      assert "a.txt"[..4][..3] == "a.t";
      assert "a.txt"[..4][..3][..2] == "a.";
    }
  }

  /** .bashrc, hidden, goes to hidden/ whatever its extension. */
  lemma DestinationOfBashrc(d: Path)
    ensures Destination(d, Bashrc) == d + ["hidden", ".bashrc"]
  {
  }

  /** b, whose name has no '.', goes to b/b. */
  lemma DestinationOfB(d: Path)
    ensures Destination(d, B) == d + ["b", "b"]
  {
    assert AfterLastDot("b") == "b" by {
      assert "b"[..0] == "";
    }
  }

  /** The destination's name elements hold no '.'. */
  predicate Plain(d: Path) {
    |d| >= 1 && forall i :: 0 <= i < |d| ==> '.' !in d[i]
  }

  /** The three files as the walk of d finds them afterwards. */
  function Organized(d: Path): seq<FileRecord> {
    [ FileRecord(d + ["txt", "a.txt"], false, true, true),
      FileRecord(d + ["hidden", ".bashrc"], true, true, true),
      FileRecord(d + ["b", "b"], false, true, true) ]
  }

  /** In a + "." + b with no '.' in b, the last '.' is the one after a. */
  lemma LastDot(a: string, b: string)
    requires '.' !in b
    ensures LastIndexOf(a + "." + b, '.') == |a|
    ensures (a + "." + b)[|a| + 1..] == b
  {
    LastIndexOfAppend(a + ".", b, '.');
    assert (a + ".")[|a|] == '.';
  }

  /** The path string of p + [n + "." + e] splits at its last '.' into
      PathString(p)/n and e. */
  lemma PathStringDot(p: Path, n: string, e: string)
    requires |p| >= 1 && '.' !in e
    ensures PathString(p + [n + "." + e]) == (PathString(p) + [Separator] + n) + "." + e
  {
    assert (p + [n + "." + e])[..|p|] == p;
  }

  lemma ContributionOfA(d: Path)
    requires Plain(d)
    ensures Contribution(Organized(d)[0]) == {"txt"}
  {
    var dir := d + ["txt"];
    assert "a" + "." + "txt" == "a.txt";
    assert Organized(d)[0].path == dir + ["a" + "." + "txt"];
    PathStringDot(dir, "a", "txt");
    LastDot(PathString(dir) + [Separator] + "a", "txt");
  }

  lemma ContributionOfBashrc(d: Path)
    requires Plain(d)
    ensures Contribution(Organized(d)[1]) == {"bashrc", "hidden"}
  {
    var dir := d + ["hidden"];
    assert "" + "." + "bashrc" == ".bashrc";
    assert Organized(d)[1].path == dir + ["" + "." + "bashrc"];
    PathStringDot(dir, "", "bashrc");
    LastDot(PathString(dir) + [Separator] + "", "bashrc");
  }

  lemma ContributionOfB(d: Path)
    requires Plain(d)
    ensures Contribution(Organized(d)[2]) == {}
  {
    var p := Organized(d)[2].path;
    forall c | c in PathString(p) ensures c != '.' {
      PathStringChars(p, c);
      if c != Separator {
        var i :| 0 <= i < |p| && c in p[i];
        if i < |d| {
          assert p[i] == d[i];
        } else {
          assert p[i] == "b";
        }
      }
    }
    var s := PathString(p);
    assert forall j :: 0 <= j < |s| ==> s[j] in s;
  }

  lemma FoundOfThree(files: seq<FileRecord>)
    requires |files| == 3
    ensures FoundExtensions(files) == Contribution(files[0]) + Contribution(files[1]) + Contribution(files[2])
  {
    assert files[..2][..1] == files[..1] && files[..1][..0] == [];
    assert FoundExtensions(files[..1]) == Contribution(files[0]);
    assert FoundExtensions(files[..2]) == Contribution(files[0]) + Contribution(files[1]);
  }

  /** The labels found in the organized tree come from the full path strings:
      txt, bashrc and hidden, and no label b, since the path string of d/b/b holds
      no '.'. */
  lemma ScenarioLabels(d: Path)
    requires Plain(d)
    ensures FoundExtensions(Organized(d)) == {"txt", "bashrc", "hidden"}
  {
    ContributionOfA(d);
    ContributionOfBashrc(d);
    ContributionOfB(d);
    FoundOfThree(Organized(d));
  }

  /** Matching over a three-file walk, file by file. */
  lemma MatchingOfThree(files: seq<FileRecord>, extension: string)
    requires |files| == 3 && AllHaveParents(files)
    ensures Matching(files, extension) ==
      (if files[0].ParentName() == extension then [files[0]] else []) +
      (if files[1].ParentName() == extension then [files[1]] else []) +
      (if files[2].ParentName() == extension then [files[2]] else [])
  {
    assert files[..2][..1] == files[..1] && files[..1][..0] == [];
    assert files[..3] == files;
    assert Matching(files[..1], extension) == (if files[0].ParentName() == extension then [files[0]] else []);
    assert Matching(files[..2], extension) == Matching(files[..1], extension) +
      (if files[1].ParentName() == extension then [files[1]] else []);
  }

  /** Each organized file is listed under the folder it sits in; none under bashrc. */
  lemma ScenarioMatching(d: Path)
    ensures AllHaveParents(Organized(d))
    ensures Matching(Organized(d), "txt") == [Organized(d)[0]]
    ensures Matching(Organized(d), "hidden") == [Organized(d)[1]]
    ensures Matching(Organized(d), "b") == [Organized(d)[2]]
    ensures Matching(Organized(d), "bashrc") == []
  {
    var files := Organized(d);
    forall i | 0 <= i < |files| ensures files[i].HasParent() {
      assert files[i] in files;
    }
    assert files[0].ParentName() == "txt" && files[1].ParentName() == "hidden" && files[2].ParentName() == "b";
    MatchingOfThree(files, "txt");
    MatchingOfThree(files, "hidden");
    MatchingOfThree(files, "b");
    MatchingOfThree(files, "bashrc");
  }

  /** Visiting the labels txt, bashrc and hidden takes three sections, none of them b. */
  lemma ThreeLabels(order: seq<string>)
    requires Enumerates(order, {"txt", "bashrc", "hidden"})
    ensures "txt" in order && "hidden" in order && "bashrc" in order && |order| == 3
    ensures "b" !in order
  {
    var labels: set<string> := {"txt", "bashrc", "hidden"};
    assert "txt" != "bashrc" && "txt" != "hidden" && "bashrc" != "hidden";
    assert |labels| == 3;
    EnumeratesSize(order, labels);
  }

  /** So the report of the organized tree has three sections, for txt, for hidden
      and an empty one for bashrc, in some order, and none for b: the file b is in
      no section at all. */
  lemma ScenarioSections(d: Path, order: seq<string>)
    requires Plain(d)
    requires Enumerates(order, FoundExtensions(Organized(d)))
    ensures "txt" in order && "hidden" in order && "bashrc" in order && |order| == 3
    ensures "b" !in order
  {
    ScenarioLabels(d);
    ThreeLabels(order);
  }

  /** The destination the run below organizes into. */
  const D: Path := ["d"]

  /** The trees the run passes through: d is a directory, every entry has one or
      two name elements or is a three-element path under d, and the entries with at
      most two elements under d are directories. So a source src/x has nothing
      below it, and no three-element target has anything below it. */
  predicate LaidOut(t: Tree) {
    && IsDirectory(t, D)
    && forall p :: p in t ==>
         && p != []
         && (|p| <= 2 || (|p| == 3 && p[0] == "d"))
         && (p[0] == "d" && |p| <= 2 ==> t[p] == Directory)
  }

  /** A file the run can move: src/name, whose extension is not empty. */
  predicate Movable(f: FileRecord) {
    |f.path| == 2 && f.path[0] == "src" && f.path[1] != "" && Extension(f) != ""
  }

  /** directoryCreator(d, name) keeps a tree laid out and leaves d/name a directory. */
  lemma CreateLaidOut(t: Tree, name: string)
    requires LaidOut(t) && name != ""
    ensures var r := CreateDirectory(t, D, name);
      && LaidOut(r)
      && IsDirectory(r, D + [name])
      && (forall q :: q in t ==> q in r && r[q] == t[q])
      && (forall q :: q in r ==> q in t || q == D + [name])
  {
    var p := D + [name];
    assert Resolve(D, name) == p && p[..1] == D && p[0] == "d";
    CreateDirectoryFrame(t, D, name);
  }

  /** Provisioning a movable file keeps the tree laid out and leaves its bucket a
      directory. */
  lemma ProvisionLaidOut(t: Tree, f: FileRecord)
    requires LaidOut(t) && Movable(f)
    ensures var p := Provision(t, D, f);
      && LaidOut(p)
      && IsDirectory(p, D + [Bucket(f)])
      && (forall q :: q in t ==> q in p && p[q] == t[q])
      && (forall q :: q in p ==> q in t || (|q| == 2 && q[0] == "d"))
  {
    CreateLaidOut(t, Extension(f));
    if f.hidden {
      CreateLaidOut(CreateDirectory(t, D, Extension(f)), "hidden");
    }
  }

  /** Replacing src/x by a three-element target under d keeps a tree laid out. */
  lemma LeafMovedLaidOut(p: Tree, source: Path, target: Path, m: Tree)
    requires LaidOut(p) && source in p && |source| == 2 && source[0] == "src"
    requires |target| == 3 && target[0] == "d"
    requires m == (p - {source})[target := p[source]]
    ensures LaidOut(m)
    ensures target in m && m[target] == p[source] && source !in m
    ensures forall q :: q in p && q != source && q != target ==> q in m && m[q] == p[q]
    ensures forall q :: q in m ==> q in p || q == target
  {
    assert source != target;
  }

  /** Moving src/x to a three-element target under d whose parent is a directory
      succeeds in a laid-out tree, keeps it laid out, and moves just that entry. */
  lemma MoveLeafLaidOut(p: Tree, source: Path, target: Path)
    requires LaidOut(p) && source in p && |source| == 2 && source[0] == "src"
    requires |target| == 3 && target[0] == "d" && IsDirectory(p, target[..2])
    ensures var m := MoveEntry(p, source, target);
      && m.Success?
      && LaidOut(m.value)
      && target in m.value && m.value[target] == p[source]
      && source !in m.value
      && (forall q :: q in p && q != source && q != target ==> q in m.value && m.value[q] == p[q])
      && (forall q :: q in m.value ==> q in p || q == target)
  {
    assert "src" != "d";
    assert !HasChildren(p, target);
    assert !HasChildren(p, source);
    assert !Within(target, source) by {
      assert target[..2][0] != source[0];
    }
    MoveEntryLeaf(p, source, target);
    LeafMovedLaidOut(p, source, target, MoveEntry(p, source, target).value);
  }

  /** One step of the run for a movable file that is present: the move succeeds,
      the file's content sits at d/bucket/name, src/name is gone, and every other
      entry but the target keeps its value. */
  lemma MoveLaidOut(t: Tree, f: FileRecord)
    requires LaidOut(t) && Movable(f) && f.path in t
    ensures var target, m := D + [Bucket(f), f.Name()], MoveEntry(Provision(t, D, f), f.path, Destination(D, f));
      && Destination(D, f) == target
      && m.Success?
      && LaidOut(m.value)
      && target in m.value && m.value[target] == t[f.path]
      && f.path !in m.value
      && (forall q :: q in t && q != f.path && q != target ==> q in m.value && m.value[q] == t[q])
      && (forall q :: q in m.value ==> q in t || q == target || (|q| == 2 && q[0] == "d"))
  {
    var target := D + [Bucket(f), f.Name()];
    assert Destination(D, f) == target;
    ProvisionLaidOut(t, f);
    assert target[..2] == D + [Bucket(f)];
    MoveLeafLaidOut(Provision(t, D, f), f.path, target);
  }

  /** What one step of the run does to the tree: f's content moves to its
      destination, a path under d, and nothing else changes but new directories
      directly under d. */
  predicate Stepped(t: Tree, t1: Tree, f: FileRecord)
    requires f.path in t
  {
    var target := Destination(D, f);
    && target != [] && target[0] == "d"
    && target in t1 && t1[target] == t[f.path]
    && f.path !in t1
    && (forall q :: q in t && q != f.path && q != target ==> q in t1 && t1[q] == t[q])
    && (forall q :: q in t1 ==> q in t || q == target || (|q| == 2 && q[0] == "d"))
  }

  /** A run whose first file is movable and present takes that file's step and
      goes on with the rest. */
  lemma RunStep(t: Tree, files: seq<FileRecord>) returns (t1: Tree)
    requires files != [] && LaidOut(t) && Movable(files[0]) && files[0].path in t
    ensures Organize(t, D, files) == Organize(t1, D, files[1..])
    ensures LaidOut(t1) && Stepped(t, t1, files[0])
  {
    var f := files[0];
    MoveLaidOut(t, f);
    t1 := MoveEntry(Provision(t, D, f), f.path, Destination(D, f)).value;
  }

  /** The extension of .bashrc, which the run provisions a folder for. */
  lemma ExtensionOfBashrc()
    ensures Extension(Bashrc) == "bashrc"
  {
    assert AfterLastDot(".bashrc") == "bashrc" by {
      assert ".bashrc"[..6] == ".bashr";
      assert ".bashr"[..5] == ".bash";
      assert ".bash"[..4] == ".bas";
      assert ".bas"[..3] == ".ba";
      assert ".ba"[..2] == ".b";
      assert ".b"[..1] == ".";
    }
  }

  /** Where the run puts the three files. */
  const TargetA: Path := ["d", "txt", "a.txt"]
  const TargetBashrc: Path := ["d", "hidden", ".bashrc"]
  const TargetB: Path := ["d", "b", "b"]

  lemma OrganizedPaths()
    ensures Organized(D)[0].path == TargetA == Destination(D, A)
    ensures Organized(D)[1].path == TargetBashrc == Destination(D, Bashrc)
    ensures Organized(D)[2].path == TargetB == Destination(D, B)
  {
    DestinationOfA(D);
    DestinationOfBashrc(D);
    DestinationOfB(D);
  }

  /** Files that all sit directly in src, are present in t, and are listed once
      each. */
  predicate Flat(t: Tree, files: seq<FileRecord>) {
    && (forall i :: 0 <= i < |files| ==> Movable(files[i]) && files[i].path in t)
    && (forall i, j :: 0 <= i < j < |files| ==> files[i].path != files[j].path)
  }

  /** A movable file goes to d/<bucket>/<name>, so two movable files from
      different paths go to different places. */
  lemma MovableDestination(f: FileRecord, g: FileRecord)
    requires Movable(f) && Movable(g) && f.path != g.path
    ensures Destination(D, f) == D + [Bucket(f), f.path[1]]
    ensures Destination(D, f) != Destination(D, g)
  {
    assert Destination(D, g) == D + [Bucket(g), g.path[1]];
    assert f.path == [f.path[0], f.path[1]] && g.path == [g.path[0], g.path[1]];
    assert Destination(D, f)[2] != Destination(D, g)[2];
  }

  /** What the run over files does to t, giving r: each file's content is at its
      destination, nothing is left at its source, every entry that is neither a
      source nor a destination is kept, and whatever is new lies under d. */
  predicate Placed(t: Tree, r: Tree, files: seq<FileRecord>)
    requires forall i :: 0 <= i < |files| ==> files[i].path in t
  {
    && (forall i :: 0 <= i < |files| ==>
          Destination(D, files[i]) in r && r[Destination(D, files[i])] == t[files[i].path])
    && (forall i :: 0 <= i < |files| ==> files[i].path !in r)
    && (forall q :: q in t && Aside(q, files) ==> q in r && r[q] == t[q])
    && (forall q :: q in r ==> q in t || (q != [] && q[0] == "d"))
  }

  /** q is neither the source nor the destination of any of the files. */
  predicate Aside(q: Path, files: seq<FileRecord>) {
    forall i :: 0 <= i < |files| ==> q != files[i].path && q != Destination(D, files[i])
  }

  lemma AsideRest(q: Path, files: seq<FileRecord>)
    requires files != [] && Aside(q, files)
    ensures q != files[0].path && q != Destination(D, files[0]) && Aside(q, files[1..])
  {
    forall i | 0 <= i < |files| - 1 ensures q != files[1..][i].path && q != Destination(D, files[1..][i]) {
      assert files[1..][i] == files[i + 1];
    }
  }

  /** After the first step the rest of the files are still flat. */
  lemma FlatRest(t: Tree, t1: Tree, files: seq<FileRecord>)
    requires files != [] && Flat(t, files) && Stepped(t, t1, files[0])
    ensures Flat(t1, files[1..])
  {
    var f, rest := files[0], files[1..];
    forall i | 0 <= i < |rest| ensures Movable(rest[i]) && rest[i].path in t1 {
      assert rest[i] == files[i + 1];
      assert files[i + 1].path != f.path;
    }
    forall i, j | 0 <= i < j < |rest| ensures rest[i].path != rest[j].path {
      assert rest[i] == files[i + 1] && rest[j] == files[j + 1];
    }
  }

  /** The first file's content, put at its destination by the first step, is
      still there after the rest, and its source stays empty. */
  lemma PlacedFirst(t: Tree, t1: Tree, r: Tree, files: seq<FileRecord>)
    requires files != [] && Flat(t, files) && Stepped(t, t1, files[0])
    requires Flat(t1, files[1..]) && Placed(t1, r, files[1..])
    ensures Destination(D, files[0]) in r && r[Destination(D, files[0])] == t[files[0].path]
    ensures files[0].path !in r
  {
    var f, rest, target := files[0], files[1..], Destination(D, files[0]);
    forall k | 0 <= k < |rest| ensures target != rest[k].path && target != Destination(D, rest[k]) {
      assert rest[k] == files[k + 1];
      assert target[0] != rest[k].path[0];
      MovableDestination(f, rest[k]);
    }
    assert Aside(target, rest);
    assert f.path[0] != "d";
  }

  /** A later file's content, untouched by the first step, is put at its
      destination by the rest. */
  lemma PlacedLater(t: Tree, t1: Tree, r: Tree, files: seq<FileRecord>, i: nat)
    requires 0 < i < |files| && Flat(t, files) && Stepped(t, t1, files[0])
    requires Flat(t1, files[1..]) && Placed(t1, r, files[1..])
    ensures Destination(D, files[i]) in r && r[Destination(D, files[i])] == t[files[i].path]
    ensures files[i].path !in r
  {
    var g := files[i];
    assert g == files[1..][i - 1];
    assert g.path != files[0].path;
    assert g.path[0] != Destination(D, files[0])[0];
  }

  /** The first step followed by the run over the rest leaves every file's
      content at its destination and nothing at its source. */
  lemma PlacedStepMoves(t: Tree, t1: Tree, r: Tree, files: seq<FileRecord>)
    requires files != [] && Flat(t, files) && Stepped(t, t1, files[0])
    requires Flat(t1, files[1..]) && Placed(t1, r, files[1..])
    ensures forall i :: 0 <= i < |files| ==>
      Destination(D, files[i]) in r && r[Destination(D, files[i])] == t[files[i].path]
    ensures forall i :: 0 <= i < |files| ==> files[i].path !in r
  {
    PlacedFirst(t, t1, r, files);
    forall i | 0 < i < |files|
      ensures Destination(D, files[i]) in r && r[Destination(D, files[i])] == t[files[i].path]
      ensures files[i].path !in r
    {
      PlacedLater(t, t1, r, files, i);
    }
  }

  /** The first step followed by the run over the rest keeps every entry that is
      neither a source nor a destination. */
  lemma PlacedStepKeeps(t: Tree, t1: Tree, r: Tree, files: seq<FileRecord>)
    requires files != [] && Flat(t, files) && Stepped(t, t1, files[0])
    requires Flat(t1, files[1..]) && Placed(t1, r, files[1..])
    ensures forall q :: q in t && Aside(q, files) ==> q in r && r[q] == t[q]
  {
    forall q | q in t && Aside(q, files) ensures q in r && r[q] == t[q] {
      AsideRest(q, files);
    }
  }

  lemma PlacedStep(t: Tree, t1: Tree, r: Tree, files: seq<FileRecord>)
    requires files != [] && Flat(t, files) && Stepped(t, t1, files[0])
    requires Flat(t1, files[1..]) && Placed(t1, r, files[1..])
    ensures Placed(t, r, files)
  {
    PlacedStepMoves(t, t1, r, files);
    PlacedStepKeeps(t, t1, r, files);
  }

  /** Organizing files that all sit directly in src, into the directory d, with no
      two sharing a path or a destination: every move succeeds, each file's content
      ends up at its destination and nothing is left at its source. */
  lemma {:induction false} RunFlat(t: Tree, files: seq<FileRecord>)
    requires LaidOut(t) && Flat(t, files)
    ensures var r := Organize(t, D, files);
      r.failure == None && LaidOut(r.tree) && Placed(t, r.tree, files)
    decreases |files|
  {
    if files != [] {
      var t1 := RunStep(t, files);
      FlatRest(t, t1, files);
      RunFlat(t1, files[1..]);
      PlacedStep(t, t1, Organize(t1, D, files[1..]).tree, files);
    }
  }

  /** Three movable files, present in t, with distinct paths and destinations,
      are flat. */
  lemma FlatOfThree(t: Tree, f: FileRecord, g: FileRecord, h: FileRecord)
    requires Movable(f) && Movable(g) && Movable(h) && f.path in t && g.path in t && h.path in t
    requires f.path != g.path && g.path != h.path && h.path != f.path
    ensures Flat(t, [f, g, h])
  {
    var files := [f, g, h];
    assert files[0] == f && files[1] == g && files[2] == h;
    forall i | 0 <= i < 3 ensures Movable(files[i]) && files[i].path in t {
      assert files[i] in {f, g, h};
    }
    forall i, j | 0 <= i < j < 3 ensures files[i].path != files[j].path {
      assert (i, j) in {(0, 1), (0, 2), (1, 2)};
    }
  }

  /** The three files of the example are movable and go to distinct places. */
  lemma FlatThree(t: Tree)
    requires A.path in t && Bashrc.path in t && B.path in t
    ensures Flat(t, [A, Bashrc, B])
  {
    OrganizedPaths();
    ExtensionOfBashrc();
    assert Movable(A) && Movable(Bashrc) && Movable(B);
    assert |A.path[1]| != |Bashrc.path[1]| && |Bashrc.path[1]| != |B.path[1]| && |B.path[1]| != |A.path[1]|;
    FlatOfThree(t, A, Bashrc, B);
  }

  /** Placed over the example's three files, file by file. */
  lemma PlacedThree(t: Tree, r: Tree)
    requires A.path in t && Bashrc.path in t && B.path in t && Placed(t, r, [A, Bashrc, B])
    ensures TargetA in r && r[TargetA] == t[A.path]
    ensures TargetBashrc in r && r[TargetBashrc] == t[Bashrc.path]
    ensures TargetB in r && r[TargetB] == t[B.path]
    ensures A.path !in r && Bashrc.path !in r && B.path !in r
  {
    var files := [A, Bashrc, B];
    OrganizedPaths();
    assert files[0] == A && files[1] == Bashrc && files[2] == B;
  }

  /** The example tree holds src/a.txt, src/.bashrc and src/b and the directory d;
      organizing into d succeeds and leaves each file's content at d/txt/a.txt,
      d/hidden/.bashrc and d/b/b, the three files the later walk of d lists. */
  lemma RunOfThree(t: Tree)
    requires LaidOut(t) && A.path in t && Bashrc.path in t && B.path in t
    ensures var r := Organize(t, D, [A, Bashrc, B]);
      && r.failure == None
      && TargetA in r.tree && r.tree[TargetA] == t[A.path]
      && TargetBashrc in r.tree && r.tree[TargetBashrc] == t[Bashrc.path]
      && TargetB in r.tree && r.tree[TargetB] == t[B.path]
      && A.path !in r.tree && Bashrc.path !in r.tree && B.path !in r.tree
  {
    FlatThree(t);
    RunFlat(t, [A, Bashrc, B]);
    PlacedThree(t, Organize(t, D, [A, Bashrc, B]).tree);
  }

  /** A concrete tree the run starts from. */
  lemma ExampleLaidOut()
    ensures LaidOut(map[["src"] := Directory, A.path := Regular("a"), Bashrc.path := Regular("r"),
                        B.path := Regular("b"), D := Directory])
  {
  }
}

/** A walked hidden directory followed by the file inside it, as the walk lists
    them: moving the directory carries the file along, so the file's own move finds
    nothing at its source and the run stops there. */
module HiddenDirectory {
  import opened Wrappers
  import opened Files
  import opened Extensions
  import opened Organizer

  const G: FileRecord := FileRecord(["s", ".g"], true, true, true)
  const C: FileRecord := FileRecord(["s", ".g", "c"], false, true, true)

  function Before(): Tree {
    map[["s"] := Directory, ["s", ".g"] := Directory, ["s", ".g", "c"] := Regular("x"), ["d"] := Directory]
  }

  /** Before() once the buckets of .g, d/g and d/hidden, are made. */
  function Provisioned(): Tree {
    Before()[["d", "g"] := Directory][["d", "hidden"] := Directory]
  }

  /** Provisioning for .g creates d/g (its extension) and d/hidden, and .g's
      destination is d/hidden/.g. */
  lemma ProvisionOfG()
    ensures Provision(Before(), ["d"], G) == Provisioned()
    ensures Destination(["d"], G) == ["d", "hidden", ".g"]
  {
    var t, d := Before(), ["d"];
    assert AfterLastDot(".g") == "g" by {
      assert ".g"[..1] == ".";
    }
    assert Resolve(d, Extension(G)) == ["d", "g"] && ["d", "g"][..1] == d;
    var t0 := t[["d", "g"] := Directory];
    assert CreateDirectory(t, d, "g") == t0;
    assert Resolve(d, "hidden") == ["d", "hidden"] && ["d", "hidden"][..1] == d;
    assert ["d", "hidden"] !in t0 && IsDirectory(t0, d);
  }

  /** What the move of .g relies on in Provisioned(): .g and c are there, c holds
      "x", d/hidden is a directory, and every other entry has at most two
      components. */
  predicate ReadyForG(t: Tree) {
    && G.path in t
    && C.path in t && t[C.path] == Regular("x")
    && IsDirectory(t, ["d", "hidden"])
    && (forall p :: p in t ==> |p| <= 2 || p == C.path)
  }

  lemma ProvisionedReady()
    ensures ReadyForG(Provisioned())
  {
  }

  /** Paths whose first elements differ lie neither one within the other. */
  lemma ApartByFirst(q: Path, p: Path)
    requires q != [] && p != [] && q[0] != p[0]
    ensures !Within(q, p) && !Within(p, q) && q != p
  {
    assert q[..1] != p[..1] by {
      assert q[..1][0] == q[0] && p[..1][0] == p[0];
    }
    assert !Within(q, p) by {
      if |p| <= |q| {
        assert q[..|p|][..1] == q[..1] && p[..1] == p[..|p|][..1];
      }
    }
    assert !Within(p, q) by {
      if |q| <= |p| {
        assert p[..|q|][..1] == p[..1] && q[..1] == q[..|q|][..1];
      }
    }
  }

  /** Moving .g to d/hidden/.g succeeds: d/hidden is a directory with nothing
      below it, and the target does not lie inside .g. */
  lemma MoveOfGSucceeds(t: Tree)
    requires ReadyForG(t)
    ensures MoveEntry(t, G.path, ["d", "hidden", ".g"]).Success?
  {
    var target := ["d", "hidden", ".g"];
    assert target[..2] == ["d", "hidden"];
    assert "s" != "d";
    ApartByFirst(target, G.path);
    ApartByFirst(target, C.path);
  }

  /** The move carries c along to d/hidden/.g/c and leaves nothing at c's path. */
  lemma MoveOfGCarries(t: Tree)
    requires ReadyForG(t)
    ensures var m := MoveEntry(t, G.path, ["d", "hidden", ".g"]);
      && m.Success?
      && C.path !in m.value
      && ["d", "hidden", ".g", "c"] in m.value && m.value[["d", "hidden", ".g", "c"]] == Regular("x")
  {
    var target := ["d", "hidden", ".g"];
    MoveOfGSucceeds(t);
    MoveEntryCarries(t, G.path, target);
    assert Rebase(C.path, G.path, target) == ["d", "hidden", ".g", "c"];
  }

  /** The move puts nothing at d/c/c, where the run will send c. */
  lemma MoveOfGMissesC(t: Tree)
    requires ReadyForG(t)
    ensures var m := MoveEntry(t, G.path, ["d", "hidden", ".g"]);
      m.Success? && ["d", "c", "c"] !in m.value
  {
    var target, q := ["d", "hidden", ".g"], ["d", "c", "c"];
    MoveOfGSucceeds(t);
    MoveEntryFrame(t, G.path, target);
    assert "c" != "hidden";
    assert !Within(q, target) by {
      assert q[..3] == q && q[1] != target[1];
    }
    assert "s" != "d";
    ApartByFirst(q, G.path);
    ApartByFirst(q, C.path);
  }

  /** Provisioning for c creates at most d/c, and c's destination is d/c/c. */
  lemma ProvisionOfC(t: Tree)
    ensures var p := Provision(t, ["d"], C);
      && (forall q :: q in t ==> q in p && p[q] == t[q])
      && (forall q :: q in p ==> q in t || q == ["d", "c"])
    ensures Destination(["d"], C) == ["d", "c", "c"]
  {
    assert AfterLastDot("c") == "c" by {
      assert "c"[..0] == "";
    }
    ProvisionFrame(t, ["d"], C);
    assert Resolve(["d"], Extension(C)) == ["d", "c"];
  }

  /** From any tree without c and without d/c/c, the run over [c] finds nothing to
      move, after provisioning d/c. */
  lemma OrganizeOfC(t: Tree)
    requires C.path !in t && ["d", "c", "c"] !in t
    ensures Organize(t, ["d"], [C]) == Run(Provision(t, ["d"], C), Some(NoSuchFile(C.path)))
    ensures forall q :: q in t ==> q in Provision(t, ["d"], C) && Provision(t, ["d"], C)[q] == t[q]
    ensures ["d", "c", "c"] !in Provision(t, ["d"], C)
  {
    ProvisionOfC(t);
    assert |C.path| != |["d", "c"]|;
  }

  lemma WalkedHiddenDirectory()
    ensures var r := Organize(Before(), ["d"], [G, C]);
      && r.failure == Some(NoSuchFile(C.path))
      && ["d", "hidden", ".g", "c"] in r.tree && r.tree[["d", "hidden", ".g", "c"]] == Regular("x")
      && ["d", "c", "c"] !in r.tree
  {
    ProvisionOfG();
    ProvisionedReady();
    MoveOfGCarries(Provisioned());
    MoveOfGMissesC(Provisioned());
    var t2 := MoveEntry(Provisioned(), G.path, ["d", "hidden", ".g"]).value;
    assert Organize(Before(), ["d"], [G, C]) == Organize(t2, ["d"], [C]);
    OrganizeOfC(t2);
  }
}
