/** summaryCreator: the fixed-width report of an organized tree, one section per
    extension that extensionsFinder discovers, written to <path>/summary/summary.txt. */
module Summary {
  import opened Wrappers
  import opened Text
  import opened Files
  import opened Extensions
  import opened Organizer

  const NameWidth: nat := 50
  const FlagWidth: nat := 13
  const Underline: string := "----------"

  /** String.format("%-50s%13s%13s%13s", name, a, b, c). */
  function FormatRow(name: string, a: string, b: string, c: string): (r: string)
    ensures |r| == Max(NameWidth, |name|) + Max(FlagWidth, |a|) + Max(FlagWidth, |b|) + Max(FlagWidth, |c|)
  {
    PadRight(name, NameWidth) + (PadLeft(a, FlagWidth) + (PadLeft(b, FlagWidth) + PadLeft(c, FlagWidth)))
  }

  function Flag(b: bool): string {
    if b then "Y" else "N"
  }

  /** The column titles. */
  function Header(): string {
    FormatRow("name", "readable", "writeable", "hidden")
  }

  /** No column title overflows its field, so the header is 50 + 3 * 13 = 89 characters. */
  lemma HeaderLength()
    ensures |Header()| == NameWidth + 3 * FlagWidth == 89
  {
  }

  /** One file's line (String.format with the name and the three flags). */
  function Row(f: FileRecord): (r: string)
    ensures |r| == Max(NameWidth, |f.Name()|) + 3 * FlagWidth
  {
    FormatRow(f.Name(), Flag(f.readable), Flag(f.writable), Flag(f.hidden))
  }

  /** A flag's column: twelve spaces, then Y or N. */
  function FlagColumn(b: bool): (c: string)
    ensures |c| == FlagWidth
  {
    Spaces(FlagWidth - 1) + Flag(b)
  }

  /** A flag column is the flag right-justified to width 13. */
  lemma FlagColumnIsPadded(b: bool)
    ensures PadLeft(Flag(b), FlagWidth) == FlagColumn(b)
  {
  }

  /** A row holds the whole name, never cut, padded with spaces to width 50, then
      the readable, writable and hidden flags, each right-justified to width 13. */
  lemma RowLayout(f: FileRecord)
    ensures var r, n, m := Row(f), |f.Name()|, Max(NameWidth, |f.Name()|);
      && r[..n] == f.Name()
      && r[n..m] == Spaces(m - n)
      && r[m..] == FlagColumn(f.readable) + (FlagColumn(f.writable) + FlagColumn(f.hidden))
  {
    var name := f.Name();
    var p := PadRight(name, NameWidth);
    var t := PadLeft(Flag(f.readable), FlagWidth) + (PadLeft(Flag(f.writable), FlagWidth) + PadLeft(Flag(f.hidden), FlagWidth));
    FlagColumnIsPadded(f.readable);
    FlagColumnIsPadded(f.writable);
    FlagColumnIsPadded(f.hidden);
    assert Row(f) == p + t;
    assert (p + t)[..|p|] == p && (p + t)[|p|..] == t;
    if |name| < NameWidth {
      assert p == name + Spaces(NameWidth - |name|);
      assert p[..|name|] == name && p[|name|..] == Spaces(NameWidth - |name|);
    }
  }

  /** Every walked file has a parent directory (getParentFile() is not null). */
  predicate AllHaveParents(files: seq<FileRecord>) {
    forall i :: 0 <= i < |files| ==> files[i].HasParent()
  }

  /** The files listed under extension: those whose parent directory is named
      extension, in walk order. */
  function Matching(files: seq<FileRecord>, extension: string): seq<FileRecord>
    requires AllHaveParents(files)
    decreases |files|
  {
    if files == [] then []
    else
      var f := files[|files| - 1];
      Matching(files[..|files| - 1], extension) + (if f.ParentName() == extension then [f] else [])
  }

  /** The formatted rows of a list of files. */
  function RowsOf(files: seq<FileRecord>): (rows: seq<string>)
    ensures |rows| == |files|
    decreases |files|
  {
    if files == [] then [] else RowsOf(files[..|files| - 1]) + [Row(files[|files| - 1])]
  }

  /** The section of one extension: a blank-line element, the extension and a colon,
      the underline, then the rows of the matching files. */
  function Section(files: seq<FileRecord>, extension: string): seq<string>
    requires AllHaveParents(files)
  {
    ["\n", extension + ":", Underline] + RowsOf(Matching(files, extension))
  }

  /** The sections of the labels, in the order they are visited. */
  function Sections(files: seq<FileRecord>, labels: seq<string>): seq<string>
    requires labels == [] || AllHaveParents(files)
    decreases |labels|
  {
    if labels == [] then []
    else Sections(files, labels[..|labels| - 1]) + Section(files, labels[|labels| - 1])
  }

  /** The lines summaryCreator writes when it visits the labels in this order. */
  function SummaryText(files: seq<FileRecord>, labels: seq<string>): seq<string>
    requires labels == [] || AllHaveParents(files)
  {
    [Header()] + Sections(files, labels)
  }

  predicate NoDuplicates(s: seq<string>) {
    forall i, j :: 0 <= i < j < |s| ==> s[i] != s[j]
  }

  /** order visits every element of the set exactly once: one iteration order of a HashSet. */
  ghost predicate Enumerates(order: seq<string>, labels: set<string>) {
    NoDuplicates(order) && forall x :: x in order <==> x in labels
  }

  /** A report has exactly one section per label. */
  lemma {:induction false} EnumeratesSize(order: seq<string>, labels: set<string>)
    requires Enumerates(order, labels)
    ensures |order| == |labels|
    decreases |order|
  {
    if order == [] {
      assert forall x :: x in labels ==> x in order;
    } else {
      var n := |order| - 1;
      var init, last := order[..n], order[n];
      assert order == init + [last];
      forall x ensures x in init <==> x in labels - {last} {
        if x in init {
          var i :| 0 <= i < n && init[i] == x;
          assert order[i] == x && order[n] == last;
        }
      }
      EnumeratesSize(init, labels - {last});
    }
  }

  /** Independent count of the files filed under extension. */
  function MatchCount(files: seq<FileRecord>, extension: string): nat
    requires AllHaveParents(files)
    decreases |files|
  {
    if files == [] then 0
    else (if files[0].ParentName() == extension then 1 else 0) + MatchCount(files[1..], extension)
  }

  /** Independent count of the lines the sections take: three per extension, plus its rows. */
  function SectionsSize(files: seq<FileRecord>, labels: seq<string>): nat
    requires AllHaveParents(files)
    decreases |labels|
  {
    if labels == [] then 0
    else SectionsSize(files, labels[..|labels| - 1]) + 3 + MatchCount(files, labels[|labels| - 1])
  }

  lemma {:induction false} MatchingAppend(a: seq<FileRecord>, b: seq<FileRecord>, extension: string)
    requires AllHaveParents(a) && AllHaveParents(b)
    ensures AllHaveParents(a + b)
    ensures Matching(a + b, extension) == Matching(a, extension) + Matching(b, extension)
    decreases |b|
  {
    if b != [] {
      var b' := b[..|b| - 1];
      assert (a + b)[..|a + b| - 1] == a + b';
      MatchingAppend(a, b', extension);
    } else {
      assert a + b == a;
    }
  }

  /** As many files are listed under extension as MatchCount counts. */
  lemma {:induction false} MatchingCount(files: seq<FileRecord>, extension: string)
    requires AllHaveParents(files)
    ensures |Matching(files, extension)| == MatchCount(files, extension)
    decreases |files|
  {
    if files != [] {
      MatchingAppend([files[0]], files[1..], extension);
      assert [files[0]] + files[1..] == files;
      MatchingCount(files[1..], extension);
    }
  }

  /** A file is listed under extension exactly when it was walked and its parent
      directory is named extension. */
  lemma {:induction false} MatchingIff(files: seq<FileRecord>, extension: string, f: FileRecord)
    requires AllHaveParents(files)
    ensures f in Matching(files, extension) <==> f in files && f.HasParent() && f.ParentName() == extension
    decreases |files|
  {
    if files != [] {
      var init := files[..|files| - 1];
      MatchingIff(init, extension, f);
      assert files == init + [files[|files| - 1]];
    }
  }

  lemma {:induction false} RowsOfHas(files: seq<FileRecord>, f: FileRecord)
    requires f in files
    ensures Row(f) in RowsOf(files)
    decreases |files|
  {
    if f != files[|files| - 1] {
      var init := files[..|files| - 1];
      assert files == init + [files[|files| - 1]];
      RowsOfHas(init, f);
    }
  }

  /** The report has 1 + the sum over labels of (3 + matching files) lines. */
  lemma {:induction false} SummaryLength(files: seq<FileRecord>, labels: seq<string>)
    requires AllHaveParents(files)
    ensures |SummaryText(files, labels)| == 1 + SectionsSize(files, labels)
    decreases |labels|
  {
    if labels != [] {
      MatchingCount(files, labels[|labels| - 1]);
      SummaryLength(files, labels[..|labels| - 1]);
    }
  }

  /** Every file filed in the directory of a visited extension gets its row. */
  lemma {:induction false} RowListed(files: seq<FileRecord>, labels: seq<string>, i: nat)
    requires AllHaveParents(files) && i < |files|
    requires files[i].ParentName() in labels
    ensures Row(files[i]) in SummaryText(files, labels)
    decreases |labels|
  {
    var init, last := labels[..|labels| - 1], labels[|labels| - 1];
    if files[i].ParentName() == last {
      MatchingIff(files, last, files[i]);
      RowsOfHas(Matching(files, last), files[i]);
    } else {
      assert files[i].ParentName() in init;
      RowListed(files, init, i);
    }
  }

  /** A walk that found no files yields the header line alone. */
  lemma EmptyWalkSummary(labels: seq<string>)
    requires Enumerates(labels, FoundExtensions([]))
    ensures SummaryText([], labels) == [Header()]
  {
    assert forall i :: 0 <= i < |labels| ==> labels[i] in FoundExtensions([]);
  }

  /** The path summaryCreator writes to. */
  function SummaryPath(path: Path): Path {
    Resolve(Resolve(path, "summary"), "summary.txt")
  }

  /** The file operations at the end of summaryCreator: provision <path>/summary,
      create summary.txt when it is absent, then write the lines into it. */
  function WriteSummary(t: Tree, path: Path, lines: seq<string>): Run
  {
    var t1 := CreateDirectory(t, path, "summary");
    var summaryPath := SummaryPath(path);
    if summaryPath !in t1 then
      match CreateFile(t1, summaryPath)
      case Failure(e) => Run(t1, Some(e))
      case Success(t2) => WriteRun(t2, summaryPath, lines)
    else WriteRun(t1, summaryPath, lines)
  }

  function WriteRun(t: Tree, p: Path, lines: seq<string>): Run
  {
    match WriteFile(t, p, lines)
    case Failure(e) => Run(t, Some(e))
    case Success(t') => Run(t', None)
  }

  /** With path a directory and nothing in the way, the report is written: summary.txt
      holds the lines, one per line, and nothing but <path>/summary and
      summary.txt has changed. */
  lemma SummaryWritten(t: Tree, path: Path, lines: seq<string>)
    requires IsDirectory(t, path)
    requires Resolve(path, "summary") in t ==> IsDirectory(t, Resolve(path, "summary"))
    requires SummaryPath(path) in t ==> !t[SummaryPath(path)].Directory?
    ensures var r := WriteSummary(t, path, lines);
      && r.failure == None
      && IsDirectory(r.tree, Resolve(path, "summary"))
      && r.tree[SummaryPath(path)] == Regular(LinesText(lines))
      && forall q :: q != Resolve(path, "summary") && q != SummaryPath(path) ==>
           (q in r.tree <==> q in t) && (q in t ==> r.tree[q] == t[q])
  {
    var dir := Resolve(path, "summary");
    assert dir == path + ["summary"];
    assert SummaryPath(path) == dir + ["summary.txt"];
    assert SummaryPath(path)[..|SummaryPath(path)| - 1] == dir;
  }

  /** A regular file named summary under path blocks the report: directoryCreator
      sees that something exists and does nothing, and creating summary.txt under a
      non-directory fails. */
  lemma SummaryBlocked(t: Tree, path: Path, lines: seq<string>)
    requires Resolve(path, "summary") in t && !IsDirectory(t, Resolve(path, "summary"))
    requires SummaryPath(path) !in t
    ensures WriteSummary(t, path, lines) == Run(t, Some(NotADirectory(SummaryPath(path))))
  {
    assert SummaryPath(path)[..|SummaryPath(path)| - 1] == Resolve(path, "summary");
  }

  /** Walking one more file lists it when its parent directory is named extension. */
  lemma MatchingStep(files: seq<FileRecord>, j: nat, extension: string)
    requires AllHaveParents(files) && j < |files|
    ensures Matching(files[..j + 1], extension)
      == Matching(files[..j], extension) + (if files[j].ParentName() == extension then [files[j]] else [])
  {
    assert files[..j + 1][..j] == files[..j];
  }

  /** One more listed file adds its row at the end. */
  lemma RowsOfSnoc(heading: seq<string>, listed: seq<FileRecord>, f: FileRecord)
    ensures RowsOf(listed + [f]) == RowsOf(listed) + [Row(f)]
    ensures heading + RowsOf(listed + [f]) == (heading + RowsOf(listed)) + [Row(f)]
  {
    assert (listed + [f])[..|listed|] == listed;
    assert heading + (RowsOf(listed) + [Row(f)]) == (heading + RowsOf(listed)) + [Row(f)];
  }

  /** Visiting one more extension appends its heading and its rows. */
  lemma SectionsSnoc(files: seq<FileRecord>, order: seq<string>, extension: string)
    requires AllHaveParents(files)
    ensures Sections(files, order + [extension])
      == Sections(files, order) + (["\n", extension + ":", Underline] + RowsOf(Matching(files, extension)))
  {
    assert (order + [extension])[..|order|] == order;
  }

  /** Regrouping a concatenation, as the outer loop of SummaryLines needs it. It is
      a lemma rather than an assert, so the loop's proof only instantiates it. */
  lemma AppendAssoc(a: seq<string>, b: seq<string>, c: seq<string>)
    ensures (a + b) + c == a + (b + c)
  {
  }

  /** Taking one more label out of the remaining ones keeps the visited labels
      distinct and exactly those no longer remaining. */
  lemma VisitStep(order: seq<string>, labels: set<string>, remaining: set<string>, extension: string)
    requires NoDuplicates(order) && extension in remaining && remaining <= labels
    requires forall x :: x in order <==> x in labels && x !in remaining
    ensures NoDuplicates(order + [extension])
    ensures forall x :: x in order + [extension] <==> x in labels && x !in remaining - {extension}
  {
    var visited := order + [extension];
    forall i, j | 0 <= i < j < |visited| ensures visited[i] != visited[j] {
      if j == |order| {
        assert visited[i] == order[i] && order[i] in order;
      } else {
        assert visited[i] == order[i] && visited[j] == order[j];
      }
    }
  }

  /** The line-building loops of summaryCreator. The labels are drawn from the set
      in an unspecified order, which is returned. */
  method SummaryLines(files: seq<FileRecord>, labels: set<string>) returns (summaryTexts: seq<string>, order: seq<string>)
    requires labels == {} || AllHaveParents(files)
    ensures Enumerates(order, labels)
    ensures order == [] <==> labels == {}
    ensures summaryTexts == SummaryText(files, order)
  {
    summaryTexts := [Header()];
    order := [];
    var remaining := labels;
    while remaining != {}
      invariant remaining <= labels
      invariant order == [] || AllHaveParents(files)
      invariant NoDuplicates(order)
      invariant forall x :: x in order <==> x in labels && x !in remaining
      invariant summaryTexts == [Header()] + Sections(files, order)
      decreases remaining
    {
      var extension :| extension in remaining;
      ghost var before := summaryTexts;
      ghost var heading := summaryTexts + ["\n", extension + ":", Underline];
      summaryTexts := summaryTexts + ["\n", extension + ":", Underline];
      ghost var listed: seq<FileRecord> := [];
      for j := 0 to |files|
        invariant listed == Matching(files[..j], extension)
        invariant summaryTexts == heading + RowsOf(listed)
      {
        var file := files[j];
        MatchingStep(files, j, extension);
        if extension == file.ParentName() {
          summaryTexts := summaryTexts + [Row(file)];
          RowsOfSnoc(heading, listed, file);
          listed := listed + [file];
        }
      }
      assert files[..|files|] == files;
      SectionsSnoc(files, order, extension);
      AppendAssoc(before, ["\n", extension + ":", Underline], RowsOf(listed));
      AppendAssoc([Header()], Sections(files, order), Section(files, extension));
      VisitStep(order, labels, remaining, extension);
      order := order + [extension];
      remaining := remaining - {extension};
    }
    if labels != {} {
      var x :| x in labels;
      assert x in order;
    }
    if order != [] {
      assert order[0] in order;
    }
  }

  /** summaryCreator, given the files the walk of path found. */
  method SummaryCreator(fs: FileSystem, path: Path, availableFiles: seq<FileRecord>)
    returns (failure: Option<IoError>, ghost labels: seq<string>)
    requires FoundExtensions(availableFiles) == {} || AllHaveParents(availableFiles)
    modifies fs
    ensures Enumerates(labels, FoundExtensions(availableFiles))
    ensures labels == [] <==> FoundExtensions(availableFiles) == {}
    ensures Run(fs.entries, failure) == WriteSummary(old(fs.entries), path, SummaryText(availableFiles, labels))
  {
    var availableExtension := ExtensionsFinder(availableFiles);
    var summaryPath := SummaryPath(path);
    DirectoryCreator(fs, path, "summary");
    var summaryTexts, order := SummaryLines(availableFiles, availableExtension);
    labels := order;
    var present := fs.Exists(summaryPath);
    if !present {
      failure := fs.CreateNewFile(summaryPath);
      if failure.Some? {
        return;
      }
    }
    failure := fs.Write(summaryPath, summaryTexts);
  }
}
