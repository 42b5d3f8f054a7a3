# FileHandling: a verified model

`FileHandling` is a small batch utility. It walks a source directory and moves
every file it finds into `destination/<extension>/<name>`. Hidden files go to
`destination/hidden/<name>` instead. It then walks the sorted tree and writes a
fixed-width report to `<path>/summary/summary.txt`. The report has one section per
extension that `extensionsFinder` discovers, and each section lists the files
whose parent directory carries that extension's name.

This project models the decision logic of that program and proves what it does:

- `wrappers.dfy`: `Option` and `Result`.
- `text.dfy` (module `Text`): `String.lastIndexOf` and the space padding of
  `String.format`'s `%-Ns` and `%Ns` conversions.
- `files.dfy` (module `Files`): the file system.
  - A path is a sequence of name elements, and a file tree is a map from a path to
    an entry (a directory, or a regular file with its content).
  - `mkdir`, `Files.move(…, REPLACE_EXISTING)`, `Files.createFile` and
    `Files.write` are pure functions on the tree.
  - A move is a rename: everything at or below the source is carried to the same
    place below the target.
  - The class `FileSystem` holds the current tree and applies those functions in
    its methods.
  - A walked file is a `FileRecord`: its path, with its `isHidden`, `canRead` and
    `canWrite` answers as fields.
- `extensions.dfy` (module `Extensions`): `getExtension` and `extensionsFinder`.
- `organizer.dfy` (module `Organizer`): `directoryCreator`, `fileMover` and
  `fileOrganizer`.
  - The methods update a `FileSystem` in place.
  - Each method is proved equal to a function on trees, and the function's
    properties are proved as lemmas.
- `summary.dfy` (module `Summary`): `summaryCreator`.
  - The nested loops that build the line list are a method.
  - That method is proved equal to a function of the walked files and of the
    order in which the set of labels was visited.
- `scenario.dfy`:
  - module `Scenario`: the three-file example `a.txt`, hidden `.bashrc` and `b`,
    organized and then summarized.
    - `RunFlat` proves that organizing a list of distinct files lying directly in
      `src` into `d` succeeds, under two hypotheses:
      - the tree is laid out: `d` is a directory, every entry directly inside
        `d` is a directory, no entry below `d` is more than three elements deep,
        and no entry outside `d` is more than two;
      - every file's name has a non-empty extension, so it does not end in `.`.
    - Each file's content then ends up at its destination and nothing is left at
      its source. With a regular file at `d/txt`, moving `src/a.txt` fails, in the
      model as in the program.
    - `RunOfThree` applies it, under the same layout hypothesis, to `src/a.txt`,
      `src/.bashrc` and `src/b`. They end up at `d/txt/a.txt`, `d/hidden/.bashrc`
      and `d/b/b`.
    - The summary of `d` then starts from the walk of the organized tree.
      `getFiles` is not modelled, so that walk is an input, `Organized(d)`.
      `OrganizedPaths` proves that its paths are the three destinations that
      `RunOfThree` fills.
  - module `HiddenDirectory`: a walked hidden directory `s/.g` followed by the
    file `s/.g/c` inside it, organized into `d`.

One consequence of the code is easy to miss. One might expect the report of the
sorted example to have sections `txt`, `hidden` and `b`. But `extensionsFinder`
reads the extension from the whole path string (`file.toString()`), not from the
file name. The path of `d/b/b` holds no `.`, so
no label `b` is found. The hidden file's path `d/hidden/.bashrc` yields both
`bashrc` and `hidden`. The model follows the code:

- `Scenario.ScenarioLabels` proves that the labels are `txt`, `bashrc` and
  `hidden`.
- `Scenario.ScenarioSections` proves that the report has three sections, for
  `txt`, `hidden` and `bashrc`, and that there is no section for `b`.
- `Scenario.ScenarioMatching` proves that `bashrc`'s section lists no file.

## Model

| member | source | states |
|---|---|---|
| Text.LastIndexOf | src/FileHandling.java:119 | `lastIndexOf` gives -1 or an index holding the character, and no later index holds it |
| Text.PadRight | src/FileHandling.java:97 | `%-50s` keeps the whole string at the front, never truncated, and has length max(50, \|s\|) |
| Text.PadRightSpaces | src/FileHandling.java:97 | what `%-50s` adds after the string is spaces |
| Text.PadLeft | src/FileHandling.java:97 | `%13s` keeps the whole string at the end and has length max(13, \|s\|) |
| Text.PadLeftSpaces | src/FileHandling.java:97 | what `%13s` adds before the string is spaces |
| Files.Resolve | src/FileHandling.java:64 | `resolve` with an empty name gives the path itself; otherwise it appends exactly that name |
| Files.PathString | src/FileHandling.java:138 | `file.toString()`: the name elements joined by the separator; its characters are described by `PathStringChars` |
| Files.PathStringChars | src/FileHandling.java:138 | every character of `file.toString()` is the separator or a character of some name element |
| Files.MakeDirectory | src/FileHandling.java:158 | `mkdir` yields an entry at p exactly when one was there or p's parent is a directory; a new entry is a directory |
| Files.MakeDirectoryFrame | src/FileHandling.java:158 | `mkdir` keeps every entry and adds none but p |
| Files.ParentError | src/FileHandling.java:103-105 | the error for a missing parent is "no such file" when nothing is at the parent's path, and "not a directory" when a regular file is there |
| Files.Rebase | src/FileHandling.java:172 | an entry at or below the source lands below the target at the same depth below it |
| Files.Renamed | src/FileHandling.java:172 | the tree after the rename that `Files.move` performs: entries outside the source are kept, and entries at or below it are rebased below the target, replacing what was there; `RenamedCarries` and `RenamedLeavesSource` state its properties |
| Files.RebaseInjective | src/FileHandling.java:172 | distinct entries below the source land at distinct places below the target |
| Files.MoveEntry | src/FileHandling.java:172 | a move fails exactly when the source is missing, or when the target differs and has entries below it, has no directory parent, or lies inside the source; on success the target holds the source's entry and the source is gone |
| Files.RenamedCarries | src/FileHandling.java:172 | the rename carries each entry at or below the source, with its value, to the same place below the target |
| Files.RenamedLeavesSource | src/FileHandling.java:172 | after the rename nothing is left at or below the source |
| Files.MoveEntryLeaf | src/FileHandling.java:172 | moving an entry with nothing below it, such as a regular file, removes it from the source and puts it at the target, replacing whatever was there |
| Files.MoveEntryFrame | src/FileHandling.java:172 | a successful move changes no path outside the source's and the target's subtrees, and adds none outside the target's |
| Files.MoveEntryCarries | src/FileHandling.java:172 | a successful move of a directory carries everything below it along to the target, and leaves nothing at or below the source |
| Files.CreateFile | src/FileHandling.java:103 | `createFile` succeeds exactly when nothing is at p and p's parent is a directory, adding an empty regular file |
| Files.LinesText | src/FileHandling.java:105 | the text `Files.write` stores: each line followed by a line separator; `LinesTextAppend` proves it splits over concatenation |
| Files.LinesTextAppend | src/FileHandling.java:105 | the text `Files.write` stores for a + b is that of a followed by that of b |
| Files.WriteFile | src/FileHandling.java:105 | `Files.write` fails on a directory or a missing parent; otherwise p holds the lines, each followed by a line separator |
| Files.FileRecord.Name | src/FileHandling.java:61 | `getName()`: the last name element of the path |
| Files.FileRecord.ParentName | src/FileHandling.java:96 | `getParentFile().getName()`: the next-to-last name element, defined only when the file has a parent |
| Files.FileSystem.Exists | src/FileHandling.java:157 | `exists` is true exactly when the tree has an entry at p |
| Files.FileSystem.Mkdir | src/FileHandling.java:158 | the new tree is `MakeDirectory` of the old one, and the result says whether a directory was created |
| Files.FileSystem.Move | src/FileHandling.java:172 | the new tree is the moved tree on success; on failure the error is returned and the tree is unchanged |
| Files.FileSystem.CreateNewFile | src/FileHandling.java:103 | as `CreateFile`, with the error returned and the tree unchanged on failure |
| Files.FileSystem.Write | src/FileHandling.java:105 | as `WriteFile`, with the error returned and the tree unchanged on failure |
| Extensions.GetExtension | src/FileHandling.java:115-125 | a name gives a name and null gives null; the substring never throws, so the catch branch is never taken |
| Extensions.GetExtensionIsExtension | src/FileHandling.java:119 | the result is a suffix of the name with no `.`; it is preceded by a `.` when the name has one, and is the whole name otherwise |
| Extensions.ExtensionIsUnique | src/FileHandling.java:119 | only one string has that property, so it determines the result |
| Extensions.GetExtensionIsAfterLastDot | src/FileHandling.java:119 | the result equals an independent right-to-left definition of "the text after the last `.`" |
| Extensions.ExtensionCases | src/FileHandling.java:116-124 | a name without `.` is returned unchanged, a name ending in `.` gives "", and a + "." + b with no `.` in b gives b |
| Extensions.GetExtensionIdempotent | src/FileHandling.java:115-125 | taking the extension of an extension changes nothing |
| Extensions.Contribution | src/FileHandling.java:138-144 | the labels one iteration of `extensionsFinder` adds for a file; `ContributionIff` characterises them |
| Extensions.FoundExtensions | src/FileHandling.java:135-147 | the set `extensionsFinder` returns, built file by file; `FoundExtensionsIff` characterises it |
| Extensions.ContributionIff | src/FileHandling.java:138-144 | one iteration adds a label exactly when the path string holds a `.` and the label is its extension, or is "hidden" for a hidden file |
| Extensions.FoundExtensionsIff | src/FileHandling.java:135-147 | a label is found exactly when some walked file discovers it that way; with no files nothing is found |
| Extensions.FoundExtensionsHaveNoDot | src/FileHandling.java:140 | no found label contains a `.` |
| Extensions.HiddenLabelIff | src/FileHandling.java:139-143 | "hidden" is found only for a hidden file whose path holds a `.`, or for a path whose extension is "hidden" |
| Extensions.FoundExtensionsOrderIndependent | src/FileHandling.java:135-147 | the set depends only on which files were walked, not on their order or on repetition |
| Extensions.ExtensionsFinder | src/FileHandling.java:135-147 | the loop returns the set `FoundExtensions` of the walked files |
| Organizer.CreateDirectory | src/FileHandling.java:155-161 | an existing entry at destination/folderName, of whatever kind, is left as it is; otherwise a directory is created when the parent is one, and nothing changes when it is not |
| Organizer.CreateDirectoryFrame | src/FileHandling.java:155-161 | `directoryCreator` keeps every entry and adds none but destination/folderName |
| Organizer.CreateDirectoryIdempotent | src/FileHandling.java:155-161 | calling `directoryCreator` twice equals calling it once |
| Organizer.Extension | src/FileHandling.java:61 | `getExtension(file.getName())`: the text after the last `.` of the file's name, which `Extensions.GetExtensionIsAfterLastDot` proves equal to what `getExtension` returns |
| Organizer.Bucket | src/FileHandling.java:65-66 | the folder a file finally goes into: "hidden" for a hidden file, its extension otherwise |
| Organizer.Destination | src/FileHandling.java:64-68 | `fileDestination` when `fileMover` is called; `DestinationShape` gives its cases |
| Organizer.DestinationShape | src/FileHandling.java:61-68 | a hidden file goes to destination/hidden/name; any other goes to destination/extension/name, or to destination/name when its extension is empty; a name with no `.` goes to destination/name/name |
| Organizer.Provision | src/FileHandling.java:61-67 | the `directoryCreator` calls before a move: the extension folder, then the hidden folder for a hidden file; `ProvisionFrame` states what they change |
| Organizer.ProvisionFrame | src/FileHandling.java:61-67 | provisioning keeps every entry, adds only the extension folder and, for a hidden file, the hidden folder, and both exist afterwards when destination is a directory |
| Organizer.Organize | src/FileHandling.java:60-71 | `fileOrganizer`'s loop over trees: provision, move, and stop at the first failing move; the lemmas below state what it does |
| Organizer.OrganizeAppend | src/FileHandling.java:60-71 | files are handled in list order, and the run stops at the first failing move, keeping what was done before it |
| Organizer.OrganizeKeeps | src/FileHandling.java:60-71 | every entry that lies at or below no source and no target is unchanged by a run, failed or not |
| Organizer.OrganizeAddsOnly | src/FileHandling.java:60-71 | a run creates nothing but extension folders, the hidden folder and entries at or below the targets |
| Organizer.OrganizeMovesFirst | src/FileHandling.java:60-71 | when no two moves clash and the run succeeds, the first file's content sits at its destination and its source is gone |
| Organizer.OrganizeStep | src/FileHandling.java:60-71 | a run that ends without failure moved its first file successfully and went on with the rest |
| Organizer.FirstStepKeeps | src/FileHandling.java:60-71 | when no two moves clash, the first step leaves every later file's source as it was |
| Organizer.OrganizeMovesFile | src/FileHandling.java:60-71 | the same for the k-th file |
| Organizer.OrganizeMovesLater | src/FileHandling.java:60-71 | for a file after the first: the run over the whole list moves it, as the run over the rest does |
| Organizer.OrganizeMovesFrom | src/FileHandling.java:60-71 | the run over the rest of the list moves the k-th file from a source the first step kept |
| Organizer.OrganizeMovesEveryFile | src/FileHandling.java:60-71 | the same for every walked file |
| Organizer.OrganizeAlreadyInPlace | src/FileHandling.java:60-71 | files already at their destinations, with their folders present, are left as they are, and the run succeeds |
| Organizer.DirectoryCreator | src/FileHandling.java:155-161 | the new tree is `CreateDirectory` of the old one |
| Organizer.FileMover | src/FileHandling.java:171-173 | the new tree is the moved tree, or on an IOException the tree is unchanged and the error is returned |
| Organizer.FileOrganizer | src/FileHandling.java:56-72 | the final tree and the failure are those of `Organize` over the old tree and the walked files |
| Summary.FormatRow | src/FileHandling.java:89 | a formatted line is as long as its four padded fields together |
| Summary.Flag | src/FileHandling.java:97 | `canRead() ? "Y" : "N"` and its two siblings; `RowLayout` states where the flags sit in a row |
| Summary.Header | src/FileHandling.java:89 | the column titles formatted as a row; `HeaderLength` gives its length |
| Summary.HeaderLength | src/FileHandling.java:89 | the header line is 89 characters long |
| Summary.Row | src/FileHandling.java:97 | a row is max(50, \|name\|) + 39 characters long |
| Summary.RowLayout | src/FileHandling.java:97 | a row is the whole name, spaces up to column 50, then the readable, writable and hidden flags, each "Y" or "N" right-justified to width 13 |
| Summary.EnumeratesSize | src/FileHandling.java:91 | iterating the label set visits as many labels as the set holds |
| Summary.Matching | src/FileHandling.java:95-98 | the walked files whose parent directory is named after the label, in walk order; `MatchingIff` and `MatchingCount` characterise it |
| Summary.MatchingCount | src/FileHandling.java:95-98 | as many rows are listed under a label as there are walked files whose parent directory has that name |
| Summary.MatchingIff | src/FileHandling.java:95-98 | a file is listed under a label exactly when it was walked and its parent directory has that name |
| Summary.Section | src/FileHandling.java:91-98 | one label's lines: the blank line, the label and a colon, the underline, then the matching files' rows |
| Summary.Sections | src/FileHandling.java:91-100 | the sections of the labels, in the order they were visited |
| Summary.SummaryText | src/FileHandling.java:89-100 | the header followed by the sections; `SummaryLength` and `RowListed` state its length and contents |
| Summary.SummaryLength | src/FileHandling.java:89-100 | the line list has 1 + Σ(3 + matching files) lines |
| Summary.RowListed | src/FileHandling.java:91-100 | every walked file whose parent directory names a visited label has its row in the report |
| Summary.EmptyWalkSummary | src/FileHandling.java:82-100 | a walk that found nothing yields only the header line |
| Summary.SummaryPath | src/FileHandling.java:86-87 | the report's path, `<path>/summary/summary.txt` |
| Summary.WriteSummary | src/FileHandling.java:86-105 | the file operations that end `summaryCreator`: provision `summary`, create `summary.txt` when absent, write the lines; `SummaryWritten` and `SummaryBlocked` state their outcome |
| Summary.WriteRun | src/FileHandling.java:105 | `Files.write` as the last step of the run: its failure becomes the run's failure and leaves the tree unchanged; `SummaryWritten` and `SummaryBlocked` state the outcomes |
| Summary.SummaryWritten | src/FileHandling.java:86-105 | with path a directory and nothing in the way, summary.txt holds the lines and nothing but `summary` and `summary.txt` changes |
| Summary.SummaryBlocked | src/FileHandling.java:102-104 | a regular file named `summary` makes `createFile` fail with "not a directory", and nothing changes |
| Summary.SummaryLines | src/FileHandling.java:89-100 | the loops visit each label once, in some order, and build the header followed by each visited label's section; with no labels no file's parent is looked up |
| Summary.SummaryCreator | src/FileHandling.java:81-106 | the labels are visited in an order of the found set, and the final tree and failure are those of writing the report |
| Scenario.DestinationOfA | src/FileHandling.java:61-64 | a.txt goes to d/txt/a.txt |
| Scenario.DestinationOfBashrc | src/FileHandling.java:65-68 | the hidden .bashrc goes to d/hidden/.bashrc |
| Scenario.DestinationOfB | src/FileHandling.java:61-64 | b goes to d/b/b |
| Scenario.ScenarioLabels | src/FileHandling.java:135-147 | the organized tree yields the labels txt, bashrc and hidden, and not b |
| Scenario.ScenarioMatching | src/FileHandling.java:95-98 | a.txt is listed under txt, .bashrc under hidden and b under b; nothing is listed under bashrc |
| Scenario.ScenarioSections | src/FileHandling.java:91-100 | the report of the organized tree has sections for txt, hidden and bashrc only, so b appears in none |
| Scenario.CreateLaidOut | src/FileHandling.java:155-161 | in a tree whose entries are at most two deep, apart from files directly inside folders of d, `directoryCreator(d, name)` keeps that shape, leaves d/name a directory, keeps every entry and adds none but d/name |
| Scenario.ProvisionLaidOut | src/FileHandling.java:61-67 | provisioning for a file from src keeps that shape, leaves d/bucket a directory, keeps every entry and adds only folders directly inside d |
| Scenario.LeafMovedLaidOut | src/FileHandling.java:172 | moving src/x to a three-element path under d keeps that shape and moves just that entry |
| Scenario.MoveLeafLaidOut | src/FileHandling.java:172 | in such a tree `Files.move` from src/x to d/bucket/x succeeds when d/bucket is a directory, and moves just that entry |
| Scenario.MoveLaidOut | src/FileHandling.java:61-70 | one iteration of the loop for a file in src: its destination is d/bucket/name, the move succeeds, the content is there, the source is gone, and every other entry is kept |
| Scenario.RunStep | src/FileHandling.java:60-71 | the run over a list starting with a file in src takes that file's step and goes on with the rest from the tree it leaves |
| Scenario.MovableDestination | src/FileHandling.java:64-68 | a file from src goes to d/bucket/name, so two such files with different paths go to different places |
| Scenario.AsideRest | src/FileHandling.java:60-71 | an entry that is no file's source or destination is neither for the first file nor for the rest |
| Scenario.FlatRest | src/FileHandling.java:60-71 | after the first step the remaining files are still present in src and listed once each |
| Scenario.PlacedFirst | src/FileHandling.java:60-71 | the first file's content stays at its destination while the rest of the files are moved, and its source stays empty |
| Scenario.PlacedLater | src/FileHandling.java:60-71 | a later file, untouched by the first step, is moved by the rest of the run |
| Scenario.PlacedStepMoves | src/FileHandling.java:60-71 | the first step followed by the rest of the run leaves every file's content at its destination and nothing at its source |
| Scenario.PlacedStepKeeps | src/FileHandling.java:60-71 | the first step followed by the rest of the run keeps every entry that is no file's source or destination |
| Scenario.PlacedStep | src/FileHandling.java:60-71 | the two combined: the whole list is placed |
| Scenario.RunFlat | src/FileHandling.java:60-71 | in a laid-out tree (d a directory, every entry directly inside d a directory, nothing below d deeper than three elements and nothing outside d deeper than two), organizing distinct files lying directly in src whose names have a non-empty extension into d succeeds, leaves each file's content at its destination and nothing at its source, keeps every other entry and adds entries only under d |
| Scenario.ExtensionOfBashrc | src/FileHandling.java:61 | the extension of `.bashrc` is `bashrc`, the folder made for it before it goes to hidden |
| Scenario.OrganizedPaths | src/FileHandling.java:64-68 | the walk of d lists exactly the destinations of a.txt, .bashrc and b |
| Scenario.FlatOfThree | src/FileHandling.java:60-71 | three files from src with distinct paths are a list `RunFlat` applies to |
| Scenario.FlatThree | src/FileHandling.java:60-71 | a.txt, .bashrc and b are such a list |
| Scenario.PlacedThree | src/FileHandling.java:60-71 | what `RunFlat` gives, read off for the three files |
| Scenario.RunOfThree | src/FileHandling.java:56-72 | in a laid-out tree, organizing src/a.txt, src/.bashrc and src/b into d succeeds and leaves their contents at d/txt/a.txt, d/hidden/.bashrc and d/b/b, with nothing left in src |
| Scenario.ExampleLaidOut | src/FileHandling.java:56-72 | a concrete tree holding src with the three files and an empty d has the shape `RunOfThree` starts from |
| HiddenDirectory.ProvisionOfG | src/FileHandling.java:61-68 | for the hidden directory s/.g, the folders d/g and d/hidden are made and the destination is d/hidden/.g |
| HiddenDirectory.ApartByFirst | src/FileHandling.java:172 | paths whose first elements differ lie neither one within the other, so a move from one never reaches into the other |
| HiddenDirectory.MoveOfGSucceeds | src/FileHandling.java:172 | moving s/.g to d/hidden/.g succeeds |
| HiddenDirectory.MoveOfGCarries | src/FileHandling.java:172 | that move carries s/.g/c along to d/hidden/.g/c and leaves nothing at s/.g/c |
| HiddenDirectory.MoveOfGMissesC | src/FileHandling.java:172 | that move puts nothing at d/c/c |
| HiddenDirectory.ProvisionOfC | src/FileHandling.java:61-64 | for s/.g/c, only d/c can be made and the destination is d/c/c |
| HiddenDirectory.OrganizeOfC | src/FileHandling.java:60-71 | once c has been carried away, its own move finds nothing at its source and the run stops with "no such file" |
| HiddenDirectory.WalkedHiddenDirectory | src/FileHandling.java:60-71 | a walked hidden directory followed by the file inside it: the run stops at the file with "no such file", the file sits in d/hidden/.g and nothing is at d/c/c |

## Left out

- `getFiles` (src/FileHandling.java:37-45) is not modelled. It is an OS directory walk with the `isFile() || isHidden()` filter. Its result is an input: a sequence of `FileRecord`s.
- `main` (src/FileHandling.java:15-29) is not modelled. It holds the hard-coded `D:\` paths and swallows exceptions with `printStackTrace`.
- `isHidden`, `canRead` and `canWrite` are fields of `FileRecord`, fixed when the walk found the file. `exists` is membership in the tree.
- Permissions, atomicity, cross-device moves and other platform-dependent failures of `mkdir`, `Files.move`, `createFile` and `write` are not modelled. Each operation fails only for the causes its function names. A failure is returned as an error instead of thrown.
- Files.MoveEntry: when the target exists and lies inside the source, `REPLACE_EXISTING` deletes the target before the rename fails. The model reports the failure and leaves the tree unchanged.
- Files.ParentError: when the parent is missing but a further ancestor is a regular file, the operating system reports "not a directory". The model reports "no such file", since it looks only at the immediate parent.
- `getParentFile()` returns null for a path with no parent, and the call at src/FileHandling.java:96 would then throw a NullPointerException. This happens only when a label was found, because the lookup is inside the loop over labels. Summary.SummaryLines and Summary.SummaryCreator exclude that case with `requires labels == {} || AllHaveParents(files)`.
- The `HashSet` iteration order is not fixed. Summary.SummaryLines picks each label with `:|` and returns the order it used. `Enumerates` states only that each label is visited once.
- Summary.FormatRow: models only the space padding of `%-Ns` and `%Ns`, which is all the program uses of `String.format`.
- Summary.SummaryPath: `Paths.get(path + "/summary/summary.txt")` concatenates strings. It is modelled as resolving `summary` and then `summary.txt`, which is the same path when the separator is `/`.
- Text.PadRight: lengths count Unicode scalar values, one per `char`, while Java's `String.length()` and `String.format` count UTF-16 code units. A name with a character outside the Basic Multilingual Plane, such as "😀a.txt" (6 code points, 7 UTF-16 units), gets 43 spaces from Java's `%-50s` but 44 from the model. The lengths stated for Text.PadRight, Text.PadLeft, Summary.FormatRow and Summary.Row agree with Java's only for text without such characters.
- Files.Path: name elements are compared exactly, as on a case-sensitive file system. The `D:\` paths at src/FileHandling.java:17-18 point to Windows, where names are case-insensitive. There "b.TXT" goes into an existing `txt` folder, and "A.txt" and "a.txt" from different folders overwrite one another. In the model "b.TXT" gets a folder `TXT` of its own, and the two files stay apart.
- Files.PathString: `File.toString` joins name elements with `/`. The Windows separator and drive letters are not modelled.
- Files.LinesText: ends every line with "\n". `Files.write` uses the platform line separator, which is "\r\n" on Windows.
- The `printStackTrace` in `getExtension`'s catch (src/FileHandling.java:121-123) is not modelled. Extensions.GetExtension shows that the substring never throws, so the branch cannot be taken.
- Scenario.RunFlat: covers only laid-out trees and names with a non-empty extension. A regular file at d/<bucket> makes the move fail ("not a directory"), so that case is excluded on purpose. A name ending in `.`, such as `src/foo.`, also moves successfully, to `d/foo.`, but the lemma does not cover it. Nor does it cover a tree with an entry more than two elements deep outside d. Organizer.OrganizeMovesEveryFile covers such runs once they succeed.
- Organizer.OrganizeMovesEveryFile: assumes `Separate`: no file's source or target lies at or below another file's source or target, no source lies at or below its own target or above it, and no source is a bucket folder. Without it, a later move may overwrite or carry away an earlier one. `HiddenDirectory.WalkedHiddenDirectory` shows such a run: a walked hidden directory is moved with its contents, and the file inside it is then missing. Organizer.OrganizeKeeps and Organizer.OrganizeAddsOnly hold without `Separate`, for entries outside every source's and target's subtree.
