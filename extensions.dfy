/** getExtension and extensionsFinder: the two ways the program derives an
    extension, from a file's name and from the whole path string. */
module Extensions {
  import opened Wrappers
  import opened Text
  import opened Files

  /** e is what follows the last '.' of s, or all of s when s has no '.'. */
  predicate IsExtensionOf(e: string, s: string) {
    && |e| <= |s|
    && s[|s| - |e|..] == e
    && '.' !in e
    && (if '.' in s then s[|s| - |e| - 1] == '.' else e == s)
  }

  /** getExtension: s.substring(s.lastIndexOf('.') + 1); a null name gives null.
      The index lies in [0, |s|], so the substring never throws. */
  function GetExtension(file: Option<string>): (ext: Option<string>)
    ensures ext.Some? <==> file.Some?
  {
    match file
    case None => None
    case Some(s) => Some(s[LastIndexOf(s, '.') + 1..])
  }

  /** What getExtension returns for a name is its extension. */
  lemma GetExtensionIsExtension(s: string)
    ensures IsExtensionOf(GetExtension(Some(s)).value, s)
  {
    var i := LastIndexOf(s, '.');
    if '.' in s {
      var k :| 0 <= k < |s| && s[k] == '.';
      assert i >= k;
    }
  }

  /** Only one string is the extension of s in the sense of IsExtensionOf, so the
      contract of GetExtension determines it. */
  lemma ExtensionIsUnique(s: string, e1: string, e2: string)
    requires IsExtensionOf(e1, s) && IsExtensionOf(e2, s)
    ensures e1 == e2
  {
  }

  /** Reference definition: the characters after the last '.', read from the right. */
  function AfterLastDot(s: string): string
  {
    if s == [] then []
    else if s[|s| - 1] == '.' then []
    else AfterLastDot(s[..|s| - 1]) + [s[|s| - 1]]
  }

  lemma {:induction false} GetExtensionIsAfterLastDot(s: string)
    ensures GetExtension(Some(s)) == Some(AfterLastDot(s))
  {
    if s == [] {
    } else if s[|s| - 1] == '.' {
      assert LastIndexOf(s, '.') == |s| - 1;
      assert GetExtension(Some(s)).value == s[|s|..] == [];
    } else {
      var s' := s[..|s| - 1];
      GetExtensionIsAfterLastDot(s');
      assert s == s' + [s[|s| - 1]];
      LastIndexOfAppend(s', [s[|s| - 1]], '.');
      var i := LastIndexOf(s, '.');
      assert i == LastIndexOf(s', '.');
      assert GetExtension(Some(s)).value == s[i + 1..];
      assert s[i + 1..] == s'[i + 1..] + [s[|s| - 1]];
    }
  }

  /** The three shapes of a name: no '.', a trailing '.', and a '.' followed by text. */
  lemma ExtensionCases(s: string)
    ensures '.' !in s ==> GetExtension(Some(s)) == Some(s)
    ensures |s| > 0 && s[|s| - 1] == '.' ==> GetExtension(Some(s)) == Some("")
    ensures forall a, b :: s == a + "." + b && '.' !in b ==> GetExtension(Some(s)) == Some(b)
  {
    GetExtensionIsExtension(s);
    forall a, b | s == a + "." + b && '.' !in b
      ensures GetExtension(Some(s)) == Some(b)
    {
      ExtensionIsUnique(s, b, GetExtension(Some(s)).value);
    }
  }

  /** An extension has no '.', so taking the extension again changes nothing. */
  lemma GetExtensionIdempotent(file: Option<string>)
    ensures GetExtension(GetExtension(file)) == GetExtension(file)
  {
    if file.Some? {
      GetExtensionIsExtension(file.value);
      ExtensionCases(GetExtension(file).value);
    }
  }

  /** What one iteration of extensionsFinder adds for file f: the text after the
      last '.' of its path string, and "hidden" for a hidden file, both only when
      the path string holds a '.'. */
  function Contribution(f: FileRecord): set<string>
  {
    var s := PathString(f.path);
    var i := LastIndexOf(s, '.');
    if i >= 0 then {s[i + 1..]} + (if f.hidden then {"hidden"} else {}) else {}
  }

  /** The set extensionsFinder returns for files. */
  function FoundExtensions(files: seq<FileRecord>): set<string>
    decreases |files|
  {
    if files == [] then {}
    else FoundExtensions(files[..|files| - 1]) + Contribution(files[|files| - 1])
  }

  /** A label is found exactly when some file's path string holds a '.' and the
      label is that path string's extension, or the file is hidden and the label is
      "hidden". */
  predicate Discovers(f: FileRecord, e: string) {
    && '.' in PathString(f.path)
    && (e == GetExtension(Some(PathString(f.path))).value || (e == "hidden" && f.hidden))
  }

  lemma ContributionIff(f: FileRecord, e: string)
    ensures e in Contribution(f) <==> Discovers(f, e)
  {
    var s := PathString(f.path);
    GetExtensionIsExtension(s);
    ExtensionIsUnique(s, s[LastIndexOf(s, '.') + 1..], GetExtension(Some(s)).value);
  }

  lemma {:induction false} FoundExtensionsIff(files: seq<FileRecord>, e: string)
    ensures e in FoundExtensions(files) <==> exists f :: f in files && Discovers(f, e)
    decreases |files|
  {
    if files != [] {
      var init, last := files[..|files| - 1], files[|files| - 1];
      FoundExtensionsIff(init, e);
      assert files == init + [last];
      ContributionIff(last, e);
    }
  }

  /** No label holds a '.'. */
  lemma FoundExtensionsHaveNoDot(files: seq<FileRecord>, e: string)
    requires e in FoundExtensions(files)
    ensures '.' !in e
  {
    FoundExtensionsIff(files, e);
    var f :| f in files && Discovers(f, e);
    GetExtensionIsExtension(PathString(f.path));
  }

  /** "hidden" is found only through a hidden file whose path holds a '.', or a path
      whose extension is literally "hidden". */
  lemma HiddenLabelIff(files: seq<FileRecord>)
    ensures "hidden" in FoundExtensions(files) <==>
      exists f :: f in files && '.' in PathString(f.path) &&
        (f.hidden || GetExtension(Some(PathString(f.path))).value == "hidden")
  {
    FoundExtensionsIff(files, "hidden");
  }

  /** The set depends only on which files are listed, not on their order or repetition. */
  lemma FoundExtensionsOrderIndependent(a: seq<FileRecord>, b: seq<FileRecord>)
    requires forall f :: f in a <==> f in b
    ensures FoundExtensions(a) == FoundExtensions(b)
  {
    forall e ensures e in FoundExtensions(a) <==> e in FoundExtensions(b) {
      FoundExtensionsIff(a, e);
      FoundExtensionsIff(b, e);
    }
  }

  /** extensionsFinder. */
  method ExtensionsFinder(files: seq<FileRecord>) returns (extensions: set<string>)
    ensures extensions == FoundExtensions(files)
  {
    extensions := {};
    for k := 0 to |files|
      invariant extensions == FoundExtensions(files[..k])
    {
      var file := files[k];
      var s := PathString(file.path);
      var i := LastIndexOf(s, '.');
      if i >= 0 {
        extensions := extensions + {s[i + 1..]};
        if file.hidden {
          extensions := extensions + {"hidden"};
        }
      }
      assert FoundExtensions(files[..k + 1]) == FoundExtensions(files[..k]) + Contribution(file) by {
        assert files[..k + 1][..k] == files[..k];
      }
    }
    assert files[..|files|] == files;
  }
}
