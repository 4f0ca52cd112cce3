/** The `scan:duplicates` command: it walks a folder, groups the paths of its
    `.php` files by file name and by the first declared class name, keeps the
    groups holding more than one path and writes a text report to the next
    numbered `duplicate_scan_<N>.log`. */
module DuplicateScan {
  import opened Text
  import opened LogIndex

  /** One entry of the recursive directory walk, in the order the walk
      yields them; `content` is what `file_get_contents` returns. */
  datatype Entry = Entry(fileName: string, pathName: string, isFile: bool, content: string)

  /** One key of a PHP array from name to the list of paths under it. */
  datatype Group = Group(name: string, paths: seq<string>)

  /** A PHP array keyed by name, in insertion order. */
  type Groups = seq<Group>

  predicate HasName(gs: Groups, name: string) {
    exists i :: 0 <= i < |gs| && gs[i].name == name
  }

  predicate UniqueNames(gs: Groups) {
    forall i, j :: 0 <= i < j < |gs| ==> gs[i].name != gs[j].name
  }

  /** `$gs[$name] ?? []`. */
  function Lookup(gs: Groups, name: string): (paths: seq<string>)
    ensures !HasName(gs, name) ==> paths == []
  {
    if gs == [] then []
    else if gs[|gs| - 1].name == name then gs[|gs| - 1].paths
    else Lookup(gs[..|gs| - 1], name)
  }

  /** Every group named `name` given the paths `paths`, in place. */
  function Replace(gs: Groups, name: string, paths: seq<string>): (r: Groups)
    ensures |r| == |gs|
    ensures forall i :: 0 <= i < |gs| ==> r[i].name == gs[i].name
  {
    if gs == [] then []
    else
      var last := gs[|gs| - 1];
      Replace(gs[..|gs| - 1], name, paths) + [if last.name == name then Group(name, paths) else last]
  }

  /** `$gs[$name] = $paths`: an existing key keeps its place, a new one goes
      last. */
  function Put(gs: Groups, name: string, paths: seq<string>): (r: Groups)
    ensures HasName(r, name)
    ensures forall n :: HasName(r, n) <==> HasName(gs, n) || n == name
  {
    if HasName(gs, name) then Replace(gs, name, paths)
    else
      var r := gs + [Group(name, paths)];
      assert r[|gs|].name == name;
      assert forall i :: 0 <= i < |gs| ==> r[i] == gs[i];
      r
  }

  /** `$gs[$name][] = $path`. */
  function AddPath(gs: Groups, name: string, path: string): Groups {
    Put(gs, name, Lookup(gs, name) + [path])
  }

  lemma {:induction false} LookupReplace(gs: Groups, name: string, paths: seq<string>, n: string)
    ensures Lookup(Replace(gs, name, paths), n) == if n == name && HasName(gs, name) then paths else Lookup(gs, n)
  {
    if gs != [] {
      var init := gs[..|gs| - 1];
      var last := gs[|gs| - 1];
      var rest := Replace(init, name, paths);
      var newLast := if last.name == name then Group(name, paths) else last;
      var r := Replace(gs, name, paths);
      assert r == rest + [newLast];
      assert r[..|r| - 1] == rest && r[|r| - 1] == newLast;
      LookupReplace(init, name, paths, n);
      HasNameLast(gs, name);
      if last.name != n {
        assert Lookup(r, n) == Lookup(rest, n);
        assert Lookup(gs, n) == Lookup(init, n);
      }
    }
  }

  /** A name is in a non-empty array iff it is in all but the last group or
      it names the last group. */
  lemma HasNameLast(gs: Groups, name: string)
    requires gs != []
    ensures HasName(gs, name) <==> HasName(gs[..|gs| - 1], name) || gs[|gs| - 1].name == name
  {
    var init := gs[..|gs| - 1];
    if HasName(gs, name) && gs[|gs| - 1].name != name {
      var i :| 0 <= i < |gs| && gs[i].name == name;
      assert init[i].name == name;
    }
    if HasName(init, name) {
      var i :| 0 <= i < |init| && init[i].name == name;
      assert gs[i].name == name;
    }
  }

  /** Reading back a key after writing it gives what was written; other keys
      are untouched. */
  lemma LookupPut(gs: Groups, name: string, paths: seq<string>, n: string)
    ensures Lookup(Put(gs, name, paths), n) == if n == name then paths else Lookup(gs, n)
  {
    if HasName(gs, name) {
      LookupReplace(gs, name, paths, n);
    } else {
      assert (gs + [Group(name, paths)])[..|gs|] == gs;
    }
  }

  /** Writing a key keeps the names distinct. */
  lemma PutKeepsUnique(gs: Groups, name: string, paths: seq<string>)
    requires UniqueNames(gs)
    ensures UniqueNames(Put(gs, name, paths))
  {
    if !HasName(gs, name) {
      var r := gs + [Group(name, paths)];
      forall i, j | 0 <= i < j < |r|
        ensures r[i].name != r[j].name
      {
        if j == |gs| {
          assert r[i] == gs[i];
        }
      }
    }
  }

  /** `SplFileInfo::getExtension`: the text after the last dot of the file
      name, or "" when it has none. */
  function Extension(name: string): (ext: string)
    ensures |ext| <= |name| && ext == name[|name| - |ext|..] && '.' !in ext
    ensures '.' in name ==> |ext| < |name| && name[|name| - |ext| - 1] == '.'
    ensures '.' !in name ==> ext == ""
  {
    if name == [] then ""
    else if name[|name| - 1] == '.' then ""
    else if '.' in name[..|name| - 1] then Extension(name[..|name| - 1]) + [name[|name| - 1]]
    else ""
  }

  /** Only regular files with extension exactly `php` are recorded. */
  predicate IsPhpFile(e: Entry) {
    e.isFile && Extension(e.fileName) == "php"
  }

  predicate IsIdentChar(c: char) {
    'A' <= c <= 'Z' || 'a' <= c <= 'z' || '0' <= c <= '9' || c == '_'
  }

  /** The longest prefix of `s` made of `[A-Za-z0-9_]`. */
  function IdentRun(s: string): (r: string)
    ensures r <= s
    ensures forall i :: 0 <= i < |r| ==> IsIdentChar(r[i])
    ensures |r| < |s| ==> !IsIdentChar(s[|r|])
  {
    if s != [] && IsIdentChar(s[0]) then [s[0]] + IdentRun(s[1..]) else ""
  }

  /** `/class\s+([A-Za-z0-9_]+)/` matches `s` at position `i`. */
  predicate ClassMatchAt(s: string, i: int) {
    0 <= i && i + 5 <= |s| && s[i..i + 5] == "class"
    && i + 5 < |s| && IsBlank(s[i + 5])
    && var rest := TrimStart(s[i + 5..]);
       rest != [] && IsIdentChar(rest[0])
  }

  /** The leftmost match at or after `from`, as PCRE finds it. */
  function FirstClassMatch(s: string, from: nat): (r: Option<nat>)
    requires from <= |s|
    ensures r.Some? ==> from <= r.value && ClassMatchAt(s, r.value)
    decreases |s| - from
  {
    if from + 5 > |s| then None
    else if ClassMatchAt(s, from) then Some(from)
    else FirstClassMatch(s, from + 1)
  }

  /** Every match lies at or after the one FirstClassMatch finds, so in
      particular it finds one whenever there is one. */
  lemma {:induction false} FirstClassMatchIsLeftmost(s: string, from: nat, i: int)
    requires from <= i && from <= |s| && ClassMatchAt(s, i)
    ensures FirstClassMatch(s, from).Some? && FirstClassMatch(s, from).value <= i
    decreases i - from
  {
    if !ClassMatchAt(s, from) {
      assert from < i;
      FirstClassMatchIsLeftmost(s, from + 1, i);
    }
  }

  /** `$matches[1]` of the first match of `/class\s+([A-Za-z0-9_]+)/`, or
      nothing when the content has no match. */
  function ClassName(content: string): (r: Option<string>)
    ensures r.Some? ==> exists i :: ClassMatchAt(content, i)
    ensures r.Some? ==> r.value != [] && forall k :: 0 <= k < |r.value| ==> IsIdentChar(r.value[k])
  {
    match FirstClassMatch(content, 0)
    case None => None
    case Some(i) => Some(IdentRun(TrimStart(content[i + 5..])))
  }

  /** A file is grouped by class exactly when the pattern matches
      somewhere in it. */
  lemma ClassNameIffMatch(content: string)
    ensures ClassName(content).Some? <==> exists i :: ClassMatchAt(content, i)
  {
    if exists i :: ClassMatchAt(content, i) {
      var i :| ClassMatchAt(content, i);
      FirstClassMatchIsLeftmost(content, 0, i);
    }
  }

  /** A file that starts with a class declaration is grouped under that
      class. */
  lemma ClassNameOfDeclaration(name: string, rest: string)
    requires name != [] && forall k :: 0 <= k < |name| ==> IsIdentChar(name[k])
    requires rest == [] || !IsIdentChar(rest[0])
    ensures ClassName("class " + name + rest) == Some(name)
  {
    var s := "class " + name + rest;
    assert s == "class " + (name + rest);
    DeclarationMatches(s, name + rest);
    DeclarationAt(s, name, rest);
  }

  /** A match at position 0 followed by an identifier and a non-identifier
      character names that identifier. */
  lemma DeclarationAt(s: string, name: string, rest: string)
    requires forall k :: 0 <= k < |name| ==> IsIdentChar(name[k])
    requires rest == [] || !IsIdentChar(rest[0])
    requires ClassMatchAt(s, 0) && TrimStart(s[5..]) == name + rest
    ensures ClassName(s) == Some(name)
  {
    ClassNameAtStart(s);
    IdentRunOf(name, rest);
  }

  /** A match at position 0 is the first one. */
  lemma ClassNameAtStart(s: string)
    requires ClassMatchAt(s, 0)
    ensures ClassName(s) == Some(IdentRun(TrimStart(s[5..])))
  {
    assert FirstClassMatch(s, 0) == Some(0);
  }

  /** `class` and a space in front of an identifier match at position 0,
      the identifier starting right after the blank. */
  lemma DeclarationMatches(s: string, t: string)
    requires t != [] && IsIdentChar(t[0])
    requires s == "class " + t
    ensures ClassMatchAt(s, 0) && TrimStart(s[5..]) == t
  {
    assert s[..5] == "class";
    assert s[5..] == [' '] + t;
    assert s[5] == ' ';
    assert (s[5..])[1..] == t;
    assert !IsBlank(t[0]);
    assert TrimStart(t) == t;
  }

  lemma {:induction false} IdentRunOf(name: string, rest: string)
    requires forall k :: 0 <= k < |name| ==> IsIdentChar(name[k])
    requires rest == [] || !IsIdentChar(rest[0])
    ensures IdentRun(name + rest) == name
  {
    if name != [] {
      assert (name + rest)[1..] == name[1..] + rest;
      IdentRunOf(name[1..], rest);
    } else {
      assert name + rest == rest;
    }
  }

  /** The two arrays the walk fills: by file name and by class name. */
  datatype Index = ByFile | ByClass

  /** The key a file is recorded under in one array, if any. */
  function KeyOf(e: Entry, index: Index): Option<string> {
    match index
    case ByFile => Some(e.fileName)
    case ByClass => ClassName(e.content)
  }

  /** One file recorded in one array: its path appended under its key. */
  function Record(gs: Groups, e: Entry, index: Index): Groups {
    var key := KeyOf(e, index);
    if key.Some? then AddPath(gs, key.value, e.pathName) else gs
  }

  /** The arrays after walking `entries`, starting from `into`. */
  function Recorded(into: Groups, entries: seq<Entry>, index: Index): Groups {
    if entries == [] then into
    else
      var before := Recorded(into, entries[..|entries| - 1], index);
      var e := entries[|entries| - 1];
      if IsPhpFile(e) then Record(before, e, index) else before
  }

  /** Reference definition: the paths, in walk order, of the `.php` files
      whose key is `name`. */
  function PathsWithKey(entries: seq<Entry>, index: Index, name: string): seq<string> {
    if entries == [] then []
    else
      var e := entries[|entries| - 1];
      PathsWithKey(entries[..|entries| - 1], index, name)
      + if IsPhpFile(e) && KeyOf(e, index) == Some(name) then [e.pathName] else []
  }

  /** Recording groups each `.php` file's path under its key, after whatever
      the array held before, in walk order. */
  lemma {:induction false} RecordedGroupsByKey(into: Groups, entries: seq<Entry>, index: Index, name: string)
    ensures Lookup(Recorded(into, entries, index), name) == Lookup(into, name) + PathsWithKey(entries, index, name)
  {
    if entries != [] {
      var init := entries[..|entries| - 1];
      RecordedGroupsByKey(into, init, index, name);
      var e := entries[|entries| - 1];
      var key := KeyOf(e, index);
      var before := Recorded(into, init, index);
      var added := if IsPhpFile(e) && key == Some(name) then [e.pathName] else [];
      assert PathsWithKey(entries, index, name) == PathsWithKey(init, index, name) + added;
      if IsPhpFile(e) && key.Some? {
        assert Recorded(into, entries, index) == Put(before, key.value, Lookup(before, key.value) + [e.pathName]);
        LookupPut(before, key.value, Lookup(before, key.value) + [e.pathName], name);
      } else {
        assert Recorded(into, entries, index) == before;
      }
    }
  }

  /** Recording keeps the names distinct. */
  lemma {:induction false} RecordedUnique(into: Groups, entries: seq<Entry>, index: Index)
    requires UniqueNames(into)
    ensures UniqueNames(Recorded(into, entries, index))
  {
    if entries != [] {
      var init := entries[..|entries| - 1];
      RecordedUnique(into, init, index);
      var e := entries[|entries| - 1];
      if IsPhpFile(e) && KeyOf(e, index).Some? {
        var before := Recorded(into, init, index);
        PutKeepsUnique(before, KeyOf(e, index).value, Lookup(before, KeyOf(e, index).value) + [e.pathName]);
      }
    }
  }

  /** The groups holding more than one path, in their original order. */
  function Duplicates(gs: Groups): (r: Groups)
    ensures forall i :: 0 <= i < |r| ==> |r[i].paths| > 1
    ensures |r| <= |gs|
  {
    if gs == [] then []
    else
      var last := gs[|gs| - 1];
      Duplicates(gs[..|gs| - 1]) + if |last.paths| > 1 then [last] else []
  }

  lemma {:induction false} DuplicatesNames(gs: Groups, n: string)
    ensures HasName(Duplicates(gs), n) ==> HasName(gs, n)
  {
    if gs != [] {
      var init := gs[..|gs| - 1];
      DuplicatesNames(init, n);
      var d := Duplicates(gs);
      if HasName(d, n) {
        var i :| 0 <= i < |d| && d[i].name == n;
        if i < |Duplicates(init)| {
          assert d[i] == Duplicates(init)[i];
          var j :| 0 <= j < |init| && init[j].name == n;
          assert gs[j].name == n;
        } else {
          assert gs[|gs| - 1].name == n;
        }
      }
    }
  }

  /** A name is among the duplicates iff it has more than one path, and then
      with all its paths. */
  lemma {:induction false} DuplicatesLookup(gs: Groups, n: string)
    requires UniqueNames(gs)
    ensures Lookup(Duplicates(gs), n) == if |Lookup(gs, n)| > 1 then Lookup(gs, n) else []
    ensures HasName(Duplicates(gs), n) <==> |Lookup(gs, n)| > 1
  {
    if gs != [] {
      var init := gs[..|gs| - 1];
      var last := gs[|gs| - 1];
      DuplicatesLookup(init, n);
      var d := Duplicates(gs);
      if |last.paths| > 1 {
        assert d[..|d| - 1] == Duplicates(init);
        assert d == Duplicates(init) + [last];
      } else {
        assert d == Duplicates(init);
      }
      if last.name == n {
        NotInInit(gs);
        DuplicatesNames(init, n);
        assert Lookup(init, n) == [];
      }
      LookupHasName(Duplicates(gs), n);
      LookupHasName(gs, n);
    }
  }

  /** With distinct names the last group's name is not among the others. */
  lemma NotInInit(gs: Groups)
    requires gs != [] && UniqueNames(gs)
    ensures !HasName(gs[..|gs| - 1], gs[|gs| - 1].name)
  {
    var init := gs[..|gs| - 1];
    forall i | 0 <= i < |init|
      ensures init[i].name != gs[|gs| - 1].name
    {
      assert init[i] == gs[i];
    }
  }

  /** In a group of duplicates every name has at least two paths, so it is
      present exactly when its lookup is long. */
  lemma {:induction false} LookupHasName(gs: Groups, n: string)
    ensures (forall i :: 0 <= i < |gs| ==> |gs[i].paths| > 1) ==> (HasName(gs, n) <==> |Lookup(gs, n)| > 1)
    ensures HasName(gs, n) ==> exists i :: 0 <= i < |gs| && gs[i].name == n && Lookup(gs, n) == gs[i].paths
  {
    if gs != [] {
      var init := gs[..|gs| - 1];
      LookupHasName(init, n);
      if HasName(init, n) {
        var i :| 0 <= i < |init| && init[i].name == n && Lookup(init, n) == init[i].paths;
        assert gs[i] == init[i];
      }
      if HasName(gs, n) && gs[|gs| - 1].name != n {
        var i :| 0 <= i < |gs| && gs[i].name == n;
        assert init[i].name == n;
      }
    }
  }

  /** `findDuplicates` for one array: `$dups[$name] = $paths` for every group
      of more than one path, written over whatever `$dups` held. */
  function KeepDuplicates(into: Groups, gs: Groups): Groups {
    if gs == [] then into
    else
      var before := KeepDuplicates(into, gs[..|gs| - 1]);
      var last := gs[|gs| - 1];
      if |last.paths| > 1 then Put(before, last.name, last.paths) else before
  }

  /** Starting from an empty array, keeping duplicates is the filter. */
  lemma {:induction false} KeepDuplicatesIsFilter(gs: Groups)
    requires UniqueNames(gs)
    ensures KeepDuplicates([], gs) == Duplicates(gs)
  {
    if gs != [] {
      var init := gs[..|gs| - 1];
      var last := gs[|gs| - 1];
      assert UniqueNames(init);
      KeepDuplicatesIsFilter(init);
      if |last.paths| > 1 {
        NotInInit(gs);
        DuplicatesNames(init, last.name);
      }
    }
  }

  /** The lines for one array of duplicates. */
  function FormatPaths(paths: seq<string>): string {
    if paths == [] then ""
    else FormatPaths(paths[..|paths| - 1]) + "    - " + paths[|paths| - 1] + "\n"
  }

  /** The heading line of one name. */
  function NameLine(name: string): string {
    "  " + name + ":\n"
  }

  /** One name's block: its heading line, then one line per path. */
  function GroupBlock(g: Group): string {
    NameLine(g.name) + FormatPaths(g.paths)
  }

  function FormatList(gs: Groups): string {
    if gs == [] then ""
    else FormatList(gs[..|gs| - 1]) + GroupBlock(gs[|gs| - 1])
  }

  /** The "nothing found" report. It is written as two literals because
      Dafny does not look at the characters of a literal this long, and
      `ReportIsEmptyMessageIff` needs its first one. */
  const NoDuplicatesMessage := "No duplicate class names" + " or file names found.\n"
  const ClassesHeading := "Duplicate class names:\n"
  const FilesHeading := "Duplicate file names:\n"

  /** The report `generateOutput` writes. */
  function Report(classes: Groups, files: Groups): string {
    if classes == [] && files == [] then NoDuplicatesMessage
    else
      (if classes != [] then ClassesHeading + FormatList(classes) else "")
      + (if files != [] then FilesHeading + FormatList(files) else "")
  }

  /** The report is the fixed "nothing found" line exactly when both
      duplicate arrays are empty. */
  lemma ReportIsEmptyMessageIff(classes: Groups, files: Groups)
    ensures Report(classes, files) == NoDuplicatesMessage <==> classes == [] && files == []
  {
    var r := Report(classes, files);
    if classes != [] {
      assert r[0] == ClassesHeading[0];
    } else if files != [] {
      assert r == FilesHeading + FormatList(files);
      assert r[0] == FilesHeading[0];
    }
    assert NoDuplicatesMessage[0] == 'N' && ClassesHeading[0] == 'D' && FilesHeading[0] == 'D';
  }

  /** Each path of a group appears on its own line. */
  lemma {:induction false} FormatPathsLists(paths: seq<string>, j: int)
    requires 0 <= j < |paths|
    ensures Contains(FormatPaths(paths), "    - " + paths[j] + "\n")
  {
    var init := paths[..|paths| - 1];
    var line := "    - " + paths[|paths| - 1] + "\n";
    assert FormatPaths(paths) == FormatPaths(init) + line;
    if j < |init| {
      FormatPathsLists(init, j);
      assert init[j] == paths[j];
      ContainsAppendLeft(FormatPaths(init), line, "    - " + paths[j] + "\n");
    } else {
      ContainsSelf(line);
      ContainsAppendRight(FormatPaths(init), line, line);
    }
  }

  /** A block opens with its name's heading line and lists each of the
      group's own paths under it. */
  lemma GroupBlockLists(g: Group, j: int)
    requires 0 <= j < |g.paths|
    ensures StartsWith(GroupBlock(g), NameLine(g.name))
    ensures Contains(GroupBlock(g), "    - " + g.paths[j] + "\n")
  {
    assert GroupBlock(g)[..|NameLine(g.name)|] == NameLine(g.name);
    FormatPathsLists(g.paths, j);
    ContainsAppendRight(NameLine(g.name), FormatPaths(g.paths), "    - " + g.paths[j] + "\n");
  }

  /** Every group's whole block, its name followed by exactly its own paths,
      appears in the formatted list. */
  lemma {:induction false} FormatListHasGroup(gs: Groups, i: int)
    requires 0 <= i < |gs|
    ensures Contains(FormatList(gs), GroupBlock(gs[i]))
  {
    var init := gs[..|gs| - 1];
    var block := GroupBlock(gs[|gs| - 1]);
    assert FormatList(gs) == FormatList(init) + block;
    if i < |init| {
      FormatListHasGroup(init, i);
      assert init[i] == gs[i];
      ContainsAppendLeft(FormatList(init), block, GroupBlock(gs[i]));
    } else {
      ContainsSelf(block);
      ContainsAppendRight(FormatList(init), block, block);
    }
  }

  /** Every duplicate class and file is in the report as its whole block,
      each section under its heading. */
  lemma ReportListsEveryDuplicate(classes: Groups, files: Groups)
    ensures classes != [] ==> StartsWith(Report(classes, files), ClassesHeading)
    ensures forall i :: 0 <= i < |classes| ==> Contains(Report(classes, files), GroupBlock(classes[i]))
    ensures forall i :: 0 <= i < |files| ==> Contains(Report(classes, files), GroupBlock(files[i]))
  {
    var c := if classes != [] then ClassesHeading + FormatList(classes) else "";
    var f := if files != [] then FilesHeading + FormatList(files) else "";
    if classes != [] {
      assert Report(classes, files) == c + f;
      assert (ClassesHeading + FormatList(classes) + f)[..|ClassesHeading|] == ClassesHeading;
    }
    forall i | 0 <= i < |classes|
      ensures Contains(Report(classes, files), GroupBlock(classes[i]))
    {
      assert Report(classes, files) == c + f;
      SectionLists(ClassesHeading, classes, i);
      ContainsAppendLeft(c, f, GroupBlock(classes[i]));
    }
    forall i | 0 <= i < |files|
      ensures Contains(Report(classes, files), GroupBlock(files[i]))
    {
      assert Report(classes, files) == c + f;
      SectionLists(FilesHeading, files, i);
      ContainsAppendRight(c, f, GroupBlock(files[i]));
    }
  }

  lemma SectionLists(heading: string, gs: Groups, i: int)
    requires 0 <= i < |gs|
    ensures Contains(heading + FormatList(gs), GroupBlock(gs[i]))
  {
    FormatListHasGroup(gs, i);
    ContainsAppendRight(heading, FormatList(gs), GroupBlock(gs[i]));
  }

  /** A log file the command writes. */
  datatype LogFile = LogFile(path: string, content: string)

  /** What one run of the command leaves behind. */
  datatype Outcome = Outcome(exitCode: int, log: Option<LogFile>, messages: seq<string>)

  function FolderNotFoundMessage(folder: string): string {
    "Folder not found: " + folder
  }

  function ScanCompleteMessage(path: string): string {
    "Scan complete. Results written to: " + path
  }

  /** The command object: the two arrays filled by the walk and the two
      arrays of duplicates. */
  class DuplicateFinder {
    var classNames: Groups
    var fileNames: Groups
    var duplicateClasses: Groups
    var duplicateFiles: Groups

    constructor()
      ensures classNames == [] && fileNames == [] && duplicateClasses == [] && duplicateFiles == []
    {
      classNames := [];
      fileNames := [];
      duplicateClasses := [];
      duplicateFiles := [];
    }

    /** `processPhpFile`: the path goes under its file name, and under its
        class name when the content declares one. */
    method ProcessPhpFile(e: Entry)
      modifies this
      ensures fileNames == Record(old(fileNames), e, ByFile)
      ensures classNames == Record(old(classNames), e, ByClass)
      ensures duplicateClasses == old(duplicateClasses) && duplicateFiles == old(duplicateFiles)
    {
      fileNames := AddPath(fileNames, e.fileName, e.pathName);
      var name := ClassName(e.content);
      if name.Some? {
        classNames := AddPath(classNames, name.value, e.pathName);
      }
    }

    /** `scanDirectory`: every `.php` file of the walk, in walk order. */
    method ScanDirectory(entries: seq<Entry>)
      modifies this
      ensures fileNames == Recorded(old(fileNames), entries, ByFile)
      ensures classNames == Recorded(old(classNames), entries, ByClass)
      ensures duplicateClasses == old(duplicateClasses) && duplicateFiles == old(duplicateFiles)
    {
      for i := 0 to |entries|
        invariant fileNames == Recorded(old(fileNames), entries[..i], ByFile)
        invariant classNames == Recorded(old(classNames), entries[..i], ByClass)
        invariant duplicateClasses == old(duplicateClasses) && duplicateFiles == old(duplicateFiles)
      {
        assert entries[..i + 1][..i] == entries[..i];
        if entries[i].isFile && Extension(entries[i].fileName) == "php" {
          ProcessPhpFile(entries[i]);
        }
      }
      assert entries[..|entries|] == entries;
    }

    /** `findDuplicates`: copies every group of more than one path. */
    method FindDuplicates()
      modifies this
      ensures duplicateClasses == KeepDuplicates(old(duplicateClasses), classNames)
      ensures duplicateFiles == KeepDuplicates(old(duplicateFiles), fileNames)
      ensures classNames == old(classNames) && fileNames == old(fileNames)
    {
      for i := 0 to |classNames|
        invariant classNames == old(classNames) && fileNames == old(fileNames)
        invariant duplicateClasses == KeepDuplicates(old(duplicateClasses), classNames[..i])
        invariant duplicateFiles == old(duplicateFiles)
      {
        assert classNames[..i + 1][..i] == classNames[..i];
        var g := classNames[i];
        if |g.paths| > 1 {
          duplicateClasses := Put(duplicateClasses, g.name, g.paths);
        }
      }
      assert classNames[..|classNames|] == classNames;
      for i := 0 to |fileNames|
        invariant classNames == old(classNames) && fileNames == old(fileNames)
        invariant duplicateFiles == KeepDuplicates(old(duplicateFiles), fileNames[..i])
        invariant duplicateClasses == KeepDuplicates(old(duplicateClasses), classNames)
      {
        assert fileNames[..i + 1][..i] == fileNames[..i];
        var g := fileNames[i];
        if |g.paths| > 1 {
          duplicateFiles := Put(duplicateFiles, g.name, g.paths);
        }
      }
      assert fileNames[..|fileNames|] == fileNames;
    }

    /** `formatDuplicatesList`: one heading line per name, one line per path. */
    static method FormatDuplicatesList(items: Groups) returns (output: string)
      ensures output == FormatList(items)
    {
      output := "";
      for i := 0 to |items|
        invariant output == FormatList(items[..i])
      {
        assert items[..i + 1][..i] == items[..i];
        var before := output;
        output := output + NameLine(items[i].name);
        var paths := items[i].paths;
        for j := 0 to |paths|
          invariant output == before + NameLine(items[i].name) + FormatPaths(paths[..j])
        {
          assert paths[..j + 1][..j] == paths[..j];
          output := output + "    - " + paths[j] + "\n";
        }
        assert paths[..|paths|] == paths;
      }
      assert items[..|items|] == items;
    }

    /** `generateOutput`. */
    method GenerateOutput() returns (output: string)
      ensures output == Report(duplicateClasses, duplicateFiles)
    {
      if duplicateClasses == [] && duplicateFiles == [] {
        return NoDuplicatesMessage;
      }
      var classes := "";
      if duplicateClasses != [] {
        var list := FormatDuplicatesList(duplicateClasses);
        classes := ClassesHeading + list;
      }
      var files := "";
      if duplicateFiles != [] {
        var list := FormatDuplicatesList(duplicateFiles);
        files := FilesHeading + list;
      }
      output := classes + files;
    }

    /** `handle`: a missing folder ends the run with 1 before any scan;
        otherwise the report goes to the next numbered log file and the run
        ends with 0. `logDir` is `storage_path('logs')` and `logNames` its
        listing. */
    method Handle(folder: string, folderExists: bool, entries: seq<Entry>, logDir: string, logNames: seq<string>)
      returns (outcome: Outcome)
      modifies this
      ensures !folderExists ==>
        outcome == Outcome(1, None, [FolderNotFoundMessage(folder)]) && unchanged(this)
      ensures folderExists ==>
        fileNames == Recorded(old(fileNames), entries, ByFile)
        && classNames == Recorded(old(classNames), entries, ByClass)
        && duplicateClasses == KeepDuplicates(old(duplicateClasses), classNames)
        && duplicateFiles == KeepDuplicates(old(duplicateFiles), fileNames)
        && var path := LogPath(logDir, DuplicateScanPrefix, MaxIndex(logDir, DuplicateScanPrefix, logNames) + 1);
           outcome == Outcome(0, Some(LogFile(path, Report(duplicateClasses, duplicateFiles))),
                              [ScanCompleteMessage(path)])
    {
      if !folderExists {
        return Outcome(1, None, [FolderNotFoundMessage(folder)]);
      }
      outcome := ScanAndReport(entries, logDir, logNames);
    }

    /** `scanDirectory` followed by `findDuplicates`. */
    method ScanAndFind(entries: seq<Entry>)
      modifies this
      ensures fileNames == Recorded(old(fileNames), entries, ByFile)
      ensures classNames == Recorded(old(classNames), entries, ByClass)
      ensures duplicateClasses == KeepDuplicates(old(duplicateClasses), classNames)
      ensures duplicateFiles == KeepDuplicates(old(duplicateFiles), fileNames)
    {
      ScanDirectory(entries);
      FindDuplicates();
    }

    /** The part of `handle` after the folder check: scan, keep the
        duplicates, and write the report to the next numbered log file. */
    method ScanAndReport(entries: seq<Entry>, logDir: string, logNames: seq<string>) returns (outcome: Outcome)
      modifies this
      ensures fileNames == Recorded(old(fileNames), entries, ByFile)
      ensures classNames == Recorded(old(classNames), entries, ByClass)
      ensures duplicateClasses == KeepDuplicates(old(duplicateClasses), classNames)
      ensures duplicateFiles == KeepDuplicates(old(duplicateFiles), fileNames)
      ensures var path := LogPath(logDir, DuplicateScanPrefix, MaxIndex(logDir, DuplicateScanPrefix, logNames) + 1);
        outcome == Outcome(0, Some(LogFile(path, Report(duplicateClasses, duplicateFiles))), [ScanCompleteMessage(path)])
    {
      ScanAndFind(entries);
      var output := GenerateOutput();
      var next := NextLogFileIndex(logDir, DuplicateScanPrefix, logNames);
      var path := LogPath(logDir, DuplicateScanPrefix, next);
      outcome := Outcome(0, Some(LogFile(path, output)), [ScanCompleteMessage(path)]);
    }
  }

  /** The duplicates of a fresh run: a name is reported iff more than one
      `.php` file has it, with those files' paths in walk order. */
  lemma FreshRunDuplicates(entries: seq<Entry>, index: Index, name: string)
    ensures var gs := Recorded([], entries, index);
      var paths := PathsWithKey(entries, index, name);
      Lookup(KeepDuplicates([], gs), name) == (if |paths| > 1 then paths else [])
      && (HasName(KeepDuplicates([], gs), name) <==> |paths| > 1)
  {
    var gs := Recorded([], entries, index);
    RecordedUnique([], entries, index);
    RecordedGroupsByKey([], entries, index, name);
    KeepDuplicatesIsFilter(gs);
    DuplicatesLookup(gs, name);
  }
}
