/** `src/utils/file.util.ts`: reading, listing and writing files, and
    collecting script files from a scripts catalog. The file system is a
    value: a map from file paths to their contents and a map from directory
    paths to their entries. Paths are separated by `/`. */
module Files {
  import opened Wrappers
  import opened Strings
  import opened Scripts

  const Sep := '/'

  /** The two subdirectories of a scripts catalog. */
  const PreRequestDir := "pre-request"
  const TestDir := "test"

  /** One entry of a directory listing; `isFile` is false for directories
      and other non-regular entries. */
  datatype DirEntry = DirEntry(name: string, isFile: bool)

  datatype FileSystem = FileSystem(files: map<string, string>, dirs: map<string, seq<DirEntry>>)

  /** `a${sep}b`. */
  function PathJoin(a: string, b: string): (r: string)
    ensures |r| == |a| + 1 + |b| && r[|a|] == Sep && r[..|a|] == a && r[|a| + 1..] == b
  {
    a + [Sep] + b
  }

  /** `Exists`: an empty path exists nowhere; otherwise a file or a
      directory at that path. */
  predicate Exists(fs: FileSystem, path: string) {
    path != "" && (path in fs.files || path in fs.dirs)
  }

  /** `GetFile`: the contents of a file, or the empty text when the path is
      not a readable file (the error is only logged). */
  function GetFile(fs: FileSystem, path: string): (r: string)
    ensures path in fs.files ==> r == fs.files[path]
    ensures path !in fs.files ==> r == ""
  {
    if path in fs.files then fs.files[path] else ""
  }

  /** `Exists(p) ? GetFile(p) : ''`, the way script files are read. */
  function ReadIfExists(fs: FileSystem, path: string): string {
    if Exists(fs, path) then GetFile(fs, path) else ""
  }

  /** The existence check before reading changes nothing: a missing path
      reads as empty text either way. */
  lemma ReadIfExistsIsGetFile(fs: FileSystem, path: string)
    requires path != ""
    ensures ReadIfExists(fs, path) == GetFile(fs, path)
  {
  }

  /** Some regular file among the entries has this name. */
  predicate HasFile(entries: seq<DirEntry>, name: string) {
    exists j :: 0 <= j < |entries| && entries[j].isFile && entries[j].name == name
  }

  lemma HasFileTail(entries: seq<DirEntry>, name: string)
    requires entries != [] && HasFile(entries[1..], name)
    ensures HasFile(entries, name)
  {
    var j :| 0 <= j < |entries[1..]| && entries[1..][j].isFile && entries[1..][j].name == name;
    assert entries[j + 1] == entries[1..][j];
  }

  /** The names of the regular files among the entries, in listing order. */
  function FileNames(entries: seq<DirEntry>): (r: seq<string>)
    ensures |r| <= |entries|
    ensures forall i :: 0 <= i < |r| ==> HasFile(entries, r[i])
    ensures forall j :: 0 <= j < |entries| && entries[j].isFile ==> entries[j].name in r
  {
    if entries == [] then []
    else
      var rest := FileNames(entries[1..]);
      forall i | 0 <= i < |rest|
        ensures HasFile(entries, rest[i])
      {
        HasFileTail(entries, rest[i]);
      }
      assert forall j :: 1 <= j < |entries| ==> entries[j] == entries[1..][j - 1];
      (if entries[0].isFile then [entries[0].name] else []) + rest
  }

  /** `GetFileList`: the regular files of a directory. Listing a path that
      is not a directory throws. */
  function GetFileList(fs: FileSystem, dir: string): (r: Result<seq<string>>)
    ensures r.Ok? <==> dir != "" && dir in fs.dirs
    ensures r.Err? ==> r.error == NoDirectoryError(dir)
    ensures r.Ok? ==> r.value == FileNames(fs.dirs[dir])
  {
    if dir != "" && dir in fs.dirs then Ok(FileNames(fs.dirs[dir])) else Err(NoDirectoryError(dir))
  }

  function NoDirectoryError(dir: string): string {
    "ENOENT: no such file or directory, scandir '" + dir + "'"
  }

  /** The file names of both subdirectories without repeats: all test
      files, then the pre-request files that have no test file. */
  function MergeNames(test: seq<string>, preRequest: seq<string>): (r: seq<string>)
    ensures |r| >= |test| && r[..|test|] == test
    ensures forall i :: |test| <= i < |r| ==> r[i] in preRequest && r[i] !in test
  {
    test + PreRequestOnly(test, preRequest)
  }

  /** The pre-request names missing from the test list, in listing order. */
  function PreRequestOnly(test: seq<string>, preRequest: seq<string>): (r: seq<string>)
    ensures forall i :: 0 <= i < |r| ==> r[i] in preRequest && r[i] !in test
    ensures forall n :: n in preRequest && n !in test ==> n in r
  {
    if preRequest == [] then []
    else
      (if preRequest[0] !in test then [preRequest[0]] else []) + PreRequestOnly(test, preRequest[1..])
  }

  predicate NoRepeats(s: seq<string>) {
    forall i, j :: 0 <= i < j < |s| ==> s[i] != s[j]
  }

  /** Every name of either list is collected, and no other. */
  lemma MergeNamesCovers(test: seq<string>, preRequest: seq<string>)
    ensures forall n :: n in MergeNames(test, preRequest) <==> n in test || n in preRequest
  {
    var r := MergeNames(test, preRequest);
    forall n | n in r
      ensures n in test || n in preRequest
    {
      var i :| 0 <= i < |r| && r[i] == n;
      if i < |test| {
        assert r[..|test|][i] == n;
      }
    }
    forall n | n in test
      ensures n in r
    {
      var i :| 0 <= i < |test| && test[i] == n;
      assert r[i] == r[..|test|][i];
    }
  }

  /** A name listed in both directories is collected once. */
  lemma {:induction false} PreRequestOnlyNoRepeats(test: seq<string>, preRequest: seq<string>)
    requires NoRepeats(preRequest)
    ensures NoRepeats(PreRequestOnly(test, preRequest))
  {
    if preRequest != [] {
      var rest := PreRequestOnly(test, preRequest[1..]);
      assert NoRepeats(preRequest[1..]) by {
        forall i, j | 0 <= i < j < |preRequest[1..]|
          ensures preRequest[1..][i] != preRequest[1..][j]
        {
          assert preRequest[1..][i] == preRequest[i + 1] && preRequest[1..][j] == preRequest[j + 1];
        }
      }
      PreRequestOnlyNoRepeats(test, preRequest[1..]);
      assert preRequest[0] !in preRequest[1..];
      assert forall i :: 0 <= i < |rest| ==> rest[i] in preRequest[1..];
    }
  }

  /** Listings without repeats merge into a list without repeats. */
  lemma MergeNamesNoRepeats(test: seq<string>, preRequest: seq<string>)
    requires NoRepeats(test) && NoRepeats(preRequest)
    ensures NoRepeats(MergeNames(test, preRequest))
  {
    PreRequestOnlyNoRepeats(test, preRequest);
    var only := PreRequestOnly(test, preRequest);
    var r := MergeNames(test, preRequest);
    forall i, j | 0 <= i < j < |r|
      ensures r[i] != r[j]
    {
      if j >= |test| && i < |test| {
        assert r[i] == test[i];
        assert r[j] !in test;
      } else if i >= |test| {
        assert r[i] == only[i - |test|] && r[j] == only[j - |test|];
      }
    }
  }

  /** Position of the last occurrence of `c` in `s`, if any. */
  function LastIndexOf(s: string, c: char): (r: Option<nat>)
    ensures r.Some? ==> r.value < |s| && s[r.value] == c && c !in s[r.value + 1..]
    ensures r.None? <==> c !in s
  {
    if s == [] then None
    else if s[|s| - 1] == c then Some(|s| - 1)
    else
      var r := LastIndexOf(s[..|s| - 1], c);
      assert s == s[..|s| - 1] + [s[|s| - 1]];
      r
  }

  /** `path.parse(fileName).name` for a name without directory part: the
      name without its last extension. A name whose only dot is its first
      character, or the name `..`, has no extension. */
  function ParseName(fileName: string): (r: string)
  {
    match LastIndexOf(fileName, '.')
    case None => fileName
    case Some(d) => if d == 0 || fileName == ".." then fileName else fileName[..d]
  }

  /** A script file named after an endpoint gives the entry that endpoint's
      name: `ParseName` undoes appending `.js`. */
  lemma ParseNameJs(name: string)
    requires name != ""
    ensures ParseName(name + ".js") == name
  {
    var f := name + ".js";
    assert f[|name|] == '.' && f[|name| + 1..] == "js";
    assert '.' !in "js";
    assert LastIndexOf(f, '.') == Some(|name|) by {
      var s1 := f[..|f| - 1];
      assert s1 == name + ".j";
      assert LastIndexOf(f, '.') == LastIndexOf(s1, '.');
      assert LastIndexOf(s1, '.') == LastIndexOf(name + ".", '.') by {
        assert s1[..|s1| - 1] == name + ".";
      }
    }
    assert f != "..";
    assert f[..|name|] == name;
  }

  /** A name without a dot is its own name. */
  lemma ParseNameNoDot(fileName: string)
    requires '.' !in fileName
    ensures ParseName(fileName) == fileName
  {
  }

  /** `GetScriptsContent`: one entry per file name found in the `test` and
      `pre-request` subdirectories of the catalog, test names first. Each
      entry is named after the file without its extension and carries both
      files' contents, empty where a file is missing. Listing the `test`
      subdirectory first, a missing subdirectory throws. */
  function GetScriptsContent(fs: FileSystem, catalog: string): (r: Result<seq<Script>>)
    ensures GetFileList(fs, PathJoin(catalog, TestDir)).Err? ==> r == Err(NoDirectoryError(PathJoin(catalog, TestDir)))
    ensures GetFileList(fs, PathJoin(catalog, TestDir)).Ok? && GetFileList(fs, PathJoin(catalog, PreRequestDir)).Err? ==>
              r == Err(NoDirectoryError(PathJoin(catalog, PreRequestDir)))
    ensures r.Ok? <==> PathJoin(catalog, TestDir) in fs.dirs && PathJoin(catalog, PreRequestDir) in fs.dirs
    ensures r.Ok? ==>
              var names := MergeNames(FileNames(fs.dirs[PathJoin(catalog, TestDir)]),
                                      FileNames(fs.dirs[PathJoin(catalog, PreRequestDir)]));
              && |r.value| == |names|
              && forall i :: 0 <= i < |names| ==> r.value[i] == CatalogScript(fs, catalog, names[i])
  {
    var test :- GetFileList(fs, PathJoin(catalog, TestDir));
    var pre :- GetFileList(fs, PathJoin(catalog, PreRequestDir));
    var names := MergeNames(test, pre);
    Ok(seq(|names|, i requires 0 <= i < |names| => CatalogScript(fs, catalog, names[i])))
  }

  /** The entry of one script file name: named after the file without its
      extension, holding the contents of the pre-request and test files of
      that name, empty where one is missing. */
  function CatalogScript(fs: FileSystem, catalog: string, fileName: string): (r: Script)
    ensures r.normalizedName == ParseName(fileName)
    ensures r.preRequest == GetFile(fs, ScriptFilePath(catalog, PreRequestDir, fileName))
    ensures r.test == GetFile(fs, ScriptFilePath(catalog, TestDir, fileName))
  {
    var pre := ScriptFilePath(catalog, PreRequestDir, fileName);
    var test := ScriptFilePath(catalog, TestDir, fileName);
    ReadIfExistsIsGetFile(fs, pre);
    ReadIfExistsIsGetFile(fs, test);
    Script(ParseName(fileName), ReadIfExists(fs, pre), ReadIfExists(fs, test))
  }

  /** `<catalog>/<subdirectory>/<file>`. */
  function ScriptFilePath(catalog: string, subdir: string, fileName: string): (r: string)
    ensures r != ""
  {
    PathJoin(PathJoin(catalog, subdir), fileName)
  }

  /** The folder `WriteFile` creates before writing: the path up to its last
      separator, when it has one. */
  function MkdirTarget(path: string): (r: Option<string>)
    ensures r.Some? <==> Sep in path
  {
    var folders := Split(path, Sep);
    SplitCount(path, Sep);
    if |folders| > 1 then Some(Join(folders[..|folders| - 1], [Sep])) else None
  }

  /** `WriteFile`: the file at `path` holds `content` afterwards. */
  function WriteFile(fs: FileSystem, path: string, content: string): (r: FileSystem)
    ensures r.dirs == fs.dirs
  {
    fs.(files := fs.files[path := content])
  }

  /** Reading back what was written gives it back; other files are
      untouched. */
  lemma WriteFileRead(fs: FileSystem, path: string, content: string, other: string)
    ensures GetFile(WriteFile(fs, path, content), path) == content
    ensures other != path ==> GetFile(WriteFile(fs, path, content), other) == GetFile(fs, other)
  {
  }

  /** Splitting gives more than one piece exactly when the separator
      occurs. */
  lemma SplitCount(s: string, sep: char)
    ensures |Split(s, sep)| > 1 <==> sep in s
  {
  }

  /** The first occurrence is the one with no occurrence before it. */
  lemma IndexOfUnique(s: string, c: char, k: nat)
    requires k < |s| && s[k] == c && c !in s[..k]
    ensures IndexOf(s, c) == k
  {
  }

  /** Splitting at a separator between two texts splits each side. */
  lemma {:induction false} SplitAround(a: string, sep: char, b: string)
    ensures Split(a + [sep] + b, sep) == Split(a, sep) + Split(b, sep)
    decreases |a|
  {
    if sep !in a {
      SplitAroundFirst(a, sep, b);
    } else {
      var k := IndexOf(a, sep);
      SplitAround(a[k + 1..], sep, b);
      SplitAroundLater(a, sep, b, k);
    }
  }

  lemma SplitAroundFirst(a: string, sep: char, b: string)
    requires sep !in a
    ensures Split(a + [sep] + b, sep) == [a] + Split(b, sep)
  {
    var s := a + [sep] + b;
    IndexOfAfter(a, sep, b);
    assert s[..|a|] == a && s[|a| + 1..] == b;
  }

  lemma SplitAroundLater(a: string, sep: char, b: string, k: nat)
    requires sep in a && k == IndexOf(a, sep)
    requires Split(a[k + 1..] + [sep] + b, sep) == Split(a[k + 1..], sep) + Split(b, sep)
    ensures Split(a + [sep] + b, sep) == Split(a, sep) + Split(b, sep)
  {
    SplitShifted(a, sep, b, k);
    Regroup(Split(a + [sep] + b, sep), Split(a, sep), [a[..k]], Split(a[k + 1..], sep), Split(b, sep),
            Split(a[k + 1..] + [sep] + b, sep));
  }

  /** The first separator of `a` is also the first of `a + [sep] + b`. */
  lemma SplitShifted(a: string, sep: char, b: string, k: nat)
    requires sep in a && k == IndexOf(a, sep)
    ensures Split(a + [sep] + b, sep) == [a[..k]] + Split(a[k + 1..] + [sep] + b, sep)
  {
    var s := a + [sep] + b;
    assert s[k] == sep && s[..k] == a[..k];
    assert s[k + 1..] == a[k + 1..] + [sep] + b;
    SplitAt(s, sep, k);
  }

  /** Splitting at the first separator. */
  lemma SplitAt(s: string, sep: char, k: nat)
    requires k < |s| && s[k] == sep && sep !in s[..k]
    ensures Split(s, sep) == [s[..k]] + Split(s[k + 1..], sep)
  {
    IndexOfUnique(s, sep, k);
  }

  lemma Regroup<T>(whole: seq<T>, left: seq<T>, x: seq<T>, y: seq<T>, z: seq<T>, tail: seq<T>)
    requires whole == x + tail && tail == y + z && left == x + y
    ensures whole == left + z
  {
  }

  /** Joining the pieces of a split restores the text. */
  lemma {:induction false} JoinSplit(s: string, sep: char)
    ensures Join(Split(s, sep), [sep]) == s
    decreases |s|
  {
    if sep in s {
      var k := IndexOf(s, sep);
      JoinSplit(s[k + 1..], sep);
      var rest := Split(s[k + 1..], sep);
      assert Split(s, sep) == [s[..k]] + rest;
      assert s == s[..k] + [sep] + s[k + 1..];
    }
  }

  /** A file written into a folder creates exactly that folder. */
  lemma MkdirTargetOf(dir: string, name: string)
    requires Sep !in name
    ensures MkdirTarget(PathJoin(dir, name)) == Some(dir)
  {
    SplitAround(dir, Sep, name);
    var folders := Split(PathJoin(dir, name), Sep);
    assert folders == Split(dir, Sep) + [name];
    assert folders[..|folders| - 1] == Split(dir, Sep);
    JoinSplit(dir, Sep);
  }
}
