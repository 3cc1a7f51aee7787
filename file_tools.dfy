/** The path and name rules of Gui.py's file tools: the free name a copy
    gets, where rename and move put their target, and the folder/file
    listing. The file system is abstracted: `existing` is the set of names
    `n` for which `os.path.exists(join(destination, n))` holds, and `kind`
    classifies a directory's names as `isdir` / `isfile` do. */
module FileTools {
  import opened Wrappers
  import Text
  import Numerals
  import Paths
  import Entries
  import Sorting

  // ------------------------------------------------------------------- copy

  /** `f"{base}_copy{counter}{ext}"`. */
  function CopyName(base: string, counter: nat, ext: string): string {
    base + "_copy" + Numerals.Decimal(counter) + ext
  }

  /** Different counters give different names. */
  lemma CopyNameInjective(base: string, ext: string, j: nat, k: nat)
    requires CopyName(base, j, ext) == CopyName(base, k, ext)
    ensures j == k
  {
    var a, b := Numerals.Decimal(j), Numerals.Decimal(k);
    var p := base + "_copy";
    assert CopyName(base, j, ext) == p + a + ext && CopyName(base, k, ext) == p + b + ext;
    assert |a| == |b|;
    assert a == CopyName(base, j, ext)[|p|..|p| + |a|];
    assert b == CopyName(base, k, ext)[|p|..|p| + |b|];
    Numerals.DecimalInjective(j, k);
  }

  lemma CopyNameLonger(base: string, counter: nat, ext: string)
    ensures |CopyName(base, counter, ext)| > |base + ext|
  {
  }

  /** A copy name built from a name without '/' has no '/' either. */
  lemma CopyNameNoSlash(filename: string, counter: nat)
    requires '/' !in filename
    ensures '/' !in CopyName(Paths.SplitExt(filename).0, counter, Paths.SplitExt(filename).1)
  {
    var (base, ext) := Paths.SplitExt(filename);
    assert filename == base + ext;
    assert '/' !in base by { assert forall i :: 0 <= i < |base| ==> base[i] == filename[i]; }
    var d := Numerals.Decimal(counter);
    assert '/' !in d by { assert forall i :: 0 <= i < |d| ==> Numerals.IsDigit(d[i]); }
  }

  /** The duplicate-name loop of `copy_file`: keep the source's name when it
      is free, else try `base_copy1ext`, `base_copy2ext`, … and take the
      first that is free, `(base, ext)` being `splitext(filename)`. */
  method ChooseCopyName(filename: string, existing: set<string>) returns (name: string)
    ensures name !in existing
    ensures filename !in existing ==> name == filename
    ensures filename in existing ==>
      exists k: nat :: 1 <= k
        && name == CopyName(Paths.SplitExt(filename).0, k, Paths.SplitExt(filename).1)
        && forall j: nat :: 1 <= j < k ==> CopyName(Paths.SplitExt(filename).0, j, Paths.SplitExt(filename).1) in existing
    ensures Text.EndsWith(name, Paths.SplitExt(filename).1)
  {
    var (base, ext) := Paths.SplitExt(filename);
    name := filename;
    if name in existing {
      var counter := 1;
      ghost var tried: set<string> := {};
      while name in existing
        invariant counter >= 1
        invariant counter == 1 ==> name == filename
        invariant counter > 1 ==> name == CopyName(base, counter - 1, ext)
        invariant forall j: nat :: 1 <= j < counter - 1 ==> CopyName(base, j, ext) in existing
        invariant tried <= existing && |tried| == counter - 1
        invariant forall t :: t in tried ==> t == filename || exists j: nat :: 1 <= j < counter - 1 && t == CopyName(base, j, ext)
        invariant name !in tried
        decreases |existing| - |tried|
      {
        SubsetSize(tried + {name}, existing);
        tried := tried + {name};
        name := CopyName(base, counter, ext);
        counter := counter + 1;
        forall t | t in tried
          ensures t != name
        {
          if t == filename {
            CopyNameLonger(base, counter - 1, ext);
          } else {
            var j: nat :| 1 <= j < counter - 1 && t == CopyName(base, j, ext);
            if t == name { CopyNameInjective(base, ext, j, counter - 1); }
          }
        }
      }
    }
  }

  lemma {:induction false} SubsetSize(a: set<string>, b: set<string>)
    requires a <= b
    ensures |a| <= |b|
    decreases |a|
  {
    if a != {} {
      var x :| x in a;
      SubsetSize(a - {x}, b - {x});
    }
  }

  /** `copy_file`'s target path: `None` when either dialog was cancelled,
      else the destination joined to a name no entry there already has. */
  method CopyTarget(source: string, destination: string, existing: set<string>) returns (target: Option<string>)
    ensures target.None? <==> source == "" || destination == ""
    ensures target.Some? ==> Paths.Basename(target.value) !in existing
    ensures target.Some? && Paths.NormalDir(destination) ==> Paths.Dirname(target.value) == destination
    ensures target.Some? && Paths.Basename(source) !in existing ==>
              Paths.Basename(target.value) == Paths.Basename(source)
  {
    if source == "" || destination == "" {
      return None;
    }
    var filename := Paths.Basename(source);
    var name := ChooseCopyName(filename, existing);
    assert '/' !in name by {
      if filename in existing {
        var k: nat :| 1 <= k && name == CopyName(Paths.SplitExt(filename).0, k, Paths.SplitExt(filename).1);
        CopyNameNoSlash(filename, k);
      }
    }
    var path := Paths.Join(destination, name);
    Paths.BasenameOfJoin(destination, name);
    if Paths.NormalDir(destination) {
      Paths.DirnameOfJoin(destination, name);
    }
    return Some(path);
  }

  // ---------------------------------------------------------- rename, move

  /** The entry `rename_file` renames: the file picked, or when that dialog
      was cancelled the folder picked instead (`""` when both were). */
  function RenamedEntry(pickedFile: string, pickedFolder: string): string {
    if pickedFile != "" then pickedFile else pickedFolder
  }

  /** `rename_file`'s new path: `None` exactly when neither dialog picked an
      entry, the name dialog was cancelled or the new name is empty;
      otherwise a name without '/' lands in the directory of the renamed
      entry, under the new name. */
  function RenameTarget(pickedFile: string, pickedFolder: string, newName: string, ok: bool): (r: Option<string>)
    ensures r.None? <==> (pickedFile == "" && pickedFolder == "") || !ok || newName == ""
    ensures r.Some? && '/' !in newName ==>
              Paths.Dirname(r.value) == Paths.Dirname(RenamedEntry(pickedFile, pickedFolder))
              && Paths.Basename(r.value) == newName
  {
    var filepath := RenamedEntry(pickedFile, pickedFolder);
    if filepath == "" || !ok || newName == "" then None
    else
      var directory := Paths.Dirname(filepath);
      if '/' in newName then Some(Paths.Join(directory, newName))
      else
        Paths.DirnameOfJoin(directory, newName);
        Paths.BasenameOfJoin(directory, newName);
        Some(Paths.Join(directory, newName))
  }

  /** `move_file`'s target path: `None` exactly when either dialog was
      cancelled; otherwise the moved entry keeps its name and, for a
      destination as the folder dialog returns it, lands directly in the
      destination. */
  function MoveTarget(source: string, destination: string): (r: Option<string>)
    ensures r.None? <==> source == "" || destination == ""
    ensures r.Some? ==> Paths.Basename(r.value) == Paths.Basename(source)
    ensures r.Some? && Paths.NormalDir(destination) ==> Paths.Dirname(r.value) == destination
  {
    if source == "" || destination == "" then None
    else
      var name := Paths.Basename(source);
      Paths.BasenameOfJoin(destination, name);
      if Paths.NormalDir(destination) then
        Paths.DirnameOfJoin(destination, name);
        Some(Paths.Join(destination, name))
      else Some(Paths.Join(destination, name))
  }

  // ------------------------------------------------------- list_directory

  /** What `list_directory` prints: both lists in sorted order, each under its count. */
  datatype DirectoryReport = DirectoryReport(folders: seq<string>, files: seq<string>,
                                             folderCount: nat, fileCount: nat)

  /** `list_directory`'s outcomes: the dialog cancelled, `os.listdir` raised, or a report. */
  datatype DirectoryOutcome = Cancelled | Failed | Listed(report: DirectoryReport)

  /** The folders and files of `items`, sorted, with `len` of each comprehension. */
  function Report(items: seq<string>, kind: map<string, Entries.Kind>): (r: DirectoryReport)
    ensures r.folderCount == |r.folders| && r.fileCount == |r.files|
    ensures Sorting.Sorted(r.folders) && Sorting.Sorted(r.files)
    ensures multiset(r.folders) == multiset(Entries.Folders(items, kind))
    ensures multiset(r.files) == multiset(Entries.Files(items, kind))
  {
    var folders, files := Entries.Folders(items, kind), Entries.Files(items, kind);
    var sortedFolders, sortedFiles := Sorting.Sort(folders), Sorting.Sort(files);
    assert |multiset(sortedFolders)| == |multiset(folders)|;
    assert |multiset(sortedFiles)| == |multiset(files)|;
    DirectoryReport(sortedFolders, sortedFiles, |folders|, |files|)
  }

  /** `list_directory(directory)` on the listing `os.listdir` returned (`None` when it raised). */
  function ListDirectory(directory: string, listing: Option<seq<string>>, kind: map<string, Entries.Kind>): (r: DirectoryOutcome)
    ensures r.Cancelled? <==> directory == ""
    ensures r.Failed? <==> directory != "" && listing.None?
    ensures r.Listed? ==> r.report == Report(listing.value, kind)
  {
    if directory == "" then Cancelled
    else if listing.None? then Failed
    else Listed(Report(listing.value, kind))
  }

  /** The report lists exactly the listed folders and exactly the listed
      files, and no name in both. */
  lemma ReportExactly(items: seq<string>, kind: map<string, Entries.Kind>, x: string)
    ensures x in Report(items, kind).folders <==> x in items && Entries.KindOf(kind, x) == Entries.Directory
    ensures x in Report(items, kind).files <==> x in items && Entries.KindOf(kind, x) == Entries.RegularFile
    ensures !(x in Report(items, kind).folders && x in Report(items, kind).files)
  {
    var r := Report(items, kind);
    assert x in r.folders <==> x in multiset(r.folders);
    assert x in r.files <==> x in multiset(r.files);
    Entries.SelectExactly(items, kind, Entries.Directory, x);
    Entries.SelectExactly(items, kind, Entries.RegularFile, x);
  }
}
