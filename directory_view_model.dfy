/**
 * DirectoryViewModel.kt: the browser in which the user picks the music roots. It keeps the
 * directory being shown, lists its parent and its subdirectories, marks every entry by how it
 * stands to the selected roots, and adds roots to or removes them from the
 * `selected_directory` table.
 */
module DirectoryBrowser {
  import opened Wrappers
  import opened Seqs
  import opened Paths
  import SD = SelectedDirectories
  import opened Database

  /** `DirNameType`: which name an entry shows (Kotlin's `Parent`, `DirName` and `Path`). */
  datatype NameType = ParentLink | DirName | FullPath

  /**
   * `DirContain`: the entry is a selected root (`Contained`), lies under one (Kotlin's
   * `Parent`, here `UnderSelected`), or neither.
   */
  datatype DirContain = UnContained | Contained | UnderSelected

  /** `DirContain.isContained`. */
  predicate IsContained(c: DirContain) {
    c != UnContained
  }

  /** `Directory`: a listed directory, the kind of name it shows, and how it stands to the roots. */
  datatype Directory = Directory(value: Path, nameType: NameType, contained: DirContain)

  /** `Directory.displayName`. */
  function DisplayName(d: Directory): string {
    match d.nameType
    case ParentLink => ".."
    case DirName => Name(d.value)
    case FullPath => PathString(d.value)
  }

  /**
   * The shown name identifies the directory: a full path parses back to it, and a plain name
   * is the last component, which the parent extends to the directory.
   */
  lemma DisplayNameIdentifies(d: Directory)
    requires AllSegments(d.value)
    ensures d.nameType == ParentLink ==> DisplayName(d) == ".."
    ensures d.nameType == FullPath ==> Split(DisplayName(d)) == d.value
    ensures d.nameType == DirName && d.value != [] ==> Parent(d.value).value + [DisplayName(d)] == d.value && Segment(DisplayName(d))
  {
    if d.nameType == FullPath {
      ParsePathString(d.value);
    }
  }

  /** `selectedDirectories.firstOrNull { path.startsWith(it.directory) }`, as an index (`|selected|` for none). */
  function FirstAncestor(selected: seq<SD.SelectedDirectory>, p: Path): (k: nat)
    ensures k <= |selected|
    ensures forall j :: 0 <= j < k ==> !StartsWith(p, selected[j].directory)
    ensures k < |selected| ==> StartsWith(p, selected[k].directory)
  {
    if selected == [] then 0
    else if StartsWith(p, selected[0].directory) then 0
    else 1 + FirstAncestor(selected[1..], p)
  }

  /**
   * The classification `createDirectory` gives the (absolute) path `p`, decided by the first
   * selected root that is an ancestor-or-self of `p`, component by component.
   */
  function Classify(p: Path, selected: seq<SD.SelectedDirectory>): DirContain {
    var k := FirstAncestor(selected, p);
    if k == |selected| then UnContained
    else if selected[k].directory == p then Contained
    else UnderSelected
  }

  /**
   * What the classification means: no selected root above or at `p` gives `UnContained`;
   * otherwise the first such root in table order decides, `Contained` when it is `p` itself
   * and `UnderSelected` when it is a strict ancestor. `isContained` holds exactly when some
   * selected root is an ancestor-or-self of `p`.
   */
  lemma ClassifySpec(p: Path, selected: seq<SD.SelectedDirectory>)
    ensures Classify(p, selected) == UnContained <==> forall s :: s in selected ==> !StartsWith(p, s.directory)
    ensures Classify(p, selected) == Contained <==>
      exists i :: 0 <= i < |selected| && selected[i].directory == p && forall j :: 0 <= j < i ==> !StartsWith(p, selected[j].directory)
    ensures Classify(p, selected) == UnderSelected <==>
      exists i :: 0 <= i < |selected| && StartsWith(p, selected[i].directory) && selected[i].directory != p
        && forall j :: 0 <= j < i ==> !StartsWith(p, selected[j].directory)
    ensures IsContained(Classify(p, selected)) <==> exists s :: s in selected && StartsWith(p, s.directory)
  {
    var k := FirstAncestor(selected, p);
    if k < |selected| {
      assert selected[k] in selected;
      forall i | 0 <= i < |selected| && StartsWith(p, selected[i].directory) && forall j :: 0 <= j < i ==> !StartsWith(p, selected[j].directory)
        ensures i == k
      {
      }
    } else {
      forall s | s in selected ensures !StartsWith(p, s.directory) {
        var j :| 0 <= j < |selected| && selected[j] == s;
      }
    }
  }

  /** Everything at or below a selected root counts as contained. */
  lemma UnderRootIsContained(p: Path, selected: seq<SD.SelectedDirectory>, root: SD.SelectedDirectory)
    requires root in selected && StartsWith(p, root.directory)
    ensures IsContained(Classify(p, selected))
  {
    ClassifySpec(p, selected);
  }

  /** A selected root below another selected root shows as `UnderSelected` when the upper one comes first. */
  lemma NestedRootShowsUnder()
    ensures Classify(["m", "a"], [SD.SelectedDirectory(1, ["m"]), SD.SelectedDirectory(2, ["m", "a"])]) == UnderSelected
  {
    assert StartsWith(["m", "a"], ["m"]);
  }

  /** The entries for the paths `paths`, each showing the name kind `nameType`, in order. */
  function Classified(paths: seq<Path>, nameType: NameType, selected: seq<SD.SelectedDirectory>): (r: seq<Directory>)
    ensures |r| == |paths|
    ensures forall i :: 0 <= i < |paths| ==> r[i] == Directory(paths[i], nameType, Classify(paths[i], selected))
    decreases |paths|
  {
    if paths == [] then []
    else Classified(paths[..|paths| - 1], nameType, selected) + [Directory(paths[|paths| - 1], nameType, Classify(paths[|paths| - 1], selected))]
  }

  /**
   * The list `getDirectories(dir)` builds: a ".." entry for the parent when there is one,
   * then the subdirectories `subs` (null when `dir` cannot be listed) in listing order.
   */
  function BrowseEntries(dir: Path, subs: Option<seq<Path>>, selected: seq<SD.SelectedDirectory>): seq<Directory> {
    (if dir == [] then [] else [Directory(Parent(dir).value, ParentLink, Classify(Parent(dir).value, selected))])
      + Classified(subs.GetOr([]), DirName, selected)
  }

  /**
   * The order and content of the browser list: ".." for the parent first exactly when `dir`
   * has a parent, then one `DirName` entry per listed subdirectory, in listing order, each
   * classified against the selected roots. The list is empty only for the root when it lists
   * no subdirectory, which is when the device roots are shown instead.
   */
  lemma {:induction false} BrowseEntriesSpec(dir: Path, subs: Option<seq<Path>>, selected: seq<SD.SelectedDirectory>)
    ensures var e := BrowseEntries(dir, subs, selected);
      var off := if dir == [] then 0 else 1;
      && |e| == off + |subs.GetOr([])|
      && (dir != [] ==> DisplayName(e[0]) == ".." && e[0].value + [Name(dir)] == dir)
      && (forall i :: 0 <= i < |subs.GetOr([])| ==> e[off + i].value == subs.value[i] && e[off + i].nameType == DirName)
      && (forall x :: x in e ==> x.contained == Classify(x.value, selected))
      && (e == [] <==> dir == [] && subs.GetOr([]) == [])
  {
    var e := BrowseEntries(dir, subs, selected);
    var c := Classified(subs.GetOr([]), DirName, selected);
    var off := if dir == [] then 0 else 1;
    forall x | x in e ensures x.contained == Classify(x.value, selected) {
      var i :| 0 <= i < |e| && e[i] == x;
      if i >= off {
        assert x == c[i - off];
      }
    }
  }

  /**
   * The table after `selectDirectory(dir)`: the rows whose path string starts with that of
   * `dir` are deleted, then `dir` is inserted with the next id, at the end of the table.
   */
  function SelectRoot(rows: seq<SD.SelectedDirectory>, dir: Path, nextId: int): seq<SD.SelectedDirectory> {
    SD.Insert(SD.DeleteContain(rows, dir), [dir], nextId)
  }

  /**
   * Selecting a root keeps the table's invariant, keeps in order the rows `LIKE` does not
   * take for `dir` or below it, and appends `dir`; afterwards `dir` is selected once and no
   * other selected path has `dir`'s string as a prefix.
   */
  lemma SelectRootSpec(rows: seq<SD.SelectedDirectory>, dir: Path, nextId: int)
    requires SD.Valid(rows, nextId)
    ensures SelectRoot(rows, dir, nextId) == SD.DeleteContain(rows, dir) + [SD.SelectedDirectory(nextId, dir)]
    ensures SD.Valid(SelectRoot(rows, dir, nextId), nextId + 1)
    ensures forall x :: x in SelectRoot(rows, dir, nextId) <==> x == SD.SelectedDirectory(nextId, dir) || (x in rows && !Like(x.directory, dir))
    ensures forall x :: x in SelectRoot(rows, dir, nextId) && x.directory == dir ==> x.id == nextId
    ensures forall x :: x in SelectRoot(rows, dir, nextId) && x.directory != dir ==> !Like(x.directory, dir)
  {
    var kept := SD.DeleteContain(rows, dir);
    var row := SD.SelectedDirectory(nextId, dir);
    SD.DeleteContainSpec(rows, nextId, dir);
    assert Like(dir, dir);
    InsertAbsent(kept, row);
    assert SelectRoot(rows, dir, nextId) == SD.Insert(kept + [row], [], nextId + 1);
    SD.InsertSpec(kept, [dir], nextId);
  }

  /** Inserting a path no row holds appends its row. */
  lemma InsertAbsent(kept: seq<SD.SelectedDirectory>, row: SD.SelectedDirectory)
    requires forall x :: x in kept ==> x.directory != row.directory
    ensures SD.Insert(kept, [row.directory], row.id) == kept + [row]
  {
    ReplaceByKeyAbsent(SD.DirectoryOf, kept, row);
    assert [row.directory][1..] == [];
  }

  /**
   * After selecting `dir`, `dir` shows as a root (`Contained`) unless a strict ancestor of
   * it was already selected, in which case it shows as `UnderSelected`; everything at or
   * below `dir` counts as contained.
   */
  lemma SelectRootClassifies(rows: seq<SD.SelectedDirectory>, dir: Path, nextId: int)
    requires SD.Valid(rows, nextId) && AllSegments(dir)
    ensures var after := SelectRoot(rows, dir, nextId);
      && Classify(dir, after) == (if exists s :: s in rows && StartsWith(dir, s.directory) && s.directory != dir then UnderSelected else Contained)
      && forall p :: StartsWith(p, dir) ==> IsContained(Classify(p, after))
  {
    var kept := SD.DeleteContain(rows, dir);
    var row := SD.SelectedDirectory(nextId, dir);
    SelectRootSpec(rows, dir, nextId);
    SD.DeleteContainSpec(rows, nextId, dir);
    ClassifyAppended(kept, row);
    var above := exists s :: s in rows && StartsWith(dir, s.directory) && s.directory != dir;
    var keptAbove := exists s :: s in kept && StartsWith(dir, s.directory);
    if above {
      var s :| s in rows && StartsWith(dir, s.directory) && s.directory != dir;
      StrictAncestorNotLike(s.directory, dir);
      assert s in kept;
    }
    assert keptAbove ==> above;
    forall p | StartsWith(p, dir) ensures IsContained(Classify(p, kept + [row])) {
      UnderRootIsContained(p, kept + [row], row);
    }
  }

  /** A row for `row.directory` appended to rows that hold none decides that path: it is a root unless an earlier row is above it. */
  lemma ClassifyAppended(kept: seq<SD.SelectedDirectory>, row: SD.SelectedDirectory)
    requires forall x :: x in kept ==> x.directory != row.directory
    ensures Classify(row.directory, kept + [row]) == if exists s :: s in kept && StartsWith(row.directory, s.directory) then UnderSelected else Contained
  {
    var dir := row.directory;
    var after := kept + [row];
    var k := FirstAncestor(after, dir);
    assert StartsWith(dir, after[|kept|].directory);
    if exists s :: s in kept && StartsWith(dir, s.directory) {
      var s :| s in kept && StartsWith(dir, s.directory);
      var i :| 0 <= i < |kept| && kept[i] == s;
      assert after[i] == s;
      assert after[k] in kept;
    } else {
      forall j | 0 <= j < |kept| ensures !StartsWith(dir, after[j].directory) {
        assert after[j] == kept[j] && kept[j] in kept;
      }
    }
  }

  /** `selectedDirectories.value.find { dir.toPath().isSameFileAs(it.directory) }`. */
  function FindSame(rows: seq<SD.SelectedDirectory>, dir: Path): (r: Option<SD.SelectedDirectory>)
    ensures r.None? <==> forall x :: x in rows ==> x.directory != dir
    ensures r.Some? ==> r.value in rows && r.value.directory == dir
  {
    if rows == [] then None
    else if rows[0].directory == dir then Some(rows[0])
    else FindSame(rows[1..], dir)
  }

  /** The table after `deleteDirectory(dir)`: the row found for `dir` is deleted by key, if there is one. */
  function UnselectRoot(rows: seq<SD.SelectedDirectory>, dir: Path): seq<SD.SelectedDirectory> {
    match FindSame(rows, dir)
    case None => rows
    case Some(sd) => SD.DeleteRows(rows, [sd])
  }

  /** Removing a root keeps the invariant and removes exactly the row for that path; every other row stays. */
  lemma UnselectRootSpec(rows: seq<SD.SelectedDirectory>, nextId: int, dir: Path)
    requires SD.Valid(rows, nextId)
    ensures SD.Valid(UnselectRoot(rows, dir), nextId)
    ensures forall x :: x in UnselectRoot(rows, dir) <==> x in rows && x.directory != dir
  {
    var found := FindSame(rows, dir);
    if found.Some? {
      var sd := found.value;
      SD.DeleteRowsSpec(rows, nextId, [sd]);
      forall x | x in rows ensures x.id == sd.id <==> x == sd {
        if x.id == sd.id {
          var i :| 0 <= i < |rows| && rows[i] == x;
          var j :| 0 <= j < |rows| && rows[j] == sd;
          assert i == j;
        }
      }
      forall x | x in rows ensures x == sd <==> x.directory == dir {
        if x.directory == dir {
          var i :| 0 <= i < |rows| && rows[i] == x;
          var j :| 0 <= j < |rows| && rows[j] == sd;
          assert i == j;
        }
      }
    }
  }

  class DirectoryViewModel {
    const db: AppDatabase
    /** `File.isDirectory` of every path. */
    const isDirectory: Path -> bool
    /** `dir.listFiles { it.isDirectory }`: the subdirectories of a path in listing order, or null. */
    const listing: Path -> Option<seq<Path>>
    /** The directories of the device's storage volumes, which `initDirectories` lists. */
    const deviceRoots: seq<Path>
    /** `_directory`: the directory being shown. */
    var directory: Path

    /** Starts at the default start directory, replaced by the saved start directory when there is one (lines 31, 40-45). */
    constructor (db: AppDatabase, isDirectory: Path -> bool, listing: Path -> Option<seq<Path>>, deviceRoots: seq<Path>,
                 defaultStart: Path, savedStart: Option<Path>)
      ensures this.db == db && this.isDirectory == isDirectory && this.listing == listing && this.deviceRoots == deviceRoots
      ensures directory == savedStart.GetOr(defaultStart)
    {
      this.db := db;
      this.isDirectory := isDirectory;
      this.listing := listing;
      this.deviceRoots := deviceRoots;
      directory := savedStart.GetOr(defaultStart);
    }

    /** `changeDirectory`: only a directory can be shown; anything else leaves the browser where it is. */
    method ChangeDirectory(dir: Path)
      modifies this
      ensures directory == if isDirectory(dir) then dir else old(directory)
    {
      if !isDirectory(dir) {
        return;
      }
      directory := dir;
    }

    /** `selectDirectory`: a directory replaces every selected row under its path string, then is inserted. */
    method SelectDirectory(dir: Path)
      requires db.Valid()
      modifies db
      ensures db.Valid()
      ensures db.selected == if isDirectory(dir) then SelectRoot(old(db.selected), dir, old(db.nextSelectedId)) else old(db.selected)
      ensures db.directories == old(db.directories) && db.files == old(db.files)
    {
      if !isDirectory(dir) {
        return;
      }
      db.DeleteContainDirectory(dir);
      db.InsertSelected([dir]);
    }

    /** `deleteDirectory`: the selected row for the same path, if any, is deleted. */
    method DeleteDirectory(dir: Path)
      requires db.Valid()
      modifies db
      ensures db.Valid()
      ensures db.selected == UnselectRoot(old(db.selected), dir)
      ensures db.directories == old(db.directories) && db.files == old(db.files)
    {
      var selected := db.GetAllDirectory();
      var sd := FindSame(selected, dir);
      if sd.Some? {
        db.DeleteSelected([sd.value]);
      }
    }

    /** `createDirectory`: `c` starts `UnContained` and the first selected ancestor-or-self decides it. */
    method CreateDirectory(value: Path, nameType: NameType) returns (d: Directory)
      ensures d == Directory(value, nameType, Classify(value, db.selected))
    {
      var c := UnContained;
      var selected := db.GetAllDirectory();
      var k := FirstAncestor(selected, value);
      if k < |selected| {
        c := if selected[k].directory == value then Contained else UnderSelected;
      }
      d := Directory(value, nameType, c);
    }

    /** `getDirectories(dir)`: the ".." entry first when `dir` has a parent, then each listed subdirectory. */
    method GetDirectories(dir: Path) returns (dirs: seq<Directory>)
      ensures dirs == BrowseEntries(dir, listing(dir), db.selected)
    {
      dirs := [];
      var parent := Parent(dir);
      if parent.Some? {
        var d := CreateDirectory(parent.value, ParentLink);
        dirs := dirs + [d];
      }
      var subs := listing(dir).GetOr([]);
      ghost var head := dirs;
      for i := 0 to |subs|
        invariant dirs == head + Classified(subs[..i], DirName, db.selected)
      {
        var d := CreateDirectory(subs[i], DirName);
        assert subs[..i + 1][..i] == subs[..i];
        dirs := dirs + [d];
      }
      assert subs[..|subs|] == subs;
    }

    /** `initDirectories` (Android 11 and later): one full-path entry per storage volume. */
    method InitDirectories() returns (dirs: seq<Directory>)
      ensures dirs == Classified(deviceRoots, FullPath, db.selected)
    {
      dirs := [];
      for i := 0 to |deviceRoots|
        invariant dirs == Classified(deviceRoots[..i], FullPath, db.selected)
      {
        var d := CreateDirectory(deviceRoots[i], FullPath);
        assert deviceRoots[..i + 1][..i] == deviceRoots[..i];
        dirs := dirs + [d];
      }
      assert deviceRoots[..|deviceRoots|] == deviceRoots;
    }

    /** `directories` (lines 34-38): the browser list of the current directory, or the device roots when it is empty. */
    method Directories() returns (dirs: seq<Directory>)
      ensures var e := BrowseEntries(directory, listing(directory), db.selected);
        dirs == if e == [] then Classified(deviceRoots, FullPath, db.selected) else e
    {
      dirs := GetDirectories(directory);
      if dirs == [] {
        dirs := InitDirectories();
      }
    }
  }
}
