/**
 * The three Room tables of the app held in memory, with the DAO operations of
 * MusicDirectory.kt, MusicFile.kt and SelectedDirectory.kt as methods. The
 * `AUTOINCREMENT` counters are fields, and the foreign key from `music_file.directory_id`
 * to `music_directory.id` with `ON DELETE CASCADE` is part of the invariant.
 */
module Database {
  import opened Wrappers
  import opened Ints
  import opened Seqs
  import opened Paths
  import opened Converter
  import MD = MusicDirectories
  import MF = MusicFiles
  import SD = SelectedDirectories

  class AppDatabase {
    var selected: seq<SD.SelectedDirectory>
    var directories: seq<MD.MusicDirectory>
    var files: seq<MF.MusicFile>
    var nextSelectedId: int
    var nextDirectoryId: int
    var nextFileId: int

    /** Each table keeps its own invariant, and every file names a live directory row. */
    ghost predicate Valid()
      reads this
    {
      && SD.Valid(selected, nextSelectedId)
      && MD.Valid(directories, nextDirectoryId)
      && MF.Valid(files, nextFileId)
      && forall f :: f in files ==> f.directoryId in MD.Ids(directories)
    }

    constructor ()
      ensures Valid()
      ensures selected == [] && directories == [] && files == []
    {
      selected, directories, files := [], [], [];
      nextSelectedId, nextDirectoryId, nextFileId := 1, 1, 1;
    }

    /** `ON DELETE CASCADE` after the directory table changed: the files whose directory is gone go too. */
    lemma CascadeValid(oldFiles: seq<MF.MusicFile>)
      requires SD.Valid(selected, nextSelectedId) && MD.Valid(directories, nextDirectoryId)
      requires MF.Valid(oldFiles, nextFileId) && files == MF.Cascade(oldFiles, MD.Ids(directories))
      ensures Valid()
    {
      MF.CascadeSpec(oldFiles, nextFileId, MD.Ids(directories));
    }

    /**
     * `MusicDirectoryDao.insert` with REPLACE: the row takes the next id, which is returned,
     * replaces any row for the same directory, and the replaced row's files are cascaded away.
     */
    method InsertMusicDirectory(directory: Path, lastScannedAt: Instant) returns (id: int)
      requires Valid()
      modifies this
      ensures Valid()
      ensures id == old(nextDirectoryId) && nextDirectoryId == id + 1
      ensures directories == MD.Upsert(old(directories), MD.MusicDirectory(id, directory, StoredSeconds(lastScannedAt)))
      ensures MD.MusicDirectory(id, directory, StoredSeconds(lastScannedAt)) in directories
      ensures forall x :: x in directories && x.directory == directory ==> x.id == id
      ensures forall x :: x in old(directories) && x.directory != directory ==> x in directories
      ensures forall x :: x in directories ==> x in old(directories) || x == MD.MusicDirectory(id, directory, StoredSeconds(lastScannedAt))
      ensures files == MF.Cascade(old(files), MD.Ids(directories))
      ensures forall f :: f in old(files) && (exists x :: x in old(directories) && x.directory != directory && x.id == f.directoryId) ==> f in files
      ensures selected == old(selected) && nextSelectedId == old(nextSelectedId) && nextFileId == old(nextFileId)
    {
      id := nextDirectoryId;
      var row := MD.MusicDirectory(id, directory, StoredSeconds(lastScannedAt));
      MD.UpsertSpec(directories, id, directory, StoredSeconds(lastScannedAt));
      var oldFiles := files;
      directories := MD.Upsert(directories, row);
      nextDirectoryId := id + 1;
      files := MF.Cascade(files, MD.Ids(directories));
      CascadeValid(oldFiles);
    }

    /** `MusicDirectoryDao.deleteAll`; the cascade empties the file table as well. */
    method DeleteAllMusicDirectories()
      requires Valid()
      modifies this
      ensures Valid()
      ensures directories == [] && files == []
      ensures selected == old(selected) && nextSelectedId == old(nextSelectedId)
      ensures nextDirectoryId == old(nextDirectoryId) && nextFileId == old(nextFileId)
    {
      directories := [];
      files := [];
    }

    /** `MusicDirectoryDao.getAllDirectories`. */
    method GetAllDirectories() returns (rows: seq<MD.MusicDirectory>)
      ensures rows == directories
    {
      rows := directories;
    }

    /** `MusicDirectoryDao.getContainDirectories`: the rows whose path string starts with that of `dir`. */
    method GetContainDirectories(dir: Path) returns (rows: seq<MD.MusicDirectory>)
      ensures forall r :: r in rows <==> r in directories && HasPrefix(PathString(r.directory), PathString(dir))
      ensures forall r :: r in directories && StartsWith(r.directory, dir) ==> r in rows
      ensures |rows| <= |directories|
    {
      rows := MD.ContainDirectories(directories, dir);
      MD.ContainDirectoriesSpec(directories, dir);
    }

    /**
     * `MusicDirectoryDao.deleteContainDirectoriesScannedBefore`: `time` is compared in its
     * stored form, whole epoch seconds; the files of deleted rows are cascaded away.
     */
    method DeleteContainDirectoriesScannedBefore(dir: Path, time: Instant)
      requires Valid()
      modifies this
      ensures Valid()
      ensures directories == MD.DeleteScannedBefore(old(directories), dir, StoredSeconds(time))
      ensures forall x :: x in directories <==> x in old(directories) && !(Like(x.directory, dir) && x.lastScannedAt < StoredSeconds(time))
      ensures files == MF.Cascade(old(files), MD.Ids(directories))
      ensures selected == old(selected) && nextSelectedId == old(nextSelectedId)
      ensures nextDirectoryId == old(nextDirectoryId) && nextFileId == old(nextFileId)
    {
      MD.DeleteScannedBeforeSpec(directories, nextDirectoryId, dir, StoredSeconds(time));
      var oldFiles := files;
      directories := MD.DeleteScannedBefore(directories, dir, StoredSeconds(time));
      files := MF.Cascade(files, MD.Ids(directories));
      CascadeValid(oldFiles);
    }

    /**
     * `MusicFileDao.insert`: the rows get the next ids in order. A row naming no live
     * directory violates the foreign key and the whole call fails, changing nothing.
     */
    method InsertMusicFiles(newFiles: seq<MF.MusicFile>) returns (ok: bool)
      requires Valid()
      modifies this
      ensures Valid()
      ensures ok <==> forall f :: f in newFiles ==> f.directoryId in MD.Ids(directories)
      ensures ok ==> files == old(files) + MF.Numbered(newFiles, old(nextFileId)) && nextFileId == old(nextFileId) + |newFiles|
      ensures !ok ==> files == old(files) && nextFileId == old(nextFileId)
      ensures directories == old(directories) && selected == old(selected)
      ensures nextDirectoryId == old(nextDirectoryId) && nextSelectedId == old(nextSelectedId)
    {
      ok := forall f :: f in newFiles ==> f.directoryId in MD.Ids(directories);
      if ok {
        MF.AppendValid(files, nextFileId, newFiles);
        var numbered := MF.Numbered(newFiles, nextFileId);
        forall f | f in numbered ensures f.directoryId in MD.Ids(directories) {
          var i :| 0 <= i < |numbered| && numbered[i] == f;
          assert newFiles[i] in newFiles;
        }
        files := files + numbered;
        nextFileId := nextFileId + |newFiles|;
      }
    }

    /** `MusicFileDao.deleteDirectoryId`. */
    method DeleteDirectoryId(dId: Int32)
      requires Valid()
      modifies this
      ensures Valid()
      ensures files == MF.WithoutDirectory(old(files), dId)
      ensures forall f :: f in files <==> f in old(files) && f.directoryId != dId
      ensures directories == old(directories) && selected == old(selected)
      ensures nextDirectoryId == old(nextDirectoryId) && nextSelectedId == old(nextSelectedId) && nextFileId == old(nextFileId)
    {
      MF.FilterValid((f: MF.MusicFile) => f.directoryId != dId, files, nextFileId);
      files := MF.WithoutDirectory(files, dId);
    }

    /** `MusicFileDao.deleteAll`. */
    method DeleteAllMusicFiles()
      requires Valid()
      modifies this
      ensures Valid()
      ensures files == []
      ensures directories == old(directories) && selected == old(selected)
      ensures nextDirectoryId == old(nextDirectoryId) && nextSelectedId == old(nextSelectedId) && nextFileId == old(nextFileId)
    {
      files := [];
    }

    /** `MusicFileDao.selectInDirectory`. */
    method SelectInDirectory(dId: int) returns (rows: seq<MF.MusicFile>)
      ensures forall f :: f in rows <==> f in files && f.directoryId == dId
      ensures |rows| <= |files|
    {
      rows := MF.InDirectory(files, dId);
    }

    /** `MusicFileDao.selectInDirectories`. */
    method SelectInDirectories(dIds: seq<int>) returns (rows: seq<MF.MusicFile>)
      ensures forall f :: f in rows <==> f in files && f.directoryId in dIds
      ensures |rows| <= |files|
    {
      rows := MF.InDirectories(files, dIds);
    }

    /** `MusicFileDao.selectInDirectoriesShorterThan`: the bound is inclusive. */
    method SelectInDirectoriesShorterThan(dIds: seq<int>, duration: Int32) returns (rows: seq<MF.MusicFile>)
      ensures rows == MF.InDirectoriesShorterThan(files, dIds, duration)
      ensures forall f :: f in rows <==> f in files && f.directoryId in dIds && f.length <= duration
    {
      rows := MF.InDirectoriesShorterThan(files, dIds, duration);
    }

    /** `MusicFileDao.countInDirectories`: all rows, whatever their directory. */
    method CountInDirectories() returns (n: int)
      ensures n == |files|
    {
      n := |files|;
    }

    /** `MusicFileDao.maxId`: the largest id present, null on an empty table. */
    method MaxId() returns (m: Option<int>)
      ensures m.None? <==> files == []
      ensures m.Some? ==> (exists f :: f in files && f.id == m.value) && forall f :: f in files ==> f.id <= m.value
    {
      m := MF.MaxId(files);
    }

    /** `SelectedDirectoryDao.insert` with REPLACE, one row per given path, in order. */
    method InsertSelected(dirs: seq<Path>)
      requires Valid()
      modifies this
      ensures Valid()
      ensures selected == SD.Insert(old(selected), dirs, old(nextSelectedId))
      ensures nextSelectedId == old(nextSelectedId) + |dirs|
      ensures forall d :: d in dirs ==> exists x :: x in selected && x.directory == d
      ensures forall x :: x in old(selected) && x.directory !in dirs ==> x in selected
      ensures forall x :: x in selected ==> x in old(selected) || x.directory in dirs
      ensures directories == old(directories) && files == old(files)
      ensures nextDirectoryId == old(nextDirectoryId) && nextFileId == old(nextFileId)
    {
      SD.InsertSpec(selected, dirs, nextSelectedId);
      selected := SD.Insert(selected, dirs, nextSelectedId);
      nextSelectedId := nextSelectedId + |dirs|;
    }

    /** `SelectedDirectoryDao.deleteDirectory`: by primary key. */
    method DeleteSelected(victims: seq<SD.SelectedDirectory>)
      requires Valid()
      modifies this
      ensures Valid()
      ensures selected == SD.DeleteRows(old(selected), victims)
      ensures forall x :: x in selected <==> x in old(selected) && forall v :: v in victims ==> v.id != x.id
      ensures directories == old(directories) && files == old(files)
      ensures nextDirectoryId == old(nextDirectoryId) && nextFileId == old(nextFileId) && nextSelectedId == old(nextSelectedId)
    {
      SD.DeleteRowsSpec(selected, nextSelectedId, victims);
      selected := SD.DeleteRows(selected, victims);
    }

    /** `SelectedDirectoryDao.getAllDirectory`. */
    method GetAllDirectory() returns (rows: seq<SD.SelectedDirectory>)
      ensures rows == selected
    {
      rows := selected;
    }

    /** `SelectedDirectoryDao.deleteContainDirectory`: every row whose path string starts with that of `dir`. */
    method DeleteContainDirectory(dir: Path)
      requires Valid()
      modifies this
      ensures Valid()
      ensures selected == SD.DeleteContain(old(selected), dir)
      ensures forall x :: x in selected <==> x in old(selected) && !Like(x.directory, dir)
      ensures forall x :: x in selected ==> !StartsWith(x.directory, dir)
      ensures directories == old(directories) && files == old(files)
      ensures nextDirectoryId == old(nextDirectoryId) && nextFileId == old(nextFileId) && nextSelectedId == old(nextSelectedId)
    {
      SD.DeleteContainSpec(selected, nextSelectedId, dir);
      selected := SD.DeleteContain(selected, dir);
    }
  }
}
