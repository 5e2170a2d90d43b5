/**
 * MainViewModel.kt: the budget-constrained playlist builder, the summary shown under the
 * preview, and the `.m3u` file the playlist is saved to.
 */
module Playlist {
  import opened Wrappers
  import opened Ints
  import opened Paths
  import opened Converter
  import MD = MusicDirectories
  import MF = MusicFiles
  import SD = SelectedDirectories
  import opened Database

  /** A preview entry, Kotlin's `Pair<MusicFile, MusicDirectory>`: a track and the directory row it lives in. */
  type Entry = (MF.MusicFile, MD.MusicDirectory)

  /** `minute * 1000 * 60` in `Int` arithmetic: both products wrap around. */
  function Budget(minute: Int32): Int32 {
    Wrap(Wrap(minute * 1000) * 60)
  }

  /** Up to 35791 minutes the budget is the exact number of milliseconds. */
  lemma BudgetExact(minute: Int32)
    requires 0 <= minute <= 35791
    ensures Budget(minute) == minute * 60000
  {
    assert IsInt(minute * 1000);
    assert IsInt(minute * 1000 * 60);
  }

  /** One minute more and the product wraps to a negative budget, so the playlist comes out empty. */
  lemma BudgetWraps()
    ensures Budget(35792) == -2147447296
  {
    assert Wrap(35792 * 1000) == 35792000;
    assert 35792000 * 60 == 2147520000;
    assert Wrap(2147520000) == 2147520000 - TWO_TO_32;
  }

  /** The summed length of the entries' tracks, as exact integers. */
  function TotalLength(entries: seq<Entry>): int
    decreases |entries|
  {
    if entries == [] then 0 else TotalLength(entries[..|entries| - 1]) + entries[|entries| - 1].0.length
  }

  lemma TotalLengthSnoc(entries: seq<Entry>, e: Entry)
    ensures TotalLength(entries + [e]) == TotalLength(entries) + e.0.length
  {
    assert (entries + [e])[..|entries|] == entries;
  }

  /** Tracks of positive length add up to a positive total, one at least as long as any of them. */
  lemma {:induction false} TotalLengthBounds(entries: seq<Entry>)
    requires forall e :: e in entries ==> e.0.length >= 1
    ensures TotalLength(entries) >= |entries|
    ensures forall e :: e in entries ==> e.0.length <= TotalLength(entries)
  {
    if entries != [] {
      var init := entries[..|entries| - 1];
      assert forall e :: e in init ==> e in entries;
      TotalLengthBounds(init);
    }
  }

  /** A directory row the builder draws from: under one of the selected roots, by string prefix. */
  ghost predicate Eligible(d: MD.MusicDirectory, selected: seq<SD.SelectedDirectory>) {
    exists s :: s in selected && Like(d.directory, s.directory)
  }

  /** `musicDirs.first { d -> d.id == id }`: the first row with that id, or none (where Kotlin throws). */
  function FirstWithId(dirs: seq<MD.MusicDirectory>, id: int): (r: Option<MD.MusicDirectory>)
    ensures r.None? <==> forall d :: d in dirs ==> d.id != id
    ensures r.Some? ==> r.value in dirs && r.value.id == id
  {
    if dirs == [] then None
    else if dirs[0].id == id then Some(dirs[0])
    else FirstWithId(dirs[1..], id)
  }

  /** An id taken from the rows' ids finds a row. */
  lemma FirstWithIdFound(dirs: seq<MD.MusicDirectory>, ids: seq<int>, id: int)
    requires |ids| == |dirs| && forall i :: 0 <= i < |ids| ==> ids[i] == dirs[i].id
    requires id in ids
    ensures FirstWithId(dirs, id).Some?
  {
    var i :| 0 <= i < |ids| && ids[i] == id;
    assert dirs[i] in dirs;
  }

  /** `playlistInfo`: the number of entries and the total length shown as `mm:ss`, the sum taken in `Int`. */
  function PlaylistInfo(entries: seq<Entry>): (int, string) {
    (|entries|, MilliTimeToString(Wrap(TotalLength(entries))))
  }

  /** A playlist whose total fits in an `Int` shows its true total, rounded up to a whole second. */
  lemma PlaylistInfoShowsTotal(entries: seq<Entry>)
    requires 0 <= TotalLength(entries) <= INT_MAX
    ensures PlaylistInfo(entries).0 == |entries|
    ensures ShowsTotal(PlaylistInfo(entries).1, TotalLength(entries))
  {
    var total := TotalLength(entries);
    assert Wrap(total) == total;
    var shown := PlaylistInfo(entries).1;
    assert shown == MilliTimeToString(total);
    MilliTimeToStringMeaning(total);
    assert ShowsTotal(shown, total);
  }

  /**
   * `shown` reads back as the whole minutes of `total` and the rest in whole seconds rounded up,
   * which together make `total` rounded up to a whole second.
   */
  ghost predicate ShowsTotal(shown: string, total: int)
    requires 0 <= total <= INT_MAX
  {
    && ParseDisplay(shown) == Some((total / 60000, SecondsField(total)))
    && (total / 60000) * 60000 + SecondsField(total) * 1000 == ((total + 999) / 1000) * 1000
  }

  /** The line `writePlayList` writes for one entry: the track's path, absolute or relative to `base`. */
  function PlaylistLine(e: Entry, useAbsolute: bool, base: Path): string {
    var path := Resolve(e.1.directory, e.0.fileName);
    if useAbsolute then PathString(path) else Join(RelativeTo(path, base))
  }

  /** One line per entry, in playlist order. */
  function PlaylistLines(entries: seq<Entry>, useAbsolute: bool, base: Path): (lines: seq<string>)
    ensures |lines| == |entries|
    ensures forall i :: 0 <= i < |entries| ==> lines[i] == PlaylistLine(entries[i], useAbsolute, base)
  {
    seq(|entries|, i requires 0 <= i < |entries| => PlaylistLine(entries[i], useAbsolute, base))
  }

  /**
   * Every line leads back to its track: an absolute line parses to the track's path, and a
   * relative one, resolved against the playlist's directory, names the same file once normalised.
   */
  lemma PlaylistLineResolves(e: Entry, useAbsolute: bool, base: Path)
    requires AllSegments(e.1.directory) && AllSegments(base)
    ensures var path := Resolve(e.1.directory, e.0.fileName);
      && (useAbsolute ==> Split(PlaylistLine(e, useAbsolute, base)) == path)
      && (!useAbsolute ==> Normalize(base + Split(PlaylistLine(e, useAbsolute, base))) == Normalize(path))
  {
    var path := Resolve(e.1.directory, e.0.fileName);
    assert AllSegments(Split(e.0.fileName));
    assert AllSegments(path) by {
      if !IsAbsoluteString(e.0.fileName) {
        var a, b := e.1.directory, Split(e.0.fileName);
        assert forall i :: 0 <= i < |a + b| ==> (a + b)[i] == if i < |a| then a[i] else b[i - |a|];
      }
    }
    if useAbsolute {
      ParsePathString(path);
    } else {
      RelativeToResolves(path, base);
      SplitJoin(RelativeTo(path, base));
    }
  }

  /** `"${appName}_$dateTime.m3u"`. */
  function PlaylistName(appName: string, dateTime: string): string {
    appName + "_" + dateTime + ".m3u"
  }

  /** `File(dirPath, name)`. */
  function FileIn(dir: Path, name: string): Path {
    dir + Split(name)
  }

  /** The random source behind `files.random()`: `random(n, files)` is what the `n`-th call returns. */
  type Random = (nat, seq<MF.MusicFile>) -> MF.MusicFile

  /** A random source that always returns one of the list's elements. */
  ghost predicate PicksElement(random: Random) {
    forall n: nat, files: seq<MF.MusicFile> :: files != [] ==> random(n, files) in files
  }

  /**
   * The entries from position `start` on were drawn in order, starting at draw number `from`:
   * each holds the track that draw picks and the first directory row with that track's directory id.
   */
  ghost predicate DrawnFrom(entries: seq<Entry>, start: nat, files: seq<MF.MusicFile>, musicDirs: seq<MD.MusicDirectory>,
                            random: Random, from: nat)
  {
    forall k :: start <= k < |entries| ==>
      entries[k].0 == random(from + (k - start), files) && Some(entries[k].1) == FirstWithId(musicDirs, entries[k].0.directoryId)
  }

  /** One more draw that fits extends the drawn entries. */
  lemma DrawnFromSnoc(entries: seq<Entry>, start: nat, files: seq<MF.MusicFile>, musicDirs: seq<MD.MusicDirectory>,
                      random: Random, from: nat, n: nat, e: Entry)
    requires start <= |entries| && DrawnFrom(entries, start, files, musicDirs, random, from)
    requires n == from + (|entries| - start) && e.0 == random(n, files) && FirstWithId(musicDirs, e.0.directoryId) == Some(e.1)
    ensures DrawnFrom(entries + [e], start, files, musicDirs, random, from)
  {
    var next := entries + [e];
    forall k | start <= k < |next|
      ensures next[k].0 == random(from + (k - start), files) && Some(next[k].1) == FirstWithId(musicDirs, next[k].0.directoryId)
    {
      if k < |entries| {
        assert next[k] == entries[k];
      }
    }
  }

  /** Drawn entries hold tracks of `files`, each with a directory row of `musicDirs` carrying its directory id. */
  lemma DrawnFromMembers(entries: seq<Entry>, start: nat, files: seq<MF.MusicFile>, musicDirs: seq<MD.MusicDirectory>,
                         random: Random, from: nat)
    requires files != [] && PicksElement(random) && DrawnFrom(entries, start, files, musicDirs, random, from)
    ensures forall k :: start <= k < |entries| ==>
      entries[k].0 in files && entries[k].1 in musicDirs && entries[k].1.id == entries[k].0.directoryId
  {
    forall k | start <= k < |entries|
      ensures entries[k].0 in files && entries[k].1 in musicDirs && entries[k].1.id == entries[k].0.directoryId
    {
      assert entries[k].0 == random(from + (k - start), files);
    }
  }

  class MainViewModel {
    const db: AppDatabase
    /** `useAbsolutePath` and `saveDirectoryPath` from the settings store, as read when saving. */
    const useAbsolute: bool
    const saveDirectory: Option<Path>
    const appName: string
    /** The random source behind `files.random()`. */
    const random: Random
    /** `_previewPlaylist`. */
    var preview: seq<Entry>

    constructor (db: AppDatabase, useAbsolute: bool, saveDirectory: Option<Path>, appName: string, random: Random)
      ensures this.db == db && this.useAbsolute == useAbsolute && this.saveDirectory == saveDirectory && this.appName == appName
      ensures this.random == random && preview == []
    {
      this.db := db;
      this.useAbsolute := useAbsolute;
      this.saveDirectory := saveDirectory;
      this.appName := appName;
      this.random := random;
      preview := [];
    }

    /** Lines 84-89: the directory rows under each selected root, in order, and their ids. */
    method EligibleDirectories() returns (musicDirs: seq<MD.MusicDirectory>, ids: seq<int>)
      ensures forall d :: d in musicDirs <==> d in db.directories && Eligible(d, db.selected)
      ensures |ids| == |musicDirs| && forall i :: 0 <= i < |ids| ==> ids[i] == musicDirs[i].id
    {
      var roots := db.GetAllDirectory();
      musicDirs := [];
      for k := 0 to |roots|
        invariant forall d :: d in musicDirs <==> d in db.directories && exists s :: s in roots[..k] && Like(d.directory, s.directory)
      {
        var rows := db.GetContainDirectories(roots[k].directory);
        assert roots[..k + 1] == roots[..k] + [roots[k]];
        musicDirs := musicDirs + rows;
      }
      assert roots[..|roots|] == roots;
      ids := seq(|musicDirs|, i requires 0 <= i < |musicDirs| => musicDirs[i].id);
    }

    /**
     * The inner loop of `makePlayList` (lines 98-103): draws tracks from `files` with `random`
     * (`files.random()`, the draws numbered from `draws` on) and appends each with its directory
     * row until a drawn track does not fit the remaining time. Every track in `files` fits when the
     * round starts, so it adds at least one. `drawn` counts the draws made so far, the last of them
     * the one that did not fit.
     */
    method DrawRound(files: seq<MF.MusicFile>, musicDirs: seq<MD.MusicDirectory>, ids: seq<int>, playlist: seq<Entry>, millisecond: Int32, draws: nat) returns (extended: seq<Entry>, left: Int32, drawn: nat)
      requires files != [] && PicksElement(random)
      requires |ids| == |musicDirs| && forall i :: 0 <= i < |ids| ==> ids[i] == musicDirs[i].id
      requires forall f :: f in files ==> f.directoryId in ids && 1 <= f.length <= millisecond
      ensures 0 <= left < millisecond
      ensures TotalLength(extended) + left == TotalLength(playlist) + millisecond
      ensures |extended| > |playlist| && extended[..|playlist|] == playlist
      ensures forall k :: |playlist| <= k < |extended| ==>
        extended[k].0 in files && extended[k].1 in musicDirs && extended[k].1.id == extended[k].0.directoryId
      ensures drawn == draws + (|extended| - |playlist|) + 1
      ensures DrawnFrom(extended, |playlist|, files, musicDirs, random, draws)
      ensures drawn >= 1 && random(drawn - 1, files).length > left
    {
      assert files[0] in files && IsInt(millisecond);
      extended, left, drawn := playlist, millisecond, draws;
      while true
        invariant TotalLength(extended) + left == TotalLength(playlist) + millisecond
        invariant 0 <= left <= millisecond
        invariant |extended| >= |playlist| && extended[..|playlist|] == playlist
        invariant |extended| > |playlist| <==> left < millisecond
        invariant drawn == draws + (|extended| - |playlist|)
        invariant DrawnFrom(extended, |playlist|, files, musicDirs, random, draws)
        decreases left
      {
        drawn := drawn + 1;
        var file := random(drawn - 1, files);
        if file.length > left {
          break;
        }
        FirstWithIdFound(musicDirs, ids, file.directoryId);
        var md := FirstWithId(musicDirs, file.directoryId).value;
        TotalLengthSnoc(extended, (file, md));
        DrawnFromSnoc(extended, |playlist|, files, musicDirs, random, draws, drawn - 1, (file, md));
        assert (extended + [(file, md)])[..|playlist|] == playlist;
        extended := extended + [(file, md)];
        left := left - file.length;
      }
      DrawnFromMembers(extended, |playlist|, files, musicDirs, random, draws);
    }

    /**
     * `makePlayList` (lines 80-106). The outer loop queries the eligible tracks that fit the
     * remaining time; the inner loop draws from that fixed list with `random` (the
     * draws numbered from 0) until a drawn track does not fit. Tracks must be at least 1 ms long for the loops to end.
     */
    method MakePlayList(minute: Int32)
      requires db.Valid() && PicksElement(random)
      requires forall f :: f in db.files ==> f.length >= 1
      modifies this
      ensures Budget(minute) < 0 ==> preview == []
      ensures Budget(minute) >= 0 ==> 0 <= TotalLength(preview) <= Budget(minute)
      ensures forall e :: e in preview ==>
        e.0 in db.files && e.1 in db.directories && e.1.id == e.0.directoryId && Eligible(e.1, db.selected)
      ensures forall f, d :: f in db.files && d in db.directories && d.id == f.directoryId && Eligible(d, db.selected) ==>
        f.length > Budget(minute) - TotalLength(preview)
    {
      var millisecond: Int32 := Budget(minute);
      var musicDirs, ids := EligibleDirectories();
      var playlist: seq<Entry> := [];
      var draws: nat := 0;
      while true
        invariant TotalLength(playlist) + millisecond == Budget(minute)
        invariant millisecond < 0 ==> playlist == []
        invariant Budget(minute) >= 0 ==> millisecond >= 0
        invariant forall e :: e in playlist ==> e.0 in db.files && e.1 in musicDirs && e.1.id == e.0.directoryId
        decreases millisecond
      {
        var files := db.SelectInDirectoriesShorterThan(ids, millisecond);
        if files == [] {
          forall f, d | f in db.files && d in db.directories && d.id == f.directoryId && Eligible(d, db.selected)
            ensures f.length > millisecond
          {
            var i :| 0 <= i < |musicDirs| && musicDirs[i] == d;
            assert ids[i] == f.directoryId;
          }
          break;
        }
        assert files[0] in files;
        playlist, millisecond, draws := DrawRound(files, musicDirs, ids, playlist, millisecond, draws);
      }
      preview := playlist;
    }

    /**
     * `savePlayList` (lines 114-129): null when no save directory is set; otherwise the path of
     * `<appName>_<dateTime>.m3u` in it, even when creating the file failed (`created` false).
     * `written` is what `writePlayList` (lines 137-157) puts in a file that was created: one line
     * per preview entry, relative lines taken against the file's directory.
     */
    method SavePlayList(dateTime: string, created: bool) returns (path: Option<Path>, written: Option<seq<string>>)
      ensures path.None? <==> saveDirectory.None?
      ensures path.Some? ==> path.value == FileIn(saveDirectory.value, PlaylistName(appName, dateTime))
      ensures written.Some? <==> path.Some? && created
      ensures written.Some? ==> written.value == PlaylistLines(preview, useAbsolute, Parent(path.value).GetOr([]))
    {
      if saveDirectory.None? {
        return None, None;
      }
      var f := FileIn(saveDirectory.value, PlaylistName(appName, dateTime));
      written := None;
      if created {
        var lines := PlaylistLines(preview, useAbsolute, Parent(f).GetOr([]));
        written := Some(lines);
      }
      path := Some(f);
    }
  }

  /** A playlist file named without a separator sits directly in the save directory. */
  lemma PlaylistFileParent(dir: Path, appName: string, dateTime: string)
    requires AllSegments(dir) && '/' !in appName && '/' !in dateTime
    ensures Parent(FileIn(dir, PlaylistName(appName, dateTime))) == Some(dir)
  {
    var name := PlaylistName(appName, dateTime);
    assert name[|name| - 1] == 'u';
    assert '/' !in name by {
      forall i | 0 <= i < |name| ensures name[i] != '/' {
        if i < |appName| {
          assert name[i] == appName[i];
        } else if i >= |appName| + 1 && i < |appName| + 1 + |dateTime| {
          assert name[i] == dateTime[i - |appName| - 1];
        }
      }
    }
    SplitJoin([name]);
  }
}
