/**
 * The `music_directory` table of MusicDirectory.kt: one row per scanned directory that held
 * audio, unique on `directory`, with the time of its last scan stored in epoch seconds.
 */
module MusicDirectories {
  import opened Seqs
  import opened Paths

  /** A stored row; `lastScannedAt` is the column value, the instant's whole epoch seconds. */
  datatype MusicDirectory = MusicDirectory(id: int, directory: Path, lastScannedAt: int)

  function DirectoryOf(r: MusicDirectory): Path { r.directory }

  function IdOf(r: MusicDirectory): int { r.id }

  /** The table's invariant: the unique index on `directory`, and ids issued in increasing order below `nextId`. */
  ghost predicate Valid(rows: seq<MusicDirectory>, nextId: int) {
    && DistinctKeys(DirectoryOf, rows)
    && IncreasingKeys(IdOf, rows)
    && 1 <= nextId
    && forall r :: r in rows ==> 1 <= r.id < nextId
  }

  function Ids(rows: seq<MusicDirectory>): (ids: set<int>)
    ensures forall r :: r in rows ==> r.id in ids
    ensures forall i :: i in ids ==> exists r :: r in rows && r.id == i
  {
    set r | r in rows :: r.id
  }

  /** `@Insert(onConflict = REPLACE)`: the row for the same directory, if any, is replaced. */
  function Upsert(rows: seq<MusicDirectory>, row: MusicDirectory): seq<MusicDirectory> {
    ReplaceByKey(DirectoryOf, rows, row)
  }

  /** `SELECT * FROM music_directory WHERE directory LIKE :dir || '%'`. */
  function ContainDirectories(rows: seq<MusicDirectory>, dir: Path): seq<MusicDirectory> {
    Filter((r: MusicDirectory) => Like(r.directory, dir), rows)
  }

  /** `DELETE FROM music_directory WHERE directory LIKE :dir || '%' AND lastScannedAt < :time`: the rows that stay. */
  function DeleteScannedBefore(rows: seq<MusicDirectory>, dir: Path, time: int): seq<MusicDirectory> {
    Filter((r: MusicDirectory) => !(Like(r.directory, dir) && r.lastScannedAt < time), rows)
  }

  /** A replacing insert with a fresh id keeps the invariant and leaves exactly the new row for its directory; other directories keep their rows. */
  lemma UpsertSpec(rows: seq<MusicDirectory>, nextId: int, directory: Path, lastScannedAt: int)
    requires Valid(rows, nextId)
    ensures var r := Upsert(rows, MusicDirectory(nextId, directory, lastScannedAt));
      && Valid(r, nextId + 1)
      && MusicDirectory(nextId, directory, lastScannedAt) in r
      && (forall x :: x in r && x.directory == directory ==> x == MusicDirectory(nextId, directory, lastScannedAt))
      && (forall x :: x in rows && x.directory != directory ==> x in r)
      && (forall x :: x in r ==> x in rows || x == MusicDirectory(nextId, directory, lastScannedAt))
  {
    ReplaceByKeyKeeps(DirectoryOf, IdOf, rows, MusicDirectory(nextId, directory, lastScannedAt));
  }

  /** The selection returns exactly the rows whose path string starts with the string of `dir`, in table order. */
  lemma ContainDirectoriesSpec(rows: seq<MusicDirectory>, dir: Path)
    ensures forall r :: r in ContainDirectories(rows, dir) <==> r in rows && HasPrefix(PathString(r.directory), PathString(dir))
    ensures forall r :: r in rows && StartsWith(r.directory, dir) ==> r in ContainDirectories(rows, dir)
  {
    forall r | r in rows && StartsWith(r.directory, dir) ensures Like(r.directory, dir) {
      StartsWithIsLike(r.directory, dir);
    }
  }

  /**
   * The sweep removes exactly the rows under `dir` (string prefix) scanned strictly before
   * `time`, keeps every other row, and keeps the invariant.
   */
  lemma DeleteScannedBeforeSpec(rows: seq<MusicDirectory>, nextId: int, dir: Path, time: int)
    requires Valid(rows, nextId)
    ensures var r := DeleteScannedBefore(rows, dir, time);
      && Valid(r, nextId)
      && (forall x :: x in r <==> x in rows && !(Like(x.directory, dir) && x.lastScannedAt < time))
      && (forall x :: x in r && Like(x.directory, dir) ==> x.lastScannedAt >= time)
  {
    var f := (r: MusicDirectory) => !(Like(r.directory, dir) && r.lastScannedAt < time);
    FilterDistinctKeys(DirectoryOf, f, rows);
    FilterIncreasingKeys(IdOf, f, rows);
  }

  /** A row scanned in the same stored second as the sweep's start survives it. */
  lemma SweepKeepsSameSecond(rows: seq<MusicDirectory>, dir: Path, time: int, x: MusicDirectory)
    requires x in rows && x.lastScannedAt == time
    ensures x in DeleteScannedBefore(rows, dir, time)
  {
  }

  /**
   * The sweep compares path strings, not path components: sweeping `/m/a` also removes a stale row
   * of its sibling `/m/ab`, and keeps the parent `/m`.
   */
  lemma SweepTakesStringPrefixSibling()
    ensures DeleteScannedBefore([MusicDirectory(1, ["m"], 5), MusicDirectory(2, ["m", "ab"], 5)], ["m", "a"], 6)
      == [MusicDirectory(1, ["m"], 5)]
  {
    assert PathString(["m", "ab"]) == "/m/ab";
    assert PathString(["m", "a"]) == "/m/a";
    assert PathString(["m"]) == "/m";
    assert Like(["m", "ab"], ["m", "a"]);
    assert !Like(["m"], ["m", "a"]);
  }
}
