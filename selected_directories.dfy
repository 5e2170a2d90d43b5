/**
 * The `selected_directory` table of SelectedDirectory.kt: the roots the user chose, unique
 * on `directory`.
 */
module SelectedDirectories {
  import opened Seqs
  import opened Paths

  datatype SelectedDirectory = SelectedDirectory(id: int, directory: Path)

  function DirectoryOf(r: SelectedDirectory): Path { r.directory }

  function IdOf(r: SelectedDirectory): int { r.id }

  /** The table's invariant: the unique index on `directory`, and ids issued in increasing order below `nextId`. */
  ghost predicate Valid(rows: seq<SelectedDirectory>, nextId: int) {
    && DistinctKeys(DirectoryOf, rows)
    && IncreasingKeys(IdOf, rows)
    && 1 <= nextId
    && forall r :: r in rows ==> 1 <= r.id < nextId
  }

  /** `@Insert(onConflict = REPLACE)` of `SelectedDirectory(directory = d)` for each `d` in turn, ids from `nextId` on. */
  function Insert(rows: seq<SelectedDirectory>, dirs: seq<Path>, nextId: int): seq<SelectedDirectory>
    decreases |dirs|
  {
    if dirs == [] then rows
    else Insert(ReplaceByKey(DirectoryOf, rows, SelectedDirectory(nextId, dirs[0])), dirs[1..], nextId + 1)
  }

  /** `@Delete`: rows are matched by primary key only. */
  function DeleteRows(rows: seq<SelectedDirectory>, victims: seq<SelectedDirectory>): seq<SelectedDirectory> {
    Filter((r: SelectedDirectory) => !(exists v :: v in victims && v.id == r.id), rows)
  }

  /** `DELETE FROM selected_directory WHERE directory LIKE :dir || '%'`: the rows that stay. */
  function DeleteContain(rows: seq<SelectedDirectory>, dir: Path): seq<SelectedDirectory> {
    Filter((r: SelectedDirectory) => !Like(r.directory, dir), rows)
  }

  /**
   * A replacing insert keeps the invariant, leaves every inserted directory present exactly
   * once, keeps the rows of directories not inserted, and adds nothing else.
   */
  lemma {:induction false} InsertSpec(rows: seq<SelectedDirectory>, dirs: seq<Path>, nextId: int)
    requires Valid(rows, nextId)
    ensures Valid(Insert(rows, dirs, nextId), nextId + |dirs|)
    ensures forall d :: d in dirs ==> exists x :: x in Insert(rows, dirs, nextId) && x.directory == d
    ensures forall x :: x in rows && x.directory !in dirs ==> x in Insert(rows, dirs, nextId)
    ensures forall x :: x in Insert(rows, dirs, nextId) ==> x in rows || x.directory in dirs
    decreases |dirs|
  {
    if dirs != [] {
      var row := SelectedDirectory(nextId, dirs[0]);
      var rows' := ReplaceByKey(DirectoryOf, rows, row);
      ReplaceByKeyKeeps(DirectoryOf, IdOf, rows, row);
      InsertSpec(rows', dirs[1..], nextId + 1);
      var r := Insert(rows', dirs[1..], nextId + 1);
      assert r == Insert(rows, dirs, nextId);
      forall x | x in r ensures x in rows || x.directory in dirs {
        if x !in rows' {
          assert x.directory in dirs[1..];
        }
      }
      forall x | x in rows && x.directory !in dirs ensures x in r {
        assert x in rows';
      }
      forall d | d in dirs ensures exists x :: x in r && x.directory == d {
        if d in dirs[1..] {
        } else {
          assert row in r;
        }
      }
    }
  }

  /** Deleting by entity removes exactly the rows whose id is among the victims' and keeps the invariant. */
  lemma DeleteRowsSpec(rows: seq<SelectedDirectory>, nextId: int, victims: seq<SelectedDirectory>)
    requires Valid(rows, nextId)
    ensures Valid(DeleteRows(rows, victims), nextId)
    ensures forall x :: x in DeleteRows(rows, victims) <==> x in rows && forall v :: v in victims ==> v.id != x.id
  {
    var f := (r: SelectedDirectory) => !(exists v :: v in victims && v.id == r.id);
    FilterDistinctKeys(DirectoryOf, f, rows);
    FilterIncreasingKeys(IdOf, f, rows);
  }

  /**
   * Deleting by prefix removes exactly the rows whose path string starts with that of `dir`:
   * `dir` itself, its descendants, and string-prefix siblings such as "/m/ab" for "/m/a".
   */
  lemma DeleteContainSpec(rows: seq<SelectedDirectory>, nextId: int, dir: Path)
    requires Valid(rows, nextId)
    ensures Valid(DeleteContain(rows, dir), nextId)
    ensures forall x :: x in DeleteContain(rows, dir) <==> x in rows && !Like(x.directory, dir)
    ensures forall x :: x in DeleteContain(rows, dir) ==> !StartsWith(x.directory, dir)
  {
    var f := (r: SelectedDirectory) => !Like(r.directory, dir);
    FilterDistinctKeys(DirectoryOf, f, rows);
    FilterIncreasingKeys(IdOf, f, rows);
    forall x | x in DeleteContain(rows, dir) ensures !StartsWith(x.directory, dir) {
      if StartsWith(x.directory, dir) {
        StartsWithIsLike(x.directory, dir);
      }
    }
  }
}
