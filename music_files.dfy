/**
 * The `music_file` table of MusicFile.kt: one row per indexed audio file, with a foreign key
 * `directory_id` to `music_directory` declared `ON DELETE CASCADE`.
 */
module MusicFiles {
  import opened Wrappers
  import opened Ints
  import opened Seqs
  import opened Converter

  /** A stored row; `length` is the duration in milliseconds. */
  datatype MusicFile = MusicFile(id: int, title: string, artist: string, length: Int32, fileName: string, directoryId: int)

  function IdOf(f: MusicFile): int { f.id }

  /** The table's invariant: auto-generated ids, issued in increasing order below `nextId`. */
  ghost predicate Valid(rows: seq<MusicFile>, nextId: int) {
    && IncreasingKeys(IdOf, rows)
    && 1 <= nextId
    && forall f :: f in rows ==> 1 <= f.id < nextId
  }

  /** `MusicFile.playTimeString`. */
  function PlayTimeString(f: MusicFile): string {
    MilliTimeToString(f.length)
  }

  /** The play time shown for a track reads back as its length rounded up to a whole second. */
  lemma PlayTimeStringMeaning(f: MusicFile)
    requires f.length >= 0
    ensures ParseDisplay(PlayTimeString(f)).Some?
    ensures var (m, s) := ParseDisplay(PlayTimeString(f)).value;
      m * 60000 + s * 1000 == ((f.length + 999) / 1000) * 1000 && s <= 60
  {
    MilliTimeToStringMeaning(f.length);
  }

  /** `SELECT * FROM music_file WHERE directory_id = :dId`. */
  function InDirectory(rows: seq<MusicFile>, dId: int): seq<MusicFile> {
    Filter((f: MusicFile) => f.directoryId == dId, rows)
  }

  /** `SELECT * FROM music_file WHERE directory_id IN (:dIds)`. */
  function InDirectories(rows: seq<MusicFile>, dIds: seq<int>): seq<MusicFile> {
    Filter((f: MusicFile) => f.directoryId in dIds, rows)
  }

  /** `SELECT * FROM music_file WHERE directory_id IN (:dIds) AND length <= :duration`. */
  function InDirectoriesShorterThan(rows: seq<MusicFile>, dIds: seq<int>, duration: int): seq<MusicFile> {
    Filter((f: MusicFile) => f.directoryId in dIds && f.length <= duration, rows)
  }

  /** `DELETE FROM music_file WHERE directory_id = :dId`: the rows that stay. */
  function WithoutDirectory(rows: seq<MusicFile>, dId: int): seq<MusicFile> {
    Filter((f: MusicFile) => f.directoryId != dId, rows)
  }

  /** `ON DELETE CASCADE`: the rows whose directory is still in `live` stay. */
  function Cascade(rows: seq<MusicFile>, live: set<int>): seq<MusicFile> {
    Filter((f: MusicFile) => f.directoryId in live, rows)
  }

  /** `SELECT MAX(id) FROM music_file`: null on an empty table. */
  function MaxId(rows: seq<MusicFile>): (r: Option<int>)
    ensures r.None? <==> rows == []
    ensures r.Some? ==> (exists f :: f in rows && f.id == r.value) && forall f :: f in rows ==> f.id <= r.value
  {
    if rows == [] then None
    else
      match MaxId(rows[1..])
      case None => Some(rows[0].id)
      case Some(m) => Some(if rows[0].id > m then rows[0].id else m)
  }

  /** `@Insert` of rows with `id = 0`: each gets the next auto-generated id, in order. */
  function Numbered(newRows: seq<MusicFile>, nextId: int): (r: seq<MusicFile>)
    ensures |r| == |newRows|
    ensures forall i :: 0 <= i < |r| ==> r[i] == newRows[i].(id := nextId + i)
  {
    seq(|newRows|, i requires 0 <= i < |newRows| => newRows[i].(id := nextId + i))
  }

  /** Inserting rows one at a time numbers them as inserting them together would. */
  lemma NumberedSnoc(rows: seq<MusicFile>, done: seq<MusicFile>, row: MusicFile, nextId: int)
    ensures rows + Numbered(done + [row], nextId) == (rows + Numbered(done, nextId)) + Numbered([row], nextId + |done|)
  {
    assert Numbered(done + [row], nextId) == Numbered(done, nextId) + Numbered([row], nextId + |done|);
  }

  /** The length filter is inclusive and only narrows the directory selection. */
  lemma ShorterThanSpec(rows: seq<MusicFile>, dIds: seq<int>, duration: int)
    ensures forall f :: f in InDirectoriesShorterThan(rows, dIds, duration) <==> f in InDirectories(rows, dIds) && f.length <= duration
    ensures |InDirectoriesShorterThan(rows, dIds, duration)| <= |InDirectories(rows, dIds)|
  {
    var p := (f: MusicFile) => f.directoryId in dIds;
    var q := (f: MusicFile) => f.length <= duration;
    var both := (f: MusicFile) => f.directoryId in dIds && f.length <= duration;
    FilterTwice(p, q, both, rows);
  }

  lemma {:induction false} FilterTwice(p: MusicFile -> bool, q: MusicFile -> bool, both: MusicFile -> bool, s: seq<MusicFile>)
    requires forall f :: both(f) == (p(f) && q(f))
    ensures Filter(q, Filter(p, s)) == Filter(both, s)
  {
    if s != [] {
      FilterTwice(p, q, both, s[1..]);
    }
  }

  /** With ids in table order, `MAX(id)` is the id of the last row: the most recent insert. */
  lemma MaxIdIsLast(rows: seq<MusicFile>, nextId: int)
    requires Valid(rows, nextId) && rows != []
    ensures MaxId(rows) == Some(rows[|rows| - 1].id)
  {
    var m := MaxId(rows).value;
    var f :| f in rows && f.id == m;
    var i :| 0 <= i < |rows| && rows[i] == f;
    var last := rows[|rows| - 1];
    assert last in rows;
    assert IdOf(f) <= IdOf(last);
  }

  /** Removing or cascading keeps the table invariant. */
  lemma FilterValid(f: MusicFile -> bool, rows: seq<MusicFile>, nextId: int)
    requires Valid(rows, nextId)
    ensures Valid(Filter(f, rows), nextId)
  {
    FilterIncreasingKeys(IdOf, f, rows);
  }

  /** The cascade keeps exactly the rows whose directory is live, and the table invariant. */
  lemma CascadeSpec(rows: seq<MusicFile>, nextId: int, live: set<int>)
    requires Valid(rows, nextId)
    ensures Valid(Cascade(rows, live), nextId)
    ensures forall f :: f in Cascade(rows, live) <==> f in rows && f.directoryId in live
  {
    FilterValid((f: MusicFile) => f.directoryId in live, rows, nextId);
  }

  /** Appending freshly numbered rows keeps the table invariant and moves the counter past them. */
  lemma AppendValid(rows: seq<MusicFile>, nextId: int, newRows: seq<MusicFile>)
    requires Valid(rows, nextId)
    ensures Valid(rows + Numbered(newRows, nextId), nextId + |newRows|)
  {
    var r := rows + Numbered(newRows, nextId);
    forall i, j | 0 <= i < j < |r| ensures r[i].id < r[j].id {
      if j >= |rows| && i < |rows| {
        assert r[i] in rows;
      }
    }
    forall f | f in r ensures 1 <= f.id < nextId + |newRows| {
      var i :| 0 <= i < |r| && r[i] == f;
      if i >= |rows| {
        assert f == Numbered(newRows, nextId)[i - |rows|];
      }
    }
  }
}
