# Playlist generator core in Dafny

This project models the core of an Android app that builds playlists of a chosen length from
the music on the device. The user picks music roots in a directory browser. A background
worker walks those roots, indexes every directory that holds `.mp3` or `.wav` files, and
records one row per track in a Room (SQLite) database. The main screen then draws random tracks
from the selected roots until the requested number of minutes is used up, previews the result
with its count and total time, and saves it as an `.m3u` file.

Modules, one per part of the program:

- `Converter` models `Converter.kt`. It covers the `mm:ss` duration formatter and the Room
  converters for `Instant` (stored in whole epoch seconds) and `Path` (stored as its string).
- `MusicDirectories`, `MusicFiles` and `SelectedDirectories` model the three tables of
  `db/MusicDirectory.kt`, `db/MusicFile.kt` and `db/SelectedDirectory.kt`. Each table is a
  sequence of rows with an invariant: unique paths where there is a unique index, and
  auto-generated ids in increasing order. Each DAO query is a function on that sequence.
- `Database` holds the three tables in one `AppDatabase` class. The DAO calls are methods on it.
  `ON DELETE CASCADE` from tracks to directories is applied after every change to the
  directory table.
- `FileTree` is the file system the worker sees: a finite tree of directories, each listable or
  not, with its subdirectories in listing order and its other entries. It also holds the audio
  filter.
- `Scanning` models `SearchFileWorker.kt`: the `DirWithIdx` frame class, the explicit-stack
  walk of `searchDirectory` (proved to emit exactly the pre-order of each start directory),
  the metadata loop, and `doWork` with its upsert and stale-row sweep.
- `Playlist` models `viewmodel/MainViewModel.kt`: the budget in `Int` arithmetic, the two
  drawing loops of `makePlayList`, the preview summary, and the lines `writePlayList` writes.
- `DirectoryBrowser` models `viewmodel/DirectoryViewModel.kt`: the shown directory, the
  browser list, how each entry stands to the selected roots, and selecting or removing a root.
- `Paths` (absolute paths as segment lists, their strings, `startsWith`, SQL
  `LIKE dir || '%'` on path strings, `resolve` and `relativize`), `Seqs`, `Ints` (the
  32-bit `Int`, wrap-around, truncating division) and `Wrappers` (`Option`) are support modules.

Where the code and its written description differ, the model follows the code:

- The seconds field of `milliTimeToString` is rounded up and never carried into the minutes.
  So 59999 ms shows as "00:60" (`Converter.MilliTimeToStringNoCarry`).
- The stale-row sweep `deleteContainDirectoriesScannedBefore` runs after every emitted
  directory, not once per run. It matches by path-string prefix, so a sibling such as "/m/ab"
  of "/m/a" is swept too (`MusicDirectories.SweepTakesStringPrefixSibling`).
- `countInDirectories` counts the whole track table.
- `makePlayList` computes `minute * 1000 * 60` in `Int`. From 35792 minutes on the budget
  wraps to a negative value and the playlist is empty (`Playlist.BudgetWraps`).

## Model

| member | source | states |
|---|---|---|
| Converter.NatToString | app/src/main/java/com/example/jerseywooly/Converter.kt:41 | `Int.toString()` of a non-negative value is a non-empty string of decimal digits |
| Converter.NatToStringValue | app/src/main/java/com/example/jerseywooly/Converter.kt:41 | the decimal string of `n` reads back as `n` |
| Converter.PadStart | app/src/main/java/com/example/jerseywooly/Converter.kt:41-42 | `padStart(length, c)` has length `max(|s|, length)`, ends with `s` and is `c` before it |
| Converter.PaddedValue | app/src/main/java/com/example/jerseywooly/Converter.kt:41-42 | a zero-padded decimal field is all digits and reads back as the number it was made from |
| Converter.CeilThousandth | app/src/main/java/com/example/jerseywooly/Converter.kt:40 | the seconds field is the remainder divided by 1000 rounded up: `(q - 1) * 1000 < r <= q * 1000` |
| Converter.ParseDisplayOf | app/src/main/java/com/example/jerseywooly/Converter.kt:43 | `"$minuteS:$secondS"` splits back into its two digit fields at the ':' |
| Converter.FieldsOfNonNegative | app/src/main/java/com/example/jerseywooly/Converter.kt:39-40 | for a duration >= 0: minutes are `value / 60000`, seconds are the rest rounded up, in 0..60, 60 exactly when the rest is above 59000 ms; minutes and seconds together are the duration rounded up to a whole second |
| Converter.MilliTimeToStringMeaning | app/src/main/java/com/example/jerseywooly/Converter.kt:38-44 | for a duration >= 0 the text parses back to (whole minutes, rounded-up seconds), the seconds are 60 only when the rest exceeds 59000 ms, the time shown is the duration rounded up to a second, and the text is at least 5 characters |
| Converter.MilliTimeToStringZero | app/src/main/java/com/example/jerseywooly/Converter.kt:38-44 | 0 ms shows as "00:00" |
| Converter.MilliTimeToStringRoundsUp | app/src/main/java/com/example/jerseywooly/Converter.kt:38-44 | 1 ms already shows as "00:01" |
| Converter.MilliTimeToStringNoCarry | app/src/main/java/com/example/jerseywooly/Converter.kt:38-44 | 59999 ms shows as "00:60": the rounded-up seconds are not carried into the minutes |
| Converter.MilliTimeToStringMinutes | app/src/main/java/com/example/jerseywooly/Converter.kt:38-44 | 125000 ms shows as "02:05" and 6000000 ms as "100:00": minutes are padded to two digits but not bounded |
| Converter.FromInstant | app/src/main/java/com/example/jerseywooly/Converter.kt:26-28 | null maps to null, and an instant to its epoch second |
| Converter.ToInstant | app/src/main/java/com/example/jerseywooly/Converter.kt:31-35 | null maps to null, and a stored value to a valid instant |
| Converter.InstantRoundTrip | app/src/main/java/com/example/jerseywooly/Converter.kt:24-36 | reading a stored value back and storing it again gives the same value |
| Converter.InstantTruncates | app/src/main/java/com/example/jerseywooly/Converter.kt:26-35 | storing an instant and reading it back drops its sub-second part, giving an instant not after the original |
| Converter.StoredOrder | app/src/main/java/com/example/jerseywooly/Converter.kt:26-28 | storage keeps the order of instants, but only to the second |
| Converter.FromPath | app/src/main/java/com/example/jerseywooly/Converter.kt:12-14 | null maps to null, and a path to its string |
| Converter.ToPath | app/src/main/java/com/example/jerseywooly/Converter.kt:17-21 | null maps to null, and a stored string to a path |
| Converter.PathRoundTrip | app/src/main/java/com/example/jerseywooly/Converter.kt:10-22 | a stored path string is absolute, and reading it back gives the same path |
| MusicDirectories.UpsertSpec | app/src/main/java/com/example/jerseywooly/db/MusicDirectory.kt:24-25 | the replacing insert keeps the unique index and the id order, leaves exactly the new row for its directory, keeps the rows of other directories and adds nothing else |
| MusicDirectories.ContainDirectoriesSpec | app/src/main/java/com/example/jerseywooly/db/MusicDirectory.kt:33-34 | the selection is exactly the rows whose path string starts with that of `dir`; every row under `dir` is among them |
| MusicDirectories.DeleteScannedBeforeSpec | app/src/main/java/com/example/jerseywooly/db/MusicDirectory.kt:36-37 | the sweep removes exactly the rows under `dir` (by string prefix) scanned before `time`, keeps every other row and the invariant |
| MusicDirectories.SweepKeepsSameSecond | app/src/main/java/com/example/jerseywooly/db/MusicDirectory.kt:36-37 | a row stamped in the very second the sweep compares against survives (the comparison is strict) |
| MusicDirectories.SweepTakesStringPrefixSibling | app/src/main/java/com/example/jerseywooly/db/MusicDirectory.kt:36-37 | sweeping "/m/a" also deletes a stale "/m/ab" but keeps "/m" |
| MusicFiles.PlayTimeStringMeaning | app/src/main/java/com/example/jerseywooly/db/MusicFile.kt:25-26 | a track's play time parses and reads back as its length rounded up to a whole second |
| MusicFiles.MaxId | app/src/main/java/com/example/jerseywooly/db/MusicFile.kt:53-54 | `MAX(id)` is null exactly on an empty table; otherwise it is an id in the table and no id is larger |
| MusicFiles.Numbered | app/src/main/java/com/example/jerseywooly/db/MusicFile.kt:31-32 | inserted rows keep their order and content and get consecutive ids from the next free one |
| MusicFiles.NumberedSnoc | app/src/main/java/com/example/jerseywooly/db/MusicFile.kt:31-32 | inserting rows one at a time numbers them as inserting them together would |
| MusicFiles.ShorterThanSpec | app/src/main/java/com/example/jerseywooly/db/MusicFile.kt:43-47 | the length filter is inclusive (`length <= duration`) and only narrows the directory selection |
| MusicFiles.MaxIdIsLast | app/src/main/java/com/example/jerseywooly/db/MusicFile.kt:53-54 | with ids in table order, `MAX(id)` is the id of the most recently inserted row |
| MusicFiles.FilterValid | app/src/main/java/com/example/jerseywooly/db/MusicFile.kt:34-38 | deleting rows keeps ids in increasing order and within range |
| MusicFiles.CascadeSpec | app/src/main/java/com/example/jerseywooly/db/MusicFile.kt:14-15 | the cascade keeps exactly the rows whose directory row still exists, and the invariant |
| MusicFiles.AppendValid | app/src/main/java/com/example/jerseywooly/db/MusicFile.kt:31-32 | appending freshly numbered rows keeps the invariant and moves the counter past them |
| SelectedDirectories.InsertSpec | app/src/main/java/com/example/jerseywooly/db/SelectedDirectory.kt:24-25 | inserting with REPLACE keeps the unique index and id order, leaves each inserted path present, keeps rows of other paths and adds nothing else |
| SelectedDirectories.DeleteRowsSpec | app/src/main/java/com/example/jerseywooly/db/SelectedDirectory.kt:27-28 | `@Delete` removes exactly the rows whose primary key is a victim's, keeping the invariant |
| SelectedDirectories.DeleteContainSpec | app/src/main/java/com/example/jerseywooly/db/SelectedDirectory.kt:36-37 | the prefix delete removes exactly the rows whose path string starts with that of `dir` (descendants and string-prefix siblings), keeping the invariant |
| Database.AppDatabase.CascadeValid | app/src/main/java/com/example/jerseywooly/db/MusicFile.kt:15 | the three tables stay consistent after the cascade: every track row points at an existing directory row |
| Database.AppDatabase.InsertMusicDirectory | app/src/main/java/com/example/jerseywooly/db/MusicDirectory.kt:24-25 | returns the new row id; the directory's row is replaced by the new one, other rows stay, and tracks of a replaced row are cascaded away |
| Database.AppDatabase.DeleteAllMusicDirectories | app/src/main/java/com/example/jerseywooly/db/MusicDirectory.kt:27-28 | both the directory table and, by the cascade, the track table become empty; the selected roots stay |
| Database.AppDatabase.GetAllDirectories | app/src/main/java/com/example/jerseywooly/db/MusicDirectory.kt:30-31 | returns every directory row in table order |
| Database.AppDatabase.GetContainDirectories | app/src/main/java/com/example/jerseywooly/db/MusicDirectory.kt:33-34 | returns exactly the rows whose path string starts with that of `dir`, including every row under `dir` |
| Database.AppDatabase.DeleteContainDirectoriesScannedBefore | app/src/main/java/com/example/jerseywooly/db/MusicDirectory.kt:36-37 | removes exactly the stale rows under `dir`, compared in stored seconds, and cascades their tracks |
| Database.AppDatabase.InsertMusicFiles | app/src/main/java/com/example/jerseywooly/db/MusicFile.kt:31-32 | appends the rows with consecutive fresh ids when every row's directory exists; otherwise the statement fails and nothing changes |
| Database.AppDatabase.DeleteDirectoryId | app/src/main/java/com/example/jerseywooly/db/MusicFile.kt:34-35 | removes exactly the tracks of that directory id |
| Database.AppDatabase.DeleteAllMusicFiles | app/src/main/java/com/example/jerseywooly/db/MusicFile.kt:37-38 | empties the track table and nothing else |
| Database.AppDatabase.SelectInDirectory | app/src/main/java/com/example/jerseywooly/db/MusicFile.kt:40-41 | returns exactly the tracks of that directory id |
| Database.AppDatabase.SelectInDirectories | app/src/main/java/com/example/jerseywooly/db/MusicFile.kt:43-44 | returns exactly the tracks whose directory id is in the list |
| Database.AppDatabase.SelectInDirectoriesShorterThan | app/src/main/java/com/example/jerseywooly/db/MusicFile.kt:46-47 | returns exactly the tracks in the listed directories no longer than `duration` |
| Database.AppDatabase.CountInDirectories | app/src/main/java/com/example/jerseywooly/db/MusicFile.kt:49-50 | returns the number of track rows (the whole table, whatever the name says) |
| Database.AppDatabase.MaxId | app/src/main/java/com/example/jerseywooly/db/MusicFile.kt:53-54 | null on an empty table, else the largest track id |
| Database.AppDatabase.InsertSelected | app/src/main/java/com/example/jerseywooly/db/SelectedDirectory.kt:24-25 | each inserted path ends up selected exactly once, rows of other paths stay, nothing else is added |
| Database.AppDatabase.DeleteSelected | app/src/main/java/com/example/jerseywooly/db/SelectedDirectory.kt:27-28 | removes exactly the rows whose id is a victim's |
| Database.AppDatabase.GetAllDirectory | app/src/main/java/com/example/jerseywooly/db/SelectedDirectory.kt:30-31 | returns every selected row in table order |
| Database.AppDatabase.DeleteContainDirectory | app/src/main/java/com/example/jerseywooly/db/SelectedDirectory.kt:36-37 | removes exactly the selected rows whose path string starts with that of `dir`; none under `dir` is left |
| FileTree.Subdirs | app/src/main/java/com/example/jerseywooly/SearchFileWorker.kt:172 | a directory that cannot be listed has no subdirectories; otherwise its listing's subdirectories in order |
| FileTree.PreOrderReaches | app/src/main/java/com/example/jerseywooly/SearchFileWorker.kt:166-187 | the walk's order holds exactly the directories reachable from the start through listable directories |
| FileTree.ForestReaches | app/src/main/java/com/example/jerseywooly/SearchFileWorker.kt:167-186 | walking several start directories yields exactly what is reachable from one of them |
| FileTree.ReachesUnder | app/src/main/java/com/example/jerseywooly/SearchFileWorker.kt:172-176 | in a well-formed tree every reachable directory lies under the start, strictly unless it is the start |
| FileTree.PreOrderDistinct | app/src/main/java/com/example/jerseywooly/SearchFileWorker.kt:168-170 | in a well-formed tree the walk starts with the start directory and emits no path twice |
| FileTree.AudioFiles | app/src/main/java/com/example/jerseywooly/SearchFileWorker.kt:56-60 | null exactly when the directory cannot be listed; otherwise exactly its readable regular files named *.mp3 or *.wav |
| FileTree.HasAudioSpec | app/src/main/java/com/example/jerseywooly/SearchFileWorker.kt:62 | a directory is indexed exactly when it can be listed and holds an audio file |
| FileTree.AudioIgnoresCase | app/src/main/java/com/example/jerseywooly/SearchFileWorker.kt:58-59 | "Song.MP3" counts as audio |
| FileTree.AudioRejects | app/src/main/java/com/example/jerseywooly/SearchFileWorker.kt:57-59 | "song.mp3.txt" and an unreadable "song.mp3" do not count as audio |
| FileTree.NameWithoutExtension | app/src/main/java/com/example/jerseywooly/SearchFileWorker.kt:75 | the name up to its last '.', or the whole name when it has none |
| Scanning.DirWithIdx.constructor | app/src/main/java/com/example/jerseywooly/SearchFileWorker.kt:152-153 | a frame starts with its cursor on the second sibling |
| Scanning.DirWithIdx.IsLastDirectory | app/src/main/java/com/example/jerseywooly/SearchFileWorker.kt:154-155 | true exactly when every sibling has been handed out |
| Scanning.DirWithIdx.NextDirectory | app/src/main/java/com/example/jerseywooly/SearchFileWorker.kt:156-157 | returns the sibling under the cursor and moves the cursor on by one |
| Scanning.NextSibling | app/src/main/java/com/example/jerseywooly/SearchFileWorker.kt:181 | the top frame hands out its next sibling; the frames below are untouched |
| Scanning.PushFrame | app/src/main/java/com/example/jerseywooly/SearchFileWorker.kt:176 | a new frame over the subdirectories is pushed with its cursor past the first |
| Scanning.DescendStep | app/src/main/java/com/example/jerseywooly/SearchFileWorker.kt:173-176 | descending emits the first subdirectory next and leaves exactly the rest of the walk to do |
| Scanning.PopStep | app/src/main/java/com/example/jerseywooly/SearchFileWorker.kt:178-179 | popping an exhausted frame at a leaf leaves what is still to emit unchanged |
| Scanning.NextStep | app/src/main/java/com/example/jerseywooly/SearchFileWorker.kt:180-183 | at a leaf, the next sibling of the top frame is the next directory the walk has to emit |
| Scanning.WalkFrom | app/src/main/java/com/example/jerseywooly/SearchFileWorker.kt:168-185 | the directories emitted from one start directory are exactly its pre-order |
| Scanning.SearchDirectory | app/src/main/java/com/example/jerseywooly/SearchFileWorker.kt:166-187 | the emitted directories are the pre-orders of the start directories, one after the other |
| Scanning.WalkCoversTree | app/src/main/java/com/example/jerseywooly/SearchFileWorker.kt:166-187 | every reachable directory is emitted and nothing else; in a well-formed tree each path once, the start first |
| Scanning.ToIntOrNullRoundTrip | app/src/main/java/com/example/jerseywooly/SearchFileWorker.kt:82 | every `Int` is read back from its decimal string |
| Scanning.TrackRow | app/src/main/java/com/example/jerseywooly/SearchFileWorker.kt:73-95 | a row is built exactly when the duration is present and parses as an `Int`; it carries the file name, the directory id, the parsed duration as its length, the title or else the name without extension, and the artist or else "Unknown" |
| Scanning.Extracted | app/src/main/java/com/example/jerseywooly/SearchFileWorker.kt:69-97 | no more rows than audio files, each in that directory and named after one of them |
| Scanning.ExtractedStep | app/src/main/java/com/example/jerseywooly/SearchFileWorker.kt:69-96 | a file read without an exception contributes its row, if any, and the loop goes on |
| Scanning.ExtractedThrow | app/src/main/java/com/example/jerseywooly/SearchFileWorker.kt:98-103 | a file whose reading throws ends the loop with the rows inserted so far |
| Scanning.ExtractedDefaults | app/src/main/java/com/example/jerseywooly/SearchFileWorker.kt:73-79 | a track without title or artist metadata is stored under its name without extension and the artist "Unknown" |
| Scanning.ExtractedStopsAtThrow | app/src/main/java/com/example/jerseywooly/SearchFileWorker.kt:69-103 | the files after one whose reading throws are not indexed |
| Scanning.Clock.Now | app/src/main/java/com/example/jerseywooly/SearchFileWorker.kt:53 | `Instant.now()` returns the next reading of the clock |
| Scanning.LaterReading | app/src/main/java/com/example/jerseywooly/SearchFileWorker.kt:53 | a later clock reading is stored as no earlier second |
| Scanning.ScanStep | app/src/main/java/com/example/jerseywooly/SearchFileWorker.kt:53-105 | one directory's scan keeps the run's properties: untouched rows stay, only indexed directories add rows, each sweep leaves no stale row, an indexed directory keeps its row |
| Scanning.RunStep | app/src/main/java/com/example/jerseywooly/SearchFileWorker.kt:52-106 | a scan started later than every earlier one extends a run by one directory |
| Scanning.SearchFileWorker.InsertTrack | app/src/main/java/com/example/jerseywooly/SearchFileWorker.kt:86-94 | one track row is appended with the next id; the other tables are unchanged |
| Scanning.SearchFileWorker.InsertAudioFiles | app/src/main/java/com/example/jerseywooly/SearchFileWorker.kt:67-103 | the rows appended are exactly the extracted rows of the directory's audio files, with consecutive ids |
| Scanning.NumberedUnnumbered | app/src/main/java/com/example/jerseywooly/SearchFileWorker.kt:86-94 | a track inserted by `musicFileDao().insert` is, apart from its generated id, one of the rows handed to it |
| Scanning.TracksStep | app/src/main/java/com/example/jerseywooly/SearchFileWorker.kt:43-112 | scanning one more directory keeps the run's track facts: old tracks of surviving rows stay, every other track is an extracted row of a scanned directory |
| Scanning.SearchFileWorker.IndexDirectory | app/src/main/java/com/example/jerseywooly/SearchFileWorker.kt:62-103 | the directory's row is replaced by one with a fresh id and the current stored second, and its tracks are exactly the extracted rows; every other track whose directory row survives stays, every new track is an extracted row numbered from the next free id, and the selected roots are untouched |
| Scanning.SearchFileWorker.IndexAndSweep | app/src/main/java/com/example/jerseywooly/SearchFileWorker.kt:62-105 | after indexing and the sweep, rows outside the directory stay, rows under it are stamped no earlier than the start second, and the directory keeps its new row; a row under it stamped at or after the start second survives, the only new row is the directory's, tracks of surviving rows stay, new tracks are its extracted rows, and the selected roots are untouched |
| Scanning.SearchFileWorker.ScanDirectory | app/src/main/java/com/example/jerseywooly/SearchFileWorker.kt:53-105 | one emitted directory: the start reading is taken first, and the rows under the directory are as `IndexAndSweep` leaves them, or only swept when there is no audio; rows neither replaced nor stale survive, tracks of surviving rows stay, every new track is an extracted row of this directory, and the selected roots are untouched |
| Scanning.SearchFileWorker.DoWork | app/src/main/java/com/example/jerseywooly/SearchFileWorker.kt:43-112 | the directories processed are a prefix of the walk; success exactly when all were processed, failure at the first directory whose processing throws; the run's properties hold for the processed prefix; every track either was there before or is an extracted row of a processed directory with audio, tracks whose directory row survives stay, and the selected roots are untouched |
| Playlist.BudgetExact | app/src/main/java/com/example/jerseywooly/viewmodel/MainViewModel.kt:81 | up to 35791 minutes the budget is exactly `minute * 60000` ms |
| Playlist.BudgetWraps | app/src/main/java/com/example/jerseywooly/viewmodel/MainViewModel.kt:81 | 35792 minutes wrap to a negative `Int` budget |
| Playlist.TotalLengthSnoc | app/src/main/java/com/example/jerseywooly/viewmodel/MainViewModel.kt:59 | adding an entry adds its track's length to the total |
| Playlist.TotalLengthBounds | app/src/main/java/com/example/jerseywooly/viewmodel/MainViewModel.kt:59 | tracks of positive length give a total at least the number of entries and at least each track's length |
| Playlist.FirstWithId | app/src/main/java/com/example/jerseywooly/viewmodel/MainViewModel.kt:101 | the first directory row with the id, or none exactly when no row has it |
| Playlist.PlaylistInfoShowsTotal | app/src/main/java/com/example/jerseywooly/viewmodel/MainViewModel.kt:58-60 | the info shows the entry count, and for a total that fits in an `Int` the text shown reads back as the total rounded up to a whole second |
| Playlist.PlaylistLines | app/src/main/java/com/example/jerseywooly/viewmodel/MainViewModel.kt:141-152 | one line per preview entry, in playlist order |
| Playlist.PlaylistLineResolves | app/src/main/java/com/example/jerseywooly/viewmodel/MainViewModel.kt:142-150 | an absolute line parses to the track's path; a relative line resolved against the playlist's directory names the same file |
| Playlist.MainViewModel.DrawRound | app/src/main/java/com/example/jerseywooly/viewmodel/MainViewModel.kt:98-103 | the inner loop adds at least one drawn track, each from the queried list with its directory row, and lowers the remaining time by exactly their lengths; the `j`-th new entry is the result of draw number `draws + j` paired with the first directory row of its id, one more draw is made than entries are added, and that last drawn track is longer than the time left |
| Playlist.FirstWithIdFound | app/src/main/java/com/example/jerseywooly/viewmodel/MainViewModel.kt:89-101 | `first { }` finds a row for every id taken from the directory list |
| Playlist.DrawnFromSnoc | app/src/main/java/com/example/jerseywooly/viewmodel/MainViewModel.kt:99-102 | appending the next draw with its directory row extends the record of draws in order |
| Playlist.DrawnFromMembers | app/src/main/java/com/example/jerseywooly/viewmodel/MainViewModel.kt:99-101 | drawn entries are tracks of the queried list, each with the directory row of its own id |
| Playlist.MainViewModel.EligibleDirectories | app/src/main/java/com/example/jerseywooly/viewmodel/MainViewModel.kt:84-89 | exactly the directory rows under some selected root, with their ids in the same order |
| Playlist.MainViewModel.MakePlayList | app/src/main/java/com/example/jerseywooly/viewmodel/MainViewModel.kt:80-106 | empty for a negative budget; otherwise the total fits the budget, every entry is an eligible track with its own directory row, and no eligible track fits the time left |
| Playlist.MainViewModel.SavePlayList | app/src/main/java/com/example/jerseywooly/viewmodel/MainViewModel.kt:114-157 | no save directory gives null; otherwise the `<app>_<date>.m3u` file in it, written with one line per entry exactly when it was newly created |
| Playlist.PlaylistFileParent | app/src/main/java/com/example/jerseywooly/viewmodel/MainViewModel.kt:118-121 | the playlist file sits directly in the save directory, the base for the relative lines |
| DirectoryBrowser.DisplayNameIdentifies | app/src/main/java/com/example/jerseywooly/viewmodel/DirectoryViewModel.kt:135-139 | ".." for the parent link; the full path parses back to the directory; the plain name is its last segment |
| DirectoryBrowser.FirstAncestor | app/src/main/java/com/example/jerseywooly/viewmodel/DirectoryViewModel.kt:156 | the first selected row that is an ancestor-or-self of the path, or none |
| DirectoryBrowser.ClassifySpec | app/src/main/java/com/example/jerseywooly/viewmodel/DirectoryViewModel.kt:152-164 | `UnContained` exactly when no selected root is an ancestor-or-self; `Contained` when the first such root is the path itself, `UnderSelected` (the source's `DirContain.Parent`) when it is a strict ancestor; `isContained` exactly when some root is above or at the path |
| DirectoryBrowser.UnderRootIsContained | app/src/main/java/com/example/jerseywooly/viewmodel/DirectoryViewModel.kt:184-192 | everything at or under a selected root counts as contained |
| DirectoryBrowser.NestedRootShowsUnder | app/src/main/java/com/example/jerseywooly/viewmodel/DirectoryViewModel.kt:156-163 | a selected root under another, earlier selected root shows as `UnderSelected` |
| DirectoryBrowser.Classified | app/src/main/java/com/example/jerseywooly/viewmodel/DirectoryViewModel.kt:83-85 | one entry per path, in order, each with the given name kind and its classification |
| DirectoryBrowser.BrowseEntriesSpec | app/src/main/java/com/example/jerseywooly/viewmodel/DirectoryViewModel.kt:73-88 | ".." first exactly when the directory has a parent, then each listed subdirectory in order, all classified; empty only for the root without subdirectories |
| DirectoryBrowser.SelectRootSpec | app/src/main/java/com/example/jerseywooly/viewmodel/DirectoryViewModel.kt:55-59 | selecting a directory removes every row under its path string and appends its own row; the table stays valid and holds the path once |
| DirectoryBrowser.SelectRootClassifies | app/src/main/java/com/example/jerseywooly/viewmodel/DirectoryViewModel.kt:55-59 | after selecting, the directory shows as `Contained`, or as `UnderSelected` when a strict ancestor was already selected; everything under it is contained |
| DirectoryBrowser.FindSame | app/src/main/java/com/example/jerseywooly/viewmodel/DirectoryViewModel.kt:62 | the selected row for the same path, or none exactly when there is no such row |
| DirectoryBrowser.UnselectRootSpec | app/src/main/java/com/example/jerseywooly/viewmodel/DirectoryViewModel.kt:61-66 | removing a root removes exactly the row for that path and keeps the invariant |
| DirectoryBrowser.DirectoryViewModel.constructor | app/src/main/java/com/example/jerseywooly/viewmodel/DirectoryViewModel.kt:31-45 | the shown directory is the saved start directory when there is one, else the default start directory |
| DirectoryBrowser.DirectoryViewModel.ChangeDirectory | app/src/main/java/com/example/jerseywooly/viewmodel/DirectoryViewModel.kt:50-53 | the shown directory changes only to a directory |
| DirectoryBrowser.DirectoryViewModel.SelectDirectory | app/src/main/java/com/example/jerseywooly/viewmodel/DirectoryViewModel.kt:55-59 | a directory is made a root as `SelectRoot` says; anything else leaves the table unchanged |
| DirectoryBrowser.DirectoryViewModel.DeleteDirectory | app/src/main/java/com/example/jerseywooly/viewmodel/DirectoryViewModel.kt:61-66 | the selected row for that path, if any, is deleted |
| DirectoryBrowser.DirectoryViewModel.CreateDirectory | app/src/main/java/com/example/jerseywooly/viewmodel/DirectoryViewModel.kt:148-170 | the entry carries the path, the name kind and the path's classification against the selected roots |
| DirectoryBrowser.DirectoryViewModel.GetDirectories | app/src/main/java/com/example/jerseywooly/viewmodel/DirectoryViewModel.kt:73-88 | the browser list of the directory, as `BrowseEntriesSpec` describes it |
| DirectoryBrowser.DirectoryViewModel.InitDirectories | app/src/main/java/com/example/jerseywooly/viewmodel/DirectoryViewModel.kt:94-101 | one full-path entry per storage volume directory, in order |
| DirectoryBrowser.DirectoryViewModel.Directories | app/src/main/java/com/example/jerseywooly/viewmodel/DirectoryViewModel.kt:34-38 | the browser list of the shown directory, or the device roots when that list is empty |

## Left out

- Android plumbing is not modelled: `Log` calls, `setProgressAsync`, notifications, `WorkManager` scheduling, `StateFlow`/`LiveData` wiring and coroutine dispatch. They have no effect on the modelled state.
- `DataBaseConnect.kt` and the settings store are not part of this model. The database is an `AppDatabase` object, and the stored settings (`useAbsolutePath`, `saveDirectoryPath`, the start directories) are constructor parameters.
- The clock: `Instant.now()` is the next reading of a `Clock` whose readings never decrease. A wall clock that steps back is not modelled.
- The date-time text of the playlist file name, the app name and the result of `createNewFile` are parameters of `SavePlayList`. The writing itself is returned as the list of lines.
- `MediaMetadataRetriever` is an oracle `meta` that either throws or returns the three metadata strings for a file.
- `random()` is an oracle, the `random` field of `MainViewModel`: `random(n, files)` is the track returned by the `n`-th draw of a `makePlayList` run, always one of `files`. Which track that is, and its distribution, are not modelled.
- Exceptions that escape `doWork`'s loop (I/O errors, a `SecurityException` from listing) are modelled as a set `faulty` of directories whose processing throws. This happens before anything of that directory is written.
- The flow of `searchDirectory` is collected as it is produced. The model computes the walk first and then scans the directories in emitted order. This gives the same result, because the scan does not change the file tree.
- `Scanning.DirWithIdx`: `dirs` is a `seq<Node>`, not an `Array<File>`. The frame never writes to it.
- `File.listFiles`, `isDirectory`, `canRead`, `isFile` and the device's storage volumes are fixed oracles: the `FileTree.Node` tree, and the `isDirectory`, `listing` and `deviceRoots` fields of `DirectoryViewModel`.
- `DirectoryBrowser.DirectoryViewModel.InitDirectories` models only the branch for Android 11 and later (storage volumes). The branch for older versions, with fixed `Environment` directories, is left out because it depends on the SDK level.
- `isSameFileAs` is path equality. Symbolic links and hard links are not modelled. `toAbsolutePath` and `absolutePath` are the identity, because every modelled path is absolute.
- `DirectoryBrowser.DirectoryViewModel.DeleteDirectory` reads the current table. The source reads a `StateFlow` snapshot of it, which may lag behind.
- SQL `LIKE` is modelled as a case-sensitive prefix match on path strings. The wildcards `%` and `_` inside a path, and SQLite's ASCII case folding in `LIKE`, are not modelled.
- `FileTree.EndsWithIgnoreCase` and `Scanning.ToIntOrNull` handle ASCII only. Unicode case folding and non-ASCII digits are not modelled.
- `Database.AppDatabase.InsertMusicFiles`: a foreign-key violation is modelled as `ok == false` with no change. In the source it throws; the worker never causes one.
- `Playlist.MainViewModel.MakePlayList` requires every track to be at least 1 ms long. The source loops forever on a zero-length track; the model leaves that case out so that the loops terminate.
- `Playlist.FirstWithId`: `musicDirs.first { }` throws when no row has the id. Every drawn track's directory is among `musicDirs`, so the model never takes that branch.
- `Playlist.PlaylistInfoShowsTotal` states the meaning of the summary only for totals that fit in an `Int`. The sum itself is modelled with wrap-around.
