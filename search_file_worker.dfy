/**
 * SearchFileWorker.kt: the background scan. `searchDirectory` walks each start directory
 * depth first with an explicit stack of `DirWithIdx` frames; `doWork` indexes every directory
 * the walk emits (audio filter, directory upsert, one row per readable track) and then sweeps
 * the stale rows under it.
 */
module Scanning {
  import opened Wrappers
  import opened Ints
  import opened Seqs
  import opened Paths
  import opened Converter
  import opened FileTree
  import MD = MusicDirectories
  import MF = MusicFiles
  import opened Database

  /** A frame of the walk: an array of sibling directories and the index of the next one to visit. */
  class DirWithIdx {
    const dirs: seq<Node>
    var idx: int

    /** The cursor stays within the siblings; the first sibling is visited when the frame is pushed. */
    ghost predicate Valid()
      reads this
    {
      1 <= idx <= |dirs|
    }

    constructor (dirs: seq<Node>)
      requires |dirs| >= 1
      ensures this.dirs == dirs && idx == 1
      ensures Valid()
    {
      this.dirs := dirs;
      idx := 1;
    }

    /** `isLastDirectory`: all siblings have been handed out. */
    function IsLastDirectory(): (b: bool)
      reads this
      ensures b <==> idx >= |dirs|
      ensures Valid() ==> (b <==> dirs[idx..] == [])
    {
      idx >= |dirs|
    }

    /** `nextDirectory`: the sibling under the cursor; the cursor moves on. */
    method NextDirectory() returns (d: Node)
      requires Valid() && idx < |dirs|
      modifies this
      ensures d == dirs[old(idx)]
      ensures idx == old(idx) + 1
      ensures Valid()
    {
      d := dirs[idx];
      idx := idx + 1;
    }
  }

  /** A frame's state as a value: its siblings and its cursor. */
  datatype FrameView = FrameView(dirs: seq<Node>, idx: int)

  ghost predicate ViewOk(view: seq<FrameView>) {
    forall i :: 0 <= i < |view| ==> 1 <= view[i].idx <= |view[i].dirs|
  }

  /** What the walk still has to emit once the current directory's subtree is done: the unvisited siblings of each frame, top first. */
  ghost function Pending(view: seq<FrameView>): seq<Node>
    requires ViewOk(view)
    decreases |view|
  {
    if view == [] then []
    else
      var top := view[|view| - 1];
      PreOrderForest(top.dirs[top.idx..]) + Pending(view[..|view| - 1])
  }

  lemma PendingSnoc(view: seq<FrameView>, top: FrameView)
    requires ViewOk(view) && 1 <= top.idx <= |top.dirs|
    ensures ViewOk(view + [top])
    ensures Pending(view + [top]) == PreOrderForest(top.dirs[top.idx..]) + Pending(view)
  {
    assert (view + [top])[..|view|] == view;
  }

  /** Everything the walk still has to emit after `current`: its subtrees, then the pending siblings. */
  ghost function Todo(current: Node, view: seq<FrameView>): seq<Node>
    requires ViewOk(view)
  {
    PreOrderForest(Subdirs(current)) + Pending(view)
  }

  /** A non-empty forest's pre-order: the first tree's root, its subtrees, then the other trees. */
  lemma ForestCons(s: seq<Node>)
    requires s != []
    ensures PreOrderForest(s) == [s[0]] + PreOrderForest(Subdirs(s[0])) + PreOrderForest(s[1..])
  {
    PreOrderUnfold(s[0]);
  }

  /** Descending: the first subdirectory is emitted next and its siblings are pushed as a frame. */
  lemma DescendStep(current: Node, view: seq<FrameView>)
    requires ViewOk(view) && Subdirs(current) != []
    ensures ViewOk(view + [FrameView(Subdirs(current), 1)])
    ensures Todo(current, view) != [] && Todo(current, view)[0] == Subdirs(current)[0]
    ensures Todo(Subdirs(current)[0], view + [FrameView(Subdirs(current), 1)]) == Todo(current, view)[1..]
  {
    var ds := Subdirs(current);
    var rest := TodoAfterPush(ds, view);
    TodoBeforePush(current, view, rest);
    assert ([ds[0]] + rest)[1..] == rest;
  }

  /** What is left after pushing a frame over `ds` and descending into its first directory. */
  lemma TodoAfterPush(ds: seq<Node>, view: seq<FrameView>) returns (rest: seq<Node>)
    requires ViewOk(view) && ds != []
    ensures ViewOk(view + [FrameView(ds, 1)])
    ensures rest == PreOrderForest(Subdirs(ds[0])) + PreOrderForest(ds[1..]) + Pending(view)
    ensures Todo(ds[0], view + [FrameView(ds, 1)]) == rest
  {
    PendingSnoc(view, FrameView(ds, 1));
    rest := PreOrderForest(Subdirs(ds[0])) + PreOrderForest(ds[1..]) + Pending(view);
  }

  lemma TodoBeforePush(current: Node, view: seq<FrameView>, rest: seq<Node>)
    requires ViewOk(view) && Subdirs(current) != []
    requires rest == PreOrderForest(Subdirs(Subdirs(current)[0])) + PreOrderForest(Subdirs(current)[1..]) + Pending(view)
    ensures Todo(current, view) == [Subdirs(current)[0]] + rest
  {
    ForestCons(Subdirs(current));
  }

  /** At a leaf whose top frame is exhausted, popping the frame leaves what is still to emit unchanged. */
  lemma PopStep(current: Node, view: seq<FrameView>)
    requires ViewOk(view) && view != [] && Subdirs(current) == []
    requires view[|view| - 1].idx >= |view[|view| - 1].dirs|
    ensures ViewOk(view[..|view| - 1])
    ensures Todo(current, view[..|view| - 1]) == Todo(current, view)
  {
    var below := view[..|view| - 1];
    assert below + [view[|view| - 1]] == view;
    PendingSnoc(below, view[|view| - 1]);
    assert view[|view| - 1].dirs[view[|view| - 1].idx..] == [];
  }

  /** At a leaf whose top frame has siblings left, the next sibling is emitted and the cursor moves on. */
  lemma NextStep(current: Node, view: seq<FrameView>)
    requires ViewOk(view) && view != [] && Subdirs(current) == []
    requires view[|view| - 1].idx < |view[|view| - 1].dirs|
    ensures var top := view[|view| - 1];
      && ViewOk(view[..|view| - 1] + [FrameView(top.dirs, top.idx + 1)])
      && Todo(current, view) != [] && Todo(current, view)[0] == top.dirs[top.idx]
      && Todo(top.dirs[top.idx], view[..|view| - 1] + [FrameView(top.dirs, top.idx + 1)]) == Todo(current, view)[1..]
  {
    var top := view[|view| - 1];
    var below := view[..|view| - 1];
    var rest := TodoAfterNext(below, top);
    assert below + [top] == view;
    TodoBeforeNext(current, below, top, rest);
    assert ([top.dirs[top.idx]] + rest)[1..] == rest;
  }

  /** What is left after moving the cursor of `top` past its next sibling and descending into that sibling. */
  lemma TodoAfterNext(below: seq<FrameView>, top: FrameView) returns (rest: seq<Node>)
    requires ViewOk(below) && 1 <= top.idx < |top.dirs|
    ensures ViewOk(below + [FrameView(top.dirs, top.idx + 1)])
    ensures rest == PreOrderForest(Subdirs(top.dirs[top.idx])) + PreOrderForest(top.dirs[top.idx + 1..]) + Pending(below)
    ensures Todo(top.dirs[top.idx], below + [FrameView(top.dirs, top.idx + 1)]) == rest
  {
    PendingSnoc(below, FrameView(top.dirs, top.idx + 1));
    rest := PreOrderForest(Subdirs(top.dirs[top.idx])) + PreOrderForest(top.dirs[top.idx + 1..]) + Pending(below);
  }

  lemma TodoBeforeNext(current: Node, below: seq<FrameView>, top: FrameView, rest: seq<Node>)
    requires ViewOk(below) && 1 <= top.idx < |top.dirs| && Subdirs(current) == []
    requires rest == PreOrderForest(Subdirs(top.dirs[top.idx])) + PreOrderForest(top.dirs[top.idx + 1..]) + Pending(below)
    ensures ViewOk(below + [top])
    ensures Todo(current, below + [top]) == [top.dirs[top.idx]] + rest
  {
    PendingSnoc(below, top);
    var siblings := top.dirs[top.idx..];
    var x := siblings[0];
    var a, b, p := PreOrderForest(Subdirs(x)), PreOrderForest(siblings[1..]), Pending(below);
    assert siblings[1..] == top.dirs[top.idx + 1..];
    ForestCons(siblings);
    assert PreOrderForest(siblings) == [x] + a + b;
    ConsAssoc(x, a, b, p);
    assert PreOrderForest(Subdirs(current)) == [];
  }

  lemma ConsAssoc(x: Node, a: seq<Node>, b: seq<Node>, p: seq<Node>)
    ensures [] + (([x] + a + b) + p) == [x] + (a + b + p)
  {
  }

  lemma Advance(emitted: seq<Node>, todo: seq<Node>, whole: seq<Node>)
    requires emitted + todo == whole && todo != []
    ensures (emitted + [todo[0]]) + todo[1..] == whole
  {
    assert todo == [todo[0]] + todo[1..];
  }

  /** The frames on the stack are distinct objects whose states are `view`, bottom first. */
  ghost predicate Mirrors(stack: seq<DirWithIdx>, view: seq<FrameView>)
    reads stack
  {
    && |stack| == |view|
    && (forall i :: 0 <= i < |stack| ==> stack[i].dirs == view[i].dirs && stack[i].idx == view[i].idx)
    && (forall i, j :: 0 <= i < j < |stack| ==> stack[i] != stack[j])
  }

  /** Hands out the next sibling of the top frame; the other frames are untouched. */
  method NextSibling(stack: seq<DirWithIdx>, ghost view: seq<FrameView>) returns (d: Node, ghost view': seq<FrameView>)
    requires Mirrors(stack, view) && ViewOk(view) && stack != []
    requires !stack[|stack| - 1].IsLastDirectory()
    modifies stack[|stack| - 1]
    ensures var top := view[|view| - 1];
      && d == top.dirs[top.idx]
      && view' == view[..|view| - 1] + [FrameView(top.dirs, top.idx + 1)]
    ensures Mirrors(stack, view')
  {
    var top := stack[|stack| - 1];
    d := top.NextDirectory();
    view' := view[..|view| - 1] + [FrameView(top.dirs, top.idx)];
  }

  /** Pushes a fresh frame over `dirs` with its cursor past the first sibling. */
  method PushFrame(stack: seq<DirWithIdx>, ghost view: seq<FrameView>, dirs: seq<Node>) returns (frame: DirWithIdx)
    requires Mirrors(stack, view) && |dirs| >= 1
    ensures fresh(frame)
    ensures Mirrors(stack + [frame], view + [FrameView(dirs, 1)])
  {
    frame := new DirWithIdx(dirs);
  }

  lemma MirrorsPop(stack: seq<DirWithIdx>, view: seq<FrameView>)
    requires Mirrors(stack, view) && stack != []
    ensures Mirrors(stack[..|stack| - 1], view[..|view| - 1])
  {
  }

  /** Every frame on the stack was allocated by the walk. */
  twostate predicate AllFresh(new stack: seq<DirWithIdx>) {
    forall i :: 0 <= i < |stack| ==> fresh(stack[i])
  }

  twostate lemma AllFreshPush(new stack: seq<DirWithIdx>, new frame: DirWithIdx)
    requires AllFresh(stack) && fresh(frame)
    ensures AllFresh(stack + [frame])
  {
  }

  twostate lemma AllFreshPop(new stack: seq<DirWithIdx>)
    requires AllFresh(stack) && stack != []
    ensures AllFresh(stack[..|stack| - 1])
  {
  }

  /** The walk from one start directory: lines 168-185 of `searchDirectory`. */
  method WalkFrom(root: Node) returns (emitted: seq<Node>)
    ensures emitted == PreOrder(root)
  {
    ghost var whole := PreOrder(root);
    var current := root;
    var first := new DirWithIdx([current]);
    var stack := [first];
    emitted := [current];
    ghost var view := [FrameView([current], 1)];
    PreOrderUnfold(root);
    PendingSnoc([], FrameView([current], 1));
    assert PreOrderForest([current][1..]) == [];
    ghost var todo := Todo(current, view);
    while stack != []
      invariant ViewOk(view) && Mirrors(stack, view)
      invariant AllFresh(stack)
      invariant stack == [] ==> Subdirs(current) == []
      invariant todo == Todo(current, view)
      invariant emitted + todo == whole
      decreases |todo|, |stack|
    {
      var directories := Subdirs(current);
      if directories != [] {
        var frame := PushFrame(stack, view, directories);
        AllFreshPush(stack, frame);
        DescendStep(current, view);
        Advance(emitted, todo, whole);
        view := view + [FrameView(directories, 1)];
        current := directories[0];
        emitted := emitted + [current];
        stack := stack + [frame];
        todo := todo[1..];
      } else if stack[|stack| - 1].IsLastDirectory() {
        PopStep(current, view);
        MirrorsPop(stack, view);
        AllFreshPop(stack);
        stack := stack[..|stack| - 1];
        view := view[..|view| - 1];
      } else {
        NextStep(current, view);
        Advance(emitted, todo, whole);
        current, view := NextSibling(stack, view);
        emitted := emitted + [current];
        todo := todo[1..];
      }
    }
    assert view == [] && Subdirs(current) == [];
    assert todo == [];
  }

  /** `searchDirectory`: each start directory in turn, walked in pre-order. */
  method SearchDirectory(selectedDirectories: seq<Node>) returns (emitted: seq<Node>)
    ensures emitted == PreOrderForest(selectedDirectories)
  {
    emitted := [];
    for r := 0 to |selectedDirectories|
      invariant emitted == PreOrderForest(selectedDirectories[..r])
    {
      var walked := WalkFrom(selectedDirectories[r]);
      PreOrderForestSnoc(selectedDirectories[..r], selectedDirectories[r]);
      assert selectedDirectories[..r + 1] == selectedDirectories[..r] + [selectedDirectories[r]];
      emitted := emitted + walked;
    }
    assert selectedDirectories[..|selectedDirectories|] == selectedDirectories;
  }

  /** Every directory reachable from a start directory is emitted, and nothing else; in a well-formed tree each path once. */
  lemma WalkCoversTree(root: Node, x: Node)
    ensures x in PreOrder(root) <==> Reaches(root, x)
    ensures WellFormed(root) ==> PreOrder(root)[0] == root && DistinctKeys(PathOf, PreOrder(root))
  {
    PreOrderReaches(root, x);
    if WellFormed(root) {
      PreOrderDistinct(root);
    }
  }

  // ----- reading a track -----

  /** `String.toIntOrNull()` in radix 10: an optional sign, then ASCII digits, within the `Int` range. */
  function ToIntOrNull(s: string): Option<Int32> {
    if s == [] then None
    else if s[0] == '-' || s[0] == '+' then
      if |s| == 1 || !AllDigits(s[1..]) then None
      else
        var v: int := if s[0] == '-' then -(DigitsValue(s[1..]) as int) else DigitsValue(s[1..]);
        if IsInt(v) then Some(v) else None
    else if AllDigits(s) && IsInt(DigitsValue(s)) then Some(DigitsValue(s))
    else None
  }

  /** Every `Int` is read back from its decimal string. */
  lemma ToIntOrNullRoundTrip(n: Int32)
    ensures ToIntOrNull(IntToString(n)) == Some(n)
  {
    if n < 0 {
      var s := IntToString(n);
      var m: nat := 0 - n as int;
      assert s[1..] == NatToString(m);
      NatToStringValue(m);
    } else {
      var s := NatToString(n);
      assert IsDigit(s[0]);
      NatToStringValue(n);
    }
  }

  /** What the metadata reader gives for one file: an exception, or the title, artist and duration strings it found. */
  datatype Extraction = Threw | Read(title: Option<string>, artist: Option<string>, duration: Option<string>)

  /** The row built for a file whose metadata was read, or None when its duration is missing or does not parse. */
  function TrackRow(e: FileEntry, title: Option<string>, artist: Option<string>, duration: Option<string>, dirId: int): (r: Option<MF.MusicFile>)
    ensures r.Some? <==> duration.Some? && ToIntOrNull(duration.value).Some?
    ensures r.Some? ==> r.value.directoryId == dirId && r.value.fileName == e.name && r.value.id == 0
    ensures r.Some? ==> r.value.length == ToIntOrNull(duration.value).value
    ensures r.Some? ==> r.value.title == title.GetOr(NameWithoutExtension(e.name)) && r.value.artist == artist.GetOr("Unknown")
  {
    var length := if duration.Some? then ToIntOrNull(duration.value) else None;
    if length.Some? then
      Some(MF.MusicFile(0, title.GetOr(NameWithoutExtension(e.name)), artist.GetOr("Unknown"), length.value, e.name, dirId))
    else None
  }

  /**
   * The rows the file loop of `doWork` inserts for the audio files of `dir`, in order:
   * one per file whose duration parses, stopping at the first file whose reading throws.
   */
  function Extracted(meta: (Path, FileEntry) -> Extraction, dir: Path, audio: seq<FileEntry>, dirId: int): (r: seq<MF.MusicFile>)
    ensures |r| <= |audio|
    ensures forall f :: f in r ==> f.id == 0 && f.directoryId == dirId && exists e :: e in audio && f.fileName == e.name
  {
    if audio == [] then []
    else match meta(dir, audio[0])
      case Threw => []
      case Read(title, artist, duration) =>
        var row := TrackRow(audio[0], title, artist, duration, dirId);
        (if row.Some? then [row.value] else []) + Extracted(meta, dir, audio[1..], dirId)
  }

  /** One step of the file loop: a readable file contributes its row, if any, and the loop moves on. */
  lemma ExtractedStep(meta: (Path, FileEntry) -> Extraction, dir: Path, audio: seq<FileEntry>, i: nat, dirId: int, done: seq<MF.MusicFile>)
    requires i < |audio| && meta(dir, audio[i]).Read?
    requires done + Extracted(meta, dir, audio[i..], dirId) == Extracted(meta, dir, audio, dirId)
    ensures var m := meta(dir, audio[i]);
      var row := TrackRow(audio[i], m.title, m.artist, m.duration, dirId);
      (if row.Some? then done + [row.value] else done) + Extracted(meta, dir, audio[i + 1..], dirId) == Extracted(meta, dir, audio, dirId)
  {
    assert audio[i..][0] == audio[i] && audio[i..][1..] == audio[i + 1..];
  }

  /** A file whose reading throws: what was inserted so far is all the loop inserts. */
  lemma ExtractedThrow(meta: (Path, FileEntry) -> Extraction, dir: Path, audio: seq<FileEntry>, i: nat, dirId: int, done: seq<MF.MusicFile>)
    requires i < |audio| && meta(dir, audio[i]).Threw?
    requires done + Extracted(meta, dir, audio[i..], dirId) == Extracted(meta, dir, audio, dirId)
    ensures done == Extracted(meta, dir, audio, dirId)
  {
    assert audio[i..][0] == audio[i];
  }

  /** A track without title or artist metadata is indexed under its file name and the artist "Unknown". */
  lemma ExtractedDefaults(meta: (Path, FileEntry) -> Extraction, dir: Path, e: FileEntry, duration: string, dirId: int)
    requires meta(dir, e) == Read(None, None, Some(duration)) && ToIntOrNull(duration).Some?
    ensures Extracted(meta, dir, [e], dirId) == [MF.MusicFile(0, NameWithoutExtension(e.name), "Unknown", ToIntOrNull(duration).value, e.name, dirId)]
  {
    assert [e][1..] == [];
  }

  /** A file whose reading throws ends the loop: the files after it are not indexed. */
  lemma ExtractedStopsAtThrow(meta: (Path, FileEntry) -> Extraction, dir: Path, before: seq<FileEntry>, e: FileEntry, after: seq<FileEntry>, dirId: int)
    requires meta(dir, e) == Threw
    ensures Extracted(meta, dir, before + [e] + after, dirId) == Extracted(meta, dir, before + [e], dirId)
    decreases |before|
  {
    if before == [] {
      assert ([e] + after)[0] == e && [e][0] == e;
    } else {
      assert (before + [e] + after)[1..] == before[1..] + [e] + after;
      assert (before + [e])[1..] == before[1..] + [e];
      ExtractedStopsAtThrow(meta, dir, before[1..], e, after, dirId);
    }
  }

  /** A stored track with its generated id cleared: the row as the file loop built it. */
  function Unnumbered(f: MF.MusicFile): MF.MusicFile {
    f.(id := 0)
  }

  /** A numbered row of rows built with id 0 is one of them with its id filled in, so clearing the id gives it back. */
  lemma NumberedUnnumbered(rows: seq<MF.MusicFile>, nextId: int, f: MF.MusicFile)
    requires forall r :: r in rows ==> r.id == 0
    requires f in MF.Numbered(rows, nextId)
    ensures Unnumbered(f) in rows && f.directoryId == rows[f.id - nextId].directoryId
  {
    var i :| 0 <= i < |rows| && MF.Numbered(rows, nextId)[i] == f;
    assert rows[i] in rows;
    assert Unnumbered(f) == rows[i];
  }

  // ----- the clock -----

  /** `Instant.now()`: the `ticks`-th reading of a clock that never runs backwards. */
  class Clock {
    const reading: nat -> Instant
    var ticks: nat

    ghost predicate Valid()
      reads this
    {
      forall i, j :: 0 <= i <= j ==> NotAfter(reading(i), reading(j))
    }

    constructor (reading: nat -> Instant)
      requires forall i, j :: 0 <= i <= j ==> NotAfter(reading(i), reading(j))
      ensures this.reading == reading && ticks == 0
      ensures Valid()
    {
      this.reading := reading;
      ticks := 0;
    }

    method Now() returns (t: Instant)
      modifies this
      ensures t == reading(old(ticks)) && ticks == old(ticks) + 1
    {
      t := reading(ticks);
      ticks := ticks + 1;
    }
  }

  lemma LaterReading(clock: Clock, i: nat, j: nat)
    requires clock.Valid() && i <= j
    ensures StoredSeconds(clock.reading(i)) <= StoredSeconds(clock.reading(j))
  {
    StoredOrder(clock.reading(i), clock.reading(j));
  }

  /** `Result.success()` or `Result.failure()`. */
  datatype WorkResult = Success | Failure

  /** Rows whose path lies under none of the processed directories are still in the table. */
  ghost predicate Untouched(before: seq<MD.MusicDirectory>, after: seq<MD.MusicDirectory>, done: seq<Node>) {
    forall x :: x in before && (forall k :: 0 <= k < |done| ==> !Like(x.directory, done[k].path)) ==> x in after
  }

  /** Every row is an old row or the row of a processed directory that had audio. */
  ghost predicate OnlyIndexed(before: seq<MD.MusicDirectory>, after: seq<MD.MusicDirectory>, done: seq<Node>) {
    forall x :: x in after ==> x in before || exists k :: 0 <= k < |done| && HasAudio(done[k]) && x.directory == done[k].path
  }

  /** The sweep of each processed directory left under it only rows stamped no earlier than its start second. */
  ghost predicate Swept(after: seq<MD.MusicDirectory>, done: seq<Node>, stamps: seq<int>) {
    && |stamps| == |done|
    && forall k, x :: 0 <= k < |done| && x in after && Like(x.directory, done[k].path) ==> x.lastScannedAt >= stamps[k]
  }

  /** The stored seconds of the clock readings taken at the given ticks. */
  function StartSeconds(reading: nat -> Instant, ticks: seq<nat>): (r: seq<int>)
    ensures |r| == |ticks| && forall k :: 0 <= k < |ticks| ==> r[k] == StoredSeconds(reading(ticks[k]))
  {
    seq(|ticks|, k requires 0 <= k < |ticks| => StoredSeconds(reading(ticks[k])))
  }

  /** A processed directory with audio keeps a row unless a later processed directory's path string is a prefix of its own. */
  ghost predicate Remembered(after: seq<MD.MusicDirectory>, done: seq<Node>) {
    forall k :: 0 <= k < |done| && HasAudio(done[k]) && (forall j :: k < j < |done| ==> !Like(done[k].path, done[j].path)) ==>
      exists x :: x in after && x.directory == done[k].path
  }

  /** One directory's scan, described by what `ScanDirectory` guarantees, carries the four run properties over to one more directory. */
  lemma {:induction false} ScanStep(orig: seq<MD.MusicDirectory>, mid: seq<MD.MusicDirectory>, post: seq<MD.MusicDirectory>,
                                    done: seq<Node>, d: Node, stamps: seq<int>, stamp: int, stored: int)
    requires Untouched(orig, mid, done) && OnlyIndexed(orig, mid, done) && Swept(mid, done, stamps) && Remembered(mid, done)
    requires forall k :: 0 <= k < |stamps| ==> stamps[k] <= stamp
    requires stamp <= stored
    requires forall x :: x in mid && !Like(x.directory, d.path) ==> x in post
    requires forall x :: x in post ==> x in mid || (HasAudio(d) && x.directory == d.path && x.lastScannedAt == stored)
    requires forall x :: x in post && Like(x.directory, d.path) ==> x.lastScannedAt >= stamp
    requires HasAudio(d) ==> exists x :: x in post && x.directory == d.path
    ensures Untouched(orig, post, done + [d]) && OnlyIndexed(orig, post, done + [d])
    ensures Swept(post, done + [d], stamps + [stamp]) && Remembered(post, done + [d])
  {
    var done' := done + [d];
    forall x | x in orig && (forall k :: 0 <= k < |done'| ==> !Like(x.directory, done'[k].path)) ensures x in post {
      forall k | 0 <= k < |done| ensures !Like(x.directory, done[k].path) {
        assert done'[k] == done[k];
      }
      assert done'[|done|] == d;
    }
    forall x | x in post ensures x in orig || exists k :: 0 <= k < |done'| && HasAudio(done'[k]) && x.directory == done'[k].path {
      if x in mid {
        if x !in orig {
          var k :| 0 <= k < |done| && HasAudio(done[k]) && x.directory == done[k].path;
          assert done'[k] == done[k];
        }
      } else {
        assert done'[|done|] == d;
      }
    }
    forall k, x | 0 <= k < |done'| && x in post && Like(x.directory, done'[k].path) ensures x.lastScannedAt >= (stamps + [stamp])[k] {
      if k < |done| {
        assert done'[k] == done[k];
        if x !in mid {
          assert stamps[k] <= stamp;
        }
      }
    }
    forall k | 0 <= k < |done'| && HasAudio(done'[k]) && (forall j :: k < j < |done'| ==> !Like(done'[k].path, done'[j].path))
      ensures exists x :: x in post && x.directory == done'[k].path
    {
      if k < |done| {
        assert done'[k] == done[k];
        forall j | k < j < |done| ensures !Like(done[k].path, done[j].path) {
          assert done'[j] == done[j];
        }
        var x :| x in mid && x.directory == done[k].path;
        assert done'[|done|] == d;
        assert !Like(x.directory, d.path);
      }
    }
  }

  /** The four properties of a run, after the directories `done` were scanned starting at the seconds `stamps`. */
  ghost predicate RunOk(before: seq<MD.MusicDirectory>, after: seq<MD.MusicDirectory>, done: seq<Node>, stamps: seq<int>) {
    Untouched(before, after, done) && OnlyIndexed(before, after, done) && Swept(after, done, stamps) && Remembered(after, done)
  }

  /** Every track is an old row or one the file loop built for a processed directory with audio, under its row's id. */
  ghost predicate TracksIndexed(meta: (Path, FileEntry) -> Extraction, before: seq<MF.MusicFile>, after: seq<MF.MusicFile>, done: seq<Node>) {
    forall f :: f in after ==>
      f in before || exists k :: 0 <= k < |done| && HasAudio(done[k]) && Unnumbered(f) in Extracted(meta, done[k].path, AudioFiles(done[k]).value, f.directoryId)
  }

  /** The old tracks whose directory row is still in `dirs` are still in the track table. */
  ghost predicate TracksKept(before: seq<MF.MusicFile>, after: seq<MF.MusicFile>, dirs: seq<MD.MusicDirectory>) {
    forall f :: f in before && f.directoryId in MD.Ids(dirs) ==> f in after
  }

  /**
   * One directory's scan, described by what `ScanDirectory` guarantees of the track table, carries
   * both track properties over to one more directory. The old tracks point below `midNext`, so a
   * row with a fresh id never takes them in.
   */
  lemma {:induction false} TracksStep(meta: (Path, FileEntry) -> Extraction, orig: seq<MF.MusicFile>,
                                      midFiles: seq<MF.MusicFile>, midDirs: seq<MD.MusicDirectory>, midNext: int,
                                      postFiles: seq<MF.MusicFile>, postDirs: seq<MD.MusicDirectory>, done: seq<Node>, d: Node)
    requires forall f :: f in orig ==> f.directoryId < midNext
    requires TracksKept(orig, midFiles, midDirs) && TracksIndexed(meta, orig, midFiles, done)
    requires forall x :: x in postDirs ==> x in midDirs || x.id == midNext
    requires forall f :: f in postFiles ==>
      f in midFiles || (HasAudio(d) && Unnumbered(f) in Extracted(meta, d.path, AudioFiles(d).value, f.directoryId))
    requires forall f :: f in midFiles && f.directoryId in MD.Ids(postDirs) ==> f in postFiles
    ensures TracksKept(orig, postFiles, postDirs) && TracksIndexed(meta, orig, postFiles, done + [d])
  {
    forall f | f in orig && f.directoryId in MD.Ids(postDirs) ensures f in postFiles {
      var x :| x in postDirs && x.id == f.directoryId;
      assert x in midDirs;
    }
    var done' := done + [d];
    forall f | f in postFiles && f !in orig
      ensures exists k :: 0 <= k < |done'| && HasAudio(done'[k]) && Unnumbered(f) in Extracted(meta, done'[k].path, AudioFiles(done'[k]).value, f.directoryId)
    {
      if f in midFiles {
        var k :| 0 <= k < |done| && HasAudio(done[k]) && Unnumbered(f) in Extracted(meta, done[k].path, AudioFiles(done[k]).value, f.directoryId);
        assert done'[k] == done[k];
      } else {
        assert done'[|done|] == d;
      }
    }
  }

  /** Clock ticks taken in increasing order, all in `[lo, hi)`. */
  ghost predicate TicksIn(ts: seq<nat>, lo: nat, hi: nat) {
    && (forall k :: 0 <= k < |ts| ==> lo <= ts[k] < hi)
    && (forall k, j :: 0 <= k < j < |ts| ==> ts[k] < ts[j])
  }

  /** A scan that started at tick `t`, later than every earlier start, extends a run by one directory. */
  lemma RunStep(clock: Clock, orig: seq<MD.MusicDirectory>, mid: seq<MD.MusicDirectory>, post: seq<MD.MusicDirectory>,
                done: seq<Node>, d: Node, ts: seq<nat>, lo: nat, t: nat, hi: nat)
    requires clock.Valid() && lo <= t < hi
    requires RunOk(orig, mid, done, StartSeconds(clock.reading, ts)) && TicksIn(ts, lo, t)
    requires forall x :: x in mid && !Like(x.directory, d.path) ==> x in post
    requires forall x :: x in post ==> x in mid || (HasAudio(d) && x.directory == d.path && x.lastScannedAt == StoredSeconds(clock.reading(t + 1)))
    requires forall x :: x in post && Like(x.directory, d.path) ==> x.lastScannedAt >= StoredSeconds(clock.reading(t))
    requires HasAudio(d) ==> exists x :: x in post && x.directory == d.path
    ensures RunOk(orig, post, done + [d], StartSeconds(clock.reading, ts + [t])) && TicksIn(ts + [t], lo, hi)
  {
    var stamps := StartSeconds(clock.reading, ts);
    forall k | 0 <= k < |stamps| ensures stamps[k] <= StoredSeconds(clock.reading(t)) {
      LaterReading(clock, ts[k], t);
    }
    LaterReading(clock, t, t + 1);
    ScanStep(orig, mid, post, done, d, stamps, StoredSeconds(clock.reading(t)), StoredSeconds(clock.reading(t + 1)));
    assert StartSeconds(clock.reading, ts + [t]) == stamps + [StoredSeconds(clock.reading(t))];
  }

  /**
   * The worker with its environment: the database, the clock, the metadata reader, and the
   * directories whose processing raises an exception that escapes `doWork`'s loop.
   */
  class SearchFileWorker {
    const db: AppDatabase
    const clock: Clock
    const meta: (Path, FileEntry) -> Extraction
    const faulty: set<Path>

    ghost predicate Valid()
      reads this, db, clock
    {
      db.Valid() && clock.Valid()
    }

    constructor (db: AppDatabase, clock: Clock, meta: (Path, FileEntry) -> Extraction, faulty: set<Path>)
      ensures this.db == db && this.clock == clock && this.meta == meta && this.faulty == faulty
    {
      this.db := db;
      this.clock := clock;
      this.meta := meta;
      this.faulty := faulty;
    }

    /** Line 86: one `MusicFileDao.insert` of a track row of a directory that is in the table. */
    method InsertTrack(row: MF.MusicFile, ghost base: seq<MF.MusicFile>, ghost done: seq<MF.MusicFile>, ghost firstId: int)
      requires db.Valid() && row.directoryId in MD.Ids(db.directories)
      requires db.files == base + MF.Numbered(done, firstId) && db.nextFileId == firstId + |done|
      modifies db
      ensures db.Valid()
      ensures db.files == base + MF.Numbered(done + [row], firstId) && db.nextFileId == firstId + |done + [row]|
      ensures db.directories == old(db.directories) && db.selected == old(db.selected)
      ensures db.nextDirectoryId == old(db.nextDirectoryId) && db.nextSelectedId == old(db.nextSelectedId)
    {
      assert forall f :: f in [row] ==> f.directoryId in MD.Ids(db.directories);
      var ok := db.InsertMusicFiles([row]);
      assert ok;
      MF.NumberedSnoc(base, done, row, firstId);
    }

    /** Lines 69-103: insert a row per audio file whose duration parses, until a file's reading throws. */
    method InsertAudioFiles(dir: Path, audio: seq<FileEntry>, dirId: int)
      requires db.Valid() && dirId in MD.Ids(db.directories)
      modifies db
      ensures db.Valid()
      ensures db.files == old(db.files) + MF.Numbered(Extracted(meta, dir, audio, dirId), old(db.nextFileId))
      ensures db.directories == old(db.directories) && db.selected == old(db.selected)
      ensures db.nextDirectoryId == old(db.nextDirectoryId) && db.nextSelectedId == old(db.nextSelectedId)
    {
      var i := 0;
      ghost var done: seq<MF.MusicFile> := [];
      while i < |audio|
        invariant 0 <= i <= |audio|
        invariant db.Valid() && dirId in MD.Ids(db.directories)
        invariant done + Extracted(meta, dir, audio[i..], dirId) == Extracted(meta, dir, audio, dirId)
        invariant db.files == old(db.files) + MF.Numbered(done, old(db.nextFileId))
        invariant db.nextFileId == old(db.nextFileId) + |done|
        invariant db.directories == old(db.directories) && db.selected == old(db.selected)
        invariant db.nextDirectoryId == old(db.nextDirectoryId) && db.nextSelectedId == old(db.nextSelectedId)
      {
        var file := audio[i];
        match meta(dir, file)
        case Threw =>
          ExtractedThrow(meta, dir, audio, i, dirId, done);
          break;
        case Read(title, artist, duration) =>
          ExtractedStep(meta, dir, audio, i, dirId, done);
          var row := TrackRow(file, title, artist, duration, dirId);
          if row.Some? {
            InsertTrack(row.value, old(db.files), done, old(db.nextFileId));
            done := done + [row.value];
          }
        i := i + 1;
      }
      if i == |audio| {
        assert done + Extracted(meta, dir, [], dirId) == Extracted(meta, dir, audio, dirId);
      }
    }

    /** Lines 62-103 for a directory with audio: the replacing upsert of its row, then its track rows under the new id. */
    method IndexDirectory(dir: Path, audio: seq<FileEntry>, now: Instant) returns (dirId: int)
      requires db.Valid()
      modifies db
      ensures db.Valid()
      ensures dirId == old(db.nextDirectoryId)
      ensures MD.MusicDirectory(dirId, dir, StoredSeconds(now)) in db.directories
      ensures forall x :: x in old(db.directories) && x.directory != dir ==> x in db.directories
      ensures forall x :: x in db.directories ==> x in old(db.directories) || x == MD.MusicDirectory(dirId, dir, StoredSeconds(now))
      ensures forall f :: f in db.files && f.directoryId == dirId <==> f in MF.Numbered(Extracted(meta, dir, audio, dirId), old(db.nextFileId))
      ensures forall f :: f in db.files ==> f in old(db.files) || f in MF.Numbered(Extracted(meta, dir, audio, dirId), old(db.nextFileId))
      ensures forall f :: f in old(db.files) && f.directoryId in MD.Ids(db.directories) ==> f in db.files
      ensures db.nextDirectoryId == old(db.nextDirectoryId) + 1
      ensures db.selected == old(db.selected) && db.nextSelectedId == old(db.nextSelectedId)
    {
      ghost var files0 := db.files;
      ghost var dirs0 := db.directories;
      dirId := db.InsertMusicDirectory(dir, now);
      MF.CascadeSpec(files0, db.nextFileId, MD.Ids(db.directories));
      forall f | f in db.files ensures f.directoryId != dirId {
        assert f in files0;
        assert f.directoryId in MD.Ids(dirs0);
      }
      ghost var files1 := db.files;
      InsertAudioFiles(dir, audio, dirId);
      ghost var added := MF.Numbered(Extracted(meta, dir, audio, dirId), old(db.nextFileId));
      forall f | f in added ensures f.directoryId == dirId {
        var k :| 0 <= k < |added| && added[k] == f;
        assert Extracted(meta, dir, audio, dirId)[k] in Extracted(meta, dir, audio, dirId);
      }
      forall f ensures f in db.files && f.directoryId == dirId <==> f in added {
        if f in added {
          assert f in files1 + added;
        }
      }
    }

    /** Lines 62-105 for a directory with audio: index it at `now`, then sweep the rows under it scanned before `start`. */
    method IndexAndSweep(dir: Path, audio: seq<FileEntry>, start: Instant, now: Instant)
      requires db.Valid() && StoredSeconds(start) <= StoredSeconds(now)
      modifies db
      ensures db.Valid()
      ensures forall x :: x in old(db.directories) && !Like(x.directory, dir) ==> x in db.directories
      ensures forall x :: x in db.directories ==> x in old(db.directories) || (x.directory == dir && x.lastScannedAt == StoredSeconds(now))
      ensures forall x :: x in db.directories && Like(x.directory, dir) ==> x.lastScannedAt >= StoredSeconds(start)
      ensures forall x :: x in old(db.directories) && x.directory != dir && !(Like(x.directory, dir) && x.lastScannedAt < StoredSeconds(start)) ==>
        x in db.directories
      ensures forall x :: x in db.directories ==> x in old(db.directories) || x.id == old(db.nextDirectoryId)
      ensures exists x ::
          && x in db.directories && x.directory == dir && x.id == old(db.nextDirectoryId)
          && forall f :: f in db.files && f.directoryId == x.id <==> f in MF.Numbered(Extracted(meta, dir, audio, x.id), old(db.nextFileId))
      ensures forall f :: f in db.files ==>
        f in old(db.files) || f in MF.Numbered(Extracted(meta, dir, audio, old(db.nextDirectoryId)), old(db.nextFileId))
      ensures forall f :: f in old(db.files) && f.directoryId in MD.Ids(db.directories) ==> f in db.files
      ensures db.nextDirectoryId == old(db.nextDirectoryId) + 1
      ensures db.selected == old(db.selected) && db.nextSelectedId == old(db.nextSelectedId)
    {
      var dirId := IndexDirectory(dir, audio, now);
      ghost var row := MD.MusicDirectory(dirId, dir, StoredSeconds(now));
      ghost var files1 := db.files;
      ghost var dirs1 := db.directories;
      assert Like(dir, dir);
      db.DeleteContainDirectoriesScannedBefore(dir, start);
      MF.CascadeSpec(files1, db.nextFileId, MD.Ids(db.directories));
      forall f | f in old(db.files) && f.directoryId in MD.Ids(db.directories) ensures f in db.files {
        var x :| x in db.directories && x.id == f.directoryId;
        assert x in dirs1;
      }
      assert row in db.directories;
      assert dirId in MD.Ids(db.directories);
      forall f ensures f in db.files && f.directoryId == dirId <==> f in files1 && f.directoryId == dirId {
        assert f in db.files <==> f in files1 && f.directoryId in MD.Ids(db.directories);
      }
    }

    /** One emitted directory (lines 53-105): start time, audio filter, upsert and file rows when there is audio, then the sweep. */
    method ScanDirectory(dir: Node) returns (start: Instant)
      requires Valid()
      modifies db, clock
      ensures Valid()
      ensures start == clock.reading(old(clock.ticks)) && clock.ticks > old(clock.ticks)
      ensures forall x :: x in old(db.directories) && !Like(x.directory, dir.path) ==> x in db.directories
      ensures forall x :: x in db.directories ==>
        x in old(db.directories) || (HasAudio(dir) && x.directory == dir.path && x.lastScannedAt == StoredSeconds(clock.reading(old(clock.ticks) + 1)))
      ensures forall x :: x in db.directories && Like(x.directory, dir.path) ==> x.lastScannedAt >= StoredSeconds(start)
      ensures forall x ::
        x in old(db.directories) && !(HasAudio(dir) && x.directory == dir.path) && !(Like(x.directory, dir.path) && x.lastScannedAt < StoredSeconds(start)) ==>
        x in db.directories
      ensures forall x :: x in db.directories ==> x in old(db.directories) || x.id == old(db.nextDirectoryId)
      ensures old(db.nextDirectoryId) <= db.nextDirectoryId
      ensures HasAudio(dir) ==>
        exists x ::
          && x in db.directories && x.directory == dir.path && x.id == old(db.nextDirectoryId)
          && forall f :: f in db.files && f.directoryId == x.id <==> f in MF.Numbered(Extracted(meta, dir.path, AudioFiles(dir).value, x.id), old(db.nextFileId))
      ensures forall f :: f in db.files ==>
        f in old(db.files) || (HasAudio(dir) && Unnumbered(f) in Extracted(meta, dir.path, AudioFiles(dir).value, f.directoryId))
      ensures forall f :: f in old(db.files) && f.directoryId in MD.Ids(db.directories) ==> f in db.files
      ensures db.selected == old(db.selected) && db.nextSelectedId == old(db.nextSelectedId)
    {
      start := clock.Now();
      var audioFiles := AudioFiles(dir);
      if audioFiles.Some? && audioFiles.value != [] {
        var now := clock.Now();
        LaterReading(clock, old(clock.ticks), old(clock.ticks) + 1);
        IndexAndSweep(dir.path, audioFiles.value, start, now);
        forall f | f in db.files && f !in old(db.files)
          ensures Unnumbered(f) in Extracted(meta, dir.path, audioFiles.value, f.directoryId)
        {
          NumberedUnnumbered(Extracted(meta, dir.path, audioFiles.value, old(db.nextDirectoryId)), old(db.nextFileId), f);
        }
      } else {
        ghost var files0 := db.files;
        db.DeleteContainDirectoriesScannedBefore(dir.path, start);
        MF.CascadeSpec(files0, db.nextFileId, MD.Ids(db.directories));
      }
    }

    /**
     * `doWork` (lines 43-112): walk the start directories (none when the input is missing) and scan each
     * emitted directory in order. A directory whose processing throws ends the run with failure; the
     * directories scanned before it keep their effect.
     */
    method DoWork(input: Option<seq<Node>>) returns (result: WorkResult, ghost emitted: seq<Node>, ghost processed: nat, ghost startTicks: seq<nat>)
      requires Valid()
      modifies db, clock
      ensures Valid()
      ensures emitted == PreOrderForest(input.GetOr([])) && processed <= |emitted|
      ensures forall k :: 0 <= k < processed ==> emitted[k].path !in faulty
      ensures result == Success <==> processed == |emitted|
      ensures result == Failure ==> emitted[processed].path in faulty
      ensures RunOk(old(db.directories), db.directories, emitted[..processed], StartSeconds(clock.reading, startTicks))
      ensures |startTicks| == processed && TicksIn(startTicks, old(clock.ticks), clock.ticks)
      ensures TracksKept(old(db.files), db.files, db.directories)
      ensures TracksIndexed(meta, old(db.files), db.files, emitted[..processed])
      ensures db.selected == old(db.selected) && db.nextSelectedId == old(db.nextSelectedId)
    {
      var dirs := SearchDirectory(input.GetOr([]));
      emitted := dirs;
      var i := 0;
      startTicks := [];
      result := Success;
      forall f | f in db.files ensures f.directoryId < db.nextDirectoryId {
        var x :| x in db.directories && x.id == f.directoryId;
      }
      while i < |dirs|
        invariant 0 <= i <= |dirs| && Valid()
        invariant forall k :: 0 <= k < i ==> dirs[k].path !in faulty
        invariant RunOk(old(db.directories), db.directories, dirs[..i], StartSeconds(clock.reading, startTicks))
        invariant |startTicks| == i && old(clock.ticks) <= clock.ticks && TicksIn(startTicks, old(clock.ticks), clock.ticks)
        invariant old(db.nextDirectoryId) <= db.nextDirectoryId
        invariant TracksKept(old(db.files), db.files, db.directories) && TracksIndexed(meta, old(db.files), db.files, dirs[..i])
        invariant db.selected == old(db.selected) && db.nextSelectedId == old(db.nextSelectedId)
      {
        var dir := dirs[i];
        if dir.path in faulty {
          result := Failure;
          break;
        }
        ghost var mid := db.directories;
        ghost var midFiles := db.files;
        ghost var midNext := db.nextDirectoryId;
        ghost var t := clock.ticks;
        var start := ScanDirectory(dir);
        RunStep(clock, old(db.directories), mid, db.directories, dirs[..i], dir, startTicks, old(clock.ticks), t, clock.ticks);
        TracksStep(meta, old(db.files), midFiles, mid, midNext, db.files, db.directories, dirs[..i], dir);
        assert dirs[..i + 1] == dirs[..i] + [dir];
        startTicks := startTicks + [t];
        i := i + 1;
      }
      processed := i;
    }
  }
}
