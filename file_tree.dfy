/**
 * The part of the file system the walker sees, as a finite tree: each directory knows its
 * absolute path, whether it can be listed, its subdirectories in listing order, and its
 * other entries.
 */
module FileTree {
  import opened Wrappers
  import opened Seqs
  import opened Paths

  /** A non-directory entry of a listing: `File.name`, `isFile` and `canRead()`. */
  datatype FileEntry = FileEntry(name: string, isFile: bool, canRead: bool)

  /** A directory. `listable` is false when `listFiles` returns null (no permission, I/O error, vanished). */
  datatype Node = Node(path: Path, listable: bool, subdirs: seq<Node>, files: seq<FileEntry>)

  function PathOf(n: Node): Path { n.path }

  /** `listFiles { it.isDirectory } ?: arrayOf()`: a directory that cannot be listed is a leaf. */
  function Subdirs(n: Node): (r: seq<Node>)
    ensures n.listable ==> r == n.subdirs
    ensures !n.listable ==> r == []
  {
    if n.listable then n.subdirs else []
  }

  /** The directories of the tree under `n`, each before its subdirectories, children in listing order. */
  function PreOrder(n: Node): seq<Node>
    decreases n, 1
  {
    if n.listable then [n] + PreOrderForest(n.subdirs) else [n]
  }

  /** The pre-orders of the trees in `s`, one after the other. */
  function PreOrderForest(s: seq<Node>): seq<Node>
    decreases s, 0
  {
    if s == [] then [] else PreOrder(s[0]) + PreOrderForest(s[1..])
  }

  lemma PreOrderUnfold(n: Node)
    ensures PreOrder(n) == [n] + PreOrderForest(Subdirs(n))
  {
    if !n.listable {
      assert PreOrderForest([]) == [];
    }
  }

  lemma {:induction false} PreOrderForestSnoc(s: seq<Node>, n: Node)
    ensures PreOrderForest(s + [n]) == PreOrderForest(s) + PreOrder(n)
  {
    if s == [] {
      assert [n][1..] == [];
      assert PreOrderForest([n]) == PreOrder(n) + PreOrderForest([]);
    } else {
      assert (s + [n])[1..] == s[1..] + [n];
      PreOrderForestSnoc(s[1..], n);
    }
  }

  /** `x` can be reached from `n` by descending into listable directories. */
  ghost predicate Reaches(n: Node, x: Node)
    decreases n
  {
    x == n || exists c :: c in Subdirs(n) && Reaches(c, x)
  }

  /** The pre-order holds exactly the directories reachable from the start. */
  lemma {:induction false} PreOrderReaches(n: Node, x: Node)
    ensures x in PreOrder(n) <==> Reaches(n, x)
    decreases n, 1
  {
    if n.listable {
      ForestReaches(n.subdirs, x);
    }
  }

  lemma {:induction false} ForestReaches(s: seq<Node>, x: Node)
    ensures x in PreOrderForest(s) <==> exists c :: c in s && Reaches(c, x)
    decreases s, 0
  {
    if s != [] {
      PreOrderReaches(s[0], x);
      ForestReaches(s[1..], x);
      assert forall c :: c in s <==> c == s[0] || c in s[1..];
    }
  }

  /** Every child's path is its parent's path plus one name, and siblings have different names. */
  ghost predicate WellFormed(n: Node)
    decreases n
  {
    && (forall c :: c in n.subdirs ==> |c.path| == |n.path| + 1 && c.path[..|n.path|] == n.path && WellFormed(c))
    && DistinctKeys(PathOf, n.subdirs)
  }

  /** In a well-formed tree a reachable directory lies under the start, strictly unless it is the start. */
  lemma {:induction false} ReachesUnder(n: Node, x: Node)
    requires WellFormed(n) && Reaches(n, x)
    ensures StartsWith(x.path, n.path)
    ensures x != n ==> |x.path| > |n.path|
    decreases n
  {
    if x != n {
      var c :| c in Subdirs(n) && Reaches(c, x);
      ReachesUnder(c, x);
    }
  }

  /** On a well-formed tree the pre-order starts with the start directory and lists no path twice. */
  lemma {:induction false} PreOrderDistinct(n: Node)
    requires WellFormed(n)
    ensures PreOrder(n)[0] == n
    ensures DistinctKeys(PathOf, PreOrder(n))
    decreases n, 1
  {
    if n.listable {
      var rest := PreOrderForest(n.subdirs);
      ForestDistinct(n.subdirs, |n.path| + 1);
      forall x | x in rest ensures x.path != n.path {
        ForestReaches(n.subdirs, x);
        var c :| c in n.subdirs && Reaches(c, x);
        ReachesUnder(c, x);
      }
      DistinctKeysAppend(PathOf, [n], rest);
    }
  }

  lemma {:induction false} ForestDistinct(s: seq<Node>, len: nat)
    requires forall c :: c in s ==> WellFormed(c) && |c.path| == len
    requires DistinctKeys(PathOf, s)
    ensures DistinctKeys(PathOf, PreOrderForest(s))
    decreases s, 0
  {
    if s != [] {
      PreOrderDistinct(s[0]);
      ForestDistinct(s[1..], len);
      var a := PreOrder(s[0]);
      var b := PreOrderForest(s[1..]);
      forall x, y | x in a && y in b ensures x.path != y.path {
        PreOrderReaches(s[0], x);
        ReachesUnder(s[0], x);
        ForestReaches(s[1..], y);
        var c :| c in s[1..] && Reaches(c, y);
        ReachesUnder(c, y);
        var k :| 1 <= k < |s| && s[k] == c;
        assert s[0].path != s[k].path;
        assert x.path[..len] == s[0].path;
        assert y.path[..len] == c.path;
      }
      DistinctKeysAppend(PathOf, a, b);
    }
  }

  // ----- the audio filter -----

  /** ASCII lower case; the other characters are left alone. */
  function LowerAscii(c: char): char {
    if 'A' <= c <= 'Z' then (c as int + 32) as char else c
  }

  /** `s.endsWith(suffix, ignoreCase = true)`, with ASCII case folding. */
  predicate EndsWithIgnoreCase(s: string, suffix: string) {
    |suffix| <= |s| && forall i :: 0 <= i < |suffix| ==> LowerAscii(s[|s| - |suffix| + i]) == LowerAscii(suffix[i])
  }

  /** A regular, readable file named `*.mp3` or `*.wav` in any case. */
  predicate IsAudio(f: FileEntry) {
    f.isFile && f.canRead && (EndsWithIgnoreCase(f.name, ".mp3") || EndsWithIgnoreCase(f.name, ".wav"))
  }

  /** `dir.listFiles { ... }` with the audio filter: null when the directory cannot be listed. */
  function AudioFiles(n: Node): (r: Option<seq<FileEntry>>)
    ensures r.None? <==> !n.listable
    ensures r.Some? ==> forall f :: f in r.value <==> f in n.files && IsAudio(f)
  {
    if n.listable then Some(Filter(IsAudio, n.files)) else None
  }

  /** `audioFiles?.isEmpty() == false`. */
  predicate HasAudio(n: Node) {
    AudioFiles(n).Some? && AudioFiles(n).value != []
  }

  /** A directory has audio exactly when it can be listed and holds an audio entry. */
  lemma HasAudioSpec(n: Node)
    ensures HasAudio(n) <==> n.listable && exists f :: f in n.files && IsAudio(f)
  {
    if HasAudio(n) {
      assert AudioFiles(n).value[0] in AudioFiles(n).value;
    }
    if n.listable && exists f :: f in n.files && IsAudio(f) {
      var f :| f in n.files && IsAudio(f);
      assert f in AudioFiles(n).value;
    }
  }

  /** The extension check ignores case. */
  lemma AudioIgnoresCase()
    ensures IsAudio(FileEntry("Song.MP3", true, true))
  {
    var s := "Song.MP3";
    var m := ".mp3";
    assert |s| - |m| == 4;
    forall i | 0 <= i < 4 ensures LowerAscii(s[4 + i]) == LowerAscii(m[i]) {
      assert s[4..] == ".MP3";
    }
  }

  /** Only the end of the name counts, and an unreadable file is skipped. */
  lemma AudioRejects()
    ensures !IsAudio(FileEntry("song.mp3.txt", true, true))
    ensures !IsAudio(FileEntry("song.mp3", true, false))
  {
    var u := "song.mp3.txt";
    assert !EndsWithIgnoreCase(u, ".mp3") by {
      assert LowerAscii(u[|u| - 4 + 3]) != LowerAscii(".mp3"[3]);
    }
    assert !EndsWithIgnoreCase(u, ".wav") by {
      assert LowerAscii(u[|u| - 4 + 3]) != LowerAscii(".wav"[3]);
    }
  }

  /** `File.nameWithoutExtension`: the name up to its last '.', or the whole name if it has none. */
  function NameWithoutExtension(name: string): (r: string)
    ensures |r| <= |name| && r == name[..|r|]
    ensures '.' in name ==> |r| < |name| && name[|r|] == '.' && '.' !in name[|r| + 1..]
    ensures '.' !in name ==> r == name
    decreases |name|
  {
    if name == [] then []
    else if name[|name| - 1] == '.' then name[..|name| - 1]
    else
      var init := NameWithoutExtension(name[..|name| - 1]);
      if '.' in name[..|name| - 1] then
        assert name[|init| + 1..] == name[..|name| - 1][|init| + 1..] + [name[|name| - 1]];
        init
      else name
  }
}
