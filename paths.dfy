/**
 * Absolute Unix paths as `java.nio.file.Path` and `java.io.File` see them: a sequence of
 * name components below "/". `PathString` is the string Room stores for a path, and the
 * `LIKE :dir || '%'` queries compare those strings, while `Path.startsWith` compares
 * components; the two differ, and `LikeIsCoarserThanStartsWith` says how.
 */
module Paths {
  import opened Wrappers

  type Path = seq<string>

  /** A component `Split` can produce: non-empty, without a separator. */
  predicate Segment(c: string) {
    c != "" && '/' !in c
  }

  /** A component that is neither "." nor "..": what `Path.normalize` leaves behind. */
  predicate Plain(c: string) {
    Segment(c) && c != "." && c != ".."
  }

  predicate AllSegments(p: seq<string>) {
    forall i :: 0 <= i < |p| ==> Segment(p[i])
  }

  predicate AllPlain(p: seq<string>) {
    forall i :: 0 <= i < |p| ==> Plain(p[i])
  }

  /** The components joined with "/" (the string form of a relative path). */
  function Join(p: seq<string>): string {
    if p == [] then ""
    else if |p| == 1 then p[0]
    else p[0] + "/" + Join(p[1..])
  }

  /** `Path.toString()` of an absolute path. */
  function PathString(p: Path): string {
    "/" + Join(p)
  }

  /** Length of the first segment of `s` (up to the first '/'). */
  function SegmentEnd(s: string): (k: nat)
    ensures k <= |s|
    ensures forall i :: 0 <= i < k ==> s[i] != '/'
    ensures k == |s| || s[k] == '/'
  {
    if s == [] || s[0] == '/' then 0 else 1 + SegmentEnd(s[1..])
  }

  /** The components of a path string, as `Paths.get` parses it on Unix: empty pieces between separators are dropped. */
  function Split(s: string): (p: seq<string>)
    ensures AllSegments(p)
    decreases |s|
  {
    if s == [] then []
    else if s[0] == '/' then Split(s[1..])
    else
      var k := SegmentEnd(s);
      [s[..k]] + Split(s[k..])
  }

  predicate IsAbsoluteString(s: string) {
    |s| > 0 && s[0] == '/'
  }

  lemma {:induction false} SegmentEndOfJoin(c: string, rest: string)
    requires Segment(c)
    ensures SegmentEnd(c + rest) >= |c|
    ensures rest == [] || rest[0] == '/' ==> SegmentEnd(c + rest) == |c|
  {
    if |c| > 1 {
      assert (c + rest)[1..] == c[1..] + rest;
      SegmentEndOfJoin(c[1..], rest);
    } else {
      assert (c + rest)[1..] == rest;
    }
  }

  /** Parsing the joined string gives the components back. */
  lemma {:induction false} SplitJoin(p: seq<string>)
    requires AllSegments(p)
    ensures Split(Join(p)) == p
  {
    if |p| == 1 {
      SegmentEndOfJoin(p[0], []);
      assert p[0] + [] == p[0];
      assert Join(p)[SegmentEnd(Join(p))..] == [];
    } else if |p| > 1 {
      var s := Join(p);
      var rest := "/" + Join(p[1..]);
      assert s == p[0] + rest;
      SegmentEndOfJoin(p[0], rest);
      var k := SegmentEnd(s);
      assert s[..k] == p[0];
      assert s[k..] == rest;
      assert rest[1..] == Join(p[1..]);
      SplitJoin(p[1..]);
    }
  }

  /** Round trip of the path column: parsing the stored string of a path gives the path back. */
  lemma ParsePathString(p: Path)
    requires AllSegments(p)
    ensures IsAbsoluteString(PathString(p))
    ensures Split(PathString(p)) == p
  {
    assert PathString(p)[1..] == Join(p);
    SplitJoin(p);
  }

  /** `Path.startsWith(other)`: `other` is an ancestor-or-self of `p`, component by component. */
  predicate StartsWith(p: Path, other: Path) {
    |other| <= |p| && p[..|other|] == other
  }

  /** `s` begins with `prefix`, character by character. */
  predicate HasPrefix(s: string, prefix: string) {
    |prefix| <= |s| && s[..|prefix|] == prefix
  }

  /** SQL `directory LIKE dir || '%'` on the stored path strings (wildcards and case folding aside). */
  predicate Like(p: Path, dir: Path) {
    HasPrefix(PathString(p), PathString(dir))
  }

  lemma {:induction false} JoinAppend(a: seq<string>, b: seq<string>)
    requires a != [] && b != []
    ensures Join(a + b) == Join(a) + "/" + Join(b)
  {
    if |a| == 1 {
      assert (a + b)[1..] == b;
    } else {
      assert (a + b)[1..] == a[1..] + b;
      JoinAppend(a[1..], b);
    }
  }

  /** Every component-wise descendant-or-self matches the `LIKE` prefix ... */
  lemma StartsWithIsLike(p: Path, dir: Path)
    requires StartsWith(p, dir)
    ensures Like(p, dir)
  {
    var rest := p[|dir|..];
    assert p == dir + rest;
    if dir == [] {
      assert PathString(p)[..1] == "/";
    } else if rest == [] {
      assert p == dir;
    } else {
      JoinAppend(dir, rest);
      assert PathString(p) == PathString(dir) + "/" + Join(rest);
    }
  }

  /** ... but not conversely: "/m/a" is a string prefix of "/m/ab", a sibling. */
  lemma LikeIsCoarserThanStartsWith()
    ensures Like(["m", "ab"], ["m", "a"])
    ensures !StartsWith(["m", "ab"], ["m", "a"])
  {
    assert PathString(["m", "ab"]) == "/m/ab";
    assert PathString(["m", "a"]) == "/m/a";
  }

  /** A strict ancestor's string is shorter than its descendant's, so `LIKE` never takes it for one of its descendants. */
  lemma StrictAncestorNotLike(anc: Path, dir: Path)
    requires StartsWith(dir, anc) && anc != dir && AllSegments(dir)
    ensures |PathString(anc)| < |PathString(dir)|
    ensures !Like(anc, dir)
  {
    var rest := dir[|anc|..];
    assert dir == anc + rest && rest != [];
    if anc == [] {
      assert Segment(dir[0]);
      assert Join(dir)[..|dir[0]|] == dir[0];
    } else {
      JoinAppend(anc, rest);
    }
  }

  /** `File.name` / `Path.fileName`: the last component, "" for the root. */
  function Name(p: Path): string {
    if p == [] then "" else p[|p| - 1]
  }

  /** `File.parentFile`: null for the root. */
  function Parent(p: Path): (r: Option<Path>)
    ensures r.Some? <==> p != []
    ensures r.Some? ==> r.value + [Name(p)] == p
  {
    if p == [] then None else Some(p[..|p| - 1])
  }

  /** `Path.resolve(other)`: an absolute `other` replaces the base, a relative one is appended. */
  function Resolve(dir: Path, other: string): (r: Path)
    ensures IsAbsoluteString(other) ==> r == Split(other)
    ensures !IsAbsoluteString(other) ==> StartsWith(r, dir)
  {
    if IsAbsoluteString(other) then Split(other) else dir + Split(other)
  }

  /** `Path.normalize` applied to the components `rest` after the already normalised `acc`. */
  function NormalizeFrom(acc: Path, rest: seq<string>): Path
    decreases |rest|
  {
    if rest == [] then acc
    else if rest[0] == "." then NormalizeFrom(acc, rest[1..])
    else if rest[0] == ".." then NormalizeFrom(if acc == [] then [] else acc[..|acc| - 1], rest[1..])
    else NormalizeFrom(acc + [rest[0]], rest[1..])
  }

  /** `Path.normalize` of an absolute path: "." dropped, ".." removes the previous name ("/.." is "/"). */
  function Normalize(p: Path): Path {
    NormalizeFrom([], p)
  }

  lemma {:induction false} NormalizeFromAppend(acc: Path, a: seq<string>, b: seq<string>)
    ensures NormalizeFrom(acc, a + b) == NormalizeFrom(NormalizeFrom(acc, a), b)
    decreases |a|
  {
    if a == [] {
      assert a + b == b;
    } else {
      assert (a + b)[0] == a[0] && (a + b)[1..] == a[1..] + b;
      var acc' := if a[0] == "." then acc
                  else if a[0] == ".." then (if acc == [] then [] else acc[..|acc| - 1])
                  else acc + [a[0]];
      NormalizeFromAppend(acc', a[1..], b);
    }
  }

  lemma {:induction false} NormalizeFromPlain(acc: Path, p: seq<string>)
    requires AllPlain(p)
    ensures NormalizeFrom(acc, p) == acc + p
    decreases |p|
  {
    if p != [] {
      assert Plain(p[0]);
      NormalizeFromPlain(acc + [p[0]], p[1..]);
      assert acc + [p[0]] + p[1..] == acc + p;
    }
  }

  /** ".." repeated `n` times. */
  function Ups(n: nat): (r: seq<string>)
    ensures |r| == n && AllSegments(r)
  {
    if n == 0 then [] else [".."] + Ups(n - 1)
  }

  lemma {:induction false} NormalizeFromUps(acc: Path, n: nat)
    requires n <= |acc|
    ensures NormalizeFrom(acc, Ups(n)) == acc[..|acc| - n]
    decreases n
  {
    if n > 0 {
      assert acc != [];
      NormalizeFromUps(acc[..|acc| - 1], n - 1);
      assert acc[..|acc| - 1][..|acc| - 1 - (n - 1)] == acc[..|acc| - n];
    }
  }

  lemma {:induction false} NormalizeFromKeepsPlain(acc: Path, rest: seq<string>)
    requires AllPlain(acc) && AllSegments(rest)
    ensures AllPlain(NormalizeFrom(acc, rest))
    decreases |rest|
  {
    if rest != [] {
      var acc' := if rest[0] == "." then acc
                  else if rest[0] == ".." then (if acc == [] then [] else acc[..|acc| - 1])
                  else acc + [rest[0]];
      NormalizeFromKeepsPlain(acc', rest[1..]);
    }
  }

  /** Normalising a path of segments leaves only plain names. */
  lemma NormalizeIsPlain(p: Path)
    requires AllSegments(p)
    ensures AllPlain(Normalize(p))
  {
    NormalizeFromKeepsPlain([], p);
  }

  /** Number of leading components `a` and `b` share. */
  function CommonPrefix(a: Path, b: Path): (k: nat)
    ensures k <= |a| && k <= |b| && a[..k] == b[..k]
    ensures k < |a| && k < |b| ==> a[k] != b[k]
  {
    if a == [] || b == [] || a[0] != b[0] then 0
    else
      var k := CommonPrefix(a[1..], b[1..]);
      assert a[..k + 1] == [a[0]] + a[1..][..k];
      assert b[..k + 1] == [b[0]] + b[1..][..k];
      k + 1
  }

  /** `Path.relativize` of two normalised absolute paths: up to the common ancestor, then down. */
  function Relativize(target: Path, base: Path): seq<string> {
    var k := CommonPrefix(target, base);
    Ups(|base| - k) + target[k..]
  }

  /** Kotlin's `Path.relativeTo(base)`: both sides normalised, then relativised. */
  function RelativeTo(p: Path, base: Path): seq<string> {
    Relativize(Normalize(p), Normalize(base))
  }

  lemma PlainTail(t: Path, k: nat)
    requires AllPlain(t) && k <= |t|
    ensures AllPlain(t[k..])
  {
    assert forall i :: 0 <= i < |t[k..]| ==> t[k..][i] == t[k + i];
  }

  lemma PlainSuffixSegments(ups: seq<string>, t: Path, k: nat)
    requires AllSegments(ups) && AllPlain(t) && k <= |t|
    ensures AllSegments(ups + t[k..])
  {
    forall i | 0 <= i < |ups + t[k..]| ensures Segment((ups + t[k..])[i]) {
      if i >= |ups| {
        assert (ups + t[k..])[i] == t[k + i - |ups|];
      }
    }
  }

  /**
   * Reading a relative line back: resolving it against `base` and normalising yields the
   * normalised target. This is what makes a relative playlist entry point at the right file.
   */
  lemma RelativeToResolves(p: Path, base: Path)
    requires AllSegments(p) && AllSegments(base)
    ensures AllSegments(RelativeTo(p, base))
    ensures Normalize(base + RelativeTo(p, base)) == Normalize(p)
  {
    var t, b := Normalize(p), Normalize(base);
    NormalizeIsPlain(p);
    var k := CommonPrefix(t, b);
    assert RelativeTo(p, base) == Ups(|b| - k) + t[k..];
    PlainSuffixSegments(Ups(|b| - k), t, k);
    ClimbThenDescend(base, t, k);
  }

  /** Climbing from `base` to its first `k` normalised components and descending along `t` from there reaches `t`. */
  lemma ClimbThenDescend(base: Path, t: Path, k: nat)
    requires AllPlain(t) && k <= |t| && k <= |Normalize(base)| && Normalize(base)[..k] == t[..k]
    ensures Normalize(base + (Ups(|Normalize(base)| - k) + t[k..])) == t
  {
    var b := Normalize(base);
    var ups, rest := Ups(|b| - k), t[k..];
    PlainTail(t, k);
    calc {
      Normalize(base + (ups + rest));
      { assert base + (ups + rest) == (base + ups) + rest; }
      NormalizeFrom([], (base + ups) + rest);
      { NormalizeFromAppend([], base + ups, rest); }
      NormalizeFrom(NormalizeFrom([], base + ups), rest);
      { NormalizeFromAppend([], base, ups); }
      NormalizeFrom(NormalizeFrom(b, ups), rest);
      { NormalizeFromUps(b, |b| - k); }
      NormalizeFrom(b[..k], rest);
      { NormalizeFromPlain(b[..k], rest); }
      b[..k] + rest;
      { assert b[..k] == t[..k]; }
      t;
    }
  }
}
