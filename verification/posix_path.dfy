/** The POSIX flavour of Node's `path` module as far as the path synthesis uses
    it: `sep` and `delimiter`, `dirname`, `basename`, `extname` and `join`.
    `dirname`, `basename` and `extname` follow Node's scanning algorithms
    character by character; `join` joins its non-empty arguments with `/` and
    does not normalise `.`/`..` or repeated slashes. */
module PosixPath {
  import JsString

  const Sep: char := '/'
  const Delimiter: char := ':'

  /** A path component: non-empty, with no separator in it. */
  predicate IsSegment(s: string) {
    |s| > 0 && Sep !in s
  }

  /** The scan of `dirname`: walking down from index `i` (never reaching index 0),
      the first separator met after at least one non-separator character, or -1. */
  function DirEnd(p: string, i: int, seen: bool): (e: int)
    requires i < |p|
    ensures e == -1 || (1 <= e <= i && p[e] == Sep)
    decreases i
  {
    if i < 1 then -1
    else if p[i] == Sep then (if seen then i else DirEnd(p, i - 1, false))
    else DirEnd(p, i - 1, true)
  }

  /** `path.dirname(p)`. */
  function Dirname(p: string): string {
    if |p| == 0 then "."
    else
      var end := DirEnd(p, |p| - 1, false);
      if end == -1 then (if p[0] == Sep then "/" else ".")
      else if p[0] == Sep && end == 1 then "//"
      else p[..end]
  }

  /** The end of `p[..n]` once its trailing separators are dropped. */
  function TrimEnd(p: string, n: nat): (e: nat)
    requires n <= |p|
    ensures e <= n
    ensures e == 0 || p[e - 1] != Sep
    ensures forall i :: e <= i < n ==> p[i] == Sep
  {
    if n > 0 && p[n - 1] == Sep then TrimEnd(p, n - 1) else n
  }

  /** The start of the separator-free run of `p` that ends at `e`. */
  function SegmentStart(p: string, e: nat): (s: nat)
    requires e <= |p|
    ensures s <= e
    ensures forall i :: s <= i < e ==> p[i] != Sep
    ensures s == 0 || p[s - 1] == Sep
  {
    if e > 0 && p[e - 1] != Sep then SegmentStart(p, e - 1) else e
  }

  /** `path.basename(p)`: the last run of non-separator characters. */
  function Basename(p: string): (b: string)
    ensures Sep !in b
  {
    var e := TrimEnd(p, |p|);
    p[SegmentStart(p, e)..e]
  }

  /** Position of the last `c` in `s`, or -1. */
  function LastIndexOf(s: string, c: char): (k: int)
    ensures k == -1 || (0 <= k < |s| && s[k] == c)
    ensures forall j :: k < j < |s| ==> s[j] != c
  {
    if |s| == 0 then -1
    else if s[|s| - 1] == c then |s| - 1
    else LastIndexOf(s[..|s| - 1], c)
  }

  /** `path.extname(p)`: from the last `.` of the base name to its end, unless
      that dot is the base name's first character or the base name is `..`. */
  function Extname(p: string): (r: string)
    ensures r != "" ==> r[0] == '.' && '.' !in r[1..]
    ensures r == "" <==> (var b := Basename(p); b == ".." || forall j :: 0 < j < |b| ==> b[j] != '.')
  {
    var b := Basename(p);
    var d := LastIndexOf(b, '.');
    if d <= 0 || b == ".." then ""
    else
      assert b[d..][1..] == b[d + 1..];
      b[d..]
  }

  /** A non-empty extension is a proper suffix of the base name. */
  lemma ExtnameIsSuffix(p: string)
    ensures var b := Basename(p);
            var e := Extname(p);
            e != "" ==> |e| < |b| && b[|b| - |e|..] == e
  {
  }

  /** The arguments of `path.join` that survive: the non-empty ones, in order. */
  function NonEmpty(segs: seq<string>): (r: seq<string>)
    ensures forall i :: 0 <= i < |r| ==> r[i] != ""
  {
    if |segs| == 0 then []
    else (if segs[0] == "" then [] else [segs[0]]) + NonEmpty(segs[1..])
  }

  /** `path.join(...segs)` without normalisation: `.` when every argument is empty. */
  function Join(segs: seq<string>): string {
    var parts := NonEmpty(segs);
    if |parts| == 0 then "." else JsString.Join(parts, [Sep])
  }

  /** When no argument holds a separator, splitting the joined path on `/`
      recovers exactly the non-empty arguments: empty arguments disappear.
      When every argument is empty the join is `.`, a single segment. */
  lemma JoinSplitsIntoNonEmpty(segs: seq<string>)
    requires forall i :: 0 <= i < |segs| ==> Sep !in segs[i]
    ensures JsString.Split(Join(segs), Sep) == if NonEmpty(segs) == [] then ["."] else NonEmpty(segs)
  {
    if NonEmpty(segs) == [] {
      SplitDot();
    } else {
      NonEmptyAvoids(segs, Sep);
      JsString.SplitJoin(NonEmpty(segs), Sep);
    }
  }

  /** `"."` is a single segment. */
  lemma SplitDot()
    ensures JsString.Split(".", Sep) == ["."]
  {
    assert "."[1..] == "";
    assert JsString.Split("", Sep) == [""];
    assert ['.'] + "" == ".";
  }

  lemma {:induction false} NonEmptyAvoids(segs: seq<string>, c: char)
    requires forall i :: 0 <= i < |segs| ==> c !in segs[i]
    ensures forall i :: 0 <= i < |NonEmpty(segs)| ==> c !in NonEmpty(segs)[i]
  {
    if |segs| > 0 {
      NonEmptyAvoids(segs[1..], c);
    }
  }

  /** The parent directory of a relative path of non-empty components is the
      join of all components but the last. */
  lemma {:induction false} DirnameOfSegments(segs: seq<string>)
    requires |segs| >= 2
    requires forall i :: 0 <= i < |segs| ==> IsSegment(segs[i])
    ensures Dirname(JsString.Join(segs, [Sep])) == JsString.Join(segs[..|segs| - 1], [Sep])
  {
    var init := segs[..|segs| - 1];
    var last := segs[|segs| - 1];
    assert segs == init + [last];
    JsString.JoinSnoc(init, last, [Sep]);
    var prefix := JsString.Join(init, [Sep]);
    var p := JsString.Join(segs, [Sep]);
    assert p == prefix + [Sep] + last;
    JsString.JoinHead(init, [Sep]);
    assert p[0] == init[0][0] && p[0] != Sep;
    var m := |prefix|;
    assert m >= 1;
    assert p[m] == Sep;
    forall j | m < j < |p|
      ensures p[j] != Sep
    {
      assert p[j] == last[j - m - 1];
    }
    DirEndFindsLastSep(p, |p| - 1, false, m);
    assert p[..m] == prefix;
  }

  /** The `dirname` scan, started inside a final run of non-separators that
      begins after the separator at `m >= 1`, stops at `m`. */
  lemma {:induction false} DirEndFindsLastSep(p: string, i: int, seen: bool, m: int)
    requires 1 <= m < i < |p| && p[m] == Sep
    requires forall j :: m < j <= i ==> p[j] != Sep
    ensures DirEnd(p, i, seen) == m
    decreases i
  {
    if i - 1 > m {
      DirEndFindsLastSep(p, i - 1, true, m);
    }
  }

  /** The base name of a path of non-empty components is its last component. */
  lemma {:induction false} BasenameOfSegments(segs: seq<string>)
    requires |segs| >= 1
    requires forall i :: 0 <= i < |segs| ==> IsSegment(segs[i])
    ensures Basename(JsString.Join(segs, [Sep])) == segs[|segs| - 1]
  {
    var last := segs[|segs| - 1];
    var p := JsString.Join(segs, [Sep]);
    var m := 0;
    if |segs| == 1 {
      assert p == last;
    } else {
      var init := segs[..|segs| - 1];
      assert segs == init + [last];
      JsString.JoinSnoc(init, last, [Sep]);
      m := |JsString.Join(init, [Sep])| + 1;
      assert p == JsString.Join(init, [Sep]) + [Sep] + last;
      assert p[m - 1] == Sep;
    }
    assert p[m..] == last;
    assert TrimEnd(p, |p|) == |p|;
    SegmentStartStops(p, |p|, m);
  }

  /** Walking back over a separator-free run that starts after a separator at
      `m - 1` (or at the very start) stops at `m`. */
  lemma {:induction false} SegmentStartStops(p: string, e: nat, m: nat)
    requires m <= e <= |p|
    requires m == 0 || p[m - 1] == Sep
    requires forall i :: m <= i < e ==> p[i] != Sep
    ensures SegmentStart(p, e) == m
    decreases e
  {
    if e > m {
      SegmentStartStops(p, e - 1, m);
    }
  }
}
