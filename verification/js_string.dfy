/** The JavaScript string and array operations the path synthesis uses:
    `indexOf`, `replace` with a string pattern, `split` on a one-character
    separator and `Array.prototype.join`. Strings are `seq<char>`. */
module JsString {

  /** `pat` occurs in `s` starting at position `k`. */
  predicate OccursAt(s: string, pat: string, k: int) {
    0 <= k && k + |pat| <= |s| && s[k..k + |pat|] == pat
  }

  /** `s.indexOf(pat, from)`: the first position at or after `from` where `pat`
      occurs, or -1 when there is none. */
  function IndexOfFrom(s: string, pat: string, from: nat): (k: int)
    requires from <= |s|
    ensures k == -1 || (from <= k && OccursAt(s, pat, k))
    ensures k == -1 ==> forall j :: from <= j <= |s| ==> !OccursAt(s, pat, j)
    ensures k != -1 ==> forall j :: from <= j < k ==> !OccursAt(s, pat, j)
    decreases |s| - from
  {
    if OccursAt(s, pat, from) then from
    else if from == |s| then -1
    else IndexOfFrom(s, pat, from + 1)
  }

  function IndexOf(s: string, pat: string): int {
    IndexOfFrom(s, pat, 0)
  }

  /** `s.replace(pat, "")`: removes the FIRST occurrence of `pat`, wherever it is,
      and leaves `s` unchanged when `pat` does not occur. An empty `pat` occurs at 0. */
  function RemoveFirst(s: string, pat: string): (r: string)
    ensures IndexOf(s, pat) == -1 ==> r == s
    ensures IndexOf(s, pat) != -1 ==> |r| == |s| - |pat|
  {
    var k := IndexOf(s, pat);
    if k == -1 then s else s[..k] + s[k + |pat|..]
  }

  /** Putting `pat` back where its first occurrence was restores `s`. */
  lemma RemoveFirstRestores(s: string, pat: string)
    requires IndexOf(s, pat) != -1
    ensures var k := IndexOf(s, pat);
            var r := RemoveFirst(s, pat);
            r[..k] + pat + r[k..] == s
  {
    var k := IndexOf(s, pat);
    var r := RemoveFirst(s, pat);
    assert r == s[..k] + s[k + |pat|..];
    assert r[..k] == s[..k] && r[k..] == s[k + |pat|..];
    assert s == s[..k] + s[k..k + |pat|] + s[k + |pat|..];
  }

  /** When `pat` occurs in `s` only as its suffix, removing the first occurrence
      strips that suffix. */
  lemma RemoveFirstOfOnlySuffix(s: string, pat: string)
    requires |pat| <= |s| && s[|s| - |pat|..] == pat
    requires forall j :: 0 <= j < |s| - |pat| ==> !OccursAt(s, pat, j)
    ensures RemoveFirst(s, pat) == s[..|s| - |pat|]
  {
    assert OccursAt(s, pat, |s| - |pat|);
    assert IndexOf(s, pat) == |s| - |pat|;
  }

  /** `s.split(c)` for a one-character separator: the maximal separator-free
      pieces, always at least one (`"".split(c)` is `[""]`). */
  function Split(s: string, c: char): (r: seq<string>)
    ensures |r| >= 1
    ensures forall i :: 0 <= i < |r| ==> c !in r[i]
  {
    if |s| == 0 then [""]
    else
      var rest := Split(s[1..], c);
      if s[0] == c then [""] + rest
      else [[s[0]] + rest[0]] + rest[1..]
  }

  /** `xs.join(sep)`. */
  function Join(xs: seq<string>, sep: string): string {
    if |xs| == 0 then ""
    else if |xs| == 1 then xs[0]
    else xs[0] + sep + Join(xs[1..], sep)
  }

  /** Joining the pieces back with the separator restores the string. */
  lemma {:induction false} JoinSplit(s: string, c: char)
    ensures Join(Split(s, c), [c]) == s
  {
    if |s| != 0 {
      var rest := Split(s[1..], c);
      JoinSplit(s[1..], c);
      if s[0] == c {
        assert Split(s, c) == [""] + rest;
        assert ([""] + rest)[1..] == rest;
        assert s == [c] + s[1..];
      } else {
        var r := Split(s, c);
        assert r == [[s[0]] + rest[0]] + rest[1..];
        if |rest| == 1 {
          assert s == [s[0]] + s[1..];
        } else {
          assert r[1..] == rest[1..];
          assert Join(rest, [c]) == rest[0] + [c] + Join(rest[1..], [c]);
          assert s == [s[0]] + s[1..];
        }
      }
    }
  }

  /** A separator-free prefix glues onto the first piece of the rest. */
  lemma {:induction false} SplitPrefix(x: string, t: string, c: char)
    requires c !in x
    ensures Split(x + t, c) == [x + Split(t, c)[0]] + Split(t, c)[1..]
  {
    var st := Split(t, c);
    if |x| == 0 {
      assert x + t == t;
      assert x + st[0] == st[0];
      assert st == [st[0]] + st[1..];
    } else {
      SplitPrefix(x[1..], t, c);
      var s := x + t;
      assert s[0] == x[0] && x[0] != c;
      assert s[1..] == x[1..] + t;
      var rest := Split(s[1..], c);
      assert rest == [x[1..] + st[0]] + st[1..];
      assert rest[0] == x[1..] + st[0] && rest[1..] == st[1..];
      assert Split(s, c) == [[s[0]] + rest[0]] + rest[1..];
      assert [x[0]] + (x[1..] + st[0]) == x + st[0];
    }
  }

  /** Splitting a join of separator-free pieces gives the pieces back. */
  lemma {:induction false} SplitJoin(xs: seq<string>, c: char)
    requires |xs| >= 1
    requires forall i :: 0 <= i < |xs| ==> c !in xs[i]
    ensures Split(Join(xs, [c]), c) == xs
  {
    if |xs| == 1 {
      SplitPrefix(xs[0], "", c);
      assert xs[0] + "" == xs[0];
    } else {
      SplitJoin(xs[1..], c);
      var j := Join(xs[1..], [c]);
      assert Join(xs, [c]) == xs[0] + ([c] + j);
      SplitPrefix(xs[0], [c] + j, c);
      assert ([c] + j)[0] == c;
      assert ([c] + j)[1..] == j;
      var sj := Split([c] + j, c);
      assert sj == [""] + xs[1..];
      assert sj[0] == "" && sj[1..] == xs[1..];
      assert xs[0] + "" == xs[0];
      assert xs == [xs[0]] + xs[1..];
    }
  }

  /** Appending one more piece appends the separator and the piece. */
  lemma {:induction false} JoinSnoc(xs: seq<string>, y: string, sep: string)
    requires |xs| >= 1
    ensures Join(xs + [y], sep) == Join(xs, sep) + sep + y
  {
    if |xs| == 1 {
      assert (xs + [y])[1..] == [y];
    } else {
      assert (xs + [y])[1..] == xs[1..] + [y];
      JoinSnoc(xs[1..], y, sep);
    }
  }

  /** Joining two non-empty lists of pieces puts one separator between their joins. */
  lemma {:induction false} JoinConcat(xs: seq<string>, ys: seq<string>, sep: string)
    requires |xs| >= 1 && |ys| >= 1
    ensures Join(xs + ys, sep) == Join(xs, sep) + sep + Join(ys, sep)
  {
    if |xs| == 1 {
      assert (xs + ys)[0] == xs[0];
      assert (xs + ys)[1..] == ys;
    } else {
      assert (xs + ys)[0] == xs[0];
      assert (xs + ys)[1..] == xs[1..] + ys;
      JoinConcat(xs[1..], ys, sep);
    }
  }

  /** The join starts with the first piece. */
  lemma {:induction false} JoinHead(xs: seq<string>, sep: string)
    requires |xs| >= 1
    ensures |xs[0]| <= |Join(xs, sep)| && Join(xs, sep)[..|xs[0]|] == xs[0]
  {
  }
}
