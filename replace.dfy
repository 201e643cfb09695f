/** `find_and_replace` of format.hpp: replace every leftmost, non-overlapping
    occurrence of `find` in `str` by `replace`, scanning only the original
    text, never the inserted replacement. */
module Replace {
  import opened Search

  /** The recursive replacement exactly as written: split around the
      leftmost match, recurse on the part after it only. */
  function FindAndReplace(str: string, find: string, replace: string): string
    decreases |str|
  {
    if |find| == 0 || Find(str, find).None? then str
    else
      str[..Find(str, find).value] + replace
        + FindAndReplace(str[Find(str, find).value + |find|..], find, replace)
  }

  /** An empty `find`, or one that occurs nowhere, leaves `str` unchanged. */
  lemma {:induction false} NoMatchUnchanged(str: string, find: string, replace: string)
    requires |find| == 0 || Absent(str, find)
    ensures FindAndReplace(str, find, replace) == str
  {
  }

  /** Number of matches `FindAndReplace` replaces, counted by the same
      recursion. */
  function Occurrences(str: string, find: string): nat
    decreases |str|
  {
    if |find| == 0 || Find(str, find).None? then 0
    else 1 + Occurrences(str[Find(str, find).value + |find|..], find)
  }

  /** Reference definition: a left-to-right scanner that, at each position,
      either consumes a whole match and emits `replace`, or copies one
      character. */
  function ReplaceScan(s: string, find: string, replace: string): string
    decreases |s|
  {
    if |find| == 0 || |s| == 0 then s
    else if OccursAt(s, find, 0) then replace + ReplaceScan(s[|find|..], find, replace)
    else [s[0]] + ReplaceScan(s[1..], find, replace)
  }

  /** Concatenation of `pieces` with `sep` between neighbours. */
  function Join(pieces: seq<string>, sep: string): string
  {
    if |pieces| == 0 then []
    else if |pieces| == 1 then pieces[0]
    else pieces[0] + sep + Join(pieces[1..], sep)
  }

  lemma {:induction false} JoinCons(p: string, rest: seq<string>, sep: string)
    requires |rest| > 0
    ensures Join([p] + rest, sep) == p + sep + Join(rest, sep)
  {
    assert ([p] + rest)[1..] == rest;
  }

  /** The text between the matches `FindAndReplace` replaces. */
  function Split(str: string, find: string): (pieces: seq<string>)
    requires |find| > 0
    ensures |pieces| > 0
    decreases |str|
  {
    if Find(str, find).None? then [str]
    else [str[..Find(str, find).value]] + Split(str[Find(str, find).value + |find|..], find)
  }

  /** No proper prefix of `pat` is also a suffix of it, so two occurrences
      of `pat` can never overlap. */
  predicate BorderFree(pat: string)
  {
    forall len: nat :: 0 < len < |pat| ==> pat[len..] != pat[..|pat| - len]
  }

  /** When `find` is non-empty and its leftmost occurrence starts at
      `index`, the result is the text before it, then `replace`, then the
      replacement applied to the text after it. */
  lemma {:induction false} LeftmostMatch(str: string, find: string, replace: string, index: nat)
    requires |find| > 0 && OccursAt(str, find, index)
    requires forall j: nat :: j < index ==> !OccursAt(str, find, j)
    ensures FindAndReplace(str, find, replace)
         == str[..index] + replace + FindAndReplace(str[index + |find|..], find, replace)
    ensures |str[index + |find|..]| < |str|
  {
    LeftmostFound(str, find, index);
    Step(str, find, replace, index);
  }

  /** The output length grows by `|replace| - |find|` per replaced match. */
  lemma {:induction false} LengthFormula(str: string, find: string, replace: string)
    ensures |FindAndReplace(str, find, replace)|
         == |str| + Occurrences(str, find) * (|replace| - |find|)
    decreases |str|
  {
    if |find| > 0 && Find(str, find).Some? {
      var index := Find(str, find).value;
      var after := str[index + |find|..];
      Step(str, find, replace, index);
      LengthFormula(after, find, replace);
      LengthStep(|str|, index, |find|, |replace|, |FindAndReplace(after, find, replace)|,
                 Occurrences(after, find), |FindAndReplace(str, find, replace)|,
                 Occurrences(str, find));
    }
  }

  /** One step of the recursion, at the leftmost match `index`. */
  lemma {:induction false} Step(str: string, find: string, replace: string, index: nat)
    requires |find| > 0 && Find(str, find) == Some(index)
    ensures FindAndReplace(str, find, replace)
         == str[..index] + replace + FindAndReplace(str[index + |find|..], find, replace)
    ensures Occurrences(str, find) == 1 + Occurrences(str[index + |find|..], find)
    ensures Split(str, find) == [str[..index]] + Split(str[index + |find|..], find)
    ensures |str[index + |find|..]| == |str| - index - |find|
  {
    ReplaceStep(str, find, replace, index);
    CountStep(str, find, index);
    SplitStep(str, find, index);
  }

  lemma {:induction false} ReplaceStep(str: string, find: string, replace: string, index: nat)
    requires |find| > 0 && Find(str, find) == Some(index)
    ensures FindAndReplace(str, find, replace)
         == str[..index] + replace + FindAndReplace(str[index + |find|..], find, replace)
  {
  }

  lemma {:induction false} CountStep(str: string, find: string, index: nat)
    requires |find| > 0 && Find(str, find) == Some(index)
    ensures Occurrences(str, find) == 1 + Occurrences(str[index + |find|..], find)
  {
  }

  lemma {:induction false} SplitStep(str: string, find: string, index: nat)
    requires |find| > 0 && Find(str, find) == Some(index)
    ensures Split(str, find) == [str[..index]] + Split(str[index + |find|..], find)
  {
  }

  /** The arithmetic of one step of `LengthFormula`. */
  lemma {:induction false} LengthStep(n: int, index: int, f: int, rl: int, m: int, k: nat, total: int, k1: nat)
    requires m == (n - index - f) + k * (rl - f)
    requires total == index + rl + m && k1 == k + 1
    ensures total == n + k1 * (rl - f)
  {
    MulSucc(k, rl - f);
  }

  /** The replaced matches do not overlap, so they fit in `str`. */
  lemma {:induction false} OccurrencesFit(str: string, find: string)
    ensures Occurrences(str, find) * |find| <= |str|
    decreases |str|
  {
    if |find| > 0 && Find(str, find).Some? {
      var index := Find(str, find).value;
      var after := str[index + |find|..];
      Step(str, find, [], index);
      OccurrencesFit(after, find);
      MulSucc(Occurrences(after, find), |find|);
    }
  }

  lemma {:induction false} MulSucc(k: nat, d: int)
    ensures (k + 1) * d == k * d + d
  {
  }

  /** Copying a prefix in which no match starts. */
  lemma {:induction false} ScanSkip(a: string, b: string, find: string, replace: string)
    requires forall j: nat :: j < |a| ==> !OccursAt(a + b, find, j)
    ensures ReplaceScan(a + b, find, replace) == a + ReplaceScan(b, find, replace)
    decreases |a|
  {
    if |find| > 0 && |a| > 0 {
      var w := a + b;
      assert !OccursAt(w, find, 0);
      assert w[1..] == a[1..] + b;
      assert w[1..|w|] == a[1..] + b;
      forall j: nat | j < |a[1..]|
        ensures !OccursAt(a[1..] + b, find, j)
      {
        if OccursAt(w[1..|w|], find, j) {
          OccursInSlice(w, find, 1, |w|, j);
        }
      }
      ScanSkip(a[1..], b, find, replace);
      assert a == [a[0]] + a[1..];
    } else if |a| == 0 {
      assert a + b == b;
    }
  }

  /** The recursive replacement agrees with the left-to-right scanner. */
  lemma {:induction false} FindAndReplaceIsScan(str: string, find: string, replace: string)
    ensures FindAndReplace(str, find, replace) == ReplaceScan(str, find, replace)
    decreases |str|
  {
    if |find| > 0 && Find(str, find).None? {
      assert str + [] == str;
      ScanSkip(str, [], find, replace);
    } else if |find| > 0 {
      var index := Find(str, find).value;
      var after := str[index + |find|..];
      ReplaceStep(str, find, replace, index);
      ScanAtLeftmost(str, find, replace, index);
      FindAndReplaceIsScan(after, find, replace);
    }
  }

  /** The scanner copies everything before the leftmost match, then
      consumes the match. */
  lemma {:induction false} ScanAtLeftmost(str: string, find: string, replace: string, index: nat)
    requires |find| > 0 && Find(str, find) == Some(index)
    ensures ReplaceScan(str, find, replace)
         == str[..index] + replace + ReplaceScan(str[index + |find|..], find, replace)
  {
    var t := str[index..];
    assert str[..index] + t == str;
    ScanSkip(str[..index], t, find, replace);
    assert t[..|find|] == str[index..index + |find|];
    assert t[|find|..] == str[index + |find|..];
    ScanAtMatch(t, find, replace);
  }

  /** The scanner consumes a match at the front. */
  lemma {:induction false} ScanAtMatch(t: string, find: string, replace: string)
    requires |find| > 0 && OccursAt(t, find, 0)
    ensures ReplaceScan(t, find, replace) == replace + ReplaceScan(t[|find|..], find, replace)
  {
  }

  /** Joining the pieces with `find` gives back `str`. */
  lemma {:induction false} SplitJoin(str: string, find: string)
    requires |find| > 0
    ensures Join(Split(str, find), find) == str
    decreases |str|
  {
    if Find(str, find).Some? {
      var index := Find(str, find).value;
      var after := str[index + |find|..];
      Step(str, find, [], index);
      SplitJoin(after, find);
      JoinCons(str[..index], Split(after, find), find);
      assert str == str[..index] + str[index..index + |find|] + after;
    }
  }

  /** No piece contains `find`. */
  lemma {:induction false} SplitPiecesAbsent(str: string, find: string)
    requires |find| > 0
    ensures forall k :: 0 <= k < |Split(str, find)| ==> Absent(Split(str, find)[k], find)
    decreases |str|
  {
    if Find(str, find).Some? {
      var index := Find(str, find).value;
      var after := str[index + |find|..];
      Step(str, find, [], index);
      SplitPiecesAbsent(after, find);
      forall j: nat | j <= index
        ensures !OccursAt(str[..index], find, j)
      {
        if OccursAt(str[..index], find, j) {
          OccursInSlice(str, find, 0, index, j);
        }
      }
      var pieces := Split(str, find);
      forall k | 0 <= k < |pieces|
        ensures Absent(pieces[k], find)
      {
        if k > 0 {
          assert pieces[k] == Split(after, find)[k - 1];
        }
      }
    }
  }

  /** There is one piece more than there are replaced matches. */
  lemma {:induction false} SplitCount(str: string, find: string)
    requires |find| > 0
    ensures |Split(str, find)| == Occurrences(str, find) + 1
    decreases |str|
  {
    if Find(str, find).Some? {
      var index := Find(str, find).value;
      Step(str, find, [], index);
      SplitCount(str[index + |find|..], find);
    }
  }

  /** The replacement result is the pieces between matches joined by
      `replace`: the inserted text takes no part in finding matches. */
  lemma {:induction false} ReplaceJoinsSplit(str: string, find: string, replace: string)
    requires |find| > 0
    ensures FindAndReplace(str, find, replace) == Join(Split(str, find), replace)
    decreases |str|
  {
    if Find(str, find).Some? {
      var index := Find(str, find).value;
      var after := str[index + |find|..];
      Step(str, find, replace, index);
      ReplaceJoinsSplit(after, find, replace);
      assert Split(str, find)[1..] == Split(after, find);
    }
  }

  /** Replacing `find` by itself changes nothing. */
  lemma {:induction false} ReplaceBySelf(str: string, find: string)
    ensures FindAndReplace(str, find, find) == str
  {
    if |find| > 0 {
      ReplaceJoinsSplit(str, find, find);
      SplitJoin(str, find);
    }
  }

  /** A match that starts inside `p` and runs into the `pat` after it
      makes a proper suffix of `pat` equal to a prefix of it. */
  lemma {:induction false} StraddleIsBorder(p: string, pat: string, tail: string, j: nat)
    requires j < |p| < j + |pat|
    ensures OccursAt(p + pat + tail, pat, j) ==> pat[|p| - j..] == pat[..|pat| - (|p| - j)]
  {
    var w, len := p + pat + tail, |p| - j;
    if OccursAt(w, pat, j) {
      forall k | 0 <= k < |pat| - len
        ensures pat[len..][k] == pat[..|pat| - len][k]
      {
        assert w[j..j + |pat|][len + k] == pat[len + k];
        assert w[|p| + k] == pat[k];
      }
    }
  }

  /** In `p + pat + tail`, with `p` free of a border-free `pat`, no match
      starts inside `p`. */
  lemma {:induction false} NoMatchBefore(p: string, pat: string, tail: string, j: nat)
    requires BorderFree(pat) && Absent(p, pat) && j < |p|
    ensures !OccursAt(p + pat + tail, pat, j)
  {
    var w := p + pat + tail;
    if j + |pat| <= |p| {
      assert w[j..j + |pat|] == p[j..j + |pat|];
      assert !OccursAt(p, pat, j);
    } else {
      StraddleIsBorder(p, pat, tail, j);
    }
  }

  /** Splitting text joined from match-free pieces by a border-free
      separator gives the pieces back. */
  lemma {:induction false} JoinSplit(pieces: seq<string>, find: string)
    requires |find| > 0 && BorderFree(find) && |pieces| > 0
    requires forall k :: 0 <= k < |pieces| ==> Absent(pieces[k], find)
    ensures Split(Join(pieces, find), find) == pieces
    decreases |pieces|
  {
    if |pieces| > 1 {
      var p, rest := pieces[0], Join(pieces[1..], find);
      var w := p + find + rest;
      assert w == Join(pieces, find);
      assert w[|p|..|p| + |find|] == find;
      forall j: nat | j < |p|
        ensures !OccursAt(w, find, j)
      {
        NoMatchBefore(p, find, rest, j);
      }
      LeftmostFound(w, find, |p|);
      assert w[..|p|] == p;
      assert w[|p| + |find|..] == rest;
      JoinSplit(pieces[1..], find);
    }
  }

  /** `Find` reports the leftmost occurrence. */
  lemma {:induction false} LeftmostFound(s: string, pat: string, index: nat)
    requires OccursAt(s, pat, index)
    requires forall j: nat :: j < index ==> !OccursAt(s, pat, j)
    ensures Find(s, pat) == Some(index)
  {
  }

  /** Every match of a border-free `find` between match-free pieces is
      replaced, each by the same `replace`. */
  lemma {:induction false} EveryMatchReplaced(pieces: seq<string>, find: string, replace: string)
    requires |find| > 0 && BorderFree(find) && |pieces| > 0
    requires forall k :: 0 <= k < |pieces| ==> Absent(pieces[k], find)
    ensures FindAndReplace(Join(pieces, find), find, replace) == Join(pieces, replace)
  {
    ReplaceJoinsSplit(Join(pieces, find), find, replace);
    JoinSplit(pieces, find);
  }
}
