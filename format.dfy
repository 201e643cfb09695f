/** The formatting front end of format.hpp: `format_onearg` and the six
    `format` overloads. Every argument arrives already rendered as text. */
module Format {
  import opened Search
  import opened Replace

  predicate IsDigit(c: char)
  {
    '0' <= c <= '9'
  }

  /** No character of `s` is a left brace. */
  predicate NoBrace(s: string)
  {
    forall i :: 0 <= i < |s| ==> s[i] != '{'
  }

  function DigitChar(d: nat): (c: char)
    requires d < 10
    ensures IsDigit(c)
  {
    ('0' as int + d) as char
  }

  function DigitValue(c: char): nat
    requires IsDigit(c)
  {
    c as int - '0' as int
  }

  /** What `stream << argnum` prints for a non-negative `int`: the shortest
      decimal numeral, without sign or leading zeros. */
  function Decimal(n: nat): (r: string)
    ensures |r| > 0
    ensures forall i :: 0 <= i < |r| ==> IsDigit(r[i])
    ensures r[0] == '0' <==> n == 0
  {
    if n < 10 then [DigitChar(n)] else Decimal(n / 10) + [DigitChar(n % 10)]
  }

  /** Value of a decimal numeral. */
  function ParseDecimal(s: string): nat
    requires forall i :: 0 <= i < |s| ==> IsDigit(s[i])
  {
    if |s| == 0 then 0
    else ParseDecimal(s[..|s| - 1]) * 10 + DigitValue(s[|s| - 1])
  }

  lemma {:induction false} DecimalRoundTrip(n: nat)
    ensures ParseDecimal(Decimal(n)) == n
  {
    if n >= 10 {
      var s := Decimal(n);
      assert s[..|s| - 1] == Decimal(n / 10);
      DecimalRoundTrip(n / 10);
    }
  }

  /** Distinct indices print as distinct numerals. */
  lemma {:induction false} DecimalInjective(m: nat, n: nat)
    ensures Decimal(m) == Decimal(n) ==> m == n
  {
    DecimalRoundTrip(m);
    DecimalRoundTrip(n);
  }

  /** The search string `format_onearg` builds: `{`, the index in
      decimal, `}`. */
  function Marker(argnum: nat): (r: string)
    ensures |r| >= 3 && r[0] == '{' && r[|r| - 1] == '}'
    ensures forall i :: 0 < i < |r| - 1 ==> IsDigit(r[i])
  {
    "{" + Decimal(argnum) + "}"
  }

  /** Only the first character of a marker is a left brace. */
  lemma {:induction false} MarkerTailNoBrace(argnum: nat)
    ensures NoBrace(Marker(argnum)[1..])
  {
  }

  /** A marker never overlaps itself, so its occurrences are disjoint. */
  lemma {:induction false} MarkerBorderFree(argnum: nat)
    ensures BorderFree(Marker(argnum))
  {
    var m := Marker(argnum);
    forall len: nat | 0 < len < |m|
      ensures m[len..] != m[..|m| - len]
    {
      assert m[len..][0] != m[..|m| - len][0];
    }
  }

  /** Text that starts with one marker does not start with another. */
  lemma {:induction false} MarkersDiffer(i: nat, k: nat, tail: string)
    requires i != k
    ensures !OccursAt(Marker(i) + tail, Marker(k), 0)
  {
    var di, dk := Decimal(i), Decimal(k);
    var w, mk := Marker(i) + tail, Marker(k);
    if |dk| < |di| {
      assert w[|dk| + 1] != mk[|dk| + 1];
    } else if |di| < |dk| {
      assert w[|di| + 1] != mk[|di| + 1];
    } else {
      DecimalInjective(i, k);
      var p :| 0 <= p < |di| && di[p] != dk[p];
      assert w[p + 1] != mk[p + 1];
    }
  }

  /** No marker starts strictly inside another marker. */
  lemma {:induction false} InteriorNoMarker(str: string, a: nat, p: nat, b: nat, j: nat)
    requires OccursAt(str, Marker(a), p)
    ensures p < j < p + |Marker(a)| ==> !OccursAt(str, Marker(b), j)
  {
    var ma, mb := Marker(a), Marker(b);
    if p < j < p + |ma| {
      assert str[p..p + |ma|][j - p] == str[j];
      if j + |mb| <= |str| {
        assert str[j..j + |mb|][0] == str[j];
      }
    }
  }

  /** Two different markers never start at the same place. */
  lemma {:induction false} SameStartDiffers(str: string, a: nat, b: nat, p: nat)
    requires OccursAt(str, Marker(a), p)
    ensures a != b ==> !OccursAt(str, Marker(b), p)
  {
    var ma, mb := Marker(a), Marker(b);
    if a != b {
      var tail := str[p + |ma|..];
      assert str[p..] == ma + tail;
      MarkersDiffer(a, b, tail);
      if p + |mb| <= |str| {
        assert str[p..][..|mb|] == str[p..p + |mb|];
      }
    }
  }

  /** Marker `i` occurs somewhere in `s`. */
  ghost predicate HasMarker(s: string, i: nat)
  {
    exists q: nat :: OccursAt(s, Marker(i), q)
  }

  /** An occurrence of marker `i` and a match of a different marker `k` are
      disjoint: one ends before the other starts. */
  lemma {:induction false} MarkersDisjoint(str: string, i: nat, k: nat, p: nat, index: nat)
    requires i != k && OccursAt(str, Marker(i), p) && OccursAt(str, Marker(k), index)
    ensures p + |Marker(i)| <= index || index + |Marker(k)| <= p
  {
    InteriorNoMarker(str, i, p, k, index);
    InteriorNoMarker(str, k, index, i, p);
    SameStartDiffers(str, i, k, p);
  }

  /** A pass for marker `k` never destroys an occurrence of a different
      marker `i`: the match for `k` can neither overlap it nor start inside
      it, and the text around the replaced matches is kept. */
  lemma {:induction false} MarkerSurvivesPass(str: string, i: nat, k: nat, r: string, p: nat)
    requires i != k && OccursAt(str, Marker(i), p)
    ensures HasMarker(FindAndReplace(str, Marker(k), r), i)
    decreases |str|
  {
    var mi, mk := Marker(i), Marker(k);
    if Find(str, mk).None? {
      NoMatchUnchanged(str, mk, r);
      assert OccursAt(FindAndReplace(str, mk, r), mi, p);
    } else {
      var index := Find(str, mk).value;
      var rest := FindAndReplace(str[index + |mk|..], mk, r);
      if index + |mk| <= p {
        OccursInSuffix(str, mi, index + |mk|, p);
        MarkerSurvivesPass(str[index + |mk|..], i, k, r, p - (index + |mk|));
      }
      ReplaceStep(str, mk, r, index);
      SurvivesAtMatch(str, i, k, r, p, index, rest);
    }
  }

  /** One step of `MarkerSurvivesPass`: a match for `k` at `index` is cut
      out and replaced by `r`, and `rest` stands for the rescanned remainder,
      which keeps marker `i` whenever the occurrence lies behind the match. */
  lemma {:induction false} SurvivesAtMatch(str: string, i: nat, k: nat, r: string, p: nat,
                                           index: nat, rest: string)
    requires i != k && OccursAt(str, Marker(i), p) && OccursAt(str, Marker(k), index)
    requires index + |Marker(k)| <= p ==> HasMarker(rest, i)
    ensures HasMarker(str[..index] + r + rest, i)
  {
    MarkersDisjoint(str, i, k, p, index);
    if p + |Marker(i)| <= index {
      KeptBeforeMatch(str, i, p, index, r, rest);
    } else {
      KeptAfterMatch(str[..index], r, rest, i);
    }
  }

  /** An occurrence that ends before `index` is kept when the text from
      `index` on is replaced. */
  lemma {:induction false} KeptBeforeMatch(str: string, i: nat, p: nat, index: nat, r: string, rest: string)
    requires p + |Marker(i)| <= index <= |str| && OccursAt(str, Marker(i), p)
    ensures HasMarker(str[..index] + r + rest, i)
  {
    var mi := Marker(i);
    assert str[..index][p..p + |mi|] == str[p..p + |mi|];
    OccursBeforeSuffix(str[..index], r + rest, mi, p);
    assert str[..index] + (r + rest) == str[..index] + r + rest;
  }

  /** A marker in the rescanned remainder is kept behind the replaced prefix. */
  lemma {:induction false} KeptAfterMatch(before: string, r: string, rest: string, i: nat)
    requires HasMarker(rest, i)
    ensures HasMarker(before + r + rest, i)
  {
    var q: nat :| OccursAt(rest, Marker(i), q);
    OccursAfterPrefix(before + r, rest, Marker(i), q);
  }

  /** A pass for another marker keeps marker `i` somewhere in the text. */
  lemma {:induction false} HasMarkerAfterPass(s: string, i: nat, k: nat, r: string)
    requires i != k && HasMarker(s, i)
    ensures HasMarker(FormatOneArg(s, k, r), i)
  {
    var p: nat :| OccursAt(s, Marker(i), p);
    MarkerSurvivesPass(s, i, k, r, p);
  }

  /** `format_onearg<T, argnum>(fmt, value)`, with `value` already
      rendered as `arg`: every `{argnum}` in `fmt` becomes `arg`. */
  function FormatOneArg(fmt: string, argnum: nat, arg: string): string
  {
    FindAndReplace(fmt, Marker(argnum), arg)
  }

  /** `format(fmt, v0)` */
  function Format1(fmt: string, v0: string): string
  {
    FormatOneArg(fmt, 0, v0)
  }

  /** `format(fmt, v0, v1)` */
  function Format2(fmt: string, v0: string, v1: string): string
  {
    FormatOneArg(Format1(fmt, v0), 1, v1)
  }

  /** `format(fmt, v0, v1, v2)` */
  function Format3(fmt: string, v0: string, v1: string, v2: string): string
  {
    FormatOneArg(Format2(fmt, v0, v1), 2, v2)
  }

  /** `format(fmt, v0, v1, v2, v3)` */
  function Format4(fmt: string, v0: string, v1: string, v2: string, v3: string): string
  {
    FormatOneArg(Format3(fmt, v0, v1, v2), 3, v3)
  }

  /** `format(fmt, v0, v1, v2, v3, v4)` */
  function Format5(fmt: string, v0: string, v1: string, v2: string, v3: string, v4: string): string
  {
    FormatOneArg(Format4(fmt, v0, v1, v2, v3), 4, v4)
  }

  /** `format(fmt, v0, ..., v5)` as written: the last step searches for
      marker 4 again, so marker 5 is never substituted. */
  function Format6(fmt: string, v0: string, v1: string, v2: string, v3: string, v4: string,
                   v5: string): string
  {
    FormatOneArg(Format5(fmt, v0, v1, v2, v3, v4), 4, v5)
  }

  /** The six-argument overload as evidently intended: marker 5 gets the
      sixth argument. */
  function Format6Intended(fmt: string, v0: string, v1: string, v2: string, v3: string,
                           v4: string, v5: string): string
  {
    FormatOneArg(Format5(fmt, v0, v1, v2, v3, v4), 5, v5)
  }

  /** Substitution pass by pass: marker 0 with `args[0]`, then marker 1
      with `args[1]` in the result, and so on. */
  function FormatSeq(fmt: string, args: seq<string>): string
  {
    if |args| == 0 then fmt
    else FormatOneArg(FormatSeq(fmt, args[..|args| - 1]), |args| - 1, args[|args| - 1])
  }

  /** A template seen as literal text and `{n}` markers. */
  datatype Piece = Lit(text: string) | Hole(index: nat)

  /** The text of one piece once `args` are substituted; a marker with no
      argument stays as it is. */
  function PieceText(p: Piece, args: seq<string>): string
  {
    match p
    case Lit(t) => t
    case Hole(i) => if i < |args| then args[i] else Marker(i)
  }

  /** Reference meaning of positional formatting: each marker is replaced
      by its own argument, independently of all other markers. */
  function Render(pieces: seq<Piece>, args: seq<string>): string
  {
    if |pieces| == 0 then []
    else PieceText(pieces[0], args) + Render(pieces[1..], args)
  }

  /** The template text the pieces spell. */
  function Template(pieces: seq<Piece>): string
  {
    Render(pieces, [])
  }

  /** Literal pieces contain no left brace. */
  predicate PlainLiterals(pieces: seq<Piece>)
  {
    forall k :: 0 <= k < |pieces| ==> pieces[k].Lit? ==> NoBrace(pieces[k].text)
  }

  predicate AllNoBrace(args: seq<string>)
  {
    forall j :: 0 <= j < |args| ==> NoBrace(args[j])
  }

  /** No marker starts inside the brace-free part of `a`. */
  lemma {:induction false} NoBraceNoMatch(a: string, b: string, argnum: nat, from: nat)
    requires from <= |a| && NoBrace(a[from..])
    ensures forall j: nat :: from <= j < |a| ==> !OccursAt(a + b, Marker(argnum), j)
  {
    var w, m := a + b, Marker(argnum);
    forall j: nat | from <= j < |a|
      ensures !OccursAt(w, m, j)
    {
      assert a[from..][j - from] == w[j];
      if j + |m| <= |w| {
        assert w[j..j + |m|][0] == w[j];
      }
    }
  }

  /** Scanning for marker `k` passes over the text of a piece unchanged,
      except the piece that is marker `k` itself. */
  lemma {:induction false} ScanPiece(p: Piece, rest: string, args: seq<string>, k: nat, x: string)
    requires k <= |args| && AllNoBrace(args)
    requires p.Lit? ==> NoBrace(p.text)
    ensures ReplaceScan(PieceText(p, args) + rest, Marker(k), x)
         == (if p == Hole(|args|) && k == |args| then x else PieceText(p, args))
            + ReplaceScan(rest, Marker(k), x)
  {
    var t, m := PieceText(p, args), Marker(k);
    if p == Hole(|args|) && k == |args| {
      assert t == m;
      assert (t + rest)[..|m|] == m;
      assert (t + rest)[|m|..] == rest;
    } else if p.Hole? && p.index >= |args| {
      MarkerTailNoBrace(p.index);
      NoBraceNoMatch(t, rest, k, 1);
      MarkersDiffer(p.index, k, rest);
      ScanSkip(t, rest, m, x);
    } else {
      assert NoBrace(t[0..]);
      NoBraceNoMatch(t, rest, k, 0);
      ScanSkip(t, rest, m, x);
    }
  }

  /** One pass for marker `k` over a rendered template: it fills the next
      argument when `k == |args|` and changes nothing when `k < |args|`. */
  lemma {:induction false} ScanRender(pieces: seq<Piece>, args: seq<string>, k: nat, x: string)
    requires k <= |args| && PlainLiterals(pieces) && AllNoBrace(args)
    ensures ReplaceScan(Render(pieces, args), Marker(k), x)
         == if k == |args| then Render(pieces, args + [x]) else Render(pieces, args)
    decreases |pieces|
  {
    if |pieces| > 0 {
      var p := pieces[0];
      ScanPiece(p, Render(pieces[1..], args), args, k, x);
      ScanRender(pieces[1..], args, k, x);
      assert PieceText(p, args + [x])
          == if p == Hole(|args|) then x else PieceText(p, args);
    }
  }

  /** Chained substitution over a brace-free template and brace-free
      arguments gives each marker its own argument, whatever the order and
      repetition of markers; markers without an argument stay literal. */
  lemma {:induction false} FormatSeqRenders(pieces: seq<Piece>, args: seq<string>)
    requires PlainLiterals(pieces) && AllNoBrace(args)
    ensures FormatSeq(Template(pieces), args) == Render(pieces, args)
    decreases |args|
  {
    if |args| > 0 {
      var n := |args| - 1;
      var prefix := args[..n];
      FormatSeqRenders(pieces, prefix);
      FindAndReplaceIsScan(Render(pieces, prefix), Marker(n), args[n]);
      ScanRender(pieces, prefix, n, args[n]);
      assert prefix + [args[n]] == args;
    }
  }

  /** A pass for a marker that was already substituted changes nothing. */
  lemma {:induction false} RepeatedPassUnchanged(pieces: seq<Piece>, args: seq<string>, k: nat, x: string)
    requires k < |args| && PlainLiterals(pieces) && AllNoBrace(args)
    ensures FormatOneArg(Render(pieces, args), k, x) == Render(pieces, args)
  {
    FindAndReplaceIsScan(Render(pieces, args), Marker(k), x);
    ScanRender(pieces, args, k, x);
  }

  /** Appending an argument appends a pass for its marker. */
  lemma {:induction false} FormatSeqSnoc(fmt: string, args: seq<string>, v: string)
    ensures FormatSeq(fmt, args + [v]) == FormatOneArg(FormatSeq(fmt, args), |args|, v)
  {
    assert (args + [v])[..|args|] == args;
  }

  /** The one-argument overload is the first pass of the chain. */
  lemma {:induction false} Format1InOrder(fmt: string, v0: string)
    ensures Format1(fmt, v0) == FormatSeq(fmt, [v0])
  {
    assert [v0][..0] == [];
  }

  /** The two-argument overload substitutes marker 0, then marker 1. */
  lemma {:induction false} Format2InOrder(fmt: string, v0: string, v1: string)
    ensures Format2(fmt, v0, v1) == FormatSeq(fmt, [v0, v1])
  {
    Format1InOrder(fmt, v0);
    FormatSeqSnoc(fmt, [v0], v1);
    assert [v0] + [v1] == [v0, v1];
  }

  /** The three-argument overload substitutes markers 0, 1, 2 in order. */
  lemma {:induction false} Format3InOrder(fmt: string, v0: string, v1: string, v2: string)
    ensures Format3(fmt, v0, v1, v2) == FormatSeq(fmt, [v0, v1, v2])
  {
    Format2InOrder(fmt, v0, v1);
    FormatSeqSnoc(fmt, [v0, v1], v2);
    assert [v0, v1] + [v2] == [v0, v1, v2];
  }

  /** The four-argument overload substitutes markers 0 to 3 in order. */
  lemma {:induction false} Format4InOrder(fmt: string, v0: string, v1: string, v2: string, v3: string)
    ensures Format4(fmt, v0, v1, v2, v3) == FormatSeq(fmt, [v0, v1, v2, v3])
  {
    Format3InOrder(fmt, v0, v1, v2);
    FormatSeqSnoc(fmt, [v0, v1, v2], v3);
    assert [v0, v1, v2] + [v3] == [v0, v1, v2, v3];
  }

  /** The five-argument overload substitutes markers 0 to 4 in order. */
  lemma {:induction false} Format5InOrder(fmt: string, v0: string, v1: string, v2: string, v3: string, v4: string)
    ensures Format5(fmt, v0, v1, v2, v3, v4) == FormatSeq(fmt, [v0, v1, v2, v3, v4])
  {
    Format4InOrder(fmt, v0, v1, v2, v3);
    FormatSeqSnoc(fmt, [v0, v1, v2, v3], v4);
    assert [v0, v1, v2, v3] + [v4] == [v0, v1, v2, v3, v4];
  }

  /** The six-argument overload as written: the sixth argument is used only
      for a marker 4 that survives the first five passes, and on a
      brace-free template none does, so the sixth argument never appears
      and a `{5}` stays literal. */
  lemma {:induction false} Format6IgnoresSixth(pieces: seq<Piece>, v0: string, v1: string, v2: string, v3: string,
                            v4: string, v5: string)
    requires PlainLiterals(pieces) && AllNoBrace([v0, v1, v2, v3, v4])
    ensures Format6(Template(pieces), v0, v1, v2, v3, v4, v5)
         == Render(pieces, [v0, v1, v2, v3, v4])
  {
    var args := [v0, v1, v2, v3, v4];
    Format5InOrder(Template(pieces), v0, v1, v2, v3, v4);
    FormatSeqRenders(pieces, args);
    RepeatedPassUnchanged(pieces, args, 4, v5);
  }

  /** A `{5}` anywhere in the template survives the six-argument overload as
      written, whatever the template and the arguments: no pass of it
      searches for marker 5. */
  lemma {:induction false} Format6KeepsMarkerFive(fmt: string, v0: string, v1: string, v2: string,
                                                  v3: string, v4: string, v5: string)
    requires HasMarker(fmt, 5)
    ensures HasMarker(Format6(fmt, v0, v1, v2, v3, v4, v5), 5)
  {
    var s1 := FormatOneArg(fmt, 0, v0);
    HasMarkerAfterPass(fmt, 5, 0, v0);
    var s2 := FormatOneArg(s1, 1, v1);
    HasMarkerAfterPass(s1, 5, 1, v1);
    var s3 := FormatOneArg(s2, 2, v2);
    HasMarkerAfterPass(s2, 5, 2, v2);
    var s4 := FormatOneArg(s3, 3, v3);
    HasMarkerAfterPass(s3, 5, 3, v3);
    var s5 := FormatOneArg(s4, 4, v4);
    HasMarkerAfterPass(s4, 5, 4, v4);
    HasMarkerAfterPass(s5, 5, 4, v5);
  }

  /** The intended six-argument overload continues the chain with marker 5. */
  lemma {:induction false} Format6IntendedInOrder(fmt: string, v0: string, v1: string, v2: string, v3: string,
                               v4: string, v5: string)
    ensures Format6Intended(fmt, v0, v1, v2, v3, v4, v5)
         == FormatSeq(fmt, [v0, v1, v2, v3, v4, v5])
  {
    Format5InOrder(fmt, v0, v1, v2, v3, v4);
    FormatSeqSnoc(fmt, [v0, v1, v2, v3, v4], v5);
    assert [v0, v1, v2, v3, v4] + [v5] == [v0, v1, v2, v3, v4, v5];
  }

  /** The template "{5}" is the single marker 5. */
  lemma {:induction false} MarkerFiveTemplate()
    ensures Template([Hole(5)]) == "{5}"
  {
    assert Decimal(5) == "5";
    assert Render([Hole(5)], []) == PieceText(Hole(5), []) + Render([], []);
  }

  /** A template made of one marker renders to its argument, or to the
      marker itself when there is none. */
  lemma {:induction false} SingleHole(i: nat, args: seq<string>)
    ensures Render([Hole(i)], args) == if i < |args| then args[i] else Marker(i)
  {
    assert Render([Hole(i)], args) == PieceText(Hole(i), args) + Render([], args);
  }

  /** On "{5}" the six-argument overload as written leaves the marker and
      drops the sixth argument... */
  lemma {:induction false} Format6LeavesMarkerFive()
    ensures Format6("{5}", "a", "b", "c", "d", "e", "f") == "{5}"
  {
    var args := ["a", "b", "c", "d", "e"];
    MarkerFiveTemplate();
    assert AllNoBrace(args);
    Format6IgnoresSixth([Hole(5)], "a", "b", "c", "d", "e", "f");
    SingleHole(5, args);
  }

  /** ...while the intended overload substitutes it. */
  lemma {:induction false} Format6IntendedFillsMarkerFive()
    ensures Format6Intended("{5}", "a", "b", "c", "d", "e", "f") == "f"
  {
    MarkerFiveTemplate();
    assert AllNoBrace(["a", "b", "c", "d", "e", "f"]);
    IntendedFillsSingleHole("a", "b", "c", "d", "e", "f");
  }

  lemma {:induction false} IntendedFillsSingleHole(v0: string, v1: string, v2: string, v3: string, v4: string,
                                v5: string)
    requires AllNoBrace([v0, v1, v2, v3, v4, v5])
    ensures Format6Intended(Template([Hole(5)]), v0, v1, v2, v3, v4, v5) == v5
  {
    var args := [v0, v1, v2, v3, v4, v5];
    Format6IntendedInOrder(Template([Hole(5)]), v0, v1, v2, v3, v4, v5);
    FormatSeqRenders([Hole(5)], args);
    SingleHole(5, args);
  }
}
