/** The concrete calls of test.cpp, derived from the general lemmas, and the
    behaviours of the chained design that they do not exercise. */
module FormatCases {
  import opened Search
  import opened Replace
  import opened Format

  /** A template in which none of the markers `{0}` .. `{n-1}` occurs comes
      back unchanged from the chain of `n` passes, whatever the arguments;
      other brace text, such as `{x}`, `{{` or `{7}`, passes through. */
  lemma {:induction false} NoMarkerTemplateUnchanged(fmt: string, args: seq<string>)
    requires forall i :: 0 <= i < |args| ==> Absent(fmt, Marker(i))
    ensures FormatSeq(fmt, args) == fmt
    decreases |args|
  {
    if |args| > 0 {
      NoMarkerTemplateUnchanged(fmt, args[..|args| - 1]);
    }
  }

  /** A template without any left brace holds no marker at all. */
  lemma {:induction false} NoBraceTemplateUnchanged(fmt: string, args: seq<string>)
    requires NoBrace(fmt)
    ensures FormatSeq(fmt, args) == fmt
  {
    assert fmt + [] == fmt;
    assert NoBrace(fmt[0..]);
    forall i | 0 <= i < |args|
      ensures Absent(fmt, Marker(i))
    {
      NoBraceNoMatch(fmt, [], i, 0);
    }
    NoMarkerTemplateUnchanged(fmt, args);
  }

  /** Brace text that is not a marker is copied: `format("{x}", "A")` is
      "{x}", with no error. */
  lemma {:induction false} UnknownBracesStay()
    ensures Format1("{x}", "A") == "{x}"
  {
    SmallMarkers();
    forall i: nat | i <= 3
      ensures !OccursAt("{x}", "{0}", i)
    {
      if i == 0 {
        assert "{x}"[0..3][1] != "{0}"[1];
      }
    }
  }

  lemma {:induction false} RenderCons(p: Piece, rest: seq<Piece>, args: seq<string>)
    ensures Render([p] + rest, args) == PieceText(p, args) + Render(rest, args)
  {
    assert ([p] + rest)[1..] == rest;
  }

  lemma {:induction false} SmallMarkers()
    ensures Marker(0) == "{0}" && Marker(1) == "{1}" && Marker(2) == "{2}" && Marker(3) == "{3}"
  {
    assert Decimal(0) == "0" && Decimal(1) == "1" && Decimal(2) == "2" && Decimal(3) == "3";
  }

  /** test.cpp:9-10: `format("o hai", 42)` is "o hai". */
  lemma {:induction false} PlainTemplateCase()
    ensures Format1("o hai", "42") == "o hai"
  {
    Format1InOrder("o hai", "42");
    NoBraceTemplateUnchanged("o hai", ["42"]);
  }

  /** test.cpp:12-13: `format("i can has {0}", "formatting")`. */
  lemma {:induction false} SingleMarkerCase()
    ensures Format1("i can has {0}", "formatting") == "i can has formatting"
  {
    var pieces, args := [Lit("i can has "), Hole(0)], ["formatting"];
    assert Template(pieces) == "i can has {0}" by {
      SmallMarkers();
      RenderCons(Lit("i can has "), [Hole(0)], []);
      RenderCons(Hole(0), [], []);
    }
    assert Render(pieces, args) == "i can has formatting" by {
      RenderCons(Lit("i can has "), [Hole(0)], args);
      RenderCons(Hole(0), [], args);
    }
    assert PlainLiterals(pieces) && AllNoBrace(args);
    Format1InOrder("i can has {0}", "formatting");
    FormatSeqRenders(pieces, args);
  }

  /** test.cpp:15-16: `format("{0} {0}", 2.5)`; both markers get the same
      text. */
  lemma {:induction false} RepeatedMarkerCase()
    ensures Format1("{0} {0}", "2.5") == "2.5 2.5"
  {
    var pieces, args := [Hole(0), Lit(" "), Hole(0)], ["2.5"];
    assert Template(pieces) == "{0} {0}" by {
      SmallMarkers();
      RenderCons(Hole(0), [], []);
      RenderCons(Lit(" "), [Hole(0)], []);
      RenderCons(Hole(0), [Lit(" "), Hole(0)], []);
    }
    assert Render(pieces, args) == "2.5 2.5" by {
      RenderCons(Hole(0), [], args);
      RenderCons(Lit(" "), [Hole(0)], args);
      RenderCons(Hole(0), [Lit(" "), Hole(0)], args);
    }
    assert PlainLiterals(pieces) && AllNoBrace(args);
    Format1InOrder("{0} {0}", "2.5");
    FormatSeqRenders(pieces, args);
  }

  lemma {:induction false} TwoMarkersPieces()
    ensures Template([Hole(0), Lit(" "), Hole(1)]) == "{0} {1}"
    ensures Render([Hole(0), Lit(" "), Hole(1)], ["0", "1"]) == "0 1"
  {
    var args := ["0", "1"];
    SmallMarkers();
    RenderCons(Hole(1), [], []);
    RenderCons(Lit(" "), [Hole(1)], []);
    RenderCons(Hole(0), [Lit(" "), Hole(1)], []);
    RenderCons(Hole(1), [], args);
    RenderCons(Lit(" "), [Hole(1)], args);
    RenderCons(Hole(0), [Lit(" "), Hole(1)], args);
  }

  /** test.cpp:18-19: `format("{0} {1}", 0, 1)`. */
  lemma {:induction false} TwoMarkersCase()
    ensures Format2("{0} {1}", "0", "1") == "0 1"
  {
    var pieces, args := [Hole(0), Lit(" "), Hole(1)], ["0", "1"];
    TwoMarkersPieces();
    assert PlainLiterals(pieces) && AllNoBrace(args);
    Format2InOrder("{0} {1}", "0", "1");
    FormatSeqRenders(pieces, args);
  }

  /** A five-piece template renders piece by piece. */
  lemma {:induction false} RenderFive(p1: Piece, p2: Piece, p3: Piece, p4: Piece, p5: Piece,
                                      args: seq<string>)
    ensures Render([p1, p2, p3, p4, p5], args)
         == PieceText(p1, args) + PieceText(p2, args) + PieceText(p3, args)
          + PieceText(p4, args) + PieceText(p5, args)
  {
    var t1, t2, t3, t4, t5 := PieceText(p1, args), PieceText(p2, args), PieceText(p3, args),
                              PieceText(p4, args), PieceText(p5, args);
    assert [p5][1..] == [];
    assert Render([p5], args) == t5;
    assert [p4, p5][1..] == [p5];
    assert Render([p4, p5], args) == t4 + t5;
    assert [p3, p4, p5][1..] == [p4, p5];
    assert Render([p3, p4, p5], args) == t3 + (t4 + t5);
    assert [p2, p3, p4, p5][1..] == [p3, p4, p5];
    assert Render([p2, p3, p4, p5], args) == t2 + (t3 + (t4 + t5));
    assert [p1, p2, p3, p4, p5][1..] == [p2, p3, p4, p5];
    assert Render([p1, p2, p3, p4, p5], args) == t1 + (t2 + (t3 + (t4 + t5)));
  }

  lemma {:induction false} OutOfOrderTemplate()
    ensures Template([Hole(1), Lit(" "), Hole(0), Lit(" "), Hole(1)]) == "{1} {0} {1}"
  {
    SmallMarkers();
    var m0, m1 := PieceText(Hole(0), []), PieceText(Hole(1), []);
    assert m0 == "{0}" && m1 == "{1}";
    RenderFive(Hole(1), Lit(" "), Hole(0), Lit(" "), Hole(1), []);
    assert m1 + " " + m0 + " " + m1 == "{1} {0} {1}";
  }

  lemma {:induction false} OutOfOrderRender()
    ensures Render([Hole(1), Lit(" "), Hole(0), Lit(" "), Hole(1)], ["right", "left"])
         == "left right left"
  {
    RenderFive(Hole(1), Lit(" "), Hole(0), Lit(" "), Hole(1), ["right", "left"]);
  }

  /** test.cpp:21-22: `format("{1} {0} {1}", "right", "left")`; markers
      resolve by index, not by position. */
  lemma {:induction false} OutOfOrderCase()
    ensures Format2("{1} {0} {1}", "right", "left") == "left right left"
  {
    var pieces, args := [Hole(1), Lit(" "), Hole(0), Lit(" "), Hole(1)], ["right", "left"];
    OutOfOrderTemplate();
    OutOfOrderRender();
    assert PlainLiterals(pieces) && AllNoBrace(args);
    Format2InOrder("{1} {0} {1}", "right", "left");
    FormatSeqRenders(pieces, args);
  }

  /** Later passes rescan text inserted by earlier ones: an argument that
      reads "{1}" is itself replaced by the next argument. */
  lemma {:induction false} LaterPassRescans()
    ensures Format2("{0}", "{1}", "x") == "x"
  {
    SmallMarkers();
    LeftmostMatch("{0}", "{0}", "{1}", 0);
    LeftmostMatch("{1}", "{1}", "x", 0);
  }

  /** A stray brace is copied by the pass that does not match it, but a
      later pass can still consume it: the first argument "{" completes the
      marker "{1}" with the template text after it. */
  lemma {:induction false} LaterPassCompletesMarker()
    ensures Format2("{0}1}", "{", "X") == "X"
  {
    SmallMarkers();
    LeftmostMatch("{0}1}", "{0}", "{", 0);
    assert "{0}1}"[3..] == "1}";
    NoMatchUnchanged("1}", "{0}", "{");
    assert "{" + "1}" == "{1}";
    LeftmostMatch("{1}", "{1}", "X", 0);
  }

  /** Within one pass the inserted text is not rescanned: replacing marker
      0 by "{0}{0}" inserts it once per marker and stops. */
  lemma {:induction false} OnePassDoesNotRescan()
    ensures Format1("{0}", "{0}{0}") == "{0}{0}"
  {
    SmallMarkers();
    LeftmostMatch("{0}", "{0}", "{0}{0}", 0);
  }

  /** Doubled braces are not escapes: in "{{0}}" the marker is found after
      the first brace and the outer braces stay; nothing is reported. */
  lemma {:induction false} DoubledBracesStay()
    ensures Format1("{{0}}", "A") == "{A}"
  {
    SmallMarkers();
    var s := "{{0}}";
    assert s[1..4] == "{0}";
    assert s[0..3][1] == '{';
    LeftmostMatch(s, "{0}", "A", 1);
    assert s[..1] == "{" && s[4..] == "}";
  }
}
