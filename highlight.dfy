/** `highlightText`: every case-insensitive occurrence of the search text is
    wrapped in a highlight span, and the matched text keeps its own case.
    Occurrences are matched literally, leftmost first, without overlap. */
module Highlight {
  import opened Text

  /** The highlighter's output, before it is spelled out as markup: a plain
      character, or a matched piece of text to be wrapped in a span. */
  datatype Piece = Char(c: char) | Mark(text: string)

  const Open := "<span class=\"highlight\">"
  const Close := "</span>"

  /** The output as markup. */
  function Render(ps: seq<Piece>): string
  {
    if ps == [] then []
    else
      (match ps[0]
         case Char(c) => [c]
         case Mark(t) => Open + t + Close) + Render(ps[1..])
  }

  /** The output with the inserted markers removed. */
  function Strip(ps: seq<Piece>): string
  {
    if ps == [] then []
    else
      (match ps[0]
         case Char(c) => [c]
         case Mark(t) => t) + Strip(ps[1..])
  }

  predicate HasMark(ps: seq<Piece>)
  {
    exists k :: 0 <= k < |ps| && ps[k].Mark?
  }

  /** `text.replace(new RegExp(q, 'gi'), '<span ...>$1</span>')` with the
      pattern taken literally. Only ever called with non-empty `q`. */
  function Highlighted(t: string, q: string): (ps: seq<Piece>)
    requires q != []
    ensures Strip(ps) == t
    ensures forall k | 0 <= k < |ps| && ps[k].Mark? :: Lower(ps[k].text) == Lower(q)
    decreases |t|
  {
    if t == [] then []
    else if MatchesAt(t, q, 0) then
      var rest := Highlighted(t[|q|..], q);
      assert t == t[..|q|] + t[|q|..];
      [Mark(t[..|q|])] + rest
    else
      var rest := Highlighted(t[1..], q);
      assert t == [t[0]] + t[1..];
      [Char(t[0])] + rest
  }

  /** An occurrence at `n + j` is an occurrence at `j` in the text from
      `n` on. */
  lemma MatchesShift(t: string, q: string, n: int, j: int)
    requires 0 <= n <= |t| && 0 <= j
    ensures MatchesAt(t, q, n + j) <==> MatchesAt(t[n..], q, j)
  {
    if n + j + |q| <= |t| {
      assert t[n..][j..j + |q|] == t[n + j..n + j + |q|];
    }
  }

  /** Every highlight stands for an occurrence. */
  lemma {:induction false} MarkedOccurs(t: string, q: string)
    requires q != [] && HasMark(Highlighted(t, q))
    ensures exists i :: MatchesAt(t, q, i)
    decreases |t|
  {
    if !MatchesAt(t, q, 0) {
      var ps := Highlighted(t, q);
      var rest := Highlighted(t[1..], q);
      assert ps == [Char(t[0])] + rest;
      var k :| 0 <= k < |ps| && ps[k].Mark?;
      assert rest[k - 1].Mark?;
      MarkedOccurs(t[1..], q);
      var i :| MatchesAt(t[1..], q, i);
      MatchesShift(t, q, 1, i);
    }
  }

  /** Every occurrence leads to a highlight. */
  lemma {:induction false} OccursMarked(t: string, q: string, i: int)
    requires q != [] && MatchesAt(t, q, i)
    ensures HasMark(Highlighted(t, q))
    decreases |t|
  {
    var ps := Highlighted(t, q);
    if MatchesAt(t, q, 0) {
      assert ps[0].Mark?;
    } else {
      var rest := Highlighted(t[1..], q);
      assert ps == [Char(t[0])] + rest;
      MatchesShift(t, q, 1, i - 1);
      OccursMarked(t[1..], q, i - 1);
      var k :| 0 <= k < |rest| && rest[k].Mark?;
      assert ps[k + 1].Mark?;
    }
  }

  /** Something is highlighted exactly when the text contains `q` with case
      ignored. */
  lemma HighlightedMarksIffContains(t: string, q: string)
    requires q != []
    ensures HasMark(Highlighted(t, q)) <==> Contains(Lower(t), Lower(q))
  {
    ContainsLower(t, q);
    if HasMark(Highlighted(t, q)) {
      MarkedOccurs(t, q);
    }
    if exists i :: MatchesAt(t, q, i) {
      var i :| MatchesAt(t, q, i);
      OccursMarked(t, q, i);
    }
  }

  /** Where the `k`-th piece starts in the text. */
  function PieceStart(ps: seq<Piece>, k: nat): nat
    requires k <= |ps|
  {
    |Strip(ps[..k])|
  }

  /** Each piece is a highlight exactly when a match starts where the piece
      starts. */
  predicate Placed(t: string, q: string, ps: seq<Piece>)
  {
    forall k | 0 <= k < |ps| :: ps[k].Mark? <==> MatchesAt(t, q, PieceStart(ps, k))
  }

  lemma StripCons(p: Piece, ps: seq<Piece>)
    ensures Strip([p] + ps) == Strip([p]) + Strip(ps)
  {
    assert ([p] + ps)[1..] == ps;
    assert [p][1..] == [];
  }

  /** A first piece covering `n` characters, placed correctly, in front of
      correctly placed pieces for the rest of the text. */
  lemma PlacedCons(t: string, q: string, n: nat, head: Piece, rest: seq<Piece>)
    requires 0 < n <= |t| && |Strip([head])| == n
    requires head.Mark? <==> MatchesAt(t, q, 0)
    requires Placed(t[n..], q, rest)
    ensures Placed(t, q, [head] + rest)
  {
    var ps := [head] + rest;
    forall k | 0 <= k < |ps| ensures ps[k].Mark? <==> MatchesAt(t, q, PieceStart(ps, k)) {
      if k == 0 {
        assert ps[..0] == [];
      } else {
        assert ps[..k] == [head] + rest[..k - 1];
        StripCons(head, rest[..k - 1]);
        var j := PieceStart(rest, k - 1);
        assert PieceStart(ps, k) == n + j;
        MatchesShift(t, q, n, j);
        assert ps[k] == rest[k - 1];
        assert rest[k - 1].Mark? <==> MatchesAt(t[n..], q, j);
      }
    }
  }

  /** The `g` flag: the scan marks every match it reaches and no plain
      character starts one, so the marks are the leftmost non-overlapping
      occurrences. */
  lemma {:induction false} HighlightedPlaced(t: string, q: string)
    requires q != []
    ensures Placed(t, q, Highlighted(t, q))
    decreases |t|
  {
    if t != [] {
      var matched := MatchesAt(t, q, 0);
      var n := if matched then |q| else 1;
      var head := if matched then Mark(t[..|q|]) else Char(t[0]);
      HighlightedPlaced(t[n..], q);
      assert [head][1..] == [];
      assert |Strip([head])| == n;
      assert Highlighted(t, q) == [head] + Highlighted(t[n..], q);
      PlacedCons(t, q, n, head, Highlighted(t[n..], q));
    }
  }

  /** Without highlighting, markup and stripped text coincide. */
  lemma {:induction false} RenderUnmarked(ps: seq<Piece>)
    requires !HasMark(ps)
    ensures Render(ps) == Strip(ps)
  {
    if ps != [] {
      assert !ps[0].Mark?;
      assert !HasMark(ps[1..]) by {
        forall k | 0 <= k < |ps| - 1 ensures !ps[1..][k].Mark? {
          assert ps[1..][k] == ps[k + 1];
        }
      }
      RenderUnmarked(ps[1..]);
    }
  }

  /** A text without a case-insensitive occurrence of `q` comes back
      unchanged. */
  lemma HighlightNoOccurrence(t: string, q: string)
    requires q != []
    requires !Contains(Lower(t), Lower(q))
    ensures Render(Highlighted(t, q)) == t
  {
    HighlightedMarksIffContains(t, q);
    RenderUnmarked(Highlighted(t, q));
  }

  /** A text shorter than `q` cannot hold it, and comes back unchanged. */
  lemma {:induction false} HighlightShortText(t: string, q: string)
    requires q != [] && |t| < |q|
    ensures Render(Highlighted(t, q)) == t
    decreases |t|
  {
    if t != [] {
      var rest := Highlighted(t[1..], q);
      assert Highlighted(t, q) == [Char(t[0])] + rest;
      assert ([Char(t[0])] + rest)[1..] == rest;
      HighlightShortText(t[1..], q);
      assert t == [t[0]] + t[1..];
    }
  }

  /** A leading highlight is spelled out as a span around the matched text. */
  lemma RenderMarkThen(m: string, ps: seq<Piece>)
    ensures Render([Mark(m)] + ps) == Open + m + Close + Render(ps)
  {
    assert ([Mark(m)] + ps)[1..] == ps;
  }

  /** "field" holds no "white". */
  lemma FieldUnmarked()
    ensures Render(Highlighted("field", "white")) == "field"
  {
    var q := "white";
    assert "field"[0..5] == "field";
    assert Lower("field")[0] == 'f' && Lower(q)[0] == 'w';
    assert !MatchesAt("field", q, 0);
    var rest := Highlighted("ield", q);
    assert "field"[1..] == "ield";
    assert Highlighted("field", q) == [Char('f')] + rest;
    assert ([Char('f')] + rest)[1..] == rest;
    HighlightShortText("ield", q);
  }

  /** A match at the front becomes the first highlight. */
  lemma HighlightedHead(t: string, q: string)
    requires q != [] && MatchesAt(t, q, 0)
    ensures Render(Highlighted(t, q)) == Open + t[..|q|] + Close + Render(Highlighted(t[|q|..], q))
  {
    RenderMarkThen(t[..|q|], Highlighted(t[|q|..], q));
  }

  /** Searching "white" highlights "White" in "Whitefield", in its own case. */
  lemma HighlightWhitefield()
    ensures Render(Highlighted("Whitefield", "white")) == Open + "White" + Close + "field"
  {
    var t, q := "Whitefield", "white";
    assert t[..5] == "White" && t[5..] == "field";
    assert Lower(q) == "white";
    assert Lower("White") == "white";
    assert MatchesAt(t, q, 0);
    HighlightedHead(t, q);
    FieldUnmarked();
  }
}
