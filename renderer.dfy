/** `displayProperties`: one card per record, in order, or the "No
    properties found." placeholder; location and society are highlighted
    when there is search text. */
module Renderer {
  import opened Wrappers
  import opened Text
  import opened Listing
  import opened Highlight

  /** A property card: the record it shows, and its location and society
      lines as highlighter output. */
  datatype Card = Card(property: Record, location: seq<Piece>, society: seq<Piece>)

  /** The property grid: the "No properties found." paragraph, or the
      cards. */
  datatype Grid = NoResults | Cards(cards: seq<Card>)

  /** `p.society || 'N/A'`: a missing or empty society shows as "N/A". */
  function SocietyLabel(r: Record): (s: string)
    ensures r.society.Some? && r.society.value != [] ==> s == r.society.value
    ensures r.society.None? || r.society.value == [] ==> s == "N/A"
  {
    if r.society.Some? && r.society.value != [] then r.society.value else "N/A"
  }

  /** Text shown verbatim, one plain character per character. */
  function Verbatim(t: string): (ps: seq<Piece>)
    ensures |ps| == |t| && forall k | 0 <= k < |t| :: ps[k] == Char(t[k])
  {
    seq(|t|, k requires 0 <= k < |t| => Char(t[k]))
  }

  /** Verbatim text carries no highlight and reads as itself. */
  lemma {:induction false} VerbatimPlain(t: string)
    ensures Strip(Verbatim(t)) == t && Render(Verbatim(t)) == t
    ensures !HasMark(Verbatim(t))
  {
    if t != [] {
      VerbatimPlain(t[1..]);
      assert Verbatim(t)[1..] == Verbatim(t[1..]);
      assert t == [t[0]] + t[1..];
    }
  }

  /** `searchText ? highlightText(t, searchText) : t`. */
  function Shown(t: string, q: string): (ps: seq<Piece>)
    ensures Strip(ps) == t
    ensures q == [] ==> Render(ps) == t && !HasMark(ps)
    ensures forall k | 0 <= k < |ps| && ps[k].Mark? :: Lower(ps[k].text) == Lower(q)
  {
    if q == [] then VerbatimPlain(t); Verbatim(t) else Highlighted(t, q)
  }

  /** The card of one record. */
  function CardFor(r: Record, q: string): (c: Card)
    ensures c.property == r
    ensures Strip(c.location) == r.location && Strip(c.society) == SocietyLabel(r)
  {
    Card(r, Shown(r.location, q), Shown(SocietyLabel(r), q))
  }

  /** What `displayProperties(properties, q)` leaves in the grid. */
  function Displayed(properties: seq<Record>, q: string): (g: Grid)
    ensures g.NoResults? <==> properties == []
  {
    if properties == [] then NoResults
    else Cards(seq(|properties|, i requires 0 <= i < |properties| => CardFor(properties[i], q)))
  }

  method DisplayProperties(properties: seq<Record>, q: string) returns (g: Grid)
    ensures g == Displayed(properties, q)
  {
    if |properties| == 0 {
      return NoResults;
    }
    var cards: seq<Card> := [];
    for k := 0 to |properties|
      invariant |cards| == k
      invariant forall i | 0 <= i < k :: cards[i] == CardFor(properties[i], q)
    {
      cards := cards + [CardFor(properties[k], q)];
    }
    g := Cards(cards);
    assert cards == Displayed(properties, q).cards;
  }

  /** One card per record, in order; each shows its record, and with the
      highlight markers removed its location and society line read as the
      record's own. */
  lemma DisplayedCards(properties: seq<Record>, q: string)
    ensures Displayed(properties, q).Cards? ==>
      |Displayed(properties, q).cards| == |properties| &&
      forall i | 0 <= i < |properties| ::
        Displayed(properties, q).cards[i].property == properties[i] &&
        Strip(Displayed(properties, q).cards[i].location) == properties[i].location &&
        Strip(Displayed(properties, q).cards[i].society) == SocietyLabel(properties[i])
  {
  }

  /** Without search text no card highlights anything, and every card
      spells out its location and society as they are. */
  lemma DisplayedPlain(properties: seq<Record>)
    ensures Displayed(properties, "").Cards? ==> forall i | 0 <= i < |properties| ::
      var c := Displayed(properties, "").cards[i];
      !HasMark(c.location) && !HasMark(c.society) &&
      Render(c.location) == properties[i].location && Render(c.society) == SocietyLabel(properties[i])
  {
  }

  /** With search text, a card highlights something in its location
      exactly when the location contains the text, case ignored. */
  lemma DisplayedHighlights(properties: seq<Record>, q: string)
    requires q != []
    ensures Displayed(properties, q).Cards? ==> forall i | 0 <= i < |properties| ::
      (HasMark(Displayed(properties, q).cards[i].location) <==>
         Contains(Lower(properties[i].location), Lower(q))) &&
      (HasMark(Displayed(properties, q).cards[i].society) <==>
         Contains(Lower(SocietyLabel(properties[i])), Lower(q)))
  {
    forall i | 0 <= i < |properties|
      ensures HasMark(CardFor(properties[i], q).location) <==> Contains(Lower(properties[i].location), Lower(q))
      ensures HasMark(CardFor(properties[i], q).society) <==> Contains(Lower(SocietyLabel(properties[i])), Lower(q))
    {
      HighlightedMarksIffContains(properties[i].location, q);
      HighlightedMarksIffContains(SocietyLabel(properties[i]), q);
    }
  }
}
