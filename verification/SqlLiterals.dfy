/** The inside of a string literal as a grammar, following section 4.1.2 of the
    PostgreSQL manual: quotes are doubled, and in an escape literal a backslash
    takes the next character with it, whatever it is. */
module SqlLiterals {
  import opened SqlScanner
  import opened SqlTheorems

  datatype Piece = Sign(c: char) | DoubledQuote | Escaped(c: char)

  function Spelling(piece: Piece): string {
    match piece
    case Sign(c) => [c]
    case DoubledQuote => "''"
    case Escaped(c) => ['\\', c]
  }

  /** A lone sign is no quote, and in an escape literal no backslash either. */
  predicate Spelt(piece: Piece, escapes: bool) {
    match piece
    case Sign(c) => c != '\'' && !(escapes && c == '\\')
    case DoubledQuote => true
    case Escaped(_) => escapes
  }

  predicate AllSpelt(pieces: seq<Piece>, escapes: bool) {
    forall k :: 0 <= k < |pieces| ==> Spelt(pieces[k], escapes)
  }

  function Inside(pieces: seq<Piece>): string {
    if pieces == [] then [] else Spelling(pieces[0]) + Inside(pieces[1..])
  }

  /** A carriage return or a line feed. */
  const LINE_BREAKS: set<char> := {'\r', '\n'}

  function KeptOf(piece: Piece): string {
    if piece.Sign? && piece.c in LINE_BREAKS then [piece.c] else []
  }

  /** The line breaks that stand as signs of their own; an escaped one is lost. */
  function Kept(pieces: seq<Piece>): string {
    if pieces == [] then [] else KeptOf(pieces[0]) + Kept(pieces[1..])
  }

  /** A literal ends at its closing quote, or is open at the end of the text, where
      a backslash with nothing after it escapes nothing. */
  datatype Ending = AtQuote | AtEnd | AtBackslash

  function Tail(ending: Ending): string {
    match ending
    case AtQuote => "'"
    case AtEnd => ""
    case AtBackslash => "\\"
  }

  /** The inside and its tail stand at i, and what follows does not extend them. */
  predicate Ends(text: string, i: nat, inside: string, ending: Ending, escapes: bool) {
    var end := i + |inside| + |Tail(ending)|;
    && StartsAt(text, inside + Tail(ending), i)
    && match ending
       case AtQuote => end < |text| ==> text[end] != '\''
       case AtEnd => end == |text|
       case AtBackslash => end == |text| && escapes
  }

  predicate LiteralAt(text: string, i: nat, pieces: seq<Piece>, ending: Ending, escapes: bool) {
    AllSpelt(pieces, escapes) && Ends(text, i, Inside(pieces), ending, escapes)
  }

  // ------------------------------------------------------ the grammar is skipped

  lemma PieceIsSkipped(text: string, i: nat, piece: Piece, escapes: bool, rest: Skipped)
    requires StartsAt(text, Spelling(piece), i) && Spelt(piece, escapes)
    requires LiteralEnd(text, i + |Spelling(piece)|, escapes) == rest
    ensures LiteralEnd(text, i, escapes) == Skipped(rest.end, KeptOf(piece) + rest.kept)
  {
    Head(text, i, Spelling(piece), 0);
    if !piece.Sign? {
      Head(text, i, Spelling(piece), 1);
    }
  }

  lemma EndsLater(text: string, i: nat, a: string, b: string, ending: Ending, escapes: bool)
    requires Ends(text, i, a + b, ending, escapes)
    ensures StartsAt(text, a, i) && Ends(text, i + |a|, b, ending, escapes)
  {
    assert (a + b) + Tail(ending) == a + (b + Tail(ending));
    Split(text, i, a, b + Tail(ending));
  }

  lemma EndsEarlier(text: string, i: nat, a: string, b: string, ending: Ending, escapes: bool)
    requires StartsAt(text, a, i) && Ends(text, i + |a|, b, ending, escapes)
    ensures Ends(text, i, a + b, ending, escapes)
  {
    assert (a + b) + Tail(ending) == a + (b + Tail(ending));
    Glue(text, i, i + |a|, i + |a| + |b| + |Tail(ending)|);
  }

  lemma InsideLength(pieces: seq<Piece>)
    requires pieces != []
    ensures |Inside(pieces)| == |Spelling(pieces[0])| + |Inside(pieces[1..])|
  {
  }

  lemma PiecesStand(text: string, i: nat, pieces: seq<Piece>, ending: Ending, escapes: bool)
    requires pieces != [] && LiteralAt(text, i, pieces, ending, escapes)
    ensures StartsAt(text, Spelling(pieces[0]), i)
    ensures LiteralAt(text, i + |Spelling(pieces[0])|, pieces[1..], ending, escapes)
  {
    EndsLater(text, i, Spelling(pieces[0]), Inside(pieces[1..]), ending, escapes);
  }

  lemma NoPiecesEnd(text: string, i: nat, ending: Ending, escapes: bool)
    requires LiteralAt(text, i, [], ending, escapes)
    ensures LiteralEnd(text, i, escapes) == Skipped(i + |Tail(ending)|, [])
  {
    assert [] + Tail(ending) == Tail(ending);
    if ending != AtEnd {
      Head(text, i, Tail(ending), 0);
    }
  }

  /** A literal laid out from pieces is skipped to where it ends, and the line breaks
      that are signs of their own are kept. */
  lemma {:induction false} LiteralEndAt(text: string, i: nat, pieces: seq<Piece>, ending: Ending, escapes: bool)
    requires LiteralAt(text, i, pieces, ending, escapes)
    ensures LiteralEnd(text, i, escapes) == Skipped(i + |Inside(pieces)| + |Tail(ending)|, Kept(pieces))
    decreases |pieces|
  {
    if pieces == [] {
      NoPiecesEnd(text, i, ending, escapes);
    } else {
      var next, end := i + |Spelling(pieces[0])|, i + |Inside(pieces)| + |Tail(ending)|;
      InsideLength(pieces);
      PiecesStand(text, i, pieces, ending, escapes);
      LiteralEndAt(text, next, pieces[1..], ending, escapes);
      PieceIsSkipped(text, i, pieces[0], escapes, Skipped(end, Kept(pieces[1..])));
    }
  }

  // --------------------------------------------------- the grammar is complete

  datatype Reading = Reading(pieces: seq<Piece>, ending: Ending)

  function Before(piece: Piece, rest: Reading): Reading {
    rest.(pieces := [piece] + rest.pieces)
  }

  /** Read a literal as the grammar has it, from just after its opening quote. */
  function Read(text: string, i: nat, escapes: bool): Reading
    requires i <= |text|
    decreases |text| - i
  {
    if i == |text| then Reading([], AtEnd)
    else if escapes && text[i] == '\\' then
      if i + 1 == |text| then Reading([], AtBackslash) else Before(Escaped(text[i + 1]), Read(text, i + 2, escapes))
    else if text[i] != '\'' then Before(Sign(text[i]), Read(text, i + 1, escapes))
    else if i + 1 < |text| && text[i + 1] == '\'' then Before(DoubledQuote, Read(text, i + 2, escapes))
    else Reading([], AtQuote)
  }

  predicate ReadAt(text: string, i: nat, reading: Reading, escapes: bool) {
    LiteralAt(text, i, reading.pieces, reading.ending, escapes)
  }

  lemma OnePieceMore(text: string, i: nat, piece: Piece, rest: Reading, escapes: bool)
    requires StartsAt(text, Spelling(piece), i) && Spelt(piece, escapes)
    requires ReadAt(text, i + |Spelling(piece)|, rest, escapes)
    ensures ReadAt(text, i, Before(piece, rest), escapes)
  {
    assert ([piece] + rest.pieces)[1..] == rest.pieces;
    EndsEarlier(text, i, Spelling(piece), Inside(rest.pieces), rest.ending, escapes);
  }

  lemma OneStands(text: string, i: nat)
    requires i < |text|
    ensures StartsAt(text, [text[i]], i)
  {
  }

  lemma TwoStand(text: string, i: nat)
    requires i + 1 < |text|
    ensures StartsAt(text, [text[i], text[i + 1]], i)
  {
    assert text[i..i + 2] == [text[i], text[i + 1]];
  }

  lemma NothingEnds(text: string, escapes: bool)
    ensures Ends(text, |text|, "", AtEnd, escapes)
  {
  }

  lemma OneSignEnds(text: string, i: nat, ending: Ending, escapes: bool)
    requires i < |text| && Tail(ending) == [text[i]]
    requires ending == AtQuote ==> i + 1 < |text| ==> text[i + 1] != '\''
    requires ending == AtBackslash ==> i + 1 == |text| && escapes
    ensures Ends(text, i, "", ending, escapes)
  {
    assert "" + Tail(ending) == [text[i]];
    OneStands(text, i);
  }

  /** What is read stands in the text, whatever the text. */
  lemma {:induction false} ReadingStands(text: string, i: nat, escapes: bool)
    requires i <= |text|
    ensures ReadAt(text, i, Read(text, i, escapes), escapes)
    decreases |text| - i
  {
    if i == |text| {
      NothingEnds(text, escapes);
    } else if escapes && text[i] == '\\' {
      if i + 1 == |text| {
        OneSignEnds(text, i, AtBackslash, escapes);
      } else {
        ReadingStands(text, i + 2, escapes);
        TwoStand(text, i);
        OnePieceMore(text, i, Escaped(text[i + 1]), Read(text, i + 2, escapes), escapes);
      }
    } else if text[i] != '\'' {
      ReadingStands(text, i + 1, escapes);
      OneStands(text, i);
      OnePieceMore(text, i, Sign(text[i]), Read(text, i + 1, escapes), escapes);
    } else if i + 1 < |text| && text[i + 1] == '\'' {
      ReadingStands(text, i + 2, escapes);
      TwoStand(text, i);
      OnePieceMore(text, i, DoubledQuote, Read(text, i + 2, escapes), escapes);
    } else {
      OneSignEnds(text, i, AtQuote, escapes);
    }
  }

  /** A literal as the grammar has it, closing quote included, runs from i to end. */
  ghost predicate LiteralRuns(text: string, i: nat, end: nat, escapes: bool) {
    exists pieces :: LiteralAt(text, i, pieces, AtQuote, escapes) && end == i + |Inside(pieces)| + 1
  }

  /** A literal is skipped to exactly where its grammar closes it, and to the end of
      the text when the grammar closes it nowhere. */
  lemma LiteralsEndWhereTheyClose(text: string, i: nat, escapes: bool, end: nat)
    requires i <= end <= |text|
    ensures LiteralEnd(text, i, escapes).end == end <==>
              || LiteralRuns(text, i, end, escapes)
              || (end == |text| && forall e: nat :: !LiteralRuns(text, i, e, escapes))
  {
    forall e: nat | LiteralRuns(text, i, e, escapes) ensures LiteralEnd(text, i, escapes).end == e {
      var pieces :| LiteralAt(text, i, pieces, AtQuote, escapes) && e == i + |Inside(pieces)| + 1;
      LiteralEndAt(text, i, pieces, AtQuote, escapes);
    }
    var reading := Read(text, i, escapes);
    ReadingStands(text, i, escapes);
    LiteralEndAt(text, i, reading.pieces, reading.ending, escapes);
    if reading.ending == AtQuote {
      assert LiteralRuns(text, i, i + |Inside(reading.pieces)| + 1, escapes);
    }
  }
}
