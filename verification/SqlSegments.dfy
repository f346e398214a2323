/** The scanner against the lexical grammar: every text is laid out from code
    characters, comments, literals and dollar-quoted strings, and is masked
    segment by segment, each skipped in full whatever it contains. The grammar
    is written without the scanner's own tests and searches. */
module SqlSegments {
  import opened Sums
  import opened SqlScanner
  import opened SqlTheorems
  import opened SqlLiterals

  datatype Segment =
    | Code(c: char)
    | LineComment(inside: string)
    | BlockComment(nest: Body)
    | OpenComment(inside: string)
    | Literal(word: string, pieces: seq<Piece>, ending: Ending)
    | Dollar(tag: string, body: string)

  function Delimiter(tag: string): string {
    "$" + tag + "$"
  }

  function Source(seg: Segment): string {
    match seg
    case Code(c) => [c]
    case LineComment(inside) => "--" + inside
    case BlockComment(body) => "/*" + Render(body)
    case OpenComment(inside) => "/*" + inside
    case Literal(_, pieces, ending) => "'" + (Inside(pieces) + Tail(ending))
    case Dollar(tag, body) => Delimiter(tag) + (body + Delimiter(tag))
  }

  /** No comment body that starts at i ends anywhere. */
  ghost predicate NeverCloses(text: string, i: nat)
    requires i <= |text|
  {
    forall end :: i <= end <= |text| ==> !BodyRuns(text, i, end)
  }

  predicate IsWordSign(lexicon: Lexicon, c: char) {
    lexicon.isAlnum(c) || c == '_'
  }

  /** The longest run of word signs that ends before i. */
  predicate WordBefore(lexicon: Lexicon, text: string, i: nat, word: string) {
    && |word| <= i <= |text| && StartsAt(text, word, i - |word|)
    && (forall c :: c in word ==> IsWordSign(lexicon, c))
    && (|word| < i ==> !IsWordSign(lexicon, text[i - |word| - 1]))
  }

  /** The word that makes the literal after it an escape literal. */
  predicate IsEscapeWord(word: string) {
    word == "E" || word == "e"
  }

  /** ASCII letters and the underscore, and after the first sign digits too. */
  predicate IsTag(tag: string) {
    forall k :: 0 <= k < |tag| ==>
      var code := tag[k] as int;
      || 65 <= code <= 90 || 97 <= code <= 122 || code == 95
      || (k > 0 && 48 <= code <= 57)
  }

  /** A body between two delimiters with its tag, and none of these before the second. */
  predicate DollarAt(text: string, i: nat, tag: string, body: string) {
    && IsTag(tag) && StartsAt(text, Delimiter(tag) + (body + Delimiter(tag)), i)
    && forall k :: 0 <= k < |body| ==> !StartsAt(body + Delimiter(tag), Delimiter(tag), k)
  }

  /** The segment is one of the grammar's, and what follows does not extend it. */
  ghost predicate Fits(lexicon: Lexicon, text: string, i: nat, seg: Segment)
    requires StartsAt(text, Source(seg), i)
  {
    var end := i + |Source(seg)|;
    match seg
    case Code(c) =>
      && c != '\'' && !StartsAt(text, "--", i) && !StartsAt(text, "/*", i)
      && forall tag, body :: !DollarAt(text, i, tag, body)
    case LineComment(inside) =>
      (forall c :: c in inside ==> c !in LINE_BREAKS) && (end < |text| ==> text[end] in LINE_BREAKS)
    case BlockComment(body) => Unambiguous(body)
    case OpenComment(_) => end == |text| && NeverCloses(text, i + 2)
    case Literal(word, pieces, ending) =>
      WordBefore(lexicon, text, i, word) && LiteralAt(text, i + 1, pieces, ending, IsEscapeWord(word))
    case Dollar(tag, body) => DollarAt(text, i, tag, body)
  }

  /** A segment stands at its place, one facet at a time: a proof that only walks
      along the segments does not look into them. */
  datatype Facet = Spelled | Fitting

  ghost predicate StandsIn(facet: Facet, lexicon: Lexicon, text: string, i: nat, seg: Segment) {
    StartsAt(text, Source(seg), i) && (facet == Fitting ==> Fits(lexicon, text, i, seg))
  }

  ghost predicate Stands(lexicon: Lexicon, text: string, i: nat, seg: Segment) {
    forall facet :: StandsIn(facet, lexicon, text, i, seg)
  }

  /** The segments stand one after the other, up to the end of the text. */
  ghost predicate Laid(lexicon: Lexicon, text: string, i: nat, segs: seq<Segment>)
    decreases |segs|
  {
    if segs == [] then i == |text|
    else Stands(lexicon, text, i, segs[0]) && Laid(lexicon, text, i + |Source(segs[0])|, segs[1..])
  }

  /** The line breaks of a text, in order. */
  function LineBreaks(text: string): string {
    if text == [] then [] else (if text[0] in LINE_BREAKS then [text[0]] else []) + LineBreaks(text[1..])
  }

  /** What is left of a segment: code as it is, everything else a space and its
      line breaks, and code bodies lexed in turn. */
  function Mask(lexicon: Lexicon, out: string, seg: Segment): string {
    match seg
    case Code(c) => [c]
    case LineComment(_) => " "
    case BlockComment(body) => " " + LineBreaks(Render(body))
    case OpenComment(inside) => " " + LineBreaks(inside)
    case Literal(_, pieces, _) => " " + Kept(pieces)
    case Dollar(_, body) =>
      if lexicon.bodyIsCode(out) then " " + Lex(lexicon, body) + " " else " " + LineBreaks(body)
  }

  function Masked(lexicon: Lexicon, out: string, segs: seq<Segment>): string
    decreases |segs|
  {
    if segs == [] then out else Masked(lexicon, out + Mask(lexicon, out, segs[0]), segs[1..])
  }

  // ------------------------------------------------- the scanner's own tests

  lemma {:induction false} BreaksAppend(text: string, c: char)
    ensures LineBreaks(text + [c]) == LineBreaks(text) + if c in LINE_BREAKS then [c] else []
  {
    if text == [] {
      assert [] + [c] == [c] && [c][1..] == [];
    } else {
      assert (text + [c])[1..] == text[1..] + [c];
      BreaksAppend(text[1..], c);
    }
  }

  lemma {:induction false} BreaksAreLineBreaks(text: string)
    ensures Breaks(text) == LineBreaks(text)
  {
    if text != [] {
      var init, c := text[..|text| - 1], text[|text| - 1];
      assert text == init + [c];
      BreaksAreLineBreaks(init);
      BreaksAppend(init, c);
    }
  }

  lemma {:induction false} SomeWordBefore(lexicon: Lexicon, text: string, i: nat) returns (word: string)
    requires i <= |text|
    ensures WordBefore(lexicon, text, i, word)
  {
    if i == 0 || !IsWordSign(lexicon, text[i - 1]) {
      word := "";
    } else {
      var before := SomeWordBefore(lexicon, text, i - 1);
      word := before + [text[i - 1]];
      Glue(text, i - 1 - |before|, i - 1, i);
    }
  }

  /** A quote opens an escape literal exactly when the longest run of word signs before it
      is the one-letter word e or E. */
  lemma EscapesExactlyWhen(lexicon: Lexicon, text: string, i: nat, word: string)
    requires WordBefore(lexicon, text, i, word)
    ensures EscapeBefore(lexicon, text, i) <==> IsEscapeWord(word)
  {
    if |word| == 1 {
      Head(text, i - 1, word, 0);
      assert word == [text[i - 1]];
    } else if |word| >= 2 {
      Head(text, i - |word|, word, |word| - 2);
      assert word[|word| - 2] in word;
    }
  }

  lemma TagSigns(tag: string)
    ensures IsTag(tag) <==> (forall c :: c in tag ==> IsTagChar(c)) && (tag != [] ==> IsTagStart(tag[0]))
  {
    assert forall k :: 0 <= k < |tag| ==> tag[k] in tag;
  }

  lemma {:induction false} FoundIsFirst(text: string, part: string, i: nat)
    requires i <= |text|
    ensures var found := FindFrom(text, part, i);
            forall k :: i <= k <= |text| && StartsAt(text, part, k) ==> found.Some? && found.value <= k
    decreases |text| - i
  {
    if i < |text| && !StartsAt(text, part, i) {
      FoundIsFirst(text, part, i + 1);
    }
  }

  lemma {:induction false} FoundStands(text: string, part: string, i: nat)
    requires i <= |text| && FindFrom(text, part, i).Some?
    ensures StartsAt(text, part, FindFrom(text, part, i).value)
    decreases |text| - i
  {
    if !StartsAt(text, part, i) {
      FoundStands(text, part, i + 1);
    }
  }

  lemma FirstExactlyWhen(body: string, mark: string)
    requires mark != []
    ensures FindFrom(body + mark, mark, 0) == Some(|body|) <==>
            forall k :: 0 <= k < |body| ==> !StartsAt(body + mark, mark, k)
  {
    FoundIsFirst(body + mark, mark, 0);
    assert StartsAt(body + mark, mark, |body|);
    var found := FindFrom(body + mark, mark, 0);
    FoundStands(body + mark, mark, 0);
  }

  lemma MarkExactlyWhen(text: string, first: char, second: char, i: nat)
    ensures MarkAt(text, first, second, i) <==> StartsAt(text, [first, second], i)
  {
    if StartsAt(text, [first, second], i) {
      MarkStands(text, first, second, i);
    }
    if MarkAt(text, first, second, i) {
      assert text[i..i + 2] == [first, second];
    }
  }

  lemma {:induction false} TagEndAt(text: string, i: nat, tag: string)
    requires StartsAt(text, tag, i) && (forall c :: c in tag ==> IsTagChar(c))
    requires i + |tag| < |text| && text[i + |tag|] == '$'
    ensures TagEnd(text, i) == i + |tag|
    decreases |tag|
  {
    if tag != [] {
      Head(text, i, tag, 0);
      assert tag == tag[..1] + tag[1..];
      Split(text, i, tag[..1], tag[1..]);
      TagEndAt(text, i + 1, tag[1..]);
    }
  }

  lemma DelimiterAt(text: string, i: nat, tag: string)
    requires StartsAt(text, Delimiter(tag), i)
    requires IsTag(tag)
    ensures text[i] == '$' && DelimiterEnd(text, i) == Some(i + |tag| + 2)
  {
    TagSigns(tag);
    assert Delimiter(tag) == "$" + (tag + "$");
    Split(text, i, "$", tag + "$");
    Split(text, i + 1, tag, "$");
    Head(text, i, "$", 0);
    Head(text, i + 1 + |tag|, "$", 0);
    if tag != [] {
      Head(text, i + 1, tag, 0);
      TagEndAt(text, i + 1, tag);
    }
  }

  lemma FrontStands(text: string, i: nat, a: string, b: string)
    requires StartsAt(text, a + b, i)
    ensures StartsAt(text, a, i)
  {
    Split(text, i, a, b);
  }

  lemma DelimiterStands(text: string, i: nat, tag: string, body: string)
    requires StartsAt(text, Delimiter(tag) + (body + Delimiter(tag)), i)
    requires IsTag(tag)
    ensures text[i] == '$' && DelimiterEnd(text, i) == Some(i + |Delimiter(tag)|)
  {
    FrontStands(text, i, Delimiter(tag), body + Delimiter(tag));
    DelimiterAt(text, i, tag);
  }

  lemma SliceOfSlice(text: string, i: nat, n: nat, k: nat, m: nat)
    requires i + n <= |text| && k + m <= n
    ensures text[i..i + n][k..k + m] == text[i + k..i + k + m]
  {
    var a, b := text[i..i + n][k..k + m], text[i + k..i + k + m];
    assert forall j :: 0 <= j < m ==> a[j] == b[j];
  }

  lemma FindInPart(text: string, part: string, sought: string, i: nat, k: nat)
    requires StartsAt(text, part, i) && k + |sought| <= |part|
    ensures StartsAt(text, sought, i + k) <==> StartsAt(part, sought, k)
  {
    SliceOfSlice(text, i, |part|, k, |sought|);
  }

  /** A mark first found at the end of a body is first found there in place. */
  lemma FirstPlace(text: string, mark: string, start: nat, body: string)
    requires StartsAt(text, body + mark, start)
    requires FindFrom(body + mark, mark, 0) == Some(|body|)
    ensures FindFrom(text, mark, start) == Some(start + |body|)
  {
    Split(text, start, body, mark);
    FoundIsFirst(text, mark, start);
    FoundIsFirst(body + mark, mark, 0);
    var found := FindFrom(text, mark, start);
    assert found.Some?;
    FoundStands(text, mark, start);
    if found.value < start + |body| {
      FindInPart(text, body + mark, mark, start, found.value - start);
    }
  }

  lemma BackStands(text: string, i: nat, a: string, b: string)
    requires StartsAt(text, a + b, i)
    ensures StartsAt(text, b, i + |a|)
  {
    Split(text, i, a, b);
  }

  lemma ClosingMarkIsFound(text: string, i: nat, mark: string, body: string)
    requires StartsAt(text, mark + (body + mark), i) && FindFrom(body + mark, mark, 0) == Some(|body|)
    ensures FindFrom(text, mark, i + |mark|) == Some(i + |mark| + |body|)
  {
    BackStands(text, i, mark, body + mark);
    FirstPlace(text, mark, i + |mark|, body);
  }

  lemma BodyStands(text: string, i: nat, mark: string, body: string)
    requires StartsAt(text, mark + (body + mark), i)
    ensures StartsAt(text, body, i + |mark|)
  {
    BackStands(text, i, mark, body + mark);
    FrontStands(text, i + |mark|, body, mark);
  }

  lemma QuoteFound(text: string, i: nat, mark: string, body: string)
    requires StartsAt(text, mark, i) && StartsAt(text, body, i + |mark|) && mark != [] && text[i] == '$'
    requires DelimiterEnd(text, i) == Some(i + |mark|)
    requires FindFrom(text, mark, i + |mark|) == Some(i + |mark| + |body|)
    ensures DollarQuote(text, i) == Some(Quote(i + |mark|, i + |mark| + |body|, i + |mark| + |body| + |mark|))
    ensures text[i + |mark|..i + |mark| + |body|] == body
  {
  }

  lemma DollarQuoteAt(text: string, i: nat, mark: string, body: string)
    requires StartsAt(text, mark + (body + mark), i) && mark != []
    requires text[i] == '$' && DelimiterEnd(text, i) == Some(i + |mark|)
    requires FindFrom(body + mark, mark, 0) == Some(|body|)
    ensures DollarQuote(text, i) == Some(Quote(i + |mark|, i + |mark| + |body|, i + |mark| + |body| + |mark|))
    ensures text[i + |mark|..i + |mark| + |body|] == body
  {
    FrontStands(text, i, mark, body + mark);
    BodyStands(text, i, mark, body);
    ClosingMarkIsFound(text, i, mark, body);
    QuoteFound(text, i, mark, body);
  }

  lemma BothStand(text: string, i: nat, a: string, b: string)
    requires StartsAt(text, a, i) && StartsAt(text, b, i + |a|)
    ensures StartsAt(text, a + b, i)
  {
    Glue(text, i, i + |a|, i + |a| + |b|);
  }

  /** A body between two marks of which the second is the first after it. */
  predicate Quoted(text: string, i: nat, mark: string, body: string) {
    && StartsAt(text, mark, i) && StartsAt(text, body, i + |mark|)
    && FindFrom(text, mark, i + |mark|) == Some(i + |mark| + |body|)
  }

  lemma ClosedBy(text: string, i: nat, mark: string, body: string)
    requires Quoted(text, i, mark, body)
    ensures StartsAt(text, body + mark, i + |mark|)
  {
    FoundStands(text, mark, i + |mark|);
    BothStand(text, i + |mark|, body, mark);
  }

  lemma QuotedStands(text: string, i: nat, mark: string, body: string)
    requires Quoted(text, i, mark, body)
    ensures StartsAt(text, mark + (body + mark), i)
  {
    ClosedBy(text, i, mark, body);
    BothStand(text, i, mark, body + mark);
  }

  /** The first place of a mark after a body is the first place in the two together. */
  lemma FirstInPart(text: string, mark: string, start: nat, body: string)
    requires start <= |text| && StartsAt(text, body + mark, start)
    requires FindFrom(text, mark, start) == Some(start + |body|)
    ensures FindFrom(body + mark, mark, 0) == Some(|body|)
  {
    var part := body + mark;
    FindInPart(text, part, mark, start, |body|);
    Split(text, start, body, mark);
    FoundIsFirst(part, mark, 0);
    FoundIsFirst(text, mark, start);
    var found := FindFrom(part, mark, 0);
    assert found.Some? && found.value <= |body|;
    FoundStands(part, mark, 0);
    FindInPart(text, part, mark, start, found.value);
  }

  lemma QuotedIsFirst(text: string, i: nat, mark: string, body: string)
    requires Quoted(text, i, mark, body)
    ensures FindFrom(body + mark, mark, 0) == Some(|body|)
  {
    ClosedBy(text, i, mark, body);
    FirstInPart(text, mark, i + |mark|, body);
  }

  lemma {:induction false} TagIsOfTagSigns(text: string, i: nat)
    requires i <= |text|
    ensures forall c :: c in text[i..TagEnd(text, i)] ==> IsTagChar(c)
    decreases |text| - i
  {
    if i < |text| && IsTagChar(text[i]) {
      TagIsOfTagSigns(text, i + 1);
      assert text[i..TagEnd(text, i)] == [text[i]] + text[i + 1..TagEnd(text, i)];
    }
  }

  lemma DelimiterIsTagged(text: string, i: nat, end: nat) returns (tag: string)
    requires i < |text| && text[i] == '$' && DelimiterEnd(text, i) == Some(end)
    ensures text[i..end] == Delimiter(tag) && IsTag(tag)
  {
    if text[i + 1] == '$' {
      tag := [];
    } else {
      TagIsOfTagSigns(text, i + 1);
      tag := text[i + 1..end - 1];
    }
    assert text[i..end] == [text[i]] + text[i + 1..end - 1] + [text[end - 1]];
    TagSigns(tag);
  }

  lemma SliceStands(text: string, i: nat, end: nat) returns (part: string)
    requires i <= end <= |text|
    ensures part == text[i..end] && StartsAt(text, part, i)
  {
    part := text[i..end];
  }

  lemma DollarIsQuoted(text: string, i: nat) returns (tag: string, body: string)
    requires i < |text| && text[i] == '$' && DollarQuote(text, i).Some?
    ensures Quoted(text, i, Delimiter(tag), body) && IsTag(tag)
  {
    var q := DollarQuote(text, i).value;
    body := SliceStands(text, q.bodyStart, q.bodyEnd);
    tag := DelimiterIsTagged(text, i, q.bodyStart);
  }

  /** A complete dollar-quoted string is found at a place exactly when the grammar has one
      there. */
  lemma QuoteFoundExactlyWhen(text: string, i: nat)
    requires i < |text|
    ensures text[i] == '$' && DollarQuote(text, i).Some? <==> exists tag, body :: DollarAt(text, i, tag, body)
  {
    if tag, body :| DollarAt(text, i, tag, body) {
      DelimiterStands(text, i, tag, body);
      FirstExactlyWhen(body, Delimiter(tag));
      DollarQuoteAt(text, i, Delimiter(tag), body);
    }
    if text[i] == '$' && DollarQuote(text, i).Some? {
      var tag, body := DollarIsQuoted(text, i);
      QuotedStands(text, i, Delimiter(tag), body);
      QuotedIsFirst(text, i, Delimiter(tag), body);
      FirstExactlyWhen(body, Delimiter(tag));
      assert DollarAt(text, i, tag, body);
    }
  }

  // ------------------------------------------------------------------ pieces

  lemma {:induction false} LineEndAt(text: string, i: nat, inside: string)
    requires StartsAt(text, inside, i) && forall c :: c in inside ==> c !in LINE_BREAKS
    requires i + |inside| < |text| ==> text[i + |inside|] in LINE_BREAKS
    ensures LineEnd(text, i) == i + |inside|
    decreases |inside|
  {
    if inside != [] {
      Head(text, i, inside, 0);
      assert inside == inside[..1] + inside[1..];
      Split(text, i, inside[..1], inside[1..]);
      LineEndAt(text, i + 1, inside[1..]);
    }
  }

  lemma BlockToken(lexicon: Lexicon, text: string, i: nat, out: string, inside: string)
    requires MarkAt(text, '/', '*', i) && StartsAt(text, inside, i + 2)
    requires BlockEnd(text, i + 2, 1) == i + 2 + |inside|
    ensures NextToken(lexicon, text, i, out) == Token(i + 2 + |inside|, " " + LineBreaks(inside))
  {
    BreaksAreLineBreaks(inside);
  }

  lemma OpeningStands(text: string, i: nat, inside: string)
    requires StartsAt(text, "/*" + inside, i)
    ensures MarkAt(text, '/', '*', i) && StartsAt(text, inside, i + 2)
  {
    Split(text, i, "/*", inside);
    MarkStands(text, '/', '*', i);
  }

  lemma LiteralToken(lexicon: Lexicon, text: string, i: nat, out: string, end: nat, kept: string)
    requires i < |text| && text[i] == '\''
    requires LiteralEnd(text, i + 1, EscapeBefore(lexicon, text, i)) == Skipped(end, kept)
    ensures NextToken(lexicon, text, i, out) == Token(end, " " + kept)
  {
  }

  lemma DollarToken(lexicon: Lexicon, text: string, i: nat, out: string, q: Quote, body: string)
    requires i < |text| && text[i] == '$' && DollarQuote(text, i) == Some(q) && text[q.bodyStart..q.bodyEnd] == body
    ensures NextToken(lexicon, text, i, out) ==
            Token(q.end, if lexicon.bodyIsCode(out) then " " + Lex(lexicon, body) + " " else " " + LineBreaks(body))
  {
    BreaksAreLineBreaks(body);
  }

  lemma CommentIsMasked(lexicon: Lexicon, text: string, i: nat, out: string, inside: string)
    requires i < |text| && StartsAt(text, "--" + inside, i) && Fits(lexicon, text, i, LineComment(inside))
    ensures NextToken(lexicon, text, i, out) == Token(i + 2 + |inside|, " ")
  {
    Split(text, i, "--", inside);
    MarkStands(text, '-', '-', i);
    LineEndAt(text, i + 2, inside);
  }

  lemma BlockEndAt(text: string, i: nat, nest: Body)
    requires StartsAt(text, Render(nest), i) && Unambiguous(nest)
    ensures BlockEnd(text, i, 1) == i + |Render(nest)|
  {
    RenderedParses(text, i, nest);
    DepthCounterIsDescent(text, i, 1);
  }

  lemma BlockIsMasked(lexicon: Lexicon, text: string, i: nat, out: string, nest: Body)
    requires i < |text| && StartsAt(text, "/*" + Render(nest), i) && Unambiguous(nest)
    ensures NextToken(lexicon, text, i, out) == Token(i + 2 + |Render(nest)|, " " + LineBreaks(Render(nest)))
  {
    OpeningStands(text, i, Render(nest));
    BlockEndAt(text, i + 2, nest);
    BlockToken(lexicon, text, i, out, Render(nest));
  }

  lemma OpenCommentIsMasked(lexicon: Lexicon, text: string, i: nat, out: string, inside: string)
    requires i < |text| && StartsAt(text, Source(OpenComment(inside)), i)
    requires Fits(lexicon, text, i, OpenComment(inside))
    ensures NextToken(lexicon, text, i, out) == Token(i + 2 + |inside|, " " + LineBreaks(inside))
  {
    OpeningStands(text, i, inside);
    BlockCommentsEndWhereTheyNest(text, i + 2, |text|);
    BlockToken(lexicon, text, i, out, inside);
  }

  lemma LiteralIsMasked(
      lexicon: Lexicon, text: string, i: nat, out: string, word: string, pieces: seq<Piece>, ending: Ending)
    requires i < |text| && StartsAt(text, "'" + (Inside(pieces) + Tail(ending)), i)
    requires WordBefore(lexicon, text, i, word) && LiteralAt(text, i + 1, pieces, ending, IsEscapeWord(word))
    ensures NextToken(lexicon, text, i, out) ==
            Token(i + 1 + |Inside(pieces)| + |Tail(ending)|, " " + Kept(pieces))
  {
    Head(text, i, "'" + (Inside(pieces) + Tail(ending)), 0);
    EscapesExactlyWhen(lexicon, text, i, word);
    LiteralEndAt(text, i + 1, pieces, ending, IsEscapeWord(word));
    LiteralToken(lexicon, text, i, out, i + 1 + |Inside(pieces)| + |Tail(ending)|, Kept(pieces));
  }

  lemma DollarIsMasked(lexicon: Lexicon, text: string, i: nat, out: string, tag: string, body: string)
    requires i < |text| && StartsAt(text, Source(Dollar(tag, body)), i) && Fits(lexicon, text, i, Dollar(tag, body))
    ensures NextToken(lexicon, text, i, out) ==
            Token(i + |Source(Dollar(tag, body))|, Mask(lexicon, out, Dollar(tag, body)))
  {
    DelimiterStands(text, i, tag, body);
    FirstExactlyWhen(body, Delimiter(tag));
    DollarQuoteAt(text, i, Delimiter(tag), body);
    DollarToken(lexicon, text, i, out, DollarQuote(text, i).value, body);
  }

  lemma CodeIsKept(lexicon: Lexicon, text: string, i: nat, out: string, c: char)
    requires i < |text| && StartsAt(text, [c], i) && Fits(lexicon, text, i, Code(c))
    ensures NextToken(lexicon, text, i, out) == Token(i + 1, [c])
  {
    Head(text, i, [c], 0);
    MarkExactlyWhen(text, '-', '-', i);
    MarkExactlyWhen(text, '/', '*', i);
    QuoteFoundExactlyWhen(text, i);
  }

  lemma SegmentIsMasked(lexicon: Lexicon, text: string, i: nat, out: string, seg: Segment)
    requires i < |text| && StartsAt(text, Source(seg), i) && Fits(lexicon, text, i, seg)
    ensures NextToken(lexicon, text, i, out) == Token(i + |Source(seg)|, Mask(lexicon, out, seg))
  {
    match seg
    case Code(c) => CodeIsKept(lexicon, text, i, out, c);
    case LineComment(inside) => CommentIsMasked(lexicon, text, i, out, inside);
    case BlockComment(nest) => BlockIsMasked(lexicon, text, i, out, nest);
    case OpenComment(inside) => OpenCommentIsMasked(lexicon, text, i, out, inside);
    case Literal(word, pieces, ending) => LiteralIsMasked(lexicon, text, i, out, word, pieces, ending);
    case Dollar(tag, body) => DollarIsMasked(lexicon, text, i, out, tag, body);
  }

  lemma NextTurn(lexicon: Lexicon, text: string, i: nat, out: string, t: Token)
    requires i < |text| && NextToken(lexicon, text, i, out) == t
    ensures LexFrom(lexicon, text, i, out) == LexFrom(lexicon, text, t.end, out + t.emitted)
  {
  }

  lemma SegmentTurn(lexicon: Lexicon, text: string, i: nat, out: string, seg: Segment, next: nat, mask: string)
    requires Stands(lexicon, text, i, seg)
    requires next == i + |Source(seg)| && mask == Mask(lexicon, out, seg)
    ensures i < next <= |text| && LexFrom(lexicon, text, i, out) == LexFrom(lexicon, text, next, out + mask)
  {
    assert StandsIn(Fitting, lexicon, text, i, seg);
    assert |Source(seg)| > 0;
    SegmentIsMasked(lexicon, text, i, out, seg);
    NextTurn(lexicon, text, i, out, Token(next, mask));
  }

  lemma {:induction false} RestIsMasked(lexicon: Lexicon, text: string, i: nat, out: string, segs: seq<Segment>)
    requires i <= |text| && Laid(lexicon, text, i, segs)
    ensures LexFrom(lexicon, text, i, out) == Masked(lexicon, out, segs)
    decreases |segs|
  {
    if segs != [] {
      var next, mask := i + |Source(segs[0])|, Mask(lexicon, out, segs[0]);
      SegmentTurn(lexicon, text, i, out, segs[0], next, mask);
      RestIsMasked(lexicon, text, next, out + mask, segs[1..]);
    }
  }

  /** A text laid out from segments is masked segment by segment. */
  lemma SegmentsAreMasked(lexicon: Lexicon, text: string, segs: seq<Segment>)
    requires Laid(lexicon, text, 0, segs)
    ensures Lex(lexicon, text) == Masked(lexicon, [], segs)
  {
    RestIsMasked(lexicon, text, 0, [], segs);
  }

  // ------------------------------------------------------- every text is laid out

  lemma {:induction false} LineEndIsFirstBreak(text: string, i: nat)
    requires i <= |text|
    ensures forall c :: c in text[i..LineEnd(text, i)] ==> c !in LINE_BREAKS
    ensures LineEnd(text, i) < |text| ==> text[LineEnd(text, i)] in LINE_BREAKS
    decreases |text| - i
  {
    if i < |text| && !IsBreak(text[i]) {
      LineEndIsFirstBreak(text, i + 1);
      assert text[i..LineEnd(text, i)] == [text[i]] + text[i + 1..LineEnd(text, i)];
    }
  }

  lemma StandsThere(lexicon: Lexicon, text: string, i: nat, seg: Segment)
    requires StartsAt(text, Source(seg), i) && Fits(lexicon, text, i, seg)
    ensures Stands(lexicon, text, i, seg)
  {
  }

  lemma MarkIsWritten(text: string, first: char, second: char, i: nat)
    requires MarkAt(text, first, second, i)
    ensures StartsAt(text, [first, second], i)
  {
    assert text[i..i + 2] == [first, second];
  }

  lemma OpenedBy(text: string, i: nat, first: char, second: char, inside: string)
    requires MarkAt(text, first, second, i) && StartsAt(text, inside, i + 2)
    ensures StartsAt(text, [first, second] + inside, i)
  {
    MarkIsWritten(text, first, second, i);
    BothStand(text, i, [first, second], inside);
  }

  lemma LineCommentStands(lexicon: Lexicon, text: string, i: nat) returns (seg: Segment)
    requires MarkAt(text, '-', '-', i)
    ensures Stands(lexicon, text, i, seg)
  {
    LineEndIsFirstBreak(text, i + 2);
    var inside := SliceStands(text, i + 2, LineEnd(text, i + 2));
    OpenedBy(text, i, '-', '-', inside);
    seg := LineComment(inside);
    StandsThere(lexicon, text, i, seg);
  }

  lemma UnparsedNeverCloses(text: string, i: nat)
    requires i <= |text| && ParseBody(text, i).Unclosed?
    ensures NeverCloses(text, i)
  {
    forall end | i <= end <= |text| ensures !BodyRuns(text, i, end) {
      BodyRunsToParsedEnd(text, i, end);
    }
  }

  lemma ParsedStands(text: string, i: nat)
    requires i <= |text| && ParseBody(text, i).Closed?
    ensures StartsAt(text, Render(ParseBody(text, i).body), i) && Unambiguous(ParseBody(text, i).body)
  {
    ParsedIsRendered(text, i);
    ParsedIsUnambiguous(text, i);
    var part := SliceStands(text, i, ParseBody(text, i).end);
  }

  lemma BlockStands(lexicon: Lexicon, text: string, i: nat) returns (seg: Segment)
    requires MarkAt(text, '/', '*', i)
    ensures Stands(lexicon, text, i, seg)
  {
    var p := ParseBody(text, i + 2);
    if p.Closed? {
      ParsedStands(text, i + 2);
      OpenedBy(text, i, '/', '*', Render(p.body));
      seg := BlockComment(p.body);
    } else {
      UnparsedNeverCloses(text, i + 2);
      var inside := SliceStands(text, i + 2, |text|);
      OpenedBy(text, i, '/', '*', inside);
      seg := OpenComment(inside);
    }
    StandsThere(lexicon, text, i, seg);
  }

  lemma LiteralStands(lexicon: Lexicon, text: string, i: nat) returns (seg: Segment)
    requires i < |text| && text[i] == '\''
    ensures Stands(lexicon, text, i, seg)
  {
    var word := SomeWordBefore(lexicon, text, i);
    var reading := Read(text, i + 1, IsEscapeWord(word));
    ReadingStands(text, i + 1, IsEscapeWord(word));
    seg := Literal(word, reading.pieces, reading.ending);
    OneStands(text, i);
    BothStand(text, i, "'", Inside(reading.pieces) + Tail(reading.ending));
    StandsThere(lexicon, text, i, seg);
  }

  lemma DollarStands(lexicon: Lexicon, text: string, i: nat) returns (seg: Segment)
    requires i < |text| && text[i] == '$' && DollarQuote(text, i).Some?
    ensures Stands(lexicon, text, i, seg)
  {
    var tag, body := DollarIsQuoted(text, i);
    seg := Dollar(tag, body);
    QuotedStands(text, i, Delimiter(tag), body);
    QuotedIsFirst(text, i, Delimiter(tag), body);
    FirstExactlyWhen(body, Delimiter(tag));
    StandsThere(lexicon, text, i, seg);
  }

  /** At every place of every text one of the grammar's segments stands. */
  lemma SomeSegmentStands(lexicon: Lexicon, text: string, i: nat) returns (seg: Segment)
    requires i < |text|
    ensures Stands(lexicon, text, i, seg)
  {
    if MarkAt(text, '-', '-', i) {
      seg := LineCommentStands(lexicon, text, i);
    } else if MarkAt(text, '/', '*', i) {
      seg := BlockStands(lexicon, text, i);
    } else if text[i] == '\'' {
      seg := LiteralStands(lexicon, text, i);
    } else if text[i] == '$' && DollarQuote(text, i).Some? {
      seg := DollarStands(lexicon, text, i);
    } else {
      seg := Code(text[i]);
      MarkExactlyWhen(text, '-', '-', i);
      MarkExactlyWhen(text, '/', '*', i);
      QuoteFoundExactlyWhen(text, i);
      StandsThere(lexicon, text, i, seg);
    }
  }

  lemma StandsWithin(lexicon: Lexicon, text: string, i: nat, seg: Segment)
    requires Stands(lexicon, text, i, seg)
    ensures i < i + |Source(seg)| <= |text|
  {
    assert StandsIn(Spelled, lexicon, text, i, seg);
    assert |Source(seg)| > 0;
  }

  lemma {:induction false} RestIsLaid(lexicon: Lexicon, text: string, i: nat) returns (segs: seq<Segment>)
    requires i <= |text|
    ensures Laid(lexicon, text, i, segs)
    decreases |text| - i
  {
    if i == |text| {
      segs := [];
    } else {
      var seg := SomeSegmentStands(lexicon, text, i);
      StandsWithin(lexicon, text, i, seg);
      var rest := RestIsLaid(lexicon, text, i + |Source(seg)|);
      segs := [seg] + rest;
      assert segs[1..] == rest;
    }
  }

  /** Every text is laid out from the grammar's segments, and what the scanner makes
      of it is its segments masked one by one. */
  lemma EveryTextIsLaid(lexicon: Lexicon, text: string)
    ensures exists segs :: Laid(lexicon, text, 0, segs)
    ensures forall segs :: Laid(lexicon, text, 0, segs) ==> Lex(lexicon, text) == Masked(lexicon, [], segs)
  {
    var segs := RestIsLaid(lexicon, text, 0);
    forall other | Laid(lexicon, text, 0, other) ensures Lex(lexicon, text) == Masked(lexicon, [], other) {
      SegmentsAreMasked(lexicon, text, other);
    }
  }
}
