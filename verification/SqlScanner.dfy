/** The scanner that masks SQL comments and data literals and keeps executable
    text. Comments nest as in section 4.1.5 of the PostgreSQL manual, and string
    constants follow its section 4.1.2. Identifiers in double quotes, of section
    4.1.1, are no tokens of the scanner. */
module SqlScanner {
  import opened Sums

  /** What the scanner takes from elsewhere: the classification of letters and
      digits, and whether the text before a dollar quote makes its body code. */
  datatype Classes = Classes(isAlnum: char -> bool, bodyIsCode: string -> bool)

  type Lexicon = l: Classes | l.isAlnum('E') && l.isAlnum('e') witness Classes(c => true, before => false)

  predicate IsBreak(c: char) {
    c == '\r' || c == '\n'
  }

  predicate StartsAt(text: string, part: string, i: nat) {
    i + |part| <= |text| && text[i..i + |part|] == part
  }

  /** The two characters of a comment mark stand at i. */
  predicate MarkAt(text: string, first: char, second: char, i: nat) {
    i + 1 < |text| && text[i] == first && text[i + 1] == second
  }

  /** The line breaks of a text, in order. */
  function Breaks(text: string): (kept: string)
    ensures |kept| <= |text|
  {
    if text == [] then []
    else Breaks(text[..|text| - 1]) + if IsBreak(text[|text| - 1]) then [text[|text| - 1]] else []
  }

  // ------------------------------------------------------------------ tokens

  /** A line comment runs to the next line break. */
  function LineEnd(text: string, i: nat): (end: nat)
    requires i <= |text|
    ensures i <= end <= |text|
    decreases |text| - i
  {
    if i < |text| && !IsBreak(text[i]) then LineEnd(text, i + 1) else i
  }

  /** Skip the inside of a block comment, counting the nesting. */
  function BlockEnd(text: string, i: nat, depth: nat): (end: nat)
    requires i <= |text|
    ensures i <= end <= |text|
    decreases |text| - i
  {
    if i >= |text| || depth == 0 then i
    else if MarkAt(text, '/', '*', i) then BlockEnd(text, i + 2, depth + 1)
    else if MarkAt(text, '*', '/', i) then BlockEnd(text, i + 2, depth - 1)
    else BlockEnd(text, i + 1, depth)
  }

  datatype Skipped = Skipped(end: nat, kept: string)

  /** Skip the inside of a literal. A break after an escaping backslash is lost. */
  function LiteralEnd(text: string, i: nat, escapes: bool): (s: Skipped)
    requires i <= |text|
    ensures i <= s.end <= |text| && |s.kept| <= s.end - i
    decreases |text| - i
  {
    if i >= |text| then Skipped(i, [])
    else if escapes && text[i] == '\\' && i + 1 < |text| then LiteralEnd(text, i + 2, escapes)
    else if text[i] == '\'' then
      if i + 1 < |text| && text[i + 1] == '\'' then LiteralEnd(text, i + 2, escapes) else Skipped(i + 1, [])
    else
      var rest := LiteralEnd(text, i + 1, escapes);
      if IsBreak(text[i]) then Skipped(rest.end, [text[i]] + rest.kept) else rest
  }

  /** A quote is an escape literal when an E stands before it as a whole word. */
  predicate EscapeBefore(lexicon: Lexicon, text: string, i: nat)
    requires i <= |text|
  {
    && i > 0 && (text[i - 1] == 'E' || text[i - 1] == 'e')
    && (i < 2 || !(lexicon.isAlnum(text[i - 2]) || text[i - 2] == '_'))
  }

  predicate IsTagStart(c: char) {
    'A' <= c <= 'Z' || 'a' <= c <= 'z' || c == '_'
  }

  predicate IsTagChar(c: char) {
    IsTagStart(c) || '0' <= c <= '9'
  }

  function TagEnd(text: string, i: nat): (end: nat)
    requires i <= |text|
    ensures i <= end <= |text|
    decreases |text| - i
  {
    if i < |text| && IsTagChar(text[i]) then TagEnd(text, i + 1) else i
  }

  /** Match a dollar-quote delimiter at i; its end, if it is one. */
  function DelimiterEnd(text: string, i: nat): (end: Option<nat>)
    requires i < |text| && text[i] == '$'
    ensures end.Some? ==> i + 2 <= end.value <= |text|
  {
    if i + 1 >= |text| then None
    else if text[i + 1] == '$' then Some(i + 2)
    else if !IsTagStart(text[i + 1]) then None
    else
      var end := TagEnd(text, i + 1);
      if end < |text| && text[end] == '$' then Some(end + 1) else None
  }

  /** str.find: the first place from i on where part starts. */
  function FindFrom(text: string, part: string, i: nat): (found: Option<nat>)
    requires i <= |text|
    ensures found.Some? ==> i <= found.value && found.value + |part| <= |text|
    decreases |text| - i
  {
    if StartsAt(text, part, i) then Some(i)
    else if i == |text| then None
    else FindFrom(text, part, i + 1)
  }

  datatype Quote = Quote(bodyStart: nat, bodyEnd: nat, end: nat)

  /** A complete dollar-quoted string at i. */
  function DollarQuote(text: string, i: nat): (q: Option<Quote>)
    requires i < |text| && text[i] == '$'
    ensures q.Some? ==> i + 2 <= q.value.bodyStart <= q.value.bodyEnd && q.value.bodyEnd + 2 <= q.value.end <= |text|
    ensures q.Some? ==> q.value.end - q.value.bodyEnd == q.value.bodyStart - i
  {
    var start := DelimiterEnd(text, i);
    if start.None? then None
    else
      var found := FindFrom(text, text[i..start.value], start.value);
      if found.None? then None else Some(Quote(start.value, found.value, found.value + (start.value - i)))
  }

  datatype Token = Token(end: nat, emitted: string)

  /** One turn of the main loop: where it leaves the index and what it emits. */
  function NextToken(lexicon: Lexicon, text: string, i: nat, output: string): (t: Token)
    requires i < |text|
    ensures i < t.end <= |text|
    decreases |text|, 0, 0
  {
    if MarkAt(text, '-', '-', i) then Token(LineEnd(text, i + 2), " ")
    else if MarkAt(text, '/', '*', i) then
      var end := BlockEnd(text, i + 2, 1);
      Token(end, " " + Breaks(text[i + 2..end]))
    else if text[i] == '$' && DollarQuote(text, i).Some? then
      var q := DollarQuote(text, i).value;
      var body := text[q.bodyStart..q.bodyEnd];
      Token(q.end, if lexicon.bodyIsCode(output) then " " + Lex(lexicon, body) + " " else " " + Breaks(body))
    else if text[i] == '\'' then
      var s := LiteralEnd(text, i + 1, EscapeBefore(lexicon, text, i));
      Token(s.end, " " + s.kept)
    else Token(i + 1, [text[i]])
  }

  function LexFrom(lexicon: Lexicon, text: string, i: nat, output: string): string
    requires i <= |text|
    decreases |text|, 1, |text| - i
  {
    if i == |text| then output
    else
      var t := NextToken(lexicon, text, i, output);
      LexFrom(lexicon, text, t.end, output + t.emitted)
  }

  function Lex(lexicon: Lexicon, text: string): string
    decreases |text|, 2, 0
  {
    LexFrom(lexicon, text, 0, [])
  }

  // ------------------------------------------------------------- the scanner

  method SkipLine(text: string, start: nat) returns (index: nat)
    requires start <= |text|
    ensures index == LineEnd(text, start)
  {
    index := start;
    while index < |text| && !IsBreak(text[index])
      invariant start <= index <= |text|
      invariant LineEnd(text, start) == LineEnd(text, index)
    {
      index := index + 1;
    }
  }

  lemma BreaksOfTwo(text: string, start: nat, index: nat)
    requires start <= index && (MarkAt(text, '/', '*', index) || MarkAt(text, '*', '/', index))
    ensures Breaks(text[start..index + 2]) == Breaks(text[start..index])
  {
    assert text[start..index + 2][..index + 1 - start] == text[start..index + 1];
    assert text[start..index + 1][..index - start] == text[start..index];
  }

  /** The inner loop over a block comment: `depth` counts open comments, and line
      breaks inside go to the output. */
  method SkipBlock(text: string, start: nat) returns (index: nat, kept: string)
    requires start <= |text|
    ensures index == BlockEnd(text, start, 1) && kept == Breaks(text[start..index])
  {
    index, kept := start, [];
    var depth := 1;
    while index < |text| && depth > 0
      invariant start <= index <= |text|
      invariant BlockEnd(text, start, 1) == BlockEnd(text, index, depth)
      invariant kept == Breaks(text[start..index])
      decreases |text| - index
    {
      if MarkAt(text, '/', '*', index) {
        BreaksOfTwo(text, start, index);
        depth := depth + 1;
        index := index + 2;
        continue;
      }
      if MarkAt(text, '*', '/', index) {
        BreaksOfTwo(text, start, index);
        depth := depth - 1;
        index := index + 2;
        continue;
      }
      assert text[start..index + 1][..index - start] == text[start..index];
      if IsBreak(text[index]) {
        kept := kept + [text[index]];
      }
      index := index + 1;
    }
  }

  method SkipLiteral(text: string, start: nat, escapes: bool) returns (index: nat, kept: string)
    requires start <= |text|
    ensures Skipped(index, kept) == LiteralEnd(text, start, escapes)
  {
    index, kept := start, [];
    while index < |text|
      invariant start <= index <= |text|
      invariant LiteralEnd(text, start, escapes) ==
                Skipped(LiteralEnd(text, index, escapes).end, kept + LiteralEnd(text, index, escapes).kept)
    {
      if escapes && text[index] == '\\' && index + 1 < |text| {
        index := index + 2;
        continue;
      }
      if text[index] == '\'' {
        if index + 1 < |text| && text[index + 1] == '\'' {
          index := index + 2;
          continue;
        }
        index := index + 1;
        assert kept + [] == kept;
        return;
      }
      if IsBreak(text[index]) {
        assert kept + ([text[index]] + LiteralEnd(text, index + 1, escapes).kept) ==
               (kept + [text[index]]) + LiteralEnd(text, index + 1, escapes).kept;
        kept := kept + [text[index]];
      }
      index := index + 1;
    }
    assert kept + [] == kept;
  }

  /** One turn of the main loop at `index`, recursing into bodies that are code. */
  method LexToken(lexicon: Lexicon, text: string, index: nat, output: string) returns (end: nat, emitted: string)
    requires index < |text|
    ensures Token(end, emitted) == NextToken(lexicon, text, index, output)
    decreases |text|, 0
  {
    if MarkAt(text, '-', '-', index) {
      end := SkipLine(text, index + 2);
      return end, " ";
    }
    if MarkAt(text, '/', '*', index) {
      end, emitted := SkipBlock(text, index + 2);
      return end, " " + emitted;
    }
    if text[index] == '$' {
      var quote := DollarQuote(text, index);
      if quote.None? {
        return index + 1, [text[index]];
      }
      var q := quote.value;
      var body := text[q.bodyStart..q.bodyEnd];
      if lexicon.bodyIsCode(output) {
        var inner := LexExecutableSql(lexicon, body);
        return q.end, " " + inner + " ";
      }
      return q.end, " " + Breaks(body);
    }
    if text[index] == '\'' {
      end, emitted := SkipLiteral(text, index + 1, EscapeBefore(lexicon, text, index));
      return end, " " + emitted;
    }
    return index + 1, [text[index]];
  }

  /** The main loop over the text. */
  method LexExecutableSql(lexicon: Lexicon, text: string) returns (output: string)
    ensures output == Lex(lexicon, text)
    decreases |text|, 1
  {
    output := [];
    var index := 0;
    while index < |text|
      invariant index <= |text|
      invariant Lex(lexicon, text) == LexFrom(lexicon, text, index, output)
    {
      var end, emitted := LexToken(lexicon, text, index, output);
      index, output := end, output + emitted;
    }
  }
}
