/** What the SQL scanner guarantees: nothing masked survives, nothing else is
    touched, and comments and literals are skipped to exactly their ends. */
module SqlTheorems {
  import opened SqlScanner

  // ------------------------------------------------ what can be in the output

  /** No quote and no comment mark. */
  predicate Clean(out: string) {
    forall k :: 0 <= k < |out| ==> out[k] != '\'' && !MarkAt(out, '-', '-', k) && !MarkAt(out, '/', '*', k)
  }

  predicate CleanJoint(a: string, b: string) {
    a != [] && b != [] ==>
      && !(a[|a| - 1] == '-' && b[0] == '-')
      && !(a[|a| - 1] == '/' && b[0] == '*')
  }

  /** Between tokens: a mark that could start at the end of the output would
      also start there in the text, and the text has none there. */
  predicate Between(text: string, i: nat, out: string)
    requires i <= |text|
  {
    && Clean(out)
    && |out| <= i
    && (out != [] && (out[|out| - 1] == '-' || out[|out| - 1] == '/') ==>
          && i > 0 && text[i - 1] == out[|out| - 1]
          && !MarkAt(text, '-', '-', i - 1) && !MarkAt(text, '/', '*', i - 1))
  }

  lemma CleanAppend(a: string, b: string)
    requires Clean(a) && Clean(b) && CleanJoint(a, b)
    ensures Clean(a + b)
  {
    var c := a + b;
    forall k | 0 <= k < |c|
      ensures c[k] != '\'' && !MarkAt(c, '-', '-', k) && !MarkAt(c, '/', '*', k)
    {
      assert if k < |a| then c[k] == a[k] else c[k] == b[k - |a|];
      if k + 1 < |a| {
        assert !MarkAt(a, '-', '-', k) && !MarkAt(a, '/', '*', k);
      } else if k >= |a| {
        assert !MarkAt(b, '-', '-', k - |a|) && !MarkAt(b, '/', '*', k - |a|);
      }
    }
  }

  predicate AllBreaks(kept: string) {
    forall k :: 0 <= k < |kept| ==> IsBreak(kept[k])
  }

  lemma {:induction false} BreaksAreBreaks(text: string)
    ensures AllBreaks(Breaks(text))
  {
    if text != [] {
      BreaksAreBreaks(text[..|text| - 1]);
    }
  }

  lemma {:induction false} LiteralsKeepBreaks(text: string, i: nat, escapes: bool)
    requires i <= |text|
    ensures AllBreaks(LiteralEnd(text, i, escapes).kept)
    decreases |text| - i
  {
    if i < |text| {
      if escapes && text[i] == '\\' && i + 1 < |text| {
        LiteralsKeepBreaks(text, i + 2, escapes);
      } else if text[i] == '\'' {
        if i + 1 < |text| && text[i + 1] == '\'' {
          LiteralsKeepBreaks(text, i + 2, escapes);
        }
      } else {
        LiteralsKeepBreaks(text, i + 1, escapes);
      }
    }
  }

  /** What a masked token emits: a space and then line breaks, or a lexed body
      between spaces. */
  lemma BreaksAreClean(kept: string)
    requires AllBreaks(kept)
    ensures Clean(" " + kept) && !((" " + kept)[|kept|] == '-' || (" " + kept)[|kept|] == '/')
  {
    var out := " " + kept;
    forall k | 0 <= k < |out| ensures out[k] == ' ' || IsBreak(out[k]) {
      assert k == 0 || out[k] == kept[k - 1];
    }
  }

  lemma MaskKeepsBetween(text: string, i: nat, out: string, end: nat, emitted: string)
    requires i < end <= |text| && |emitted| <= end - i && Between(text, i, out)
    requires emitted != [] && Clean(emitted) && emitted[0] == ' '
    requires emitted[|emitted| - 1] != '-' && emitted[|emitted| - 1] != '/'
    ensures Between(text, end, out + emitted)
  {
    CleanAppend(out, emitted);
  }

  lemma PlainKeepsBetween(text: string, i: nat, out: string)
    requires i < |text| && Between(text, i, out) && text[i] != '\''
    requires !MarkAt(text, '-', '-', i) && !MarkAt(text, '/', '*', i)
    ensures Between(text, i + 1, out + [text[i]])
  {
    CleanAppend(out, [text[i]]);
  }

  lemma PaddedIsClean(lexed: string)
    requires Clean(lexed)
    ensures Clean(" " + lexed + " ")
  {
    CleanAppend(" ", lexed);
    CleanAppend(" " + lexed, " ");
  }

  lemma {:induction false} TokenKeepsBetween(lexicon: Lexicon, text: string, i: nat, out: string)
    requires i < |text| && Between(text, i, out)
    ensures var t := NextToken(lexicon, text, i, out); Between(text, t.end, out + t.emitted)
    decreases |text|, 0, 0
  {
    var t := NextToken(lexicon, text, i, out);
    if MarkAt(text, '-', '-', i) {
      MaskKeepsBetween(text, i, out, t.end, t.emitted);
    } else if MarkAt(text, '/', '*', i) {
      var end := BlockEnd(text, i + 2, 1);
      BreaksAreBreaks(text[i + 2..end]);
      BreaksAreClean(Breaks(text[i + 2..end]));
      MaskKeepsBetween(text, i, out, t.end, t.emitted);
    } else if text[i] == '$' && DollarQuote(text, i).Some? {
      var q := DollarQuote(text, i).value;
      var body := text[q.bodyStart..q.bodyEnd];
      if lexicon.bodyIsCode(out) {
        OutputIsClean(lexicon, body);
        PaddedIsClean(Lex(lexicon, body));
      } else {
        BreaksAreBreaks(body);
        BreaksAreClean(Breaks(body));
      }
      MaskKeepsBetween(text, i, out, t.end, t.emitted);
    } else if text[i] == '\'' {
      LiteralsKeepBreaks(text, i + 1, EscapeBefore(lexicon, text, i));
      BreaksAreClean(LiteralEnd(text, i + 1, EscapeBefore(lexicon, text, i)).kept);
      MaskKeepsBetween(text, i, out, t.end, t.emitted);
    } else {
      PlainKeepsBetween(text, i, out);
    }
  }

  lemma {:induction false} RestKeepsBetween(lexicon: Lexicon, text: string, i: nat, out: string)
    requires i <= |text| && Between(text, i, out)
    ensures Between(text, |text|, LexFrom(lexicon, text, i, out))
    decreases |text|, 1, |text| - i
  {
    if i < |text| {
      TokenKeepsBetween(lexicon, text, i, out);
      var t := NextToken(lexicon, text, i, out);
      RestKeepsBetween(lexicon, text, t.end, out + t.emitted);
    }
  }

  /** The output never holds a quote, `--` or the start of a block comment, and
      is never longer than the input. */
  lemma {:induction false} OutputIsClean(lexicon: Lexicon, text: string)
    ensures Clean(Lex(lexicon, text)) && |Lex(lexicon, text)| <= |text|
    decreases |text|, 2, 0
  {
    RestKeepsBetween(lexicon, text, 0, []);
  }

  // -------------------------------------------------- what is left untouched

  /** No complete dollar-quoted string starts anywhere. */
  predicate NoDollarQuote(text: string) {
    forall i :: 0 <= i < |text| && text[i] == '$' ==> DollarQuote(text, i).None?
  }

  lemma {:induction false} PlainPrefix(lexicon: Lexicon, text: string, i: nat)
    requires i <= |text| && Clean(text)
    requires forall k :: 0 <= k < i && text[k] == '$' ==> DollarQuote(text, k).None?
    ensures Lex(lexicon, text) == LexFrom(lexicon, text, i, text[..i])
  {
    if i > 0 {
      PlainPrefix(lexicon, text, i - 1);
      assert text[..i - 1] + [text[i - 1]] == text[..i];
      assert NextToken(lexicon, text, i - 1, text[..i - 1]) == Token(i, [text[i - 1]]);
    } else {
      assert text[..0] == [];
    }
  }

  lemma {:induction false} LengthBound(lexicon: Lexicon, text: string, i: nat, out: string)
    requires i <= |text|
    ensures |LexFrom(lexicon, text, i, out)| <= |out| + |text| - i
    decreases |text| - i
  {
    if i < |text| {
      var t := NextToken(lexicon, text, i, out);
      if text[i] == '$' && DollarQuote(text, i).Some? {
        var q := DollarQuote(text, i).value;
        OutputIsClean(lexicon, text[q.bodyStart..q.bodyEnd]);
      }
      assert |t.emitted| <= t.end - i;
      LengthBound(lexicon, text, t.end, out + t.emitted);
    }
  }

  lemma FirstQuoteShortens(lexicon: Lexicon, text: string, i: nat)
    requires i < |text| && Clean(text) && text[i] == '$' && DollarQuote(text, i).Some?
    requires forall k :: 0 <= k < i && text[k] == '$' ==> DollarQuote(text, k).None?
    ensures |Lex(lexicon, text)| < |text|
  {
    PlainPrefix(lexicon, text, i);
    var q := DollarQuote(text, i).value;
    var t := NextToken(lexicon, text, i, text[..i]);
    OutputIsClean(lexicon, text[q.bodyStart..q.bodyEnd]);
    assert |t.emitted| < t.end - i;
    LengthBound(lexicon, text, t.end, text[..i] + t.emitted);
  }

  lemma FirstQuote(text: string, n: nat) returns (i: nat)
    requires n <= |text| && exists k :: 0 <= k < n && text[k] == '$' && DollarQuote(text, k).Some?
    ensures i < n && text[i] == '$' && DollarQuote(text, i).Some?
    ensures forall k :: 0 <= k < i && text[k] == '$' ==> DollarQuote(text, k).None?
  {
    i := 0;
    while text[i] != '$' || DollarQuote(text, i).None?
      invariant i < n
      invariant forall k :: 0 <= k < i && text[k] == '$' ==> DollarQuote(text, k).None?
      decreases n - i
    {
      i := i + 1;
    }
  }

  /** The scanner is the identity exactly on texts with no quote, no comment
      mark and no complete dollar-quoted string. */
  lemma IdentityExactlyWhen(lexicon: Lexicon, text: string)
    ensures Lex(lexicon, text) == text <==> Clean(text) && NoDollarQuote(text)
  {
    OutputIsClean(lexicon, text);
    if Clean(text) {
      if NoDollarQuote(text) {
        PlainPrefix(lexicon, text, |text|);
        assert text[..|text|] == text;
      } else {
        var i := FirstQuote(text, |text|);
        FirstQuoteShortens(lexicon, text, i);
      }
    }
  }

  /** Identifiers in double quotes are no tokens of the scanner: an apostrophe inside
      one opens a literal, which here runs to the end of the text. */
  lemma QuotedIdentifierIsNoToken(lexicon: Lexicon)
    ensures Lex(lexicon, "\"a'b\"") == "\"a "
  {
    var text := "\"a'b\"";
    assert !EscapeBefore(lexicon, text, 2);
    assert LiteralEnd(text, 5, false) == Skipped(5, []);
    assert LiteralEnd(text, 4, false) == Skipped(5, []);
    assert LiteralEnd(text, 3, false) == Skipped(5, []);
    assert NextToken(lexicon, text, 0, []) == Token(1, "\"");
    assert NextToken(lexicon, text, 1, "\"") == Token(2, "a");
    assert NextToken(lexicon, text, 2, "\"a") == Token(5, " ");
    assert LexFrom(lexicon, text, 5, "\"a ") == "\"a ";
    assert LexFrom(lexicon, text, 2, "\"a") == LexFrom(lexicon, text, 5, "\"a" + " ");
    assert LexFrom(lexicon, text, 1, "\"") == LexFrom(lexicon, text, 2, "\"" + "a");
    assert [] + "\"" == "\"";
  }

  // ------------------------------------------------------------ block comments

  /** The inside of a block comment as a grammar: it nests. */
  datatype Body = End | Plain(c: char, rest: Body) | Nested(inner: Body, rest: Body)

  datatype Parsed = Unclosed | Closed(body: Body, end: nat)

  /** A recursive-descent parser for the inside of a block comment, from just
      after its opening mark to just after its own closing mark. */
  function ParseBody(text: string, i: nat): (p: Parsed)
    requires i <= |text|
    ensures p.Closed? ==> i + 2 <= p.end <= |text|
    decreases |text| - i
  {
    if i == |text| then Unclosed
    else if MarkAt(text, '/', '*', i) then
      var inner := ParseBody(text, i + 2);
      if inner.Unclosed? then Unclosed
      else
        var rest := ParseBody(text, inner.end);
        if rest.Unclosed? then Unclosed else Closed(Nested(inner.body, rest.body), rest.end)
    else if MarkAt(text, '*', '/', i) then Closed(End, i + 2)
    else
      var rest := ParseBody(text, i + 1);
      if rest.Unclosed? then Unclosed else Closed(Plain(text[i], rest.body), rest.end)
  }

  function Render(b: Body): string {
    match b
    case End => "*/"
    case Plain(c, rest) => [c] + Render(rest)
    case Nested(inner, rest) => "/*" + Render(inner) + Render(rest)
  }

  /** No plain character forms a mark with what follows it. */
  predicate Unambiguous(b: Body) {
    match b
    case End => true
    case Plain(c, rest) =>
      && !MarkAt([c] + Render(rest), '/', '*', 0)
      && !MarkAt([c] + Render(rest), '*', '/', 0)
      && Unambiguous(rest)
    case Nested(inner, rest) => Unambiguous(inner) && Unambiguous(rest)
  }

  /** The depth counter is the recursive descent: it leaves one level where the
      parser ends that level, and runs to the end where the comment is open. */
  lemma {:induction false} DepthCounterIsDescent(text: string, i: nat, depth: nat)
    requires i <= |text| && depth > 0
    ensures var p := ParseBody(text, i);
            BlockEnd(text, i, depth) == if p.Closed? then BlockEnd(text, p.end, depth - 1) else |text|
    decreases |text| - i
  {
    if i < |text| {
      if MarkAt(text, '/', '*', i) {
        DepthCounterIsDescent(text, i + 2, depth + 1);
        var inner := ParseBody(text, i + 2);
        if inner.Closed? {
          DepthCounterIsDescent(text, inner.end, depth);
        }
      } else if !MarkAt(text, '*', '/', i) {
        DepthCounterIsDescent(text, i + 1, depth);
      }
    }
  }

  /** Two adjacent slices of a text make the slice over both. */
  lemma Glue(text: string, i: nat, j: nat, k: nat)
    requires i <= j <= k <= |text|
    ensures text[i..k] == text[i..j] + text[j..k]
  {
  }

  lemma {:induction false} ParsedIsRendered(text: string, i: nat)
    requires i <= |text| && ParseBody(text, i).Closed?
    ensures text[i..ParseBody(text, i).end] == Render(ParseBody(text, i).body)
    decreases |text| - i
  {
    var end := ParseBody(text, i).end;
    if MarkAt(text, '/', '*', i) {
      var inner := ParseBody(text, i + 2);
      ParsedIsRendered(text, i + 2);
      ParsedIsRendered(text, inner.end);
      Glue(text, i + 2, inner.end, end);
      Glue(text, i, i + 2, end);
      assert text[i..i + 2] == "/*";
    } else if MarkAt(text, '*', '/', i) {
      assert text[i..i + 2] == "*/";
    } else {
      ParsedIsRendered(text, i + 1);
      Glue(text, i, i + 1, end);
    }
  }

  lemma {:induction false} ParsedIsUnambiguous(text: string, i: nat)
    requires i <= |text| && ParseBody(text, i).Closed?
    ensures Unambiguous(ParseBody(text, i).body)
    decreases |text| - i
  {
    var end := ParseBody(text, i).end;
    if MarkAt(text, '/', '*', i) {
      var inner := ParseBody(text, i + 2);
      ParsedIsUnambiguous(text, i + 2);
      ParsedIsUnambiguous(text, inner.end);
    } else if !MarkAt(text, '*', '/', i) {
      ParsedIsUnambiguous(text, i + 1);
      ParsedIsRendered(text, i + 1);
      Glue(text, i, i + 1, end);
      assert text[i + 1..end][0] == text[i + 1];
    }
  }

  /** Two parts that stand one after the other each stand at their place. */
  lemma Split(text: string, i: nat, a: string, b: string)
    requires StartsAt(text, a + b, i)
    ensures StartsAt(text, a, i) && StartsAt(text, b, i + |a|)
  {
    var whole := text[i..i + |a + b|];
    assert text[i..i + |a|] == whole[..|a|] == a;
    assert text[i + |a|..i + |a| + |b|] == whole[|a|..] == b;
  }

  lemma Head(text: string, i: nat, part: string, k: nat)
    requires StartsAt(text, part, i) && k < |part|
    ensures text[i + k] == part[k]
  {
    assert text[i..i + |part|][k] == part[k];
  }

  lemma MarkStands(text: string, first: char, second: char, i: nat)
    requires StartsAt(text, [first, second], i)
    ensures MarkAt(text, first, second, i)
  {
    Head(text, i, [first, second], 0);
    Head(text, i, [first, second], 1);
  }

  lemma PlainStands(text: string, i: nat, c: char, rest: Body)
    requires Unambiguous(Plain(c, rest)) && StartsAt(text, [c] + Render(rest), i)
    ensures text[i] == c && !MarkAt(text, '/', '*', i) && !MarkAt(text, '*', '/', i)
    ensures StartsAt(text, Render(rest), i + 1)
  {
    Split(text, i, [c], Render(rest));
    Head(text, i, [c], 0);
    Head(text, i + 1, Render(rest), 0);
  }

  lemma NestedStands(text: string, i: nat, a: string, b: string)
    requires StartsAt(text, "/*" + (a + b), i)
    ensures MarkAt(text, '/', '*', i) && StartsAt(text, a, i + 2) && StartsAt(text, b, i + 2 + |a|)
  {
    Split(text, i, "/*", a + b);
    Split(text, i + 2, a, b);
    MarkStands(text, '/', '*', i);
  }

  lemma PlainParses(text: string, i: nat, c: char, rest: Body, end: nat)
    requires i < |text| && text[i] == c && !MarkAt(text, '/', '*', i) && !MarkAt(text, '*', '/', i)
    requires ParseBody(text, i + 1) == Closed(rest, end)
    ensures ParseBody(text, i) == Closed(Plain(c, rest), end)
  {
  }

  lemma NestedParses(text: string, i: nat, inner: Body, rest: Body, mid: nat, end: nat)
    requires MarkAt(text, '/', '*', i) && mid <= |text|
    requires ParseBody(text, i + 2) == Closed(inner, mid) && ParseBody(text, mid) == Closed(rest, end)
    ensures ParseBody(text, i) == Closed(Nested(inner, rest), end)
  {
  }

  lemma RenderNested(inner: Body, rest: Body)
    ensures Render(Nested(inner, rest)) == "/*" + (Render(inner) + Render(rest))
  {
  }

  lemma {:induction false} RenderedParses(text: string, i: nat, b: Body)
    requires Unambiguous(b) && StartsAt(text, Render(b), i)
    ensures ParseBody(text, i) == Closed(b, i + |Render(b)|)
    decreases b, 1
  {
    match b
    case End =>
      MarkStands(text, '*', '/', i);
    case Plain(c, rest) =>
      PlainStands(text, i, c, rest);
      RenderedParses(text, i + 1, rest);
      PlainParses(text, i, c, rest, i + 1 + |Render(rest)|);
    case Nested(inner, rest) =>
      RenderNested(inner, rest);
      NestedStands(text, i, Render(inner), Render(rest));
      NestedRendersParse(text, i, inner, rest, Render(inner), Render(rest));
  }

  lemma {:induction false} NestedRendersParse(text: string, i: nat, inner: Body, rest: Body, a: string, b: string)
    requires Unambiguous(inner) && Unambiguous(rest) && a == Render(inner) && b == Render(rest)
    requires MarkAt(text, '/', '*', i) && StartsAt(text, a, i + 2) && StartsAt(text, b, i + 2 + |a|)
    ensures ParseBody(text, i) == Closed(Nested(inner, rest), i + 2 + |a| + |b|)
    decreases Nested(inner, rest), 0
  {
    var mid, end := i + 2 + |a|, i + 2 + |a| + |b|;
    assert ParseBody(text, i + 2) == Closed(inner, mid) by {
      RenderedParses(text, i + 2, inner);
    }
    assert ParseBody(text, mid) == Closed(rest, end) by {
      RenderedParses(text, mid, rest);
    }
    NestedParses(text, i, inner, rest, mid, end);
  }

  /** A comment body as the grammar has it, closing mark included, runs from i to
      end. */
  ghost predicate BodyRuns(text: string, i: nat, end: nat)
    requires i <= end <= |text|
  {
    exists b :: Unambiguous(b) && text[i..end] == Render(b)
  }

  lemma BodyRunsToParsedEnd(text: string, i: nat, end: nat)
    requires i <= end <= |text|
    ensures BodyRuns(text, i, end) <==> ParseBody(text, i).Closed? && ParseBody(text, i).end == end
  {
    if ParseBody(text, i).Closed? {
      ParsedIsRendered(text, i);
      ParsedIsUnambiguous(text, i);
    }
    if BodyRuns(text, i, end) {
      var b :| Unambiguous(b) && text[i..end] == Render(b);
      RenderedParses(text, i, b);
    }
  }

  /** A block comment is skipped to exactly where its grammar ends it, and to the
      end of the text when the grammar ends it nowhere. */
  lemma BlockCommentsEndWhereTheyNest(text: string, i: nat, end: nat)
    requires i <= end <= |text|
    ensures BlockEnd(text, i, 1) == end <==>
              || BodyRuns(text, i, end)
              || (end == |text| && forall e :: i <= e <= |text| ==> !BodyRuns(text, i, e))
  {
    DepthCounterIsDescent(text, i, 1);
    forall e | i <= e <= |text|
      ensures BodyRuns(text, i, e) <==> ParseBody(text, i).Closed? && ParseBody(text, i).end == e
    {
      BodyRunsToParsedEnd(text, i, e);
    }
    var p := ParseBody(text, i);
    assert p.Closed? ==> BodyRuns(text, i, p.end);
  }
}
