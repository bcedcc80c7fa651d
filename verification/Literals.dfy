/**
  Where literals and comments end and which of them there are, said of the characters alone: by the
  number of backslashes before a quote, and by first occurrences.
 */
module Literals {
  import opened Options
  import opened Masking
  import opened Statements

  // ----- escapes -----

  /** The backslashes right before k, from i on. */
  function Backslashes(text: string, i: nat, k: nat): nat
    requires i <= k <= |text|
  {
    if k == i || text[k - 1] != '\\' then 0 else 1 + Backslashes(text, i, k - 1)
  }

  predicate Escaped(text: string, i: nat, k: nat)
    requires i <= k <= |text|
  {
    Backslashes(text, i, k) % 2 == 1
  }

  /** Right before end stands the first quote from i on that is not escaped, and no line feed before it is escaped. */
  ghost predicate ClosesAt(text: string, i: nat, quote: char, end: nat) {
    && i < end <= |text| && text[end - 1] == quote && !Escaped(text, i, end - 1)
    && (forall k :: i <= k < end - 1 && text[k] == quote ==> Escaped(text, i, k))
    && (forall k :: i <= k < end - 1 && text[k] == '\n' ==> !Escaped(text, i, k))
  }

  lemma {:induction false} PlainFirst(text: string, i: nat, k: nat)
    requires i < k <= |text| && text[i] != '\\'
    ensures Backslashes(text, i, k) == Backslashes(text, i + 1, k)
  {
    if k > i + 1 { PlainFirst(text, i, k - 1); }
  }

  lemma {:induction false} EscapeFirst(text: string, i: nat, k: nat)
    requires i + 2 <= k <= |text| && text[i] == '\\'
    ensures Escaped(text, i, k) <==> Escaped(text, i + 2, k)
  {
    if k == i + 2 {
      assert Backslashes(text, i, i) == 0 && Backslashes(text, i, i + 1) == 1;
    } else {
      EscapeFirst(text, i, k - 1);
    }
  }

  lemma PlainCloses(text: string, i: nat, quote: char, end: nat)
    requires i < |text| && text[i] != '\\' && text[i] != quote
    ensures ClosesAt(text, i, quote, end) <==> ClosesAt(text, i + 1, quote, end)
  {
    forall k | i < k <= |text| ensures Backslashes(text, i, k) == Backslashes(text, i + 1, k) { PlainFirst(text, i, k); }
  }

  lemma EscapeCloses(text: string, i: nat, quote: char, end: nat)
    requires i + 1 < |text| && text[i] == '\\' && text[i + 1] != '\n' && quote != '\\'
    ensures ClosesAt(text, i, quote, end) <==> ClosesAt(text, i + 2, quote, end)
  {
    assert Escaped(text, i, i + 1) by { assert Backslashes(text, i, i) == 0; }
    forall k | i + 2 <= k <= |text| ensures Escaped(text, i, k) <==> Escaped(text, i + 2, k) { EscapeFirst(text, i, k); }
  }

  lemma ClosesNow(text: string, i: nat, quote: char, end: nat)
    requires quote != '\\' && quote != '\n'
    requires i >= |text| || text[i] == quote || (text[i] == '\\' && (i + 1 >= |text| || text[i + 1] == '\n'))
    ensures ClosesAt(text, i, quote, end) <==> i < |text| && text[i] == quote && end == i + 1
  {
    if i < |text| { assert Backslashes(text, i, i) == 0; }
    if i + 1 < |text| && text[i] == '\\' { assert Backslashes(text, i, i + 1) == 1; }
  }

  /** A quoted string ends right after the first quote that an even number of backslashes precedes. */
  lemma {:induction false} QuotedEndIs(text: string, i: nat, quote: char, end: nat)
    requires quote != '\\' && quote != '\n'
    ensures QuotedEnd(text, i, quote) == Some(end) <==> ClosesAt(text, i, quote, end)
    decreases |text| - i
  {
    hide ClosesAt;
    if i >= |text| || text[i] == quote || (text[i] == '\\' && !(i + 1 < |text| && text[i + 1] != '\n')) {
      ClosesNow(text, i, quote, end);
    } else {
      if text[i] != '\\' {
        QuotedEndIs(text, i + 1, quote, end);
        PlainCloses(text, i, quote, end);
      } else {
        QuotedEndIs(text, i + 2, quote, end);
        EscapeCloses(text, i, quote, end);
      }
    }
  }

  // ----- comments and literals -----

  /** The word first stands at or after from right before end. */
  ghost predicate FirstEnds(text: string, from: nat, word: string, end: nat) {
    && from + |word| <= end && Reads(text, end - |word|, word)
    && forall k :: from <= k < end - |word| ==> !Reads(text, k, word)
  }

  /** The rest of the line from i on ends before its line feed at end, or with the text. */
  ghost predicate LineEndsAt(text: string, i: nat, end: nat) {
    && i <= end <= |text| && (end == |text| || text[end] == '\n')
    && forall k :: i <= k < end ==> text[k] != '\n'
  }

  /** The next characters from i on. */
  predicate Reads(text: string, i: nat, word: string) {
    i + |word| <= |text| && forall k :: 0 <= k < |word| ==> text[i + k] == word[k]
  }

  /** A string in three double quotes stands from i to end. */
  ghost predicate TripleAt(text: string, i: nat, end: nat) {
    Reads(text, i, "\"\"\"") && FirstEnds(text, i + 3, "\"\"\"", end)
  }

  /** A comment or literal stands from i to end; three double quotes win, if they are closed. */
  ghost predicate Spans(text: string, i: nat, end: nat, python: bool) {
    || TripleAt(text, i, end)
    || (i < |text| && text[i] in "`\"'" && ClosesAt(text, i + 1, text[i], end) && forall e: nat :: !TripleAt(text, i, e))
    || (Reads(text, i, "//") && LineEndsAt(text, i + 2, end))
    || (Reads(text, i, "/*") && FirstEnds(text, i + 2, "*/", end))
    || (python && Reads(text, i, "#") && LineEndsAt(text, i + 1, end))
  }

  lemma ReadsIs(text: string, i: nat, word: string)
    ensures StartsWith(text, i, word) <==> Reads(text, i, word)
  {
    if Reads(text, i, word) { assert text[i..i + |word|] == word; }
    if StartsWith(text, i, word) {
      forall k | 0 <= k < |word| ensures text[i + k] == word[k] { assert text[i..i + |word|][k] == word[k]; }
    }
  }

  lemma {:induction false} AfterWordIs(text: string, from: nat, word: string, end: nat)
    ensures AfterWord(text, from, word) == Some(end) <==> FirstEnds(text, from, word, end)
  {
    hide StartsWith, Reads;
    forall k: nat ensures StartsWith(text, k, word) <==> Reads(text, k, word) { ReadsIs(text, k, word); }
    if AfterWord(text, from, word).Some? { assert StartsWith(text, AfterWord(text, from, word).value - |word|, word); }
    if FirstEnds(text, from, word, end) { assert StartsWith(text, end - |word|, word); }
  }

  lemma {:induction false} LineEndIs(text: string, i: nat, end: nat)
    requires i <= |text|
    ensures LineEnd(text, i) == end <==> LineEndsAt(text, i, end)
  {
  }

  /** A token ends at end exactly when a comment or literal stands up to there. */
  lemma {:induction false} TokenEndIs(text: string, i: nat, python: bool, end: nat)
    requires i < |text|
    ensures TokenEnd(text, i, python) == Some(end) <==> Spans(text, i, end, python)
  {
    hide Find, QuotedEnd, LineEnd, AfterWord, StartsWith, ClosesAt, FirstEnds, LineEndsAt, Reads;
    TripleIs(text, i);
    ReadsIs(text, i, "//");
    ReadsIs(text, i, "/*");
    ReadsIs(text, i, "#");
    SecondChar(text, i, "//");
    SecondChar(text, i, "/*");
    if text[i] in "`\"'" { QuotedEndIs(text, i + 1, text[i], end); }
    if Reads(text, i, "//") { LineEndIs(text, i + 2, end); }
    LineEndIs(text, i + 1, end);
    AfterWordIs(text, i + 2, "*/", end);
    FirstChar(text, i, "//");
    FirstChar(text, i, "/*");
    FirstChar(text, i, "#");
    FirstChar(text, i, "\"\"\"");
    var triple := AfterWord(text, i + 3, "\"\"\"");
    if StartsWith(text, i, "\"\"\"") && triple.Some? { assert TripleAt(text, i, triple.value); }
  }

  lemma FirstChar(text: string, i: nat, word: string)
    requires word != ""
    ensures Reads(text, i, word) ==> i < |text| && text[i] == word[0]
    ensures |word| == 1 && i < |text| && text[i] == word[0] ==> Reads(text, i, word)
  {
    if Reads(text, i, word) { assert text[i + 0] == word[0]; }
  }

  lemma SecondChar(text: string, i: nat, word: string)
    requires |word| >= 2
    ensures Reads(text, i, word) ==> i + 2 <= |text| && text[i + 1] == word[1]
  {
  }

  lemma {:induction false} TripleIs(text: string, i: nat)
    ensures StartsWith(text, i, "\"\"\"") <==> Reads(text, i, "\"\"\"")
    ensures forall e: nat :: TripleAt(text, i, e) <==> Reads(text, i, "\"\"\"") && AfterWord(text, i + 3, "\"\"\"") == Some(e)
  {
    hide AfterWord, FirstEnds, StartsWith, Reads;
    ReadsIs(text, i, "\"\"\"");
    forall e: nat ensures TripleAt(text, i, e) <==> Reads(text, i, "\"\"\"") && AfterWord(text, i + 3, "\"\"\"") == Some(e) {
      AfterWordIs(text, i + 3, "\"\"\"", e);
    }
  }

  // ----- which tokens there are -----

  lemma SkipStart(text: string, python: bool, tokens: seq<Token>, from: nat)
    requires from < |text| && Ordered(tokens, from, |text|) && AreAllTokens(text, python, tokens, from)
    requires TokenEnd(text, from, python).None?
    ensures Ordered(tokens, from + 1, |text|) && AreAllTokens(text, python, tokens, from + 1)
  {
    hide TokenEnd;
    forall i | 0 <= i < |tokens| ensures from + 1 <= tokens[i].start { assert IsToken(text, python, tokens[i]); }
  }

  lemma FirstToken(text: string, python: bool, tokens: seq<Token>, from: nat)
    requires from < |text| && Ordered(tokens, from, |text|) && AreAllTokens(text, python, tokens, from)
    requires TokenEnd(text, from, python).Some?
    ensures tokens != [] && tokens[0] == Token(from, TokenEnd(text, from, python).value)
  {
    hide TokenEnd;
    assert Covered(tokens, from);
    var i :| 0 <= i < |tokens| && tokens[i].start <= from < tokens[i].end;
    assert i == 0;
    assert IsToken(text, python, tokens[0]);
  }

  lemma SkipToken(text: string, python: bool, tokens: seq<Token>, from: nat)
    requires tokens != [] && Ordered(tokens, from, |text|) && AreAllTokens(text, python, tokens, from)
    ensures Ordered(tokens[1..], tokens[0].end, |text|) && AreAllTokens(text, python, tokens[1..], tokens[0].end)
  {
    hide TokenEnd, Covered, IsToken;
    var rest := tokens[1..];
    forall i | 0 <= i < |rest| ensures IsToken(text, python, rest[i]) && rest[i] == tokens[i + 1] { }
    assert tokens == [tokens[0]] + rest;
    CoveredMore(tokens[0], rest);
  }

  lemma TokensTakeRoom(tokens: seq<Token>, from: nat, size: nat)
    requires tokens != [] && Ordered(tokens, from, size)
    ensures from < size
  {
    assert tokens[0].start < tokens[0].end;
  }

  lemma {:induction false} TokensAreUnique(text: string, python: bool, tokens: seq<Token>, from: nat)
    requires from <= |text| && Ordered(tokens, from, |text|) && AreAllTokens(text, python, tokens, from)
    ensures tokens == Tokens(text, from, python)
    decreases |text| - from
  {
    hide TokenEnd, AreAllTokens, Ordered;
    if from == |text| {
      if tokens != [] { TokensTakeRoom(tokens, from, |text|); }
    } else if TokenEnd(text, from, python).None? {
      SkipStart(text, python, tokens, from);
      TokensAreUnique(text, python, tokens, from + 1);
    } else {
      FirstToken(text, python, tokens, from);
      SkipToken(text, python, tokens, from);
      TokensAreUnique(text, python, tokens[1..], tokens[0].end);
    }
  }

  /** The comments and literals from left to right: each begins at the first place after the one before where any begins. */
  ghost predicate AreLeftmost(text: string, python: bool, tokens: seq<Token>) {
    && Ordered(tokens, 0, |text|)
    && (forall i :: 0 <= i < |tokens| ==> Spans(text, tokens[i].start, tokens[i].end, python))
    && forall k: nat, end: nat :: k < |text| && !Covered(tokens, k) ==> !Spans(text, k, end, python)
  }

  /** The matches are exactly the leftmost comments and literals. */
  lemma {:induction false} TokensExactly(text: string, python: bool, tokens: seq<Token>)
    ensures tokens == Tokens(text, 0, python) <==> AreLeftmost(text, python, tokens)
  {
    hide TokenEnd, Spans, Covered, Tokens;
    forall i: nat, end: nat | i < |text| ensures TokenEnd(text, i, python) == Some(end) <==> Spans(text, i, end, python) {
      TokenEndIs(text, i, python, end);
    }
    if AreLeftmost(text, python, tokens) {
      LeftmostAreAll(text, python, tokens);
      TokensAreUnique(text, python, tokens, 0);
    }
    if tokens == Tokens(text, 0, python) { TokensAreAll(text, 0, python); }
  }

  lemma LeftmostAreAll(text: string, python: bool, tokens: seq<Token>)
    requires AreLeftmost(text, python, tokens)
    requires forall i: nat, end: nat :: i < |text| ==> (TokenEnd(text, i, python) == Some(end) <==> Spans(text, i, end, python))
    ensures AreAllTokens(text, python, tokens, 0)
  {
    hide TokenEnd, Spans, Covered;
    forall k: nat | k < |text| && !Covered(tokens, k) ensures TokenEnd(text, k, python).None? {
      assert forall end: nat :: TokenEnd(text, k, python) == Some(end) ==> Spans(text, k, end, python);
    }
  }

  // ----- which literals are kept -----

  /** A string in single or double quotes, not in three double ones. */
  predicate Plain(text: string, t: Token)
    requires t.start < t.end <= |text|
  {
    (text[t.start] == '\'' || text[t.start] == '"') && !(t.start + 3 <= t.end && Reads(text, t.start, "\"\"\""))
  }

  /** The characters of t are those of the text, or blanks in the same lines. */
  ghost predicate KeptIf(keep: bool, text: string, out: string, t: Token) {
    && t.start < t.end <= |text| == |out|
    && forall k :: t.start <= k < t.end ==> out[k] == if keep || text[k] == '\n' || text[k] == '\r' then text[k] else ' '
  }

  /** At most 160 characters before position n. */
  function Window(out: string, n: nat): string
    requires n <= |out|
  {
    if n <= 160 then out[..n] else out[n - 160..n]
  }

  /**
    A plain literal after a selecting call is kept; comments, templates, triple-quoted strings and all
    other literals become blanks of the same shape.
   */
  lemma {:induction false} KeptOrBlank(text: string, python: bool, selector: string -> bool, i: nat)
    requires i < |Tokens(text, 0, python)|
    ensures var out, t := Stripped(text, python, selector), Tokens(text, 0, python)[i];
      && |out| == |text|
      && KeptIf(Plain(text, t) && selector(Window(out, t.start)), text, out, t)
  {
    var out, t := Stripped(text, python, selector), Tokens(text, 0, python)[i];
    hide Stripped, Tokens, Last, Window, Keepable, Plain, KeptIf, Blanked;
    TokensAreMasked(text, python, selector, i);
    PlainIsKeepable(text, t);
    LastBefore(out, t.start);
    ByPosition(text, out, t, Plain(text, t) && selector(Window(out, t.start)));
  }

  lemma LastBefore(out: string, n: nat)
    requires n <= |out|
    ensures Last(out[..n], WINDOW) == Window(out, n)
  {
  }

  lemma ByPosition(text: string, out: string, t: Token, keep: bool)
    requires t.start < t.end <= |text| == |out|
    requires out[t.start..t.end] == if keep then text[t.start..t.end] else Blanked(text[t.start..t.end])
    ensures KeptIf(keep, text, out, t)
  {
    forall k | t.start <= k < t.end ensures out[k] == out[t.start..t.end][k - t.start] && text[k] == text[t.start..t.end][k - t.start] { }
  }

  lemma PlainIsKeepable(text: string, t: Token)
    requires t.start < t.end <= |text|
    ensures Keepable(text[t.start..t.end]) <==> Plain(text, t)
  {
    var literal := text[t.start..t.end];
    assert literal[0] == text[t.start];
    ReadsIs(literal, 0, "\"\"\"");
    hide StartsWith;
    if t.start + 3 <= t.end {
      assert literal[..3] == text[t.start..t.start + 3];
      SamePrefix(literal, text, t.start);
    }
  }

  lemma SamePrefix(literal: string, text: string, start: nat)
    requires start + 3 <= |text| && |literal| >= 3 && literal[..3] == text[start..start + 3]
    ensures Reads(literal, 0, "\"\"\"") <==> Reads(text, start, "\"\"\"")
  {
    assert literal[..3][0] == text[start] && literal[..3][1] == text[start + 1] && literal[..3][2] == text[start + 2];
  }

  // ----- semicolons -----

  /** A string from i to end, if one opens at i. */
  ghost predicate StringAt(line: string, i: nat, end: nat) {
    i < |line| && (line[i] == '\'' || line[i] == '"') && ClosesAt(line, i + 1, line[i], end)
  }

  /** A string opens at i: it closes somewhere, and no string that opened before is still open. */
  ghost predicate OpensAt(line: string, i: nat) {
    && (exists end: nat :: StringAt(line, i, end))
    && forall j: nat, end: nat :: j < i && OpensAt(line, j) && StringAt(line, j, end) ==> end <= i
  }

  lemma {:induction false} StringIsMatch(line: string, i: nat, end: nat)
    requires i < |line|
    ensures StringAt(line, i, end) <==> line[i] != ';' && MatchEnd(line, i) == Some(end)
  {
    hide ClosesAt, QuotedEnd;
    if line[i] in "\"'" { QuotedEndIs(line, i + 1, line[i], end); }
  }

  /** Match x is a string that starts at i. */
  ghost predicate MatchedAt(line: string, m: seq<Token>, x: nat, i: nat)
    requires Ordered(m, 0, |line|)
  {
    x < |m| && m[x].start == i && line[i] != ';'
  }

  lemma {:induction false} MatchOpens(line: string, m: seq<Token>, x: nat, i: nat)
    requires GoodMatches(line, m) && AreAllMatches(line, m, 0) && MatchedAt(line, m, x, i)
    ensures OpensAt(line, i)
    decreases i, 1
  {
    hide StringAt, AreAllMatches, MatchEnd;
    assert StringAt(line, i, m[x].end) by { StringIsMatch(line, i, m[x].end); }
    forall j: nat, end: nat | j < i && OpensAt(line, j) && StringAt(line, j, end) ensures end <= i {
      OpeningIsMatched(line, m, j);
      var y: nat :| MatchedAt(line, m, y, j);
      MatchesApart(line, m, y, x, end);
    }
  }

  lemma MatchesApart(line: string, m: seq<Token>, y: nat, x: nat, end: nat)
    requires GoodMatches(line, m) && x < |m| && y < |m| && m[y].start < m[x].start && line[m[y].start] != ';'
    requires StringAt(line, m[y].start, end)
    ensures end <= m[x].start
  {
    hide StringAt, MatchEnd;
    StringIsMatch(line, m[y].start, end);
    assert y < x;
  }

  lemma {:induction false} OpeningIsMatched(line: string, m: seq<Token>, i: nat)
    requires GoodMatches(line, m) && AreAllMatches(line, m, 0) && OpensAt(line, i)
    ensures exists x: nat :: MatchedAt(line, m, x, i)
    decreases i, 0
  {
    hide MatchEnd;
    var end: nat :| StringAt(line, i, end);
    StringIsMatch(line, i, end);
    assert Covered(m, i);
    var x: nat :| x < |m| && m[x].start <= i < m[x].end;
    assert MatchEnd(line, m[x].start) == Some(m[x].end);
    if line[m[x].start] == ';' { SemicolonIsShort(line, m[x].start); }
    if m[x].start < i {
      MatchOpens(line, m, x, m[x].start);
      StringIsMatch(line, m[x].start, m[x].end);
      assert false;
    }
    assert MatchedAt(line, m, x, i);
  }

  /** A string that opens before k closes after it. */
  ghost predicate InString(line: string, k: nat) {
    exists i: nat, end: nat :: OpensAt(line, i) && StringAt(line, i, end) && i < k < end
  }

  /** A semicolon stays inside a piece exactly when it is inside a string; every other one separates two pieces. */
  lemma {:induction false} SemicolonsSplitOutsideStrings(line: string, k: nat)
    requires k < |line| && line[k] == ';'
    ensures InPiece(Pieces(line), k) <==> InString(line, k)
  {
    hide InPiece, Pieces, Matches, OpensAt, StringAt, MatchEnd;
    var m := Matches(line, 0);
    MatchesAreGood(line);
    MatchesAreAll(line, 0);
    SemicolonsSplitUnlessQuoted(line, k);
    hide GoodMatches, AreAllMatches, Quoted, InString;
    if Quoted(line, m, k) { QuotedIsInString(line, m, k); }
    if InString(line, k) { InStringIsQuoted(line, m, k); }
  }

  lemma {:induction false} QuotedIsInString(line: string, m: seq<Token>, k: nat)
    requires GoodMatches(line, m) && AreAllMatches(line, m, 0) && k < |line| && line[k] == ';' && Quoted(line, m, k)
    ensures InString(line, k)
  {
    hide OpensAt, StringAt, MatchEnd, AreAllMatches;
    var x: nat :| x < |m| && line[m[x].start] != ';' && m[x].start <= k < m[x].end;
    MatchOpens(line, m, x, m[x].start);
    StringIsMatch(line, m[x].start, m[x].end);
  }

  lemma {:induction false} InStringIsQuoted(line: string, m: seq<Token>, k: nat)
    requires GoodMatches(line, m) && AreAllMatches(line, m, 0) && InString(line, k)
    ensures Quoted(line, m, k)
  {
    hide OpensAt, StringAt, MatchEnd, AreAllMatches;
    var i: nat, end: nat :| OpensAt(line, i) && StringAt(line, i, end) && i < k < end;
    OpeningIsMatched(line, m, i);
    var x: nat :| MatchedAt(line, m, x, i);
    StringIsMatch(line, i, end);
    assert MatchEnd(line, m[x].start) == Some(m[x].end);
  }

  // ----- lines -----

  /** Line feed, carriage return and the rarer separators, by their code points. */
  predicate Breaks(c: char) { c as int in {10, 11, 12, 13, 28, 29, 30, 133, 8232, 8233} }

  /** The separator at k, of one character or, for a carriage return before a line feed, two, ends at next. */
  predicate SeparatorAt(text: string, k: nat, next: nat) {
    k < |text| && Breaks(text[k]) && next == if text[k] as int == 13 && k + 1 < |text| && text[k + 1] as int == 10 then k + 2 else k + 1
  }

  /** Lines hold no separator; one separator stands between a line and the next, and the last line ends the text, or one more does. */
  ghost predicate AreLines(text: string, from: nat, lines: seq<Token>) {
    && (lines == [] <==> from == |text|) && (lines != [] ==> lines[0].start == from)
    && (forall i :: 0 <= i < |lines| ==> IsLine(text, lines[i]))
    && (forall i :: 0 <= i < |lines| - 1 ==> SeparatorAt(text, lines[i].end, lines[i + 1].start))
    && (lines != [] ==> lines[|lines| - 1].end == |text| || SeparatorAt(text, lines[|lines| - 1].end, |text|))
  }

  ghost predicate IsLine(text: string, line: Token) {
    line.start <= line.end <= |text| && forall k :: line.start <= k < line.end ==> !Breaks(text[k])
  }

  lemma {:induction false} LinesAre(text: string, from: nat)
    requires from <= |text|
    ensures AreLines(text, from, Lines(text, from))
    decreases |text| - from
  {
    hide AreLines, IsLine, SeparatorAt;
    if from == |text| {
      NoLine(text);
    } else {
      var at := NextBreak(text, from);
      FirstLine(text, from, at);
      if at == |text| {
        LastLine(text, from);
        assert Lines(text, from) == [Token(from, |text|)];
      } else {
        hide NextBreak, AfterBreak;
        var next := AfterBreak(text, at);
        LinesAre(text, next);
        MoreLines(text, from, at, next, Lines(text, next));
      }
    }
  }

  lemma NoLine(text: string)
    ensures AreLines(text, |text|, [])
  {
  }

  lemma {:induction false} FirstLine(text: string, from: nat, at: nat)
    requires from <= |text| && at == NextBreak(text, from)
    ensures IsLine(text, Token(from, at)) && (at < |text| ==> SeparatorAt(text, at, AfterBreak(text, at)))
  {
  }

  lemma LastLine(text: string, from: nat)
    requires from < |text| && IsLine(text, Token(from, |text|))
    ensures AreLines(text, from, [Token(from, |text|)])
  {
  }

  lemma MoreLines(text: string, from: nat, at: nat, next: nat, rest: seq<Token>)
    requires from < |text| && IsLine(text, Token(from, at)) && SeparatorAt(text, at, next) && AreLines(text, next, rest)
    ensures AreLines(text, from, [Token(from, at)] + rest)
  {
    hide IsLine, SeparatorAt;
    var lines := [Token(from, at)] + rest;
    forall i | 0 <= i < |lines| - 1 ensures SeparatorAt(text, lines[i].end, lines[i + 1].start) {
      assert i > 0 ==> SeparatorAt(text, rest[i - 1].end, rest[i - 1 + 1].start);
    }
  }

  /** Every position of a line, its separator included, has the line's number. */
  lemma {:induction false} LineOfPosition(text: string, from: nat, i: nat, k: nat)
    requires from <= |text| && i < |Lines(text, from)|
    requires Lines(text, from)[i].start <= k < (if i + 1 < |Lines(text, from)| then Lines(text, from)[i + 1].start else |text|)
    ensures LineEnds(text, k) == LineEnds(text, from) + i
    decreases |text| - from
  {
    var at := NextBreak(text, from);
    if i == 0 {
      NoLineEnds(text, from, k);
    } else {
      var next := AfterBreak(text, at);
      NoLineEnds(text, from, at);
      assert LineEnds(text, next) == LineEnds(text, from) + 1;
      LineOfPosition(text, next, i - 1, k);
    }
  }
}
