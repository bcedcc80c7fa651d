/**
  Lines and statements of source text: where lines end, what masking does to line numbers, and how
  a line is cut at its unquoted semicolons.
 */
module Statements {
  import opened Options
  import opened Masking

  // ----- lines -----

  /** The separators besides carriage return and line feed. */
  predicate IsRareBreak(c: char) {
    c in "\U{000B}\U{000C}\U{001C}\U{001D}\U{001E}\U{0085}\U{2028}\U{2029}"
  }

  predicate IsBreak(c: char) { IsLineFeed(c) || IsRareBreak(c) }

  /** A carriage return right before a line feed does not end the line; the line feed does. */
  predicate EndsLine(text: string, k: nat)
    requires k < |text|
  {
    IsBreak(text[k]) && !(text[k] == '\r' && k + 1 < |text| && text[k + 1] == '\n')
  }

  /** The line ends before position k; the line number of k is one more. */
  function LineEnds(text: string, k: nat): nat
    requires k <= |text|
  {
    if k == 0 then 0 else LineEnds(text, k - 1) + if EndsLine(text, k - 1) then 1 else 0
  }

  function NextBreak(text: string, from: nat): (at: nat)
    requires from <= |text|
    ensures from <= at <= |text| && (at < |text| ==> IsBreak(text[at])) && forall k :: from <= k < at ==> !IsBreak(text[k])
    decreases |text| - from
  {
    if from == |text| || IsBreak(text[from]) then from else NextBreak(text, from + 1)
  }

  function AfterBreak(text: string, at: nat): (next: nat)
    requires at < |text|
    ensures at < next <= |text|
  {
    if text[at] == '\r' && at + 1 < |text| && text[at + 1] == '\n' then at + 2 else at + 1
  }

  /** The lines of the text, without their separators. */
  function Lines(text: string, from: nat): (lines: seq<Token>)
    requires from <= |text|
    ensures forall i :: 0 <= i < |lines| ==> from <= lines[i].start <= lines[i].end <= |text|
    decreases |text| - from
  {
    if from == |text| then []
    else
      var at := NextBreak(text, from);
      [Token(from, at)] + if at == |text| then [] else Lines(text, AfterBreak(text, at))
  }

  lemma {:induction false} NoLineEnds(text: string, from: nat, to: nat)
    requires from <= to <= |text| && forall k :: from <= k < to ==> !EndsLine(text, k)
    ensures LineEnds(text, to) == LineEnds(text, from)
  {
    if from < to { NoLineEnds(text, from, to - 1); }
  }

  /** The position of a line in the list is its line number. */
  lemma {:induction false} LinesAreNumbered(text: string, from: nat, i: nat)
    requires from <= |text| && i < |Lines(text, from)|
    ensures LineEnds(text, Lines(text, from)[i].start) == LineEnds(text, from) + i
    decreases |text| - from
  {
    var at := NextBreak(text, from);
    if i > 0 {
      var next := AfterBreak(text, at);
      NoLineEnds(text, from, at);
      assert LineEnds(text, next) == LineEnds(text, from) + 1;
      LinesAreNumbered(text, next, i - 1);
    }
  }

  /** Carriage returns and line feeds are those of the text; other characters may be blank. */
  ghost predicate KeepsFeeds(text: string, out: string) {
    && |out| == |text| && (forall k :: 0 <= k < |text| ==> out[k] == text[k] || out[k] == ' ')
    && forall k :: 0 <= k < |text| ==> (IsLineFeed(text[k]) ==> out[k] == text[k]) && (!IsLineFeed(text[k]) ==> !IsLineFeed(out[k]))
  }

  /** The rare separator at k was blanked. */
  predicate LosesBreak(text: string, out: string, k: nat)
    requires k < |text| == |out|
  {
    IsRareBreak(text[k]) && out[k] != text[k]
  }

  lemma EndsLineUnlessLost(text: string, out: string, k: nat)
    requires KeepsFeeds(text, out) && k < |text|
    ensures EndsLine(out, k) <==> EndsLine(text, k) && !LosesBreak(text, out, k)
    ensures LosesBreak(text, out, k) ==> EndsLine(text, k)
  {
    assert !IsRareBreak(' ');
  }

  lemma {:induction false} FewerLineEnds(text: string, out: string, k: nat)
    requires KeepsFeeds(text, out) && k <= |text|
    ensures LineEnds(out, k) <= LineEnds(text, k)
    ensures LineEnds(out, k) == LineEnds(text, k) <==> forall j: nat :: j < k ==> !LosesBreak(text, out, j)
  {
    hide EndsLine, LosesBreak, KeepsFeeds;
    if k > 0 {
      assert |out| == |text| by { SameLength(text, out); }
      FewerLineEnds(text, out, k - 1);
      EndsLineUnlessLost(text, out, k - 1);
    }
  }

  lemma SameLength(text: string, out: string)
    requires KeepsFeeds(text, out)
    ensures |out| == |text|
  {
  }

  ghost predicate KeepsLineNumbers(text: string, out: string) {
    |out| == |text| && forall k: nat :: k <= |text| ==> LineEnds(out, k) == LineEnds(text, k)
  }

  lemma {:induction false} KeptUnlessLost(text: string, out: string)
    requires KeepsFeeds(text, out)
    ensures |out| == |text|
    ensures KeepsLineNumbers(text, out) <==> forall k: nat :: k < |text| ==> !LosesBreak(text, out, k)
  {
    hide LosesBreak, LineEnds;
    if KeepsLineNumbers(text, out) {
      FewerLineEnds(text, out, |text|);
    } else {
      var k: nat :| k <= |text| && LineEnds(out, k) != LineEnds(text, k);
      FewerLineEnds(text, out, k);
    }
  }

  lemma StrippedKeepsFeeds(text: string, python: bool, selector: string -> bool)
    ensures KeepsFeeds(text, Stripped(text, python, selector))
  {
    hide Stripped, Tokens;
    MaskingKeepsPositions(text, python, selector);
  }

  /** Token i is a plain literal that the last 160 characters of output before it select. */
  predicate Selected(text: string, python: bool, selector: string -> bool, i: nat)
    requires i < |Tokens(text, 0, python)|
  {
    var t := Tokens(text, 0, python)[i];
    selector(Last(Before(text, python, selector, t.start), WINDOW)) && Keepable(text[t.start..t.end])
  }

  function Before(text: string, python: bool, selector: string -> bool, n: nat): string
    requires n <= |text|
  {
    MaskingKeepsPositions(text, python, selector);
    Stripped(text, python, selector)[..n]
  }

  lemma {:induction false} LostInToken(text: string, python: bool, selector: string -> bool, i: nat, k: nat)
    requires i < |Tokens(text, 0, python)|
    requires var t := Tokens(text, 0, python)[i]; t.start <= k < t.end && IsRareBreak(text[k])
    ensures |Stripped(text, python, selector)| == |text|
    ensures LosesBreak(text, Stripped(text, python, selector), k) <==> !Selected(text, python, selector, i)
  {
    var t, out := Tokens(text, 0, python)[i], Stripped(text, python, selector);
    assert LosesBreak(text, out, k) <==> out[k] != text[k] by { MaskingKeepsPositions(text, python, selector); }
    hide *;
    MaskingKeepsPositions(text, python, selector);
    TokensAreMasked(text, python, selector, i);
    var keep := selector(Last(out[..t.start], WINDOW)) && Keepable(text[t.start..t.end]);
    assert Selected(text, python, selector, i) <==> keep by { SelectedIs(text, python, selector, i); }
    RareIsNoFeed(text[k]);
    BlankedUnlessKept(text, out, t.start, t.end, keep, k);
  }

  lemma {:induction false} SelectedIs(text: string, python: bool, selector: string -> bool, i: nat)
    requires i < |Tokens(text, 0, python)| && |Stripped(text, python, selector)| == |text|
    ensures var out, t := Stripped(text, python, selector), Tokens(text, 0, python)[i];
      Selected(text, python, selector, i) <==> selector(Last(out[..t.start], WINDOW)) && Keepable(text[t.start..t.end])
  {
  }

  lemma BlankedUnlessKept(text: string, out: string, start: nat, end: nat, keep: bool, k: nat)
    requires start <= k < end <= |text| == |out| && !IsLineFeed(text[k]) && text[k] != ' '
    requires out[start..end] == if keep then text[start..end] else Blanked(text[start..end])
    ensures out[k] != text[k] <==> !keep
  {
    assert out[k] == out[start..end][k - start];
  }

  lemma RareIsNoFeed(c: char)
    requires IsRareBreak(c)
    ensures !IsLineFeed(c) && c != ' '
  {
  }

  /** The rare separator at k is inside token i. */
  ghost predicate RareAt(text: string, tokens: seq<Token>, i: nat, k: nat) {
    i < |tokens| && tokens[i].start <= k < tokens[i].end && k < |text| && IsRareBreak(text[k])
  }

  /**
    Masking keeps the line number of every position exactly when every token that holds a vertical
    tab, form feed or other rare separator is a selected plain literal.
   */
  lemma {:induction false} LineNumbersKeptBy(text: string, python: bool, selector: string -> bool)
    ensures KeepsLineNumbers(text, Stripped(text, python, selector)) <==>
      forall i: nat, k: nat :: RareAt(text, Tokens(text, 0, python), i, k) ==> Selected(text, python, selector, i)
  {
    var out, tokens := Stripped(text, python, selector), Tokens(text, 0, python);
    hide Stripped, Tokens, LosesBreak, Selected, KeepsLineNumbers;
    StrippedKeepsFeeds(text, python, selector);
    KeptUnlessLost(text, out);
    forall i: nat, k: nat | RareAt(text, tokens, i, k)
      ensures LosesBreak(text, out, k) <==> !Selected(text, python, selector, i)
    {
      LostInToken(text, python, selector, i, k);
    }
    forall k: nat | k < |text| && LosesBreak(text, out, k) ensures exists i: nat :: RareAt(text, tokens, i, k) {
      LostInSome(text, python, selector, k);
    }
  }

  /** A lost separator is inside a token. */
  lemma {:induction false} LostInSome(text: string, python: bool, selector: string -> bool, k: nat)
    requires |Stripped(text, python, selector)| == |text| && k < |text| && LosesBreak(text, Stripped(text, python, selector), k)
    ensures exists i: nat :: RareAt(text, Tokens(text, 0, python), i, k)
  {
    hide Stripped, Tokens, IsRareBreak;
    MaskingKeepsPositions(text, python, selector);
    var tokens := Tokens(text, 0, python);
    var i :| 0 <= i < |tokens| && tokens[i].start <= k < tokens[i].end;
    assert RareAt(text, tokens, i, k);
  }

  /** No comment or literal holds a rare separator. */
  ghost predicate RareFree(text: string, tokens: seq<Token>) {
    forall k: nat :: k < |text| && IsRareBreak(text[k]) ==> !Covered(tokens, k)
  }

  lemma RareFreeTokens(text: string, tokens: seq<Token>)
    ensures RareFree(text, tokens) <==> forall i: nat, k: nat :: !RareAt(text, tokens, i, k)
  {
    hide IsRareBreak;
    forall k: nat | k < |text| && IsRareBreak(text[k]) && Covered(tokens, k) ensures exists i: nat :: RareAt(text, tokens, i, k) {
      var i :| 0 <= i < |tokens| && tokens[i].start <= k < tokens[i].end;
      assert RareAt(text, tokens, i, k);
    }
  }

  /**
    Line numbers survive, whatever calls select literals, exactly when no rare separator is inside a
    comment or literal.
   */
  lemma {:induction false} LineNumbersKept(text: string, python: bool)
    ensures (forall selector: string -> bool :: KeepsLineNumbers(text, Stripped(text, python, selector))) <==>
      RareFree(text, Tokens(text, 0, python))
  {
    var tokens := Tokens(text, 0, python);
    hide *;
    RareFreeTokens(text, tokens);
    if RareFree(text, tokens) {
      forall selector: string -> bool ensures KeepsLineNumbers(text, Stripped(text, python, selector)) {
        LineNumbersKeptBy(text, python, selector);
      }
    } else {
      SomeLineLost(text, python);
    }
  }

  /** When nothing is selected, a separator inside a token is lost. */
  lemma {:induction false} SomeLineLost(text: string, python: bool)
    requires !RareFree(text, Tokens(text, 0, python))
    ensures !KeepsLineNumbers(text, Stripped(text, python, _ => false))
  {
    var none, tokens := (_: string) => false, Tokens(text, 0, python);
    hide Stripped, Tokens, KeepsLineNumbers, RareAt, RareFree;
    LineNumbersKeptBy(text, python, none);
    RareFreeTokens(text, tokens);
    var i: nat, k: nat :| RareAt(text, tokens, i, k);
    assert i < |tokens| by { RareAtIsInside(text, tokens, i, k); }
    assert !Selected(text, python, none, i);
  }

  lemma RareAtIsInside(text: string, tokens: seq<Token>, i: nat, k: nat)
    requires RareAt(text, tokens, i, k)
    ensures i < |tokens|
  {
  }

  const FORM_FEED := "/*\U{000C}*/"

  lemma FormFeedToken()
    ensures Tokens(FORM_FEED, 0, false) == [Token(0, 5)]
  {
    assert TokenEnd(FORM_FEED, 0, false) == Some(5) by {
      assert FORM_FEED[0..2] == "/*" && FORM_FEED[3..5] == "*/" && FORM_FEED[2..4] == "\U{000C}*";
      assert Find(FORM_FEED, 2, "*/") == Some(3);
    }
    hide TokenEnd;
    assert Tokens(FORM_FEED, 5, false) == [];
  }

  lemma FormFeedEndsLine()
    ensures LineEnds(FORM_FEED, 5) == 1 && LineEnds("     ", 5) == 0
  {
    assert LineEnds(FORM_FEED, 2) == 0 && LineEnds(FORM_FEED, 3) == 1;
    NoLineEnds("     ", 0, 5);
  }

  /** A form feed inside a block comment is enough to lose a line. */
  lemma FormFeedInComment()
    ensures Stripped(FORM_FEED, false, _ => false) == "     "
    ensures LineEnds(FORM_FEED, 5) == 1 && LineEnds("     ", 5) == 0
  {
    FormFeedEndsLine();
    hide TokenEnd, Tokens, LineEnds;
    FormFeedToken();
    var tokens := [Token(0, 5)];
    assert Output(FORM_FEED, tokens, 0, _ => false) == "";
    assert FORM_FEED[0..5] == FORM_FEED && Blanked(FORM_FEED) == "     ";
  }

  // ----- statements -----

  /** A quoted literal or a semicolon that starts at i. */
  function MatchEnd(line: string, i: nat): (end: Option<nat>)
    requires i < |line|
    ensures end.Some? ==> i < end.value <= |line|
  {
    if line[i] in "\"'" then QuotedEnd(line, i + 1, line[i])
    else if line[i] == ';' then Some(i + 1)
    else None
  }

  function Matches(line: string, from: nat): (matches: seq<Token>)
    requires from <= |line|
    ensures Ordered(matches, from, |line|)
    decreases |line| - from
  {
    if from == |line| then []
    else
      var end := MatchEnd(line, from);
      if end.None? then
        var rest := Matches(line, from + 1);
        LaterStart(rest, from, from + 1, |line|);
        rest
      else
        var rest := Matches(line, end.value);
        PrependOrdered(Token(from, end.value), rest, |line|);
        [Token(from, end.value)] + rest
  }

  ghost predicate AreAllMatches(line: string, matches: seq<Token>, from: nat) {
    && (forall i :: 0 <= i < |matches| ==> IsMatch(line, matches[i]))
    && forall k: nat :: from <= k < |line| && !Covered(matches, k) ==> MatchEnd(line, k).None?
  }

  predicate IsMatch(line: string, t: Token) {
    t.start < |line| && MatchEnd(line, t.start) == Some(t.end)
  }

  lemma PrependMatch(line: string, t: Token, rest: seq<Token>)
    requires IsMatch(line, t) && AreAllMatches(line, rest, t.end)
    ensures AreAllMatches(line, [t] + rest, t.start)
  {
    hide IsMatch, MatchEnd;
    CoveredMore(t, rest);
    forall i | 0 <= i < |[t] + rest| ensures IsMatch(line, ([t] + rest)[i]) {
      assert i > 0 ==> ([t] + rest)[i] == rest[i - 1];
    }
  }

  lemma {:induction false} MatchesAreAll(line: string, from: nat)
    requires from <= |line|
    ensures AreAllMatches(line, Matches(line, from), from)
    decreases |line| - from
  {
    hide MatchEnd;
    if from < |line| {
      var end := MatchEnd(line, from);
      MatchesAreAll(line, if end.None? then from + 1 else end.value);
      if end.Some? { PrependMatch(line, Token(from, end.value), Matches(line, end.value)); }
    }
  }

  datatype Piece = Piece(start: nat, text: string)

  ghost predicate GoodMatches(line: string, m: seq<Token>) {
    Ordered(m, 0, |line|) && forall i :: 0 <= i < |m| ==> MatchEnd(line, m[i].start) == Some(m[i].end)
  }

  /** Where the piece after the first n matches starts. */
  function StartAfter(line: string, m: seq<Token>, n: nat): (start: nat)
    requires n <= |m| && Ordered(m, 0, |line|)
    ensures start <= EndOf(m, n)
  {
    if n == 0 then 0 else if line[m[n - 1].start] == ';' then m[n - 1].end else StartAfter(line, m, n - 1)
  }

  /** The pieces closed by a semicolon among the first n matches. */
  function Closed(line: string, m: seq<Token>, n: nat): seq<Piece>
    requires n <= |m| && Ordered(m, 0, |line|)
  {
    if n == 0 then []
    else
      var start := StartAfter(line, m, n - 1);
      Closed(line, m, n - 1)
      + if line[m[n - 1].start] == ';' then [Piece(start, line[start..m[n - 1].start])] else []
  }

  function Pieces(line: string): seq<Piece> {
    var m := Matches(line, 0);
    var start := StartAfter(line, m, |m|);
    Closed(line, m, |m|) + [Piece(start, line[start..])]
  }

  function Terminated(pieces: seq<Piece>): string {
    if pieces == [] then "" else Terminated(pieces[..|pieces| - 1]) + pieces[|pieces| - 1].text + ";"
  }

  function Joined(pieces: seq<Piece>): string {
    if pieces == [] then "" else Terminated(pieces[..|pieces| - 1]) + pieces[|pieces| - 1].text
  }

  lemma {:induction false} TerminatedMore(pieces: seq<Piece>, own: Piece)
    ensures Terminated(pieces + [own]) == Terminated(pieces) + own.text + ";"
  {
    assert (pieces + [own])[..|pieces|] == pieces;
  }

  lemma CutAt(line: string, start: nat, at: nat)
    requires start <= at < |line| && line[at] == ';'
    ensures line[..at + 1] == line[..start] + line[start..at] + ";"
  {
  }

  lemma {:induction false} MatchesAreGood(line: string)
    ensures GoodMatches(line, Matches(line, 0))
  {
    MatchesAreAll(line, 0);
  }

  lemma {:induction false} ClosedIsPrefix(line: string, m: seq<Token>, n: nat)
    requires n <= |m| && GoodMatches(line, m)
    ensures Terminated(Closed(line, m, n)) == line[..StartAfter(line, m, n)]
  {
    hide Terminated, MatchEnd;
    if n == 0 {
      NothingTerminated();
    } else {
      ClosedIsPrefix(line, m, n - 1);
      var start, t := StartAfter(line, m, n - 1), m[n - 1];
      var before := Closed(line, m, n - 1);
      if line[t.start] == ';' {
        TerminatedMore(before, Piece(start, line[start..t.start]));
        CutAt(line, start, t.start);
        assert t.end == t.start + 1 by { SemicolonIsShort(line, t.start); }
      } else {
        assert before + [] == before;
      }
    }
  }

  lemma NothingTerminated()
    ensures Terminated([]) == ""
  {
  }

  lemma SemicolonIsShort(line: string, i: nat)
    requires i < |line| && line[i] == ';'
    ensures MatchEnd(line, i) == Some(i + 1)
  {
  }

  lemma {:induction false} JoinedMore(pieces: seq<Piece>, own: Piece)
    ensures Joined(pieces + [own]) == Terminated(pieces) + own.text
  {
    assert (pieces + [own])[..|pieces|] == pieces;
  }

  /** Joining a line's pieces with semicolons gives back the line. */
  lemma {:induction false} JoiningGivesTheLine(line: string)
    ensures Joined(Pieces(line)) == line
  {
    hide Closed, StartAfter, Matches, Terminated, Joined;
    var m := Matches(line, 0);
    MatchesAreGood(line);
    ClosedIsPrefix(line, m, |m|);
    var start := StartAfter(line, m, |m|);
    JoinedMore(Closed(line, m, |m|), Piece(start, line[start..]));
    assert line[..start] + line[start..] == line;
  }

  predicate Holds(p: Piece, k: nat) { p.start <= k < p.start + |p.text| }

  lemma {:induction false} ClosedSlices(line: string, m: seq<Token>, n: nat)
    requires n <= |m| && Ordered(m, 0, |line|)
    ensures forall p :: p in Closed(line, m, n) ==> p.start + |p.text| <= |line| && p.text == line[p.start..p.start + |p.text|]
  {
    if n > 0 { ClosedSlices(line, m, n - 1); }
  }

  /** Each piece is the part of the line at its reported column. */
  lemma PiecesAreSlices(line: string)
    ensures forall p :: p in Pieces(line) ==> p.start + |p.text| <= |line| && p.text == line[p.start..p.start + |p.text|]
  {
    var m := Matches(line, 0);
    ClosedSlices(line, m, |m|);
  }

  /** A quoted literal of the line holds position k. */
  ghost predicate Quoted(line: string, m: seq<Token>, k: nat)
    requires Ordered(m, 0, |line|)
  {
    exists i :: 0 <= i < |m| && line[m[i].start] != ';' && m[i].start <= k < m[i].end
  }

  ghost predicate Cut(line: string, m: seq<Token>, n: nat, k: nat)
    requires n <= |m| && Ordered(m, 0, |line|)
  {
    exists i :: 0 <= i < n && line[m[i].start] == ';' && m[i].start == k
  }

  ghost predicate InPiece(pieces: seq<Piece>, k: nat) { exists p :: p in pieces && Holds(p, k) }

  lemma {:induction false} ClosedUnlessCut(line: string, m: seq<Token>, n: nat, k: nat)
    requires n <= |m| && GoodMatches(line, m) && k < StartAfter(line, m, n)
    ensures InPiece(Closed(line, m, n), k) <==> !Cut(line, m, n, k)
    decreases n
  {
    assert n > 0;
    if k < StartAfter(line, m, n - 1) {
      ClosedUnlessCut(line, m, n - 1, k);
      SettledBefore(line, m, n, k);
    } else {
      SettledNow(line, m, n, k);
    }
  }

  lemma SettledBefore(line: string, m: seq<Token>, n: nat, k: nat)
    requires 0 < n <= |m| && GoodMatches(line, m) && k < StartAfter(line, m, n - 1)
    ensures InPiece(Closed(line, m, n), k) <==> InPiece(Closed(line, m, n - 1), k)
    ensures Cut(line, m, n, k) <==> Cut(line, m, n - 1, k)
  {
    hide InPiece, Cut, Closed, MatchEnd;
    InClosedStep(line, m, n, k);
    OneMoreCut(line, m, n, k);
  }

  lemma SettledNow(line: string, m: seq<Token>, n: nat, k: nat)
    requires 0 < n <= |m| && GoodMatches(line, m) && StartAfter(line, m, n - 1) <= k < StartAfter(line, m, n)
    ensures InPiece(Closed(line, m, n), k) <==> !Cut(line, m, n, k)
  {
    hide InPiece, Cut, Closed, MatchEnd;
    InClosedStep(line, m, n, k);
    OneMoreCut(line, m, n, k);
    PastTheEnd(line, m, n - 1, k);
  }

  /** One more piece holds exactly the positions of its slice. */
  lemma SlicePiece(pieces: seq<Piece>, line: string, start: nat, end: nat, k: nat)
    requires start <= end <= |line|
    ensures InPiece(pieces + [Piece(start, line[start..end])], k) <==> InPiece(pieces, k) || start <= k < end
  {
    OneMorePiece(pieces, Piece(start, line[start..end]), k);
  }

  lemma InClosedStep(line: string, m: seq<Token>, n: nat, k: nat)
    requires 0 < n <= |m| && GoodMatches(line, m)
    ensures var cut, start, end := line[m[n - 1].start] == ';', StartAfter(line, m, n - 1), m[n - 1].start;
      && StartAfter(line, m, n) == (if cut then end + 1 else start)
      && (InPiece(Closed(line, m, n), k) <==> InPiece(Closed(line, m, n - 1), k) || (cut && start <= k < end))
  {
    var start, t, before := StartAfter(line, m, n - 1), m[n - 1], Closed(line, m, n - 1);
    if line[t.start] == ';' {
      SemicolonIsShort(line, t.start);
      SlicePiece(before, line, start, t.start, k);
    } else {
      assert before + [] == before;
    }
  }

  lemma {:induction false} PastTheEnd(line: string, m: seq<Token>, n: nat, k: nat)
    requires n <= |m| && GoodMatches(line, m) && k >= StartAfter(line, m, n)
    ensures !InPiece(Closed(line, m, n), k) && !Cut(line, m, n, k)
  {
    ClosedBefore(line, m, n);
    CutsBefore(line, m, n);
  }

  lemma OneMorePiece(pieces: seq<Piece>, own: Piece, k: nat)
    ensures InPiece(pieces + [own], k) <==> InPiece(pieces, k) || Holds(own, k)
  {
    assert forall p :: p in pieces + [own] <==> p in pieces || p == own;
  }

  lemma OneMoreCut(line: string, m: seq<Token>, n: nat, k: nat)
    requires 0 < n <= |m| && Ordered(m, 0, |line|)
    ensures Cut(line, m, n, k) <==> Cut(line, m, n - 1, k) || (line[m[n - 1].start] == ';' && m[n - 1].start == k)
  {
  }

  lemma {:induction false} ClosedBefore(line: string, m: seq<Token>, n: nat)
    requires n <= |m| && GoodMatches(line, m)
    ensures forall p :: p in Closed(line, m, n) ==> p.start + |p.text| < StartAfter(line, m, n)
  {
    if n > 0 { ClosedBefore(line, m, n - 1); }
  }

  lemma {:induction false} CutsBefore(line: string, m: seq<Token>, n: nat)
    requires n <= |m| && GoodMatches(line, m)
    ensures forall k: nat :: Cut(line, m, n, k) ==> k < StartAfter(line, m, n)
  {
    if n > 0 {
      CutsBefore(line, m, n - 1);
      forall k: nat | Cut(line, m, n, k) ensures k < StartAfter(line, m, n) {
        var i :| 0 <= i < n && line[m[i].start] == ';' && m[i].start == k;
        if i < n - 1 { assert Cut(line, m, n - 1, k); }
      }
    }
  }

  lemma {:induction false} InPieceUnlessCut(line: string, k: nat)
    requires k < |line|
    ensures InPiece(Pieces(line), k) <==> !Cut(line, Matches(line, 0), |Matches(line, 0)|, k)
  {
    hide Closed, StartAfter, Matches, Cut, InPiece;
    var m := Matches(line, 0);
    MatchesAreGood(line);
    var start, closed := StartAfter(line, m, |m|), Closed(line, m, |m|);
    var own := Piece(start, line[start..]);
    OneMorePiece(closed, own, k);
    if k < start {
      ClosedUnlessCut(line, m, |m|, k);
    } else {
      CutsBefore(line, m, |m|);
      assert Holds(own, k);
    }
  }

  lemma {:induction false} CutUnlessQuoted(line: string, m: seq<Token>, k: nat)
    requires k < |line| && line[k] == ';' && GoodMatches(line, m) && Covered(m, k)
    ensures Cut(line, m, |m|, k) <==> !Quoted(line, m, k)
  {
    var i :| 0 <= i < |m| && m[i].start <= k < m[i].end;
    if line[m[i].start] == ';' {
      assert MatchEnd(line, m[i].start) == Some(m[i].end);
      assert m[i].start == k;
    }
  }

  /** A semicolon stays inside a piece exactly when a quoted literal holds it; every other one separates two pieces. */
  lemma {:induction false} SemicolonsSplitUnlessQuoted(line: string, k: nat)
    requires k < |line| && line[k] == ';'
    ensures InPiece(Pieces(line), k) <==> Quoted(line, Matches(line, 0), k)
  {
    hide InPiece, Cut, Quoted, Pieces, Matches;
    var m := Matches(line, 0);
    MatchesAreAll(line, 0);
    InPieceUnlessCut(line, k);
    assert Covered(m, k) by { assert MatchEnd(line, k).Some?; }
    CutUnlessQuoted(line, m, k);
  }

  datatype Statement = Statement(line: nat, column: nat, text: string)

  function Numbered(number: nat, pieces: seq<Piece>): (statements: seq<Statement>)
    ensures |statements| == |pieces|
    ensures forall i :: 0 <= i < |pieces| ==> statements[i] == Statement(number, pieces[i].start, pieces[i].text)
  {
    seq(|pieces|, i requires 0 <= i < |pieces| => Statement(number, pieces[i].start, pieces[i].text))
  }

  /** The statements of the first n lines. */
  function StatementsOf(text: string, n: nat): seq<Statement>
    requires n <= |Lines(text, 0)|
  {
    if n == 0 then []
    else
      var line := Lines(text, 0)[n - 1];
      StatementsOf(text, n - 1) + Numbered(n, Pieces(text[line.start..line.end]))
  }

  lemma NumberedMore(number: nat, pieces: seq<Piece>, own: Piece)
    ensures Numbered(number, pieces + [own]) == Numbered(number, pieces) + [Statement(number, own.start, own.text)]
  {
  }

  method CutLine(line: string, number: nat) returns (statements: seq<Statement>)
    ensures statements == Numbered(number, Pieces(line))
  {
    hide Numbered, Matches, MatchEnd;
    var m := Matches(line, 0);
    statements := [];
    var start := 0;
    for i := 0 to |m|
      invariant start == StartAfter(line, m, i)
      invariant statements == Numbered(number, Closed(line, m, i))
    {
      if line[m[i].start] == ';' {
        NumberedMore(number, Closed(line, m, i), Piece(start, line[start..m[i].start]));
        statements := statements + [Statement(number, start, line[start..m[i].start])];
        start := m[i].end;
      } else {
        assert Closed(line, m, i) + [] == Closed(line, m, i);
      }
    }
    NumberedMore(number, Closed(line, m, |m|), Piece(start, line[start..]));
    statements := statements + [Statement(number, start, line[start..])];
  }

  method AllStatements(text: string) returns (statements: seq<Statement>)
    ensures statements == StatementsOf(text, |Lines(text, 0)|)
  {
    var lines := Lines(text, 0);
    statements := [];
    for i := 0 to |lines|
      invariant statements == StatementsOf(text, i)
    {
      var cut := CutLine(text[lines[i].start..lines[i].end], i + 1);
      statements := statements + cut;
    }
  }

  /** The statement is the text at its line and column, and the line has its number. */
  ghost predicate InPlace(text: string, lines: seq<Token>, s: Statement) {
    && 1 <= s.line <= |lines|
    && var line := lines[s.line - 1];
       && line.start + s.column + |s.text| <= line.end <= |text|
       && s.text == text[line.start + s.column..line.start + s.column + |s.text|]
       && LineEnds(text, line.start) + 1 == s.line
  }

  lemma {:induction false} PieceInPlace(text: string, n: nat, i: nat)
    requires 0 < n <= |Lines(text, 0)|
    requires var line := Lines(text, 0)[n - 1]; i < |Pieces(text[line.start..line.end])|
    ensures var line := Lines(text, 0)[n - 1];
      var piece := Pieces(text[line.start..line.end])[i];
      InPlace(text, Lines(text, 0), Statement(n, piece.start, piece.text))
  {
    hide Pieces, LineEnds, Lines, MatchEnd;
    var line := Lines(text, 0)[n - 1];
    var content := text[line.start..line.end];
    var piece := Pieces(content)[i];
    PiecesAreSlices(content);
    assert piece in Pieces(content);
    SliceOfSlice(text, line.start, line.end, piece.start, piece.start + |piece.text|);
    LinesAreNumbered(text, 0, n - 1);
    assert LineEnds(text, 0) == 0 by { NoLinesYet(text); }
  }

  lemma SliceOfSlice(text: string, from: nat, to: nat, i: nat, j: nat)
    requires from <= to <= |text| && i <= j <= to - from
    ensures text[from..to][i..j] == text[from + i..from + j]
  {
    var a, b := text[from..to][i..j], text[from + i..from + j];
    assert |a| == |b| && forall k :: 0 <= k < |a| ==> a[k] == b[k];
  }

  lemma {:induction false} NoLinesYet(text: string)
    ensures LineEnds(text, 0) == 0
  {
  }

  /** Every statement is in place. */
  lemma {:induction false} StatementsAreInPlace(text: string, n: nat, s: Statement)
    requires n <= |Lines(text, 0)| && s in StatementsOf(text, n)
    ensures InPlace(text, Lines(text, 0), s)
  {
    hide InPlace, Lines, Pieces;
    var line := Lines(text, 0)[n - 1];
    if s in StatementsOf(text, n - 1) {
      StatementsAreInPlace(text, n - 1, s);
    } else {
      var pieces := Pieces(text[line.start..line.end]);
      var i :| 0 <= i < |pieces| && Numbered(n, pieces)[i] == s;
      PieceInPlace(text, n, i);
    }
  }
}
