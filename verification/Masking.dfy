/**
  Masking of comments and string literals in source text, position by position.
 */
module Masking {
  import opened Options

  // ----- tokens -----

  predicate StartsWith(text: string, i: nat, word: string) {
    i + |word| <= |text| && text[i..i + |word|] == word
  }

  /** The first place at or after i where the word stands. */
  function Find(text: string, i: nat, word: string): (at: Option<nat>)
    ensures at.Some? ==> i <= at.value && StartsWith(text, at.value, word)
    ensures at.Some? ==> forall k: nat :: i <= k < at.value ==> !StartsWith(text, k, word)
    ensures at.None? ==> forall k: nat :: i <= k ==> !StartsWith(text, k, word)
    decreases |text| - i
  {
    if i + |word| > |text| then None
    else if StartsWith(text, i, word) then Some(i)
    else if i == |text| then None
    else Find(text, i + 1, word)
  }

  /** Where the string ends whose closing quote is looked for from i on; an escaped line feed ends the attempt. */
  function QuotedEnd(text: string, i: nat, quote: char): (end: Option<nat>)
    requires quote != '\\'
    ensures end.Some? ==> i < end.value <= |text| && text[end.value - 1] == quote
    decreases |text| - i
  {
    if i >= |text| then None
    else if text[i] == quote then Some(i + 1)
    else if text[i] == '\\' then
      if i + 1 < |text| && text[i + 1] != '\n' then QuotedEnd(text, i + 2, quote) else None
    else QuotedEnd(text, i + 1, quote)
  }

  /** The end of the line, before its line feed. */
  function LineEnd(text: string, i: nat): (end: nat)
    requires i <= |text|
    ensures i <= end <= |text| && (end < |text| ==> text[end] == '\n') && forall k :: i <= k < end ==> text[k] != '\n'
    decreases |text| - i
  {
    if i == |text| || text[i] == '\n' then i else LineEnd(text, i + 1)
  }

  function AfterWord(text: string, from: nat, word: string): (end: Option<nat>)
    ensures end.Some? ==> from + |word| <= end.value <= |text|
  {
    var at := Find(text, from, word);
    if at.Some? then Some(at.value + |word|) else None
  }

  /** The end of the comment or literal that starts at i, if one does; earlier alternatives win. */
  function TokenEnd(text: string, i: nat, python: bool): (end: Option<nat>)
    requires i < |text|
    ensures end.Some? ==> i < end.value <= |text|
  {
    var triple := if StartsWith(text, i, "\"\"\"") then AfterWord(text, i + 3, "\"\"\"") else None;
    if triple.Some? then triple
    else if text[i] in "`\"'" then QuotedEnd(text, i + 1, text[i])
    else if StartsWith(text, i, "//") then Some(LineEnd(text, i + 2))
    else if StartsWith(text, i, "/*") then AfterWord(text, i + 2, "*/")
    else if python && text[i] == '#' then Some(LineEnd(text, i + 1))
    else None
  }

  datatype Token = Token(start: nat, end: nat)

  /** Tokens from left to right, none overlapping another. */
  function Tokens(text: string, from: nat, python: bool): (tokens: seq<Token>)
    requires from <= |text|
    ensures Ordered(tokens, from, |text|)
    decreases |text| - from
  {
    if from == |text| then []
    else
      var end := TokenEnd(text, from, python);
      if end.None? then
        var rest := Tokens(text, from + 1, python);
        LaterStart(rest, from, from + 1, |text|);
        rest
      else
        var rest := Tokens(text, end.value, python);
        PrependOrdered(Token(from, end.value), rest, |text|);
        [Token(from, end.value)] + rest
  }

  ghost predicate Ordered(tokens: seq<Token>, from: nat, size: nat) {
    && (forall i :: 0 <= i < |tokens| ==> from <= tokens[i].start < tokens[i].end <= size)
    && forall i, j :: 0 <= i < j < |tokens| ==> tokens[i].end <= tokens[j].start
  }

  lemma LaterStart(tokens: seq<Token>, from: nat, later: nat, size: nat)
    requires Ordered(tokens, later, size) && from <= later
    ensures Ordered(tokens, from, size)
  {
  }

  lemma PrependOrdered(t: Token, rest: seq<Token>, size: nat)
    requires t.start < t.end <= size && Ordered(rest, t.end, size)
    ensures Ordered([t] + rest, t.start, size)
  {
  }

  ghost predicate Covered(tokens: seq<Token>, k: nat) {
    exists i :: 0 <= i < |tokens| && tokens[i].start <= k < tokens[i].end
  }

  /** Each token ends where a token at its start does, and no token starts at any other position from on. */
  ghost predicate AreAllTokens(text: string, python: bool, tokens: seq<Token>, from: nat) {
    && (forall i :: 0 <= i < |tokens| ==> IsToken(text, python, tokens[i]))
    && forall k: nat :: from <= k < |text| && !Covered(tokens, k) ==> TokenEnd(text, k, python).None?
  }

  predicate IsToken(text: string, python: bool, t: Token) {
    t.start < |text| && TokenEnd(text, t.start, python) == Some(t.end)
  }

  lemma PrependToken(text: string, python: bool, t: Token, rest: seq<Token>)
    requires IsToken(text, python, t) && AreAllTokens(text, python, rest, t.end)
    ensures AreAllTokens(text, python, [t] + rest, t.start)
  {
    hide IsToken, TokenEnd;
    CoveredMore(t, rest);
    forall i | 0 <= i < |[t] + rest| ensures IsToken(text, python, ([t] + rest)[i]) {
      assert i > 0 ==> ([t] + rest)[i] == rest[i - 1];
    }
  }

  /** The matches are the leftmost ones: no token starts outside of them, and each ends where a token at its start does. */
  lemma {:induction false} TokensAreAll(text: string, from: nat, python: bool)
    requires from <= |text|
    ensures AreAllTokens(text, python, Tokens(text, from, python), from)
    decreases |text| - from
  {
    hide TokenEnd;
    if from < |text| {
      var end := TokenEnd(text, from, python);
      TokensAreAll(text, if end.None? then from + 1 else end.value, python);
      if end.Some? { PrependToken(text, python, Token(from, end.value), Tokens(text, end.value, python)); }
    }
  }

  lemma CoveredMore(t: Token, rest: seq<Token>)
    ensures forall k: nat :: Covered([t] + rest, k) <==> t.start <= k < t.end || Covered(rest, k)
  {
    forall k: nat ensures Covered([t] + rest, k) <==> t.start <= k < t.end || Covered(rest, k) {
      if t.start <= k < t.end { assert ([t] + rest)[0] == t; }
      if i :| 0 <= i < |rest| && rest[i].start <= k < rest[i].end { assert ([t] + rest)[i + 1] == rest[i]; }
    }
  }

  // ----- masking -----

  predicate IsLineFeed(c: char) { c == '\n' || c == '\r' }

  function Blanked(literal: string): (masked: string)
    ensures |masked| == |literal|
    ensures forall k :: 0 <= k < |literal| ==> masked[k] == if IsLineFeed(literal[k]) then literal[k] else ' '
  {
    seq(|literal|, k requires 0 <= k < |literal| => if IsLineFeed(literal[k]) then literal[k] else ' ')
  }

  /** At most the last n characters. */
  function Last(s: string, n: nat): string { if |s| <= n then s else s[|s| - n..] }

  const WINDOW: nat := 160

  /** An argument of a selecting call is kept; a triple-quoted string never is. */
  predicate Keepable(literal: string) {
    literal != "" && literal[0] in "\"'" && !StartsWith(literal, 0, "\"\"\"")
  }

  function EndOf(tokens: seq<Token>, n: nat): nat
    requires n <= |tokens|
  {
    if n == 0 then 0 else tokens[n - 1].end
  }

  /** What a literal becomes after the output so far. */
  function Masked(before: string, literal: string, selector: string -> bool): (masked: string)
    ensures |masked| == |literal|
  {
    if selector(Last(before, WINDOW)) && Keepable(literal) then literal else Blanked(literal)
  }

  /** The output up to the end of the first n tokens; selector looks at the output before a token. */
  function Output(text: string, tokens: seq<Token>, n: nat, selector: string -> bool): (out: string)
    requires n <= |tokens| && Ordered(tokens, 0, |text|)
    ensures |out| == EndOf(tokens, n)
  {
    if n == 0 then ""
    else
      var t := tokens[n - 1];
      var before := Output(text, tokens, n - 1, selector) + text[EndOf(tokens, n - 1)..t.start];
      before + Masked(before, text[t.start..t.end], selector)
  }

  function Stripped(text: string, python: bool, selector: string -> bool): string {
    var tokens := Tokens(text, 0, python);
    Output(text, tokens, |tokens|, selector) + text[EndOf(tokens, |tokens|)..]
  }

  lemma LastOfLast(a: string, b: string, n: nat)
    ensures Last(Last(a, n) + b, n) == Last(a + b, n)
  {
    if |a| > n {
      assert a + b == a[..|a| - n] + (Last(a, n) + b);
    }
  }

  lemma MaskedIs(before: string, literal: string, selector: string -> bool)
    ensures Masked(before, literal, selector) ==
      if selector(Last(before, WINDOW)) && Keepable(literal) then literal else Blanked(literal)
  {
  }

  /** The body of the loop: append the text before a token and the masked token, and move the window along. */
  method AppendToken(output: string, prefix: string, segment: string, literal: string, selector: string -> bool)
    returns (more: string, window: string)
    requires prefix == Last(output, WINDOW)
    ensures more == output + segment + Masked(output + segment, literal, selector)
    ensures window == Last(more, WINDOW)
  {
    hide Last, Masked, Keepable;
    LastOfLast(output, segment, WINDOW);
    more := output + segment;
    window := Last(prefix + segment, WINDOW);
    var masked := if selector(window) && Keepable(literal) then literal else Blanked(literal);
    MaskedIs(more, literal, selector);
    LastOfLast(more, masked, WINDOW);
    more := more + masked;
    window := Last(window + masked, WINDOW);
  }

  /** The loop over the matches, carrying the output, the end of the last match and the selector's window. */
  method StripComments(text: string, python: bool, selector: string -> bool) returns (result: string)
    ensures result == Stripped(text, python, selector)
  {
    var tokens := Tokens(text, 0, python);
    hide Last, Masked, Output;
    var output, end, prefix := "", 0, "";
    NothingMasked(text, tokens, selector);
    for i := 0 to |tokens|
      invariant output == Output(text, tokens, i, selector)
      invariant end == EndOf(tokens, i)
      invariant prefix == Last(output, WINDOW)
    {
      OneMoreToken(text, tokens, i, selector);
      var literal := text[tokens[i].start..tokens[i].end];
      output, prefix := AppendToken(output, prefix, text[end..tokens[i].start], literal, selector);
      end := tokens[i].end;
    }
    result := output + text[end..];
  }

  lemma {:induction false} NothingMasked(text: string, tokens: seq<Token>, selector: string -> bool)
    requires Ordered(tokens, 0, |text|)
    ensures Output(text, tokens, 0, selector) == "" && EndOf(tokens, 0) == 0 && Last("", WINDOW) == ""
  {
  }

  lemma OneMoreToken(text: string, tokens: seq<Token>, i: nat, selector: string -> bool)
    requires i < |tokens| && Ordered(tokens, 0, |text|)
    ensures EndOf(tokens, i) <= tokens[i].start && EndOf(tokens, i + 1) == tokens[i].end
    ensures var t := tokens[i];
      var before := Output(text, tokens, i, selector) + text[EndOf(tokens, i)..t.start];
      Output(text, tokens, i + 1, selector) == before + Masked(before, text[t.start..t.end], selector)
  {
    hide Masked;
  }

  /** Every character of the output is the one of the text, or a blank inside a token. */
  ghost predicate Preserves(text: string, tokens: seq<Token>, out: string) {
    |out| <= |text| &&
    forall k :: 0 <= k < |out| ==> out[k] == text[k] || (out[k] == ' ' && !IsLineFeed(text[k]) && Covered(tokens, k))
  }

  lemma PreservesMore(text: string, tokens: seq<Token>, done: string, start: nat, end: nat, masked: string)
    requires Preserves(text, tokens, done) && |done| <= start <= end <= |text| && |masked| == end - start
    requires forall k :: start <= k < end ==> Covered(tokens, k)
    requires forall k :: 0 <= k < |masked| ==> masked[k] == text[start + k] || (masked[k] == ' ' && !IsLineFeed(text[start + k]))
    ensures Preserves(text, tokens, done + text[|done|..start] + masked)
  {
    hide Covered;
    var segment := text[|done|..start];
    var ahead := done + segment;
    forall k | 0 <= k < |ahead| ensures ahead[k] == text[k] || (ahead[k] == ' ' && !IsLineFeed(text[k]) && Covered(tokens, k)) {
      assert k >= |done| ==> ahead[k] == segment[k - |done|];
    }
    forall k | |ahead| <= k < |ahead + masked|
      ensures (ahead + masked)[k] == text[k] || ((ahead + masked)[k] == ' ' && !IsLineFeed(text[k]) && Covered(tokens, k))
    {
      assert (ahead + masked)[k] == masked[k - start];
    }
  }

  lemma {:induction false} OutputPreserves(text: string, tokens: seq<Token>, n: nat, selector: string -> bool)
    requires n <= |tokens| && Ordered(tokens, 0, |text|)
    ensures Preserves(text, tokens, Output(text, tokens, n, selector))
  {
    hide Masked, Preserves;
    if n == 0 {
      NothingLost(text, tokens);
    } else {
      OutputPreserves(text, tokens, n - 1, selector);
      var t, done := tokens[n - 1], Output(text, tokens, n - 1, selector);
      var ahead, literal := done + text[|done|..t.start], text[t.start..t.end];
      MaskedPreserves(ahead, literal, selector);
      assert forall k :: t.start <= k < t.end ==> Covered(tokens, k);
      PreservesMore(text, tokens, done, t.start, t.end, Masked(ahead, literal, selector));
    }
  }

  lemma NothingLost(text: string, tokens: seq<Token>)
    ensures Preserves(text, tokens, "")
  {
  }

  lemma MaskedPreserves(before: string, literal: string, selector: string -> bool)
    ensures var masked := Masked(before, literal, selector);
      forall k :: 0 <= k < |literal| ==> masked[k] == literal[k] || (masked[k] == ' ' && !IsLineFeed(literal[k]))
  {
  }

  /** Masking keeps the length, every carriage return and line feed, and every character outside the tokens. */
  lemma {:induction false} MaskingKeepsPositions(text: string, python: bool, selector: string -> bool)
    ensures var out, tokens := Stripped(text, python, selector), Tokens(text, 0, python);
      && |out| == |text|
      && (forall k :: 0 <= k < |text| ==> out[k] == text[k] || out[k] == ' ')
      && (forall k :: 0 <= k < |text| && (IsLineFeed(text[k]) || !Covered(tokens, k)) ==> out[k] == text[k])
      && (forall k :: 0 <= k < |text| && !IsLineFeed(text[k]) ==> !IsLineFeed(out[k]))
  {
    var tokens := Tokens(text, 0, python);
    OutputPreserves(text, tokens, |tokens|, selector);
  }

  lemma {:induction false} OutputOfToken(text: string, tokens: seq<Token>, n: nat, i: nat, selector: string -> bool)
    requires i < n <= |tokens| && Ordered(tokens, 0, |text|)
    ensures var t, out := tokens[i], Output(text, tokens, n, selector);
      t.end <= |out| && out[t.start..t.end] == Masked(out[..t.start], text[t.start..t.end], selector)
  {
    hide Masked;
    var t, out := tokens[i], Output(text, tokens, n, selector);
    var done := Output(text, tokens, n - 1, selector);
    if i == n - 1 {
      var ahead := done + text[|done|..t.start];
      var masked := Masked(ahead, text[t.start..t.end], selector);
      assert out == ahead + masked;
      SplitAt(ahead, masked);
    } else {
      OutputOfToken(text, tokens, n - 1, i, selector);
      var last := tokens[n - 1];
      var ahead := text[|done|..last.start];
      assert out == done + (ahead + Masked(done + ahead, text[last.start..last.end], selector));
      SliceOfPrefix(done, out, t.start, t.end);
    }
  }

  lemma SplitAt(a: string, b: string)
    ensures (a + b)[..|a|] == a && (a + b)[|a|..|a| + |b|] == b
  {
  }

  lemma SliceOfPrefix(done: string, out: string, from: nat, to: nat)
    requires from <= to <= |done| <= |out| && out[..|done|] == done
    ensures out[..from] == done[..from] && out[from..to] == done[from..to]
  {
    assert out == done + out[|done|..];
  }

  /** A token is kept, when it is a plain literal that the 160 characters of output before it select, or blanked. */
  lemma {:induction false} TokensAreMasked(text: string, python: bool, selector: string -> bool, i: nat)
    requires i < |Tokens(text, 0, python)|
    ensures var out, t := Stripped(text, python, selector), Tokens(text, 0, python)[i];
      && |out| == |text|
      && var literal := text[t.start..t.end];
         out[t.start..t.end] == if selector(Last(out[..t.start], WINDOW)) && Keepable(literal) then literal else Blanked(literal)
  {
    var tokens := Tokens(text, 0, python);
    OutputOfToken(text, tokens, |tokens|, i, selector);
    var done, out := Output(text, tokens, |tokens|, selector), Stripped(text, python, selector);
    SplitAt(done, text[EndOf(tokens, |tokens|)..]);
    SliceOfPrefix(done, out, tokens[i].start, tokens[i].end);
  }
}
