/** C string handling as Lab1/commands.c uses it: strtok, and the lines fgets returns. */
module Strings {
  import opened Seqs

  // The length of the leading part without delimiters (strcspn).
  function Span(s: string, delims: set<char>): (n: nat)
    ensures n <= |s|
    ensures forall i :: 0 <= i < n ==> s[i] !in delims
    ensures n < |s| ==> s[n] in delims
  {
    if s == "" || s[0] in delims then 0
    else
      var m := Span(s[1..], delims);
      assert forall i :: 0 < i < m + 1 ==> s[i] == s[1..][i - 1];
      m + 1
  }

  // The tokens that repeated strtok calls return.
  function Tokens(s: string, delims: set<char>): (r: seq<string>)
    ensures forall i :: 0 <= i < |r| ==> IsToken(r[i], delims)
  {
    if s == "" then []
    else if s[0] in delims then Tokens(s[1..], delims)
    else
      var n := Span(s, delims);
      [s[..n]] + Tokens(s[n..], delims)
  }

  predicate IsToken(t: string, delims: set<char>) {
    t != "" && forall i :: 0 <= i < |t| ==> t[i] !in delims
  }

  lemma {:induction false} SpanOfToken(t: string, rest: string, delims: set<char>)
    requires forall i :: 0 <= i < |t| ==> t[i] !in delims
    requires rest == "" || rest[0] in delims
    ensures Span(t + rest, delims) == |t|
  {
    if t != "" {
      assert (t + rest)[1..] == t[1..] + rest;
      SpanOfToken(t[1..], rest, delims);
    } else {
      assert t + rest == rest;
    }
  }

  // A token in front of a delimiter, or of the end, is the next token.
  lemma TokenFirst(t: string, rest: string, delims: set<char>)
    requires IsToken(t, delims) && (rest == "" || rest[0] in delims)
    ensures Tokens(t + rest, delims) == [t] + Tokens(rest, delims)
  {
    SpanOfToken(t, rest, delims);
    assert (t + rest)[..|t|] == t && (t + rest)[|t|..] == rest;
  }

  lemma DelimiterFirst(c: char, rest: string, delims: set<char>)
    requires c in delims
    ensures Tokens([c] + rest, delims) == Tokens(rest, delims)
  {
    assert ([c] + rest)[1..] == rest;
  }

  // The lines fgets reads from a file: up to and with a newline, or up to the end.
  function Lines(text: string): (r: seq<string>)
    decreases |text|
  {
    if text == "" then []
    else
      var n := Span(text, {'\n'});
      var end := if n < |text| then n + 1 else n;
      [text[..end]] + Lines(text[end..])
  }

  lemma LineFirst(line: string, rest: string)
    requires forall i :: 0 <= i < |line| ==> line[i] != '\n'
    ensures Lines(line + "\n" + rest) == [line + "\n"] + Lines(rest)
  {
    var tail := "\n" + rest;
    assert line + "\n" + rest == line + tail;
    SpanOfToken(line, tail, {'\n'});
    assert (line + tail)[..|line| + 1] == line + "\n" && (line + tail)[|line| + 1..] == rest;
  }

  // What is left without a newline is the last line.
  lemma LastLine(line: string)
    requires line != "" && forall i :: 0 <= i < |line| ==> line[i] != '\n'
    ensures Lines(line) == [line]
  {
    SpanOfToken(line, "", {'\n'});
    assert line + "" == line && Lines("") == [];
  }

  function ListOf(token: Option<string>): seq<string> {
    if token.Some? then [token.value] else []
  }

  // One call of strtok: the next token, and what is left after it.
  method NextToken(s: string, delims: set<char>) returns (token: Option<string>, rest: string)
    ensures Tokens(s, delims) == ListOf(token) + Tokens(rest, delims)
    ensures if token.Some? then |rest| < |s| else rest == "" && Tokens(s, delims) == []
  {
    var i := 0;
    while i < |s| && s[i] in delims
      invariant i <= |s| && Tokens(s, delims) == Tokens(s[i..], delims)
    {
      assert s[i..][1..] == s[i + 1..];
      i := i + 1;
    }
    if i == |s| {
      return None, "";
    }
    ghost var left := s[i..];
    var j := i;
    while j < |s| && s[j] !in delims
      invariant i <= j <= |s| && forall k :: i <= k < j ==> s[k] !in delims
    {
      j := j + 1;
    }
    token, rest := Some(s[i..j]), s[j..];
    assert left == s[i..j] + s[j..];
    TokenFirst(s[i..j], s[j..], delims);
  }

  // One call of fgets on what is left of a file.
  method NextLine(text: string) returns (line: string, rest: string)
    requires text != ""
    ensures Lines(text) == [line] + Lines(rest) && |rest| < |text|
  {
    var n := 0;
    while n < |text| && text[n] != '\n'
      invariant n <= |text| && forall i :: 0 <= i < n ==> text[i] != '\n'
    {
      n := n + 1;
    }
    assert text == text[..n] + text[n..];
    SpanOfToken(text[..n], text[n..], {'\n'});
    if n < |text| {
      n := n + 1;
    }
    line, rest := text[..n], text[n..];
  }
}
