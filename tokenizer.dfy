/** The signature lexer of `canonicalize_op`: `re.findall` with the pattern
    `([\w\[\]<>]+\??|[\(\),:]|->)`, read as a scan from the left that takes
    the first alternative matching at the current position and skips one
    character when none does. `\w` is restricted to ASCII letters, digits
    and `_`. */
module Tokenizer {

  /** `\w` restricted to ASCII. */
  predicate IsIdentChar(c: char)
  {
    ('a' <= c <= 'z') || ('A' <= c <= 'Z') || ('0' <= c <= '9') || c == '_'
  }

  /** The class `[\w\[\]<>]`. */
  predicate IsWordChar(c: char)
  {
    IsIdentChar(c) || c == '[' || c == ']' || c == '<' || c == '>'
  }

  /** One of the single-character tokens `( ) , :`. */
  predicate IsPunctChar(c: char)
  {
    c == '(' || c == ')' || c == ',' || c == ':'
  }

  /** A word token without its trailing `?`, if any. */
  function WordBody(t: string): string
  {
    if |t| > 0 && t[|t| - 1] == '?' then t[..|t| - 1] else t
  }

  /** A token of the first alternative: word characters, then an optional `?`. */
  predicate IsWordToken(t: string)
  {
    |WordBody(t)| > 0 && forall k :: 0 <= k < |WordBody(t)| ==> IsWordChar(WordBody(t)[k])
  }

  predicate IsPunctToken(t: string)
  {
    (|t| == 1 && IsPunctChar(t[0])) || t == "->"
  }

  predicate IsToken(t: string)
  {
    IsWordToken(t) || IsPunctToken(t)
  }

  /** `isWord` of the parser: `re.match("[\w\[\]<>]+", t)` succeeds exactly
      when the token starts with a word character. */
  predicate IsWord(t: string)
  {
    |t| > 0 && IsWordChar(t[0])
  }

  /** Length of the longest run of word characters at the start of `s`. */
  function WordRun(s: string): (n: nat)
    ensures n <= |s|
    ensures forall k :: 0 <= k < n ==> IsWordChar(s[k])
    ensures n < |s| ==> !IsWordChar(s[n])
  {
    if s == [] || !IsWordChar(s[0]) then 0 else 1 + WordRun(s[1..])
  }

  /** The tokens of a signature string, in order. */
  function Tokenize(s: string): (tokens: seq<string>)
    ensures forall k :: 0 <= k < |tokens| ==> IsToken(tokens[k])
    decreases |s|
  {
    if s == [] then []
    else if IsWordChar(s[0]) then
      var n := WordRun(s);
      var m := if n < |s| && s[n] == '?' then n + 1 else n;
      assert m > 0 && s[..m][..n] == s[..n];
      [s[..m]] + Tokenize(s[m..])
    else if IsPunctChar(s[0]) then [s[..1]] + Tokenize(s[1..])
    else if s[0] == '-' && |s| > 1 && s[1] == '>' then [s[..2]] + Tokenize(s[2..])
    else Tokenize(s[1..])
  }

  /** A word token followed by a character that cannot extend it lexes as itself. */
  lemma TokenizeConsWord(t: string, rest: string)
    requires IsWordToken(t)
    requires rest != [] ==> !IsWordChar(rest[0]) && rest[0] != '?'
    ensures Tokenize(t + rest) == [t] + Tokenize(rest)
  {
    var s := t + rest;
    var body := WordBody(t);
    assert IsWordChar(s[0]) by { assert s[0] == body[0]; }
    var n := WordRun(s);
    assert n == |body| by {
      assert forall k :: 0 <= k < |body| ==> s[k] == body[k];
      if |body| < |s| {
        assert s[|body|] == if |body| < |t| then '?' else rest[0];
      }
    }
    var m := if n < |s| && s[n] == '?' then n + 1 else n;
    assert m == |t|;
    assert s[..m] == t && s[m..] == rest;
  }

  /** A token followed by a character that cannot extend it lexes as itself. */
  lemma TokenizeCons(t: string, rest: string)
    requires IsToken(t)
    requires IsWordToken(t) && rest != [] ==> !IsWordChar(rest[0]) && rest[0] != '?'
    ensures Tokenize(t + rest) == [t] + Tokenize(rest)
  {
    var s := t + rest;
    if IsWordToken(t) {
      TokenizeConsWord(t, rest);
    } else if |t| == 1 {
      assert s[..1] == t && s[1..] == rest;
    } else {
      assert s[..2] == t && s[2..] == rest;
    }
  }

  /** A blank is skipped. */
  lemma TokenizeBlank(rest: string)
    ensures Tokenize(" " + rest) == Tokenize(rest)
  {
    assert (" " + rest)[1..] == rest;
  }

  /** Tokens written out with a blank after each. */
  function Spaced(tokens: seq<string>): string
  {
    if tokens == [] then "" else tokens[0] + " " + Spaced(tokens[1..])
  }

  /** Lexing a blank-separated rendering of tokens gives back those tokens. */
  lemma {:induction false} TokenizeSpaced(tokens: seq<string>)
    requires forall k :: 0 <= k < |tokens| ==> IsToken(tokens[k])
    ensures Tokenize(Spaced(tokens)) == tokens
  {
    if tokens != [] {
      TokenizeSpaced(tokens[1..]);
      var rest := Spaced(tokens[1..]);
      TokenizeCons(tokens[0], " " + rest);
      TokenizeBlank(rest);
      assert tokens[0] + " " + rest == tokens[0] + (" " + rest);
    }
  }
}
