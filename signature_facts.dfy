/** What the signature parser guarantees: every argument it returns is read
    from its own tokens, rendering a declaration and parsing it back gives
    the declaration (result labels are dropped), and every failure is either
    `InvalidFormat` quoting the signature or an `IndexOutOfRange`. */
module SignatureFacts {
  import opened Wrappers
  import opened Tokenizer
  import opened Signature

  /** The tokens of one argument: `_ name : type` or `name : type`. */
  function RenderArg(a: Arg): seq<string>
  {
    (if a.explicit then [] else ["_"]) + [a.name, ":", a.rawType]
  }

  /** The tokens of a non-empty argument list, comma-separated. */
  function RenderArgs(args: seq<Arg>): seq<string>
  {
    if |args| == 0 then []
    else if |args| == 1 then RenderArg(args[0])
    else RenderArg(args[0]) + [","] + RenderArgs(args[1..])
  }

  /** An argument the parser can produce. */
  predicate WellFormedArg(a: Arg)
  {
    IsWord(a.name) && IsWord(a.rawType) && (a.explicit ==> a.name != "_") && a.stype == EraseGenerics(a.rawType)
  }

  /** The tokens of one result: an optional label with `:`, then the type. */
  function RenderResult(r: ResultSpec): seq<string>
  {
    (if r.name == "" then [] else [r.name, ":"]) + [r.rawType]
  }

  function RenderResultList(results: seq<ResultSpec>): seq<string>
  {
    if |results| == 0 then []
    else if |results| == 1 then RenderResult(results[0])
    else RenderResult(results[0]) + [","] + RenderResultList(results[1..])
  }

  /** One unlabelled result is written bare, anything else in parentheses. */
  function RenderResults(results: seq<ResultSpec>): seq<string>
  {
    if |results| == 1 && results[0].name == "" then [results[0].rawType]
    else ["("] + RenderResultList(results) + [")"]
  }

  predicate WellFormedResult(r: ResultSpec)
  {
    EraseGenerics(r.rawType) == "Tensor"
  }

  /** The tokens of a whole declaration. */
  function RenderDecl(d: Decl): seq<string>
  {
    [d.cName, "("] + RenderArgs(d.args) + [")", "->"] + RenderResults(d.results)
  }

  predicate WellFormedDecl(d: Decl)
  {
    |d.results| >= 1
    && (forall k :: 0 <= k < |d.args| ==> WellFormedArg(d.args[k]))
    && (forall k :: 0 <= k < |d.results| ==> WellFormedResult(d.results[k]))
  }


  /** `r` occurs in `tokens` from index `i` on. */
  predicate Matches(tokens: seq<string>, i: nat, r: seq<string>)
    decreases |r|
  {
    if r == [] then i <= |tokens|
    else i < |tokens| && tokens[i] == r[0] && Matches(tokens, i + 1, r[1..])
  }

  /** `Matches` read position by position. */
  lemma {:induction false} MatchesPointwise(tokens: seq<string>, i: nat, r: seq<string>)
    ensures Matches(tokens, i, r) <==> i + |r| <= |tokens| && forall k :: 0 <= k < |r| ==> tokens[i + k] == r[k]
    decreases |r|
  {
    if r != [] {
      MatchesPointwise(tokens, i + 1, r[1..]);
      if i + |r| <= |tokens| && forall k :: 0 <= k < |r| ==> tokens[i + k] == r[k] {
        assert tokens[i + 0] == r[0];
        forall k | 0 <= k < |r| - 1
          ensures tokens[i + 1 + k] == r[1..][k]
        {
          assert tokens[i + (k + 1)] == r[k + 1];
        }
      }
      if Matches(tokens, i, r) {
        forall k | 0 <= k < |r|
          ensures tokens[i + k] == r[k]
        {
          if k > 0 {
            assert tokens[i + 1 + (k - 1)] == r[1..][k - 1];
          }
        }
      }
    }
  }

  /** A token list matches itself from any position on. */
  lemma {:induction false} MatchesSuffix(tokens: seq<string>, i: nat)
    requires i <= |tokens|
    ensures Matches(tokens, i, tokens[i..])
    decreases |tokens| - i
  {
    if i < |tokens| {
      MatchesSuffix(tokens, i + 1);
      assert tokens[i..][1..] == tokens[i + 1..];
    }
  }

  lemma MatchesHead(tokens: seq<string>, i: nat, r: seq<string>)
    requires Matches(tokens, i, r) && |r| > 0
    ensures tokens[i] == r[0]
  {
  }

  lemma {:induction false} MatchesAppend(tokens: seq<string>, i: nat, a: seq<string>, b: seq<string>)
    ensures Matches(tokens, i, a + b) <==> Matches(tokens, i, a) && Matches(tokens, i + |a|, b)
    decreases |a|
  {
    if a == [] {
      assert a + b == b;
    } else {
      assert (a + b)[0] == a[0] && (a + b)[1..] == a[1..] + b;
      MatchesAppend(tokens, i + 1, a[1..], b);
    }
  }

  // ---------------------------------------------------------------------
  // Arguments

  lemma {:induction false} RenderArgsCons(args: seq<Arg>)
    requires |args| >= 2
    ensures RenderArgs(args) == RenderArg(args[0]) + [","] + RenderArgs(args[1..])
  {
  }

  /** One argument is read from its own tokens: `explicit` is false exactly
      when a `_` comes first. */
  lemma {:induction false} ParseArgSound(tokens: seq<string>, i: nat, def: string)
    requires ParseArg(tokens, i, def).Ok?
    ensures var (a, q) := ParseArg(tokens, i, def).value;
      && q == i + |RenderArg(a)| && Matches(tokens, i, RenderArg(a)) && WellFormedArg(a)
      && (a.explicit <==> tokens[i] != "_")
  {
    var (a, q) := ParseArg(tokens, i, def).value;
    MatchesPointwise(tokens, i, RenderArg(a));
  }

  /** A rendered well-formed argument is read back as itself. */
  lemma {:induction false} ParseArgRendered(tokens: seq<string>, i: nat, a: Arg, def: string)
    requires WellFormedArg(a)
    requires Matches(tokens, i, RenderArg(a))
    ensures ParseArg(tokens, i, def) == Ok((a, i + |RenderArg(a)|))
  {
    var ra := RenderArg(a);
    MatchesPointwise(tokens, i, ra);
    if a.explicit {
      assert tokens[i] == ra[0] && tokens[i + 1] == ra[1] && tokens[i + 2] == ra[2];
    } else {
      assert tokens[i] == ra[0] && tokens[i + 1] == ra[1] && tokens[i + 2] == ra[2] && tokens[i + 3] == ra[3];
    }
  }

  /** Two turns of the argument loop put together. */
  lemma ParseArgsCons(tokens: seq<string>, i: nat, def: string, a: Arg, q: nat, rest: seq<Arg>, j: nat)
    requires ParseArg(tokens, i, def) == Ok((a, q))
    requires q < |tokens| && tokens[q] == ","
    requires ParseArgs(tokens, q + 1, def) == Ok((rest, j))
    ensures ParseArgs(tokens, i, def) == Ok(([a] + rest, j))
  {
  }

  /** The last turn of the argument loop. */
  lemma ParseArgsLast(tokens: seq<string>, i: nat, def: string, a: Arg, q: nat)
    requires ParseArg(tokens, i, def) == Ok((a, q))
    requires q < |tokens| && tokens[q] == ")"
    ensures ParseArgs(tokens, i, def) == Ok(([a], q))
  {
  }

  /** What one successful turn of the argument loop reads. */
  lemma ParseArgsInversion(tokens: seq<string>, i: nat, def: string)
    requires ParseArgs(tokens, i, def).Ok?
    ensures ParseArg(tokens, i, def).Ok?
    ensures var (a, q) := ParseArg(tokens, i, def).value;
      && q < |tokens| && (tokens[q] == ")" || tokens[q] == ",")
      && (tokens[q] == ")" ==> ParseArgs(tokens, i, def).value == ([a], q))
      && (tokens[q] == "," ==>
            (&& ParseArgs(tokens, q + 1, def).Ok?
             && ParseArgs(tokens, i, def).value
                == ([a] + ParseArgs(tokens, q + 1, def).value.0, ParseArgs(tokens, q + 1, def).value.1)))
  {
  }

  /** The tokens of an argument, `,` and a further list are those of the longer list. */
  lemma {:induction false} MatchesArgsCons(tokens: seq<string>, i: nat, a: Arg, rest: seq<Arg>)
    requires |rest| >= 1
    requires Matches(tokens, i, RenderArg(a))
    requires i + |RenderArg(a)| < |tokens| && tokens[i + |RenderArg(a)|] == ","
    requires Matches(tokens, i + |RenderArg(a)| + 1, RenderArgs(rest))
    ensures Matches(tokens, i, RenderArgs([a] + rest))
    ensures |RenderArgs([a] + rest)| == |RenderArg(a)| + 1 + |RenderArgs(rest)|
  {
    var args := [a] + rest;
    assert args[0] == a && args[1..] == rest;
    RenderArgsCons(args);
    var ra := RenderArg(a);
    assert RenderArgs(args) == ra + ([","] + RenderArgs(rest));
    MatchesAppend(tokens, i + |ra|, [","], RenderArgs(rest));
    MatchesAppend(tokens, i, ra, [","] + RenderArgs(rest));
  }

  /** The loop stops at a `)` and has read exactly the rendering of the
      arguments it returns. */
  lemma {:induction false} ParseArgsMatch(tokens: seq<string>, i: nat, def: string)
    requires ParseArgs(tokens, i, def).Ok?
    ensures var (args, j) := ParseArgs(tokens, i, def).value;
      && |args| >= 1 && j < |tokens| && tokens[j] == ")"
      && j == i + |RenderArgs(args)| && Matches(tokens, i, RenderArgs(args))
    decreases |tokens| - i
  {
    ParseArgsInversion(tokens, i, def);
    var (a, q) := ParseArg(tokens, i, def).value;
    ParseArgSound(tokens, i, def);
    if tokens[q] == "," {
      ParseArgsMatch(tokens, q + 1, def);
      var rest := ParseArgs(tokens, q + 1, def).value.0;
      MatchesArgsCons(tokens, i, a, rest);
    } else {
      assert RenderArgs([a]) == RenderArg(a);
    }
  }

  /** Every argument the loop returns is well formed. */
  lemma {:induction false} ParseArgsWellFormed(tokens: seq<string>, i: nat, def: string)
    requires ParseArgs(tokens, i, def).Ok?
    ensures var args := ParseArgs(tokens, i, def).value.0;
      forall k :: 0 <= k < |args| ==> WellFormedArg(args[k])
    decreases |tokens| - i
  {
    ParseArgsInversion(tokens, i, def);
    var (a, q) := ParseArg(tokens, i, def).value;
    ParseArgSound(tokens, i, def);
    if tokens[q] == "," {
      ParseArgsWellFormed(tokens, q + 1, def);
      var rest := ParseArgs(tokens, q + 1, def).value.0;
      var args := [a] + rest;
      forall k | 0 <= k < |args|
        ensures WellFormedArg(args[k])
      {
        if k > 0 { assert args[k] == rest[k - 1]; }
      }
    }
  }

  /** Each argument the loop returns is read from its own tokens: from `i` up
      to the closing `)` the tokens are exactly the rendering of the arguments. */
  lemma ParseArgsSound(tokens: seq<string>, i: nat, def: string)
    requires ParseArgs(tokens, i, def).Ok?
    ensures var (args, j) := ParseArgs(tokens, i, def).value;
      && |args| >= 1 && j < |tokens| && tokens[j] == ")"
      && j == i + |RenderArgs(args)| && Matches(tokens, i, RenderArgs(args))
      && forall k :: 0 <= k < |args| ==> WellFormedArg(args[k])
  {
    ParseArgsMatch(tokens, i, def);
    ParseArgsWellFormed(tokens, i, def);
  }

  /** The tokens of an argument list followed by `)`: the first argument,
      then `,` and the rest, or `)`. */
  lemma {:induction false} MatchesArgs(tokens: seq<string>, i: nat, args: seq<Arg>)
    requires |args| >= 1
    requires Matches(tokens, i, RenderArgs(args) + [")"])
    ensures var q := i + |RenderArg(args[0])|;
      && Matches(tokens, i, RenderArg(args[0])) && q < |tokens|
      && (|args| == 1 ==> tokens[q] == ")")
      && (|args| >= 2 ==> tokens[q] == "," && Matches(tokens, q + 1, RenderArgs(args[1..]) + [")"]))
  {
    var ra := RenderArg(args[0]);
    var q := i + |ra|;
    if |args| >= 2 {
      var rr := RenderArgs(args[1..]);
      RenderArgsCons(args);
      assert RenderArgs(args) + [")"] == ra + ([","] + (rr + [")"]));
      MatchesAppend(tokens, i, ra, [","] + (rr + [")"]));
      MatchesAppend(tokens, q, [","], rr + [")"]);
    } else {
      assert RenderArgs(args) + [")"] == ra + [")"];
      MatchesAppend(tokens, i, ra, [")"]);
    }
  }

  /** The last argument of a list is read back. */
  lemma {:induction false} ParseArgsCompleteLast(tokens: seq<string>, i: nat, a: Arg, def: string)
    requires WellFormedArg(a)
    requires Matches(tokens, i, RenderArgs([a]) + [")"])
    ensures ParseArgs(tokens, i, def) == Ok(([a], i + |RenderArgs([a])|))
  {
    MatchesArgs(tokens, i, [a]);
    ParseArgRendered(tokens, i, a, def);
  }

  lemma WellFormedTail(args: seq<Arg>)
    requires |args| >= 1 && forall k :: 0 <= k < |args| ==> WellFormedArg(args[k])
    ensures WellFormedArg(args[0]) && forall k :: 0 <= k < |args[1..]| ==> WellFormedArg(args[1..][k])
  {
    forall k | 0 <= k < |args[1..]|
      ensures WellFormedArg(args[1..][k])
    {
      assert args[1..][k] == args[k + 1];
    }
  }

  /** The loop reads back any well-formed argument list followed by `)`,
      stopping at that `)` (index `j`). */
  lemma {:induction false} ParseArgsComplete(tokens: seq<string>, i: nat, args: seq<Arg>, def: string, j: nat)
    requires |args| >= 1
    requires forall k :: 0 <= k < |args| ==> WellFormedArg(args[k])
    requires Matches(tokens, i, RenderArgs(args) + [")"])
    requires j == i + |RenderArgs(args)|
    ensures ParseArgs(tokens, i, def) == Ok((args, j))
    decreases |args|
  {
    WellFormedTail(args);
    if |args| >= 2 {
      var q: nat := i + |RenderArg(args[0])|;
      var rest := args[1..];
      MatchesArgs(tokens, i, args);
      ParseArgRendered(tokens, i, args[0], def);
      RenderArgsCons(args);
      assert |RenderArgs(args)| == |RenderArg(args[0])| + 1 + |RenderArgs(rest)|;
      ParseArgsComplete(tokens, q + 1, rest, def, j);
      ParseArgsCons(tokens, i, def, args[0], q, rest, j);
      assert [args[0]] + rest == args;
    } else {
      assert args == [args[0]];
      ParseArgsCompleteLast(tokens, i, args[0], def);
    }
  }

  // ---------------------------------------------------------------------
  // Results

  /** Every result the loop returns is unlabelled and erases to `Tensor`, and
      there is at least one. */
  lemma {:induction false} ParseResultListSound(tokens: seq<string>, i: nat, def: string)
    requires ParseResultList(tokens, i, def).Ok?
    ensures var results := ParseResultList(tokens, i, def).value;
      && |results| >= 1
      && forall k :: 0 <= k < |results| ==> results[k].name == "" && WellFormedResult(results[k])
    decreases |tokens| - i
  {
    var (res, q) := ParseResult(tokens, i, def).value;
    if tokens[q] != ")" {
      ParseResultListSound(tokens, q + 1, def);
      var rest := ParseResultList(tokens, q + 1, def).value;
      var results := ParseResultList(tokens, i, def).value;
      assert results == [res] + rest;
      forall k | 0 <= k < |results|
        ensures results[k].name == "" && WellFormedResult(results[k])
      {
        if k > 0 { assert results[k] == rest[k - 1]; }
      }
    }
  }

  /** The labels of a result list dropped. */
  function ClearLabels(results: seq<ResultSpec>): (cleared: seq<ResultSpec>)
    ensures |cleared| == |results|
    ensures forall k :: 0 <= k < |results| ==> cleared[k] == ResultSpec("", results[k].rawType)
  {
    if results == [] then [] else [ResultSpec("", results[0].rawType)] + ClearLabels(results[1..])
  }

  /** A rendered result is read back without its label. */
  lemma {:induction false} ParseResultRendered(tokens: seq<string>, i: nat, r: ResultSpec, next: string, def: string)
    requires WellFormedResult(r) && next != ":"
    requires Matches(tokens, i, RenderResult(r) + [next])
    ensures ParseResult(tokens, i, def) == Ok((ResultSpec("", r.rawType), i + |RenderResult(r)|))
  {
    var w := RenderResult(r) + [next];
    MatchesPointwise(tokens, i, w);
    if r.name == "" {
      assert tokens[i] == w[0] && tokens[i + 1] == w[1];
    } else {
      assert tokens[i] == w[0] && tokens[i + 1] == w[1] && tokens[i + 2] == w[2];
    }
  }

  /** The tokens of a result list followed by `)`: the first result, then
      `,` and the rest, or `)`. */
  lemma {:induction false} MatchesResults(tokens: seq<string>, i: nat, results: seq<ResultSpec>)
    requires |results| >= 1
    requires Matches(tokens, i, RenderResultList(results) + [")"])
    ensures var q := i + |RenderResult(results[0])|;
      && q < |tokens|
      && (|results| == 1 ==> tokens[q] == ")" && Matches(tokens, i, RenderResult(results[0]) + [")"]))
      && (|results| >= 2 ==> tokens[q] == "," && Matches(tokens, i, RenderResult(results[0]) + [","])
                             && Matches(tokens, q + 1, RenderResultList(results[1..]) + [")"]))
  {
    var rr := RenderResult(results[0]);
    var q := i + |rr|;
    if |results| >= 2 {
      var tail := RenderResultList(results[1..]);
      assert RenderResultList(results) + [")"] == (rr + [","]) + (tail + [")"]);
      MatchesAppend(tokens, i, rr + [","], tail + [")"]);
      MatchesAppend(tokens, i, rr, [","]);
      MatchesHead(tokens, q, [","]);
    } else {
      assert RenderResultList(results) + [")"] == rr + [")"];
      MatchesAppend(tokens, i, rr, [")"]);
      MatchesHead(tokens, q, [")"]);
    }
  }

  /** Two turns of the result loop put together. */
  lemma ParseResultListCons(tokens: seq<string>, i: nat, def: string, r: ResultSpec, q: nat, rest: seq<ResultSpec>)
    requires ParseResult(tokens, i, def) == Ok((r, q))
    requires q < |tokens| && tokens[q] == ","
    requires ParseResultList(tokens, q + 1, def) == Ok(rest)
    ensures ParseResultList(tokens, i, def) == Ok([r] + rest)
  {
  }

  /** The loop reads back a rendered result list followed by `)`, dropping the labels. */
  lemma {:induction false} ParseResultListComplete(tokens: seq<string>, i: nat, results: seq<ResultSpec>, def: string)
    requires |results| >= 1
    requires forall k :: 0 <= k < |results| ==> WellFormedResult(results[k])
    requires Matches(tokens, i, RenderResultList(results) + [")"])
    ensures ParseResultList(tokens, i, def) == Ok(ClearLabels(results))
    decreases |results|
  {
    var r := results[0];
    var q := i + |RenderResult(r)|;
    MatchesResults(tokens, i, results);
    if |results| >= 2 {
      var rest := results[1..];
      ParseResultRendered(tokens, i, r, ",", def);
      assert forall k :: 0 <= k < |rest| ==> WellFormedResult(rest[k]) by {
        forall k | 0 <= k < |rest|
          ensures WellFormedResult(rest[k])
        {
          assert rest[k] == results[k + 1];
        }
      }
      ParseResultListComplete(tokens, q + 1, rest, def);
      ParseResultListCons(tokens, i, def, ResultSpec("", r.rawType), q, ClearLabels(rest));
      assert ClearLabels(results) == [ResultSpec("", r.rawType)] + ClearLabels(rest);
    } else {
      ParseResultRendered(tokens, i, r, ")", def);
      assert ClearLabels(results) == [ResultSpec("", r.rawType)];
    }
  }

  // ---------------------------------------------------------------------
  // Whole declarations

  /** The declaration as the parser stores it: result labels dropped. */
  function Unlabelled(d: Decl): (u: Decl)
    ensures u.cName == d.cName && u.args == d.args && u.results == ClearLabels(d.results)
  {
    Decl(d.cName, d.args, ClearLabels(d.results))
  }

  /** The tokens of a declaration: name, `(`, the arguments and `)`, `->`, results. */
  lemma {:induction false} MatchesDecl(tokens: seq<string>, d: Decl)
    requires Matches(tokens, 0, RenderDecl(d))
    ensures var close := 2 + |RenderArgs(d.args)|;
      && close + 1 < |tokens| && tokens[0] == d.cName && tokens[1] == "("
      && Matches(tokens, 2, RenderArgs(d.args) + [")"])
      && tokens[close + 1] == "->"
      && Matches(tokens, close + 2, RenderResults(d.results))
  {
    var ra := RenderArgs(d.args);
    var rs := RenderResults(d.results);
    assert RenderDecl(d) == [d.cName, "("] + ((ra + [")"]) + (["->"] + rs));
    MatchesAppend(tokens, 0, [d.cName, "("], (ra + [")"]) + (["->"] + rs));
    MatchesHead(tokens, 0, [d.cName, "("]);
    MatchesHead(tokens, 1, ["("]);
    MatchesAppend(tokens, 2, ra + [")"], ["->"] + rs);
    MatchesAppend(tokens, 2 + |ra| + 1, ["->"], rs);
    MatchesHead(tokens, 2 + |ra| + 1, ["->"] + rs);
  }

  /** The argument part of a rendered declaration is read back. */
  lemma {:induction false} ParseRenderedArgs(tokens: seq<string>, d: Decl, def: string)
    requires WellFormedDecl(d)
    requires Matches(tokens, 2, RenderArgs(d.args) + [")"])
    ensures 2 < |tokens|
    ensures (if tokens[2] == ")" then Ok(([], 2)) else ParseArgs(tokens, 2, def))
         == Ok((d.args, 2 + |RenderArgs(d.args)|))
  {
    var ra := RenderArgs(d.args);
    MatchesHead(tokens, 2, ra + [")"]);
    if |d.args| != 0 {
      assert ra[0] == (if d.args[0].explicit then d.args[0].name else "_") by {
        if |d.args| >= 2 { RenderArgsCons(d.args); }
      }
      ParseArgsComplete(tokens, 2, d.args, def, 2 + |ra|);
    }
  }

  /** The result part of a rendered declaration is read back without labels. */
  lemma {:induction false} ParseRenderedResults(tokens: seq<string>, i: nat, results: seq<ResultSpec>, def: string)
    requires |results| >= 1 && forall k :: 0 <= k < |results| ==> WellFormedResult(results[k])
    requires Matches(tokens, i, RenderResults(results))
    ensures ParseResults(tokens, i, def) == Ok(ClearLabels(results))
  {
    var rs := RenderResults(results);
    MatchesHead(tokens, i, rs);
    if |results| == 1 && results[0].name == "" {
      var t := results[0].rawType;
      assert t != "(" by { assert EraseGenerics(t) == "Tensor"; }
      assert ClearLabels(results) == [ResultSpec("", t)];
    } else {
      var rl := RenderResultList(results);
      assert rs == ["("] + (rl + [")"]);
      MatchesAppend(tokens, i, ["("], rl + [")"]);
      ParseResultListComplete(tokens, i + 1, results, def);
    }
  }

  /** The walk put together from its parts. */
  lemma ParseTokensParts(tokens: seq<string>, def: string, args: seq<Arg>, close: nat, results: seq<ResultSpec>)
    requires 2 < |tokens| && tokens[1] == "("
    requires (if tokens[2] == ")" then Ok(([], 2)) else ParseArgs(tokens, 2, def)) == Ok((args, close))
    requires close + 1 < |tokens| && tokens[close + 1] == "->"
    requires ParseResults(tokens, close + 2, def) == Ok(results)
    ensures ParseTokens(tokens, def) == Ok(Decl(tokens[0], args, results))
  {
  }

  /** Render, then parse: the declaration comes back with its result labels
      dropped, whatever tokens follow it. */
  lemma {:induction false} ParseRenderedDecl(tokens: seq<string>, d: Decl, def: string)
    requires WellFormedDecl(d)
    requires Matches(tokens, 0, RenderDecl(d))
    ensures ParseTokens(tokens, def) == Ok(Unlabelled(d))
  {
    var close := 2 + |RenderArgs(d.args)|;
    MatchesDecl(tokens, d);
    ParseRenderedArgs(tokens, d, def);
    ParseRenderedResults(tokens, close + 2, d.results, def);
    ParseTokensParts(tokens, def, d.args, close, ClearLabels(d.results));
  }

  /** The same at the level of text: writing the tokens out with blanks and
      parsing the string gives the unlabelled declaration. */
  lemma {:induction false} ParseRenderedText(d: Decl)
    requires WellFormedDecl(d)
    requires forall k :: 0 <= k < |RenderDecl(d)| ==> IsToken(RenderDecl(d)[k])
    ensures ParseDef(Spaced(RenderDecl(d))) == Ok(Unlabelled(d))
  {
    TokenizeSpaced(RenderDecl(d));
    MatchesSuffix(RenderDecl(d), 0);
    assert RenderDecl(d)[0..] == RenderDecl(d);
    ParseRenderedDecl(RenderDecl(d), d, Spaced(RenderDecl(d)));
  }

  /** Every result a successful parse of the results returns is unlabelled
      and erases to `Tensor`, and there is at least one. */
  lemma {:induction false} ParseResultsSound(tokens: seq<string>, i: nat, def: string)
    requires ParseResults(tokens, i, def).Ok?
    ensures var results := ParseResults(tokens, i, def).value;
      && |results| >= 1
      && forall k :: 0 <= k < |results| ==> results[k].name == "" && WellFormedResult(results[k])
  {
    if tokens[i] == "(" {
      ParseResultListSound(tokens, i + 1, def);
    }
  }

  /** What a successful walk reads, part by part. */
  lemma ParseTokensInversion(tokens: seq<string>, def: string)
    requires ParseTokens(tokens, def).Ok?
    ensures |tokens| >= 3 && tokens[1] == "("
    ensures tokens[2] != ")" ==> ParseArgs(tokens, 2, def).Ok?
    ensures var parsed := if tokens[2] == ")" then ([], 2) else ParseArgs(tokens, 2, def).value;
      && parsed.1 + 2 <= |tokens|
      && ParseResults(tokens, parsed.1 + 2, def).Ok?
      && ParseTokens(tokens, def).value == Decl(tokens[0], parsed.0, ParseResults(tokens, parsed.1 + 2, def).value)
  {
  }

  /** What a successful parse tells about the tokens: the name is token 0,
      `(` is token 1, the arguments are read from their own tokens, and the
      results are one or more unlabelled types that erase to `Tensor`. */
  lemma {:induction false} ParseTokensSound(tokens: seq<string>, def: string)
    requires ParseTokens(tokens, def).Ok?
    ensures var d := ParseTokens(tokens, def).value;
      && |tokens| >= 3 && d.cName == tokens[0] && tokens[1] == "("
      && Matches(tokens, 2, RenderArgs(d.args))
      && WellFormedDecl(d)
      && forall k :: 0 <= k < |d.results| ==> d.results[k].name == ""
  {
    ParseTokensInversion(tokens, def);
    if tokens[2] != ")" {
      ParseArgsSound(tokens, 2, def);
    }
    var parsed := if tokens[2] == ")" then ([], 2) else ParseArgs(tokens, 2, def).value;
    ParseResultsSound(tokens, parsed.1 + 2, def);
  }

  // ---------------------------------------------------------------------
  // Failures

  lemma {:induction false} ParseArgsErrors(tokens: seq<string>, i: nat, def: string)
    requires ParseArgs(tokens, i, def).Err?
    ensures ParseArgs(tokens, i, def).error in {InvalidFormat(def), IndexOutOfRange}
    decreases |tokens| - i
  {
    ParseArgsFailure(tokens, i, def);
    var one := ParseArg(tokens, i, def);
    if one.Err? {
      ParseArgErrors(tokens, i, def);
    } else if one.value.1 < |tokens| && tokens[one.value.1] == "," {
      ParseArgsErrors(tokens, one.value.1 + 1, def);
    }
  }

  /** One turn of a failing argument loop: the argument fails, or what
      follows it is missing or wrong, or the rest of the loop fails. */
  lemma ParseArgsFailure(tokens: seq<string>, i: nat, def: string)
    requires ParseArgs(tokens, i, def).Err?
    ensures var one := ParseArg(tokens, i, def); var e := ParseArgs(tokens, i, def).error;
      || (one.Err? && e == one.error)
      || (one.Ok? && one.value.1 >= |tokens| && e == IndexOutOfRange)
      || (one.Ok? && one.value.1 < |tokens| && tokens[one.value.1] != "," && e == InvalidFormat(def))
      || (one.Ok? && one.value.1 < |tokens| && tokens[one.value.1] == ","
          && ParseArgs(tokens, one.value.1 + 1, def).Err? && e == ParseArgs(tokens, one.value.1 + 1, def).error)
  {
  }

  lemma ParseArgErrors(tokens: seq<string>, i: nat, def: string)
    requires ParseArg(tokens, i, def).Err?
    ensures ParseArg(tokens, i, def).error in {InvalidFormat(def), IndexOutOfRange}
  {
  }

  lemma {:induction false} ParseResultListErrors(tokens: seq<string>, i: nat, def: string)
    requires ParseResultList(tokens, i, def).Err?
    ensures ParseResultList(tokens, i, def).error in {InvalidFormat(def), IndexOutOfRange}
    decreases |tokens| - i
  {
    var one := ParseResult(tokens, i, def);
    if one.Ok? && one.value.1 < |tokens| && tokens[one.value.1] == "," {
      ParseResultListErrors(tokens, one.value.1 + 1, def);
    }
  }

  /** A token list is either parsed or rejected with `InvalidFormat` quoting
      the signature text, or with the `IndexOutOfRange` of running off the
      tokens. */
  lemma {:induction false} ParseTokensErrors(tokens: seq<string>, def: string)
    requires ParseTokens(tokens, def).Err?
    ensures ParseTokens(tokens, def).error in {InvalidFormat(def), IndexOutOfRange}
  {
    if |tokens| > 2 && tokens[1] == "(" {
      if tokens[2] != ")" && ParseArgs(tokens, 2, def).Err? {
        ParseArgsErrors(tokens, 2, def);
      } else {
        var close := if tokens[2] == ")" then 2 else ParseArgs(tokens, 2, def).value.1;
        var i := close + 2;
        if i < |tokens| && tokens[close + 1] == "->" && tokens[i] == "(" {
          if ParseResultList(tokens, i + 1, def).Err? {
            ParseResultListErrors(tokens, i + 1, def);
          }
        }
      }
    }
  }

  /** A signature is either parsed or rejected with `InvalidFormat` quoting
      its text, or with the `IndexOutOfRange` of running off the tokens. */
  lemma ParseErrors(def: string)
    requires ParseDef(def).Err?
    ensures ParseDef(def).error in {InvalidFormat(def), IndexOutOfRange}
  {
    ParseTokensErrors(Tokenize(def), def);
  }
}
