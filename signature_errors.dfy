/** Where and how the signature parser rejects its tokens: each check of the
    argument and result loops at any position, the checks of the
    declaration around them, and the `IndexOutOfRange` of a declaration cut
    short anywhere. */
module SignatureErrors {
  import opened Wrappers
  import opened Tokenizer
  import opened Signature
  import opened SignatureFacts

  // ---------------------------------------------------------------------
  // One argument, one result

  /** One argument from any index: the optional `_` is skipped, then the
      `:` is checked, then the name, then the type. Each check that fails
      raises `InvalidFormat`, each token that is missing `IndexOutOfRange`. */
  lemma ArgSyntaxErrors(tokens: seq<string>, i: nat, def: string)
    ensures var p := if i < |tokens| && tokens[i] == "_" then i + 1 else i;
      var r := ParseArg(tokens, i, def);
      && (p + 1 >= |tokens| ==> r == Err(IndexOutOfRange))
      && (p + 1 < |tokens| && tokens[p + 1] != ":" ==> r == Err(InvalidFormat(def)))
      && (p + 1 < |tokens| && !IsWord(tokens[p]) ==> r == Err(InvalidFormat(def)))
      && (p + 1 < |tokens| && tokens[p + 1] == ":" && IsWord(tokens[p]) && p + 2 == |tokens|
          ==> r == Err(IndexOutOfRange))
      && (p + 2 < |tokens| && !IsWord(tokens[p + 2]) ==> r == Err(InvalidFormat(def)))
      && (p + 2 < |tokens| && tokens[p + 1] == ":" && IsWord(tokens[p]) && IsWord(tokens[p + 2])
          ==> r == Ok((Arg(tokens[p], EraseGenerics(tokens[p + 2]), p == i, tokens[p + 2]), p + 3)))
  {
  }

  /** One result from any index: a `:` after the first token makes it a
      label; the type must then erase to `Tensor`. */
  lemma ResultSyntaxErrors(tokens: seq<string>, i: nat, def: string)
    ensures var r := ParseResult(tokens, i, def);
      && (i + 1 >= |tokens| ==> r == Err(IndexOutOfRange))
      && (i + 1 < |tokens| ==>
            var p := if tokens[i + 1] == ":" then i + 2 else i;
            && (p >= |tokens| ==> r == Err(IndexOutOfRange))
            && (p < |tokens| && EraseGenerics(tokens[p]) != "Tensor" ==> r == Err(InvalidFormat(def)))
            && (p < |tokens| && EraseGenerics(tokens[p]) == "Tensor" ==> r == Ok((ResultSpec("", tokens[p]), p + 1))))
  {
  }

  // ---------------------------------------------------------------------
  // One turn of each loop

  /** One turn of the argument loop: a failing argument fails the loop;
      after an argument, a missing token is an `IndexOutOfRange`, a token
      other than `)` and `,` is `InvalidFormat`, and `,` goes on. */
  lemma ArgsStep(tokens: seq<string>, i: nat, def: string)
    ensures var one := ParseArg(tokens, i, def); var r := ParseArgs(tokens, i, def);
      && (one.Err? ==> r == Err(one.error))
      && (one.Ok? && one.value.1 >= |tokens| ==> r == Err(IndexOutOfRange))
      && (one.Ok? && one.value.1 < |tokens| && tokens[one.value.1] != ")" && tokens[one.value.1] != ","
          ==> r == Err(InvalidFormat(def)))
      && (one.Ok? && one.value.1 < |tokens| && tokens[one.value.1] == ","
          ==> r == PrependArgs([one.value.0], ParseArgs(tokens, one.value.1 + 1, def)))
  {
  }

  /** One turn of the result loop, in the same shape. */
  lemma ResultListStep(tokens: seq<string>, i: nat, def: string)
    ensures var one := ParseResult(tokens, i, def); var r := ParseResultList(tokens, i, def);
      && (one.Err? ==> r == Err(one.error))
      && (one.Ok? && one.value.1 >= |tokens| ==> r == Err(IndexOutOfRange))
      && (one.Ok? && one.value.1 < |tokens| && tokens[one.value.1] != ")" && tokens[one.value.1] != ","
          ==> r == Err(InvalidFormat(def)))
      && (one.Ok? && one.value.1 < |tokens| && tokens[one.value.1] == ","
          ==> r == PrependResults([one.value.0], ParseResultList(tokens, one.value.1 + 1, def)))
  {
  }

  lemma PrependArgsAssoc(xs: seq<Arg>, ys: seq<Arg>, r: Result<(seq<Arg>, nat)>)
    ensures PrependArgs(xs, PrependArgs(ys, r)) == PrependArgs(xs + ys, r)
  {
    if r.Ok? {
      assert xs + (ys + r.value.0) == (xs + ys) + r.value.0;
    }
  }

  lemma PrependResultsAssoc(xs: seq<ResultSpec>, ys: seq<ResultSpec>, r: Result<seq<ResultSpec>>)
    ensures PrependResults(xs, PrependResults(ys, r)) == PrependResults(xs + ys, r)
  {
    if r.Ok? {
      assert xs + (ys + r.value) == (xs + ys) + r.value;
    }
  }

  // ---------------------------------------------------------------------
  // Past well-formed entries

  /** Well-formed arguments each followed by `,`: the first argument, its
      `,`, and the others after it. */
  lemma {:induction false} MatchesArgsComma(tokens: seq<string>, i: nat, good: seq<Arg>)
    requires |good| >= 1
    requires Matches(tokens, i, RenderArgs(good) + [","])
    ensures var q := i + |RenderArg(good[0])|;
      && Matches(tokens, i, RenderArg(good[0])) && q < |tokens| && tokens[q] == ","
      && (|good| == 1 ==> |RenderArgs(good)| == |RenderArg(good[0])|)
      && (|good| >= 2 ==> Matches(tokens, q + 1, RenderArgs(good[1..]) + [","])
                          && |RenderArgs(good)| == |RenderArg(good[0])| + 1 + |RenderArgs(good[1..])|)
  {
    var ra := RenderArg(good[0]);
    var q := i + |ra|;
    if |good| == 1 {
      assert RenderArgs(good) + [","] == ra + [","];
      MatchesAppend(tokens, i, ra, [","]);
    } else {
      var rr := RenderArgs(good[1..]);
      RenderArgsCons(good);
      assert RenderArgs(good) + [","] == ra + ([","] + (rr + [","]));
      MatchesAppend(tokens, i, ra, [","] + (rr + [","]));
      MatchesAppend(tokens, q, [","], rr + [","]);
    }
    MatchesHead(tokens, q, [","]);
  }

  lemma ArgsComma(tokens: seq<string>, i: nat, def: string, a: Arg, q: nat)
    requires ParseArg(tokens, i, def) == Ok((a, q))
    requires q < |tokens| && tokens[q] == ","
    ensures ParseArgs(tokens, i, def) == PrependArgs([a], ParseArgs(tokens, q + 1, def))
  {
    ArgsStep(tokens, i, def);
  }

  /** The argument loop passes over well-formed arguments each followed by
      `,`: whatever comes after them decides the outcome, and the arguments
      passed are put in front. */
  lemma {:induction false} ParseArgsSkip(tokens: seq<string>, i: nat, good: seq<Arg>, def: string, j: nat)
    requires |good| >= 1 && forall k :: 0 <= k < |good| ==> WellFormedArg(good[k])
    requires Matches(tokens, i, RenderArgs(good) + [","])
    requires j == i + |RenderArgs(good)| + 1
    ensures ParseArgs(tokens, i, def) == PrependArgs(good, ParseArgs(tokens, j, def))
    decreases |good|
  {
    var a := good[0];
    var q := i + |RenderArg(a)|;
    WellFormedTail(good);
    MatchesArgsComma(tokens, i, good);
    ParseArgRendered(tokens, i, a, def);
    ArgsComma(tokens, i, def, a, q);
    if |good| == 1 {
      assert good == [a];
    } else {
      var rest := good[1..];
      ParseArgsSkip(tokens, q + 1, rest, def, j);
      PrependArgsAssoc([a], rest, ParseArgs(tokens, j, def));
      assert [a] + rest == good;
    }
  }

  /** The result loop passes over well-formed results each followed by `,`,
      dropping their labels. */
  lemma {:induction false} ParseResultListSkip(tokens: seq<string>, i: nat, good: seq<ResultSpec>, def: string, j: nat)
    requires |good| >= 1 && forall k :: 0 <= k < |good| ==> WellFormedResult(good[k])
    requires Matches(tokens, i, RenderResultList(good) + [","])
    requires j == i + |RenderResultList(good)| + 1
    ensures ParseResultList(tokens, i, def) == PrependResults(ClearLabels(good), ParseResultList(tokens, j, def))
    decreases |good|
  {
    var r := good[0];
    var rr := RenderResult(r);
    var q := i + |rr|;
    if |good| == 1 {
      assert RenderResultList(good) + [","] == rr + [","];
      ParseResultRendered(tokens, i, r, ",", def);
      MatchesAppend(tokens, i, rr, [","]);
      MatchesHead(tokens, q, [","]);
      ResultListStep(tokens, i, def);
      assert ClearLabels(good) == [ResultSpec("", r.rawType)];
    } else {
      var rest := good[1..];
      var tail := RenderResultList(rest);
      assert forall k :: 0 <= k < |rest| ==> WellFormedResult(rest[k]) by {
        forall k | 0 <= k < |rest|
          ensures WellFormedResult(rest[k])
        {
          assert rest[k] == good[k + 1];
        }
      }
      assert RenderResultList(good) + [","] == (rr + [","]) + (tail + [","]);
      MatchesAppend(tokens, i, rr + [","], tail + [","]);
      ParseResultRendered(tokens, i, r, ",", def);
      MatchesAppend(tokens, i, rr, [","]);
      MatchesHead(tokens, q, [","]);
      ResultListStep(tokens, i, def);
      ParseResultListSkip(tokens, q + 1, rest, def, j);
      PrependResultsAssoc([ResultSpec("", r.rawType)], ClearLabels(rest), ParseResultList(tokens, j, def));
      assert ClearLabels(good) == [ResultSpec("", r.rawType)] + ClearLabels(rest);
    }
  }

  // ---------------------------------------------------------------------
  // The declaration

  /** The opening of a declaration: the name and `(` must be there, the
      second token must be `(`, and a failing argument loop fails the
      declaration with its own error. */
  lemma SyntaxErrors(tokens: seq<string>, def: string)
    ensures |tokens| < 2 ==> ParseTokens(tokens, def) == Err(IndexOutOfRange)
    ensures |tokens| >= 2 && tokens[1] != "(" ==> ParseTokens(tokens, def) == Err(InvalidFormat(def))
    ensures |tokens| == 2 && tokens[1] == "(" ==> ParseTokens(tokens, def) == Err(IndexOutOfRange)
    ensures |tokens| > 2 && tokens[1] == "(" && tokens[2] != ")" && ParseArgs(tokens, 2, def).Err?
      ==> ParseTokens(tokens, def) == Err(ParseArgs(tokens, 2, def).error)
  {
  }

  /** After an argument list that closes at `c`, with or without arguments:
      `->` must follow, and then the results decide, a bare result that is
      not a tensor being `InvalidFormat`. */
  lemma ArrowErrors(tokens: seq<string>, def: string, args: seq<Arg>, c: nat)
    requires |tokens| > 2 && tokens[1] == "("
    requires (if tokens[2] == ")" then Ok(([], 2)) else ParseArgs(tokens, 2, def)) == Ok((args, c))
    ensures c + 1 >= |tokens| ==> ParseTokens(tokens, def) == Err(IndexOutOfRange)
    ensures c + 1 < |tokens| && tokens[c + 1] != "->" ==> ParseTokens(tokens, def) == Err(InvalidFormat(def))
    ensures c + 1 < |tokens| && tokens[c + 1] == "->" && ParseResults(tokens, c + 2, def).Err?
      ==> ParseTokens(tokens, def) == Err(ParseResults(tokens, c + 2, def).error)
    ensures c + 2 == |tokens| && tokens[c + 1] == "->" ==> ParseTokens(tokens, def) == Err(IndexOutOfRange)
    ensures c + 2 < |tokens| && tokens[c + 1] == "->" && tokens[c + 2] != "(" && EraseGenerics(tokens[c + 2]) != "Tensor"
      ==> ParseTokens(tokens, def) == Err(InvalidFormat(def))
    ensures c + 2 < |tokens| && tokens[c + 1] == "->" && tokens[c + 2] == "("
      ==> ParseResults(tokens, c + 2, def) == ParseResultList(tokens, c + 3, def)
  {
  }

  /** An argument after any number of well-formed ones: its own error is the
      declaration's error, and so is a token other than `)` or `,` after it. */
  lemma DeclArgErrors(tokens: seq<string>, def: string, good: seq<Arg>, j: nat)
    requires |tokens| > 2 && tokens[1] == "("
    requires forall k :: 0 <= k < |good| ==> WellFormedArg(good[k])
    requires good == [] ==> j == 2 && tokens[2] != ")"
    requires good != [] ==> Matches(tokens, 2, RenderArgs(good) + [","]) && j == 2 + |RenderArgs(good)| + 1
    ensures var one := ParseArg(tokens, j, def);
      && (one.Err? ==> ParseTokens(tokens, def) == Err(one.error))
      && (one.Ok? && one.value.1 >= |tokens| ==> ParseTokens(tokens, def) == Err(IndexOutOfRange))
      && (one.Ok? && one.value.1 < |tokens| && tokens[one.value.1] != ")" && tokens[one.value.1] != ","
          ==> ParseTokens(tokens, def) == Err(InvalidFormat(def)))
  {
    ArgsStep(tokens, j, def);
    if good != [] {
      ParseArgsSkip(tokens, 2, good, def, j);
      var ra := RenderArgs(good) + [","];
      MatchesHead(tokens, 2, ra);
      assert tokens[2] != ")" by {
        var a := good[0];
        assert ra[0] == RenderArg(a)[0] by {
          if |good| >= 2 { RenderArgsCons(good); }
        }
        assert ")"[0] == ')';
      }
    }
    SyntaxErrors(tokens, def);
  }

  /** A result of a parenthesised list after any number of well-formed
      ones: its own error is the declaration's error, and so is a token
      other than `)` or `,` after it. */
  lemma DeclResultErrors(tokens: seq<string>, def: string, args: seq<Arg>, c: nat, good: seq<ResultSpec>, j: nat)
    requires |tokens| > 2 && tokens[1] == "("
    requires (if tokens[2] == ")" then Ok(([], 2)) else ParseArgs(tokens, 2, def)) == Ok((args, c))
    requires c + 2 < |tokens| && tokens[c + 1] == "->" && tokens[c + 2] == "("
    requires forall k :: 0 <= k < |good| ==> WellFormedResult(good[k])
    requires good == [] ==> j == c + 3
    requires good != [] ==> Matches(tokens, c + 3, RenderResultList(good) + [","])
                            && j == c + 3 + |RenderResultList(good)| + 1
    ensures var one := ParseResult(tokens, j, def);
      && (one.Err? ==> ParseTokens(tokens, def) == Err(one.error))
      && (one.Ok? && one.value.1 >= |tokens| ==> ParseTokens(tokens, def) == Err(IndexOutOfRange))
      && (one.Ok? && one.value.1 < |tokens| && tokens[one.value.1] != ")" && tokens[one.value.1] != ","
          ==> ParseTokens(tokens, def) == Err(InvalidFormat(def)))
  {
    ResultListStep(tokens, j, def);
    if good != [] {
      ParseResultListSkip(tokens, c + 3, good, def, j);
    }
    ArrowErrors(tokens, def, args, c);
  }

  // ---------------------------------------------------------------------
  // A declaration cut short

  lemma MatchesTake(tokens: seq<string>, i: nat, r: seq<string>, n: nat)
    requires Matches(tokens, i, r) && i + |r| <= n <= |tokens|
    ensures Matches(tokens[..n], i, r)
  {
    MatchesPointwise(tokens, i, r);
    MatchesPointwise(tokens[..n], i, r);
  }

  /** A rendered argument cut short runs off the end. */
  lemma ArgCut(full: seq<string>, i: nat, a: Arg, n: nat, def: string)
    requires WellFormedArg(a) && Matches(full, i, RenderArg(a))
    requires i <= n < i + |RenderArg(a)| && n <= |full|
    ensures ParseArg(full[..n], i, def) == Err(IndexOutOfRange)
  {
    var ra := RenderArg(a);
    MatchesPointwise(full, i, ra);
    if a.explicit {
      assert ra == [a.name, ":", a.rawType];
      assert full[i] == ra[0] && full[i + 1] == ra[1];
    } else {
      assert ra == ["_", a.name, ":", a.rawType];
      assert full[i] == ra[0] && full[i + 1] == ra[1] && full[i + 2] == ra[2];
    }
  }

  /** A rendered argument list cut before its `)` runs off the end. */
  lemma {:induction false} ArgsCut(full: seq<string>, i: nat, args: seq<Arg>, n: nat, def: string)
    requires |args| >= 1 && forall k :: 0 <= k < |args| ==> WellFormedArg(args[k])
    requires Matches(full, i, RenderArgs(args) + [")"])
    requires i <= n <= i + |RenderArgs(args)| && n <= |full|
    ensures ParseArgs(full[..n], i, def) == Err(IndexOutOfRange)
    decreases |args|
  {
    var toks := full[..n];
    var a := args[0];
    var q := i + |RenderArg(a)|;
    MatchesArgs(full, i, args);
    WellFormedTail(args);
    ArgsStep(toks, i, def);
    if n < q {
      ArgCut(full, i, a, n, def);
    } else {
      MatchesTake(full, i, RenderArg(a), n);
      ParseArgRendered(toks, i, a, def);
      if n > q {
        RenderArgsCons(args);
        ArgsCut(full, q + 1, args[1..], n, def);
      }
    }
  }

  /** A rendered result cut short runs off the end, or is read exactly up
      to the cut. */
  lemma ResultCut(full: seq<string>, i: nat, r: ResultSpec, next: string, n: nat, def: string)
    requires WellFormedResult(r) && next != ":"
    requires Matches(full, i, RenderResult(r) + [next])
    requires i <= n <= i + |RenderResult(r)| && n <= |full|
    ensures var one := ParseResult(full[..n], i, def);
      && (one.Err? ==> one.error == IndexOutOfRange)
      && (one.Ok? ==> one.value.1 == n)
  {
    var w := RenderResult(r) + [next];
    MatchesPointwise(full, i, w);
    if r.name == "" {
      assert full[i] == w[0];
    } else {
      assert full[i] == w[0] && full[i + 1] == w[1] && full[i + 2] == w[2];
    }
  }

  /** A rendered result list cut before its `)` runs off the end. */
  lemma {:induction false} ResultListCut(full: seq<string>, i: nat, results: seq<ResultSpec>, n: nat, def: string)
    requires |results| >= 1 && forall k :: 0 <= k < |results| ==> WellFormedResult(results[k])
    requires Matches(full, i, RenderResultList(results) + [")"])
    requires i <= n <= i + |RenderResultList(results)| && n <= |full|
    ensures ParseResultList(full[..n], i, def) == Err(IndexOutOfRange)
    decreases |results|
  {
    var toks := full[..n];
    var r := results[0];
    var q := i + |RenderResult(r)|;
    MatchesResults(full, i, results);
    ResultListStep(toks, i, def);
    if n <= q {
      ResultCut(full, i, r, full[q], n, def);
    } else {
      var rest := results[1..];
      assert RenderResultList(results) == RenderResult(r) + [","] + RenderResultList(rest);
      assert forall k :: 0 <= k < |rest| ==> WellFormedResult(rest[k]) by {
        forall k | 0 <= k < |rest|
          ensures WellFormedResult(rest[k])
        {
          assert rest[k] == results[k + 1];
        }
      }
      MatchesTake(full, i, RenderResult(r) + [","], n);
      ParseResultRendered(toks, i, r, ",", def);
      ResultListCut(full, q + 1, rest, n, def);
    }
  }

  /** Rendered results cut short run off the end. */
  lemma ResultsCut(full: seq<string>, i: nat, results: seq<ResultSpec>, n: nat, def: string)
    requires |results| >= 1 && forall k :: 0 <= k < |results| ==> WellFormedResult(results[k])
    requires Matches(full, i, RenderResults(results))
    requires i <= n < i + |RenderResults(results)| && n <= |full|
    ensures ParseResults(full[..n], i, def) == Err(IndexOutOfRange)
  {
    if n > i {
      var rl := RenderResultList(results);
      assert RenderResults(results) == ["("] + (rl + [")"]);
      MatchesAppend(full, i, ["("], rl + [")"]);
      MatchesHead(full, i, ["("]);
      ResultListCut(full, i + 1, results, n, def);
    }
  }

  /** A rendered declaration cut after its argument list, which closes at
      `c`, runs off the end. */
  lemma TruncatedResults(full: seq<string>, d: Decl, c: nat, n: nat, def: string)
    requires WellFormedDecl(d)
    requires c + 1 < |full| && full[1] == "(" && full[c + 1] == "->"
    requires Matches(full, c + 2, RenderResults(d.results)) && |full| == c + 2 + |RenderResults(d.results)|
    requires 2 < n && c < n < |full|
    requires (if full[..n][2] == ")" then Ok(([], 2)) else ParseArgs(full[..n], 2, def)) == Ok((d.args, c))
    ensures ParseTokens(full[..n], def) == Err(IndexOutOfRange)
  {
    ArrowErrors(full[..n], def, d.args, c);
    if n > c + 2 {
      ResultsCut(full, c + 2, d.results, n, def);
    }
  }

  /** A rendered argument list always opens with a word or `_`, never `)`. */
  lemma ArgsOpen(full: seq<string>, args: seq<Arg>)
    requires |args| >= 1 && WellFormedArg(args[0])
    requires Matches(full, 2, RenderArgs(args) + [")"])
    ensures 2 < |full| && full[2] != ")"
  {
    MatchesArgs(full, 2, args);
    MatchesHead(full, 2, RenderArg(args[0]));
    assert ")"[0] == ')';
  }

  /** A rendered declaration cut inside its argument list runs off the end. */
  lemma TruncatedInArgs(full: seq<string>, args: seq<Arg>, n: nat, def: string)
    requires |args| >= 1 && forall k :: 0 <= k < |args| ==> WellFormedArg(args[k])
    requires 2 + |RenderArgs(args)| < |full| && full[1] == "(" && Matches(full, 2, RenderArgs(args) + [")"])
    requires 2 < n <= 2 + |RenderArgs(args)|
    ensures ParseTokens(full[..n], def) == Err(IndexOutOfRange)
  {
    ArgsOpen(full, args);
    ArgsCut(full, 2, args, n, def);
    SyntaxErrors(full[..n], def);
  }

  /** A rendered declaration with arguments, cut after its `(`, runs off
      the end. */
  lemma TruncatedArgs(full: seq<string>, d: Decl, n: nat, def: string)
    requires WellFormedDecl(d) && d.args != []
    requires var c := 2 + |RenderArgs(d.args)|;
      && c + 1 < |full| && full[1] == "(" && full[c + 1] == "->"
      && Matches(full, 2, RenderArgs(d.args) + [")"])
      && Matches(full, c + 2, RenderResults(d.results)) && |full| == c + 2 + |RenderResults(d.results)|
    requires 2 < n < |full|
    ensures ParseTokens(full[..n], def) == Err(IndexOutOfRange)
  {
    var ra := RenderArgs(d.args);
    var c := 2 + |ra|;
    if n <= c {
      TruncatedInArgs(full, d.args, n, def);
    } else {
      ArgsOpen(full, d.args);
      MatchesTake(full, 2, ra + [")"], n);
      ParseArgsComplete(full[..n], 2, d.args, def, c);
      TruncatedResults(full, d, c, n, def);
    }
  }

  /** Every proper prefix of a rendered declaration's tokens makes the
      parser run off the end: the failure is an `IndexOutOfRange`, never
      `InvalidFormat`. */
  lemma TruncatedDecl(d: Decl, n: nat, def: string)
    requires WellFormedDecl(d) && n < |RenderDecl(d)|
    ensures ParseTokens(RenderDecl(d)[..n], def) == Err(IndexOutOfRange)
  {
    var full := RenderDecl(d);
    var ra := RenderArgs(d.args);
    assert |full| == 2 + |ra| + 2 + |RenderResults(d.results)|;
    MatchesSuffix(full, 0);
    assert full[0..] == full;
    MatchesDecl(full, d);
    if n <= 2 {
      SyntaxErrors(full[..n], def);
    } else if d.args == [] {
      MatchesHead(full, 2, ra + [")"]);
      TruncatedResults(full, d, 2, n, def);
    } else {
      TruncatedArgs(full, d, n, def);
    }
  }
}
