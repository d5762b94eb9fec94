/** The signature parser of `canonicalize_op` and `erase_generics`.

    A signature such as `add(x: Tensor, _ y: Tensor<T>) -> Tensor` is lexed
    by `Tokenizer.Tokenize` and walked with an index: first the name and `(`,
    then the argument list, then `->` and one result or a parenthesised list
    of results. Every malformed case raises `InvalidFormat` quoting the
    signature; reading past the last token raises `IndexOutOfRange`. */
module Signature {
  import opened Wrappers
  import opened Tokenizer

  /** One argument: `(name, erased type, (explicit label, raw type))` in the
      source. The parser stores the erasure of the raw type as the erased
      type. */
  datatype Arg = Arg(name: string, stype: string, explicit: bool, rawType: string)

  /** One result: `(name, raw type)`; the parser always stores an empty name. */
  datatype ResultSpec = ResultSpec(name: string, rawType: string)

  /** What the parser extracts from a signature. `n_results` is `|results|`. */
  datatype Decl = Decl(cName: string, args: seq<Arg>, results: seq<ResultSpec>)

  // ---------------------------------------------------------------------
  // erase_generics

  /** `\w+` restricted to ASCII. */
  predicate IsIdent(w: string)
  {
    |w| > 0 && forall k :: 0 <= k < |w| ==> IsIdentChar(w[k])
  }

  /** `re.fullmatch("Tensor<(\w+)>", t)`. */
  predicate IsGenericTensor(t: string)
  {
    |t| > 8 && t[0] == 'T' && t[1] == 'e' && t[2] == 'n' && t[3] == 's' && t[4] == 'o' && t[5] == 'r' && t[6] == '<'
    && t[|t| - 1] == '>' && forall k :: 7 <= k < |t| - 1 ==> IsIdentChar(t[k])
  }

  /** `re.fullmatch("\[Tensor<(\w+)>\]", t)`. */
  predicate IsGenericTensorList(t: string)
  {
    |t| > 10 && t[0] == '[' && IsGenericTensor(t[1..|t| - 1]) && t[|t| - 1] == ']'
  }

  /** The backend type of a raw type: a parameterised tensor or tensor list
      loses its parameter, every other type is left as it is. */
  function EraseGenerics(t: string): (erased: string)
    ensures erased == t || erased == "Tensor" || erased == "[Tensor]"
  {
    if IsGenericTensor(t) then "Tensor"
    else if IsGenericTensorList(t) then "[Tensor]"
    else t
  }

  /** `Tensor<W>` erases to `Tensor` and `[Tensor<W>]` to `[Tensor]`. */
  lemma EraseGenericInstances(w: string)
    requires IsIdent(w)
    ensures EraseGenerics("Tensor<" + w + ">") == "Tensor"
    ensures EraseGenerics("[Tensor<" + w + ">]") == "[Tensor]"
  {
    var t := "Tensor<" + w + ">";
    assert forall k :: 7 <= k < |t| - 1 ==> t[k] == w[k - 7];
    var l := "[Tensor<" + w + ">]";
    assert l[1..|l| - 1] == t;
  }

  /** Erasing twice is erasing once. */
  lemma EraseGenericsIdempotent(t: string)
    ensures EraseGenerics(EraseGenerics(t)) == EraseGenerics(t)
  {
  }

  /** A type erases to `Tensor` exactly when it is `Tensor` or `Tensor<W>`. */
  lemma EraseToTensor(t: string)
    ensures EraseGenerics(t) == "Tensor" <==> t == "Tensor" || IsGenericTensor(t)
  {
  }

  // ---------------------------------------------------------------------
  // The token walk, as functions of the token list and the current index.

  /** `tokens[i]`, or the `IndexError` Python raises past the end. */
  function At(tokens: seq<string>, i: nat): (r: Result<string>)
    ensures r.Ok? <==> i < |tokens|
  {
    if i < |tokens| then Ok(tokens[i]) else Err(IndexOutOfRange)
  }

  /** One argument from index `i` on: an optional `_`, the name, `:` and the
      type. Gives the argument and the index just after its type. */
  function ParseArg(tokens: seq<string>, i: nat, def: string): (r: Result<(Arg, nat)>)
    ensures r.Ok? ==> i + 3 <= r.value.1 <= |tokens|
  {
    var first :- At(tokens, i);
    var explicit := first != "_";
    var p := if explicit then i else i + 1;
    var colon :- At(tokens, p + 1);
    if colon != ":" then Err(InvalidFormat(def))
    else if !IsWord(tokens[p]) then Err(InvalidFormat(def))
    else
      var ty :- At(tokens, p + 2);
      if !IsWord(ty) then Err(InvalidFormat(def))
      else Ok((Arg(tokens[p], EraseGenerics(ty), explicit, ty), p + 3))
  }

  /** The argument loop from index `i` (the start of an argument) on: the
      arguments read and the index of the closing `)`. */
  function ParseArgs(tokens: seq<string>, i: nat, def: string): Result<(seq<Arg>, nat)>
    decreases |tokens| - i
  {
    var one :- ParseArg(tokens, i, def);
    var next :- At(tokens, one.1);
    if next == ")" then Ok(([one.0], one.1))
    else if next != "," then Err(InvalidFormat(def))
    else
      var rest :- ParseArgs(tokens, one.1 + 1, def);
      Ok(([one.0] + rest.0, rest.1))
  }

  /** One result from index `i` on: an optional label and `:`, then a type
      that must erase to `Tensor`. Gives the result and the index after it. */
  function ParseResult(tokens: seq<string>, i: nat, def: string): (r: Result<(ResultSpec, nat)>)
    ensures r.Ok? ==> i + 1 <= r.value.1 <= |tokens|
  {
    var look :- At(tokens, i + 1);
    var p := if look == ":" then i + 2 else i;   // a label is skipped
    var ty :- At(tokens, p);
    if EraseGenerics(ty) != "Tensor" then Err(InvalidFormat(def))
    else Ok((ResultSpec("", ty), p + 1))
  }

  /** The parenthesised result loop from index `i` (the start of a result) on. */
  function ParseResultList(tokens: seq<string>, i: nat, def: string): Result<seq<ResultSpec>>
    decreases |tokens| - i
  {
    var one :- ParseResult(tokens, i, def);
    var next :- At(tokens, one.1);
    if next == ")" then Ok([one.0])
    else if next != "," then Err(InvalidFormat(def))
    else
      var rest :- ParseResultList(tokens, one.1 + 1, def);
      Ok([one.0] + rest)
  }

  /** The results after `->`: one bare type or a parenthesised list. */
  function ParseResults(tokens: seq<string>, i: nat, def: string): Result<seq<ResultSpec>>
  {
    var first :- At(tokens, i);
    if first == "(" then ParseResultList(tokens, i + 1, def)
    else if EraseGenerics(first) != "Tensor" then Err(InvalidFormat(def))
    else Ok([ResultSpec("", first)])
  }

  /** The whole walk over a token list; tokens after the results are ignored. */
  function ParseTokens(tokens: seq<string>, def: string): Result<Decl>
  {
    var name :- At(tokens, 0);
    var open :- At(tokens, 1);
    if open != "(" then Err(InvalidFormat(def))
    else
      var third :- At(tokens, 2);
      var parsed :- if third == ")" then Ok(([], 2)) else ParseArgs(tokens, 2, def);
      var arrow :- At(tokens, parsed.1 + 1);
      if arrow != "->" then Err(InvalidFormat(def))
      else
        var results :- ParseResults(tokens, parsed.1 + 2, def);
        Ok(Decl(name, parsed.0, results))
  }

  /** What `canonicalize_op` reads from the `def` text. */
  function ParseDef(def: string): Result<Decl>
  {
    ParseTokens(Tokenize(def), def)
  }

  function PrependArgs(args: seq<Arg>, r: Result<(seq<Arg>, nat)>): Result<(seq<Arg>, nat)>
  {
    match r
    case Ok(v) => Ok((args + v.0, v.1))
    case Err(e) => Err(e)
  }

  function PrependResults(results: seq<ResultSpec>, r: Result<seq<ResultSpec>>): Result<seq<ResultSpec>>
  {
    match r
    case Ok(v) => Ok(results + v)
    case Err(e) => Err(e)
  }

  lemma PrependNoArgs(r: Result<(seq<Arg>, nat)>)
    ensures PrependArgs([], r) == r
  {
    if r.Ok? {
      assert [] + r.value.0 == r.value.0;
    }
  }

  lemma PrependNoResults(r: Result<seq<ResultSpec>>)
    ensures PrependResults([], r) == r
  {
    if r.Ok? {
      assert [] + r.value == r.value;
    }
  }

  /** One pass of the argument loop up to the type of the argument. */
  method ReadArg(tokens: seq<string>, from: nat, def: string) returns (r: Result<(Arg, nat)>)
    ensures r == ParseArg(tokens, from, def)
  {
    var i := from;
    var explicit := true;
    if i >= |tokens| { return Err(IndexOutOfRange); }
    if tokens[i] == "_" {
      i := i + 1;
      explicit := false;
    }
    if i + 1 >= |tokens| { return Err(IndexOutOfRange); }
    if tokens[i + 1] != ":" { return Err(InvalidFormat(def)); }
    if !IsWord(tokens[i]) { return Err(InvalidFormat(def)); }
    if i + 2 >= |tokens| { return Err(IndexOutOfRange); }
    if !IsWord(tokens[i + 2]) { return Err(InvalidFormat(def)); }
    var arg := Arg(tokens[i], EraseGenerics(tokens[i + 2]), explicit, tokens[i + 2]);
    return Ok((arg, i + 3));
  }

  /** The argument loop of `canonicalize_op`: from index `from` on, the
      arguments and the index of the closing `)`. */
  method ReadArgs(tokens: seq<string>, from: nat, def: string) returns (r: Result<(seq<Arg>, nat)>)
    requires from <= |tokens|
    ensures r == ParseArgs(tokens, from, def)
  {
    var i := from;
    var args: seq<Arg> := [];
    PrependNoArgs(ParseArgs(tokens, from, def));
    while true
      invariant from <= i <= |tokens|
      invariant ParseArgs(tokens, from, def) == PrependArgs(args, ParseArgs(tokens, i, def))
      decreases |tokens| - i
    {
      ghost var start := i;
      var one := ReadArg(tokens, i, def);
      if one.Err? { return Err(one.error); }
      args := args + [one.value.0];
      i := one.value.1;
      if i >= |tokens| { return Err(IndexOutOfRange); }
      if tokens[i] == ")" {
        return Ok((args, i));
      }
      if tokens[i] != "," { return Err(InvalidFormat(def)); }
      i := i + 1;
      PrependArgsTwice(args[..|args| - 1], one.value.0, ParseArgs(tokens, i, def));
    }
  }

  /** One pass of the result loop up to the result's type. */
  method ReadResult(tokens: seq<string>, from: nat, def: string) returns (r: Result<(ResultSpec, nat)>)
    ensures r == ParseResult(tokens, from, def)
  {
    var i := from;
    if i + 1 >= |tokens| { return Err(IndexOutOfRange); }
    if tokens[i + 1] == ":" {
      var resultName := tokens[i];   // read, then dropped: every stored result has an empty name
      i := i + 2;
    }
    if i >= |tokens| { return Err(IndexOutOfRange); }
    if EraseGenerics(tokens[i]) != "Tensor" { return Err(InvalidFormat(def)); }
    return Ok((ResultSpec("", tokens[i]), i + 1));
  }

  /** The parenthesised result loop of `canonicalize_op`, from index `from` on. */
  method ReadResultList(tokens: seq<string>, from: nat, def: string) returns (r: Result<seq<ResultSpec>>)
    requires from <= |tokens|
    ensures r == ParseResultList(tokens, from, def)
  {
    var i := from;
    var results: seq<ResultSpec> := [];
    PrependNoResults(ParseResultList(tokens, from, def));
    while true
      invariant from <= i <= |tokens|
      invariant ParseResultList(tokens, from, def) == PrependResults(results, ParseResultList(tokens, i, def))
      decreases |tokens| - i
    {
      var one := ReadResult(tokens, i, def);
      if one.Err? { return Err(one.error); }
      results := results + [one.value.0];
      i := one.value.1;
      if i >= |tokens| { return Err(IndexOutOfRange); }
      if tokens[i] == ")" {
        return Ok(results);
      }
      if tokens[i] != "," { return Err(InvalidFormat(def)); }
      i := i + 1;
      PrependResultsTwice(results[..|results| - 1], one.value.0, ParseResultList(tokens, i, def));
    }
  }

  lemma PrependArgsTwice(args: seq<Arg>, arg: Arg, r: Result<(seq<Arg>, nat)>)
    ensures PrependArgs(args, PrependArgs([arg], r)) == PrependArgs(args + [arg], r)
  {
    if r.Ok? {
      assert args + ([arg] + r.value.0) == (args + [arg]) + r.value.0;
    }
  }

  lemma PrependResultsTwice(results: seq<ResultSpec>, res: ResultSpec, r: Result<seq<ResultSpec>>)
    ensures PrependResults(results, PrependResults([res], r)) == PrependResults(results + [res], r)
  {
    if r.Ok? {
      assert results + ([res] + r.value) == (results + [res]) + r.value;
    }
  }

  /** The token walk of `canonicalize_op`: name, `(`, arguments, `->`, results. */
  method ParseSignature(def: string) returns (r: Result<Decl>)
    ensures r == ParseDef(def)
  {
    var tokens := Tokenize(def);
    if |tokens| == 0 { return Err(IndexOutOfRange); }
    var cName := tokens[0];
    if |tokens| == 1 { return Err(IndexOutOfRange); }
    if tokens[1] != "(" { return Err(InvalidFormat(def)); }
    var i := 2;
    var args: seq<Arg> := [];
    if i >= |tokens| { return Err(IndexOutOfRange); }
    if tokens[i] != ")" {
      var parsed := ReadArgs(tokens, i, def);
      if parsed.Err? { return Err(parsed.error); }
      args, i := parsed.value.0, parsed.value.1;
    }
    i := i + 1;
    if i >= |tokens| { return Err(IndexOutOfRange); }
    if tokens[i] != "->" { return Err(InvalidFormat(def)); }
    i := i + 1;
    var results: seq<ResultSpec>;
    if i >= |tokens| { return Err(IndexOutOfRange); }
    if tokens[i] == "(" {
      var parsed := ReadResultList(tokens, i + 1, def);
      if parsed.Err? { return Err(parsed.error); }
      results := parsed.value;
    } else {
      if EraseGenerics(tokens[i]) != "Tensor" { return Err(InvalidFormat(def)); }
      results := [ResultSpec("", tokens[i])];
    }
    return Ok(Decl(cName, args, results));
  }
}
