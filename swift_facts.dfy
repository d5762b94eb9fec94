/** What the Swift wrapper emitter guarantees. */
module SwiftFacts {
  import opened Wrappers
  import opened Strings
  import opened Tokenizer
  import opened Signature
  import opened SignatureFacts
  import opened Canonical
  import opened CanonicalFacts
  import opened Abi
  import opened Formatting
  import opened Swift

  // ---------------------------------------------------------------------
  // Parameters

  /** A token alone lexes as itself. */
  lemma TokenizeOne(t: string)
    requires IsToken(t)
    ensures Tokenize(t) == [t]
  {
    TokenizeCons(t, "");
    assert t + "" == t;
  }

  lemma TypeTailTokens(rawType: string)
    requires IsToken(rawType)
    ensures Tokenize(": " + rawType) == [":", rawType]
  {
    assert ": " + rawType == ":" + (" " + rawType);
    TokenizeCons(":", " " + rawType);
    TokenizeBlank(rawType);
    TokenizeOne(rawType);
  }

  lemma NamedTokens(name: string, rawType: string)
    requires IsToken(name) && IsToken(rawType)
    ensures Tokenize(name + (": " + rawType)) == [name, ":", rawType]
  {
    TypeTailTokens(rawType);
    TokenizeCons(name, ": " + rawType);
  }

  /** The `_ ` of an unlabelled parameter lexes as its own token. */
  lemma UnlabelledTokens(named: string)
    ensures Tokenize("_ " + named) == ["_"] + Tokenize(named)
  {
    var s := "_ " + named;
    assert s[0] == '_' && s[1] == ' ' && s[1..][0] == ' ';
    assert WordRun(s[1..]) == 0;
    assert WordRun(s) == 1;
    assert s[..1] == "_" && s[1..] == " " + named;
    TokenizeBlank(named);
  }

  /** Lexing a wrapper parameter gives the tokens the argument was parsed
      from, so the wrapper declares each argument as the signature did. */
  lemma SwiftParamTokens(a: Arg)
    requires IsToken(a.name) && IsToken(a.rawType)
    ensures Tokenize(SwiftParamText(a)) == RenderArg(a)
  {
    NamedTokens(a.name, a.rawType);
    if !a.explicit {
      UnlabelledTokens(a.name + (": " + a.rawType));
    }
  }

  /** Parsing a wrapper parameter gives back the argument. */
  lemma SwiftParamReparses(a: Arg, def: string)
    requires WellFormedArg(a) && IsToken(a.name) && IsToken(a.rawType)
    ensures ParseArg(Tokenize(SwiftParamText(a)), 0, def) == Ok((a, |RenderArg(a)|))
  {
    SwiftParamTokens(a);
    var tokens := RenderArg(a);
    MatchesSuffix(tokens, 0);
    assert tokens[0..] == tokens;
    ParseArgRendered(tokens, 0, a, def);
  }

  /** An argument list whose rendering is all tokens has token names and types. */
  lemma {:induction false} RenderedArgsTokens(args: seq<Arg>)
    requires forall k :: 0 <= k < |RenderArgs(args)| ==> IsToken(RenderArgs(args)[k])
    ensures forall k :: 0 <= k < |args| ==> IsToken(args[k].name) && IsToken(args[k].rawType)
  {
    if |args| >= 1 {
      var ra := RenderArg(args[0]);
      var n := |ra|;
      assert ra[n - 3] == args[0].name && ra[n - 1] == args[0].rawType;
      if |args| >= 2 {
        RenderArgsCons(args);
        var rest := RenderArgs(args[1..]);
        assert RenderArgs(args) == ra + [","] + rest;
        assert forall k :: 0 <= k < |ra| ==> RenderArgs(args)[k] == ra[k];
        assert forall k :: 0 <= k < |rest| ==> RenderArgs(args)[n + 1 + k] == rest[k];
        RenderedArgsTokens(args[1..]);
        assert forall k :: 1 <= k < |args| ==> args[k] == args[1..][k - 1];
      } else {
        assert RenderArgs(args) == ra;
      }
    }
  }

  /** Every parameter of the wrapper of a canonical op parses back to the
      argument the signature declared. */
  lemma CanonicalParamsReparse(raw: RawOp, def: string)
    requires CanonicalOp(raw).1.Ok?
    ensures var args := CanonicalOp(raw).1.value.args;
      forall k :: 0 <= k < |args| ==>
        ParseArg(Tokenize(SwiftParamText(args[k])), 0, def) == Ok((args[k], |RenderArg(args[k])|))
  {
    CanonicalFields(raw);
    var tokens := Tokenize(raw.def);
    ParseTokensSound(tokens, raw.def);
    var args := CanonicalOp(raw).1.value.args;
    var rendered := RenderArgs(args);
    MatchesPointwise(tokens, 2, rendered);
    assert forall k :: 0 <= k < |rendered| ==> rendered[k] == tokens[2 + k];
    RenderedArgsTokens(args);
    forall k | 0 <= k < |args|
      ensures ParseArg(Tokenize(SwiftParamText(args[k])), 0, def) == Ok((args[k], |RenderArg(args[k])|))
    {
      SwiftParamReparses(args[k], def);
    }
  }

  /** The generic clause is empty exactly without generics, and otherwise
      lists each `K: V` on its own line between angle brackets. */
  lemma GenericsShape(generics: seq<(string, string)>)
    ensures GenericsText(generics) == "" <==> generics == []
    ensures generics != [] ==>
      (GenericsText(generics) ==
       "<" + Join(seq(|generics|, k requires 0 <= k < |generics| => "\n    " + generics[k].0 + ": " + generics[k].1), ",") + "\n  >")
  {
    var items := seq(|generics|, k requires 0 <= k < |generics| => "\n    " + generics[k].0 + ": " + generics[k].1);
    assert forall k :: 0 <= k < |items| ==> items[k][0] == '\n';
    FormatArgsJoin(items, ",", "\n  ");
    if generics != [] {
      assert ("<" + (Join(items, ",") + "\n  ") + ">") == "<" + Join(items, ",") + "\n  >";
    }
  }

  /** Other than one result, the result type is a parenthesised, comma-separated tuple of their types. */
  lemma ResultTypeTuple(results: seq<ResultSpec>)
    requires |results| != 1
    requires forall k :: 0 <= k < |results| ==> results[k].name == "" && results[k].rawType != ""
    ensures ResultTypeText(results) ==
      "(" + Join(seq(|results|, k requires 0 <= k < |results| => results[k].rawType), ", ") + ")"
  {
    var items := seq(|results|, k requires 0 <= k < |results| => ResultTypeOf(results[k]));
    assert items == seq(|results|, k requires 0 <= k < |results| => results[k].rawType);
    FormatArgsJoin(items, ", ", "");
    assert Join(items, ", ") + "" == Join(items, ", ");
  }

  // ---------------------------------------------------------------------
  // Device and precision checks

  /** The names of the arguments of type `Tensor`, in order. */
  function SingleNames(args: seq<Arg>): seq<string>
  {
    if args == [] then []
    else (if args[0].stype == "Tensor" then [args[0].name] else []) + SingleNames(args[1..])
  }

  /** The same, restricted to a raw type text. */
  function SameTypeNames(args: seq<Arg>, rawType: string): seq<string>
  {
    if args == [] then []
    else
      var here := if args[0].stype == "Tensor" && args[0].rawType == rawType then [args[0].name] else [];
      here + SameTypeNames(args[1..], rawType)
  }

  /** The tensors compared for device, and for precision, in order. */
  function DeviceOthers(checks: seq<Check>): seq<string>
  {
    if checks == [] then []
    else (if checks[0].SameDevice? then [checks[0].other] else []) + DeviceOthers(checks[1..])
  }

  function PrecisionOthers(checks: seq<Check>): seq<string>
  {
    if checks == [] then []
    else (if checks[0].SamePrecision? then [checks[0].other] else []) + PrecisionOthers(checks[1..])
  }

  lemma {:induction false} OthersAppend(a: seq<Check>, b: seq<Check>)
    ensures DeviceOthers(a + b) == DeviceOthers(a) + DeviceOthers(b)
    ensures PrecisionOthers(a + b) == PrecisionOthers(a) + PrecisionOthers(b)
  {
    if a != [] {
      OthersAppend(a[1..], b);
      assert (a + b)[1..] == a[1..] + b;
    } else {
      assert a + b == b;
    }
  }

  /** The checks against the first tensor for one more tensor argument. */
  function CheckPair(first: Arg, a: Arg): seq<Check>
  {
    [SameDevice(first.name, a.name)] + (if first.rawType == a.rawType then [SamePrecision(first.name, a.name)] else [])
  }

  lemma ChecksCons(args: seq<Arg>, first: Arg)
    requires args != []
    ensures ChecksOf(args, Some(first)) ==
      (if args[0].stype == "Tensor" then CheckPair(first, args[0]) else []) + ChecksOf(args[1..], Some(first))
  {
    if args[0].stype == "Tensor" {
      assert ChecksOf(args, Some(first)) == CheckPair(first, args[0]) + ChecksOf(args[1..], Some(first));
    } else {
      assert [] + ChecksOf(args[1..], Some(first)) == ChecksOf(args[1..], Some(first));
    }
  }

  /** Once a first tensor is known, every check names it. */
  lemma {:induction false} ChecksNameFirst(args: seq<Arg>, first: Arg)
    ensures forall k :: 0 <= k < |ChecksOf(args, Some(first))| ==> ChecksOf(args, Some(first))[k].first == first.name
  {
    if args != [] {
      ChecksNameFirst(args[1..], first);
      ChecksCons(args, first);
    }
  }

  /** Once a first tensor is known, every later tensor is checked against
      it for device, and for precision exactly when its raw type text is the
      same. */
  lemma {:induction false} ChecksAgainstFirst(args: seq<Arg>, first: Arg)
    ensures DeviceOthers(ChecksOf(args, Some(first))) == SingleNames(args)
    ensures PrecisionOthers(ChecksOf(args, Some(first))) == SameTypeNames(args, first.rawType)
  {
    if args != [] {
      ChecksAgainstFirst(args[1..], first);
      ChecksCons(args, first);
      var here := if args[0].stype == "Tensor" then CheckPair(first, args[0]) else [];
      OthersAppend(here, ChecksOf(args[1..], Some(first)));
      if args[0].stype == "Tensor" {
        var p := if first.rawType == args[0].rawType then [SamePrecision(first.name, args[0].name)] else [];
        OthersAppend([SameDevice(first.name, args[0].name)], p);
      }
    }
  }

  /** The index of the first argument of type `Tensor`, if any. */
  function FirstTensorIndex(args: seq<Arg>): (r: Option<nat>)
    ensures r.Some? ==>
      (r.value < |args| && args[r.value].stype == "Tensor"
       && forall k :: 0 <= k < r.value ==> args[k].stype != "Tensor")
    ensures r.None? ==> forall k :: 0 <= k < |args| ==> args[k].stype != "Tensor"
  {
    if args == [] then None
    else if args[0].stype == "Tensor" then Some(0)
    else
      var r := FirstTensorIndex(args[1..]);
      if r.Some? then Some(r.value + 1) else None
  }

  /** Nothing is checked before the first tensor; from then on, checks
      against it. */
  lemma {:induction false} ChecksStart(args: seq<Arg>)
    ensures FirstTensorIndex(args).None? ==> ChecksOf(args, None) == []
    ensures FirstTensorIndex(args).Some? ==>
      var j := FirstTensorIndex(args).value;
      ChecksOf(args, None) == ChecksOf(args[j + 1..], Some(args[j]))
  {
    if args != [] {
      ChecksStart(args[1..]);
      if args[0].stype != "Tensor" && FirstTensorIndex(args).Some? {
        assert args[1..][FirstTensorIndex(args[1..]).value + 1..] == args[FirstTensorIndex(args).value + 1..];
      }
    }
  }

  /** The checks of a wrapper: none without a tensor; otherwise each later
      tensor is checked against the first for device, and for precision when
      declared with the same type text. */
  lemma DeviceChecksSpec(args: seq<Arg>)
    ensures var checks := ChecksOf(args, None); var j := FirstTensorIndex(args);
      && (j.None? ==> checks == [])
      && (j.Some? ==>
            ((forall k :: 0 <= k < |checks| ==> checks[k].first == args[j.value].name)
             && DeviceOthers(checks) == SingleNames(args[j.value + 1..])
             && PrecisionOthers(checks) == SameTypeNames(args[j.value + 1..], args[j.value].rawType)))
  {
    ChecksStart(args);
    var j := FirstTensorIndex(args);
    if j.Some? {
      ChecksNameFirst(args[j.value + 1..], args[j.value]);
      ChecksAgainstFirst(args[j.value + 1..], args[j.value]);
    }
  }

  /** Two later tensors of the same type are never compared with each other:
      with `a: Tensor<T>, b: Tensor<U>, c: Tensor<U>` no precision check is
      emitted at all. */
  lemma PrecisionOnlyAgainstFirst()
    ensures var args := [Arg("a", "Tensor", true, "Tensor<T>"), Arg("b", "Tensor", true, "Tensor<U>"), Arg("c", "Tensor", true, "Tensor<U>")];
      && ChecksOf(args, None) == [SameDevice("a", "b"), SameDevice("a", "c")]
  {
    var w := ["T", "U"];
    EraseGenericInstances("T");
    EraseGenericInstances("U");
    var args := [Arg("a", "Tensor", true, "Tensor<T>"), Arg("b", "Tensor", true, "Tensor<U>"), Arg("c", "Tensor", true, "Tensor<U>")];
    assert args[1..] == [args[1], args[2]] && args[1..][1..] == [args[2]] && args[1..][1..][1..] == [];
    assert "Tensor<T>" != "Tensor<U>" by {
      assert "Tensor<T>"[7] != "Tensor<U>"[7];
    }
  }

  // ---------------------------------------------------------------------
  // withArrayRef scopes

  /** The names of the array-typed arguments, in order. */
  function ArrayNames(args: seq<Arg>): (names: seq<string>)
    ensures |names| == ArrayCount(args)
  {
    if args == [] then []
    else (if IsArrayType(args[0]) then [args[0].name] else []) + ArrayNames(args[1..])
  }

  /** One scope per array argument, in order, nested one deeper each time. */
  lemma {:induction false} ScopesNest(args: seq<Arg>, depth: nat)
    ensures |ScopesOf(args, depth)| == ArrayCount(args)
    ensures forall k :: 0 <= k < |ScopesOf(args, depth)| ==>
      ScopesOf(args, depth)[k] == Scope(depth + k + 1, ArrayNames(args)[k])
  {
    if args != [] {
      ScopesNest(args[1..], if IsArrayType(args[0]) then depth + 1 else depth);
    }
  }

  lemma {:induction false} ClosingCounts(depth: nat)
    ensures forall k :: 0 <= k < depth ==> Closing(depth)[k] == depth - k
  {
    if depth > 0 {
      ClosingCounts(depth - 1);
    }
  }

  /** The scopes balance: as many closing braces as opened scopes, closed
      innermost first, and the call sits inside all of them. */
  lemma ScopesBalance(op: Op)
    requires SwiftSpec(op).Ok?
    ensures var w := SwiftSpec(op).value;
      && |w.scopes| == |w.closes| == w.dispatchDepth == ArrayCount(op.args)
      && (forall k :: 0 <= k < |w.scopes| ==> w.scopes[k].depth == k + 1 && w.closes[k] == w.scopes[|w.scopes| - 1 - k].depth)
      && w.scopes == seq(|w.scopes|, k requires 0 <= k < |w.scopes| => Scope(k + 1, ArrayNames(op.args)[k]))
  {
    SwiftScopeFields(op);
    ScopesAndCloses(op.args);
  }

  lemma SwiftScopeFields(op: Op)
    requires SwiftSpec(op).Ok?
    ensures var w := SwiftSpec(op).value;
      w.scopes == ScopesOf(op.args, 0) && w.dispatchDepth == ArrayCount(op.args) && w.closes == Closing(ArrayCount(op.args))
  {
  }

  lemma ScopesAndCloses(args: seq<Arg>)
    ensures var scopes := ScopesOf(args, 0); var closes := Closing(ArrayCount(args));
      && |scopes| == |closes| == ArrayCount(args)
      && (forall k :: 0 <= k < |scopes| ==> scopes[k].depth == k + 1 && closes[k] == scopes[|scopes| - 1 - k].depth)
      && scopes == seq(|scopes|, k requires 0 <= k < |scopes| => Scope(k + 1, ArrayNames(args)[k]))
  {
    ScopesNest(args, 0);
    ClosingCounts(ArrayCount(args));
  }

  /** Inside its scope an array argument is passed by the name the scope
      binds. */
  lemma ArraysPassedBare(op: Op)
    requires SwiftSpec(op).Ok?
    ensures var w := SwiftSpec(op).value;
      forall k :: 0 <= k < |op.args| && IsArrayType(op.args[k]) ==> w.dispatchArgs[k] == Bare(op.args[k].name)
  {
    var w := SwiftSpec(op).value;
    forall k | 0 <= k < |op.args| && IsArrayType(op.args[k])
      ensures w.dispatchArgs[k] == Bare(op.args[k].name)
    {
      assert op.args[k].stype[0] != "Tensor"[0] && op.args[k].stype[0] != "AnyScalar"[0];
      assert SwiftRefOf(op.args[k]) == Bare(op.args[k].name);
    }
  }

  // ---------------------------------------------------------------------
  // Return

  /** The text of a tag, as the name of a field of the C result struct. */
  function TagName(t: Tag): string
  {
    match t
    case TagX => "x"
    case TagY => "y"
    case TagV(i) => "v" + DecimalText(i)
  }

  function DecimalText(n: nat): string
  {
    if n < 10 then [('0' as int + n) as char] else DecimalText(n / 10) + [('0' as int + n % 10) as char]
  }

  /** The wrapper reads the tuple fields the C ABI function fills. */
  lemma TagsMatchAbi(op: Op)
    requires ReturnKindOf(op).Ok? && op.nResults >= 2
    ensures seq(op.nResults, k requires 0 <= k < op.nResults => TagName(TupleTags(op.nResults)[k]))
      == TupleFields(ReturnKindOf(op).value)
  {
    assert DecimalText(0) == "0" && DecimalText(1) == "1" && DecimalText(2) == "2";
    if op.nResults == 3 {
      var names := seq(3, k requires 0 <= k < 3 => TagName(TupleTags(3)[k]));
      assert names[0] == "v" + "0" == "v0";
      assert names[1] == "v" + "1" == "v1";
      assert names[2] == "v" + "2" == "v2";
      assert names == ["v0", "v1", "v2"];
    }
  }

  // ---------------------------------------------------------------------
  // Errors

  /** For a canonical op placed in the namespace, the wrapper fails exactly
      when the namespace was given by hand, `generics` was not, and no result
      is parameterised (which would have defaulted `generics`). */
  lemma SwiftKeyError(raw: RawOp)
    requires CanonicalOp(raw).1.Ok?
    requires CanonicalOp(raw).1.value.swiftNamespace == Some(RawNamespace)
    ensures var op := CanonicalOp(raw).1.value;
      (SwiftSpec(op).Err? <==> raw.swiftNamespace == Some(RawNamespace) && raw.generics.None?
                               && !exists k :: 0 <= k < |op.results| && IsGenericTensor(op.results[k].rawType))
    ensures SwiftSpec(CanonicalOp(raw).1.value).Err? ==> SwiftSpec(CanonicalOp(raw).1.value).error == MissingKey("generics")
  {
    CanonicalFields(raw);
  }
}
