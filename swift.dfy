/** `swift_wrapper_define`: the Swift static function the generator emits
    for an op in the `_RawXLA` namespace. It re-declares the arguments as
    written in the signature, checks that the tensors share a device (and a
    precision when declared with the same type), opens one `withArrayRef`
    scope per array argument, calls the C ABI function and wraps its output. */
module Swift {
  import opened Wrappers
  import opened Strings
  import opened Signature
  import opened Canonical
  import opened Formatting

  /** `format_swift_arg`: `name: Type`, or `_ name: Type` without a label. */
  function SwiftParamText(a: Arg): string
  {
    var named := a.name + (": " + a.rawType);
    if a.explicit then named else "_ " + named
  }

  /** The generic parameter clause, `<\n    K: V,...\n  >`, or nothing. */
  function GenericsText(generics: seq<(string, string)>): string
  {
    var items := seq(|generics|, k requires 0 <= k < |generics| => "\n    " + generics[k].0 + ": " + generics[k].1);
    var inner := FormatArgs(items, ",", "\n  ");
    if inner == "" then "" else "<" + inner + ">"
  }

  /** The result type: the one raw type, or a tuple of them (every result
      has an empty label). */
  function ResultTypeText(results: seq<ResultSpec>): string
  {
    if |results| == 1 then results[0].rawType
    else "(" + FormatArgs(seq(|results|, k requires 0 <= k < |results| => ResultTypeOf(results[k])), ", ", "") + ")"
  }

  /** `format_result_type`. */
  function ResultTypeOf(r: ResultSpec): string
  {
    if r.name != "" then r.name + " " + r.rawType else r.rawType
  }

  /** The tensors kept alive by `defer { _fixLifetime(...) }`. */
  function Defers(args: seq<Arg>): seq<string>
  {
    if args == [] then []
    else (if args[0].stype == "Tensor" then [args[0].name] else []) + Defers(args[1..])
  }

  /** A device or precision check between the first tensor and another one. */
  datatype Check = SameDevice(first: string, other: string) | SamePrecision(first: string, other: string)

  /** The checks for the arguments `args`, given the first tensor seen so
      far: only the first tensor is ever remembered. */
  function ChecksOf(args: seq<Arg>, first: Option<Arg>): seq<Check>
  {
    if args == [] then []
    else if args[0].stype != "Tensor" then ChecksOf(args[1..], first)
    else if first.None? then ChecksOf(args[1..], Some(args[0]))
    else
      [SameDevice(first.value.name, args[0].name)]
      + (if first.value.rawType == args[0].rawType then [SamePrecision(first.value.name, args[0].name)] else [])
      + ChecksOf(args[1..], first)
  }

  /** The device/precision loop, with its `last_tensor` variable. */
  method DeviceChecks(args: seq<Arg>) returns (checks: seq<Check>)
    ensures checks == ChecksOf(args, None)
  {
    checks := [];
    var lastTensor: Option<Arg> := None;
    for i := 0 to |args|
      invariant checks + ChecksOf(args[i..], lastTensor) == ChecksOf(args, None)
    {
      assert args[i..][1..] == args[i + 1..];
      var arg := args[i];
      if arg.stype == "Tensor" {
        if lastTensor.Some? {
          checks := checks + [SameDevice(lastTensor.value.name, arg.name)];
          if lastTensor.value.rawType == arg.rawType {
            checks := checks + [SamePrecision(lastTensor.value.name, arg.name)];
          }
        } else {
          lastTensor := Some(arg);
        }
      }
    }
    assert args[|args|..] == [];
  }

  /** An array-typed argument (`arg[1][0] == "["`). */
  predicate IsArrayType(a: Arg)
  {
    |a.stype| > 0 && a.stype[0] == '['
  }

  /** One `return name.withArrayRef { name in` line, at its nesting depth. */
  datatype Scope = Scope(depth: nat, name: string)

  /** The scopes opened for `args` when `depth` are already open. */
  function ScopesOf(args: seq<Arg>, depth: nat): seq<Scope>
  {
    if args == [] then []
    else if IsArrayType(args[0]) then [Scope(depth + 1, args[0].name)] + ScopesOf(args[1..], depth + 1)
    else ScopesOf(args[1..], depth)
  }

  /** The number of array-typed arguments. */
  function ArrayCount(args: seq<Arg>): nat
  {
    if args == [] then 0 else (if IsArrayType(args[0]) then 1 else 0) + ArrayCount(args[1..])
  }

  /** One step of the scope walk, at argument `i`. */
  lemma ScopesStep(args: seq<Arg>, i: nat, depth: nat)
    requires i < |args|
    ensures ScopesOf(args[i..], depth) ==
      if IsArrayType(args[i]) then [Scope(depth + 1, args[i].name)] + ScopesOf(args[i + 1..], depth + 1)
      else ScopesOf(args[i + 1..], depth)
    ensures ArrayCount(args[i..]) == (if IsArrayType(args[i]) then 1 else 0) + ArrayCount(args[i + 1..])
  {
    assert args[i..][1..] == args[i + 1..] && args[i..][0] == args[i];
  }

  /** The `withCounter` loop that opens the scopes. */
  method OpenScopes(args: seq<Arg>) returns (scopes: seq<Scope>, depth: nat)
    ensures scopes == ScopesOf(args, 0)
    ensures depth == ArrayCount(args)
  {
    scopes := [];
    depth := 0;
    for i := 0 to |args|
      invariant scopes + ScopesOf(args[i..], depth) == ScopesOf(args, 0)
      invariant depth + ArrayCount(args[i..]) == ArrayCount(args)
    {
      ScopesStep(args, i, depth);
      if IsArrayType(args[i]) {
        depth := depth + 1;
        scopes := scopes + [Scope(depth, args[i].name)];
      }
    }
    assert args[|args|..] == [];
  }

  /** The depths of the closing braces: from `depth` down to 1. */
  function Closing(depth: nat): (closes: seq<nat>)
    ensures |closes| == depth
  {
    if depth == 0 then [] else [depth] + Closing(depth - 1)
  }

  /** The loop `for withCounter in range(withCounter, 0, -1)`. */
  method CloseScopes(depth: nat) returns (closes: seq<nat>)
    ensures closes == Closing(depth)
  {
    closes := [];
    var counter: nat := depth;
    while counter > 0
      invariant counter <= depth
      invariant closes + Closing(counter) == Closing(depth)
    {
      closes := closes + [counter];
      counter := counter - 1;
    }
  }

  /** `format_arg_ref` of the Swift wrapper: the handle of a tensor, the
      scalar of an `AnyScalar`, the name itself otherwise (an array is the
      name bound by its `withArrayRef` scope). */
  datatype SwiftRef = Handle(name: string) | ScalarOf(name: string) | Bare(name: string)

  function SwiftRefOf(a: Arg): SwiftRef
  {
    if a.stype == "Tensor" then Handle(a.name)
    else if a.stype == "AnyScalar" then ScalarOf(a.name)
    else Bare(a.name)
  }

  /** The field of `tuple_output` a result is read from. */
  datatype Tag = TagX | TagY | TagV(index: nat)

  /** `"xy"[i]` for two results, `v<i>` otherwise. */
  function TupleTags(n: nat): (tags: seq<Tag>)
    ensures |tags| == n
  {
    seq(n, i requires 0 <= i < n => if n == 2 then (if i == 0 then TagX else TagY) else TagV(i))
  }

  /** How the wrapper returns: the one tensor, or a tuple of the C fields. */
  datatype SwiftReturn = ReturnTensor | ReturnTuple(tags: seq<Tag>)

  datatype SwiftWrapper = SwiftWrapper(
    protection: string,       // "" for internal, else the keyword and a blank
    name: string,             // swift_name
    generics: string,
    params: string,           // the parameter list, one per line
    resultType: string,
    defers: seq<string>,
    checks: seq<Check>,
    scopes: seq<Scope>,
    dispatch: string,         // XLATensor_<c_name>
    dispatchArgs: seq<SwiftRef>,
    dispatchDepth: nat,       // how many scopes the call sits in
    ending: SwiftReturn,      // the return statement
    closes: seq<nat>)

  function ParamItems(args: seq<Arg>): (items: seq<string>)
    ensures |items| == |args|
  {
    seq(|args|, k requires 0 <= k < |args| => "\n    " + SwiftParamText(args[k]))
  }

  /** Everything `swift_wrapper_define` decides, or the `KeyError` for an op
      placed in the namespace by hand without `generics`. */
  function SwiftSpec(op: Op): Result<SwiftWrapper>
  {
    if op.generics.None? then Err(MissingKey("generics"))
    else
      var depth := ArrayCount(op.args);
      Ok(SwiftWrapper(
        if op.protection == "internal" then "" else op.protection + " ",
        op.swiftName,
        GenericsText(op.generics.value),
        FormatArgs(ParamItems(op.args), ",", "\n  "),
        ResultTypeText(op.results),
        Defers(op.args),
        ChecksOf(op.args, None),
        ScopesOf(op.args, 0),
        "XLATensor_" + op.cName,
        seq(|op.args|, k requires 0 <= k < |op.args| => SwiftRefOf(op.args[k])),
        depth,
        if |op.results| == 1 then ReturnTensor else ReturnTuple(TupleTags(|op.results|)),
        Closing(depth)))
  }

  /** `swift_wrapper_define`, with its loops. */
  method SwiftWrapperDefine(op: Op) returns (r: Result<SwiftWrapper>)
    ensures r == SwiftSpec(op)
  {
    if op.generics.None? {
      return Err(MissingKey("generics"));
    }
    var g := op.generics.value;
    var genericItems := seq(|g|, k requires 0 <= k < |g| => "\n    " + g[k].0 + ": " + g[k].1);
    var generics := FormatArgsText(genericItems, ",", "\n  ");
    if generics != "" {
      generics := "<" + generics + ">";
    }
    var params := FormatArgsText(ParamItems(op.args), ",", "\n  ");
    var checks := DeviceChecks(op.args);
    var scopes, depth := OpenScopes(op.args);
    var ending := if |op.results| == 1 then ReturnTensor else ReturnTuple(TupleTags(|op.results|));
    var closes := CloseScopes(depth);
    var protection := if op.protection == "internal" then "" else op.protection + " ";
    assert generics == GenericsText(g);
    r := Ok(SwiftWrapper(protection, op.swiftName, generics, params, ResultTypeText(op.results),
                         Defers(op.args), checks, scopes, "XLATensor_" + op.cName,
                         seq(|op.args|, k requires 0 <= k < |op.args| => SwiftRefOf(op.args[k])),
                         depth, ending, closes));
  }
}
