/** `c_function_define`: the C ABI entry point the generator emits for one
    op. It unpacks the tensor arguments, builds the IR node, and wraps each
    output of the node in a tensor created from a template tensor, with a
    dtype taken from a tensor, an attribute or a literal scalar type. */
module Abi {
  import opened Wrappers
  import opened Signature
  import opened Canonical
  import opened Types
  import opened IrNode

  /** `first_tensor`: the tensor whose device and element type the outputs take. */
  datatype Template = TensorNamed(name: string) | FirstOfList(list: string)

  /** The name `result_dtype` gives when it is a single string. */
  function SingleDType(op: Op): Option<string>
  {
    if op.resultDtype.Some? && op.resultDtype.value.DTypeName? then Some(op.resultDtype.value.name) else None
  }

  /** `first_tensor`: the tensor named by `shape_fn`, else the one named by
      `result_dtype`, else the first tensor argument; `IndexError` without
      tensor arguments. */
  function TemplateTensor(op: Op): Result<Template>
  {
    var tensors := TensorArgs(op.args);
    var names := Names(tensors);
    var fromDtype := if SingleDType(op).Some? && SingleDType(op).value in names then SingleDType(op) else None;
    var chosen := if op.shapeFn.Some? && op.shapeFn.value in names then op.shapeFn else fromDtype;
    if chosen.Some? && chosen.value != "" then Ok(TensorNamed(chosen.value))
    else if tensors == [] then Err(IndexOutOfRange)
    else if tensors[0].stype == "[Tensor]" then Ok(FirstOfList(tensors[0].name))
    else Ok(TensorNamed(tensors[0].name))
  }

  /** One argument of the `MakeNode` call (`format_arg_ref`). */
  datatype AbiRef =
    | IrValue(name: string)                                   // name_ir_value
    | ShapeFromDims(template: Template)                       // MakeArrayShapeFromDimensions(...)
    | Converted(converter: string, name: string)              // builtin converter
    | CanonicalCustom(fn: string, of: string, name: string, isList: bool)
    | CanonicalDims(name: string, of: string)                 // GetCanonicalDimensionIndices
    | CanonicalIndex(name: string, of: string)                // GetCanonicalDimensionIndex
    | OptionalValue(name: string)                             // name.value()
    | ScalarTypeOf(name: string)                              // ToScalarType(name)
    | AtScalar(name: string)                                  // atScalar(name)
    | I64List(name: string)                                   // I64List(name.slice())
    | Plain(name: string)

  /** An `extras` entry `canonicalize <arg> <dims-of> [<fn>]` for `name`. */
  predicate CanonicalizesArg(e: seq<string>, name: string)
  {
    |e| >= 2 && e[0] == "canonicalize" && e[1] == name
  }

  /** The reference a canonicalising entry produces, if it is long enough. */
  function CanonicalFrom(e: seq<string>, name: string, stype: string): Result<AbiRef>
  {
    if |e| == 4 then Ok(CanonicalCustom(e[3], e[2], name, stype == "[Int64]"))
    else if |e| < 3 then Err(IndexOutOfRange)
    else if stype == "[Int64]" then Ok(CanonicalDims(name, e[2]))
    else Ok(CanonicalIndex(name, e[2]))
  }

  /** The loop over `extras` in `format_arg_ref`: the first entry that
      canonicalises `name` decides; reading a word an entry lacks raises
      `IndexError`. */
  function CanonicalRef(extras: seq<seq<string>>, name: string, stype: string): Result<Option<AbiRef>>
  {
    if extras == [] then Ok(None)
    else
      var e := extras[0];
      if |e| == 0 then Err(IndexOutOfRange)
      else if e[0] != "canonicalize" then CanonicalRef(extras[1..], name, stype)
      else if |e| < 2 then Err(IndexOutOfRange)
      else if e[1] != name then CanonicalRef(extras[1..], name, stype)
      else
        var ref :- CanonicalFrom(e, name, stype);
        Ok(Some(ref))
  }

  /** `format_arg_ref` of the ABI function. */
  function AbiRefOf(op: Op, template: Template, a: Arg): Result<AbiRef>
  {
    var stype := a.stype;
    if stype == "Tensor" || stype == "[Tensor]" then Ok(IrValue(a.name))
    else if a.name == "shape" then Ok(ShapeFromDims(template))
    else if stype in BuiltinTypes then Ok(Converted(BuiltinTypes[stype].converter, a.name))
    else
      var canonical :- CanonicalRef(op.extras, a.name, stype);
      if canonical.Some? then Ok(canonical.value)
      else if stype == "ScalarType?" then Ok(OptionalValue(a.name))
      else if stype == "ScalarType" then Ok(ScalarTypeOf(a.name))
      else if stype == "AnyScalar" then Ok(AtScalar(a.name))
      else if stype == "[Int64]" then Ok(I64List(a.name))
      else Ok(Plain(a.name))
  }

  /** The `MakeNode` arguments, one per op argument, failing on the first bad one. */
  function NodeArgs(op: Op, template: Template, args: seq<Arg>): (r: Result<seq<AbiRef>>)
    ensures r.Ok? ==> |r.value| == |args|
  {
    if args == [] then Ok([])
    else
      var ref :- AbiRefOf(op, template, args[0]);
      var rest :- NodeArgs(op, template, args[1..]);
      Ok([ref] + rest)
  }

  /** The C return type: a tensor, a pair with fields `x, y`, or a
      three-tuple with fields `v0, v1, v2`. */
  datatype ReturnKind = SingleTensor | TensorPair | TensorTuple3

  function ReturnKindOf(op: Op): Result<ReturnKind>
  {
    if op.nResults == 1 then Ok(SingleTensor)
    else if op.nResults == 2 then Ok(TensorPair)
    else if op.nResults == 3 then Ok(TensorTuple3)
    else Err(UnsupportedArity(op.cName, op.nResults))
  }

  /** The fields of the returned struct that receive the outputs, in order. */
  function TupleFields(kind: ReturnKind): seq<string>
  {
    match kind
    case SingleTensor => []
    case TensorPair => ["x", "y"]
    case TensorTuple3 => ["v0", "v1", "v2"]
  }

  /** `format_arg_def` over all arguments. */
  function AbiParams(args: seq<Arg>): (r: Result<seq<(string, string)>>)
    ensures r.Ok? ==> |r.value| == |args|
  {
    if args == [] then Ok([])
    else
      var ty :- AbiParamType(args[0].stype);
      var rest :- AbiParams(args[1..]);
      Ok([(ty, args[0].name)] + rest)
  }

  /** `unpack_arg`: the IR value of each tensor or tensor list. */
  datatype Unpack = UnpackTensor(name: string) | UnpackList(name: string)

  function Unpacks(args: seq<Arg>): seq<Unpack>
  {
    if args == [] then []
    else
      (if args[0].stype == "Tensor" then [UnpackTensor(args[0].name)]
       else if args[0].stype == "[Tensor]" then [UnpackList(args[0].name)]
       else [])
      + Unpacks(args[1..])
  }

  /** `dtypes`: one entry per result when `result_dtype` is absent (the empty
      string standing for `None`), else `result_dtype` made a list. */
  function DTypes(op: Op): seq<string>
  {
    match op.resultDtype
    case None => seq(op.nResults, _ => "")
    case Some(DTypeName(name)) => [name]
    case Some(DTypeList(names)) => names
  }

  /** The index of the last argument called `name`, if any. */
  function LastArgNamed(args: seq<Arg>, name: string): (r: Option<nat>)
    ensures r.Some? ==> (r.value < |args| && args[r.value].name == name
      && forall k :: r.value < k < |args| ==> args[k].name != name)
    ensures r.None? ==> forall k :: 0 <= k < |args| ==> args[k].name != name
  {
    if args == [] then None
    else if args[|args| - 1].name == name then Some(|args| - 1)
    else LastArgNamed(args[..|args| - 1], name)
  }

  /** How output `index` of the node becomes a tensor (`format_result`). */
  datatype ResultSource =
    | FromTemplate(template: Template, index: nat)
    | FromTensor(tensor: string, index: nat)
    | WithArgType(template: Template, index: nat, dtype: AbiRef)
    | WithScalarType(template: Template, index: nat, scalarType: string)

  /** `format_result(i)`, given the `MakeNode` arguments `refs`. */
  function ResultSourceOf(op: Op, template: Template, refs: seq<AbiRef>, i: nat): Result<ResultSource>
    requires |refs| == |op.args|
  {
    if i >= |DTypes(op)| then Err(IndexOutOfRange)
    else
      var dtype := DTypes(op)[i];
      if dtype == "" then Ok(FromTemplate(template, i))
      else if dtype in Names(TensorArgs(op.args)) then Ok(FromTensor(dtype, i))
      else
        var j := LastArgNamed(op.args, dtype);
        if j.Some? then Ok(WithArgType(template, i, refs[j.value]))
        else Ok(WithScalarType(template, i, dtype))
  }

  /** All outputs: `IndexError` when `dtypes` is shorter than the results. */
  function ResultsOf(op: Op, template: Template, refs: seq<AbiRef>): (r: Result<seq<ResultSource>>)
    requires |refs| == |op.args|
  {
    if |DTypes(op)| < op.nResults then Err(IndexOutOfRange)
    else Ok(seq(op.nResults, i requires 0 <= i < op.nResults => ResultSourceOf(op, template, refs, i).value))
  }

  /** The decisions of `c_function_define`. */
  datatype AbiFunction = AbiFunction(
    returnKind: ReturnKind,
    name: string,                         // XLATensor_<c_name>
    params: seq<(string, string)>,        // (C type, name)
    unpacks: seq<Unpack>,
    nodeClass: string,
    nodeArgs: seq<AbiRef>,
    results: seq<ResultSource>)

  /** Everything `c_function_define` decides, or the exception it raises, in
      the order the source raises them. */
  function AbiSpec(op: Op): Result<AbiFunction>
  {
    var template :- TemplateTensor(op);
    var nodeArgs :- NodeArgs(op, template, op.args);
    var kind :- ReturnKindOf(op);
    var params :- AbiParams(op.args);
    var results :- ResultsOf(op, template, nodeArgs);
    Ok(AbiFunction(kind, "XLATensor_" + op.cName, params, Unpacks(op.args), op.opNodeName, nodeArgs, results))
  }

  /** The output loop of `c_function_define`. */
  method WriteResults(op: Op, template: Template, refs: seq<AbiRef>) returns (r: Result<seq<ResultSource>>)
    requires |refs| == |op.args|
    ensures r == ResultsOf(op, template, refs)
  {
    var dtypes := DTypes(op);
    var tensorNames := Names(TensorArgs(op.args));
    var out: seq<ResultSource> := [];
    for i := 0 to op.nResults
      invariant |out| == i && i <= |dtypes|
      invariant forall k :: 0 <= k < i ==> out[k] == ResultSourceOf(op, template, refs, k).value
    {
      if i >= |dtypes| {
        return Err(IndexOutOfRange);
      }
      var dtype := dtypes[i];
      var source: ResultSource;
      if dtype == "" {
        source := FromTemplate(template, i);
      } else if dtype in tensorNames {
        source := FromTensor(dtype, i);
      } else {
        var j := LastArgNamed(op.args, dtype);
        if j.Some? {
          source := WithArgType(template, i, refs[j.value]);
        } else {
          source := WithScalarType(template, i, dtype);
        }
      }
      out := out + [source];
    }
    assert out == seq(op.nResults, i requires 0 <= i < op.nResults => ResultSourceOf(op, template, refs, i).value);
    return Ok(out);
  }

  /** `c_function_define`. */
  method CFunctionDefine(op: Op) returns (r: Result<AbiFunction>)
    ensures r == AbiSpec(op)
  {
    var template := TemplateTensor(op);
    if template.Err? {
      return Err(template.error);
    }
    var nodeArgs := NodeArgs(op, template.value, op.args);
    if nodeArgs.Err? {
      return Err(nodeArgs.error);
    }
    var kind := ReturnKindOf(op);
    if kind.Err? {
      return Err(kind.error);
    }
    var params := AbiParams(op.args);
    if params.Err? {
      return Err(params.error);
    }
    var results := WriteResults(op, template.value, nodeArgs.value);
    if results.Err? {
      return Err(results.error);
    }
    r := Ok(AbiFunction(kind.value, "XLATensor_" + op.cName, params.value, Unpacks(op.args),
                        op.opNodeName, nodeArgs.value, results.value));
  }
}
