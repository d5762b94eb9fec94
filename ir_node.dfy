/** `node_type_define`: the IR node class the generator emits for one op.

    The arguments are split into operands (tensors and at most one trailing
    tensor list) and attributes. Three counters hand out operand slots: one
    while writing `Lower`, one while writing `Clone`, one while binding the
    parameters of the inferred shape function. The emitted text is modelled
    by its structure: per argument, which operand or field it refers to. */
module IrNode {
  import opened Wrappers
  import opened Signature
  import opened Canonical
  import opened Types

  predicate IsTensorKind(a: Arg)
  {
    a.stype == "Tensor" || a.stype == "[Tensor]"
  }

  predicate IsTensorList(a: Arg)
  {
    a.stype == "[Tensor]"
  }

  /** `tensor_args`: the tensor-kind arguments, in order. */
  function TensorArgs(args: seq<Arg>): (ts: seq<Arg>)
    ensures |ts| <= |args|
    ensures forall k :: 0 <= k < |ts| ==> IsTensorKind(ts[k])
  {
    if args == [] then []
    else TensorArgs(args[..|args| - 1]) + (if IsTensorKind(args[|args| - 1]) then [args[|args| - 1]] else [])
  }

  /** `attr_args`: the other arguments, in order. */
  function AttrArgs(args: seq<Arg>): (attrs: seq<Arg>)
    ensures |attrs| <= |args|
    ensures forall k :: 0 <= k < |attrs| ==> !IsTensorKind(attrs[k])
  {
    if args == [] then []
    else AttrArgs(args[..|args| - 1]) + (if IsTensorKind(args[|args| - 1]) then [] else [args[|args| - 1]])
  }

  /** A tensor or tensor list comes after a tensor list. */
  predicate ListNotLast(args: seq<Arg>)
  {
    exists i, j :: 0 <= i < j < |args| && IsTensorList(args[i]) && IsTensorKind(args[j])
  }

  function Names(args: seq<Arg>): (names: seq<string>)
    ensures |names| == |args|
    ensures forall k :: 0 <= k < |args| ==> names[k] == args[k].name
  {
    seq(|args|, k requires 0 <= k < |args| => args[k].name)
  }

  // ---------------------------------------------------------------------
  // Partition

  /** The partition loop at the top of `node_type_define`. */
  method Partition(args: seq<Arg>) returns (r: Result<(seq<Arg>, seq<Arg>)>)
    ensures r.Ok? <==> !ListNotLast(args)
    ensures r.Ok? ==> r.value == (TensorArgs(args), AttrArgs(args))
    ensures r.Err? ==> r.error == TensorListNotLast
  {
    var tensors: seq<Arg> := [];
    var attrs: seq<Arg> := [];
    var hasList := false;
    var n := 0;
    while n < |args|
      invariant n <= |args|
      invariant tensors == TensorArgs(args[..n]) && attrs == AttrArgs(args[..n])
      invariant hasList <==> exists k :: 0 <= k < n && IsTensorList(args[k])
      invariant forall i, j :: 0 <= i < j < n ==> !(IsTensorList(args[i]) && IsTensorKind(args[j]))
    {
      var a := args[n];
      assert args[..n + 1][..n] == args[..n];
      if IsTensorKind(a) {
        if hasList {
          var k :| 0 <= k < n && IsTensorList(args[k]);
          assert IsTensorList(args[k]) && IsTensorKind(args[n]);
          return Err(TensorListNotLast);
        }
        tensors := tensors + [a];
        if IsTensorList(a) {
          hasList := true;
        }
      } else {
        attrs := attrs + [a];
      }
      n := n + 1;
    }
    assert args[..n] == args;
    return Ok((tensors, attrs));
  }

  /** The partition as a value, for the specification of the node. */
  function PartitionOf(args: seq<Arg>): Result<(seq<Arg>, seq<Arg>)>
  {
    if ListNotLast(args) then Err(TensorListNotLast) else Ok((TensorArgs(args), AttrArgs(args)))
  }

  // ---------------------------------------------------------------------
  // Operand slots

  /** An argument that takes an operand slot in `Lower` and `Clone`: a tensor
      or tensor list not named `shape` (that name is handled before the type). */
  predicate TakesSlot(a: Arg)
  {
    a.name != "shape" && IsTensorKind(a)
  }

  /** How many arguments of `args` take a slot. */
  function SlotCount(args: seq<Arg>): (n: nat)
    ensures n <= |TensorArgs(args)|
  {
    if args == [] then 0
    else SlotCount(args[..|args| - 1]) + (if TakesSlot(args[|args| - 1]) then 1 else 0)
  }

  /** One argument of the call in `Lower`. */
  datatype LowerRef = LowerShape | OutputOp(slot: nat) | ArrayOperands(slot: nat) | LowerField(name: string)

  /** One argument of the `MakeNode` call in `Clone`. */
  datatype CloneRef = CloneShape | OperandAt(slot: nat) | OperandSubspan(slot: nat) | CloneField(name: string)

  /** `format_lower_arg` for argument `j`, with the counter at the number of
      slots handed out before it. */
  function LowerRefOf(args: seq<Arg>, j: nat): LowerRef
    requires j < |args|
  {
    var a := args[j];
    if a.name == "shape" then LowerShape
    else if a.stype == "Tensor" then OutputOp(SlotCount(args[..j]))
    else if a.stype == "[Tensor]" then ArrayOperands(SlotCount(args[..j]))
    else LowerField(a.name)
  }

  /** `format_clone_arg` for argument `j`. */
  function CloneRefOf(args: seq<Arg>, j: nat): CloneRef
    requires j < |args|
  {
    var a := args[j];
    if a.name == "shape" then CloneShape
    else if a.stype == "Tensor" then OperandAt(SlotCount(args[..j]))
    else if a.stype == "[Tensor]" then OperandSubspan(SlotCount(args[..j]))
    else CloneField(a.name)
  }

  /** The `Lower` call arguments, with the `lower_arg_i` counter. */
  method LowerRefs(args: seq<Arg>) returns (refs: seq<LowerRef>)
    ensures |refs| == |args|
    ensures forall j :: 0 <= j < |args| ==> refs[j] == LowerRefOf(args, j)
  {
    refs := [];
    var next := 0;
    var j := 0;
    while j < |args|
      invariant j <= |args| && |refs| == j
      invariant next == SlotCount(args[..j])
      invariant forall k :: 0 <= k < j ==> refs[k] == LowerRefOf(args, k)
    {
      var a := args[j];
      assert args[..j + 1][..j] == args[..j];
      var ref: LowerRef;
      if a.name == "shape" {
        ref := LowerShape;
      } else if a.stype == "Tensor" {
        ref := OutputOp(next);
        next := next + 1;
      } else if a.stype == "[Tensor]" {
        ref := ArrayOperands(next);
        next := next + 1;
      } else {
        ref := LowerField(a.name);
      }
      refs := refs + [ref];
      j := j + 1;
    }
  }

  /** The `Clone` call arguments, with the `clone_arg_i` counter. */
  method CloneRefs(args: seq<Arg>) returns (refs: seq<CloneRef>)
    ensures |refs| == |args|
    ensures forall j :: 0 <= j < |args| ==> refs[j] == CloneRefOf(args, j)
  {
    refs := [];
    var next := 0;
    var j := 0;
    while j < |args|
      invariant j <= |args| && |refs| == j
      invariant next == SlotCount(args[..j])
      invariant forall k :: 0 <= k < j ==> refs[k] == CloneRefOf(args, k)
    {
      var a := args[j];
      assert args[..j + 1][..j] == args[..j];
      if a.name == "shape" {
        refs := refs + [CloneShape];
      } else if a.stype == "Tensor" {
        refs := refs + [OperandAt(next)];
        next := next + 1;
      } else if a.stype == "[Tensor]" {
        refs := refs + [OperandSubspan(next)];
        next := next + 1;
      } else {
        refs := refs + [CloneField(a.name)];
      }
      j := j + 1;
    }
  }

  /** A parameter of the shape-inference builder: `xla::Parameter` or
      `MakeParameterList` bound at `slot` to the tensor argument `name`. */
  datatype Param = Param(slot: nat, name: string, isList: bool)

  /** The parameters the shape-inference closure binds, one per tensor
      argument, in order. */
  function ShapeParamsOf(tensors: seq<Arg>): (params: seq<Param>)
    ensures |params| == |tensors|
  {
    seq(|tensors|, k requires 0 <= k < |tensors| => Param(k, tensors[k].name, IsTensorList(tensors[k])))
  }

  /** `param_convert` over `tensor_args`, with the `param_convert_i` counter. */
  method ShapeParams(tensors: seq<Arg>) returns (params: seq<Param>)
    ensures params == ShapeParamsOf(tensors)
  {
    params := [];
    var next := 0;
    for k := 0 to |tensors|
      invariant next == k && |params| == k
      invariant forall i :: 0 <= i < k ==> params[i] == Param(i, tensors[i].name, IsTensorList(tensors[i]))
    {
      params := params + [Param(next, tensors[k].name, tensors[k].stype == "[Tensor]")];
      next := next + 1;
    }
  }

  // ---------------------------------------------------------------------
  // The node class

  /** `tensors_ctor`: the operand list handed to `Node`. */
  datatype Operands =
    | Singles(names: seq<string>)                 // {a, b}
    | ListOnly(list: string)                      // the list itself
    | ConcatList(names: seq<string>, list: string) // TensorArgsConcat({a, b}, list)

  /** The shape of the node: a tensor's shape, the `shape` attribute, a call
      of the named shape function on all arguments, or a closure that builds
      the op on parameters and reads the shape of its result(s). */
  datatype ShapeFn =
    | TensorShape(tensor: string)
    | ShapeAttr
    | ShapeCall(fn: string, argNames: seq<string>)
    | Inferred(params: seq<Param>, lowerFn: string, callArgs: seq<string>, multi: bool)

  datatype NodeClass = NodeClass(
    className: string,
    kind: string,                         // ir::OpKind(x10_enum)
    ctorParams: seq<(string, string)>,    // (C++ type, name)
    operands: Operands,
    shape: ShapeFn,
    numOutputs: nat,
    hashFields: seq<string>,              // xla::util::MHash(...)
    fieldInits: seq<string>,
    cloneRefs: seq<CloneRef>,
    lowerFn: string,
    lowerRefs: seq<LowerRef>,
    lowerCtx: bool,                       // loctx appended to the Lower call
    multiOutput: bool,                    // ReturnOps rather than ReturnOp
    printed: seq<string>,                 // OpFieldToString in ToString
    fields: seq<(string, string)>)        // (C++ type, name) private fields

  /** The names of the plain tensors, then the list if there is one. */
  function OperandsOf(tensors: seq<Arg>, hasList: bool): Operands
  {
    var singles := Names(SingleTensors(tensors));
    if !hasList || tensors == [] then Singles(singles)
    else if |tensors| == 1 then ListOnly(tensors[0].name)
    else ConcatList(singles, tensors[|tensors| - 1].name)
  }

  /** The arguments of type `Tensor`, in order. */
  function SingleTensors(tensors: seq<Arg>): seq<Arg>
  {
    if tensors == [] then []
    else
      var last := tensors[|tensors| - 1];
      SingleTensors(tensors[..|tensors| - 1]) + (if last.stype == "Tensor" then [last] else [])
  }

  /** The operands in the order `Node` receives them. */
  function Flatten(ops: Operands): seq<string>
  {
    match ops
    case Singles(names) => names
    case ListOnly(list) => [list]
    case ConcatList(names, list) => names + [list]
  }

  /** `resolve_shape_fn`: a tensor argument of that name, the `shape`
      attribute, or a call of a function of that name. */
  function ResolveShapeFn(tensors: seq<Arg>, args: seq<Arg>, fn: string): ShapeFn
  {
    if fn in Names(tensors) then TensorShape(fn)
    else if fn == "shape" then ShapeAttr
    else ShapeCall(fn, Names(args))
  }

  /** `format_shape_lower_arg`: tensors are passed as their builder values. */
  function ShapeLowerArg(a: Arg): string
  {
    if IsTensorKind(a) then a.name + "_ir" else a.name
  }

  function ShapeLowerArgs(args: seq<Arg>): (r: seq<string>)
    ensures |r| == |args|
  {
    seq(|args|, k requires 0 <= k < |args| => ShapeLowerArg(args[k]))
  }

  /** The first word of every `extras` entry; an empty entry raises `IndexError`. */
  function ExtraHeads(extras: seq<seq<string>>): (r: Result<seq<string>>)
    ensures r.Ok? <==> forall k :: 0 <= k < |extras| ==> |extras[k]| > 0
    ensures r.Ok? ==> |r.value| == |extras| && forall k :: 0 <= k < |extras| ==> r.value[k] == extras[k][0]
    ensures r.Err? ==> r.error == IndexOutOfRange
  {
    if forall k :: 0 <= k < |extras| ==> |extras[k]| > 0
    then Ok(seq(|extras|, k requires 0 <= k < |extras| => extras[k][0]))
    else Err(IndexOutOfRange)
  }

  /** The constructor parameters, failing on the first argument whose type
      has no constructor spelling. */
  function CtorParams(args: seq<Arg>): (r: Result<seq<(string, string)>>)
    ensures r.Ok? ==> |r.value| == |args|
  {
    if args == [] then Ok([])
    else
      var ty :- CtorParamType(args[0].name, args[0].stype);
      var rest :- CtorParams(args[1..]);
      Ok([(ty, args[0].name)] + rest)
  }

  /** The private fields: one per attribute not named `shape`. */
  function AttrFields(attrs: seq<Arg>): Result<seq<(string, string)>>
  {
    if attrs == [] then Ok([])
    else if attrs[0].name == "shape" then AttrFields(attrs[1..])
    else
      var ty :- AttrFieldType(attrs[0].stype);
      var rest :- AttrFields(attrs[1..]);
      Ok([(ty, attrs[0].name)] + rest)
  }

  /** The attributes not named `shape`. */
  function StoredAttrs(attrs: seq<Arg>): seq<Arg>
  {
    if attrs == [] then []
    else (if attrs[0].name == "shape" then [] else [attrs[0]]) + StoredAttrs(attrs[1..])
  }

  /** Everything `node_type_define` decides for one op, or the exception it
      raises, in the order the source raises them. */
  function NodeSpec(op: Op): Result<NodeClass>
  {
    var parts :- PartitionOf(op.args);
    var (tensors, attrs) := parts;
    var shape :-
      if op.shapeFn.Some? then Ok(ResolveShapeFn(tensors, op.args, op.shapeFn.value))
      else if op.lowerFn.None? then Err(MissingKey("lower_fn"))
      else Ok(Inferred(ShapeParamsOf(tensors), op.lowerFn.value, ShapeLowerArgs(op.args), op.nResults != 1));
    var heads :- ExtraHeads(op.extras);
    var lowerFn :- if op.lowerFn.Some? then Ok(op.lowerFn.value) else Err(MissingKey("lower_fn"));
    var ctor :- CtorParams(op.args);
    var fields :- AttrFields(attrs);
    var hasList := exists k :: 0 <= k < |tensors| && IsTensorList(tensors[k]);
    Ok(NodeClass(
      op.opNodeName, op.x10Enum, ctor,
      OperandsOf(tensors, hasList), shape, op.nResults,
      Names(attrs), Names(StoredAttrs(attrs)),
      seq(|op.args|, j requires 0 <= j < |op.args| => CloneRefOf(op.args, j)),
      lowerFn,
      seq(|op.args|, j requires 0 <= j < |op.args| => LowerRefOf(op.args, j)),
      "needs_lowering_context" in heads, op.nResults != 1,
      Names(StoredAttrs(attrs)), fields))
  }

  /** `node_type_define`, with its loops and counters. */
  method NodeTypeDefine(op: Op) returns (r: Result<NodeClass>)
    ensures r == NodeSpec(op)
  {
    var parts := Partition(op.args);
    if parts.Err? {
      return Err(parts.error);
    }
    var (tensors, attrs) := parts.value;
    var shape: ShapeFn;
    if op.shapeFn.Some? {
      shape := ResolveShapeFn(tensors, op.args, op.shapeFn.value);
    } else {
      var params := ShapeParams(tensors);
      if op.lowerFn.None? {
        return Err(MissingKey("lower_fn"));
      }
      shape := Inferred(params, op.lowerFn.value, ShapeLowerArgs(op.args), op.nResults != 1);
    }
    var heads := ExtraHeads(op.extras);
    if heads.Err? {
      return Err(heads.error);
    }
    if op.lowerFn.None? {
      return Err(MissingKey("lower_fn"));
    }
    var lowerRefs := LowerRefs(op.args);
    var ctor := CtorParams(op.args);
    if ctor.Err? {
      return Err(ctor.error);
    }
    var cloneRefs := CloneRefs(op.args);
    var fields := AttrFields(attrs);
    if fields.Err? {
      return Err(fields.error);
    }
    var hasList := exists k :: 0 <= k < |tensors| && IsTensorList(tensors[k]);
    assert lowerRefs == seq(|op.args|, j requires 0 <= j < |op.args| => LowerRefOf(op.args, j));
    assert cloneRefs == seq(|op.args|, j requires 0 <= j < |op.args| => CloneRefOf(op.args, j));
    r := Ok(NodeClass(
      op.opNodeName, op.x10Enum, ctor.value,
      OperandsOf(tensors, hasList), shape, op.nResults,
      Names(attrs), Names(StoredAttrs(attrs)),
      cloneRefs, op.lowerFn.value, lowerRefs,
      "needs_lowering_context" in heads.value, op.nResults != 1,
      Names(StoredAttrs(attrs)), fields.value));
  }
}
