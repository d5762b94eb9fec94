/** What the IR node emitter guarantees: the partition, the agreement of the
    three slot counters with the operand order, the hash fields and the
    order of its failures. */
module IrNodeFacts {
  import opened Wrappers
  import opened Signature
  import opened Canonical
  import opened Types
  import opened IrNode

  // ---------------------------------------------------------------------
  // Partition

  lemma {:induction false} TensorArgsAppend(a: seq<Arg>, b: seq<Arg>)
    ensures TensorArgs(a + b) == TensorArgs(a) + TensorArgs(b)
    ensures AttrArgs(a + b) == AttrArgs(a) + AttrArgs(b)
    ensures SlotCount(a + b) == SlotCount(a) + SlotCount(b)
    decreases |b|
  {
    if b == [] {
      assert a + b == a;
    } else {
      var init := b[..|b| - 1];
      assert (a + b)[..|a + b| - 1] == a + init;
      assert (a + b)[|a + b| - 1] == b[|b| - 1];
      TensorArgsAppend(a, init);
    }
  }

  /** `tensor_args` and `attr_args` split the arguments: together they hold
      each argument exactly once. */
  lemma PartitionCovers(args: seq<Arg>)
    ensures |TensorArgs(args)| + |AttrArgs(args)| == |args|
    ensures multiset(TensorArgs(args)) + multiset(AttrArgs(args)) == multiset(args)
  {
    PartitionMultiset(args);
    assert |multiset(TensorArgs(args)) + multiset(AttrArgs(args))| == |multiset(args)|;
  }

  lemma {:induction false} PartitionMultiset(args: seq<Arg>)
    ensures multiset(TensorArgs(args)) + multiset(AttrArgs(args)) == multiset(args)
  {
    if args != [] {
      var init := args[..|args| - 1];
      var last := args[|args| - 1];
      PartitionMultiset(init);
      assert args == init + [last];
      if IsTensorKind(last) {
        PartitionTensorLast(args);
      } else {
        PartitionAttrLast(args);
      }
    }
  }

  lemma PartitionTensorLast(args: seq<Arg>)
    requires args != [] && IsTensorKind(args[|args| - 1])
    requires var init := args[..|args| - 1];
      multiset(TensorArgs(init)) + multiset(AttrArgs(init)) == multiset(init)
    ensures multiset(TensorArgs(args)) + multiset(AttrArgs(args)) == multiset(args)
  {
    var init, last := args[..|args| - 1], args[|args| - 1];
    assert args == init + [last];
    assert TensorArgs(args) == TensorArgs(init) + [last] && AttrArgs(args) == AttrArgs(init);
  }

  lemma PartitionAttrLast(args: seq<Arg>)
    requires args != [] && !IsTensorKind(args[|args| - 1])
    requires var init := args[..|args| - 1];
      multiset(TensorArgs(init)) + multiset(AttrArgs(init)) == multiset(init)
    ensures multiset(TensorArgs(args)) + multiset(AttrArgs(args)) == multiset(args)
  {
    var init, last := args[..|args| - 1], args[|args| - 1];
    assert args == init + [last];
    assert TensorArgs(args) == TensorArgs(init) && AttrArgs(args) == AttrArgs(init) + [last];
  }

  lemma {:induction false} TensorArgsIn(args: seq<Arg>)
    ensures forall x :: x in TensorArgs(args) ==> x in args
  {
    if args != [] {
      TensorArgsIn(args[..|args| - 1]);
      assert forall x :: x in args[..|args| - 1] ==> x in args;
    }
  }

  /** A list at `i` followed by a tensor at `j` is the failing pattern. */
  lemma ListBefore(args: seq<Arg>, i: nat, j: nat)
    requires i < j < |args|
    ensures IsTensorList(args[i]) && IsTensorKind(args[j]) ==> ListNotLast(args)
  {
  }

  lemma ListNotLastPrefix(args: seq<Arg>, n: nat)
    requires n <= |args|
    ensures ListNotLast(args[..n]) ==> ListNotLast(args)
  {
    if ListNotLast(args[..n]) {
      var i, j :| 0 <= i < j < n && IsTensorList(args[..n][i]) && IsTensorKind(args[..n][j]);
      ListBefore(args, i, j);
    }
  }

  /** When the partition succeeds, only the last operand can be a list. */
  lemma {:induction false} ListIsLast(args: seq<Arg>)
    requires !ListNotLast(args)
    ensures forall k :: 0 <= k < |TensorArgs(args)| - 1 ==> TensorArgs(args)[k].stype == "Tensor"
  {
    if args != [] {
      var n := |args| - 1;
      var init := args[..n];
      ListNotLastPrefix(args, n);
      ListIsLast(init);
      var t := TensorArgs(init);
      if IsTensorKind(args[n]) && |t| > 0 {
        TensorArgsIn(init);
        assert t[|t| - 1] in init;
        var i :| 0 <= i < n && init[i] == t[|t| - 1];
        ListBefore(args, i, n);
      }
    }
  }

  lemma {:induction false} SingleTensorsAll(tensors: seq<Arg>)
    requires forall k :: 0 <= k < |tensors| ==> tensors[k].stype == "Tensor"
    ensures SingleTensors(tensors) == tensors
  {
    if tensors != [] {
      SingleTensorsAll(tensors[..|tensors| - 1]);
      assert tensors == tensors[..|tensors| - 1] + [tensors[|tensors| - 1]];
    }
  }

  lemma OperandsFlatten(t: seq<Arg>)
    requires forall k :: 0 <= k < |t| ==> IsTensorKind(t[k])
    requires forall k :: 0 <= k < |t| - 1 ==> t[k].stype == "Tensor"
    ensures Flatten(OperandsOf(t, exists k :: 0 <= k < |t| && IsTensorList(t[k]))) == Names(t)
  {
    if exists k :: 0 <= k < |t| && IsTensorList(t[k]) {
      var k :| 0 <= k < |t| && IsTensorList(t[k]);
      assert k == |t| - 1;
      OperandsWithList(t);
    } else {
      SingleTensorsAll(t);
    }
  }

  /** A trailing tensor list comes after the single tensors. */
  lemma OperandsWithList(t: seq<Arg>)
    requires t != [] && IsTensorList(t[|t| - 1])
    requires forall k :: 0 <= k < |t| - 1 ==> t[k].stype == "Tensor"
    ensures Flatten(OperandsOf(t, true)) == Names(t)
  {
    var init := t[..|t| - 1];
    SingleTensorsAll(init);
    assert SingleTensors(t) == init;
    assert t == init + [t[|t| - 1]];
    assert Names(t) == Names(init) + [t[|t| - 1].name];
  }

  /** `Node` receives its operands in the order of `tensor_args`. */
  lemma OperandOrder(args: seq<Arg>)
    requires !ListNotLast(args)
    ensures var t := TensorArgs(args);
      Flatten(OperandsOf(t, exists k :: 0 <= k < |t| && IsTensorList(t[k]))) == Names(t)
  {
    ListIsLast(args);
    OperandsFlatten(TensorArgs(args));
  }

  // ---------------------------------------------------------------------
  // Slot agreement

  lemma {:induction false} SlotCountNoShape(args: seq<Arg>)
    requires forall k :: 0 <= k < |args| && IsTensorKind(args[k]) ==> args[k].name != "shape"
    ensures SlotCount(args) == |TensorArgs(args)|
  {
    if args != [] {
      SlotCountNoShape(args[..|args| - 1]);
    }
  }

  /** With no tensor argument named `shape`, the j-th argument, if it is the
      k-th tensor, is operand k of the node, is read as operand k by `Lower`
      and `Clone`, and is bound to parameter k by the shape closure. */
  lemma SlotAgreement(args: seq<Arg>, j: nat)
    requires j < |args| && IsTensorKind(args[j])
    requires forall k :: 0 <= k < |args| && IsTensorKind(args[k]) ==> args[k].name != "shape"
    ensures var k := |TensorArgs(args[..j])|;
      && k < |TensorArgs(args)| && TensorArgs(args)[k] == args[j]
      && LowerRefOf(args, j) == (if IsTensorList(args[j]) then ArrayOperands(k) else OutputOp(k))
      && CloneRefOf(args, j) == (if IsTensorList(args[j]) then OperandSubspan(k) else OperandAt(k))
      && ShapeParamsOf(TensorArgs(args))[k] == Param(k, args[j].name, IsTensorList(args[j]))
  {
    var pre := args[..j];
    assert args == pre + [args[j]] + args[j + 1..];
    TensorArgsAppend(pre, [args[j]]);
    TensorArgsAppend(pre + [args[j]], args[j + 1..]);
    assert TensorArgs([args[j]]) == [args[j]] by {
      assert [args[j]][..0] == [];
    }
    SlotCountNoShape(pre);
  }

  /** A tensor argument named `shape` takes no slot in `Lower` or `Clone`,
      so the tensor after it is operand 0 there ... */
  lemma TensorNamedShapeSkipsSlot()
    ensures var args := [Arg("shape", "Tensor", true, "Tensor"), Arg("x", "Tensor", true, "Tensor")];
      && LowerRefOf(args, 1) == OutputOp(0)
      && CloneRefOf(args, 1) == OperandAt(0)
  {
    var a0 := Arg("shape", "Tensor", true, "Tensor");
    var args := [a0, Arg("x", "Tensor", true, "Tensor")];
    assert args[..1] == [a0] && [a0][..0] == [];
    assert SlotCount([a0]) == 0;
  }

  /** ... but the shape closure binds every tensor argument in order, so it
      reads that tensor as parameter 1: the slots disagree. */
  lemma TensorNamedShapeKeepsParam()
    ensures var args := [Arg("shape", "Tensor", true, "Tensor"), Arg("x", "Tensor", true, "Tensor")];
      && Names(TensorArgs(args)) == ["shape", "x"]
      && ShapeParamsOf(TensorArgs(args))[1] == Param(1, "x", false)
  {
    var a0 := Arg("shape", "Tensor", true, "Tensor");
    var a1 := Arg("x", "Tensor", true, "Tensor");
    var args := [a0, a1];
    assert TensorArgs([a0]) == [a0] by {
      assert [a0][..0] == [];
    }
    assert TensorArgs(args) == [a0, a1] by {
      assert args[..1] == [a0];
    }
    assert !IsTensorList(a1);
  }

  // ---------------------------------------------------------------------
  // Failures

  /** A type without a constructor spelling, on an argument not named `shape`. */
  predicate NoCtorType(a: Arg)
  {
    a.name != "shape" && !IsTensorType(a.stype) && !IsAttrType(a.stype)
  }

  /** The constructor fails exactly on an argument with an unknown type, and
      reports the first one. */
  lemma {:induction false} CtorParamsErrors(args: seq<Arg>)
    ensures CtorParams(args).Ok? <==> forall k :: 0 <= k < |args| ==> !NoCtorType(args[k])
    ensures CtorParams(args).Err? ==>
      exists k :: (0 <= k < |args| && NoCtorType(args[k])
        && (forall i :: 0 <= i < k ==> !NoCtorType(args[i]))
        && CtorParams(args).error == NoSuchType(args[k].stype))
  {
    if args != [] {
      TypeTablesAgree(args[0].name, args[0].stype);
      CtorParamsErrors(args[1..]);
      if CtorParams(args).Err? && !NoCtorType(args[0]) {
        var k :| 0 <= k < |args[1..]| && NoCtorType(args[1..][k])
          && (forall i :: 0 <= i < k ==> !NoCtorType(args[1..][i]))
          && CtorParams(args[1..]).error == NoSuchType(args[1..][k].stype);
        assert NoCtorType(args[k + 1]);
        assert forall i :: 0 <= i < k + 1 ==> !NoCtorType(args[i]) by {
          forall i | 0 <= i < k + 1 ensures !NoCtorType(args[i]) {
            if i > 0 {
              assert args[i] == args[1..][i - 1];
            }
          }
        }
      }
    }
  }

  /** Attribute fields never fail once the constructor has accepted the arguments. */
  lemma {:induction false} AttrFieldsAccepted(attrs: seq<Arg>)
    requires forall k :: 0 <= k < |attrs| ==> !NoCtorType(attrs[k]) && !IsTensorKind(attrs[k])
    ensures AttrFields(attrs).Ok?
    ensures Names(StoredAttrs(attrs)) == Seconds(AttrFields(attrs).value)
  {
    if attrs != [] {
      TypeTablesAgree(attrs[0].name, attrs[0].stype);
      AttrFieldsAccepted(attrs[1..]);
    }
  }

  function Seconds(pairs: seq<(string, string)>): (names: seq<string>)
    ensures |names| == |pairs|
  {
    seq(|pairs|, k requires 0 <= k < |pairs| => pairs[k].1)
  }

  /** Once the partition and the constructor succeed, the attribute fields do too. */
  lemma AttrFieldsAfterCtor(args: seq<Arg>)
    requires CtorParams(args).Ok?
    ensures AttrFields(AttrArgs(args)).Ok?
    ensures Names(StoredAttrs(AttrArgs(args))) == Seconds(AttrFields(AttrArgs(args)).value)
  {
    var attrs := AttrArgs(args);
    CtorParamsErrors(args);
    PartitionCovers(args);
    forall k | 0 <= k < |attrs| ensures !NoCtorType(attrs[k]) && !IsTensorKind(attrs[k]) {
      assert attrs[k] in multiset(args);
    }
    AttrFieldsAccepted(attrs);
  }

  /** `node_type_define` fails exactly on a tensor list that is not last, a
      missing `lower_fn`, an empty `extras` entry, or an argument whose type
      has no constructor spelling. */
  lemma NodeFails(op: Op)
    ensures NodeSpec(op).Err? <==>
      || ListNotLast(op.args) || op.lowerFn.None?
      || (exists k :: 0 <= k < |op.extras| && |op.extras[k]| == 0)
      || (exists k :: 0 <= k < |op.args| && NoCtorType(op.args[k]))
  {
    NodeStages(op);
    CtorParamsErrors(op.args);
    if CtorParams(op.args).Ok? {
      AttrFieldsAfterCtor(op.args);
    }
  }

  /** The node succeeds exactly when each of its stages does. */
  lemma NodeStages(op: Op)
    ensures NodeSpec(op).Ok? <==>
      && !ListNotLast(op.args) && op.lowerFn.Some? && ExtraHeads(op.extras).Ok?
      && CtorParams(op.args).Ok? && AttrFields(AttrArgs(op.args)).Ok?
  {
  }

  /** The order of the failures: a tensor list that is not last; then a
      missing `lower_fn` when the shape must be inferred; then an empty
      `extras` entry; then a missing `lower_fn`; then the first argument
      whose type has no constructor spelling. */
  lemma NodeErrorOrder(op: Op)
    ensures var r := NodeSpec(op);
      var emptyExtra := exists k :: 0 <= k < |op.extras| && |op.extras[k]| == 0;
      && (ListNotLast(op.args) ==> r == Err(TensorListNotLast))
      && ((!ListNotLast(op.args) && op.lowerFn.None? && (op.shapeFn.None? || !emptyExtra))
            ==> r == Err(MissingKey("lower_fn")))
      && ((!ListNotLast(op.args) && (op.lowerFn.Some? || op.shapeFn.Some?) && emptyExtra)
            ==> r == Err(IndexOutOfRange))
      && ((!ListNotLast(op.args) && op.lowerFn.Some? && !emptyExtra && r.Err?)
            ==> exists k :: (0 <= k < |op.args| && NoCtorType(op.args[k])
                  && (forall i :: 0 <= i < k ==> !NoCtorType(op.args[i]))
                  && r.error == NoSuchType(op.args[k].stype)))
  {
    CtorParamsErrors(op.args);
    if CtorParams(op.args).Ok? {
      AttrFieldsAfterCtor(op.args);
    }
  }

  // ---------------------------------------------------------------------
  // The node

  /** The node of a well-formed op is named and kinded from the op, has one
      output per result, and passes `loctx` to the lowering function exactly
      when an `extras` entry asks for it. */
  lemma NodeHeader(op: Op)
    requires NodeSpec(op).Ok?
    ensures var n := NodeSpec(op).value;
      && n.className == op.opNodeName && n.kind == op.x10Enum
      && n.numOutputs == op.nResults && (n.multiOutput <==> op.nResults != 1)
      && Some(n.lowerFn) == op.lowerFn
      && |n.ctorParams| == |op.args|
      && (n.lowerCtx <==> exists k :: 0 <= k < |op.extras| && op.extras[k][0] == "needs_lowering_context")
  {
    var heads := ExtraHeads(op.extras).value;
    if "needs_lowering_context" in heads {
      var k :| 0 <= k < |heads| && heads[k] == "needs_lowering_context";
      assert op.extras[k][0] == "needs_lowering_context";
    }
  }

  /** The hash of a well-formed node lists exactly the attributes, never a
      tensor; its fields, initialisers and printed values are the attributes
      not named `shape`. */
  lemma NodeAttributes(op: Op)
    requires NodeSpec(op).Ok?
    ensures var n := NodeSpec(op).value;
      && n.hashFields == Names(AttrArgs(op.args))
      && |n.hashFields| + |TensorArgs(op.args)| == |op.args|
      && (forall k :: 0 <= k < |AttrArgs(op.args)| ==> !IsTensorKind(AttrArgs(op.args)[k]))
      && n.printed == n.fieldInits == Seconds(n.fields) == Names(StoredAttrs(AttrArgs(op.args)))
      && (forall k :: 0 <= k < |n.printed| ==> n.printed[k] != "shape")
  {
    PartitionCovers(op.args);
    AttrFieldsAfterCtor(op.args);
    StoredAttrsNoShape(AttrArgs(op.args));
  }

  /** The operands of a well-formed node are the tensor arguments in order,
      and every argument has a `Lower` and a `Clone` reference. */
  lemma NodeOperands(op: Op)
    requires NodeSpec(op).Ok?
    ensures var n := NodeSpec(op).value;
      && Flatten(n.operands) == Names(TensorArgs(op.args))
      && |n.lowerRefs| == |n.cloneRefs| == |op.args|
  {
    NodeOperandsOf(op);
    OperandOrder(op.args);
  }

  lemma NodeOperandsOf(op: Op)
    requires NodeSpec(op).Ok?
    ensures var n := NodeSpec(op).value; var t := TensorArgs(op.args);
      && !ListNotLast(op.args)
      && n.operands == OperandsOf(t, exists k :: 0 <= k < |t| && IsTensorList(t[k]))
      && |n.lowerRefs| == |n.cloneRefs| == |op.args|
  {
  }

  lemma {:induction false} StoredAttrsNoShape(attrs: seq<Arg>)
    ensures forall k :: 0 <= k < |StoredAttrs(attrs)| ==> StoredAttrs(attrs)[k].name != "shape"
  {
    if attrs != [] {
      StoredAttrsNoShape(attrs[1..]);
    }
  }

  /** In the node of a well-formed op with no tensor argument named `shape`,
      every tensor argument reads the same slot in `Lower` and `Clone`, that
      slot is its position among the node's operands, and an inferred shape
      closure binds it at that same parameter. */
  lemma NodeSlots(op: Op, j: nat)
    requires NodeSpec(op).Ok?
    requires j < |op.args| && IsTensorKind(op.args[j])
    requires forall k :: 0 <= k < |op.args| && IsTensorKind(op.args[k]) ==> op.args[k].name != "shape"
    ensures var n := NodeSpec(op).value; var k := |TensorArgs(op.args[..j])|;
      && k < |Flatten(n.operands)| && Flatten(n.operands)[k] == op.args[j].name
      && n.lowerRefs[j] == (if IsTensorList(op.args[j]) then ArrayOperands(k) else OutputOp(k))
      && n.cloneRefs[j] == (if IsTensorList(op.args[j]) then OperandSubspan(k) else OperandAt(k))
      && (n.shape.Inferred? ==> k < |n.shape.params| && n.shape.params[k] == Param(k, op.args[j].name, IsTensorList(op.args[j])))
  {
    NodeOperands(op);
    SlotAgreement(op.args, j);
  }
}
