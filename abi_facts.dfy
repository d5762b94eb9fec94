/** What the C ABI emitter guarantees: the template tensor precedence, the
    arity rule, the dtype resolution order and the order of its failures. */
module AbiFacts {
  import opened Wrappers
  import opened Signature
  import opened Canonical
  import opened Types
  import opened IrNode
  import opened IrNodeFacts
  import opened Abi

  /** The template is the tensor named by `shape_fn`, else the one named by a
      single `result_dtype`, else the first tensor argument (through
      `FirstTensor` when it is a list); it exists exactly when the op has a
      tensor argument. */
  lemma TemplatePrecedence(op: Op)
    ensures var names := Names(TensorArgs(op.args));
      && (TemplateTensor(op).Err? <==> TensorArgs(op.args) == [])
      && (TemplateTensor(op).Err? ==> TemplateTensor(op).error == IndexOutOfRange)
      && ((op.shapeFn.Some? && op.shapeFn.value in names && op.shapeFn.value != "")
            ==> TemplateTensor(op) == Ok(TensorNamed(op.shapeFn.value)))
      && ((!(op.shapeFn.Some? && op.shapeFn.value in names)
            && SingleDType(op).Some? && SingleDType(op).value in names && SingleDType(op).value != "")
            ==> TemplateTensor(op) == Ok(TensorNamed(SingleDType(op).value)))
      && ((!(op.shapeFn.Some? && op.shapeFn.value in names)
            && !(SingleDType(op).Some? && SingleDType(op).value in names)
            && TensorArgs(op.args) != [])
            ==> TemplateTensor(op) == Ok(
                  if IsTensorList(TensorArgs(op.args)[0]) then FirstOfList(TensorArgs(op.args)[0].name)
                  else TensorNamed(TensorArgs(op.args)[0].name)))
  {
  }

  /** One result returns the tensor itself; two fill the fields `x, y` of a
      pair; three fill `v0, v1, v2` of a triple; any other count is refused. */
  lemma Arity(op: Op)
    ensures ReturnKindOf(op).Ok? <==> 1 <= op.nResults <= 3
    ensures ReturnKindOf(op).Err? ==> ReturnKindOf(op).error == UnsupportedArity(op.cName, op.nResults)
    ensures ReturnKindOf(op).Ok? && op.nResults > 1 ==> |TupleFields(ReturnKindOf(op).value)| == op.nResults
    ensures ReturnKindOf(op) == Ok(SingleTensor) <==> op.nResults == 1
    ensures ReturnKindOf(op) == Ok(TensorPair) ==> TupleFields(TensorPair) == ["x", "y"]
  {
  }

  /** `dtypes` has one entry per result when `result_dtype` is absent, one
      entry when it is a single name, and the list otherwise; the outputs
      fail with `IndexError` exactly when it is shorter than the results. */
  lemma DTypesCover(op: Op, template: Template, refs: seq<AbiRef>)
    requires |refs| == |op.args|
    ensures op.resultDtype.None? ==> |DTypes(op)| == op.nResults && forall i :: 0 <= i < op.nResults ==> DTypes(op)[i] == ""
    ensures op.resultDtype.Some? && op.resultDtype.value.DTypeName? ==> DTypes(op) == [op.resultDtype.value.name]
    ensures ResultsOf(op, template, refs).Err? <==> |DTypes(op)| < op.nResults
    ensures ResultsOf(op, template, refs).Err? ==> op.resultDtype.Some? && ResultsOf(op, template, refs).error == IndexOutOfRange
    ensures ResultsOf(op, template, refs).Ok? ==> |ResultsOf(op, template, refs).value| == op.nResults
  {
  }

  /** A single `result_dtype` name on an op with several results runs off `dtypes`. */
  lemma SingleDTypeManyResults(op: Op, template: Template, refs: seq<AbiRef>)
    requires |refs| == |op.args|
    requires op.resultDtype.Some? && op.resultDtype.value.DTypeName? && op.nResults >= 2
    ensures ResultsOf(op, template, refs) == Err(IndexOutOfRange)
  {
    DTypesCover(op, template, refs);
  }

  lemma {:induction false} TensorArgsHas(args: seq<Arg>)
    ensures forall k :: 0 <= k < |args| && IsTensorKind(args[k]) ==> args[k] in TensorArgs(args)
  {
    if args != [] {
      TensorArgsHas(args[..|args| - 1]);
    }
  }

  /** An argument whose name no tensor argument has is not a tensor. */
  lemma NamedNotTensor(args: seq<Arg>, j: nat)
    requires j < |args|
    ensures IsTensorKind(args[j]) ==> args[j].name in Names(TensorArgs(args))
  {
    TensorArgsHas(args);
    var t := TensorArgs(args);
    if IsTensorKind(args[j]) {
      var k :| 0 <= k < |t| && t[k] == args[j];
      assert Names(t)[k] == args[j].name;
    }
  }

  /** Output `i` takes its dtype from, in order of precedence: nothing (the
      template), a tensor argument of that name, the last argument of that
      name (never a tensor then), or the literal scalar type of that name. */
  lemma DTypeResolution(op: Op, template: Template, refs: seq<AbiRef>, i: nat)
    requires |refs| == |op.args|
    requires i < |DTypes(op)|
    ensures var d := DTypes(op)[i]; var r := ResultSourceOf(op, template, refs, i);
      && r.Ok?
      && (d == "" ==> r.value == FromTemplate(template, i))
      && ((d != "" && d in Names(TensorArgs(op.args))) ==> r.value == FromTensor(d, i))
      && ((d != "" && d !in Names(TensorArgs(op.args)) && (exists k :: 0 <= k < |op.args| && op.args[k].name == d))
            ==> exists j :: (0 <= j < |op.args| && op.args[j].name == d
                  && (forall k :: j < k < |op.args| ==> op.args[k].name != d)
                  && !IsTensorKind(op.args[j])
                  && r.value == WithArgType(template, i, refs[j])))
      && ((d != "" && forall k :: 0 <= k < |op.args| ==> op.args[k].name != d)
            ==> r.value == WithScalarType(template, i, d))
  {
    var d := DTypes(op)[i];
    var j := LastArgNamed(op.args, d);
    if j.Some? {
      NamedNotTensor(op.args, j.value);
    }
    var t := TensorArgs(op.args);
    if d in Names(t) {
      TensorArgsIn(op.args);
      var m :| 0 <= m < |t| && Names(t)[m] == d;
      assert t[m] in op.args;
    }
  }

  /** The `extras` loop: a reference comes from the first entry that
      canonicalises the argument, provided every earlier entry has the words
      the loop reads; a missing word raises `IndexError`. */
  lemma {:induction false} CanonicalRefSpec(extras: seq<seq<string>>, name: string, stype: string)
    ensures var r := CanonicalRef(extras, name, stype);
      && (r.Err? ==> r.error == IndexOutOfRange)
      && (r.Ok? && r.value.Some? ==> exists k :: (0 <= k < |extras| && CanonicalizesArg(extras[k], name)
            && (forall i :: 0 <= i < k ==> !CanonicalizesArg(extras[i], name))
            && CanonicalFrom(extras[k], name, stype) == Ok(r.value.value)))
      && (r.Ok? && r.value.None? ==> forall k :: 0 <= k < |extras| ==> |extras[k]| > 0 && !CanonicalizesArg(extras[k], name))
    decreases |extras|
  {
    if extras != [] {
      CanonicalRefSpec(extras[1..], name, stype);
      var r := CanonicalRef(extras, name, stype);
      var e := extras[0];
      if r.Ok? && r.value.Some? && !CanonicalizesArg(e, name) {
        var rest := extras[1..];
        var k :| 0 <= k < |rest| && CanonicalizesArg(rest[k], name)
          && (forall i :: 0 <= i < k ==> !CanonicalizesArg(rest[i], name))
          && CanonicalFrom(rest[k], name, stype) == Ok(r.value.value);
        assert extras[k + 1] == rest[k];
        forall i | 0 <= i < k + 1 ensures !CanonicalizesArg(extras[i], name) {
          if i > 0 {
            assert extras[i] == rest[i - 1];
          }
        }
      }
      if r.Ok? && r.value.None? {
        forall k | 0 <= k < |extras| ensures |extras[k]| > 0 && !CanonicalizesArg(extras[k], name) {
          if k > 0 {
            assert extras[k] == extras[1..][k - 1];
          }
        }
      }
    }
  }

  /** Building the `MakeNode` arguments fails only on a malformed
      `canonicalize` entry, and then with `IndexError`. */
  lemma {:induction false} NodeArgsErrors(op: Op, template: Template, args: seq<Arg>)
    ensures NodeArgs(op, template, args).Err? <==> exists k :: 0 <= k < |args| && AbiRefOf(op, template, args[k]).Err?
    ensures NodeArgs(op, template, args).Err? ==> NodeArgs(op, template, args).error == IndexOutOfRange
  {
    if args != [] {
      NodeArgsErrors(op, template, args[1..]);
      CanonicalRefSpec(op.extras, args[0].name, args[0].stype);
      if exists k :: 0 <= k < |args| && AbiRefOf(op, template, args[k]).Err? {
        var k :| 0 <= k < |args| && AbiRefOf(op, template, args[k]).Err?;
        if k > 0 {
          assert args[k] == args[1..][k - 1];
        }
      }
    }
  }

  /** An argument type the ABI has a spelling for. */
  predicate AbiKnown(a: Arg)
  {
    IsTensorType(a.stype) || IsAttrType(a.stype)
  }

  lemma AbiParamsConsOk(args: seq<Arg>)
    requires args != []
    ensures AbiParams(args).Ok? <==> AbiKnown(args[0]) && AbiParams(args[1..]).Ok?
  {
    TypeTablesAgree(args[0].name, args[0].stype);
  }

  lemma AbiParamsConsValue(args: seq<Arg>)
    requires args != [] && AbiParams(args).Ok?
    ensures Seconds(AbiParams(args).value) == [args[0].name] + Seconds(AbiParams(args[1..]).value)
  {
  }

  lemma AbiParamsConsError(args: seq<Arg>)
    requires args != [] && AbiParams(args).Err?
    ensures AbiParams(args).error == (if AbiKnown(args[0]) then AbiParams(args[1..]).error else UnknownAbiType(args[0].stype))
  {
    TypeTablesAgree(args[0].name, args[0].stype);
  }

  /** The ABI parameters fail exactly when some argument has a type the ABI
      does not know; otherwise they declare every argument, by name, in
      order. */
  lemma {:induction false} AbiParamsOk(args: seq<Arg>)
    ensures AbiParams(args).Ok? <==> forall k :: 0 <= k < |args| ==> AbiKnown(args[k])
    ensures AbiParams(args).Ok? ==> Seconds(AbiParams(args).value) == Names(args)
  {
    if args != [] {
      AbiParamsConsOk(args);
      if AbiParams(args).Ok? {
        AbiParamsConsValue(args);
      }
      AbiParamsOk(args[1..]);
      assert Names(args) == [args[0].name] + Names(args[1..]);
      if !forall k :: 0 <= k < |args| ==> AbiKnown(args[k]) {
        var k :| 0 <= k < |args| && !AbiKnown(args[k]);
        if k > 0 {
          assert args[k] == args[1..][k - 1];
        }
      }
    }
  }

  /** A failure names the type of the first argument the ABI does not know. */
  lemma {:induction false} AbiParamsBadType(args: seq<Arg>)
    requires AbiParams(args).Err?
    ensures exists k :: (0 <= k < |args| && !AbiKnown(args[k])
      && AbiParams(args).error == UnknownAbiType(args[k].stype)
      && forall j :: 0 <= j < k ==> AbiKnown(args[j]))
  {
    AbiParamsConsOk(args);
    AbiParamsConsError(args);
    if AbiKnown(args[0]) {
      AbiParamsBadType(args[1..]);
      var k :| 0 <= k < |args[1..]| && !AbiKnown(args[1..][k]) && AbiParams(args[1..]).error == UnknownAbiType(args[1..][k].stype)
        && forall j :: 0 <= j < k ==> AbiKnown(args[1..][j]);
      assert args[k + 1] == args[1..][k];
      forall j | 0 <= j < k + 1
        ensures AbiKnown(args[j])
      {
        if j > 0 {
          assert args[j] == args[1..][j - 1];
        }
      }
    } else {
      assert !AbiKnown(args[0]);
    }
  }

  /** The ABI parameters fail on the first argument of a type the ABI does
      not know, with no exemption for `shape`. */
  lemma AbiParamsErrors(args: seq<Arg>)
    ensures AbiParams(args).Ok? <==> forall k :: 0 <= k < |args| ==> IsTensorType(args[k].stype) || IsAttrType(args[k].stype)
    ensures AbiParams(args).Ok? ==> Seconds(AbiParams(args).value) == Names(args)
    ensures AbiParams(args).Err? ==> exists k :: (0 <= k < |args|
      && !IsTensorType(args[k].stype) && !IsAttrType(args[k].stype)
      && AbiParams(args).error == UnknownAbiType(args[k].stype)
      && forall j :: 0 <= j < k ==> IsTensorType(args[j].stype) || IsAttrType(args[j].stype))
  {
    AbiParamsOk(args);
    if AbiParams(args).Err? {
      AbiParamsBadType(args);
    }
  }

  /** `c_function_define` fails, in this order: no tensor argument
      (`IndexError`); a malformed `canonicalize` entry (`IndexError`); an
      unsupported number of results; an argument type the ABI does not
      know; `dtypes` shorter than the results (`IndexError`). */
  lemma AbiErrors(op: Op)
    ensures var r := AbiSpec(op);
      && (TensorArgs(op.args) == [] ==> r == Err(IndexOutOfRange))
      && ((TensorArgs(op.args) != [] && NodeArgs(op, TemplateTensor(op).value, op.args).Err?)
            ==> r == Err(IndexOutOfRange))
      && ((TensorArgs(op.args) != [] && NodeArgs(op, TemplateTensor(op).value, op.args).Ok?
            && !(1 <= op.nResults <= 3)) ==> r == Err(UnsupportedArity(op.cName, op.nResults)))
      && ((TensorArgs(op.args) != [] && NodeArgs(op, TemplateTensor(op).value, op.args).Ok?
            && 1 <= op.nResults <= 3 && AbiParams(op.args).Err?)
            ==> r.Err? && r.error.UnknownAbiType?)
      && (r.Ok? <==> (TensorArgs(op.args) != [] && NodeArgs(op, TemplateTensor(op).value, op.args).Ok?
            && 1 <= op.nResults <= 3 && AbiParams(op.args).Ok? && |DTypes(op)| >= op.nResults))
  {
    TemplatePrecedence(op);
    Arity(op);
    AbiParamsErrors(op.args);
    if TensorArgs(op.args) != [] {
      var t := TemplateTensor(op).value;
      NodeArgsErrors(op, t, op.args);
      if NodeArgs(op, t, op.args).Ok? {
        DTypesCover(op, t, NodeArgs(op, t, op.args).value);
      }
    }
  }
}
