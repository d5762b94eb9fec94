/** The argument types the generator knows, and what each emitter writes for
    them: the node constructor parameter, the node's attribute field and the
    C ABI parameter. `builtin_types` maps four Swift enum or struct types to
    their ABI declaration, their converter and their C++ type. */
module Types {
  import opened Wrappers

  /** One entry of `builtin_types`; the converter is applied to the argument name. */
  datatype Builtin = Builtin(abiType: string, converter: string, cppType: string)

  const BuiltinTypes: map<string, Builtin> := map[
    "TFPadding" := Builtin("enum TFPadding", "ToTFPadding", "tensorflow::Padding"),
    "TFDataFormat" := Builtin("enum TFDataFormat", "x10::ToTFFormat", "tensorflow::TensorFormat"),
    "TFMirrorPadMode" := Builtin("enum TFMirrorPadMode", "ToTFMirrorPadMode", "tensorflow::MirrorPadMode"),
    "PaddingConfig" := Builtin("PaddingConfig", "ToXLAPaddingConfig", "xla::PaddingConfig")
  ]

  /** The non-tensor types with a fixed spelling in every emitter. */
  const ScalarTypes: set<string> := {"Int64", "Bool", "Float", "[Int64]", "ScalarType?", "ScalarType", "AnyScalar"}

  predicate IsTensorType(stype: string)
  {
    stype == "Tensor" || stype == "[Tensor]"
  }

  /** A type an attribute may have. */
  predicate IsAttrType(stype: string)
  {
    stype in ScalarTypes || stype in BuiltinTypes
  }

  /** `format_ctor_arg`: the C++ type of a node constructor parameter. An
      argument named `shape` is always an `xla::Shape`, whatever its type. */
  function CtorParamType(name: string, stype: string): Result<string>
  {
    if name == "shape" then Ok("xla::Shape")
    else if stype == "Tensor" then Ok("const Value&")
    else if stype == "[Tensor]" then Ok("absl::Span<const Value>")
    else if stype == "Int64" then Ok("xla::int64")
    else if stype == "Bool" then Ok("bool")
    else if stype == "Float" then Ok("float")
    else if stype == "[Int64]" then Ok("std::vector<xla::int64>")
    else if stype == "ScalarType?" then Ok("c10::optional<at::ScalarType>")
    else if stype == "ScalarType" then Ok("at::ScalarType")
    else if stype == "AnyScalar" then Ok("at::Scalar")
    else if stype in BuiltinTypes then Ok(BuiltinTypes[stype].cppType)
    else Err(NoSuchType(stype))
  }

  /** `format_attr_define` for an attribute not named `shape`: the C++ type
      of the node's field. */
  function AttrFieldType(stype: string): Result<string>
  {
    if stype == "Int64" then Ok("xla::int64")
    else if stype == "Bool" then Ok("bool")
    else if stype == "Float" then Ok("float")
    else if stype == "ScalarType?" then Ok("c10::optional<at::ScalarType>")
    else if stype == "ScalarType" then Ok("at::ScalarType")
    else if stype == "AnyScalar" then Ok("at::Scalar")
    else if stype == "[Int64]" then Ok("std::vector<xla::int64>")
    else if stype in BuiltinTypes then Ok(BuiltinTypes[stype].cppType)
    else Err(NoSuchType(stype))
  }

  /** `format_arg_def`: the type of a parameter of the C ABI function. There
      is no exemption for `shape` here. */
  function AbiParamType(stype: string): Result<string>
  {
    if stype == "Tensor" then Ok("OpaqueXLATensor*")
    else if stype == "[Tensor]" then Ok("OpaqueXLATensorArrayRef")
    else if stype == "Int64" then Ok("int64_t")
    else if stype == "Float" then Ok("float")
    else if stype == "Bool" then Ok("bool")
    else if stype == "ScalarType?" then Ok("Optional_XLAScalarType")
    else if stype == "ScalarType" then Ok("XLATensorScalarType")
    else if stype == "AnyScalar" then Ok("XLAScalar")
    else if stype == "[Int64]" then Ok("Int64ArrayRef")
    else if stype in BuiltinTypes then Ok(BuiltinTypes[stype].abiType)
    else Err(UnknownAbiType(stype))
  }

  /** The three tables accept the same types: tensors and attribute types in
      the constructor and the ABI, attribute types alone for fields. The
      constructor also accepts anything for an argument named `shape`, the
      ABI does not; the attribute field and constructor agree on the C++
      type of every attribute not named `shape`. */
  lemma TypeTablesAgree(name: string, stype: string)
    ensures CtorParamType(name, stype).Ok? <==> name == "shape" || IsTensorType(stype) || IsAttrType(stype)
    ensures AbiParamType(stype).Ok? <==> IsTensorType(stype) || IsAttrType(stype)
    ensures AttrFieldType(stype).Ok? <==> IsAttrType(stype)
    ensures CtorParamType(name, stype).Err? ==> CtorParamType(name, stype).error == NoSuchType(stype)
    ensures AttrFieldType(stype).Err? ==> AttrFieldType(stype).error == NoSuchType(stype)
    ensures AbiParamType(stype).Err? ==> AbiParamType(stype).error == UnknownAbiType(stype)
    ensures name != "shape" && IsAttrType(stype) ==> CtorParamType(name, stype) == AttrFieldType(stype)
    ensures stype in BuiltinTypes ==> AbiParamType(stype) == Ok(BuiltinTypes[stype].abiType)
  {
  }

  /** An argument named `shape` of a type no table knows gets a node
      constructor parameter but no C ABI parameter. */
  lemma ShapeOnlyInNode(stype: string)
    requires !IsTensorType(stype) && !IsAttrType(stype)
    ensures CtorParamType("shape", stype) == Ok("xla::Shape")
    ensures AbiParamType(stype) == Err(UnknownAbiType(stype))
  {
    TypeTablesAgree("shape", stype);
  }
}
