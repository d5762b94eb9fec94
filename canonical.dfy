/** `canonicalize_op`: one op record of the definition list, as read from
    YAML, turned into the canonical record the emitters use. The source
    updates the dictionary in place; here the input record (`RawOp`, an
    absent key is `None`) and the canonical record (`Op`) are two values. */
module Canonical {
  import opened Wrappers
  import opened Strings
  import opened Signature
  import opened Naming

  /** `result_dtype`: one type name or a list of them (`listify`). */
  datatype DTypeSpec = DTypeName(name: string) | DTypeList(names: seq<string>)

  /** The keys of one entry of the op list that the generator reads. */
  datatype RawOp = RawOp(
    def: string,
    x10Enum: Option<string>,
    opNodeName: Option<string>,
    swiftName: Option<string>,
    extras: Option<seq<string>>,
    swiftNamespace: Option<string>,
    generics: Option<seq<(string, string)>>,  // a YAML mapping, in insertion order
    protection: Option<string>,
    shapeFn: Option<string>,
    resultDtype: Option<DTypeSpec>,
    lowerFn: Option<string>)

  /** The record after canonicalisation; `def` is gone. */
  datatype Op = Op(
    cName: string,
    args: seq<Arg>,
    results: seq<ResultSpec>,
    nResults: nat,
    x10Enum: string,
    opNodeName: string,
    swiftName: string,
    extras: seq<seq<string>>,
    swiftNamespace: Option<string>,
    generics: Option<seq<(string, string)>>,
    protection: string,
    shapeFn: Option<string>,
    resultDtype: Option<DTypeSpec>,
    lowerFn: Option<string>)

  /** The diagnostics the generator prints. */
  datatype Note =
    | ExtraneousEnum(x10Enum: string)                 // "Extranious enum: ..."
    | Mismatch(actual: string, expected: string)      // "<actual> -> <expected>"
    | TotalOps(count: nat)                            // "<count> total ops"
    | MissingSwiftTypes(opNodeName: string)           // "Missing swift types: ..."

  const AtenPrefix := "at::aten::"
  const RawNamespace := "_RawXLA"

  /** `is_swift`: the erased result types differ from the raw ones. */
  predicate IsSwift(results: seq<ResultSpec>)
  {
    seq(|results|, k requires 0 <= k < |results| => EraseGenerics(results[k].rawType))
      != seq(|results|, k requires 0 <= k < |results| => results[k].rawType)
  }

  /** `extras`, each entry split at whitespace; none given means none. */
  function SplitExtras(extras: Option<seq<string>>): (words: seq<seq<string>>)
    ensures extras.None? ==> words == []
    ensures extras.Some? ==> |words| == |extras.value|
    ensures extras.Some? ==> forall k :: 0 <= k < |words| ==> words[k] == Words(extras.value[k])
  {
    if extras.None? then [] else seq(|extras.value|, k requires 0 <= k < |extras.value| => Words(extras.value[k]))
  }

  /** The note printed when a given `x10_enum` equals the default. */
  function EnumNotes(raw: RawOp, cName: string): seq<Note>
  {
    if raw.x10Enum == Some(AtenPrefix + cName) then [ExtraneousEnum(raw.x10Enum.value)] else []
  }

  /** The whole of `canonicalize_op`: the notes printed and the record, or the
      exception raised. */
  function CanonicalOp(raw: RawOp): (seq<Note>, Result<Op>)
  {
    match ParseDef(raw.def)
    case Err(e) => ([], Err(e))
    case Ok(d) => Complete(raw, d)
  }

  /** The defaults `canonicalize_op` fills in once the signature has parsed. */
  function Complete(raw: RawOp, d: Decl): (seq<Note>, Result<Op>)
  {
    var notes := EnumNotes(raw, d.cName);
    var nodeName := if raw.opNodeName.Some? then Ok(raw.opNodeName.value) else SnakeToCamel(d.cName);
    if nodeName.Err? then (notes, Err(nodeName.error))
    else
      var isSwift := IsSwift(d.results);
      (notes, Ok(Op(
        d.cName, d.args, d.results, |d.results|,
        raw.x10Enum.GetOr(AtenPrefix + d.cName),
        nodeName.value,
        raw.swiftName.GetOr(d.cName),
        SplitExtras(raw.extras),
        if isSwift && raw.swiftNamespace.None? then Some(RawNamespace) else raw.swiftNamespace,
        if isSwift && raw.generics.None? then Some([]) else raw.generics,
        raw.protection.GetOr("public"),
        raw.shapeFn, raw.resultDtype, raw.lowerFn)))
  }

  /** `canonicalize_op`, step by step as the source fills the record. */
  method Canonicalize(raw: RawOp) returns (notes: seq<Note>, r: Result<Op>)
    ensures (notes, r) == CanonicalOp(raw)
  {
    notes := [];
    var parsed := ParseSignature(raw.def);
    if parsed.Err? {
      return [], Err(parsed.error);
    }
    var d := parsed.value;
    assert CanonicalOp(raw) == Complete(raw, d);
    var x10Enum: string;
    if raw.x10Enum.Some? {
      x10Enum := raw.x10Enum.value;
      if x10Enum == AtenPrefix + d.cName {
        notes := notes + [ExtraneousEnum(x10Enum)];
      }
    } else {
      x10Enum := AtenPrefix + d.cName;
    }
    assert notes == EnumNotes(raw, d.cName);
    var opNodeName: string;
    if raw.opNodeName.Some? {
      opNodeName := raw.opNodeName.value;
    } else {
      var camel := SnakeToCamel(d.cName);
      if camel.Err? {
        assert Complete(raw, d) == (notes, Err(camel.error));
        return notes, Err(camel.error);
      }
      opNodeName := camel.value;
    }
    var swiftName := if raw.swiftName.Some? then raw.swiftName.value else d.cName;
    var extras := SplitExtras(raw.extras);
    var isSwift := IsSwift(d.results);
    var swiftNamespace := raw.swiftNamespace;
    if isSwift && swiftNamespace.None? {
      swiftNamespace := Some(RawNamespace);
    }
    var generics := raw.generics;
    if isSwift && generics.None? {
      generics := Some([]);
    }
    var protection := if raw.protection.Some? then raw.protection.value else "public";
    r := Ok(Op(d.cName, d.args, d.results, |d.results|, x10Enum, opNodeName, swiftName, extras,
               swiftNamespace, generics, protection, raw.shapeFn, raw.resultDtype, raw.lowerFn));
  }
}
