/** What `canonicalize_op` guarantees about the record it produces. */
module CanonicalFacts {
  import opened Wrappers
  import opened Strings
  import opened Tokenizer
  import opened Signature
  import opened SignatureFacts
  import opened Naming
  import opened Canonical

  /** An op is a Swift-facing op exactly when one of its results is written
      with a type parameter (`Tensor<W>`): every result erases to `Tensor`. */
  lemma IsSwiftIff(results: seq<ResultSpec>)
    requires forall k :: 0 <= k < |results| ==> WellFormedResult(results[k])
    ensures IsSwift(results) <==> exists k :: 0 <= k < |results| && IsGenericTensor(results[k].rawType)
  {
    var erased := seq(|results|, k requires 0 <= k < |results| => EraseGenerics(results[k].rawType));
    var raw := seq(|results|, k requires 0 <= k < |results| => results[k].rawType);
    if exists k :: 0 <= k < |results| && IsGenericTensor(results[k].rawType) {
      var k :| 0 <= k < |results| && IsGenericTensor(results[k].rawType);
      assert erased[k] == "Tensor" != raw[k];
    }
    if erased != raw {
      assert |erased| == |raw|;
      var k :| 0 <= k < |results| && erased[k] != raw[k];
      EraseToTensor(results[k].rawType);
    }
  }

  /** `canonicalize_op` fails exactly when the signature does not parse, or
      when the node name has to be derived from a C name that
      `snake_to_camel` cannot take (an empty piece between underscores). */
  lemma CanonicalErrors(raw: RawOp)
    ensures var (notes, r) := CanonicalOp(raw);
      && (r.Err? <==> ParseDef(raw.def).Err? || (raw.opNodeName.None? && !WellSeparated(ParseDef(raw.def).value.cName)))
      && (ParseDef(raw.def).Err? ==> notes == [] && r.error in {InvalidFormat(raw.def), IndexOutOfRange})
      && (ParseDef(raw.def).Ok? && r.Err? ==> r.error == IndexOutOfRange)
  {
    if ParseDef(raw.def).Err? {
      ParseErrors(raw.def);
    } else {
      SnakeToCamelSpec(ParseDef(raw.def).value.cName);
    }
  }

  /** The only note is the redundant-enum one, printed exactly when the given
      `x10_enum` equals the default the op would get anyway. */
  lemma CanonicalNotes(raw: RawOp)
    ensures var notes := CanonicalOp(raw).0;
      && |notes| <= 1
      && (|notes| == 1 <==> ParseDef(raw.def).Ok? && raw.x10Enum == Some(AtenPrefix + ParseDef(raw.def).value.cName))
      && (|notes| == 1 ==> notes[0] == ExtraneousEnum(raw.x10Enum.value))
  {
  }

  /** The canonical record: the parsed signature, `n_results` equal to the
      number of results, every default filled in only where the key was
      absent, and the Swift namespace and generics defaulted only for ops
      with a parameterised result. */
  lemma CanonicalFields(raw: RawOp)
    requires CanonicalOp(raw).1.Ok?
    ensures var op := CanonicalOp(raw).1.value;
      && ParseDef(raw.def).Ok?
      && op.cName == ParseDef(raw.def).value.cName
      && op.args == ParseDef(raw.def).value.args
      && op.results == ParseDef(raw.def).value.results
      && op.nResults == |op.results| >= 1
      && (forall k :: 0 <= k < |op.args| ==> WellFormedArg(op.args[k]))
      && (forall k :: 0 <= k < |op.results| ==> op.results[k].name == "" && EraseGenerics(op.results[k].rawType) == "Tensor")
      && op.x10Enum == (if raw.x10Enum.Some? then raw.x10Enum.value else AtenPrefix + op.cName)
      && (raw.opNodeName.Some? ==> op.opNodeName == raw.opNodeName.value)
      && (raw.opNodeName.None? ==> WellSeparated(op.cName) && op.opNodeName == CamelRef(op.cName, true) && '_' !in op.opNodeName)
      && op.swiftName == (if raw.swiftName.Some? then raw.swiftName.value else op.cName)
      && op.protection == (if raw.protection.Some? then raw.protection.value else "public")
      && (raw.swiftNamespace.Some? ==> op.swiftNamespace == raw.swiftNamespace)
      && (raw.swiftNamespace.None? ==>
            (op.swiftNamespace == Some(RawNamespace) <==> exists k :: 0 <= k < |op.results| && IsGenericTensor(op.results[k].rawType)))
      && (raw.swiftNamespace.None? ==> op.swiftNamespace.None? || op.swiftNamespace == Some(RawNamespace))
      && (raw.generics.Some? ==> op.generics == raw.generics)
      && (raw.generics.None? ==>
            (op.generics == Some([]) <==> exists k :: 0 <= k < |op.results| && IsGenericTensor(op.results[k].rawType)))
      && (raw.generics.None? ==> op.generics.None? || op.generics == Some([]))
      && op.shapeFn == raw.shapeFn && op.resultDtype == raw.resultDtype && op.lowerFn == raw.lowerFn
  {
    var d := ParseDef(raw.def).value;
    ParseTokensSound(Tokenize(raw.def), raw.def);
    IsSwiftIff(d.results);
    if raw.opNodeName.None? {
      SnakeToCamelSpec(d.cName);
      CamelRefNoUnderscore(d.cName, true);
    }
  }

  /** Every `extras` entry becomes its whitespace-separated words: non-empty,
      free of whitespace, and together the entry's non-blank characters. */
  lemma CanonicalExtras(raw: RawOp)
    requires CanonicalOp(raw).1.Ok?
    ensures var op := CanonicalOp(raw).1.value;
      && (raw.extras.None? ==> op.extras == [])
      && (raw.extras.Some? ==> |op.extras| == |raw.extras.value|)
      && forall k :: 0 <= k < |op.extras| ==>
           && raw.extras.Some?
           && Concat(op.extras[k]) == Squeeze(raw.extras.value[k])
           && forall j :: 0 <= j < |op.extras[k]| ==> |op.extras[k][j]| > 0
  {
    var op := CanonicalOp(raw).1.value;
    forall k | 0 <= k < |op.extras|
      ensures raw.extras.Some?
      ensures Concat(op.extras[k]) == Squeeze(raw.extras.value[k])
      ensures forall j :: 0 <= j < |op.extras[k]| ==> |op.extras[k][j]| > 0
    {
      WordsSpec(raw.extras.value[k]);
    }
  }
}
