# A verified model of the x10 op-binding generator

`generate_ops.py` reads a list of op definitions and emits three things for
each op: a C++ IR node class (`node_type_define`), a C ABI entry point
(`c_function_define`) and, for ops in the `_RawXLA` namespace, a Swift
wrapper (`swift_wrapper_define`). Every op carries a signature such as
`add(x: Tensor, _ y: Tensor<T>) -> Tensor`, which `canonicalize_op` tokenizes
and parses into arguments `(name, erased type, (explicit label, raw type))`
and results, filling in the defaults of the other keys. `main` canonicalizes
the list, requires the node names to be in order, writes the C++ file and
then the Swift file, and prints a note for every op without a wrapper.

This project models that core in Dafny, module by module:

| module | file | models |
|---|---|---|
| `Wrappers` | wrappers.dfy | `Option`, `Result` and the exceptions the generator raises |
| `Strings` | strings.dfy | `str.split`, `" ".join`, whitespace `str.split()`, ASCII upper-casing |
| `Tokenizer` | tokenizer.dfy | the `re.findall` tokenizer of a signature |
| `Signature` | signature.dfy | `erase_generics` and the index-walking signature parser |
| `Naming` | naming.dfy | `snake_to_camel` |
| `Canonical` | canonical.dfy | `canonicalize_op`: the op record before and after |
| `Types` | types.dfy | the type tables of the three emitters and `builtin_types` |
| `IrNode` | ir_node.dfy | `node_type_define`: partition, slot counters, shape function, hash fields |
| `Abi` | abi.dfy | `c_function_define`: `first_tensor`, argument references, arity, dtypes |
| `Formatting` | formatting.dfy | `format_args` |
| `Swift` | swift.dfy | `swift_wrapper_define`: checks, `withArrayRef` nesting, tuple packing |
| `Ordering` | ordering.dfy | the sort check of `main` |
| `Driver` | driver.dfy | `main`: stages, exceptions, notes and file effects |

The `*_facts.dfy` files hold the lemmas about each module. `signature_errors.dfy` (module `SignatureErrors`) states where and how the signature parser rejects its tokens.

The generator's loops are methods with `while` loops:
- the token walk;
- the partition loop;
- the `lower_arg_i`, `clone_arg_i` and `param_convert_i` counters;
- `format_args`;
- the device checks, and opening and closing the `withArrayRef` scopes;
- the result loop of `c_function_define`;
- the loops of `main`.

Each method is proved equal to a specification function. The properties are proved about those functions.

The emitted text is not modelled character by character. Each emitter returns a record of what it decides:
- which slot each argument reads;
- which fields are hashed, stored and printed;
- which checks are emitted, and against which tensor;
- how deep the scopes nest;
- which tensor is the template and where each result's dtype comes from.

The Swift parameter text is the exception: it is modelled as a string, and it is proved to re-parse as the argument it came from.

Python exceptions become `Err` values:
- `InvalidFormat(def)`: the `ValueError` of a malformed signature.
- `IndexOutOfRange`: an `IndexError`.
- `MissingKey(k)`: a `KeyError`.
- `NoSuchType`, `UnknownAbiType`, `UnsupportedArity`, `TensorListNotLast` and `NotSorted`: the other `ValueError`s.

Printed diagnostics become `Note` values. Opening and writing an output file become `Effect` values, in the order `main` performs them.

Behaviour worth knowing:
- **The sort check accepts equal neighbours.** It compares the list with a sorted copy, so two ops with the same node name pass (`Ordering.EqualNamesPass`). It is not a strictly ascending check.
- **The structural hash covers every attribute argument.** `MHash` includes an attribute named `shape`; such an attribute is only left out of the fields, their initializers and the debug string (`IrNodeFacts.NodeAttributes`).
- **Output is not all-or-nothing.** Each file is opened with mode `w+`, which truncates it, before its text is built. An exception from an emitter therefore leaves the C++ file emptied, or the C++ file written and the Swift file emptied (`DriverFacts.RunStages`).
- **The Swift checks are made against the first tensor only.** Each later `Tensor` argument gets a `checkSameDevice` against the first `Tensor` argument, and a `checkSamePrecision` only when its raw type equals the first one's. Two later tensors of the same generic type are never compared with each other (`SwiftFacts.PrecisionOnlyAgainstFirst`).
- **A tensor argument named `shape` breaks slot agreement.** It takes no `Lower`/`Clone` slot but still takes a shape-function parameter, so the later tensors' slots no longer agree (`IrNodeFacts.TensorNamedShapeSkipsSlot`, `IrNodeFacts.TensorNamedShapeKeepsParam`). Agreement is proved for every op without one (`IrNodeFacts.NodeSlots`).
- **The ABI has no `shape` exemption.** For every type that is neither a tensor nor an attribute type, the C ABI type table raises, while the node constructor still gives an argument named `shape` of that type the parameter type `xla::Shape` (`Types.ShapeOnlyInNode`).
- **An op without tensor arguments fails.** `c_function_define` raises `IndexError` for it (`AbiFacts.AbiErrors`).
- **A hand-placed namespace needs `generics`.** An op put in `_RawXLA` by hand, with no `generics` key and no generic result, makes the Swift emitter raise `KeyError` (`SwiftFacts.SwiftKeyError`).
- **Zero results is never produced.** A signature always yields at least one result. A tuple of zero results would be rendered `()` (`SwiftFacts.ResultTypeTuple`).

## Model

| member | source | states |
|---|---|---|
| Types.TypeTablesAgree | Sources/x10/swift_bindings/generate_ops.py:52-71 | constructor, field and ABI tables accept exactly the tensor and attribute types (the constructor also any `shape`), fail with the named error otherwise, and agree on attribute types |
| Types.ShapeOnlyInNode | Sources/x10/swift_bindings/generate_ops.py:232-249 | for every type that is neither a tensor nor an attribute type, an argument `shape` gets the constructor parameter `xla::Shape` while the ABI table raises `UnknownAbiType` for that type |
| Signature.EraseGenerics | Sources/x10/swift_bindings/generate_ops.py:456-461 | the erasure is the input itself, `Tensor` or `[Tensor]` |
| Signature.EraseToTensor | Sources/x10/swift_bindings/generate_ops.py:456-458 | a type erases to `Tensor` iff it is `Tensor` or `Tensor<w>` |
| Signature.EraseGenericInstances | Sources/x10/swift_bindings/generate_ops.py:456-461 | `Tensor<w>` and `[Tensor<w>]` erase to `Tensor` and `[Tensor]` for every identifier `w` |
| Signature.EraseGenericsIdempotent | Sources/x10/swift_bindings/generate_ops.py:456-461 | erasing twice is erasing once |
| Signature.At | Sources/x10/swift_bindings/generate_ops.py:481 | a token read succeeds iff the index is inside the token list |
| Signature.ParseArg | Sources/x10/swift_bindings/generate_ops.py:477-485 | reading one argument consumes three or four tokens and stays inside the list |
| Signature.ParseResult | Sources/x10/swift_bindings/generate_ops.py:497-504 | reading one result consumes one or three tokens and stays inside the list |
| Signature.ReadArg | Sources/x10/swift_bindings/generate_ops.py:477-485 | the loop body reading one argument equals `ParseArg` |
| Signature.ReadArgs | Sources/x10/swift_bindings/generate_ops.py:475-488 | the argument loop equals the recursive reading `ParseArgs` |
| Signature.ReadResult | Sources/x10/swift_bindings/generate_ops.py:497-504 | the loop body reading one result equals `ParseResult` |
| Signature.ReadResultList | Sources/x10/swift_bindings/generate_ops.py:494-508 | the result loop equals the recursive reading `ParseResultList` |
| Signature.ParseSignature | Sources/x10/swift_bindings/generate_ops.py:464-516 | the whole parse of a signature equals `ParseDef` |
| SignatureFacts.ParseArgSound | Sources/x10/swift_bindings/generate_ops.py:477-485 | a parsed argument is well formed, its tokens are its rendering, and it is unlabelled iff it starts with `_` |
| SignatureFacts.ParseArgRendered | Sources/x10/swift_bindings/generate_ops.py:477-485 | a rendered well-formed argument is read back as itself |
| SignatureFacts.ParseArgsMatch | Sources/x10/swift_bindings/generate_ops.py:476-488 | a parsed argument list is non-empty and its tokens up to the closing `)` are exactly its rendering |
| SignatureFacts.ParseArgsWellFormed | Sources/x10/swift_bindings/generate_ops.py:476-488 | every parsed argument is well formed (word name and type, erased type stored) |
| SignatureFacts.ParseArgsSound | Sources/x10/swift_bindings/generate_ops.py:476-488 | both of the above together |
| SignatureFacts.ParseArgsComplete | Sources/x10/swift_bindings/generate_ops.py:476-488 | the rendering of any non-empty list of well-formed arguments followed by `)` parses back to that list, ending at the `)` |
| SignatureFacts.ParseResultListSound | Sources/x10/swift_bindings/generate_ops.py:494-508 | a parsed parenthesised result list is non-empty, unlabelled and of erased type `Tensor` |
| SignatureFacts.ParseResultListComplete | Sources/x10/swift_bindings/generate_ops.py:494-508 | a rendered result list parses back with its labels dropped |
| SignatureFacts.ParseRenderedResults | Sources/x10/swift_bindings/generate_ops.py:494-512 | a rendered result part, one bare type or a parenthesised list, parses back with its labels dropped |
| SignatureFacts.ParseResultsSound | Sources/x10/swift_bindings/generate_ops.py:492-512 | every parsed result is unlabelled and erases to `Tensor` |
| SignatureFacts.ParseRenderedDecl | Sources/x10/swift_bindings/generate_ops.py:466-516 | the tokens of a well-formed declaration parse back to it, labels of results dropped |
| SignatureFacts.ParseRenderedText | Sources/x10/swift_bindings/generate_ops.py:465-516 | round trip: tokenizing and parsing the space-joined rendering of a well-formed declaration gives it back, result labels dropped |
| SignatureFacts.ParseTokensSound | Sources/x10/swift_bindings/generate_ops.py:466-516 | a parsed declaration is well formed, named by the first token, with its arguments' rendering after `(` and unlabelled results |
| SignatureFacts.ParseArgsErrors | Sources/x10/swift_bindings/generate_ops.py:476-488 | the argument loop fails only with `InvalidFormat` of the signature or `IndexError` |
| SignatureFacts.ParseResultListErrors | Sources/x10/swift_bindings/generate_ops.py:494-508 | the result loop fails only with `InvalidFormat` or `IndexError` |
| SignatureFacts.ParseTokensErrors | Sources/x10/swift_bindings/generate_ops.py:466-513 | parsing the tokens fails only with `InvalidFormat` or `IndexError` |
| SignatureFacts.ParseErrors | Sources/x10/swift_bindings/generate_ops.py:464-513 | parsing a signature text fails only with `InvalidFormat` quoting it or `IndexError` |
| SignatureErrors.ArgSyntaxErrors | Sources/x10/swift_bindings/generate_ops.py:477-483 | one argument read from any index: after an optional `_`, a missing `:` token or name is an `IndexError`; a token other than `:`, a name that is not a word, or a type that is not a word raises `InvalidFormat`; a missing type is an `IndexError`; otherwise the argument is read with its erased type, and is explicit iff there was no `_` |
| SignatureErrors.ResultSyntaxErrors | Sources/x10/swift_bindings/generate_ops.py:497-502 | one result read from any index: a missing look-ahead token or type is an `IndexError`; a `:` after the first token makes it a label; a type that does not erase to `Tensor` raises `InvalidFormat`; otherwise the result is read without its label |
| SignatureErrors.ArgsStep | Sources/x10/swift_bindings/generate_ops.py:476-488 | one turn of the argument loop: a failing argument fails the loop with its error; after an argument, a missing token is an `IndexError`, a token other than `)` and `,` raises `InvalidFormat`, and `,` continues the loop with this argument in front |
| SignatureErrors.ResultListStep | Sources/x10/swift_bindings/generate_ops.py:496-508 | one turn of the result loop, with the same four outcomes |
| SignatureErrors.ArgsComma | Sources/x10/swift_bindings/generate_ops.py:485-488 | an argument followed by `,` is put in front of what the rest of the loop reads |
| SignatureErrors.ParseArgsSkip | Sources/x10/swift_bindings/generate_ops.py:476-488 | after any number of well-formed arguments, each followed by `,`, the loop's outcome is that of the loop from the next argument on, with those arguments in front |
| SignatureErrors.ParseResultListSkip | Sources/x10/swift_bindings/generate_ops.py:496-508 | after any number of well-formed results, each followed by `,`, the outcome is that of the loop from the next result on, with those results unlabelled in front |
| SignatureErrors.SyntaxErrors | Sources/x10/swift_bindings/generate_ops.py:465-475 | fewer than two tokens or a lone `(` is an `IndexError`; a second token other than `(` raises `InvalidFormat`; a failing argument loop fails the declaration with its error |
| SignatureErrors.ArrowErrors | Sources/x10/swift_bindings/generate_ops.py:489-510 | after an argument list closing at any index, with or without arguments: a missing token is an `IndexError`, a token other than `->` raises `InvalidFormat`, a failing result part fails the declaration with its error, a bare result that does not erase to `Tensor` raises `InvalidFormat`, and `(` starts the result loop |
| SignatureErrors.DeclArgErrors | Sources/x10/swift_bindings/generate_ops.py:473-488 | for the argument after any number of well-formed ones, its error is the declaration's error, a missing token after it is an `IndexError`, and a token other than `)` or `,` after it (a missing `,`) raises `InvalidFormat` |
| SignatureErrors.DeclResultErrors | Sources/x10/swift_bindings/generate_ops.py:494-508 | for the result after any number of well-formed ones in a parenthesised list, its error (such as a type that does not erase to `Tensor`) is the declaration's error, and a token other than `)` or `,` after it raises `InvalidFormat` |
| SignatureErrors.ArgCut | Sources/x10/swift_bindings/generate_ops.py:477-483 | a rendered argument cut short makes the argument read an `IndexError` |
| SignatureErrors.ArgsCut | Sources/x10/swift_bindings/generate_ops.py:476-488 | a rendered argument list cut before its `)` makes the loop an `IndexError` |
| SignatureErrors.ResultCut | Sources/x10/swift_bindings/generate_ops.py:497-502 | a rendered result cut short is an `IndexError` or is read exactly up to the cut |
| SignatureErrors.ResultListCut | Sources/x10/swift_bindings/generate_ops.py:496-508 | a rendered result list cut before its `)` makes the loop an `IndexError` |
| SignatureErrors.ResultsCut | Sources/x10/swift_bindings/generate_ops.py:494-510 | rendered results cut short make the result part an `IndexError` |
| SignatureErrors.TruncatedInArgs | Sources/x10/swift_bindings/generate_ops.py:473-488 | a rendered declaration cut inside its argument list is an `IndexError` |
| SignatureErrors.TruncatedResults | Sources/x10/swift_bindings/generate_ops.py:489-510 | a rendered declaration cut after its argument list is an `IndexError` |
| SignatureErrors.TruncatedArgs | Sources/x10/swift_bindings/generate_ops.py:473-510 | a rendered declaration with arguments cut after its `(` is an `IndexError` |
| SignatureErrors.TruncatedDecl | Sources/x10/swift_bindings/generate_ops.py:465-510 | every proper prefix of the tokens of any well-formed declaration raises `IndexError`, never `InvalidFormat` |
| Tokenizer.WordRun | Sources/x10/swift_bindings/generate_ops.py:465 | the run of word characters at the head of a text is maximal |
| Tokenizer.Tokenize | Sources/x10/swift_bindings/generate_ops.py:465 | every token is a word (with an optional `?`), a bracket, `,`, `:` or `->` |
| Tokenizer.TokenizeConsWord | Sources/x10/swift_bindings/generate_ops.py:465 | a word token followed by a non-word character is found as one token |
| Tokenizer.TokenizeCons | Sources/x10/swift_bindings/generate_ops.py:465 | a token at the head of a text is found as itself before the tokens of the rest |
| Tokenizer.TokenizeBlank | Sources/x10/swift_bindings/generate_ops.py:465 | a leading blank is skipped |
| Tokenizer.TokenizeSpaced | Sources/x10/swift_bindings/generate_ops.py:465 | tokens joined by blanks tokenize back to the same tokens |
| Strings.Split | Sources/x10/swift_bindings/generate_ops.py:453 | `str.split` gives at least one piece and no piece holds the separator |
| Strings.JoinSplit | Sources/x10/swift_bindings/generate_ops.py:453 | joining the pieces of a split with the separator gives the text back |
| Strings.NonSpaceRun | Sources/x10/swift_bindings/generate_ops.py:527 | the run of non-blank characters at the head of a text is maximal |
| Strings.WordsSpec | Sources/x10/swift_bindings/generate_ops.py:527 | `str.split()` gives non-empty blank-free words whose concatenation is the text with blanks removed |
| Strings.Upper | Sources/x10/swift_bindings/generate_ops.py:453 | upper-casing maps `a`-`z` to `A`-`Z` and leaves every other character |
| Naming.Capitalize | Sources/x10/swift_bindings/generate_ops.py:453 | a piece with its first character upper-cased, the rest unchanged |
| Naming.CapitalizeAll | Sources/x10/swift_bindings/generate_ops.py:453 | capitalizing the pieces succeeds iff no piece is empty, else `IndexError` |
| Naming.NoEmptyPieceIff | Sources/x10/swift_bindings/generate_ops.py:453 | a name splits into no empty piece iff it neither starts nor ends with `_` nor holds `__` |
| Naming.CamelRefNoUnderscore | Sources/x10/swift_bindings/generate_ops.py:453 | the reference camel-casing has no `_` |
| Naming.CamelRefFirst | Sources/x10/swift_bindings/generate_ops.py:453 | the reference camel-casing equals capitalizing every piece of the split |
| Naming.CamelRefRest | Sources/x10/swift_bindings/generate_ops.py:453 | after the first piece, the reference camel-casing equals capitalizing the remaining pieces |
| Naming.SnakeToCamelSpec | Sources/x10/swift_bindings/generate_ops.py:452-453 | `snake_to_camel` succeeds iff the name is well separated, then equals the character-wise reference; otherwise `IndexError` |
| Naming.SnakeToCamelIdempotent | Sources/x10/swift_bindings/generate_ops.py:452-453 | a camel-cased name has no `_` and is its own camel-casing |
| Canonical.SplitExtras | Sources/x10/swift_bindings/generate_ops.py:526-529 | each `extras` entry is split into its blank-separated words; none without the key |
| Canonical.Canonicalize | Sources/x10/swift_bindings/generate_ops.py:464-540 | the canonicalization steps equal `CanonicalOp` |
| CanonicalFacts.IsSwiftIff | Sources/x10/swift_bindings/generate_ops.py:531-532 | an op is a Swift op iff some result type is a generic `Tensor<w>` |
| CanonicalFacts.CanonicalErrors | Sources/x10/swift_bindings/generate_ops.py:464-523 | canonicalization fails iff the signature fails to parse or the derived node name cannot be camel-cased, with the parser's error or `IndexError` |
| CanonicalFacts.CanonicalNotes | Sources/x10/swift_bindings/generate_ops.py:517-521 | the one possible note is the redundant-enum note, printed iff `x10_enum` equals the default |
| CanonicalFacts.CanonicalFields | Sources/x10/swift_bindings/generate_ops.py:464-539 | every key of the canonical record: parsed name, arguments and results, result count, and each default (`x10_enum`, `op_node_name`, `swift_name`, `protection`, `swift_namespace` and `generics` exactly for generic results) |
| CanonicalFacts.CanonicalExtras | Sources/x10/swift_bindings/generate_ops.py:526-529 | the canonical extras have one non-empty word list per entry, concatenating to the entry without blanks |
| IrNode.TensorArgs | Sources/x10/swift_bindings/generate_ops.py:37-47 | the tensor arguments are tensors and no more than the arguments |
| IrNode.AttrArgs | Sources/x10/swift_bindings/generate_ops.py:37-47 | the attribute arguments are non-tensors and no more than the arguments |
| IrNode.Partition | Sources/x10/swift_bindings/generate_ops.py:33-47 | the partition loop succeeds iff no tensor follows a `[Tensor]`, and then returns the tensor and attribute arguments in order |
| IrNodeFacts.PartitionCovers | Sources/x10/swift_bindings/generate_ops.py:33-47 | tensor and attribute arguments together are a permutation of the arguments |
| IrNodeFacts.PartitionMultiset | Sources/x10/swift_bindings/generate_ops.py:33-47 | the multiset form of the above, by induction |
| IrNodeFacts.TensorArgsAppend | Sources/x10/swift_bindings/generate_ops.py:37-47 | partition and slot count distribute over concatenation |
| IrNodeFacts.TensorArgsIn | Sources/x10/swift_bindings/generate_ops.py:37-47 | every tensor argument is an argument |
| IrNodeFacts.ListBefore | Sources/x10/swift_bindings/generate_ops.py:37-46 | a `[Tensor]` before any tensor is rejected |
| IrNodeFacts.ListNotLastPrefix | Sources/x10/swift_bindings/generate_ops.py:37-46 | a prefix rejected is a list rejected |
| IrNodeFacts.ListIsLast | Sources/x10/swift_bindings/generate_ops.py:37-46 | in an accepted list every tensor argument but the last is a plain `Tensor` |
| IrNode.SlotCount | Sources/x10/swift_bindings/generate_ops.py:72-101 | the slots taken never exceed the tensor arguments |
| IrNode.LowerRefs | Sources/x10/swift_bindings/generate_ops.py:72-86 | the `lower_arg_i` loop gives each argument the reference `LowerRefOf` gives it |
| IrNode.CloneRefs | Sources/x10/swift_bindings/generate_ops.py:87-101 | the `clone_arg_i` loop gives each argument the reference `CloneRefOf` gives it |
| IrNode.ShapeParamsOf | Sources/x10/swift_bindings/generate_ops.py:137-145 | one shape-function parameter per tensor argument |
| IrNode.ShapeParams | Sources/x10/swift_bindings/generate_ops.py:136-145 | the `param_convert_i` loop equals `ShapeParamsOf` |
| IrNode.ShapeLowerArgs | Sources/x10/swift_bindings/generate_ops.py:130-135 | one lowering argument per argument |
| IrNode.ExtraHeads | Sources/x10/swift_bindings/generate_ops.py:166 | the heads of the extras exist iff no extra is empty, else `IndexError` |
| IrNode.CtorParams | Sources/x10/swift_bindings/generate_ops.py:52-71 | one constructor parameter per argument |
| IrNode.NodeTypeDefine | Sources/x10/swift_bindings/generate_ops.py:33-213 | the emitter, with its loops and counters, equals `NodeSpec` |
| IrNodeFacts.SingleTensorsAll | Sources/x10/swift_bindings/generate_ops.py:168 | when every tensor is a plain `Tensor` the constructor's list holds them all |
| IrNodeFacts.OperandsFlatten | Sources/x10/swift_bindings/generate_ops.py:168-173 | the operand list names the tensor arguments in order |
| IrNodeFacts.OperandsWithList | Sources/x10/swift_bindings/generate_ops.py:168-173 | the same when a trailing `[Tensor]` is concatenated |
| IrNodeFacts.OperandOrder | Sources/x10/swift_bindings/generate_ops.py:168-173 | for an accepted argument list the operands are the tensor arguments in order |
| IrNodeFacts.SlotCountNoShape | Sources/x10/swift_bindings/generate_ops.py:72-101 | without a tensor named `shape` every tensor takes a slot |
| IrNodeFacts.SlotAgreement | Sources/x10/swift_bindings/generate_ops.py:72-145 | without a tensor named `shape`, the k-th tensor is read from slot k by `Lower`, `Clone` and the shape function alike |
| IrNodeFacts.TensorNamedShapeSkipsSlot | Sources/x10/swift_bindings/generate_ops.py:76-96 | a tensor named `shape` takes no slot, so the next tensor reads slot 0 |
| IrNodeFacts.TensorNamedShapeKeepsParam | Sources/x10/swift_bindings/generate_ops.py:137-145 | but the shape function gives it parameter 0, and the next tensor parameter 1 |
| IrNodeFacts.CtorParamsErrors | Sources/x10/swift_bindings/generate_ops.py:52-71 | constructor parameters fail iff some argument's type is unknown, naming the first one |
| IrNodeFacts.AttrFieldsAccepted | Sources/x10/swift_bindings/generate_ops.py:102-119 | every known attribute type gets a field, one per attribute not named `shape` |
| IrNodeFacts.AttrFieldsAfterCtor | Sources/x10/swift_bindings/generate_ops.py:102-119 | once the constructor accepts the arguments, the fields are accepted |
| IrNodeFacts.NodeFails | Sources/x10/swift_bindings/generate_ops.py:33-213 | the emitter fails iff a `[Tensor]` is not last, `lower_fn` is missing, an extra is empty or a type is unknown |
| IrNodeFacts.NodeErrorOrder | Sources/x10/swift_bindings/generate_ops.py:37-186 | which of these exceptions is raised first, as the source evaluates them |
| IrNodeFacts.NodeHeader | Sources/x10/swift_bindings/generate_ops.py:164-194 | the class name, kind, output count, lowering function, one constructor parameter per argument, and the lowering context iff an extra asks for it |
| IrNodeFacts.NodeAttributes | Sources/x10/swift_bindings/generate_ops.py:188-212 | the hash covers exactly the attribute arguments; printed, initialized and declared fields are the attributes not named `shape` |
| IrNodeFacts.NodeOperands | Sources/x10/swift_bindings/generate_ops.py:168-173 | the node's operands name the tensor arguments in order; one `Lower` and one `Clone` reference per argument |
| IrNodeFacts.StoredAttrsNoShape | Sources/x10/swift_bindings/generate_ops.py:195 | no stored field is named `shape` |
| IrNodeFacts.NodeSlots | Sources/x10/swift_bindings/generate_ops.py:72-173 | for an op without a tensor named `shape`, the j-th argument's operand, `Lower` reference, `Clone` reference and shape parameter all use the same slot |
| Abi.NodeArgs | Sources/x10/swift_bindings/generate_ops.py:288 | one `MakeNode` argument per argument |
| Abi.AbiParams | Sources/x10/swift_bindings/generate_ops.py:331 | one ABI parameter per argument |
| Abi.LastArgNamed | Sources/x10/swift_bindings/generate_ops.py:318-321 | the last argument with a given name, or none |
| Abi.WriteResults | Sources/x10/swift_bindings/generate_ops.py:343-345 | the result loop equals `ResultsOf` |
| Abi.CFunctionDefine | Sources/x10/swift_bindings/generate_ops.py:215-354 | the emitter equals `AbiSpec` |
| AbiFacts.TemplatePrecedence | Sources/x10/swift_bindings/generate_ops.py:217-230 | the template tensor is the one `shape_fn` names, else the one `result_dtype` names, else the first tensor (through `FirstTensor` for a list); `IndexError` without tensors |
| AbiFacts.Arity | Sources/x10/swift_bindings/generate_ops.py:289-299 | one to three results are supported, with tuple fields `x`, `y` or one per result; any other count raises |
| AbiFacts.DTypesCover | Sources/x10/swift_bindings/generate_ops.py:301-311 | without `result_dtype` every result takes the template's dtype; with one it covers one result only; the results fail iff the dtypes run out |
| AbiFacts.SingleDTypeManyResults | Sources/x10/swift_bindings/generate_ops.py:306-311 | a single `result_dtype` with two or more results raises `IndexError` |
| AbiFacts.DTypeResolution | Sources/x10/swift_bindings/generate_ops.py:309-328 | a result's dtype comes from the template, from a named tensor, from the last argument of that name, or is a literal scalar type |
| AbiFacts.CanonicalRefSpec | Sources/x10/swift_bindings/generate_ops.py:261-273 | an argument is canonicalized by the first matching `canonicalize` extra, else by none; only too-short extras raise |
| AbiFacts.NodeArgsErrors | Sources/x10/swift_bindings/generate_ops.py:250-288 | the `MakeNode` arguments fail iff one argument's reference fails, with `IndexError` |
| AbiFacts.AbiParamsOk | Sources/x10/swift_bindings/generate_ops.py:232-249 | the ABI parameters exist iff every argument's type is known, and carry the argument names |
| AbiFacts.AbiParamsBadType | Sources/x10/swift_bindings/generate_ops.py:249 | a failure names the type of the first argument the ABI does not know; every earlier argument is known |
| AbiFacts.AbiParamsErrors | Sources/x10/swift_bindings/generate_ops.py:232-249 | the parameters are produced exactly when every argument is a tensor or attribute type, declare every argument by name in order, and otherwise fail on the first argument of another type |
| AbiFacts.AbiErrors | Sources/x10/swift_bindings/generate_ops.py:215-354 | the emitter's exceptions in order: no tensors, a bad reference, the arity, an unknown type, too few dtypes; it succeeds iff none applies |
| Formatting.DropLeadingEmpty | Sources/x10/swift_bindings/generate_ops.py:359-362 | the items the loop writes start at the first non-empty one, so the comma is never written before it |
| Formatting.FormatArgsText | Sources/x10/swift_bindings/generate_ops.py:357-365 | the loop equals `FormatArgs` |
| Formatting.FormatArgsJoin | Sources/x10/swift_bindings/generate_ops.py:357-365 | for non-empty items `format_args` is the join plus the ending, or empty for no items |
| Formatting.FormatArgsConcat | Sources/x10/swift_bindings/generate_ops.py:357-365 | with empty comma and ending it is plain concatenation |
| Swift.DeviceChecks | Sources/x10/swift_bindings/generate_ops.py:415-425 | the check loop equals `ChecksOf` |
| Swift.OpenScopes | Sources/x10/swift_bindings/generate_ops.py:426-430 | the scope loop opens `ScopesOf` and ends at depth `ArrayCount` |
| Swift.Closing | Sources/x10/swift_bindings/generate_ops.py:441-442 | one closing brace per open scope |
| Swift.CloseScopes | Sources/x10/swift_bindings/generate_ops.py:441-442 | the closing loop equals `Closing` |
| Swift.TupleTags | Sources/x10/swift_bindings/generate_ops.py:381-385 | one tuple tag per result |
| Swift.ParamItems | Sources/x10/swift_bindings/generate_ops.py:392-394 | one parameter item per argument |
| Swift.SwiftWrapperDefine | Sources/x10/swift_bindings/generate_ops.py:368-449 | the emitter equals `SwiftSpec` |
| SwiftFacts.SwiftParamTokens | Sources/x10/swift_bindings/generate_ops.py:372-376 | a Swift parameter's text tokenizes to the argument's rendering |
| SwiftFacts.SwiftParamReparses | Sources/x10/swift_bindings/generate_ops.py:372-376 | a Swift parameter's text parses back to the argument it came from |
| SwiftFacts.CanonicalParamsReparse | Sources/x10/swift_bindings/generate_ops.py:372-376 | the Swift parameter of every canonicalized argument parses back to that argument |
| SwiftFacts.GenericsShape | Sources/x10/swift_bindings/generate_ops.py:387-391 | the generics clause is empty iff there are no generics, else each constraint on its own line in angle brackets |
| SwiftFacts.ResultTypeTuple | Sources/x10/swift_bindings/generate_ops.py:395-397 | several results (or none) become a parenthesised comma list of raw types |
| SwiftFacts.ChecksNameFirst | Sources/x10/swift_bindings/generate_ops.py:416-425 | every check names the first tensor |
| SwiftFacts.ChecksAgainstFirst | Sources/x10/swift_bindings/generate_ops.py:416-425 | after the first tensor, each `Tensor` gets a device check, and a precision check iff its raw type equals the first's |
| SwiftFacts.ChecksStart | Sources/x10/swift_bindings/generate_ops.py:416-425 | the checks begin after the first `Tensor` argument, none without one |
| SwiftFacts.DeviceChecksSpec | Sources/x10/swift_bindings/generate_ops.py:416-425 | the checks are exactly those against the first `Tensor`, for the later tensors, in order |
| SwiftFacts.PrecisionOnlyAgainstFirst | Sources/x10/swift_bindings/generate_ops.py:416-425 | two later tensors of the same generic type are not compared |
| SwiftFacts.ScopesNest | Sources/x10/swift_bindings/generate_ops.py:426-430 | the k-th array argument opens scope k+1 |
| SwiftFacts.ClosingCounts | Sources/x10/swift_bindings/generate_ops.py:441-442 | braces close from the deepest scope outwards |
| SwiftFacts.ScopesAndCloses | Sources/x10/swift_bindings/generate_ops.py:426-442 | scopes open at depths 1..n for the array arguments in order and close in reverse |
| SwiftFacts.ScopesBalance | Sources/x10/swift_bindings/generate_ops.py:426-442 | the same of the wrapper: every scope opened is closed, innermost first |
| SwiftFacts.ArraysPassedBare | Sources/x10/swift_bindings/generate_ops.py:407-413 | array arguments are passed to the ABI call by their scope-bound name |
| SwiftFacts.TagsMatchAbi | Sources/x10/swift_bindings/generate_ops.py:381-385 | the Swift tuple tags are the C ABI tuple fields |
| SwiftFacts.SwiftKeyError | Sources/x10/swift_bindings/generate_ops.py:387-389 | an op in the namespace by hand fails iff it has neither generics nor a generic result, with `KeyError` |
| Ordering.LexLeRefl | Sources/x10/swift_bindings/generate_ops.py:550 | Python's string order is reflexive |
| Ordering.LexLeTotal | Sources/x10/swift_bindings/generate_ops.py:550 | and total |
| Ordering.LexLeAntisymmetric | Sources/x10/swift_bindings/generate_ops.py:550 | and antisymmetric |
| Ordering.LexLeTransitive | Sources/x10/swift_bindings/generate_ops.py:550 | and transitive |
| Ordering.InsertFacts | Sources/x10/swift_bindings/generate_ops.py:550 | inserting into a sorted list keeps it sorted and adds exactly the element |
| Ordering.SortedCopyFacts | Sources/x10/swift_bindings/generate_ops.py:549-550 | the sorted copy is sorted and a permutation of the names |
| Ordering.SortedUnique | Sources/x10/swift_bindings/generate_ops.py:550 | two sorted permutations of each other are equal, so any sort gives the same copy |
| Ordering.SortedCopyIdentity | Sources/x10/swift_bindings/generate_ops.py:551 | the names equal their sorted copy iff they are in order |
| Ordering.MismatchesExact | Sources/x10/swift_bindings/generate_ops.py:552-554 | one note per differing position, naming actual and expected; none iff the lists agree |
| Ordering.ReportMismatches | Sources/x10/swift_bindings/generate_ops.py:552-554 | the report loop equals `MismatchesFrom` |
| Ordering.SortCheckSpec | Sources/x10/swift_bindings/generate_ops.py:548-555 | the check fails with `NotSorted` iff the names are out of order, and then reports exactly the differing positions |
| Ordering.CheckOrder | Sources/x10/swift_bindings/generate_ops.py:548-555 | the check as `main` runs it equals `SortCheck` |
| Ordering.EqualNamesPass | Sources/x10/swift_bindings/generate_ops.py:548-551 | two equal names side by side pass |
| Ordering.RotatedNamesReported | Sources/x10/swift_bindings/generate_ops.py:548-555 | `[Add, Ceil, Abs]` fails with all three positions reported |
| Driver.NodeNames | Sources/x10/swift_bindings/generate_ops.py:548 | the node names of the ops, in order |
| Driver.CanonicalizeAll | Sources/x10/swift_bindings/generate_ops.py:546 | the canonicalization loop equals `CanonicalAll` |
| Driver.NodeTypes | Sources/x10/swift_bindings/generate_ops.py:563 | the node loop equals mapping `NodeSpec` |
| Driver.CFunctions | Sources/x10/swift_bindings/generate_ops.py:568 | the ABI loop equals mapping `AbiSpec` |
| Driver.SwiftWrappers | Sources/x10/swift_bindings/generate_ops.py:575-578 | the wrapper loop equals `WrappersOf` |
| Driver.ReportMissing | Sources/x10/swift_bindings/generate_ops.py:581-583 | the missing-types loop equals `MissingNotes` |
| Driver.Generate | Sources/x10/swift_bindings/generate_ops.py:542-583 | `main` equals `GenerateSpec` |
| DriverFacts.MapResultSpec | Sources/x10/swift_bindings/generate_ops.py:563-568 | a mapped stage succeeds iff every op does, with each op's output in place; else with the first failure |
| DriverFacts.CollectSpec | Sources/x10/swift_bindings/generate_ops.py:546 | canonicalizing the list succeeds iff every op does; else it stops at the first failing op |
| DriverFacts.CollectNotes | Sources/x10/swift_bindings/generate_ops.py:546 | a successful pass prints the notes of all ops in order |
| DriverFacts.CanonicalAllOk | Sources/x10/swift_bindings/generate_ops.py:546 | the canonical list is each op canonicalized, iff all succeed |
| DriverFacts.CanonicalAllErr | Sources/x10/swift_bindings/generate_ops.py:546 | a failure is the first failing op's `InvalidFormat` or `IndexError` |
| DriverFacts.NamespaceOps | Sources/x10/swift_bindings/generate_ops.py:578 | the ops given wrappers are ops of the list in the namespace |
| DriverFacts.WrappersOk | Sources/x10/swift_bindings/generate_ops.py:575-578 | the wrappers succeed iff every op in the namespace gets one |
| DriverFacts.WrappersSpec | Sources/x10/swift_bindings/generate_ops.py:575-578 | one wrapper per namespace op, in order |
| DriverFacts.MissingSpec | Sources/x10/swift_bindings/generate_ops.py:581-583 | exactly the ops outside the namespace get a missing-types note |
| DriverFacts.RunStages | Sources/x10/swift_bindings/generate_ops.py:558-580 | the only file effects possible: none, the C++ file emptied, the C++ file written and the Swift file emptied, or both written |
| DriverFacts.RunSucceeds | Sources/x10/swift_bindings/generate_ops.py:558-580 | a run succeeds iff both files are written |
| DriverFacts.NothingOpened | Sources/x10/swift_bindings/generate_ops.py:546-558 | no file is touched iff canonicalization fails or the names are out of order, and the latter fails with the mismatches reported |
| DriverFacts.RunOps | Sources/x10/swift_bindings/generate_ops.py:546-556 | a successful run canonicalized every op and found the names in order |
| DriverFacts.RunCcOutput | Sources/x10/swift_bindings/generate_ops.py:558-568 | a successful run writes every op's node class, then every op's ABI function |
| DriverFacts.RunSwiftOutput | Sources/x10/swift_bindings/generate_ops.py:570-583 | a successful run writes every namespace op's wrapper and prints all notes, the total and the missing notes |
| DriverFacts.NotSortedSpec | Sources/x10/swift_bindings/generate_ops.py:548-555 | a run stops with `NotSorted` and no file touched iff the canonical names are out of order |
| DriverFacts.CanonicalNeverNotSorted | Sources/x10/swift_bindings/generate_ops.py:464-540 | canonicalization never raises the sort error |
| DriverFacts.GenerateNotSorted | Sources/x10/swift_bindings/generate_ops.py:542-555 | for `main` itself, `NotSorted` with no file touched iff the canonical names are out of order |

## Left out

- Reading the YAML file, the command-line flags, the argument-count `UsageError` and the file paths are left out. The op list is a parameter and each file operation is an `Effect`.
- The emitted C++ and Swift text is not modelled. This covers `HEADER`, the namespace wrappers, the class and function templates and the indentation. Each emitter returns a record of the choices the text is built from.
- The missing newline after the `AnyScalar` field declaration is therefore not visible.
- `print` is modelled by `Note` values in print order; the output stream is not.
- The in-place update of the op dictionary, and `del op["def"]`, are not modelled. The record before and the record after are two values.
- The tokenizer's `\w` is ASCII letters, digits and `_`. Unicode word characters are not modelled.
- `str.capitalize` is modelled for ASCII letters only.
- `str.split()` is modelled with the ASCII blanks Python uses: space, tab, newline, carriage return, vertical tab, form feed and the separators 0x1C to 0x1F. Other Unicode blanks are not modelled.
- The `repr` quoting in the invalid-format message is not modelled. The error carries the signature text itself.
- An op without a `def` key, a `KeyError` in `canonicalize_op`, is not modelled: `RawOp.def` is a required field.
- YAML values of unexpected types are not modelled: non-string names, a `result_dtype` that is neither a string nor a list, and a `generics` value that is not a mapping.
- `arg[1][0]` on an empty type, in the Swift emitter, is not modelled. A type comes from a non-empty token, so it cannot be empty.
- `list.sort` is modelled by an insertion sort. `Ordering.SortedUnique` shows that every sort gives the same copy.
