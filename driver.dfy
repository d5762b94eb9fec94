/** `main`: canonicalise every op, check the order of the node names, then
    write the C++ file (every IR node class, then every C ABI function) and
    the Swift file (a wrapper for each op in the `_RawXLA` namespace), and
    print a note for each op that has no wrapper.

    Reading the op list and writing files are effects: the op list is a
    parameter and each file operation is an `Effect` in the order the source
    performs it. `open(path, "w+")` runs before the text to write is built,
    so an exception while building it leaves the file opened and emptied.

    `RunWith` composes the stages given as functions; `GenerateSpec` is the
    run with the generator's own stages. */
module Driver {
  import opened Wrappers
  import opened Canonical
  import opened IrNode
  import opened Abi
  import opened Swift
  import opened Ordering

  datatype Effect =
    | OpenCc                                                // open the C++ output, truncating it
    | WriteCc(nodes: seq<NodeClass>, functions: seq<AbiFunction>)
    | OpenSwift                                             // open the Swift output, truncating it
    | WriteSwift(wrappers: seq<SwiftWrapper>)

  /** What a run prints, what it does to the output files, and how it ends. */
  datatype Run = Run(notes: seq<Note>, effects: seq<Effect>, outcome: Result<()>)

  /** The outcomes of the ops in order, stopping at the first exception:
      the notes printed so far and the ops, or the exception. */
  function Collect(outs: seq<(seq<Note>, Result<Op>)>): (seq<Note>, Result<seq<Op>>)
  {
    if outs == [] then ([], Ok([]))
    else
      var (notes, prefix) := Collect(outs[..|outs| - 1]);
      if prefix.Err? then (notes, prefix)
      else
        var (more, last) := outs[|outs| - 1];
        if last.Err? then (notes + more, Err(last.error))
        else (notes + more, Ok(prefix.value + [last.value]))
  }

  /** A stage applied to every raw op, in order. */
  function Outcomes(canon: RawOp -> (seq<Note>, Result<Op>), raws: seq<RawOp>): (outs: seq<(seq<Note>, Result<Op>)>)
    ensures |outs| == |raws| && forall k :: 0 <= k < |raws| ==> outs[k] == canon(raws[k])
  {
    seq(|raws|, k requires 0 <= k < |raws| => canon(raws[k]))
  }

  /** `canonicalize_op` over the list, in order, stopping at the first exception. */
  function CanonicalAll(raws: seq<RawOp>): (seq<Note>, Result<seq<Op>>)
  {
    Collect(Outcomes(CanonicalOp, raws))
  }

  /** A function applied to each element in order; the first exception stops it. */
  function MapResult<A, B>(f: A -> Result<B>, xs: seq<A>): Result<seq<B>>
  {
    if xs == [] then Ok([])
    else
      var prefix :- MapResult(f, xs[..|xs| - 1]);
      var last :- f(xs[|xs| - 1]);
      Ok(prefix + [last])
  }

  /** The ops that get a Swift wrapper. */
  predicate InNamespace(op: Op)
  {
    op.swiftNamespace == Some(RawNamespace)
  }

  /** The wrappers of the ops in the namespace, in order. */
  function WrappersOf(swift: Op -> Result<SwiftWrapper>, ops: seq<Op>): Result<seq<SwiftWrapper>>
  {
    if ops == [] then Ok([])
    else
      var prefix :- WrappersOf(swift, ops[..|ops| - 1]);
      var op := ops[|ops| - 1];
      if !InNamespace(op) then Ok(prefix)
      else
        var w :- swift(op);
        Ok(prefix + [w])
  }

  /** The final "Missing swift types" notes. */
  function MissingNotes(ops: seq<Op>): seq<Note>
  {
    if ops == [] then []
    else
      var op := ops[|ops| - 1];
      MissingNotes(ops[..|ops| - 1]) + (if InNamespace(op) then [] else [MissingSwiftTypes(op.opNodeName)])
  }

  function NodeNames(ops: seq<Op>): (names: seq<string>)
    ensures |names| == |ops| && forall k :: 0 <= k < |ops| ==> names[k] == ops[k].opNodeName
  {
    seq(|ops|, k requires 0 <= k < |ops| => ops[k].opNodeName)
  }

  /** `main` over the given stages. */
  function RunWith(raws: seq<RawOp>,
                   canon: RawOp -> (seq<Note>, Result<Op>),
                   node: Op -> Result<NodeClass>,
                   abi: Op -> Result<AbiFunction>,
                   swift: Op -> Result<SwiftWrapper>): Run
  {
    var (cnotes, c) := Collect(Outcomes(canon, raws));
    if c.Err? then Run(cnotes, [], Err(c.error))
    else
      var ops := c.value;
      var (snotes, order) := SortCheck(NodeNames(ops));
      if order.Err? then Run(cnotes + snotes, [], order)
      else
        var notes := cnotes + [TotalOps(|ops|)];
        var nodes := MapResult(node, ops);
        if nodes.Err? then Run(notes, [OpenCc], Err(nodes.error))
        else
          var functions := MapResult(abi, ops);
          if functions.Err? then Run(notes, [OpenCc], Err(functions.error))
          else
            var cc := [OpenCc, WriteCc(nodes.value, functions.value), OpenSwift];
            var wrappers := WrappersOf(swift, ops);
            if wrappers.Err? then Run(notes, cc, Err(wrappers.error))
            else Run(notes + MissingNotes(ops), cc + [WriteSwift(wrappers.value)], Ok(()))
  }

  /** The whole of `main`. */
  function GenerateSpec(raws: seq<RawOp>): Run
  {
    RunWith(raws, CanonicalOp, NodeSpec, AbiSpec, SwiftSpec)
  }

  /** The canonicalisation loop of `main`. */
  method CanonicalizeAll(raws: seq<RawOp>) returns (notes: seq<Note>, r: Result<seq<Op>>)
    ensures (notes, r) == CanonicalAll(raws)
  {
    ghost var outs := Outcomes(CanonicalOp, raws);
    notes := [];
    var ops: seq<Op> := [];
    var i := 0;
    while i < |raws|
      invariant 0 <= i <= |raws|
      invariant Collect(outs[..i]) == (notes, Ok(ops))
    {
      var more, op := Canonicalize(raws[i]);
      assert outs[..i + 1][..i] == outs[..i] && outs[i] == (more, op);
      if op.Err? {
        assert Collect(outs[..i + 1]) == (notes + more, Err(op.error));
        CollectStops(outs, i + 1);
        return notes + more, Err(op.error);
      }
      notes := notes + more;
      ops := ops + [op.value];
      i := i + 1;
    }
    assert outs[..i] == outs;
    r := Ok(ops);
  }

  /** `node_type_define` over all ops. */
  method NodeTypes(ops: seq<Op>) returns (r: Result<seq<NodeClass>>)
    ensures r == MapResult(NodeSpec, ops)
  {
    var nodes: seq<NodeClass> := [];
    var i := 0;
    while i < |ops|
      invariant 0 <= i <= |ops|
      invariant MapResult(NodeSpec, ops[..i]) == Ok(nodes)
    {
      var node := NodeTypeDefine(ops[i]);
      MapResultStep(NodeSpec, ops, i, nodes);
      if node.Err? {
        MapResultStops(NodeSpec, ops, i + 1);
        return Err(node.error);
      }
      nodes := nodes + [node.value];
      i := i + 1;
    }
    assert ops[..i] == ops;
    r := Ok(nodes);
  }

  /** `c_function_define` over all ops. */
  method CFunctions(ops: seq<Op>) returns (r: Result<seq<AbiFunction>>)
    ensures r == MapResult(AbiSpec, ops)
  {
    var functions: seq<AbiFunction> := [];
    var i := 0;
    while i < |ops|
      invariant 0 <= i <= |ops|
      invariant MapResult(AbiSpec, ops[..i]) == Ok(functions)
    {
      var f := CFunctionDefine(ops[i]);
      MapResultStep(AbiSpec, ops, i, functions);
      if f.Err? {
        MapResultStops(AbiSpec, ops, i + 1);
        return Err(f.error);
      }
      functions := functions + [f.value];
      i := i + 1;
    }
    assert ops[..i] == ops;
    r := Ok(functions);
  }

  /** `swift_wrapper_define` over the ops in the namespace. */
  method SwiftWrappers(ops: seq<Op>) returns (r: Result<seq<SwiftWrapper>>)
    ensures r == WrappersOf(SwiftSpec, ops)
  {
    var wrappers: seq<SwiftWrapper> := [];
    var i := 0;
    while i < |ops|
      invariant 0 <= i <= |ops|
      invariant WrappersOf(SwiftSpec, ops[..i]) == Ok(wrappers)
    {
      assert ops[..i + 1][..i] == ops[..i];
      if InNamespace(ops[i]) {
        var w := SwiftWrapperDefine(ops[i]);
        if w.Err? {
          WrappersStop(SwiftSpec, ops, i + 1);
          return Err(w.error);
        }
        wrappers := wrappers + [w.value];
      }
      i := i + 1;
    }
    assert ops[..i] == ops;
    r := Ok(wrappers);
  }

  /** The closing loop that prints the ops without a wrapper. */
  method ReportMissing(ops: seq<Op>) returns (missing: seq<Note>)
    ensures missing == MissingNotes(ops)
  {
    missing := [];
    var i := 0;
    while i < |ops|
      invariant 0 <= i <= |ops|
      invariant MissingNotes(ops[..i]) == missing
    {
      assert ops[..i + 1][..i] == ops[..i];
      if !InNamespace(ops[i]) {
        missing := missing + [MissingSwiftTypes(ops[i].opNodeName)];
      }
      i := i + 1;
    }
    assert ops[..i] == ops;
  }

  /** `main`. */
  method Generate(raws: seq<RawOp>) returns (run: Run)
    ensures run == GenerateSpec(raws)
  {
    var notes, canon := CanonicalizeAll(raws);
    if canon.Err? {
      return Run(notes, [], Err(canon.error));
    }
    var ops := canon.value;
    var snotes, order := CheckOrder(NodeNames(ops));
    if order.Err? {
      return Run(notes + snotes, [], order);
    }
    notes := notes + [TotalOps(|ops|)];
    var nodes := NodeTypes(ops);
    if nodes.Err? {
      return Run(notes, [OpenCc], Err(nodes.error));
    }
    var functions := CFunctions(ops);
    if functions.Err? {
      return Run(notes, [OpenCc], Err(functions.error));
    }
    var effects := [OpenCc, WriteCc(nodes.value, functions.value), OpenSwift];
    var wrappers := SwiftWrappers(ops);
    if wrappers.Err? {
      return Run(notes, effects, Err(wrappers.error));
    }
    var missing := ReportMissing(ops);
    run := Run(notes + missing, effects + [WriteSwift(wrappers.value)], Ok(()));
  }

  /** Once a prefix fails, the whole list fails the same way. */
  lemma {:induction false} CollectStops(outs: seq<(seq<Note>, Result<Op>)>, n: nat)
    requires n <= |outs| && Collect(outs[..n]).1.Err?
    ensures Collect(outs) == Collect(outs[..n])
    decreases |outs|
  {
    if n < |outs| {
      assert outs[..|outs| - 1][..n] == outs[..n];
      CollectStops(outs[..|outs| - 1], n);
    } else {
      assert outs[..n] == outs;
    }
  }

  /** One more element through a stage that has not failed yet. */
  lemma MapResultStep<A, B>(f: A -> Result<B>, xs: seq<A>, i: nat, acc: seq<B>)
    requires i < |xs| && MapResult(f, xs[..i]) == Ok(acc)
    ensures f(xs[i]).Ok? ==> MapResult(f, xs[..i + 1]) == Ok(acc + [f(xs[i]).value])
    ensures f(xs[i]).Err? ==> MapResult(f, xs[..i + 1]) == Err(f(xs[i]).error)
  {
    assert xs[..i + 1][..i] == xs[..i];
  }

  lemma {:induction false} MapResultStops<A, B>(f: A -> Result<B>, xs: seq<A>, n: nat)
    requires n <= |xs| && MapResult(f, xs[..n]).Err?
    ensures MapResult(f, xs) == MapResult(f, xs[..n])
    decreases |xs|
  {
    if n < |xs| {
      assert xs[..|xs| - 1][..n] == xs[..n];
      MapResultStops(f, xs[..|xs| - 1], n);
    } else {
      assert xs[..n] == xs;
    }
  }

  lemma {:induction false} WrappersStop(swift: Op -> Result<SwiftWrapper>, ops: seq<Op>, n: nat)
    requires n <= |ops| && WrappersOf(swift, ops[..n]).Err?
    ensures WrappersOf(swift, ops) == WrappersOf(swift, ops[..n])
    decreases |ops|
  {
    if n < |ops| {
      assert ops[..|ops| - 1][..n] == ops[..n];
      WrappersStop(swift, ops[..|ops| - 1], n);
    } else {
      assert ops[..n] == ops;
    }
  }
}
