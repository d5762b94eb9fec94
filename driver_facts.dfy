/** What a run of `main` guarantees. The run lemmas hold for any stages;
    `GenerateSpec` is the instance with the generator's own. */
module DriverFacts {
  import opened Wrappers
  import opened Canonical
  import opened CanonicalFacts
  import opened IrNode
  import opened Abi
  import opened Swift
  import opened Ordering
  import opened Driver

  /** Applying a function to a list succeeds exactly when it succeeds on
      each element, and then gives the results in order; otherwise it
      raises the exception of the first element that fails. */
  lemma {:induction false} MapResultSpec<A, B>(f: A -> Result<B>, xs: seq<A>)
    ensures MapResult(f, xs).Ok? <==> forall k :: 0 <= k < |xs| ==> f(xs[k]).Ok?
    ensures MapResult(f, xs).Ok? ==>
      (|MapResult(f, xs).value| == |xs| && forall k :: 0 <= k < |xs| ==> MapResult(f, xs).value[k] == f(xs[k]).value)
    ensures MapResult(f, xs).Err? ==>
      (exists k :: 0 <= k < |xs| && f(xs[k]).Err? && MapResult(f, xs).error == f(xs[k]).error
                   && forall j :: 0 <= j < k ==> f(xs[j]).Ok?)
  {
    if xs != [] {
      var init := xs[..|xs| - 1];
      MapResultSpec(f, init);
      assert forall k :: 0 <= k < |init| ==> init[k] == xs[k];
      if MapResult(f, init).Ok? && f(xs[|xs| - 1]).Err? {
        assert forall j :: 0 <= j < |xs| - 1 ==> f(xs[j]).Ok?;
      }
    }
  }

  /** Collecting succeeds exactly when every outcome is an op, and then
      gives the ops in order; otherwise it raises the exception of the
      first failing outcome. */
  lemma {:induction false} CollectSpec(outs: seq<(seq<Note>, Result<Op>)>)
    ensures var r := Collect(outs).1;
      && (r.Ok? <==> forall k :: 0 <= k < |outs| ==> outs[k].1.Ok?)
      && (r.Ok? ==> |r.value| == |outs| && forall k :: 0 <= k < |outs| ==> r.value[k] == outs[k].1.value)
      && (r.Err? ==>
            exists k :: 0 <= k < |outs| && outs[k].1.Err? && r.error == outs[k].1.error
                        && forall j :: 0 <= j < k ==> outs[j].1.Ok?)
  {
    if outs != [] {
      var init := outs[..|outs| - 1];
      CollectSpec(init);
      assert forall k :: 0 <= k < |init| ==> init[k] == outs[k];
      if Collect(init).1.Ok? && outs[|outs| - 1].1.Err? {
        assert forall j :: 0 <= j < |outs| - 1 ==> outs[j].1.Ok?;
      }
    }
  }

  /** The notes of a successful collection are those of every outcome, in order. */
  lemma {:induction false} CollectNotes(outs: seq<(seq<Note>, Result<Op>)>)
    requires Collect(outs).1.Ok?
    ensures Collect(outs).0 == AllNotes(outs)
  {
    if outs != [] {
      CollectNotes(outs[..|outs| - 1]);
    }
  }

  function AllNotes(outs: seq<(seq<Note>, Result<Op>)>): seq<Note>
  {
    if outs == [] then [] else AllNotes(outs[..|outs| - 1]) + outs[|outs| - 1].0
  }

  /** Canonicalising the list succeeds exactly when every op canonicalises,
      and gives the canonical ops in order. */
  lemma CanonicalAllOk(raws: seq<RawOp>)
    ensures var r := CanonicalAll(raws).1;
      && (r.Ok? <==> forall k :: 0 <= k < |raws| ==> CanonicalOp(raws[k]).1.Ok?)
      && (r.Ok? ==> |r.value| == |raws| && forall k :: 0 <= k < |raws| ==> r.value[k] == CanonicalOp(raws[k]).1.value)
  {
    CollectSpec(Outcomes(CanonicalOp, raws));
  }

  /** Otherwise the first op that fails has a malformed signature or a C name
      `snake_to_camel` cannot take, and that exception ends the run. */
  lemma CanonicalAllErr(raws: seq<RawOp>)
    requires CanonicalAll(raws).1.Err?
    ensures exists k ::
      (&& 0 <= k < |raws|
       && CanonicalOp(raws[k]).1.Err?
       && CanonicalAll(raws).1.error == CanonicalOp(raws[k]).1.error
       && CanonicalAll(raws).1.error in {InvalidFormat(raws[k].def), IndexOutOfRange}
       && forall j :: 0 <= j < k ==> CanonicalOp(raws[j]).1.Ok?)
  {
    var outs := Outcomes(CanonicalOp, raws);
    CollectSpec(outs);
    var k :| 0 <= k < |outs| && outs[k].1.Err? && CanonicalAll(raws).1.error == outs[k].1.error
             && forall j :: 0 <= j < k ==> outs[j].1.Ok?;
    CanonicalErrors(raws[k]);
  }

  /** The ops that get a wrapper, in order. */
  function NamespaceOps(ops: seq<Op>): (r: seq<Op>)
    ensures forall k :: 0 <= k < |r| ==> InNamespace(r[k]) && r[k] in ops
  {
    if ops == [] then []
    else
      var op := ops[|ops| - 1];
      NamespaceOps(ops[..|ops| - 1]) + (if InNamespace(op) then [op] else [])
  }

  /** Every op of the list gets a wrapper. */
  predicate AllWrap(swift: Op -> Result<SwiftWrapper>, ns: seq<Op>)
  {
    forall k :: 0 <= k < |ns| ==> swift(ns[k]).Ok?
  }

  /** The wrappers are built exactly when every op in the namespace has one. */
  lemma {:induction false} WrappersOk(swift: Op -> Result<SwiftWrapper>, ops: seq<Op>)
    ensures WrappersOf(swift, ops).Ok? <==> AllWrap(swift, NamespaceOps(ops))
  {
    if ops != [] {
      var init := ops[..|ops| - 1];
      var op := ops[|ops| - 1];
      WrappersOk(swift, init);
      var ns0 := NamespaceOps(init);
      var ns := NamespaceOps(ops);
      if InNamespace(op) {
        assert ns == ns0 + [op];
        assert AllWrap(swift, ns) <==> AllWrap(swift, ns0) && swift(op).Ok? by {
          assert forall k :: 0 <= k < |ns0| ==> ns[k] == ns0[k];
          assert ns[|ns0|] == op;
        }
        assert WrappersOf(swift, ops).Ok? <==> WrappersOf(swift, init).Ok? && swift(op).Ok?;
      } else {
        assert ns == ns0;
      }
    }
  }

  /** The wrappers are those of the ops in the namespace, in order. */
  lemma {:induction false} WrappersSpec(swift: Op -> Result<SwiftWrapper>, ops: seq<Op>)
    requires WrappersOf(swift, ops).Ok?
    ensures var ns := NamespaceOps(ops);
      && |WrappersOf(swift, ops).value| == |ns|
      && forall k :: 0 <= k < |ns| ==> swift(ns[k]).Ok? && WrappersOf(swift, ops).value[k] == swift(ns[k]).value
  {
    if ops != [] {
      var init := ops[..|ops| - 1];
      var op := ops[|ops| - 1];
      WrappersSpec(swift, init);
      var ns0 := NamespaceOps(init);
      if InNamespace(op) {
        var ns := NamespaceOps(ops);
        assert ns == ns0 + [op];
        assert forall k :: 0 <= k < |ns0| ==> ns[k] == ns0[k];
      } else {
        assert NamespaceOps(ops) == ns0;
      }
    }
  }

  /** Every op outside the namespace gets a "Missing swift types" note, so
      each op is accounted for exactly once: by a wrapper or by a note. */
  lemma {:induction false} MissingSpec(ops: seq<Op>)
    ensures |NamespaceOps(ops)| + |MissingNotes(ops)| == |ops|
    ensures forall n :: n in MissingNotes(ops) <==>
      exists k :: 0 <= k < |ops| && !InNamespace(ops[k]) && n == MissingSwiftTypes(ops[k].opNodeName)
  {
    if ops != [] {
      var init := ops[..|ops| - 1];
      MissingSpec(init);
      assert forall k :: 0 <= k < |init| ==> init[k] == ops[k];
    }
  }

  /** How far a run gets: nothing, the C++ file opened, or the C++ file
      written and the Swift file opened, and then the Swift file written. */
  lemma RunStages(raws: seq<RawOp>, canon: RawOp -> (seq<Note>, Result<Op>), node: Op -> Result<NodeClass>,
                  abi: Op -> Result<AbiFunction>, swift: Op -> Result<SwiftWrapper>)
    ensures var run := RunWith(raws, canon, node, abi, swift);
      || run.effects == []
      || run.effects == [OpenCc]
      || (&& |run.effects| >= 3 && run.effects[0] == OpenCc && run.effects[1].WriteCc? && run.effects[2] == OpenSwift
          && (|run.effects| == 3 || (|run.effects| == 4 && run.effects[3].WriteSwift?)))
  {
  }

  /** The run succeeds exactly when the Swift file is written. */
  lemma RunSucceeds(raws: seq<RawOp>, canon: RawOp -> (seq<Note>, Result<Op>), node: Op -> Result<NodeClass>,
                    abi: Op -> Result<AbiFunction>, swift: Op -> Result<SwiftWrapper>)
    ensures var run := RunWith(raws, canon, node, abi, swift);
      run.outcome.Ok? <==> |run.effects| == 4
  {
  }

  /** No file is opened unless every op canonicalises and the names are in
      order; when they are out of order the run raises "op list is not
      sorted" after reporting every out-of-place name. */
  lemma NothingOpened(raws: seq<RawOp>, canon: RawOp -> (seq<Note>, Result<Op>), node: Op -> Result<NodeClass>,
                      abi: Op -> Result<AbiFunction>, swift: Op -> Result<SwiftWrapper>)
    ensures var run := RunWith(raws, canon, node, abi, swift);
      var c := Collect(Outcomes(canon, raws));
      && (run.effects == [] <==> c.1.Err? || !Sorted(NodeNames(c.1.value)))
      && (c.1.Ok? && !Sorted(NodeNames(c.1.value)) ==>
            run.outcome == Err(NotSorted) && run.notes == c.0 + SortCheck(NodeNames(c.1.value)).0
            && SortCheck(NodeNames(c.1.value)).0 != [])
  {
    var c := Collect(Outcomes(canon, raws));
    if c.1.Ok? {
      SortCheckSpec(NodeNames(c.1.value));
    }
  }

  /** A successful run works on the ops the first stage gives for the
      input, in order, and their names are in order. */
  lemma RunOps(raws: seq<RawOp>, canon: RawOp -> (seq<Note>, Result<Op>), node: Op -> Result<NodeClass>,
               abi: Op -> Result<AbiFunction>, swift: Op -> Result<SwiftWrapper>)
    requires RunWith(raws, canon, node, abi, swift).outcome.Ok?
    ensures var c := Collect(Outcomes(canon, raws));
      && c.1.Ok? && |c.1.value| == |raws|
      && (forall k :: 0 <= k < |raws| ==> canon(raws[k]).1.Ok? && c.1.value[k] == canon(raws[k]).1.value)
      && Sorted(NodeNames(c.1.value))
  {
    var outs := Outcomes(canon, raws);
    CollectSpec(outs);
    SortCheckSpec(NodeNames(Collect(outs).1.value));
  }

  /** A successful run writes into the C++ file the node class and then the
      ABI function of every op, in list order. */
  lemma RunCcOutput(raws: seq<RawOp>, canon: RawOp -> (seq<Note>, Result<Op>), node: Op -> Result<NodeClass>,
                    abi: Op -> Result<AbiFunction>, swift: Op -> Result<SwiftWrapper>, ops: seq<Op>)
    requires RunWith(raws, canon, node, abi, swift).outcome.Ok?
    requires Collect(Outcomes(canon, raws)).1 == Ok(ops)
    ensures var run := RunWith(raws, canon, node, abi, swift);
      && |run.effects| == 4
      && |run.effects[1].nodes| == |run.effects[1].functions| == |ops|
      && (forall k :: 0 <= k < |ops| ==>
            && node(ops[k]).Ok? && run.effects[1].nodes[k] == node(ops[k]).value
            && abi(ops[k]).Ok? && run.effects[1].functions[k] == abi(ops[k]).value)
  {
    MapResultSpec(node, ops);
    MapResultSpec(abi, ops);
  }

  /** A successful run writes into the Swift file the wrappers of the ops
      in the namespace, in order, and prints the first stage's notes, the op
      count, and one note per op without a wrapper. */
  lemma RunSwiftOutput(raws: seq<RawOp>, canon: RawOp -> (seq<Note>, Result<Op>), node: Op -> Result<NodeClass>,
                       abi: Op -> Result<AbiFunction>, swift: Op -> Result<SwiftWrapper>, ops: seq<Op>)
    requires RunWith(raws, canon, node, abi, swift).outcome.Ok?
    requires Collect(Outcomes(canon, raws)).1 == Ok(ops)
    ensures var run := RunWith(raws, canon, node, abi, swift);
      && |run.effects| == 4
      && |run.effects[3].wrappers| == |NamespaceOps(ops)|
      && (forall k :: 0 <= k < |NamespaceOps(ops)| ==>
            swift(NamespaceOps(ops)[k]).Ok? && run.effects[3].wrappers[k] == swift(NamespaceOps(ops)[k]).value)
      && run.notes == AllNotes(Outcomes(canon, raws)) + [TotalOps(|ops|)] + MissingNotes(ops)
  {
    var run := RunWith(raws, canon, node, abi, swift);
    var w := WrappersOf(swift, ops);
    assert w.Ok? && run.effects[3] == WriteSwift(w.value) && run.notes == Collect(Outcomes(canon, raws)).0 + [TotalOps(|ops|)] + MissingNotes(ops);
    CollectNotes(Outcomes(canon, raws));
    WrappersSpec(swift, ops);
  }

  /** When the first stage never raises "op list is not sorted" itself,
      the run raises it before touching any file exactly when every op
      passes the first stage but the node names are out of order. */
  lemma NotSortedSpec(raws: seq<RawOp>, canon: RawOp -> (seq<Note>, Result<Op>), node: Op -> Result<NodeClass>,
                      abi: Op -> Result<AbiFunction>, swift: Op -> Result<SwiftWrapper>)
    requires forall raw :: canon(raw).1.Err? ==> canon(raw).1.error != NotSorted
    ensures var run := RunWith(raws, canon, node, abi, swift);
      var c := Collect(Outcomes(canon, raws));
      (run.outcome == Err(NotSorted) && run.effects == []) <==> (c.1.Ok? && !Sorted(NodeNames(c.1.value)))
  {
    var c := Collect(Outcomes(canon, raws));
    if c.1.Ok? {
      SortCheckSpec(NodeNames(c.1.value));
    } else {
      CollectSpec(Outcomes(canon, raws));
    }
  }

  /** `canonicalize_op` never raises "op list is not sorted". */
  lemma CanonicalNeverNotSorted(raw: RawOp)
    ensures CanonicalOp(raw).1.Err? ==> CanonicalOp(raw).1.error != NotSorted
  {
    CanonicalErrors(raw);
  }

  /** For the generator itself: "op list is not sorted" is raised before
      any file is touched exactly when every op canonicalises and the node
      names are out of order. */
  lemma GenerateNotSorted(raws: seq<RawOp>)
    ensures var run := GenerateSpec(raws);
      (run.outcome == Err(NotSorted) && run.effects == [])
        <==> (CanonicalAll(raws).1.Ok? && !Sorted(NodeNames(CanonicalAll(raws).1.value)))
  {
    forall raw: RawOp
      ensures CanonicalOp(raw).1.Err? ==> CanonicalOp(raw).1.error != NotSorted
    {
      CanonicalNeverNotSorted(raw);
    }
    NotSortedSpec(raws, CanonicalOp, NodeSpec, AbiSpec, SwiftSpec);
  }
}
