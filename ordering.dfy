/** The ordering check of `main`: the `op_node_name` values must already be
    in Python's string order (code point by code point, a proper prefix
    first). When they are not, every position where the list differs from
    its sorted copy is reported as `actual -> expected`, and the run stops. */
module Ordering {
  import opened Wrappers
  import opened Canonical

  /** Python's `<=` on `str`. */
  predicate LexLe(a: string, b: string)
  {
    a == [] || (b != [] && (a[0] < b[0] || (a[0] == b[0] && LexLe(a[1..], b[1..]))))
  }

  lemma {:induction false} LexLeRefl(a: string)
    ensures LexLe(a, a)
  {
    if a != [] {
      LexLeRefl(a[1..]);
    }
  }

  lemma {:induction false} LexLeTotal(a: string, b: string)
    ensures LexLe(a, b) || LexLe(b, a)
  {
    if a != [] && b != [] && a[0] == b[0] {
      LexLeTotal(a[1..], b[1..]);
    }
  }

  lemma {:induction false} LexLeAntisymmetric(a: string, b: string)
    requires LexLe(a, b) && LexLe(b, a)
    ensures a == b
  {
    if a != [] && b != [] {
      LexLeAntisymmetric(a[1..], b[1..]);
      assert a == [a[0]] + a[1..] && b == [b[0]] + b[1..];
    }
  }

  lemma {:induction false} LexLeTransitive(a: string, b: string, c: string)
    requires LexLe(a, b) && LexLe(b, c)
    ensures LexLe(a, c)
  {
    if a != [] && b != [] && c != [] && a[0] == b[0] && b[0] == c[0] {
      LexLeTransitive(a[1..], b[1..], c[1..]);
    }
  }

  /** In order, equal neighbours allowed. */
  predicate Sorted(s: seq<string>)
  {
    forall i, j :: 0 <= i < j < |s| ==> LexLe(s[i], s[j])
  }

  /** `x` inserted before the first element it does not follow. */
  function Insert(x: string, s: seq<string>): (r: seq<string>)
    ensures |r| == |s| + 1
  {
    if s == [] || LexLe(x, s[0]) then [x] + s else [s[0]] + Insert(x, s[1..])
  }

  /** `sorted(names)`: the sorted copy of the list. */
  function SortedCopy(s: seq<string>): (r: seq<string>)
    ensures |r| == |s|
  {
    if s == [] then [] else Insert(s[0], SortedCopy(s[1..]))
  }

  /** Every element is at least `b`. */
  predicate AllAtLeast(b: string, s: seq<string>)
  {
    forall k :: 0 <= k < |s| ==> LexLe(b, s[k])
  }

  lemma {:induction false} InsertAtLeast(b: string, x: string, s: seq<string>)
    requires LexLe(b, x) && AllAtLeast(b, s)
    ensures AllAtLeast(b, Insert(x, s))
  {
    if !(s == [] || LexLe(x, s[0])) {
      InsertAtLeast(b, x, s[1..]);
      var r := Insert(x, s);
      assert r == [s[0]] + Insert(x, s[1..]);
      assert forall k :: 1 <= k < |r| ==> r[k] == Insert(x, s[1..])[k - 1];
    }
  }

  lemma {:induction false} InsertMultiset(x: string, s: seq<string>)
    ensures multiset(Insert(x, s)) == multiset(s) + multiset{x}
  {
    if !(s == [] || LexLe(x, s[0])) {
      InsertMultiset(x, s[1..]);
      assert s == [s[0]] + s[1..];
    }
  }

  lemma {:induction false} InsertSorted(x: string, s: seq<string>)
    requires Sorted(s)
    ensures Sorted(Insert(x, s))
  {
    if s == [] || LexLe(x, s[0]) {
      var r := [x] + s;
      forall i, j | 0 <= i < j < |r|
        ensures LexLe(r[i], r[j])
      {
        if i == 0 {
          if j > 1 {
            assert LexLe(s[0], s[j - 1]);
            LexLeTransitive(x, s[0], s[j - 1]);
          }
        } else {
          assert r[i] == s[i - 1] && r[j] == s[j - 1];
        }
      }
    } else {
      LexLeTotal(x, s[0]);
      InsertSorted(x, s[1..]);
      var rest := Insert(x, s[1..]);
      assert AllAtLeast(s[0], s[1..]) by {
        forall k | 0 <= k < |s[1..]|
          ensures LexLe(s[0], s[1..][k])
        {
          assert s[1..][k] == s[k + 1];
        }
      }
      InsertAtLeast(s[0], x, s[1..]);
      var r := [s[0]] + rest;
      forall i, j | 0 <= i < j < |r|
        ensures LexLe(r[i], r[j])
      {
        if i == 0 {
          assert r[j] == rest[j - 1];
        } else {
          assert r[i] == rest[i - 1] && r[j] == rest[j - 1];
        }
      }
    }
  }

  lemma InsertFacts(x: string, s: seq<string>)
    requires Sorted(s)
    ensures Sorted(Insert(x, s))
    ensures multiset(Insert(x, s)) == multiset(s) + multiset{x}
  {
    InsertSorted(x, s);
    InsertMultiset(x, s);
  }

  /** The sorted copy is in order and has the same elements. */
  lemma {:induction false} SortedCopyFacts(s: seq<string>)
    ensures Sorted(SortedCopy(s))
    ensures multiset(SortedCopy(s)) == multiset(s)
    ensures |SortedCopy(s)| == |s|
  {
    if s != [] {
      SortedCopyFacts(s[1..]);
      InsertFacts(s[0], SortedCopy(s[1..]));
      assert s == [s[0]] + s[1..];
    }
  }

  /** Two sorted lists with the same elements start with the same one. */
  lemma SortedHeads(t: seq<string>, u: seq<string>)
    requires Sorted(t) && Sorted(u) && multiset(t) == multiset(u) && t != [] && u != []
    ensures t[0] == u[0]
  {
    assert t[0] in multiset(u);
    var j :| 0 <= j < |u| && u[j] == t[0];
    assert u[0] in multiset(t);
    var i :| 0 <= i < |t| && t[i] == u[0];
    assert LexLe(u[0], t[0]) by {
      if j > 0 { assert LexLe(u[0], u[j]); } else { LexLeRefl(u[0]); }
    }
    assert LexLe(t[0], u[0]) by {
      if i > 0 { assert LexLe(t[0], t[i]); } else { LexLeRefl(t[0]); }
    }
    LexLeAntisymmetric(t[0], u[0]);
  }

  /** Removing the head of a non-empty list removes one copy of it. */
  lemma TailMultiset(t: seq<string>)
    requires t != []
    ensures multiset(t[1..]) == multiset(t) - multiset{t[0]}
  {
    assert t == [t[0]] + t[1..];
    assert multiset(t) == multiset{t[0]} + multiset(t[1..]);
  }

  /** A sorted list is determined by its elements. */
  lemma {:induction false} SortedUnique(t: seq<string>, u: seq<string>)
    requires Sorted(t) && Sorted(u) && multiset(t) == multiset(u)
    ensures t == u
  {
    assert |u| == |t| by {
      assert |multiset(t)| == |t| && |multiset(u)| == |u|;
    }
    if t != [] {
      SortedHeads(t, u);
      TailMultiset(t);
      TailMultiset(u);
      assert Sorted(t[1..]) && Sorted(u[1..]);
      SortedUnique(t[1..], u[1..]);
      assert t == [t[0]] + t[1..] && u == [u[0]] + u[1..];
    }
  }

  /** The list equals its sorted copy exactly when it is in order. */
  lemma SortedCopyIdentity(s: seq<string>)
    ensures SortedCopy(s) == s <==> Sorted(s)
  {
    SortedCopyFacts(s);
    if Sorted(s) {
      SortedUnique(SortedCopy(s), s);
    }
  }

  /** The notes `actual -> expected`, one per position from `i` on where the
      lists differ, in order. */
  function MismatchesFrom(actual: seq<string>, expected: seq<string>, i: nat): seq<Note>
    requires |actual| == |expected| && i <= |actual|
    decreases |actual| - i
  {
    if i == |actual| then []
    else
      var here := if actual[i] != expected[i] then [Mismatch(actual[i], expected[i])] else [];
      here + MismatchesFrom(actual, expected, i + 1)
  }

  /** The report: exactly one note per differing position, naming both names,
      and none when the lists agree. */
  lemma {:induction false} MismatchesExact(actual: seq<string>, expected: seq<string>, i: nat)
    requires |actual| == |expected| && i <= |actual|
    ensures forall n :: n in MismatchesFrom(actual, expected, i) <==>
      exists k :: i <= k < |actual| && actual[k] != expected[k] && n == Mismatch(actual[k], expected[k])
    ensures MismatchesFrom(actual, expected, i) == [] <==> actual[i..] == expected[i..]
    decreases |actual| - i
  {
    if i < |actual| {
      MismatchesExact(actual, expected, i + 1);
      assert actual[i..] == [actual[i]] + actual[i + 1..];
      assert expected[i..] == [expected[i]] + expected[i + 1..];
    }
  }

  /** The report loop of `main`, over the positions of the list. */
  method ReportMismatches(actual: seq<string>, expected: seq<string>) returns (notes: seq<Note>)
    requires |actual| == |expected|
    ensures notes == MismatchesFrom(actual, expected, 0)
  {
    notes := [];
    var i := 0;
    while i < |actual|
      invariant 0 <= i <= |actual|
      invariant notes + MismatchesFrom(actual, expected, i) == MismatchesFrom(actual, expected, 0)
    {
      if actual[i] != expected[i] {
        notes := notes + [Mismatch(actual[i], expected[i])];
      }
      i := i + 1;
    }
  }

  /** The check of `main` over the node names: the report, and the
      exception when the names are out of order. */
  function SortCheck(names: seq<string>): (seq<Note>, Result<()>)
  {
    var sorted := SortedCopy(names);
    SortedCopyFacts(names);
    if names == sorted then ([], Ok(()))
    else (MismatchesFrom(names, sorted, 0), Err(NotSorted))
  }

  /** The check fails exactly when the names are out of order, and then
      reports at least one position; every reported position holds a name
      other than the one the sorted order puts there. */
  lemma SortCheckSpec(names: seq<string>)
    ensures SortCheck(names).1.Err? <==> !Sorted(names)
    ensures SortCheck(names).1.Err? ==> SortCheck(names).1.error == NotSorted
    ensures SortCheck(names).0 == [] <==> Sorted(names)
    ensures forall n :: n in SortCheck(names).0 <==>
      exists k :: 0 <= k < |names| && names[k] != SortedCopy(names)[k] && n == Mismatch(names[k], SortedCopy(names)[k])
  {
    SortedCopyIdentity(names);
    SortedCopyFacts(names);
    MismatchesExact(names, SortedCopy(names), 0);
    assert names[0..] == names && SortedCopy(names)[0..] == SortedCopy(names);
  }

  /** Python's list order is not strict: two ops with the same node name
      pass the check side by side. */
  lemma EqualNamesPass(name: string)
    ensures SortCheck([name, name]) == ([], Ok(()))
  {
    LexLeRefl(name);
    SortCheckSpec([name, name]);
  }

  /** Out of order by one rotation, every position is reported. */
  lemma RotatedNamesReported()
    ensures SortCheck(["Add", "Ceil", "Abs"]) ==
      ([Mismatch("Add", "Abs"), Mismatch("Ceil", "Add"), Mismatch("Abs", "Ceil")], Err(NotSorted))
  {
    assert SortedCopy(["Abs"]) == ["Abs"];
    assert LexLe("Abs", "Ceil") && !LexLe("Ceil", "Abs");
    assert SortedCopy(["Ceil", "Abs"]) == ["Abs", "Ceil"];
    assert !LexLe("Add", "Abs") && LexLe("Add", "Ceil");
    var names, sorted := ["Add", "Ceil", "Abs"], ["Abs", "Add", "Ceil"];
    assert SortedCopy(names) == sorted;
    assert names != sorted by { assert names[0] != sorted[0]; }
    assert "Ceil" != "Add" && "Abs" != "Ceil";
    assert MismatchesFrom(names, sorted, 2) == [Mismatch("Abs", "Ceil")];
    assert MismatchesFrom(names, sorted, 1) == [Mismatch("Ceil", "Add"), Mismatch("Abs", "Ceil")];
    assert MismatchesFrom(names, sorted, 0) == [Mismatch("Add", "Abs")] + MismatchesFrom(names, sorted, 1);
    assert [Mismatch("Add", "Abs")] + [Mismatch("Ceil", "Add"), Mismatch("Abs", "Ceil")]
      == [Mismatch("Add", "Abs"), Mismatch("Ceil", "Add"), Mismatch("Abs", "Ceil")];
  }

  /** The check as `main` runs it. */
  method CheckOrder(names: seq<string>) returns (notes: seq<Note>, r: Result<()>)
    ensures (notes, r) == SortCheck(names)
  {
    var sorted := SortedCopy(names);
    SortedCopyFacts(names);
    notes := [];
    r := Ok(());
    if names != sorted {
      notes := ReportMismatches(names, sorted);
      r := Err(NotSorted);
    }
  }
}
