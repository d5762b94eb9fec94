/** `snake_to_camel`: the default node class name of an op. The name is
    split at every `_`, the first character of each piece is upper-cased and
    the pieces are joined without separator. An empty piece (a leading,
    trailing or doubled `_`, or an empty name) makes `x[0]` raise
    `IndexError`. */
module Naming {
  import opened Wrappers
  import opened Strings

  /** A piece with its first character upper-cased: `x[0].capitalize() + x[1:]`. */
  function Capitalize(piece: string): (r: string)
    requires |piece| > 0
    ensures |r| == |piece| && r[0] == Upper(piece[0]) && r[1..] == piece[1..]
  {
    [Upper(piece[0])] + piece[1..]
  }

  /** The pieces capitalised and joined; `IndexError` at the first empty piece. */
  function CapitalizeAll(pieces: seq<string>): (r: Result<string>)
    ensures r.Ok? <==> forall k :: 0 <= k < |pieces| ==> |pieces[k]| > 0
    ensures r.Err? ==> r.error == IndexOutOfRange
  {
    if pieces == [] then Ok("")
    else if |pieces[0]| == 0 then Err(IndexOutOfRange)
    else
      var rest :- CapitalizeAll(pieces[1..]);
      Ok(Capitalize(pieces[0]) + rest)
  }

  function SnakeToCamel(name: string): Result<string>
  {
    CapitalizeAll(Split(name, '_'))
  }

  /** No piece of the split is empty. */
  predicate NoEmptyPiece(name: string)
  {
    forall k :: 0 <= k < |Split(name, '_')| ==> |Split(name, '_')[k]| > 0
  }

  /** The `_`-separated pieces of a name are all non-empty exactly when the
      name is non-empty, neither starts nor ends with `_`, and has no `__`. */
  predicate WellSeparated(name: string)
  {
    && |name| > 0 && name[0] != '_' && name[|name| - 1] != '_'
    && forall k :: 0 <= k < |name| - 1 ==> !(name[k] == '_' && name[k + 1] == '_')
  }

  lemma {:induction false} WellSeparatedTail(s: string)
    requires |s| >= 2 && s[0] != '_' && s[1] != '_'
    ensures WellSeparated(s) <==> WellSeparated(s[1..])
  {
    var t := s[1..];
    if WellSeparated(t) {
      forall k | 0 <= k < |s| - 1
        ensures !(s[k] == '_' && s[k + 1] == '_')
      {
        if k > 0 { assert s[k] == t[k - 1] && s[k + 1] == t[k]; }
      }
    }
    if WellSeparated(s) {
      forall k | 0 <= k < |t| - 1
        ensures !(t[k] == '_' && t[k + 1] == '_')
      {
        assert t[k] == s[k + 1] && t[k + 1] == s[k + 2];
      }
    }
  }

  lemma {:induction false} WellSeparatedAfterUnderscore(s: string)
    requires |s| >= 2 && s[0] != '_' && s[1] == '_'
    ensures WellSeparated(s) <==> WellSeparated(s[2..])
  {
    var u := s[2..];
    if WellSeparated(u) {
      forall k | 0 <= k < |s| - 1
        ensures !(s[k] == '_' && s[k + 1] == '_')
      {
        if k > 1 { assert s[k] == u[k - 2] && s[k + 1] == u[k - 1]; }
        if k == 1 { assert s[k + 1] == u[0]; }
      }
    }
    if WellSeparated(s) {
      assert |u| > 0 by { assert s[|s| - 1] != '_'; }
      assert u[0] != '_' by { assert !(s[1] == '_' && s[2] == '_'); }
      forall k | 0 <= k < |u| - 1
        ensures !(u[k] == '_' && u[k + 1] == '_')
      {
        assert u[k] == s[k + 2] && u[k + 1] == s[k + 3];
      }
    }
  }

  /** `snake_to_camel` fails exactly on a name that is empty, starts or ends
      with `_`, or contains `__`. */
  lemma {:induction false} NoEmptyPieceIff(name: string)
    ensures NoEmptyPiece(name) <==> WellSeparated(name)
    decreases |name|
  {
    var pieces := Split(name, '_');
    if name == [] {
      assert pieces == [""];
    } else if name[0] == '_' {
      assert pieces[0] == "";
    } else {
      var t := name[1..];
      var rest := Split(t, '_');
      assert pieces == [[name[0]] + rest[0]] + rest[1..];
      if |name| == 1 {
        assert rest == [""];
      } else if name[1] != '_' {
        NoEmptyPieceIff(t);
        WellSeparatedTail(name);
        assert |rest[0]| > 0 by {
          assert t[0] != '_';
          var tail := Split(t[1..], '_');
          assert rest == [[t[0]] + tail[0]] + tail[1..];
        }
        assert NoEmptyPiece(name) <==> NoEmptyPiece(t) by {
          assert forall k :: 1 <= k < |rest| ==> pieces[k] == rest[k];
        }
      } else {
        var u := t[1..];
        assert u == name[2..];
        NoEmptyPieceIff(u);
        WellSeparatedAfterUnderscore(name);
        assert rest == [""] + Split(u, '_');
        var after := Split(u, '_');
        assert |pieces| == |after| + 1 && |pieces[0]| > 0;
        assert forall k :: 0 <= k < |after| ==> pieces[k + 1] == after[k];
        if NoEmptyPiece(u) {
          forall k | 0 <= k < |pieces|
            ensures |pieces[k]| > 0
          {
            if k > 0 { assert pieces[k] == after[k - 1]; }
          }
        }
      }
    }
  }

  /** A character-by-character reference: drop every `_` and upper-case the
      first character and every character that follows an `_`. */
  function CamelRef(s: string, capitalizeNext: bool): string
  {
    if s == [] then []
    else if s[0] == '_' then CamelRef(s[1..], true)
    else [if capitalizeNext then Upper(s[0]) else s[0]] + CamelRef(s[1..], false)
  }

  lemma {:induction false} CamelRefNoUnderscore(s: string, capitalizeNext: bool)
    ensures '_' !in CamelRef(s, capitalizeNext)
    decreases |s|
  {
    if s != [] {
      CamelRefNoUnderscore(s[1..], s[0] == '_');
    }
  }

  /** The first piece is empty exactly when the string is empty or starts with the separator. */
  lemma FirstPiece(t: string)
    ensures |Split(t, '_')[0]| == 0 <==> t == [] || t[0] == '_'
  {
  }

  lemma {:induction false} CamelRefFirst(t: string)
    requires forall k :: 0 <= k < |Split(t, '_')| ==> |Split(t, '_')[k]| > 0
    ensures CamelRef(t, true) == CapitalizeAll(Split(t, '_')).value
    decreases |t|, 1
  {
    var pieces := Split(t, '_');
    FirstPiece(t);
    var rest := Split(t[1..], '_');
    assert pieces == [[t[0]] + rest[0]] + rest[1..];
    assert forall k :: 1 <= k < |rest| ==> rest[k] == pieces[k];
    CamelRefRest(t[1..]);
    assert pieces[1..] == rest[1..];
  }

  lemma {:induction false} CamelRefRest(t: string)
    requires forall k :: 1 <= k < |Split(t, '_')| ==> |Split(t, '_')[k]| > 0
    ensures var pieces := Split(t, '_');
      CamelRef(t, false) == pieces[0] + CapitalizeAll(pieces[1..]).value
    decreases |t|, 0
  {
    var pieces := Split(t, '_');
    assert forall k :: 0 <= k < |pieces[1..]| ==> pieces[1..][k] == pieces[k + 1];
    if t == [] {
      assert pieces == [""];
    } else if t[0] == '_' {
      var after := Split(t[1..], '_');
      assert pieces == [""] + after;
      assert pieces[1..] == after;
      CamelRefFirst(t[1..]);
    } else {
      var rest := Split(t[1..], '_');
      assert pieces == [[t[0]] + rest[0]] + rest[1..];
      assert forall k :: 1 <= k < |rest| ==> rest[k] == pieces[k];
      CamelRefRest(t[1..]);
      assert pieces[1..] == rest[1..];
    }
  }

  /** `snake_to_camel` succeeds exactly on well-separated names, and then
      agrees with the character-by-character reference; otherwise it raises
      `IndexError`. */
  lemma SnakeToCamelSpec(name: string)
    ensures SnakeToCamel(name).Ok? <==> WellSeparated(name)
    ensures SnakeToCamel(name).Ok? ==> SnakeToCamel(name).value == CamelRef(name, true)
    ensures SnakeToCamel(name).Err? ==> SnakeToCamel(name).error == IndexOutOfRange
  {
    NoEmptyPieceIff(name);
    if SnakeToCamel(name).Ok? {
      CamelRefFirst(name);
    }
  }

  lemma {:induction false} SplitWithout(s: string, c: char)
    requires c !in s
    ensures Split(s, c) == [s]
    decreases |s|
  {
    if s != [] {
      SplitWithout(s[1..], c);
      assert [s[0]] + s[1..] == s;
    }
  }

  /** A class name produced by `snake_to_camel` has no `_` and is its own
      image: applying the conversion twice is applying it once. */
  lemma SnakeToCamelIdempotent(name: string)
    requires SnakeToCamel(name).Ok?
    ensures var camel := SnakeToCamel(name).value;
      '_' !in camel && SnakeToCamel(camel) == Ok(camel)
  {
    SnakeToCamelSpec(name);
    var camel := SnakeToCamel(name).value;
    CamelRefNoUnderscore(name, true);
    SplitWithout(camel, '_');
    assert name[0] != '_';
    assert camel[0] == Upper(name[0]);
    assert Upper(camel[0]) == camel[0];
    assert Capitalize(camel) == camel by {
      assert [camel[0]] + camel[1..] == camel;
    }
    assert CapitalizeAll([camel]) == Ok(Capitalize(camel) + "") by {
      assert [camel][1..] == [];
    }
    assert camel + "" == camel;
  }
}
