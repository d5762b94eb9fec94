/** `format_args(items, comma, ending)`: the items joined by `comma`, where
    the separator is only written once something has been written, and
    `ending` appended unless the result is empty. */
module Formatting {
  import opened Strings

  /** The items from the first non-empty one on. */
  function DropLeadingEmpty(items: seq<string>): (kept: seq<string>)
    ensures kept != [] ==> kept[0] != ""
    ensures |kept| <= |items|
  {
    if items == [] then []
    else if items[0] == "" then DropLeadingEmpty(items[1..])
    else items
  }

  /** What the loop has built after reading `items`. */
  function Joined(items: seq<string>, comma: string): string
  {
    var kept := DropLeadingEmpty(items);
    if kept == [] then "" else Join(kept, comma)
  }

  /** The reference definition of `format_args`. */
  function FormatArgs(items: seq<string>, comma: string, ending: string): string
  {
    var joined := Joined(items, comma);
    if joined == "" then "" else joined + ending
  }

  lemma {:induction false} JoinSnoc(parts: seq<string>, x: string, sep: string)
    requires parts != []
    ensures Join(parts + [x], sep) == Join(parts, sep) + sep + x
  {
    if |parts| == 1 {
      assert parts + [x] == [parts[0], x];
      assert [parts[0], x][1..] == [x];
    } else {
      JoinSnoc(parts[1..], x, sep);
      assert (parts + [x])[1..] == parts[1..] + [x];
    }
  }

  lemma {:induction false} JoinHead(parts: seq<string>, sep: string)
    requires parts != []
    ensures |Join(parts, sep)| >= |parts[0]|
  {
  }

  lemma {:induction false} DropSnoc(items: seq<string>, x: string)
    ensures DropLeadingEmpty(items + [x]) ==
      if DropLeadingEmpty(items) == [] then (if x == "" then [] else [x])
      else DropLeadingEmpty(items) + [x]
  {
    if items == [] {
      assert items + [x] == [x];
      assert [x][1..] == [];
    } else if items[0] == "" {
      DropSnoc(items[1..], x);
      assert (items + [x])[1..] == items[1..] + [x];
    }
  }

  lemma JoinedSnoc(items: seq<string>, x: string, comma: string)
    ensures Joined(items + [x], comma) ==
      if Joined(items, comma) == "" then x else Joined(items, comma) + comma + x
  {
    DropSnoc(items, x);
    var kept := DropLeadingEmpty(items);
    if kept != [] {
      JoinHead(kept, comma);
      JoinSnoc(kept, x, comma);
    }
  }

  /** The loop of `format_args`. */
  method FormatArgsText(items: seq<string>, comma: string, ending: string) returns (text: string)
    ensures text == FormatArgs(items, comma, ending)
  {
    var result := "";
    for i := 0 to |items|
      invariant result == Joined(items[..i], comma)
    {
      JoinedSnoc(items[..i], items[i], comma);
      assert items[..i + 1] == items[..i] + [items[i]];
      if result != "" {
        result := result + comma;
      }
      result := result + items[i];
    }
    assert items[..|items|] == items;
    if result != "" {
      return result + ending;
    }
    return "";
  }

  /** With no empty item, `format_args` is `comma.join(items) + ending`, or
      nothing for no items. */
  lemma FormatArgsJoin(items: seq<string>, comma: string, ending: string)
    requires forall k :: 0 <= k < |items| ==> items[k] != ""
    ensures items == [] ==> FormatArgs(items, comma, ending) == ""
    ensures items != [] ==> FormatArgs(items, comma, ending) == Join(items, comma) + ending
  {
    if items != [] {
      JoinHead(items, comma);
    }
  }

  lemma {:induction false} JoinEmptySep(parts: seq<string>)
    ensures Join(parts, "") == Concat(parts)
  {
    if |parts| > 1 {
      JoinEmptySep(parts[1..]);
    } else if |parts| == 1 {
      assert parts[1..] == [];
    }
  }

  lemma {:induction false} ConcatDrop(items: seq<string>)
    ensures Concat(DropLeadingEmpty(items)) == Concat(items)
  {
    if items != [] && items[0] == "" {
      ConcatDrop(items[1..]);
    }
  }

  /** With no separator and no ending, `format_args` concatenates. */
  lemma FormatArgsConcat(items: seq<string>)
    ensures FormatArgs(items, "", "") == Concat(items)
  {
    JoinEmptySep(DropLeadingEmpty(items));
    ConcatDrop(items);
  }
}
