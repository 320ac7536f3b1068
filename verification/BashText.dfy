/** Joining in Jinja templates (`pack` of mcp/scripts/xdf_data.sh.j2) and splitting in bash
    (`read -a` with a single separator, as in mcp/scripts/lib_jump_deploy.sh). */
module BashText {
  import opened Common


  /** `list | join(sep)` */
  function Join(list: seq<string>, sep: char): string {
    if list == [] then ""
    else if |list| == 1 then list[0]
    else list[0] + [sep] + Join(list[1..], sep)
  }

  /** `text | replace(from, to)` for single characters */
  function Replaced(text: string, from: char, to: char): string {
    seq(|text|, i requires 0 <= i < |text| => if text[i] == from then to else text[i])
  }

  /** The `pack` macro: blanks travel as bars. */
  function Pack(list: seq<string>, sep: char): string {
    Replaced(Join(list, sep), ' ', '|')
  }

  /** `IFS=c read -r -a`: separators end fields, so an empty last field disappears. */
  function ReadArray(text: string, c: char): seq<string>
    decreases |text|
  {
    if text == "" then []
    else
      var i := IndexOf(text, c);
      if i == |text| then [text] else [text[..i]] + ReadArray(text[i + 1..], c)
  }

  /** A field of an array; bash reads fields past the end as empty. */
  function At(fields: seq<string>, i: nat): string {
    if i < |fields| then fields[i] else ""
  }

  ghost predicate Free(list: seq<string>, c: char) {
    forall s <- list :: c !in s
  }

  ghost function Trimmed(list: seq<string>): seq<string> {
    if list != [] && list[|list| - 1] == "" then list[..|list| - 1] else list
  }

  lemma IndexOfFirst(f: string, c: char, rest: string)
    requires c !in f
    ensures IndexOf(f + [c] + rest, c) == |f|
  {
    var text := f + [c] + rest;
    var i := IndexOf(text, c);
    assert forall k :: 0 <= k < |f| ==> text[k] == f[k] && f[k] in f;
    assert text[|f|] == c;
  }

  lemma IndexOfNone(f: string, c: char)
    requires c !in f
    ensures IndexOf(f, c) == |f|
  {
  }

  /** Reading back a joined list gives the list, but for an empty last field. */
  lemma {:induction false} ReadJoin(list: seq<string>, c: char)
    requires Free(list, c)
    ensures ReadArray(Join(list, c), c) == Trimmed(list)
  {
    if |list| == 1 {
      IndexOfNone(list[0], c);
    } else if |list| > 1 {
      var f, rest := list[0], list[1..];
      assert f in list;
      ReadFirst(f, c, Join(rest, c));
      ReadJoin(rest, c);
      TrimmedTail(f, rest);
      assert list == [f] + rest;
    }
  }

  lemma ReadFirst(f: string, c: char, tail: string)
    requires c !in f
    ensures ReadArray(f + [c] + tail, c) == [f] + ReadArray(tail, c)
  {
    IndexOfFirst(f, c, tail);
    assert (f + [c] + tail)[..|f|] == f && (f + [c] + tail)[|f| + 1..] == tail;
  }

  lemma TrimmedTail(f: string, rest: seq<string>)
    requires rest != []
    ensures Trimmed([f] + rest) == [f] + Trimmed(rest)
  {
    var list := [f] + rest;
    assert list[|list| - 1] == rest[|rest| - 1];
    assert list[..|list| - 1] == [f] + rest[..|rest| - 1];
  }

  lemma {:induction false} JoinFreeOf(list: seq<string>, sep: char, c: char)
    requires Free(list, c) && c != sep
    ensures c !in Join(list, sep)
  {
    if |list| > 1 {
      assert list[0] in list;
      JoinFreeOf(list[1..], sep, c);
    } else if |list| == 1 {
      assert list[0] in list;
    }
  }

  /** A joined list as the last field is the same as its fields in line. */
  lemma {:induction false} JoinLast(a: seq<string>, b: seq<string>, sep: char)
    requires b != []
    ensures Join(a + [Join(b, sep)], sep) == Join(a + b, sep)
  {
    if a == [] {
      assert a + [Join(b, sep)] == [Join(b, sep)] && a + b == b;
    } else {
      JoinLast(a[1..], b, sep);
      assert (a + [Join(b, sep)])[1..] == a[1..] + [Join(b, sep)];
      assert (a + b)[1..] == a[1..] + b;
    }
  }

  /** The same for the first of two fields. */
  lemma {:induction false} JoinFirst(a: seq<string>, b: seq<string>, sep: char)
    requires a != [] && b != []
    ensures Join([Join(a, sep)] + b, sep) == Join(a + b, sep)
  {
    var jb := Join(b, sep);
    assert ([Join(a, sep)] + b)[1..] == b && (a + b)[1..] == a[1..] + b;
    if |a| == 1 {
      assert a[1..] + b == b;
    } else {
      JoinFirst(a[1..], b, sep);
      var ja := Join(a[1..], sep);
      assert ([ja] + b)[1..] == b;
      assert Join(a[1..] + b, sep) == ja + [sep] + jb;
      assert (a[0] + [sep] + ja) + [sep] + jb == a[0] + [sep] + (ja + [sep] + jb);
    }
  }

  /** Splitting a joined list at the separator gives the list back. */
  lemma {:induction false} SplitJoin(list: seq<string>, c: char)
    requires list != [] && Free(list, c)
    ensures Split(Join(list, c), c) == list
  {
    var f := list[0];
    assert f in list;
    if |list| == 1 {
      SplitWithoutSeparator(f, c);
    } else {
      SplitJoin(list[1..], c);
      SplitFirst(f, c, Join(list[1..], c));
      assert list == [f] + list[1..];
    }
  }

  lemma {:induction false} SplitFirst(f: string, c: char, tail: string)
    requires c !in f
    ensures Split(f + [c] + tail, c) == [f] + Split(tail, c)
  {
    if f == "" {
      assert f + [c] + tail == [c] + tail;
    } else {
      SplitFirst(f[1..], c, tail);
      assert (f + [c] + tail)[1..] == f[1..] + [c] + tail && f == [f[0]] + f[1..];
    }
  }

  ghost function Lowers(list: seq<string>): seq<string> {
    seq(|list|, i requires 0 <= i < |list| => Lower(list[i]))
  }

  lemma {:induction false} LowerJoin(list: seq<string>, c: char)
    requires LowerChar(c) == c
    ensures Lower(Join(list, c)) == Join(Lowers(list), c)
  {
    if |list| > 1 {
      LowerJoin(list[1..], c);
      assert Lowers(list)[1..] == Lowers(list[1..]);
      assert Lower(list[0] + [c] + Join(list[1..], c)) == Lower(list[0]) + [c] + Lower(Join(list[1..], c));
    }
  }

  lemma PackWithoutBlanks(list: seq<string>, sep: char)
    requires Free(list, ' ') && sep != ' '
    ensures Pack(list, sep) == Join(list, sep)
  {
    JoinFreeOf(list, sep, ' ');
  }
}
