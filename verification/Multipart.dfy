/** Form data for the MAAS server: mcp/salt-formulas/salt-formula-maas/_modules/multipart.py
    flattens nested contents into parts and delimits the lines of the encoded body with CRLF
    (section 4.1.1 of RFC 2046). */
module Multipart {
  import opened Common

  // ----- line endings -----

  predicate Eol(c: char) {
    c == '\r' || c == '\n'
  }

  function LineEnd(buf: string): (i: nat)
    ensures i <= |buf|
    ensures i < |buf| ==> Eol(buf[i])
    ensures forall k :: 0 <= k < i ==> !Eol(buf[k])
  {
    if buf == "" || Eol(buf[0]) then 0 else 1 + LineEnd(buf[1..])
  }

  /** Where the next line starts when one ends at `i`. */
  function AfterEnd(buf: string, i: nat): (next: nat)
    requires i < |buf|
    ensures i < next <= |buf|
  {
    if buf[i] == '\r' && i + 1 < |buf| && buf[i + 1] == '\n' then i + 2 else i + 1
  }

  /** `bytes.splitlines()`: CR, LF and CRLF end a line; no line follows a final ending. */
  function SplitLines(buf: string): seq<string>
    decreases |buf|
  {
    if buf == "" then []
    else
      var i := LineEnd(buf);
      if i == |buf| then [buf] else [buf[..i]] + SplitLines(buf[AfterEnd(buf, i)..])
  }

  function JoinCrlf(lines: seq<string>): string {
    if lines == [] then ""
    else if |lines| == 1 then lines[0]
    else lines[0] + "\r\n" + JoinCrlf(lines[1..])
  }

  function Body(buf: string): string {
    JoinCrlf(SplitLines(buf))
  }

  ghost predicate CleanLine(line: string) {
    forall k :: 0 <= k < |line| ==> !Eol(line[k])
  }

  ghost predicate CleanLines(lines: seq<string>) {
    forall i :: 0 <= i < |lines| ==> CleanLine(lines[i])
  }

  /** CR and LF occur only as the pair CRLF. */
  ghost predicate OnlyCrlf(text: string) {
    && (forall i :: 0 <= i < |text| && text[i] == '\r' ==> i + 1 < |text| && text[i + 1] == '\n')
    && (forall i :: 0 <= i < |text| && text[i] == '\n' ==> i > 0 && text[i - 1] == '\r')
  }

  function TotalLength(lines: seq<string>): nat {
    if lines == [] then 0 else |lines[0]| + TotalLength(lines[1..])
  }

  lemma {:induction false} SplitIsClean(buf: string)
    ensures CleanLines(SplitLines(buf))
    decreases |buf|
  {
    if buf != "" {
      var i := LineEnd(buf);
      if i < |buf| {
        var next := AfterEnd(buf, i);
        SplitIsClean(buf[next..]);
        CleanCons(buf[..i], SplitLines(buf[next..]));
      }
    }
  }

  lemma CleanCons(line: string, lines: seq<string>)
    requires CleanLines(lines) && CleanLine(line)
    ensures CleanLines([line] + lines)
  {
  }

  lemma {:induction false} JoinIsCrlf(lines: seq<string>)
    requires CleanLines(lines)
    ensures OnlyCrlf(JoinCrlf(lines))
    ensures lines != [] ==> |JoinCrlf(lines)| == TotalLength(lines) + 2 * (|lines| - 1)
  {
    if |lines| > 1 {
      assert CleanLines(lines[1..]);
      JoinIsCrlf(lines[1..]);
      var head, tail := lines[0], JoinCrlf(lines[1..]);
      var text := head + "\r\n" + tail;
      assert forall i :: 0 <= i < |head| ==> text[i] == head[i] && !Eol(text[i]);
      assert forall i :: |head| + 2 <= i < |text| ==> text[i] == tail[i - |head| - 2];
      forall i | 0 <= i < |text| && text[i] == '\r' ensures i + 1 < |text| && text[i + 1] == '\n' {
        if i >= |head| + 2 { assert tail[i - |head| - 2] == '\r'; }
      }
      forall i | 0 <= i < |text| && text[i] == '\n' ensures i > 0 && text[i - 1] == '\r' {
        if i >= |head| + 2 { assert tail[i - |head| - 2] == '\n'; }
      }
    } else if |lines| == 1 {
      assert CleanLine(lines[0]);
      assert lines[1..] == [];
    }
  }

  /** Every body is delimited by CRLF alone, and this is the length announced for it. */
  lemma BodyIsNormalised(buf: string)
    ensures OnlyCrlf(Body(buf))
    ensures |Body(buf)| == TotalLength(SplitLines(buf)) + if buf == "" then 0 else 2 * (|SplitLines(buf)| - 1)
  {
    SplitIsClean(buf);
    JoinIsCrlf(SplitLines(buf));
  }

  ghost function WithoutEmptyLast(lines: seq<string>): seq<string> {
    if lines != [] && lines[|lines| - 1] == "" then lines[..|lines| - 1] else lines
  }

  lemma {:induction false} SplitJoined(lines: seq<string>)
    requires CleanLines(lines)
    ensures SplitLines(JoinCrlf(lines)) == WithoutEmptyLast(lines)
  {
    if |lines| == 1 {
      assert CleanLine(lines[0]);
      assert LineEnd(lines[0]) == |lines[0]|;
    } else if |lines| > 1 {
      assert CleanLines(lines[1..]);
      SplitJoined(lines[1..]);
      var head, tail := lines[0], JoinCrlf(lines[1..]);
      assert CleanLine(lines[0]);
      SplitFirst(head, tail);
      assert lines == [head] + lines[1..];
      TailKeepsLast(head, lines[1..]);
    }
  }

  lemma TailKeepsLast(head: string, tail: seq<string>)
    requires tail != []
    ensures WithoutEmptyLast([head] + tail) == [head] + WithoutEmptyLast(tail)
  {
    var lines := [head] + tail;
    assert lines[|lines| - 1] == tail[|tail| - 1];
    assert lines[..|lines| - 1] == [head] + tail[..|tail| - 1];
  }

  lemma SplitFirst(head: string, tail: string)
    requires CleanLine(head)
    ensures SplitLines(head + "\r\n" + tail) == [head] + SplitLines(tail)
  {
    var text := head + "\r\n" + tail;
    assert text[|head|] == '\r' && text[|head| + 1] == '\n';
    FirstEnd(head, text);
    assert text[..|head|] == head;
    assert text[|head| + 2..] == tail;
  }

  lemma FirstEnd(head: string, text: string)
    requires head <= text && |head| < |text| && Eol(text[|head|])
    requires CleanLine(head)
    ensures LineEnd(text) == |head|
  {
    var i := LineEnd(text);
    assert forall k :: 0 <= k < |head| ==> text[k] == head[k];
  }

  /** Lines end at LF, at CR, and at CR followed by LF taken together, and nowhere else; what stands
      between is kept as it is. */
  lemma LinesExactly(line: string, rest: string)
    requires '\r' !in line && '\n' !in line
    ensures SplitLines(line) == if line == "" then [] else [line]
    ensures SplitLines(line + "\n" + rest) == [line] + SplitLines(rest)
    ensures SplitLines(line + "\r\n" + rest) == [line] + SplitLines(rest)
    ensures !("\n" <= rest) ==> SplitLines(line + "\r" + rest) == [line] + SplitLines(rest)
  {
    forall c | c in line ensures !Eol(c) {}
    WholeLine(line);
    FirstLine(line, "\n", rest);
    FirstLine(line, "\r\n", rest);
    if !("\n" <= rest) { FirstLine(line, "\r", rest); }
  }

  lemma WholeLine(line: string)
    requires forall c <- line :: !Eol(c)
    ensures SplitLines(line) == if line == "" then [] else [line]
  {
  }

  lemma FirstLine(line: string, ending: string, rest: string)
    requires forall c <- line :: !Eol(c)
    requires ending in {"\n", "\r\n", "\r"} && (ending == "\r" ==> !("\n" <= rest))
    ensures SplitLines(line + ending + rest) == [line] + SplitLines(rest)
  {
    var text := line + ending + rest;
    assert text[|line|] == ending[0];
    assert forall k :: 0 <= k < |line| ==> text[k] == line[k];
    assert LineEnd(text) == |line|;
    assert AfterEnd(text, |line|) == |line| + |ending| by {
      if |line| + 1 < |text| { assert text[|line| + 1] == (ending + rest)[1]; }
    }
    assert text[..|line|] == line && text[|line| + |ending|..] == rest;
  }

  /** The receiver gets the same lines back exactly when the last one is not empty. */
  lemma LinesSurvive(buf: string)
    requires buf != ""
    ensures SplitLines(Body(buf)) == SplitLines(buf) <==> SplitLines(buf)[|SplitLines(buf)| - 1] != ""
  {
    SplitIsClean(buf);
    SplitJoined(SplitLines(buf));
  }

  /** Normalising once is enough, except that an empty last line after others is lost again. */
  lemma NormalisingTwice(buf: string)
    ensures var lines := SplitLines(buf);
      Body(Body(buf)) == Body(buf) <==> |lines| <= 1 || lines[|lines| - 1] != ""
  {
    SplitBody(buf);
    EmptyLastMatters(SplitLines(buf));
  }

  lemma SplitBody(buf: string)
    ensures CleanLines(SplitLines(buf))
    ensures SplitLines(Body(buf)) == WithoutEmptyLast(SplitLines(buf))
  {
    SplitIsClean(buf);
    SplitJoined(SplitLines(buf));
  }

  lemma EmptyLastMatters(lines: seq<string>)
    requires CleanLines(lines)
    ensures JoinCrlf(WithoutEmptyLast(lines)) == JoinCrlf(lines) <==> |lines| <= 1 || lines[|lines| - 1] != ""
  {
    if |lines| > 1 && lines[|lines| - 1] == "" { EmptyLastCounts(lines); }
  }

  lemma EmptyLastCounts(lines: seq<string>)
    requires CleanLines(lines) && |lines| > 1 && lines[|lines| - 1] == ""
    ensures |JoinCrlf(lines)| == |JoinCrlf(lines[..|lines| - 1])| + 2
  {
    var front := lines[..|lines| - 1];
    assert CleanLines(front);
    JoinIsCrlf(front);
    JoinIsCrlf(lines);
    TotalWithoutLast(lines);
  }

  lemma {:induction false} TotalWithoutLast(lines: seq<string>)
    requires lines != []
    ensures TotalLength(lines) == TotalLength(lines[..|lines| - 1]) + |lines[|lines| - 1]|
  {
    if |lines| > 1 {
      TotalWithoutLast(lines[1..]);
      assert lines[..|lines| - 1][1..] == lines[1..][..|lines| - 2];
    }
  }

  // ----- parts -----

  datatype Leaf = Bytes(data: string) | Text(text: string) | File(content: string)

  /** `Opened` is a callable giving a context with the content; `Unknown` is anything else. */
  datatype Content = Value(leaf: Leaf) | Opened(content: Content) | Items(items: seq<Content>) | Unknown

  datatype Part = Part(name: string, leaf: Leaf)

  /** `None` stands for the assertion error on unrecognised content. */
  function Payloads(name: string, c: Content): Option<seq<Part>>
    decreases c, 0
  {
    match c
    case Value(leaf) => Some([Part(name, leaf)])
    case Opened(inner) => Payloads(name, inner)
    case Items(items) => AllPayloads(name, items)
    case Unknown => None
  }

  function AllPayloads(name: string, items: seq<Content>): Option<seq<Part>>
    decreases items, |items|
  {
    if items == [] then Some([])
    else
      var front := AllPayloads(name, items[..|items| - 1]);
      var last := Payloads(name, items[|items| - 1]);
      if front.None? || last.None? then None else Some(front.value + last.value)
  }

  function Message(data: seq<(string, Content)>): Option<seq<Part>> {
    if data == [] then Some([])
    else
      var front := Message(data[..|data| - 1]);
      var last := Payloads(data[|data| - 1].0, data[|data| - 1].1);
      if front.None? || last.None? then None else Some(front.value + last.value)
  }

  /** What is found by following child positions from the root of a content. */
  ghost function Follow(c: Content, path: seq<nat>): Option<Content>
    decreases |path|
  {
    if path == [] then Some(c)
    else
      match c
      case Opened(inner) => if path[0] == 0 then Follow(inner, path[1..]) else None
      case Items(items) => if path[0] < |items| then Follow(items[path[0]], path[1..]) else None
      case _ => None
  }

  /** Document order of positions. */
  ghost predicate Before(p: seq<nat>, q: seq<nat>) {
    p != [] && q != [] && (p[0] < q[0] || (p[0] == q[0] && Before(p[1..], q[1..])))
  }

  /** The positions list every leaf of the content, once, in document order. */
  ghost predicate InOrder(c: Content, paths: seq<seq<nat>>) {
    && (forall i, j :: 0 <= i < j < |paths| ==> Before(paths[i], paths[j]))
    && (forall p :: p in paths <==> Follow(c, p).Some? && Follow(c, p).value.Value?)
  }

  ghost predicate Matches(name: string, c: Content, paths: seq<seq<nat>>, parts: seq<Part>) {
    && InOrder(c, paths)
    && |parts| == |paths|
    && forall i :: 0 <= i < |paths| ==> Follow(c, paths[i]) == Some(Value(parts[i].leaf)) && parts[i].name == name
  }

  ghost function Under(i: nat, paths: seq<seq<nat>>): (r: seq<seq<nat>>)
    ensures |r| == |paths| && forall k :: 0 <= k < |r| ==> r[k] == [i] + paths[k]
  {
    seq(|paths|, k requires 0 <= k < |paths| => [i] + paths[k])
  }

  lemma UnderMembers(i: nat, paths: seq<seq<nat>>)
    ensures forall p :: p in Under(i, paths) <==> p != [] && p[0] == i && p[1..] in paths
  {
    forall p | p != [] && p[0] == i && p[1..] in paths ensures p in Under(i, paths) {
      var k :| 0 <= k < |paths| && paths[k] == p[1..];
      assert Under(i, paths)[k] == p;
    }
  }

  lemma UnderOrdered(i: nat, paths: seq<seq<nat>>)
    requires forall a, b :: 0 <= a < b < |paths| ==> Before(paths[a], paths[b])
    ensures forall a, b :: 0 <= a < b < |paths| ==> Before(Under(i, paths)[a], Under(i, paths)[b])
  {
    forall a, b | 0 <= a < b < |paths| ensures Before(Under(i, paths)[a], Under(i, paths)[b]) {
      assert ([i] + paths[a])[1..] == paths[a] && ([i] + paths[b])[1..] == paths[b];
    }
  }

  /** The parts made from a content are its leaves in document order, each under its name. */
  lemma {:induction false} PayloadsAreLeaves(name: string, c: Content) returns (paths: seq<seq<nat>>)
    requires Payloads(name, c).Some?
    ensures Matches(name, c, paths, Payloads(name, c).value)
    decreases c, 0
  {
    match c
    case Value(leaf) =>
      paths := [[]];
      assert Follow(c, []) == Some(c);
    case Opened(inner) =>
      var below := PayloadsAreLeaves(name, inner);
      paths := Under(0, below);
      UnderMembers(0, below);
      UnderOrdered(0, below);
      OpenedMatches(name, inner, below, Payloads(name, inner).value);
    case Items(items) =>
      paths := ItemsAreLeaves(name, items);
  }

  lemma OpenedMatches(name: string, inner: Content, below: seq<seq<nat>>, parts: seq<Part>)
    requires Matches(name, inner, below, parts)
    ensures Matches(name, Opened(inner), Under(0, below), parts)
  {
    var c, paths := Opened(inner), Under(0, below);
    UnderMembers(0, below);
    UnderOrdered(0, below);
    forall i | 0 <= i < |paths| ensures Follow(c, paths[i]) == Some(Value(parts[i].leaf)) {
      assert paths[i][1..] == below[i];
    }
    forall p ensures p in paths <==> Follow(c, p).Some? && Follow(c, p).value.Value? {
      assert p != [] && p[0] == 0 ==>
          (p[1..] in below <==> Follow(inner, p[1..]).Some? && Follow(inner, p[1..]).value.Value?);
    }
  }

  lemma {:induction false} ItemsAreLeaves(name: string, items: seq<Content>) returns (paths: seq<seq<nat>>)
    requires AllPayloads(name, items).Some?
    ensures Matches(name, Items(items), paths, AllPayloads(name, items).value)
    decreases items, |items|
  {
    if items == [] {
      paths := [];
    } else {
      var n := |items| - 1;
      var front, last := items[..n], items[n];
      var before := ItemsAreLeaves(name, front);
      var below := PayloadsAreLeaves(name, last);
      paths := before + Under(n, below);
      ItemsMatch(name, items, before, below, AllPayloads(name, front).value, Payloads(name, last).value);
    }
  }

  lemma FollowFront(items: seq<Content>, p: seq<nat>)
    requires items != []
    ensures var n := |items| - 1;
      Follow(Items(items), p) == if p == [] then Some(Items(items))
                                 else if p[0] == n then Follow(items[n], p[1..])
                                 else Follow(Items(items[..n]), p)
  {
  }

  lemma ItemsMatch(name: string, items: seq<Content>, before: seq<seq<nat>>, below: seq<seq<nat>>,
                   a: seq<Part>, z: seq<Part>)
    requires items != []
    requires Matches(name, Items(items[..|items| - 1]), before, a) && Matches(name, items[|items| - 1], below, z)
    ensures Matches(name, Items(items), before + Under(|items| - 1, below), a + z)
  {
    ItemsInOrder(items, before, below);
    ItemsParts(name, items, before, below, a, z);
  }

  lemma BeforeIsFront(items: seq<Content>, before: seq<seq<nat>>)
    requires InOrder(Items(items), before)
    ensures forall p <- before :: p != [] && p[0] < |items|
  {
    forall p <- before ensures p != [] && p[0] < |items| {
      assert Follow(Items(items), p).Some? && Follow(Items(items), p).value.Value?;
    }
  }

  lemma ItemsInOrder(items: seq<Content>, before: seq<seq<nat>>, below: seq<seq<nat>>)
    requires items != []
    requires InOrder(Items(items[..|items| - 1]), before) && InOrder(items[|items| - 1], below)
    ensures InOrder(Items(items), before + Under(|items| - 1, below))
  {
    var n := |items| - 1;
    var c, under := Items(items), Under(n, below);
    var paths := before + under;
    UnderMembers(n, below);
    UnderOrdered(n, below);
    BeforeIsFront(items[..n], before);
    forall i, j | 0 <= i < j < |paths| ensures Before(paths[i], paths[j]) {
      if i < |before| <= j { assert paths[i] in before && paths[j] == under[j - |before|]; }
    }
    forall p ensures p in paths <==> Follow(c, p).Some? && Follow(c, p).value.Value? {
      FollowFront(items, p);
      assert p in paths <==> p in before || p in under;
      if p != [] && p[0] == n {
        assert p in under <==> p[1..] in below;
      }
    }
  }

  lemma ItemsParts(name: string, items: seq<Content>, before: seq<seq<nat>>, below: seq<seq<nat>>,
                   a: seq<Part>, z: seq<Part>)
    requires items != []
    requires Matches(name, Items(items[..|items| - 1]), before, a) && Matches(name, items[|items| - 1], below, z)
    ensures var paths := before + Under(|items| - 1, below);
      |a + z| == |paths|
      && forall i :: 0 <= i < |paths| ==>
           Follow(Items(items), paths[i]) == Some(Value((a + z)[i].leaf)) && (a + z)[i].name == name
  {
    var n := |items| - 1;
    var paths := before + Under(n, below);
    BeforeIsFront(items[..n], before);
    forall i | 0 <= i < |paths|
      ensures Follow(Items(items), paths[i]) == Some(Value((a + z)[i].leaf)) && (a + z)[i].name == name
    {
      FollowFront(items, paths[i]);
      if i < |before| {
        assert paths[i] == before[i] && before[i] in before;
      } else {
        assert paths[i][1..] == below[i - |before|];
      }
    }
  }

  ghost predicate UnknownAt(c: Content, p: seq<nat>) {
    Follow(c, p) == Some(Unknown)
  }

  /** Making the parts fails exactly when something unrecognised is nested anywhere. */
  lemma {:induction false} FailsOnUnknown(name: string, c: Content)
    ensures Payloads(name, c).None? <==> exists p :: UnknownAt(c, p)
    decreases c, 0
  {
    match c
    case Value(leaf) =>
      assert forall p :: !UnknownAt(c, p);
    case Unknown =>
      assert UnknownAt(c, []);
    case Opened(inner) =>
      FailsOnUnknown(name, inner);
      UnknownInOpened(inner);
    case Items(items) =>
      ItemsFail(name, items);
  }

  lemma UnknownInOpened(inner: Content)
    ensures (exists p :: UnknownAt(Opened(inner), p)) <==> (exists p :: UnknownAt(inner, p))
  {
    if p :| UnknownAt(inner, p) {
      assert ([0] + p)[1..] == p;
      assert UnknownAt(Opened(inner), [0] + p);
    }
    if p :| UnknownAt(Opened(inner), p) {
      assert UnknownAt(inner, p[1..]);
    }
  }

  lemma {:induction false} ItemsFail(name: string, items: seq<Content>)
    ensures AllPayloads(name, items).None? <==> exists p :: UnknownAt(Items(items), p)
    decreases items, |items|
  {
    if items != [] {
      var n := |items| - 1;
      ItemsFail(name, items[..n]);
      FailsOnUnknown(name, items[n]);
      UnknownInItems(items);
    } else {
      assert forall p :: !UnknownAt(Items([]), p);
    }
  }

  lemma UnknownInItems(items: seq<Content>)
    requires items != []
    ensures var n := |items| - 1;
      (exists p :: UnknownAt(Items(items), p)) <==>
      (exists p :: UnknownAt(Items(items[..n]), p)) || (exists p :: UnknownAt(items[n], p))
  {
    var n := |items| - 1;
    if p :| UnknownAt(Items(items[..n]), p) {
      FollowFront(items, p);
      assert UnknownAt(Items(items), p);
    }
    if p :| UnknownAt(items[n], p) {
      FollowFront(items, [n] + p);
      assert ([n] + p)[1..] == p;
      assert UnknownAt(Items(items), [n] + p);
    }
    if p :| UnknownAt(Items(items), p) {
      FollowFront(items, p);
      assert UnknownAt(items[n], p[1..]) || UnknownAt(Items(items[..n]), p);
    }
  }

  // ----- the whole message -----

  function Contents(data: seq<(string, Content)>): seq<Content> {
    seq(|data|, i requires 0 <= i < |data| => data[i].1)
  }

  /** The parts are the leaves of all entries, in the order of the entries and then in document
      order, each once and under the name of its entry: a position starts with the number of the
      entry and goes on inside its content. */
  ghost predicate IsMessage(data: seq<(string, Content)>, paths: seq<seq<nat>>, parts: seq<Part>) {
    && InOrder(Items(Contents(data)), paths)
    && |parts| == |paths|
    && forall i | 0 <= i < |paths| ::
         && paths[i] != [] && paths[i][0] < |data|
         && Follow(data[paths[i][0]].1, paths[i][1..]) == Some(Value(parts[i].leaf))
         && parts[i].name == data[paths[i][0]].0
  }

  lemma {:induction false} MessageIsLeaves(data: seq<(string, Content)>) returns (paths: seq<seq<nat>>)
    requires Message(data).Some?
    ensures IsMessage(data, paths, Message(data).value)
  {
    if data == [] {
      paths := [];
    } else {
      var n := |data| - 1;
      var before := MessageIsLeaves(data[..n]);
      var below := PayloadsAreLeaves(data[n].0, data[n].1);
      paths := before + Under(n, below);
      EntriesMatch(data, before, below, Message(data[..n]).value, Payloads(data[n].0, data[n].1).value);
    }
  }

  lemma EntriesMatch(data: seq<(string, Content)>, before: seq<seq<nat>>, below: seq<seq<nat>>,
                     a: seq<Part>, z: seq<Part>)
    requires data != [] && IsMessage(data[..|data| - 1], before, a)
    requires Matches(data[|data| - 1].0, data[|data| - 1].1, below, z)
    ensures IsMessage(data, before + Under(|data| - 1, below), a + z)
  {
    var n := |data| - 1;
    assert Contents(data)[..n] == Contents(data[..n]);
    ItemsInOrder(Contents(data), before, below);
    var paths := before + Under(n, below);
    forall i | 0 <= i < |paths|
      ensures paths[i] != [] && paths[i][0] < |data|
      ensures Follow(data[paths[i][0]].1, paths[i][1..]) == Some(Value((a + z)[i].leaf))
      ensures (a + z)[i].name == data[paths[i][0]].0
    {
      if i >= |before| { assert paths[i][1..] == below[i - |before|]; }
    }
  }

  /** Making the message fails exactly when something unrecognised is nested in some entry. */
  lemma {:induction false} MessageFailsOnUnknown(data: seq<(string, Content)>)
    ensures Message(data).None? <==> exists i, p :: 0 <= i < |data| && UnknownAt(data[i].1, p)
  {
    if data != [] {
      var n := |data| - 1;
      MessageFailsOnUnknown(data[..n]);
      FailsOnUnknown(data[n].0, data[n].1);
      if i, p :| 0 <= i < |data| && UnknownAt(data[i].1, p) {
        assert i < n ==> UnknownAt(data[..n][i].1, p);
      }
      if i, p :| 0 <= i < n && UnknownAt(data[..n][i].1, p) {
        assert UnknownAt(data[i].1, p);
      }
      if p :| UnknownAt(data[n].1, p) {}
    }
  }

  // ----- the code as written -----

  method MakePayloads(name: string, c: Content) returns (parts: Option<seq<Part>>)
    ensures parts == Payloads(name, c)
    decreases c
  {
    match c
    case Value(leaf) => parts := Some([Part(name, leaf)]);
    case Opened(inner) => parts := MakePayloads(name, inner);
    case Unknown => parts := None;
    case Items(items) =>
      parts := Some([]);
      for i := 0 to |items|
        invariant parts == AllPayloads(name, items[..i])
      {
        assert items[..i + 1][..i] == items[..i];
        if parts.Some? {
          var one := MakePayloads(name, items[i]);
          parts := if one.None? then None else Some(parts.value + one.value);
        }
      }
      assert items[..|items|] == items;
  }

  method BuildMultipartMessage(data: seq<(string, Content)>) returns (message: Option<seq<Part>>)
    ensures message == Message(data)
  {
    message := Some([]);
    for i := 0 to |data|
      invariant message == Message(data[..i])
    {
      assert data[..i + 1][..i] == data[..i];
      var (name, content) := data[i];
      var contents := if content.Items? then content.items else [content];
      var parts: Option<seq<Part>> := Some([]);
      for k := 0 to |contents|
        invariant parts == AllPayloads(name, contents[..k])
      {
        assert contents[..k + 1][..k] == contents[..k];
        var one := MakePayloads(name, contents[k]);
        parts := if parts.None? || one.None? then None else Some(parts.value + one.value);
      }
      assert contents[..|contents|] == contents;
      if !content.Items? {
        assert AllPayloads(name, []) == Some([]);
        assert [content][..0] == [];
        assert parts == Payloads(name, content) by {
          if Payloads(name, content).Some? {
            assert [] + Payloads(name, content).value == Payloads(name, content).value;
          }
        }
      }
      message := if message.None? || parts.None? then None else Some(message.value + parts.value);
    }
    assert data[..|data|] == data;
  }
}
