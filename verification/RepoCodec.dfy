/** Package repositories and packages travel as one string with three separators: the macro
    `serialize_repo_pkg` of mcp/scripts/xdf_data.sh.j2 writes it, `prepare_vms` and
    `__apt_repos_pkgs_image` of mcp/scripts/lib_jump_deploy.sh take it apart. */
module RepoCodec {
  import opened Common
  import opened BashText

  /** One section of the description: the common packages, or those of the control plane. */
  datatype Section = Section(keys: seq<string>, repos: seq<string>, install: seq<string>, remove: seq<string>)

  /** What is done to one image. */
  datatype Patch = Patch(keys: seq<string>, repos: seq<seq<string>>, install: seq<string>, remove: seq<string>)

  // ----- serialize_repo_pkg -----

  function SectionText(c: Section): string {
    Pack([Pack(c.keys, ','), Pack(c.repos, ','), Pack(c.install, ','), Pack(c.remove, ',')], '^')
  }

  function SectionTexts(sections: seq<Section>): seq<string> {
    seq(|sections|, i requires 0 <= i < |sections| => SectionText(sections[i]))
  }

  function Serialize(sections: seq<Section>): string {
    Pack(SectionTexts(sections), '^')
  }

  // ----- the decoders -----

  predicate Blank(c: char) {
    c == ' ' || c == '\t' || c == '\n'
  }

  /** Word splitting of an unquoted expansion. */
  function Words(text: string): seq<string> {
    WordsAfter("", text)
  }

  function WordsAfter(word: string, text: string): seq<string>
    decreases |text|
  {
    if text == "" then (if word == "" then [] else [word])
    else if Blank(text[0]) then (if word == "" then [] else [word]) + WordsAfter("", text[1..])
    else WordsAfter(word + [text[0]], text[1..])
  }

  function RepoWords(lines: seq<string>): seq<seq<string>> {
    seq(|lines|, i requires 0 <= i < |lines| => Words(Replaced(lines[i], '|', ' ')))
  }

  function ReadPatch(fields: seq<string>, from: nat): Patch {
    Patch(Words(Replaced(At(fields, from), ',', ' ')),
          RepoWords(Words(Replaced(At(fields, from + 1), ',', ' '))),
          Words(Replaced(At(fields, from + 2), ',', ' ')),
          Words(Replaced(At(fields, from + 3), ',', ' ')))
  }

  predicate AllCarets(text: string) {
    text != "" && forall c <- text :: c == '^'
  }

  predicate EndsWithThreeCarets(text: string) {
    |text| >= 3 && text[|text| - 3..] == "^^^"
  }

  /** `-n "${fields[*]:4}"`: the fields from the fifth on, with a blank between them. */
  predicate MoreThanFour(fields: seq<string>) {
    |fields| > 5 || (|fields| == 5 && fields[4] != "")
  }

  predicate PatchesBase(text: string) {
    !AllCarets(text)
  }

  predicate PatchesControl(text: string) {
    !EndsWithThreeCarets(text) && MoreThanFour(ReadArray(text, '^'))
  }

  // ----- what must arrive -----

  ghost predicate Token(s: string) {
    s != "" && ',' !in s && '^' !in s && forall c <- s :: !Blank(c)
  }

  ghost predicate Tokens(list: seq<string>) {
    forall s <- list :: Token(s)
  }

  /** A repository line is a blank-separated list of words without bars. */
  ghost predicate RepoLine(line: string, words: seq<string>) {
    && words != [] && line == Join(words, ' ')
    && Tokens(words) && Free(words, '|')
  }

  ghost predicate WellFormed(c: Section, repos: seq<seq<string>>) {
    && Tokens(c.keys) && Tokens(c.install) && Tokens(c.remove)
    && |repos| == |c.repos| && forall i | 0 <= i < |repos| :: RepoLine(c.repos[i], repos[i])
  }

  // ----- proofs -----

  function Mapped(list: seq<string>, from: char, to: char): seq<string> {
    seq(|list|, i requires 0 <= i < |list| => Replaced(list[i], from, to))
  }

  /** Replacing inside a joined list replaces inside its parts, and the separator if it is meant. */
  lemma {:induction false} ReplaceJoined(list: seq<string>, sep: char, from: char, to: char)
    ensures Replaced(Join(list, sep), from, to)
            == Join(Mapped(list, from, to), if sep == from then to else sep)
  {
    if |list| > 1 {
      ReplaceJoined(list[1..], sep, from, to);
      assert Mapped(list, from, to)[1..] == Mapped(list[1..], from, to);
      var s' := if sep == from then to else sep;
      assert Replaced(list[0] + [sep] + Join(list[1..], sep), from, to)
             == Replaced(list[0], from, to) + [s'] + Replaced(Join(list[1..], sep), from, to);
    }
  }

  lemma MappedUntouched(list: seq<string>, from: char, to: char)
    requires Free(list, from)
    ensures Mapped(list, from, to) == list
  {
    forall i | 0 <= i < |list| ensures Replaced(list[i], from, to) == list[i] {
      assert list[i] in list;
    }
  }

  lemma {:induction false} WordsOfToken(word: string, s: string, rest: string)
    requires forall c <- s :: !Blank(c)
    ensures WordsAfter(word, s + rest) == WordsAfter(word + s, rest)
    decreases |s|
  {
    if s == "" {
      assert s + rest == rest && word + s == word;
    } else {
      assert (s + rest)[1..] == s[1..] + rest;
      assert s[0] in s;
      WordsOfToken(word + [s[0]], s[1..], rest);
      assert word + [s[0]] + s[1..] == word + s;
    }
  }

  lemma {:induction false} WordsOfJoin(list: seq<string>)
    requires Tokens(list)
    ensures Words(Join(list, ' ')) == list
  {
    if |list| == 1 {
      assert list[0] in list;
      WordsOfToken("", list[0], "");
      assert list[0] + "" == list[0] && "" + list[0] == list[0];
    } else if |list| > 1 {
      var tail := Join(list[1..], ' ');
      assert list[0] in list;
      WordsOfToken("", list[0], [' '] + tail);
      assert list[0] + [' '] + tail == list[0] + ([' '] + tail) && "" + list[0] == list[0];
      assert ([' '] + tail)[1..] == tail;
      WordsOfJoin(list[1..]);
      assert list == [list[0]] + list[1..];
    }
  }

  lemma TokensFree(list: seq<string>)
    requires Tokens(list)
    ensures Free(list, ',') && Free(list, '^') && Free(list, ' ')
  {
    forall s <- list ensures ' ' !in s {
      assert Blank(' ');
    }
  }

  /** A list of tokens survives packing with commas and splitting at them. */
  lemma TokensArrive(list: seq<string>)
    requires Tokens(list)
    ensures Words(Replaced(Pack(list, ','), ',', ' ')) == list
    ensures '^' !in Pack(list, ',') && ' ' !in Pack(list, ',') && (Pack(list, ',') == "" <==> list == [])
  {
    TokensFree(list);
    PackWithoutBlanks(list, ',');
    ReplaceJoined(list, ',', ',', ' ');
    MappedUntouched(list, ',', ' ');
    WordsOfJoin(list);
    JoinFreeOf(list, ',', '^');
    JoinFreeOf(list, ',', ' ');
    assert list != [] ==> list[0] in list;
  }

  lemma RepoLineArrives(line: string, words: seq<string>)
    requires RepoLine(line, words)
    ensures Replaced(line, ' ', '|') == Join(words, '|') && Token(Join(words, '|'))
    ensures Words(Replaced(Join(words, '|'), '|', ' ')) == words
  {
    TokensFree(words);
    ReplaceJoined(words, ' ', ' ', '|');
    MappedUntouched(words, ' ', '|');
    ReplaceJoined(words, '|', '|', ' ');
    MappedUntouched(words, '|', ' ');
    WordsOfJoin(words);
    JoinFreeOf(words, '|', ',');
    JoinFreeOf(words, '|', '^');
    JoinFreeOf(words, '|', ' ');
    forall c: char | Blank(c) ensures c !in Join(words, '|') {
      assert Free(words, c);
      JoinFreeOf(words, '|', c);
    }
    assert words[0] in words;
  }

  lemma ReposArrive(lines: seq<string>, repos: seq<seq<string>>)
    requires |repos| == |lines| && forall i | 0 <= i < |repos| :: RepoLine(lines[i], repos[i])
    ensures RepoWords(Words(Replaced(Pack(lines, ','), ',', ' '))) == repos
    ensures '^' !in Pack(lines, ',') && ' ' !in Pack(lines, ',') && (Pack(lines, ',') == "" <==> lines == [])
  {
    var packed := Mapped(lines, ' ', '|');
    ReplaceJoined(lines, ',', ' ', '|');
    forall i | 0 <= i < |lines| ensures Token(packed[i]) && Words(Replaced(packed[i], '|', ' ')) == repos[i] {
      RepoLineArrives(lines[i], repos[i]);
    }
    TokensFree(packed);
    PackWithoutBlanks(packed, ',');
    TokensArrive(packed);
  }

  ghost function Fields(c: Section): seq<string> {
    [Pack(c.keys, ','), Pack(c.repos, ','), Pack(c.install, ','), Pack(c.remove, ',')]
  }

  lemma SectionFields(c: Section, repos: seq<seq<string>>)
    requires WellFormed(c, repos)
    ensures Free(Fields(c), '^') && Free(Fields(c), ' ')
    ensures SectionText(c) == Join(Fields(c), '^')
    ensures Fields(c)[0] == "" <==> c.keys == []
    ensures Fields(c)[1] == "" <==> c.repos == []
    ensures Fields(c)[2] == "" <==> c.install == []
    ensures Fields(c)[3] == "" <==> c.remove == []
  {
    TokensArrive(c.keys);
    ReposArrive(c.repos, repos);
    TokensArrive(c.install);
    TokensArrive(c.remove);
    PackWithoutBlanks(Fields(c), '^');
  }

  lemma PatchArrives(c: Section, repos: seq<seq<string>>, fields: seq<string>, from: nat)
    requires WellFormed(c, repos)
    requires forall k | 0 <= k < 4 :: At(fields, from + k) == Fields(c)[k]
    ensures ReadPatch(fields, from) == Patch(c.keys, repos, c.install, c.remove)
  {
    TokensArrive(c.keys);
    ReposArrive(c.repos, repos);
    TokensArrive(c.install);
    TokensArrive(c.remove);
    assert At(fields, from + 0) == Fields(c)[0] && At(fields, from + 1) == Fields(c)[1];
    assert At(fields, from + 2) == Fields(c)[2] && At(fields, from + 3) == Fields(c)[3];
  }

  ghost function AllFields(sections: seq<Section>): seq<string> {
    if sections == [] then [] else Fields(sections[0]) + AllFields(sections[1..])
  }

  ghost predicate AllWellFormed(sections: seq<Section>, repos: seq<seq<seq<string>>>) {
    |sections| == |repos| && forall i | 0 <= i < |sections| :: WellFormed(sections[i], repos[i])
  }

  /** The sections follow each other field by field on the wire. */
  lemma {:induction false} WireFields(sections: seq<Section>, repos: seq<seq<seq<string>>>)
    requires AllWellFormed(sections, repos) && sections != []
    ensures Join(SectionTexts(sections), '^') == Join(AllFields(sections), '^')
    ensures Free(AllFields(sections), '^') && Free(AllFields(sections), ' ')
    ensures |AllFields(sections)| == 4 * |sections|
  {
    var c, rest := sections[0], sections[1..];
    SectionFields(c, repos[0]);
    assert SectionTexts(sections) == [SectionText(c)] + SectionTexts(rest);
    if rest == [] {
      assert AllFields(sections) == Fields(c);
    } else {
      WireFields(rest, repos[1..]);
      JoinFirst(Fields(c), SectionTexts(rest), '^');
      JoinLast(Fields(c), AllFields(rest), '^');
      JoinLast(Fields(c), SectionTexts(rest), '^');
    }
  }

  lemma Wire(sections: seq<Section>, repos: seq<seq<seq<string>>>)
    requires AllWellFormed(sections, repos) && sections != []
    ensures Serialize(sections) == Join(AllFields(sections), '^')
    ensures ReadArray(Serialize(sections), '^') == Trimmed(AllFields(sections))
  {
    WireFields(sections, repos);
    forall t <- SectionTexts(sections) ensures ' ' !in t {
      var i :| 0 <= i < |sections| && SectionTexts(sections)[i] == t;
      SectionFields(sections[i], repos[i]);
      JoinFreeOf(Fields(sections[i]), '^', ' ');
    }
    PackWithoutBlanks(SectionTexts(sections), '^');
    ReadJoin(AllFields(sections), '^');
  }

  /** Both images get back exactly what was described for them, including empty lists and the
      empty field that the shell drops at the end. */
  lemma RoundTrip(sections: seq<Section>, repos: seq<seq<seq<string>>>)
    requires AllWellFormed(sections, repos) && 1 <= |sections| <= 2
    ensures var fields := ReadArray(Serialize(sections), '^');
      && ReadPatch(fields, 0) == Patch(sections[0].keys, repos[0], sections[0].install, sections[0].remove)
      && (|sections| == 2 ==>
            ReadPatch(fields, 4) == Patch(sections[1].keys, repos[1], sections[1].install, sections[1].remove))
  {
    Wire(sections, repos);
    var all := AllFields(sections);
    var fields := Trimmed(all);
    WireFields(sections, repos);
    assert forall k: nat :: At(fields, k) == At(all, k);
    assert all == Fields(sections[0]) + AllFields(sections[1..]);
    forall k | 0 <= k < 4 ensures At(fields, 0 + k) == Fields(sections[0])[k] {}
    PatchArrives(sections[0], repos[0], fields, 0);
    if |sections| == 2 {
      assert sections[1..][1..] == [];
      assert AllFields(sections[1..]) == Fields(sections[1]);
      forall k | 0 <= k < 4 ensures At(fields, 4 + k) == Fields(sections[1])[k] {}
      PatchArrives(sections[1], repos[1], fields, 4);
    }
  }

  lemma {:induction false} JoinSnoc(list: seq<string>, x: string, sep: char)
    requires list != []
    ensures Join(list + [x], sep) == Join(list, sep) + [sep] + x
  {
    if |list| > 1 {
      JoinSnoc(list[1..], x, sep);
      assert (list + [x])[1..] == list[1..] + [x];
      var tail := Join(list[1..], sep);
      assert list[0] + [sep] + (tail + [sep] + x) == (list[0] + [sep] + tail) + [sep] + x;
    } else {
      assert (list + [x])[1..] == [x];
    }
  }

  ghost predicate Carets(text: string) {
    forall c <- text :: c == '^'
  }

  ghost predicate NoText(list: seq<string>) {
    forall s <- list :: s == ""
  }

  lemma CaretsConcat(a: string, b: string)
    ensures Carets(a + b) <==> Carets(a) && Carets(b)
  {
    if Carets(a + b) {
      forall c <- a ensures c == '^' { assert c in a + b; }
      forall c <- b ensures c == '^' { assert c in a + b; }
    }
  }

  lemma NoTextConcat(a: seq<string>, b: seq<string>)
    ensures NoText(a + b) <==> NoText(a) && NoText(b)
  {
    if NoText(a + b) {
      forall s <- a ensures s == "" { assert s in a + b; }
      forall s <- b ensures s == "" { assert s in a + b; }
    }
  }

  lemma {:induction false} CaretsOnly(list: seq<string>)
    requires Free(list, '^')
    ensures Carets(Join(list, '^')) <==> NoText(list)
  {
    if list != [] {
      var f := list[0];
      assert f in list && (f != "" ==> f[0] in f);
      assert Carets(f) <==> f == "";
      assert list == [f] + list[1..];
      NoTextConcat([f], list[1..]);
      assert NoText([f]) <==> f == "" by { assert f in [f]; }
      if |list| > 1 {
        CaretsOnly(list[1..]);
        CaretsConcat(f + ['^'], Join(list[1..], '^'));
        CaretsConcat(f, ['^']);
      } else {
        assert list[1..] == [];
      }
    }
  }

  ghost predicate Empty(c: Section) {
    c.keys == [] && c.repos == [] && c.install == [] && c.remove == []
  }

  lemma EmptyFields(c: Section, repos: seq<seq<string>>)
    requires WellFormed(c, repos)
    ensures NoText(Fields(c)) <==> Empty(c)
  {
    SectionFields(c, repos);
    var f := Fields(c);
    assert f[0] in f && f[1] in f && f[2] in f && f[3] in f;
  }

  lemma {:induction false} EmptySections(sections: seq<Section>, repos: seq<seq<seq<string>>>)
    requires AllWellFormed(sections, repos)
    ensures NoText(AllFields(sections)) <==> forall c <- sections :: Empty(c)
  {
    if sections != [] {
      assert sections == [sections[0]] + sections[1..];
      EmptyFields(sections[0], repos[0]);
      EmptySections(sections[1..], repos[1..]);
      NoTextConcat(Fields(sections[0]), AllFields(sections[1..]));
    }
  }

  /** Words end at a blank, a tab or a line break, and are never empty. */
  lemma WordsExactly(word: string, c: char, rest: string)
    requires ' ' !in word && '\t' !in word && '\n' !in word && c in {' ', '\t', '\n'}
    ensures Words([c] + rest) == Words(rest)
    ensures Words(word) == if word == "" then [] else [word]
    ensures word != "" ==> Words(word + [c] + rest) == [word] + Words(rest)
  {
    assert ([c] + rest)[1..] == rest && [] + Words(rest) == Words(rest);
    WordTaken("", word);
    assert "" + word == word;
    if word != "" { WordEnds("", word, c, rest); }
  }

  lemma {:induction false} WordTaken(sofar: string, word: string)
    requires forall x <- word :: !Blank(x)
    ensures WordsAfter(sofar, word) == if sofar + word == "" then [] else [sofar + word]
    decreases |word|
  {
    if word != "" {
      WordTaken(sofar + [word[0]], word[1..]);
      assert sofar + [word[0]] + word[1..] == sofar + word;
    } else {
      assert sofar + word == sofar;
    }
  }

  lemma {:induction false} WordEnds(sofar: string, word: string, c: char, rest: string)
    requires sofar + word != "" && Blank(c) && forall x <- word :: !Blank(x)
    ensures WordsAfter(sofar, word + [c] + rest) == [sofar + word] + Words(rest)
    decreases |word|
  {
    var text := word + [c] + rest;
    if word == "" {
      assert text == [c] + rest && text[1..] == rest && sofar + word == sofar;
    } else {
      assert text[0] == word[0] && text[1..] == word[1..] + [c] + rest;
      WordEnds(sofar + [word[0]], word[1..], c, rest);
      assert sofar + [word[0]] + word[1..] == sofar + word;
    }
  }

  /** The base image is left alone only when the text is carets and nothing else, at least one; the
      second section counts when its fields, put together, are not empty. */
  lemma DecisionsExactly(text: string, fields: seq<string>)
    ensures PatchesBase(text) <==> text == "" || exists i :: 0 <= i < |text| && text[i] != '^'
    ensures MoreThanFour(fields) <==> |fields| > 4 && Join(fields[4..], ' ') != ""
    ensures EndsWithThreeCarets(text) <==> exists front: string :: text == front + "^^^"
  {
    if |fields| > 5 { assert |Join(fields[4..], ' ')| >= 1; }
    if |fields| == 5 { assert fields[4..] == [fields[4]]; }
    if EndsWithThreeCarets(text) { assert text == text[..|text| - 3] + "^^^"; }
    if front: string :| text == front + "^^^" { assert text[|text| - 3..] == "^^^"; }
    if !AllCarets(text) && text != "" {
      var c :| c in text && c != '^';
      var i :| 0 <= i < |text| && text[i] == c;
    }
    if i :| 0 <= i < |text| && text[i] != '^' { assert text[i] in text; }
  }

  /** The base image is patched exactly when some section asks for something. */
  lemma BaseDecision(sections: seq<Section>, repos: seq<seq<seq<string>>>)
    requires AllWellFormed(sections, repos) && sections != []
    ensures PatchesBase(Serialize(sections)) <==> exists c <- sections :: !Empty(c)
  {
    Wire(sections, repos);
    WireFields(sections, repos);
    CaretsOnly(AllFields(sections));
    EmptySections(sections, repos);
    SeveralAreText(AllFields(sections), '^');
  }

  lemma SeveralAreText(list: seq<string>, sep: char)
    requires |list| > 1
    ensures Join(list, sep) != ""
  {
  }

  lemma ThreeCarets(p: string, r: string, i: string, m: string)
    requires '^' !in r && '^' !in i && '^' !in m
    ensures EndsWithThreeCarets(p + ['^'] + r + ['^'] + i + ['^'] + m) <==> r == "" && i == "" && m == ""
  {
    var text := p + ['^'] + r + ['^'] + i + ['^'] + m;
    var n := |text|;
    if m != "" {
      assert text[n - 1] == m[|m| - 1] && m[|m| - 1] in m;
    } else if i != "" {
      assert text[n - 2] == i[|i| - 1] && i[|i| - 1] in i;
    } else if r != "" {
      assert text[n - 3] == r[|r| - 1] && r[|r| - 1] in r;
    } else {
      assert text[n - 3] == '^' && text[n - 2] == '^' && text[n - 1] == '^';
    }
  }

  /** The control plane image is patched exactly when there is a second section with more than
      keys: keys alone read as nothing to do. */
  lemma ControlDecision(sections: seq<Section>, repos: seq<seq<seq<string>>>)
    requires AllWellFormed(sections, repos) && 1 <= |sections| <= 2
    ensures PatchesControl(Serialize(sections)) <==>
            |sections| == 2 && !(sections[1].repos == [] && sections[1].install == [] && sections[1].remove == [])
  {
    Wire(sections, repos);
    WireFields(sections, repos);
    var all := AllFields(sections);
    var text := Serialize(sections);
    if |sections| == 2 {
      assert sections[1..][1..] == [];
      assert AllFields(sections[1..]) == Fields(sections[1]);
      SectionFields(sections[1], repos[1]);
      var r, i, m := Fields(sections[1])[1], Fields(sections[1])[2], Fields(sections[1])[3];
      var head := all[..5];
      assert all == ((head + [r]) + [i]) + [m];
      JoinSnoc(head, r, '^');
      JoinSnoc(head + [r], i, '^');
      JoinSnoc((head + [r]) + [i], m, '^');
      assert all[5] in all && all[6] in all && all[7] in all;
      ThreeCarets(Join(head, '^'), r, i, m);
      assert |Trimmed(all)| >= 7;
    } else {
      assert |Trimmed(all)| <= 4;
    }
  }

  // ----- the code as written -----

  method AptReposPkgs(fields: seq<string>, from: nat) returns (patch: Patch)
    ensures patch == ReadPatch(fields, from)
  {
    var aptKeyUrls := Words(Replaced(At(fields, from), ',', ' '));
    var allRepos := Words(Replaced(At(fields, from + 1), ',', ' '));
    var pkgsInstall := Words(Replaced(At(fields, from + 2), ',', ' '));
    var pkgsRemove := Words(Replaced(At(fields, from + 3), ',', ' '));
    var repos: seq<seq<string>> := [];
    for i := 0 to |allRepos|
      invariant repos == RepoWords(allRepos)[..i]
    {
      repos := repos + [Words(Replaced(allRepos[i], '|', ' '))];
    }
    patch := Patch(aptKeyUrls, repos, pkgsInstall, pkgsRemove);
  }

  /** Which images are patched, and with what. */
  method PrepareVms(text: string) returns (base: Option<Patch>, control: Option<Patch>)
    ensures base == if PatchesBase(text) then Some(ReadPatch(ReadArray(text, '^'), 0)) else None
    ensures control == if PatchesControl(text) then Some(ReadPatch(ReadArray(text, '^'), 4)) else None
  {
    var reposPkgs := ReadArray(text, '^');
    base, control := None, None;
    if !AllCarets(text) {
      var patch := AptReposPkgs(reposPkgs, 0);
      base := Some(patch);
    }
    if !EndsWithThreeCarets(text) && MoreThanFour(reposPkgs) {
      var patch := AptReposPkgs(reposPkgs, 4);
      control := Some(patch);
    }
  }

  method SerializeRepoPkg(sections: seq<Section>) returns (text: string)
    ensures text == Serialize(sections)
  {
    var arr: seq<string> := [];
    for i := 0 to |sections|
      invariant arr == SectionTexts(sections)[..i]
    {
      var c := sections[i];
      arr := arr + [Pack([Pack(c.keys, ','), Pack(c.repos, ','), Pack(c.install, ','), Pack(c.remove, ',')], '^')];
    }
    assert SectionTexts(sections)[..|sections|] == SectionTexts(sections);
    text := Pack(arr, '^');
  }
}
