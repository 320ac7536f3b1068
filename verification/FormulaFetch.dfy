/** The recursive fetch of docker/files/scripts/formula-fetch.sh: a formula is cloned, linked into
    the environment, and then its dependencies are fetched in a subshell. What the subshell adds
    to `FETCHED` is lost; the links are not. */
module FormulaFetch {
  import opened Common
  import opened BashText

  /** Formulas that can be fetched and are recognised as such, and the dependencies they list. */
  datatype Sources = Sources(available: set<string>, metadata: map<string, seq<string>>)

  function Deps(w: Sources, name: string): seq<string> {
    if name in w.metadata then w.metadata[name] else []
  }

  predicate Inside(name: string, text: string) {
    exists i :: 0 <= i <= |text| && name <= text[i..]
  }

  /** `[[ "${FETCHED[*]}" =~ $name ]]`, for a name without special characters. */
  predicate Matches(fetched: seq<string>, name: string) {
    Inside(name, Join(fetched, ' '))
  }

  function ToLink(w: Sources, links: seq<string>): set<string> {
    w.available - set n | n in links
  }

  datatype Shell = Shell(links: seq<string>, fetched: seq<string>)

  function Fetch(w: Sources, links: seq<string>, fetched: seq<string>, name: string): (r: Shell)
    ensures links <= r.links
    decreases ToLink(w, links), 0
  {
    if Matches(fetched, name) || name !in w.available || name in links then Shell(links, fetched)
    else
      var links1, fetched1 := links + [name], fetched + [name];
      assert name in ToLink(w, links) && name !in ToLink(w, links1);
      Shell(FetchDeps(w, links1, fetched1, Deps(w, name)), fetched1)
  }

  function FetchDeps(w: Sources, links: seq<string>, fetched: seq<string>, deps: seq<string>): (r: seq<string>)
    ensures links <= r
    decreases ToLink(w, links), |deps| + 1
  {
    if deps == [] then links
    else
      var first := Fetch(w, links, fetched, deps[0]);
      assert forall n :: n in links ==> n in first.links;
      FetchDeps(w, first.links, first.fetched, deps[1..])
  }

  // ----- reachability -----

  /** The formula lists the other one among its dependencies. */
  ghost predicate Lists(w: Sources, name: string, dep: string) {
    name in w.metadata && dep in w.metadata[name]
  }

  ghost predicate Path(w: Sources, barred: seq<string>, p: seq<string>) {
    && p != []
    && (forall n <- p :: n in w.available && n !in barred)
    && forall i :: 0 <= i < |p| - 1 ==> Lists(w, p[i], p[i + 1])
  }

  /** A chain of dependencies through available formulas that are not linked yet. */
  ghost predicate Reaches(w: Sources, barred: seq<string>, from: string, to: string) {
    exists p :: Path(w, barred, p) && p[0] == from && p[|p| - 1] == to
  }

  /** No name is contained in another one, and none contains a blank. */
  ghost predicate Unambiguous(names: set<string>) {
    && (forall a <- names :: ' ' !in a && a != "")
    && (forall a <- names, b <- names :: Inside(a, b) ==> a == b)
  }

  /** The formulas a fetch can get to. */
  ghost function Reachable(w: Sources, links: seq<string>, start: string): set<string> {
    set x | x in w.available && Reaches(w, links, start, x)
  }

  /** A dependency that can be linked. */
  ghost predicate Open(w: Sources, links: seq<string>, d: string) {
    d in w.available && d !in links
  }

  /** Names that can be told apart, and that dependencies to be linked do not lead out of. */
  ghost predicate Region(w: Sources, links: seq<string>, names: set<string>) {
    && Unambiguous(names)
    && forall n <- names, d <- Deps(w, n) | Open(w, links, d) :: d in names
  }

  ghost predicate Linked(fetched: seq<string>, links: seq<string>, names: set<string>) {
    forall f <- fetched :: f in links && f in names
  }

  lemma {:induction false} InsideJoin(list: seq<string>, name: string)
    requires ' ' !in name && name != ""
    ensures Inside(name, Join(list, ' ')) <==> exists f <- list :: Inside(name, f)
  {
    var text := Join(list, ' ');
    if |list| > 1 {
      var f, rest := list[0], Join(list[1..], ' ');
      InsideJoin(list[1..], name);
      assert list == [f] + list[1..] && text == f + [' '] + rest;
      if i :| 0 <= i <= |text| && name <= text[i..] {
        OccurrenceAvoidsBlank(name, f, rest, i);
      }
      if Inside(name, f) { InsideLeft(name, f, [' '] + rest); assert f + ([' '] + rest) == text; }
      if Inside(name, rest) { InsideRight(name, f + [' '], rest); }
    } else if |list| == 1 {
      assert list[0] in list;
    }
  }

  /** A name is inside a text that consists of it and what is around it. */
  lemma InsideExactly(name: string, text: string)
    ensures Inside(name, text) <==> exists before: string, after: string :: text == before + name + after
  {
    if i :| 0 <= i <= |text| && name <= text[i..] {
      assert text == text[..i] + name + text[i + |name|..];
    }
    if before: string, after: string :| text == before + name + after {
      assert text[|before|..] == name + after;
    }
  }

  lemma OccurrenceAvoidsBlank(name: string, f: string, rest: string, i: nat)
    requires ' ' !in name && name != ""
    requires i <= |f + [' '] + rest| && name <= (f + [' '] + rest)[i..]
    ensures Inside(name, f) || Inside(name, rest)
  {
    var text := f + [' '] + rest;
    assert forall k :: 0 <= k < |name| ==> name[k] == text[i..][k] == text[i + k];
    forall q | i <= q < i + |name| ensures text[q] != ' ' {
      assert text[q] == name[q - i];
    }
    assert text[|f|] == ' ';
    if i + |name| <= |f| {
      assert forall k :: 0 <= k < |name| ==> f[i..][k] == name[k];
      assert name == f[i..][..|name|];
    } else {
      assert text[i..] == rest[i - |f| - 1..];
    }
  }

  lemma InsideLeft(name: string, a: string, b: string)
    requires Inside(name, a)
    ensures Inside(name, a + b)
  {
    var i :| 0 <= i <= |a| && name <= a[i..];
    assert (a + b)[i..] == a[i..] + b;
  }

  lemma InsideRight(name: string, a: string, b: string)
    requires Inside(name, b)
    ensures Inside(name, a + b)
  {
    var i :| 0 <= i <= |b| && name <= b[i..];
    assert (a + b)[|a| + i..] == b[i..];
  }

  /** With unambiguous names the regular expression recognises exactly the names fetched. */
  lemma MatchesIsMembership(fetched: seq<string>, name: string, names: set<string>)
    requires Unambiguous(names) && name in names && forall f <- fetched :: f in names
    ensures Matches(fetched, name) <==> name in fetched
  {
    InsideJoin(fetched, name);
    assert name <= name[0..];
  }

  // ----- what a fetch does -----

  ghost predicate Sound(w: Sources, links: seq<string>, from: string, r: seq<string>) {
    forall x <- r :: x !in links ==> Reaches(w, links, from, x)
  }

  ghost predicate Closed(w: Sources, links: seq<string>, r: seq<string>) {
    forall x <- r, d | x !in links && d in Deps(w, x) && d in w.available :: d in r
  }

  lemma ReachesThrough(w: Sources, links: seq<string>, name: string, d: string, x: string)
    requires name in w.available && name !in links && d in Deps(w, name) && Reaches(w, links + [name], d, x)
    ensures Reaches(w, links, name, x)
  {
    var p :| Path(w, links + [name], p) && p[0] == d && p[|p| - 1] == x;
    var q := [name] + p;
    forall n <- q ensures n in w.available && n !in links {
      assert n == name || n in p;
    }
    forall i | 0 <= i < |q| - 1 ensures q[i + 1] in Deps(w, q[i]) {
      if i > 0 { assert p[i - 1 + 1] in Deps(w, p[i - 1]); }
    }
    assert Path(w, links, q);
  }

  lemma ReachesDespiteFewer(w: Sources, links: seq<string>, more: seq<string>, d: string, x: string)
    requires links <= more && Reaches(w, more, d, x)
    ensures Reaches(w, links, d, x)
  {
    var p :| Path(w, more, p) && p[0] == d && p[|p| - 1] == x;
    forall n <- p ensures n !in links {
      assert n in links ==> n in more;
    }
    assert Path(w, links, p);
  }

  lemma {:induction false} FetchLinks(
    w: Sources, links: seq<string>, fetched: seq<string>, name: string, names: set<string>)
    requires Region(w, links, names) && Linked(fetched, links, names) && Distinct(links)
    requires Open(w, links, name) ==> name in names
    ensures var r := Fetch(w, links, fetched, name);
      && Linked(r.fetched, r.links, names) && Distinct(r.links)
      && Sound(w, links, name, r.links) && Closed(w, links, r.links)
      && (name in w.available ==> name in r.links)
    decreases ToLink(w, links), 0
  {
    if Open(w, links, name) {
      MatchesIsMembership(fetched, name, names);
      var links1, fetched1 := links + [name], fetched + [name];
      assert name in ToLink(w, links) && name !in ToLink(w, links1);
      RegionKept(w, links, links1, names);
      FetchDepsLinks(w, links1, fetched1, Deps(w, name), names);
      AfterLinking(w, links, name, FetchDeps(w, links1, fetched1, Deps(w, name)));
    }
  }

  lemma RegionKept(w: Sources, links: seq<string>, more: seq<string>, names: set<string>)
    requires Region(w, links, names) && forall n <- links :: n in more
    ensures Region(w, more, names)
  {
  }

  lemma AfterLinking(w: Sources, links: seq<string>, name: string, r: seq<string>)
    requires Open(w, links, name) && links + [name] <= r
    requires SoundFor(w, links + [name], Deps(w, name), r) && Closed(w, links + [name], r)
    requires forall d <- Deps(w, name) :: d in w.available ==> d in r
    ensures Sound(w, links, name, r) && Closed(w, links, r) && name in r
  {
    var links1 := links + [name];
    assert r[|links|] == name;
    forall x <- r | x !in links ensures Reaches(w, links, name, x) {
      if x == name {
        assert Path(w, links, [name]);
      } else {
        assert x !in links1;
        var d :| d in Deps(w, name) && Reaches(w, links1, d, x);
        ReachesThrough(w, links, name, d, x);
      }
    }
    forall x <- r, d | x !in links && d in Deps(w, x) && d in w.available ensures d in r {
      if x != name { assert x !in links1; }
    }
  }

  /** What was linked is reachable from one of the dependencies. */
  ghost predicate SoundFor(w: Sources, links: seq<string>, deps: seq<string>, r: seq<string>) {
    forall x <- r :: x !in links ==> exists d <- deps :: Reaches(w, links, d, x)
  }

  lemma {:induction false} FetchDepsLinks(
    w: Sources, links: seq<string>, fetched: seq<string>, deps: seq<string>, names: set<string>)
    requires Region(w, links, names) && Linked(fetched, links, names) && Distinct(links)
    requires forall d <- deps :: Open(w, links, d) ==> d in names
    ensures var r := FetchDeps(w, links, fetched, deps);
      && Distinct(r)
      && SoundFor(w, links, deps, r)
      && Closed(w, links, r)
      && forall d <- deps :: d in w.available ==> d in r
    decreases ToLink(w, links), |deps| + 1
  {
    if deps != [] {
      assert deps == [deps[0]] + deps[1..];
      FetchLinks(w, links, fetched, deps[0], names);
      var first := Fetch(w, links, fetched, deps[0]);
      assert forall n :: n in links ==> n in first.links;
      RegionKept(w, links, first.links, names);
      FetchDepsLinks(w, first.links, first.fetched, deps[1..], names);
      var r := FetchDeps(w, first.links, first.fetched, deps[1..]);
      assert forall n :: n in first.links ==> n in r;
      SoundTogether(w, links, first.links, r, deps);
      ClosedTogether(w, links, first.links, r);
    }
  }

  lemma SoundTogether(w: Sources, links: seq<string>, middle: seq<string>, r: seq<string>, deps: seq<string>)
    requires deps != [] && links <= middle && Sound(w, links, deps[0], middle)
    requires SoundFor(w, middle, deps[1..], r)
    ensures SoundFor(w, links, deps, r)
  {
    forall x <- r | x !in links ensures exists d <- deps :: Reaches(w, links, d, x) {
      if x in middle {
        assert Reaches(w, links, deps[0], x) && deps[0] in deps;
      } else {
        var d :| d in deps[1..] && Reaches(w, middle, d, x);
        ReachesDespiteFewer(w, links, middle, d, x);
        assert d in deps;
      }
    }
  }

  lemma ClosedTogether(w: Sources, links: seq<string>, middle: seq<string>, r: seq<string>)
    requires Closed(w, links, middle) && Closed(w, middle, r) && forall n <- middle :: n in r
    ensures Closed(w, links, r)
  {
    forall x <- r, d | x !in links && d in Deps(w, x) && d in w.available ensures d in r {
      if x in middle { assert d in middle; }
    }
  }

  lemma {:induction false} PathIsLinked(w: Sources, links: seq<string>, r: seq<string>, p: seq<string>)
    requires Path(w, links, p) && Closed(w, links, r) && p[0] in r
    ensures p[|p| - 1] in r
    decreases |p|
  {
    if |p| > 1 {
      assert p[1] in p && p[0] in p;
      assert p[1] in Deps(w, p[0]);
      assert Path(w, links, p[1..]);
      PathIsLinked(w, links, r, p[1..]);
    }
  }

  lemma ReachesFurther(w: Sources, links: seq<string>, from: string, n: string, d: string)
    requires Reaches(w, links, from, n) && d in Deps(w, n) && Open(w, links, d)
    ensures Reaches(w, links, from, d)
  {
    var p :| Path(w, links, p) && p[0] == from && p[|p| - 1] == n;
    var q := p + [d];
    forall i | 0 <= i < |q| - 1 ensures q[i + 1] in Deps(w, q[i]) {
      if i < |p| - 1 { assert p[i + 1] in Deps(w, p[i]); }
    }
    assert Path(w, links, q);
  }

  lemma ReachableIsRegion(w: Sources, links: seq<string>, start: string)
    requires Unambiguous(Reachable(w, links, start))
    ensures Region(w, links, Reachable(w, links, start))
    ensures Open(w, links, start) ==> start in Reachable(w, links, start)
  {
    var names := Reachable(w, links, start);
    forall n <- names, d <- Deps(w, n) | Open(w, links, d) ensures d in names {
      ReachesFurther(w, links, start, n, d);
    }
    if Open(w, links, start) { assert Path(w, links, [start]); }
  }

  /** Fetching a formula links, once each, exactly the formulas it depends on through available
      ones not linked before, itself included, whatever cycles the dependencies contain; the names
      of those formulas, and of no others, have to be such that none contains another. */
  lemma FetchIsReachability(w: Sources, links: seq<string>, start: string)
    requires Unambiguous(Reachable(w, links, start)) && Distinct(links)
    ensures var r := Fetch(w, links, [], start).links;
      && links <= r && Distinct(r)
      && forall x :: x in r && x !in links <==> Reaches(w, links, start, x)
  {
    ReachableIsRegion(w, links, start);
    FetchLinks(w, links, [], start, Reachable(w, links, start));
    var r := Fetch(w, links, [], start).links;
    forall x | Reaches(w, links, start, x) ensures x in r && x !in links {
      var p :| Path(w, links, p) && p[0] == start && p[|p| - 1] == x;
      assert p[0] in p && p[|p| - 1] in p;
      PathIsLinked(w, links, r, p);
    }
  }

  /** The shortest failure: a formula that lists one whose name is contained in its own. */
  lemma ContainedDependencyIsSkipped(longer: string, shorter: string)
    requires longer != shorter && longer != "" && Inside(shorter, longer)
    ensures var w := Sources({longer, shorter}, map[longer := [shorter]]);
      Fetch(w, [], [], longer).links == [longer] && Reaches(w, [], longer, shorter)
  {
    var w := Sources({longer, shorter}, map[longer := [shorter]]);
    var one := [longer];
    assert Join([], ' ') == "" && Join(one, ' ') == longer;
    assert !Matches([], longer) && Matches(one, shorter);
    assert Deps(w, longer) == [shorter] && [] + [longer] == one;
    assert FetchDeps(w, one, one, [shorter]) == one by {
      assert [shorter][1..] == [] && FetchDeps(w, one, one, []) == one;
    }
    assert Path(w, [], [longer, shorter]) by { assert [shorter][0] in Deps(w, longer); }
  }

  /** A fetch into an empty environment links exactly what can be reached. */
  ghost predicate FetchesReachable(w: Sources, start: string) {
    forall x :: x in Fetch(w, [], [], start).links <==> Reaches(w, [], start, x)
  }

  /** Exactly which names are safe: for a set of proper names, every fetch over every dependency
      graph on available formulas from it links what is reachable, if and only if none of the names
      is contained in another. */
  lemma SafeNamesExactly(names: set<string>)
    requires forall a <- names :: ' ' !in a && a != ""
    ensures Unambiguous(names)
            <==> forall w: Sources, start | w.available <= names :: FetchesReachable(w, start)
  {
    if Unambiguous(names) {
      forall w: Sources, start | w.available <= names ensures FetchesReachable(w, start) {
        assert forall x <- Reachable(w, [], start) :: x in names;
        FetchIsReachability(w, [], start);
      }
    } else {
      var a, b :| a in names && b in names && Inside(a, b) && a != b;
      var w := Sources({b, a}, map[b := [a]]);
      ContainedDependencyIsSkipped(b, a);
      assert a !in [b];
      assert w.available <= names && !FetchesReachable(w, b);
    }
  }

  /** A name contained in one fetched before it, as `git` in `gitlab`, is skipped although it is
      reachable. */
  lemma ContainedNameIsSkipped(root: string, longer: string, shorter: string)
    requires Distinct([root, longer, shorter]) && Inside(shorter, longer)
    requires root != "" && !Inside(longer, root)
    ensures var w := Sources({root, longer, shorter}, map[root := [longer, shorter]]);
      Fetch(w, [], [], root).links == [root, longer] && Reaches(w, [], root, shorter)
  {
    var w := Sources({root, longer, shorter}, map[root := [longer, shorter]]);
    var names := [root, longer, shorter];
    assert names[0] != names[1] && names[0] != names[2] && names[1] != names[2];
    var one := [root];
    assert Join([], ' ') == "" && Join(one, ' ') == root;
    assert !Matches([], root) && !Matches(one, longer);
    assert Deps(w, longer) == [] && Deps(w, root) == [longer, shorter];
    var both := [root, longer];
    assert Fetch(w, one, one, longer) == Shell(both, both) by {
      assert one + [longer] == both;
      assert FetchDeps(w, both, both, []) == both;
    }
    InsideRight(shorter, root + [' '], longer);
    assert Join(both, ' ') == root + [' '] + longer by { assert both[1..] == [longer]; }
    assert Matches(both, shorter);
    var deps := [longer, shorter];
    assert deps[1..] == [shorter] && [shorter][1..] == [];
    assert FetchDeps(w, both, both, [shorter]) == both by { assert FetchDeps(w, both, both, []) == both; }
    assert FetchDeps(w, one, one, deps) == both;
    assert [] + [root] == one;
    assert Path(w, [], [root, shorter]) by { assert deps[1] in deps; }
  }

  // ----- the code as written -----

  class Environment {
    var links: seq<string>

    constructor (links: seq<string>)
      ensures this.links == links
    {
      this.links := links;
    }

    /** The caller's `FETCHED` after the call is the result. */
    method FetchGitFormula(w: Sources, fetched: seq<string>, name: string) returns (fetchedAfter: seq<string>)
      modifies this
      ensures Shell(links, fetchedAfter) == Fetch(w, old(links), fetched, name)
      decreases ToLink(w, links), 0
    {
      fetchedAfter := fetched;
      if !Matches(fetched, name) {
        if name !in w.available { return; }
        if name !in links {
          assert name in ToLink(w, links);
          links := links + [name];
          fetchedAfter := fetched + [name];
          assert name !in ToLink(w, links);
          FetchDependencies(w, fetchedAfter, Deps(w, name));
        }
      }
    }

    /** The loop of the subshell; its `FETCHED` ends with it. */
    method FetchDependencies(w: Sources, fetched: seq<string>, deps: seq<string>)
      modifies this
      ensures links == FetchDeps(w, old(links), fetched, deps)
      decreases ToLink(w, links), |deps| + 1
    {
      var mine := fetched;
      var i := 0;
      while i < |deps|
        invariant i <= |deps| && old(links) <= links
        invariant FetchDeps(w, old(links), fetched, deps) == FetchDeps(w, links, mine, deps[i..])
      {
        assert deps[i..][1..] == deps[i + 1..];
        assert forall n :: n in old(links) ==> n in links;
        mine := FetchGitFormula(w, mine, deps[i]);
        i := i + 1;
      }
    }
  }
}
