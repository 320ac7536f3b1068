/** `matrix_build` of docker/tasks.py: the build matrix of an image is expanded by recursion over
    a shrinking copy of the list of its axes. */
module MatrixBuild {
  import opened Common

  /** `ctx.matrix`: the distributions with their releases, and the versions, in listing order. */
  datatype Context = Context(dist: seq<(string, seq<string>)>, salt: seq<string>, formulas: seq<string>)

  /** Prefixes; an absent filter is the empty one. */
  datatype Filter = Filter(dist: string, distRel: string, salt: string, formulaRev: string)

  /** The keyword arguments a `build` call receives. */
  datatype Build = Build(dist: Option<(string, string)>, salt: Option<string>, formulaRev: Option<string>)

  /** `raised`: a keyword argument was passed twice. */
  datatype Outcome = Outcome(builds: seq<Build>, raised: bool)

  const DIST := "dist"
  const SALT := "salt"
  const FORMULAS := "salt-formulas"

  // ----- the values of an axis that pass the filter, in order -----

  function Passing<T>(values: seq<T>, pass: T -> bool): seq<T> {
    if values == [] then []
    else
      var last := values[|values| - 1];
      Passing(values[..|values| - 1], pass) + if pass(last) then [last] else []
  }

  /** All pairs of a distribution and one of its releases. */
  function Pairs(dist: seq<(string, seq<string>)>): seq<(string, string)> {
    if dist == [] then []
    else
      var (name, releases) := dist[|dist| - 1];
      Pairs(dist[..|dist| - 1]) + Releases(name, releases)
  }

  function Releases(name: string, releases: seq<string>): seq<(string, string)> {
    seq(|releases|, i requires 0 <= i < |releases| => (name, releases[i]))
  }

  function DistPass(f: Filter): ((string, string)) -> bool {
    (e: (string, string)) => f.dist <= e.0 && f.distRel <= e.1
  }

  function PrefixPass(prefix: string): string -> bool {
    (v: string) => prefix <= v
  }

  function Dists(ctx: Context, f: Filter): seq<(string, string)> {
    Passing(Pairs(ctx.dist), DistPass(f))
  }

  function Salts(ctx: Context, f: Filter): seq<string> {
    Passing(ctx.salt, PrefixPass(f.salt))
  }

  function Formulas(ctx: Context, f: Filter): seq<string> {
    Passing(ctx.formulas, PrefixPass(f.formulaRev))
  }

  // ----- the recursion -----

  /** Runs the recursive call for every value in turn, until one raises. */
  function Then(a: Outcome, b: Outcome): Outcome {
    if a.raised then a else Outcome(a.builds + b.builds, b.raised)
  }

  /** The axis expanded first, whatever the order in which they are listed. */
  function FirstAxis(axes: seq<string>): Option<string> {
    if DIST in axes then Some(DIST)
    else if SALT in axes then Some(SALT)
    else if FORMULAS in axes then Some(FORMULAS)
    else None
  }

  function WithDists(b: Build, values: seq<(string, string)>): seq<Build> {
    seq(|values|, i requires 0 <= i < |values| => b.(dist := Some(values[i])))
  }

  function WithSalts(b: Build, values: seq<string>): seq<Build> {
    seq(|values|, i requires 0 <= i < |values| => b.(salt := Some(values[i])))
  }

  function WithFormulas(b: Build, values: seq<string>): seq<Build> {
    seq(|values|, i requires 0 <= i < |values| => b.(formulaRev := Some(values[i])))
  }

  /** The arguments passed on for every value of an axis. */
  function Choices(ctx: Context, f: Filter, b: Build, axis: string): seq<Build> {
    if axis == DIST then WithDists(b, Dists(ctx, f))
    else if axis == SALT then WithSalts(b, Salts(ctx, f))
    else WithFormulas(b, Formulas(ctx, f))
  }

  /** The argument of the axis is there already, so that passing it again raises. */
  predicate Given(b: Build, axis: string) {
    if axis == DIST then b.dist.Some? else if axis == SALT then b.salt.Some? else b.formulaRev.Some?
  }

  function Expand(ctx: Context, axes: seq<string>, f: Filter, b: Build): Outcome
    decreases |axes|, 0
  {
    var axis := FirstAxis(axes);
    if axis.None? then Outcome([b], false)
    else Over(ctx, axes, axis.value, f, Given(b, axis.value), Choices(ctx, f, b, axis.value))
  }

  function Over(ctx: Context, axes: seq<string>, axis: string, f: Filter, given: bool, choices: seq<Build>): Outcome
    requires axis in axes
    decreases |axes|, 0, |choices|
  {
    if choices == [] then Outcome([], false)
    else
      Then(Over(ctx, axes, axis, f, given, choices[..|choices| - 1]),
           if given then Outcome([], true)
           else Expand(ctx, Without(axes, axis), f, choices[|choices| - 1]))
  }

  // ----- what the expansion must be -----

  /** What an argument can be: the filtered values of its axis, or else what is fixed already. */
  function Axis<T>(present: bool, values: seq<T>, given: Option<T>): seq<Option<T>> {
    if present then seq(|values|, i requires 0 <= i < |values| => Some(values[i])) else [given]
  }

  datatype Lists = Lists(dist: seq<Option<(string, string)>>, salt: seq<Option<string>>, formulas: seq<Option<string>>)

  function Columns(ctx: Context, axes: seq<string>, f: Filter, b: Build): Lists {
    Lists(Axis("dist" in axes, Dists(ctx, f), b.dist),
          Axis("salt" in axes, Salts(ctx, f), b.salt),
          Axis("salt-formulas" in axes, Formulas(ctx, f), b.formulaRev))
  }

  function Size(l: Lists): nat {
    |l.dist| * |l.salt| * |l.formulas|
  }

  function Position(l: Lists, i: nat, j: nat, k: nat): nat {
    (i * |l.salt| + j) * |l.formulas| + k
  }

  /** The build calls are the combinations of the columns in lexicographic order, one call at each
      position. */
  ghost predicate IsProduct(l: Lists, builds: seq<Build>) {
    && |builds| == Size(l)
    && forall i, j, k | 0 <= i < |l.dist| && 0 <= j < |l.salt| && 0 <= k < |l.formulas| ::
         Position(l, i, j, k) < |builds|
         && builds[Position(l, i, j, k)] == Build(l.dist[i], l.salt[j], l.formulas[k])
  }

  /** No axis is listed twice, and none of those listed is fixed already. */
  ghost predicate Expandable(axes: seq<string>, b: Build) {
    && Distinct(axes)
    && (DIST in axes ==> b.dist.None?) && (SALT in axes ==> b.salt.None?)
    && (FORMULAS in axes ==> b.formulaRev.None?)
  }

  // ----- positions -----

  lemma Below(a: nat, m: nat, b: nat, n: nat)
    requires a < m && b < n
    ensures a * n + b < m * n
  {
    assert (a + 1) * n <= m * n;
  }

  /** Every position belongs to one combination of the columns. */
  lemma Coordinates(l: Lists, p: nat) returns (i: nat, j: nat, k: nat)
    requires p < Size(l)
    ensures i < |l.dist| && j < |l.salt| && k < |l.formulas| && p == Position(l, i, j, k)
  {
    var row;
    row, k := Quotient(p, |l.dist| * |l.salt|, |l.formulas|);
    i, j := Quotient(row, |l.dist|, |l.salt|);
  }

  lemma Quotient(p: nat, m: nat, n: nat) returns (a: nat, b: nat)
    requires p < m * n
    ensures a < m && b < n && p == a * n + b
  {
    assert n > 0;
    a, b := p / n, p % n;
    Monotone(m, a, n);
  }

  lemma Monotone(m: nat, a: nat, n: nat)
    ensures m <= a ==> m * n <= a * n
  {
  }

  // ----- proofs -----

  ghost function Concat(blocks: seq<seq<Build>>): seq<Build> {
    if blocks == [] then [] else Concat(blocks[..|blocks| - 1]) + blocks[|blocks| - 1]
  }

  /** Where an element of a block is found when all blocks have length `n`. */
  lemma {:induction false} ConcatAt(blocks: seq<seq<Build>>, n: nat, c: nat, q: nat)
    requires c < |blocks| && q < n && forall k | 0 <= k < |blocks| :: |blocks[k]| == n
    ensures |Concat(blocks)| == |blocks| * n && c * n + q < |blocks| * n
    ensures Concat(blocks)[c * n + q] == blocks[c][q]
  {
    var last := |blocks| - 1;
    ConcatSize(blocks, n);
    ConcatSize(blocks[..last], n);
    Below(c, |blocks|, q, n);
    if c < last {
      Below(c, last, q, n);
      ConcatAt(blocks[..last], n, c, q);
    }
  }

  lemma {:induction false} ConcatSize(blocks: seq<seq<Build>>, n: nat)
    requires forall k | 0 <= k < |blocks| :: |blocks[k]| == n
    ensures |Concat(blocks)| == |blocks| * n
  {
    if blocks != [] {
      var last := |blocks| - 1;
      ConcatSize(blocks[..last], n);
      assert (last + 1) * n == last * n + n;
    }
  }

  ghost function Results(ctx: Context, rest: seq<string>, f: Filter, choices: seq<Build>): seq<seq<Build>> {
    seq(|choices|, c requires 0 <= c < |choices| => Expand(ctx, rest, f, choices[c]).builds)
  }

  lemma {:induction false} OverConcat(ctx: Context, axes: seq<string>, axis: string, f: Filter, choices: seq<Build>)
    requires axis in axes
    requires forall c <- choices :: !Expand(ctx, Without(axes, axis), f, c).raised
    ensures !Over(ctx, axes, axis, f, false, choices).raised
    ensures Over(ctx, axes, axis, f, false, choices).builds == Concat(Results(ctx, Without(axes, axis), f, choices))
    decreases |choices|
  {
    if choices != [] {
      var rest, front, last := Without(axes, axis), choices[..|choices| - 1], choices[|choices| - 1];
      assert choices == front + [last];
      OverConcat(ctx, axes, axis, f, front);
      assert Results(ctx, rest, f, choices)[..|choices| - 1] == Results(ctx, rest, f, front);
    }
  }

  function Width(l: Lists, axis: string): nat {
    if axis == DIST then |l.dist| else if axis == SALT then |l.salt| else |l.formulas|
  }

  function BlockSize(l: Lists, axis: string): nat {
    if axis == DIST then |l.salt| * |l.formulas| else if axis == SALT then |l.formulas| else 1
  }

  /** The axis is the first one with more than what is fixed. */
  predicate Leads(l: Lists, axis: string) {
    (axis != DIST ==> |l.dist| == 1) && (axis != DIST && axis != SALT ==> |l.salt| == 1)
  }

  /** The columns with the axis narrowed to its c-th value. */
  function Narrowed(l: Lists, axis: string, c: nat): Lists
    requires c < Width(l, axis)
  {
    if axis == DIST then l.(dist := [l.dist[c]])
    else if axis == SALT then l.(salt := [l.salt[c]])
    else l.(formulas := [l.formulas[c]])
  }

  /** A combination has its place inside the block of its value on the first axis. */
  lemma PlaceInBlock(l: Lists, axis: string, i: nat, j: nat, k: nat)
    returns (c: nat, i': nat, j': nat, k': nat)
    requires Leads(l, axis) && i < |l.dist| && j < |l.salt| && k < |l.formulas|
    ensures c < Width(l, axis)
    ensures var l' := Narrowed(l, axis, c);
      && i' < |l'.dist| && j' < |l'.salt| && k' < |l'.formulas|
      && l'.dist[i'] == l.dist[i] && l'.salt[j'] == l.salt[j] && l'.formulas[k'] == l.formulas[k]
      && c * BlockSize(l, axis) + Position(l', i', j', k') == Position(l, i, j, k)
  {
    i', j', k' := i, j, k;
    if axis == DIST {
      c, i' := i, 0;
      Regroup(i, |l.salt|, j, |l.formulas|, k);
    } else if axis == SALT {
      c, j' := j, 0;
    } else {
      c, k' := k, 0;
    }
  }

  lemma Regroup(i: nat, s: nat, j: nat, f: nat, k: nat)
    ensures i * (s * f) + (j * f + k) == (i * s + j) * f + k
  {
  }

  /** The products of the narrowed columns, one after the other, make up the product. */
  lemma ProductOfBlocks(l: Lists, axis: string, blocks: seq<seq<Build>>)
    requires Leads(l, axis) && |blocks| == Width(l, axis)
    requires forall c | 0 <= c < |blocks| :: IsProduct(Narrowed(l, axis, c), blocks[c])
    requires forall c | 0 <= c < |blocks| :: |blocks[c]| == BlockSize(l, axis)
    ensures IsProduct(l, Concat(blocks))
  {
    SizeOfBlocks(l, axis);
    ConcatSize(blocks, BlockSize(l, axis));
    forall i, j, k | 0 <= i < |l.dist| && 0 <= j < |l.salt| && 0 <= k < |l.formulas|
      ensures Position(l, i, j, k) < |Concat(blocks)|
      ensures Concat(blocks)[Position(l, i, j, k)] == Build(l.dist[i], l.salt[j], l.formulas[k])
    {
      var c, i', j', k' := PlaceInBlock(l, axis, i, j, k);
      assert IsProduct(Narrowed(l, axis, c), blocks[c]);
      ConcatAt(blocks, BlockSize(l, axis), c, Position(Narrowed(l, axis, c), i', j', k'));
    }
  }

  lemma SizeOfBlocks(l: Lists, axis: string)
    requires Leads(l, axis)
    ensures Width(l, axis) * BlockSize(l, axis) == Size(l)
  {
    if axis == DIST { Regroup(|l.dist|, |l.salt|, 0, |l.formulas|, 0); }
  }

  lemma DistNarrowed(ctx: Context, axes: seq<string>, f: Filter, b: Build, c: nat)
    requires Expandable(axes, b) && DIST in axes && c < |Dists(ctx, f)|
    ensures var v := b.(dist := Some(Dists(ctx, f)[c]));
      && Expandable(Without(axes, DIST), v)
      && Columns(ctx, Without(axes, DIST), f, v) == Narrowed(Columns(ctx, axes, f, b), DIST, c)
  {
    WithoutOne(axes, DIST);
  }

  lemma SaltNarrowed(ctx: Context, axes: seq<string>, f: Filter, b: Build, c: nat)
    requires Expandable(axes, b) && SALT in axes && c < |Salts(ctx, f)|
    ensures var v := b.(salt := Some(Salts(ctx, f)[c]));
      && Expandable(Without(axes, SALT), v)
      && Columns(ctx, Without(axes, SALT), f, v) == Narrowed(Columns(ctx, axes, f, b), SALT, c)
  {
    WithoutOne(axes, SALT);
  }

  lemma FormulasNarrowed(ctx: Context, axes: seq<string>, f: Filter, b: Build, c: nat)
    requires Expandable(axes, b) && FORMULAS in axes && c < |Formulas(ctx, f)|
    ensures var v := b.(formulaRev := Some(Formulas(ctx, f)[c]));
      && Expandable(Without(axes, FORMULAS), v)
      && Columns(ctx, Without(axes, FORMULAS), f, v) == Narrowed(Columns(ctx, axes, f, b), FORMULAS, c)
  {
    WithoutOne(axes, FORMULAS);
  }

  lemma NarrowedSize(l: Lists, axis: string, c: nat)
    requires Leads(l, axis) && c < Width(l, axis)
    ensures Size(Narrowed(l, axis, c)) == BlockSize(l, axis)
  {
  }

  lemma FirstAxisLeads(ctx: Context, axes: seq<string>, f: Filter, b: Build, axis: string)
    requires FirstAxis(axes) == Some(axis)
    ensures axis in {DIST, SALT, FORMULAS} && axis in axes && Leads(Columns(ctx, axes, f, b), axis)
    ensures Width(Columns(ctx, axes, f, b), axis) == |Choices(ctx, f, b, axis)|
  {
  }

  lemma ColumnsNarrowed(ctx: Context, axes: seq<string>, f: Filter, b: Build, axis: string, c: nat)
    requires Expandable(axes, b) && FirstAxis(axes) == Some(axis) && c < |Choices(ctx, f, b, axis)|
    ensures Width(Columns(ctx, axes, f, b), axis) == |Choices(ctx, f, b, axis)|
    ensures Expandable(Without(axes, axis), Choices(ctx, f, b, axis)[c])
    ensures Columns(ctx, Without(axes, axis), f, Choices(ctx, f, b, axis)[c])
            == Narrowed(Columns(ctx, axes, f, b), axis, c)
    ensures Size(Narrowed(Columns(ctx, axes, f, b), axis, c)) == BlockSize(Columns(ctx, axes, f, b), axis)
  {
    FirstAxisLeads(ctx, axes, f, b, axis);
    NarrowedSize(Columns(ctx, axes, f, b), axis, c);
    if axis == DIST {
      DistNarrowed(ctx, axes, f, b, c);
    } else if axis == SALT {
      SaltNarrowed(ctx, axes, f, b, c);
    } else {
      FormulasNarrowed(ctx, axes, f, b, c);
    }
  }

  lemma ProductOfChoices(ctx: Context, axes: seq<string>, f: Filter, b: Build, axis: string)
    requires Expandable(axes, b) && FirstAxis(axes) == Some(axis)
    requires forall c | 0 <= c < |Choices(ctx, f, b, axis)| :: ChoiceDone(ctx, axes, f, b, axis, c)
    ensures !Expand(ctx, axes, f, b).raised
    ensures IsProduct(Columns(ctx, axes, f, b), Expand(ctx, axes, f, b).builds)
  {
    var l, rest, choices := Columns(ctx, axes, f, b), Without(axes, axis), Choices(ctx, f, b, axis);
    var blocks := Results(ctx, rest, f, choices);
    assert |blocks| == |choices| == Width(l, axis);
    forall c | 0 <= c < |choices|
      ensures IsProduct(Narrowed(l, axis, c), blocks[c]) && |blocks[c]| == BlockSize(l, axis)
    {
      assert ChoiceDone(ctx, axes, f, b, axis, c);
    }
    forall x <- choices ensures !Expand(ctx, rest, f, x).raised {
      var c :| 0 <= c < |choices| && choices[c] == x;
      assert ChoiceDone(ctx, axes, f, b, axis, c);
    }
    OverConcat(ctx, axes, axis, f, choices);
    ProductOfBlocks(l, axis, blocks);
  }

  /** The calls for the c-th value of the first axis are the product of what remains. */
  ghost predicate ChoiceDone(ctx: Context, axes: seq<string>, f: Filter, b: Build, axis: string, c: nat)
    requires c < |Choices(ctx, f, b, axis)|
  {
    var l, o := Columns(ctx, axes, f, b), Expand(ctx, Without(axes, axis), f, Choices(ctx, f, b, axis)[c]);
    && c < Width(l, axis)
    && !o.raised && IsProduct(Narrowed(l, axis, c), o.builds) && |o.builds| == BlockSize(l, axis)
  }

  /** For axes listed once, the build calls are exactly the filtered product of the axes that are
      present, in lexicographic order, whatever values are repeated. */
  lemma {:induction false} ExpandIsProduct(ctx: Context, axes: seq<string>, f: Filter, b: Build)
    requires Expandable(axes, b)
    ensures !Expand(ctx, axes, f, b).raised
    ensures IsProduct(Columns(ctx, axes, f, b), Expand(ctx, axes, f, b).builds)
    decreases |axes|
  {
    if FirstAxis(axes).Some? {
      var axis := FirstAxis(axes).value;
      forall c | 0 <= c < |Choices(ctx, f, b, axis)| ensures ChoiceDone(ctx, axes, f, b, axis, c) {
        ColumnsNarrowed(ctx, axes, f, b, axis, c);
        ExpandIsProduct(ctx, Without(axes, axis), f, Choices(ctx, f, b, axis)[c]);
      }
      ProductOfChoices(ctx, axes, f, b, axis);
    }
  }

  ghost predicate Choice<T>(present: bool, values: seq<T>, given: Option<T>, x: Option<T>) {
    if present then x.Some? && x.value in values else x == given
  }

  /** The build is one combination: a filtered value for every present axis, and the arguments
      already fixed for the others. */
  ghost predicate Combination(ctx: Context, axes: seq<string>, f: Filter, b: Build, x: Build) {
    && Choice(DIST in axes, Dists(ctx, f), b.dist, x.dist)
    && Choice(SALT in axes, Salts(ctx, f), b.salt, x.salt)
    && Choice(FORMULAS in axes, Formulas(ctx, f), b.formulaRev, x.formulaRev)
  }

  lemma ColumnMembers<T>(present: bool, values: seq<T>, given: Option<T>)
    ensures forall x :: x in Axis(present, values, given) <==> Choice(present, values, given, x)
    ensures Distinct(values) ==> Distinct(Axis(present, values, given))
  {
    if present {
      forall x | Choice(present, values, given, x) ensures x in Axis(present, values, given) {
        var i :| 0 <= i < |values| && values[i] == x.value;
        assert Axis(present, values, given)[i] == x;
      }
    }
  }

  /** Every combination is built, and nothing else; as many times as the product of its numbers of
      occurrences, hence once when the values are distinct. */
  lemma EachCombinationOnce(ctx: Context, axes: seq<string>, f: Filter, b: Build)
    requires Expandable(axes, b)
    ensures forall x :: x in Expand(ctx, axes, f, b).builds <==> Combination(ctx, axes, f, b, x)
    ensures Distinct(Dists(ctx, f)) && Distinct(Salts(ctx, f)) && Distinct(Formulas(ctx, f)) ==>
              Distinct(Expand(ctx, axes, f, b).builds)
  {
    ExpandIsProduct(ctx, axes, f, b);
    ColumnMembers(DIST in axes, Dists(ctx, f), b.dist);
    ColumnMembers(SALT in axes, Salts(ctx, f), b.salt);
    ColumnMembers(FORMULAS in axes, Formulas(ctx, f), b.formulaRev);
    ProductMembers(Columns(ctx, axes, f, b), Expand(ctx, axes, f, b).builds);
  }

  lemma ProductMembers(l: Lists, builds: seq<Build>)
    requires IsProduct(l, builds)
    ensures forall x: Build :: x in builds <==> x.dist in l.dist && x.salt in l.salt && x.formulaRev in l.formulas
    ensures Distinct(l.dist) && Distinct(l.salt) && Distinct(l.formulas) ==> Distinct(builds)
  {
    forall x | x in builds ensures x.dist in l.dist && x.salt in l.salt && x.formulaRev in l.formulas {
      var p :| 0 <= p < |builds| && builds[p] == x;
      var i, j, k := Coordinates(l, p);
    }
    forall x: Build | x.dist in l.dist && x.salt in l.salt && x.formulaRev in l.formulas ensures x in builds {
      var i :| 0 <= i < |l.dist| && l.dist[i] == x.dist;
      var j :| 0 <= j < |l.salt| && l.salt[j] == x.salt;
      var k :| 0 <= k < |l.formulas| && l.formulas[k] == x.formulaRev;
      assert builds[Position(l, i, j, k)] == x;
    }
    if Distinct(l.dist) && Distinct(l.salt) && Distinct(l.formulas) {
      forall p, p' | 0 <= p < p' < |builds| ensures builds[p] != builds[p'] {
        var i, j, k := Coordinates(l, p);
        var i', j', k' := Coordinates(l, p');
        assert i != i' || j != j' || k != k';
        assert builds[p] == Build(l.dist[i], l.salt[j], l.formulas[k]);
        assert builds[p'] == Build(l.dist[i'], l.salt[j'], l.formulas[k']);
      }
    }
  }

  /** The positions of the values that pass, in order. */
  ghost predicate Places<T>(values: seq<T>, pass: T -> bool, at: seq<nat>) {
    && (forall i, j :: 0 <= i < j < |at| ==> at[i] < at[j])
    && (forall i | 0 <= i < |at| :: at[i] < |values| && pass(values[at[i]]))
    && (forall p: nat | p < |values| && pass(values[p]) :: p in at)
  }

  lemma PlacesNext<T>(values: seq<T>, pass: T -> bool, at: seq<nat>)
    requires values != [] && Places(values[..|values| - 1], pass, at)
    ensures var n := |values| - 1; Places(values, pass, at + if pass(values[n]) then [n] else [])
  {
    var n := |values| - 1;
    var at' := at + if pass(values[n]) then [n] else [];
    forall i | 0 <= i < |at| ensures at[i] < n && pass(values[at[i]]) {
      assert values[..n][at[i]] == values[at[i]];
    }
    forall p: nat | p < |values| && pass(values[p]) ensures p in at' {
      if p < n {
        assert values[..n][p] == values[p];
        assert p in at;
      }
    }
  }

  ghost function Spots<T>(values: seq<T>, pass: T -> bool): seq<nat> {
    if values == [] then []
    else
      var n := |values| - 1;
      Spots(values[..n], pass) + if pass(values[n]) then [n] else []
  }

  lemma {:induction false} SpotsArePlaces<T>(values: seq<T>, pass: T -> bool)
    ensures Places(values, pass, Spots(values, pass))
  {
    if values != [] {
      SpotsArePlaces(values[..|values| - 1], pass);
      PlacesNext(values, pass, Spots(values[..|values| - 1], pass));
    }
  }

  /** Filtering keeps exactly the values that pass, in their order and as often as they occur: those
      at the places of the values that pass. */
  lemma {:induction false} PassingInOrder<T>(values: seq<T>, pass: T -> bool)
    ensures Places(values, pass, Spots(values, pass))
    ensures |Passing(values, pass)| == |Spots(values, pass)|
    ensures forall i | 0 <= i < |Spots(values, pass)| :: Passing(values, pass)[i] == values[Spots(values, pass)[i]]
  {
    SpotsArePlaces(values, pass);
    if values != [] {
      PassingInOrder(values[..|values| - 1], pass);
    }
  }

  /** Every distribution contributes its releases, in order and once each, after those of the
      distributions before it. */
  lemma {:induction false} PairsInOrder(dist: seq<(string, seq<string>)>, i: nat)
    requires i < |dist|
    ensures |Pairs(dist[..0])| == 0 && |Pairs(dist[..i + 1])| == |Pairs(dist[..i])| + |dist[i].1|
    ensures |Pairs(dist[..i])| + |dist[i].1| <= |Pairs(dist)|
    ensures forall j | 0 <= j < |dist[i].1| :: Pairs(dist)[|Pairs(dist[..i])| + j] == (dist[i].0, dist[i].1[j])
    decreases |dist|
  {
    var n := |dist| - 1;
    assert dist[..i + 1][..i] == dist[..i] && dist[..i + 1][i] == dist[i];
    if i < n {
      var front := dist[..n];
      assert front[..i] == dist[..i] && front[..i + 1] == dist[..i + 1];
      PairsInOrder(front, i);
    } else {
      assert dist[..i + 1] == dist;
    }
  }

  /** The values kept are those with the prefix, in listing order and as often as listed. */
  ghost predicate Tried(values: seq<string>, prefix: string, kept: seq<string>, at: seq<nat>) {
    && |at| == |kept|
    && (forall i, j :: 0 <= i < j < |at| ==> at[i] < at[j])
    && (forall i | 0 <= i < |at| :: at[i] < |values| && prefix <= values[at[i]] && kept[i] == values[at[i]])
    && (forall p: nat | p < |values| && prefix <= values[p] :: p in at)
  }

  lemma ValuesTried(ctx: Context, f: Filter)
    ensures exists at :: Tried(ctx.salt, f.salt, Salts(ctx, f), at)
    ensures exists at :: Tried(ctx.formulas, f.formulaRev, Formulas(ctx, f), at)
  {
    PassingInOrder(ctx.salt, PrefixPass(f.salt));
    PassingInOrder(ctx.formulas, PrefixPass(f.formulaRev));
    PlacesAreTried(ctx.salt, f.salt, Salts(ctx, f), Spots(ctx.salt, PrefixPass(f.salt)));
    PlacesAreTried(ctx.formulas, f.formulaRev, Formulas(ctx, f), Spots(ctx.formulas, PrefixPass(f.formulaRev)));
  }

  lemma PlacesAreTried(values: seq<string>, prefix: string, kept: seq<string>, at: seq<nat>)
    requires Places(values, PrefixPass(prefix), at) && |kept| == |at|
    requires forall i | 0 <= i < |at| :: kept[i] == values[at[i]]
    ensures Tried(values, prefix, kept, at)
  {
    forall i | 0 <= i < |at| ensures prefix <= values[at[i]] { assert PrefixPass(prefix)(values[at[i]]); }
    forall p: nat | p < |values| && prefix <= values[p] ensures p in at { assert PrefixPass(prefix)(values[p]); }
  }

  // ----- when an argument is passed twice -----

  /** With the axes listed so many times, and with these arguments given and values to pass, some
      axis would pass its argument a second time, and the expansion gets that far. */
  ghost predicate Passes(
    dists: nat, salts: nat, formulas: nat, b: Build, anyDist: bool, anySalt: bool, anyFormula: bool)
  {
    || (dists > 0 && (b.dist.Some? || dists > 1) && anyDist)
    || (salts > 0 && (b.salt.Some? || salts > 1) && (dists > 0 ==> anyDist) && anySalt)
    || (formulas > 0 && (b.formulaRev.Some? || formulas > 1)
        && (dists > 0 ==> anyDist) && (salts > 0 ==> anySalt) && anyFormula)
  }

  ghost predicate PassesTwice(ctx: Context, axes: seq<string>, f: Filter, b: Build) {
    Passes(multiset(axes)[DIST], multiset(axes)[SALT], multiset(axes)[FORMULAS], b,
           Dists(ctx, f) != [], Salts(ctx, f) != [], Formulas(ctx, f) != [])
  }

  lemma {:induction false} OverGiven(ctx: Context, axes: seq<string>, axis: string, f: Filter, choices: seq<Build>)
    requires axis in axes
    ensures Over(ctx, axes, axis, f, true, choices) == Outcome([], choices != [])
    decreases |choices|
  {
    if choices != [] { OverGiven(ctx, axes, axis, f, choices[..|choices| - 1]); }
  }

  lemma {:induction false} OverRaising(ctx: Context, axes: seq<string>, axis: string, f: Filter, choices: seq<Build>)
    requires axis in axes
    requires forall c <- choices :: Expand(ctx, Without(axes, axis), f, c) == Outcome([], true)
    ensures Over(ctx, axes, axis, f, false, choices) == Outcome([], choices != [])
    decreases |choices|
  {
    if choices != [] {
      var front, last := choices[..|choices| - 1], choices[|choices| - 1];
      assert choices == front + [last];
      OverRaising(ctx, axes, axis, f, front);
    }
  }

  lemma PassesTwiceNext(ctx: Context, axes: seq<string>, f: Filter, b: Build, axis: string, c: nat)
    requires FirstAxis(axes) == Some(axis) && !Given(b, axis) && c < |Choices(ctx, f, b, axis)|
    ensures PassesTwice(ctx, axes, f, b) <==> PassesTwice(ctx, Without(axes, axis), f, Choices(ctx, f, b, axis)[c])
  {
    var before, after := multiset(axes), multiset(Without(axes, axis));
    WithoutIsDifference(axes, axis);
    assert before[DIST] > 0 <==> DIST in axes;
    assert before[SALT] > 0 <==> SALT in axes;
    assert after == before - multiset{axis};
    assert after[DIST] == before[DIST] - (if axis == DIST then 1 else 0);
    assert after[SALT] == before[SALT] - (if axis == SALT then 1 else 0);
    assert after[FORMULAS] == before[FORMULAS] - (if axis == FORMULAS then 1 else 0);
    var v := Choices(ctx, f, b, axis)[c];
    if axis == DIST {
      assert v == b.(dist := Some(Dists(ctx, f)[c]));
    } else if axis == SALT {
      assert v == b.(salt := Some(Salts(ctx, f)[c]));
    } else {
      assert v == b.(formulaRev := Some(Formulas(ctx, f)[c]));
    }
  }

  /** Nothing at all is built if some axis would pass its argument twice, because it is listed twice
      or given already, unless there is no value to pass for it or for an axis before it; in every
      other case nothing is raised. */
  lemma {:induction false} RaisesExactly(ctx: Context, axes: seq<string>, f: Filter, b: Build)
    ensures Expand(ctx, axes, f, b).raised <==> PassesTwice(ctx, axes, f, b)
    ensures Expand(ctx, axes, f, b).raised ==> Expand(ctx, axes, f, b).builds == []
    decreases |axes|
  {
    if FirstAxis(axes).Some? {
      var axis := FirstAxis(axes).value;
      var choices, rest := Choices(ctx, f, b, axis), Without(axes, axis);
      if Given(b, axis) {
        OverGiven(ctx, axes, axis, f, choices);
      } else if choices != [] {
        forall c | 0 <= c < |choices|
          ensures Expand(ctx, rest, f, choices[c]).raised <==> PassesTwice(ctx, axes, f, b)
          ensures Expand(ctx, rest, f, choices[c]).raised ==> Expand(ctx, rest, f, choices[c]).builds == []
        {
          RaisesExactly(ctx, rest, f, choices[c]);
          PassesTwiceNext(ctx, axes, f, b, axis, c);
        }
        if PassesTwice(ctx, axes, f, b) {
          OverRaising(ctx, axes, axis, f, choices);
        } else {
          OverConcat(ctx, axes, axis, f, choices);
        }
      }
    }
  }

  /** The pairs tried are the listed ones that pass both prefixes. */
  lemma DistsFiltered(ctx: Context, f: Filter, name: string, release: string)
    ensures (name, release) in Dists(ctx, f) <==>
            f.dist <= name && f.distRel <= release && exists e <- ctx.dist :: e.0 == name && release in e.1
  {
    PassingMembers(Pairs(ctx.dist), DistPass(f), (name, release));
    PairsListed(ctx.dist, name, release);
  }

  lemma {:induction false} PairsListed(dist: seq<(string, seq<string>)>, name: string, release: string)
    ensures (name, release) in Pairs(dist) <==> exists e <- dist :: e.0 == name && release in e.1
  {
    if dist != [] {
      var front, e := dist[..|dist| - 1], dist[|dist| - 1];
      assert dist == front + [e];
      PairsListed(front, name, release);
      var last := Releases(e.0, e.1);
      assert (name, release) in last <==> e.0 == name && release in e.1 by {
        if i :| 0 <= i < |e.1| && e.1[i] == release { assert last[i] == (e.0, release); }
      }
    }
  }

  lemma {:induction false} PassingMembers<T>(values: seq<T>, pass: T -> bool, v: T)
    ensures v in Passing(values, pass) <==> pass(v) && v in values
  {
    if values != [] {
      var front, last := values[..|values| - 1], values[|values| - 1];
      assert values == front + [last];
      PassingMembers(front, pass, v);
    }
  }

  /** The order in which the axes of an image are listed makes no difference. */
  lemma {:induction false} ListingOrderIsIrrelevant(
    ctx: Context, axes: seq<string>, reordered: seq<string>, f: Filter, b: Build)
    requires SameListing(axes, reordered)
    ensures Expand(ctx, axes, f, b) == Expand(ctx, reordered, f, b)
    decreases |axes|, 0
  {
    var axis := FirstAxis(axes);
    assert axis == FirstAxis(reordered);
    if axis.Some? {
      WithoutOne(axes, axis.value);
      WithoutOne(reordered, axis.value);
      OverReordered(ctx, axes, reordered, axis.value, f, Given(b, axis.value), Choices(ctx, f, b, axis.value));
    }
  }

  lemma {:induction false} OverReordered(
    ctx: Context, axes: seq<string>, reordered: seq<string>, axis: string, f: Filter, given: bool, choices: seq<Build>)
    requires SameListing(axes, reordered) && axis in axes
    requires SameListing(Without(axes, axis), Without(reordered, axis))
    ensures Over(ctx, axes, axis, f, given, choices) == Over(ctx, reordered, axis, f, given, choices)
    decreases |axes|, 0, |choices|
  {
    if choices != [] {
      OverReordered(ctx, axes, reordered, axis, f, given, choices[..|choices| - 1]);
      ListingOrderIsIrrelevant(ctx, Without(axes, axis), Without(reordered, axis), f, choices[|choices| - 1]);
    }
  }

  // ----- the code as written -----

  lemma PassingSnoc<T>(values: seq<T>, v: T, pass: T -> bool)
    ensures Passing(values + [v], pass) == if pass(v) then Passing(values, pass) + [v] else Passing(values, pass)
  {
    assert (values + [v])[..|values|] == values;
  }

  lemma PassingNext<T>(values: seq<T>, i: nat, pass: T -> bool)
    requires i < |values|
    ensures Passing(values[..i + 1], pass)
            == if pass(values[i]) then Passing(values[..i], pass) + [values[i]] else Passing(values[..i], pass)
  {
    assert values[..i + 1][..i] == values[..i];
  }

  /** One turn of a loop over the values of an axis. */
  lemma OverNext(ctx: Context, axes: seq<string>, axis: string, f: Filter, given: bool, choices: seq<Build>, c: Build)
    requires axis in axes
    ensures Over(ctx, axes, axis, f, given, choices + [c])
            == Then(Over(ctx, axes, axis, f, given, choices),
                    if given then Outcome([], true) else Expand(ctx, Without(axes, axis), f, c))
  {
    assert (choices + [c])[..|choices|] == choices;
  }

  function OverSalts(ctx: Context, axes: seq<string>, f: Filter, b: Build, values: seq<string>): Outcome
    requires SALT in axes
  {
    Over(ctx, axes, SALT, f, b.salt.Some?, WithSalts(b, Passing(values, PrefixPass(f.salt))))
  }

  function OverFormulas(ctx: Context, axes: seq<string>, f: Filter, b: Build, values: seq<string>): Outcome
    requires FORMULAS in axes
  {
    Over(ctx, axes, FORMULAS, f, b.formulaRev.Some?, WithFormulas(b, Passing(values, PrefixPass(f.formulaRev))))
  }

  lemma OverSaltsNext(ctx: Context, axes: seq<string>, f: Filter, b: Build, i: nat)
    requires SALT in axes && i < |ctx.salt|
    ensures var v, sofar := ctx.salt[i], OverSalts(ctx, axes, f, b, ctx.salt[..i]);
      OverSalts(ctx, axes, f, b, ctx.salt[..i + 1])
      == if f.salt <= v
         then Then(sofar, if b.salt.Some? then Outcome([], true)
                          else Expand(ctx, Without(axes, SALT), f, b.(salt := Some(v))))
         else sofar
  {
    var v, sofar := ctx.salt[i], Passing(ctx.salt[..i], PrefixPass(f.salt));
    PassingNext(ctx.salt, i, PrefixPass(f.salt));
    assert WithSalts(b, sofar + [v]) == WithSalts(b, sofar) + [b.(salt := Some(v))];
    OverNext(ctx, axes, SALT, f, b.salt.Some?, WithSalts(b, sofar), b.(salt := Some(v)));
  }

  lemma OverFormulasNext(ctx: Context, axes: seq<string>, f: Filter, b: Build, i: nat)
    requires FORMULAS in axes && i < |ctx.formulas|
    ensures var v, sofar := ctx.formulas[i], OverFormulas(ctx, axes, f, b, ctx.formulas[..i]);
      OverFormulas(ctx, axes, f, b, ctx.formulas[..i + 1])
      == if f.formulaRev <= v
         then Then(sofar, if b.formulaRev.Some? then Outcome([], true)
                          else Expand(ctx, Without(axes, FORMULAS), f, b.(formulaRev := Some(v))))
         else sofar
  {
    var v, sofar := ctx.formulas[i], Passing(ctx.formulas[..i], PrefixPass(f.formulaRev));
    PassingNext(ctx.formulas, i, PrefixPass(f.formulaRev));
    assert WithFormulas(b, sofar + [v]) == WithFormulas(b, sofar) + [b.(formulaRev := Some(v))];
    OverNext(ctx, axes, FORMULAS, f, b.formulaRev.Some?, WithFormulas(b, sofar), b.(formulaRev := Some(v)));
  }

  /** The list of axes is copied before an axis is removed, so the caller's list is not touched. */
  method ExpandMatrix(ctx: Context, axes: seq<string>, f: Filter, b: Build) returns (o: Outcome)
    ensures o == Expand(ctx, axes, f, b)
    decreases |axes|, 0
  {
    if DIST in axes {
      o := BuildDists(ctx, axes, f, b);
    } else if SALT in axes {
      var m := Without(axes, SALT);
      o := Outcome([], false);
      for i := 0 to |ctx.salt|
        invariant o == OverSalts(ctx, axes, f, b, ctx.salt[..i])
      {
        var v := ctx.salt[i];
        OverSaltsNext(ctx, axes, f, b, i);
        if f.salt <= v && !o.raised {
          var one := Outcome([], true);
          if b.salt.None? {
            one := ExpandMatrix(ctx, m, f, b.(salt := Some(v)));
          }
          o := Outcome(o.builds + one.builds, one.raised);
        }
      }
      assert ctx.salt[..|ctx.salt|] == ctx.salt;
    } else if FORMULAS in axes {
      var m := Without(axes, FORMULAS);
      o := Outcome([], false);
      for i := 0 to |ctx.formulas|
        invariant o == OverFormulas(ctx, axes, f, b, ctx.formulas[..i])
      {
        var v := ctx.formulas[i];
        OverFormulasNext(ctx, axes, f, b, i);
        if f.formulaRev <= v && !o.raised {
          var one := Outcome([], true);
          if b.formulaRev.None? {
            one := ExpandMatrix(ctx, m, f, b.(formulaRev := Some(v)));
          }
          o := Outcome(o.builds + one.builds, one.raised);
        }
      }
      assert ctx.formulas[..|ctx.formulas|] == ctx.formulas;
    } else {
      o := Outcome([b], false);
    }
  }

  method BuildDists(ctx: Context, axes: seq<string>, f: Filter, b: Build) returns (o: Outcome)
    requires DIST in axes
    ensures o == Expand(ctx, axes, f, b)
    decreases |axes|, 0, 0
  {
    var m := Without(axes, DIST);
    o := Outcome([], false);
    for i := 0 to |ctx.dist|
      invariant o == OverPairs(ctx, axes, f, b, Pairs(ctx.dist[..i]))
    {
      var (d, releases) := ctx.dist[i];
      ghost var before := Pairs(ctx.dist[..i]);
      assert ctx.dist[..i + 1][..i] == ctx.dist[..i];
      assert before + Releases(d, releases[..0]) == before;
      for j := 0 to |releases|
        invariant o == OverPairs(ctx, axes, f, b, before + Releases(d, releases[..j]))
      {
        var r := releases[j];
        ghost var pairs := before + Releases(d, releases[..j]);
        assert before + Releases(d, releases[..j + 1]) == pairs + [(d, r)];
        OverPairsNext(ctx, axes, f, b, pairs, (d, r));
        if f.dist <= d && f.distRel <= r && !o.raised {
          var one := Outcome([], true);
          if b.dist.None? {
            one := ExpandMatrix(ctx, m, f, b.(dist := Some((d, r))));
          }
          o := Outcome(o.builds + one.builds, one.raised);
        }
      }
      assert releases[..|releases|] == releases;
    }
    assert ctx.dist[..|ctx.dist|] == ctx.dist;
  }

  /** The outcome for the first pairs of a distribution and a release. */
  function OverPairs(ctx: Context, axes: seq<string>, f: Filter, b: Build, pairs: seq<(string, string)>): Outcome
    requires DIST in axes
  {
    Over(ctx, axes, DIST, f, b.dist.Some?, WithDists(b, Passing(pairs, DistPass(f))))
  }

  lemma OverPairsNext(
    ctx: Context, axes: seq<string>, f: Filter, b: Build, pairs: seq<(string, string)>, e: (string, string))
    requires DIST in axes
    ensures OverPairs(ctx, axes, f, b, pairs + [e])
            == if f.dist <= e.0 && f.distRel <= e.1
               then Then(OverPairs(ctx, axes, f, b, pairs),
                         if b.dist.Some? then Outcome([], true)
                         else Expand(ctx, Without(axes, DIST), f, b.(dist := Some(e))))
               else OverPairs(ctx, axes, f, b, pairs)
  {
    var sofar := Passing(pairs, DistPass(f));
    PassingSnoc(pairs, e, DistPass(f));
    assert WithDists(b, sofar + [e]) == WithDists(b, sofar) + [b.(dist := Some(e))];
    OverNext(ctx, axes, DIST, f, b.dist.Some?, WithDists(b, sofar), b.(dist := Some(e)));
  }
}
