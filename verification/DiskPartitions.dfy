/** `disk_partition_present` of mcp/salt-formulas/salt-formula-maas/_states/maasng.py with
    `create_partition` of the module of the same name: compare the partitions of a disk with a
    schema, or delete all of them and create them again. */
module DiskPartitions {
  import opened Common
  import opened BashText

  datatype Size = Size(value: int, unit: char)

  datatype Entry = Entry(name: string, size: Size, fs: Option<string>, mount: Option<string>)

  datatype Partition = Partition(number: nat, bytes: int, fs: Option<string>, mount: Option<string>)

  datatype Call = Delete(number: nat) | Create(bytes: int, fs: Option<string>, mount: Option<string>)

  /** `busy` partitions cannot be deleted; partitions cannot exceed `capacity` together. */
  datatype Disk = Disk(partitions: seq<Partition>, busy: set<nat>, capacity: int)

  datatype Outcome = Outcome(raised: bool, disk: Disk, calls: seq<Call>)

  /** `None` is the lookup error for a unit without a factor. */
  function Bytes(size: Size): Option<int> {
    if size.unit == 'M' then Some(size.value * 1000000)
    else if size.unit == 'G' then Some(size.value * 1000000000)
    else if size.unit == 'T' then Some(size.value * 1000000000000)
    else None
  }

  /** The last dash-separated word of the name of an entry. */
  function Suffix(name: string): string {
    var words := Split(name, '-');
    words[|words| - 1]
  }

  /** How the server names a partition, after the name of its disk. */
  function PartName(number: nat): string {
    "part" + Decimal(number)
  }

  function Find(partitions: seq<Partition>, suffix: string): Option<Partition> {
    if partitions == [] then None
    else if PartName(partitions[|partitions| - 1].number) == suffix then Some(partitions[|partitions| - 1])
    else Find(partitions[..|partitions| - 1], suffix)
  }

  function Used(partitions: seq<Partition>): int {
    if partitions == [] then 0 else Used(partitions[..|partitions| - 1]) + partitions[|partitions| - 1].bytes
  }

  predicate Sized(schema: seq<Entry>) {
    forall e <- schema :: Bytes(e.size).Some?
  }

  // ----- the server -----

  function WithoutNumber(partitions: seq<Partition>, number: nat): seq<Partition> {
    if partitions == [] then []
    else if partitions[0].number == number then partitions[1..]
    else [partitions[0]] + WithoutNumber(partitions[1..], number)
  }

  function ServeDelete(o: Outcome, number: nat): Outcome {
    var calls := o.calls + [Delete(number)];
    if number in o.disk.busy then Outcome(true, o.disk, calls)
    else Outcome(false, o.disk.(partitions := WithoutNumber(o.disk.partitions, number)), calls)
  }

  /** Partitions are numbered in the order of their creation. */
  function ServeCreate(o: Outcome, bytes: int, fs: Option<string>, mount: Option<string>): Outcome {
    var calls := o.calls + [Create(bytes, fs, mount)];
    var existing := o.disk.partitions;
    if bytes <= 0 || Used(existing) + bytes > o.disk.capacity then Outcome(true, o.disk, calls)
    else Outcome(false, o.disk.(partitions := existing + [Partition(|existing| + 1, bytes, fs, mount)]), calls)
  }

  // ----- the state function -----

  function DeleteAll(o: Outcome, listed: seq<Partition>): Outcome
    decreases |listed|
  {
    if listed == [] || o.raised then o else DeleteAll(ServeDelete(o, listed[0].number), listed[1..])
  }

  function CreateAll(o: Outcome, schema: seq<Entry>): Outcome
    requires Sized(schema)
    decreases |schema|
  {
    if schema == [] || o.raised then o
    else CreateAll(ServeCreate(o, Bytes(schema[0].size).value, schema[0].fs, schema[0].mount), schema[1..])
  }

  function Recreate(disk: Disk, schema: seq<Entry>): Outcome
    requires Sized(schema)
  {
    CreateAll(DeleteAll(Outcome(false, disk, []), disk.partitions), schema)
  }

  /** Only the first entry is compared: the loop over the schema returns or breaks at once. */
  function Present(disk: Disk, schema: seq<Entry>): Outcome {
    if !Sized(schema) then Outcome(true, disk, [])
    else if |disk.partitions| == |schema| && schema != [] then
      var found := Find(disk.partitions, Suffix(schema[0].name));
      if found.None? then Outcome(true, disk, [])
      else if Bytes(schema[0].size) == Some(found.value.bytes) then Outcome(false, disk, [])
      else Recreate(disk, schema)
    else Recreate(disk, schema)
  }

  // ----- the layout asked for -----

  ghost function Layout(schema: seq<Entry>): seq<Partition>
    requires Sized(schema)
  {
    seq(|schema|, i requires 0 <= i < |schema| =>
      Partition(i + 1, Bytes(schema[i].size).value, schema[i].fs, schema[i].mount))
  }

  ghost function Total(schema: seq<Entry>): int
    requires Sized(schema)
  {
    if schema == [] then 0 else Total(schema[..|schema| - 1]) + Bytes(schema[|schema| - 1].size).value
  }

  /** The disk can hold the schema. */
  ghost predicate Fits(schema: seq<Entry>, capacity: int)
    requires Sized(schema)
  {
    && (forall e <- schema :: Bytes(e.size).value > 0)
    && (schema != [] ==> Total(schema) <= capacity)
  }

  ghost predicate Acceptable(schema: seq<Entry>, k: nat, capacity: int)
    requires Sized(schema) && k < |schema|
  {
    Bytes(schema[k].size).value > 0 && Total(schema[..k + 1]) <= capacity
  }

  ghost predicate Idle(disk: Disk) {
    forall x <- disk.partitions :: x.number !in disk.busy
  }

  lemma {:induction false} DeleteAllExactly(o: Outcome)
    requires !o.raised
    ensures var r := DeleteAll(o, o.disk.partitions);
      && (r.raised <==> !Idle(o.disk))
      && r.disk == o.disk.(partitions := r.disk.partitions)
      && (!r.raised ==> r.disk.partitions == [] && |r.calls| == |o.calls| + |o.disk.partitions|)
    decreases |o.disk.partitions|
  {
    var ps := o.disk.partitions;
    if ps != [] {
      assert ps == [ps[0]] + ps[1..];
      var next := ServeDelete(o, ps[0].number);
      if next.raised {
        assert ps[0] in ps;
        assert DeleteAll(next, ps[1..]) == next;
      } else {
        assert next.disk.partitions == ps[1..];
        DeleteAllExactly(next);
        assert Idle(o.disk) <==> Idle(next.disk);
      }
    }
  }

  lemma {:induction false} TotalUsed(schema: seq<Entry>, n: nat)
    requires Sized(schema) && n <= |schema|
    ensures Used(Layout(schema)[..n]) == Total(schema[..n])
  {
    if n > 0 {
      assert schema[..n][..n - 1] == schema[..n - 1] && Layout(schema)[..n][..n - 1] == Layout(schema)[..n - 1];
      TotalUsed(schema, n - 1);
    }
  }

  lemma {:induction false} TotalGrows(schema: seq<Entry>, n: nat)
    requires Sized(schema) && n <= |schema| && forall e <- schema :: Bytes(e.size).value > 0
    ensures Total(schema[..n]) <= Total(schema)
    decreases |schema|
  {
    if n == |schema| {
      assert schema[..n] == schema;
    } else {
      var before := schema[..|schema| - 1];
      assert before[..n] == schema[..n];
      TotalGrows(before, n);
    }
  }

  /** From the first `n` partitions on, creation completes exactly when the rest is acceptable. */
  lemma {:induction false} CreateFrom(o: Outcome, schema: seq<Entry>, n: nat)
    requires Sized(schema) && n <= |schema| && !o.raised
    requires o.disk.partitions == Layout(schema)[..n]
    ensures var r := CreateAll(o, schema[n..]);
      && (!r.raised <==> forall k | n <= k < |schema| :: Acceptable(schema, k, o.disk.capacity))
      && (!r.raised ==> r.disk == o.disk.(partitions := Layout(schema)) && |r.calls| == |o.calls| + |schema| - n)
    decreases |schema| - n
  {
    if n == |schema| {
      assert Layout(schema)[..n] == Layout(schema);
    } else {
      var e := schema[n];
      TotalUsed(schema, n);
      assert schema[..n + 1][..n] == schema[..n];
      assert Total(schema[..n + 1]) == Total(schema[..n]) + Bytes(e.size).value;
      var next := ServeCreate(o, Bytes(e.size).value, e.fs, e.mount);
      assert schema[n..][0] == e && schema[n..][1..] == schema[n + 1..];
      assert next.raised <==> !Acceptable(schema, n, o.disk.capacity);
      if !next.raised {
        assert Layout(schema)[..n + 1] == Layout(schema)[..n] + [Layout(schema)[n]];
        CreateFrom(next, schema, n + 1);
      } else {
        assert CreateAll(next, schema[n + 1..]) == next;
      }
    }
  }

  lemma FitsAtEveryStep(schema: seq<Entry>, capacity: int)
    requires Sized(schema)
    ensures Fits(schema, capacity) <==>
            forall k | 0 <= k < |schema| :: Acceptable(schema, k, capacity)
  {
    if Fits(schema, capacity) {
      forall k | 0 <= k < |schema| ensures Acceptable(schema, k, capacity) {
        TotalGrows(schema, k + 1);
      }
    }
    if forall k | 0 <= k < |schema| :: Acceptable(schema, k, capacity) {
      if schema != [] {
        assert schema[..|schema| - 1 + 1] == schema;
        assert Acceptable(schema, |schema| - 1, capacity);
      }
      forall e <- schema ensures Bytes(e.size).value > 0 {
        var k :| 0 <= k < |schema| && schema[k] == e;
        assert Acceptable(schema, k, capacity);
      }
    }
  }

  /** Deleting and creating again completes exactly for an idle disk that can hold the schema,
      and leaves one partition per entry, in schema order, with the size asked for. */
  lemma RecreateExactly(disk: Disk, schema: seq<Entry>)
    requires Sized(schema)
    ensures !Recreate(disk, schema).raised <==> Idle(disk) && Fits(schema, disk.capacity)
    ensures !Recreate(disk, schema).raised ==>
              && Recreate(disk, schema).disk == disk.(partitions := Layout(schema))
              && |Recreate(disk, schema).calls| == |disk.partitions| + |schema|
  {
    var start := Outcome(false, disk, []);
    DeleteAllExactly(start);
    var cleared := DeleteAll(start, disk.partitions);
    if !cleared.raised {
      assert schema[0..] == schema && Layout(schema)[..0] == [];
      CreateFrom(cleared, schema, 0);
      FitsAtEveryStep(schema, disk.capacity);
    }
  }

  lemma {:induction false} FindInLayout(schema: seq<Entry>, n: nat, suffix: string)
    requires Sized(schema) && n <= |schema|
    ensures var found := Find(Layout(schema)[..n], suffix);
      && (found.None? <==> forall k | 1 <= k <= n :: PartName(k) != suffix)
      && forall k | 1 <= k <= n && PartName(k) == suffix :: found == Some(Layout(schema)[k - 1])
  {
    if n > 0 {
      assert Layout(schema)[..n][..n - 1] == Layout(schema)[..n - 1];
      FindInLayout(schema, n - 1, suffix);
      forall k | 1 <= k < n && PartName(k) == suffix ensures PartName(n) != suffix {
        if PartName(n) == suffix {
          assert Decimal(n) == PartName(n)[4..] == PartName(k)[4..] == Decimal(k);
          DecimalInjective(n, k);
        }
      }
    }
  }

  /** A run over the layout just created issues no call exactly when the first entry is named
      after a partition of its own size (or the schema is empty), and fails on the lookup when it
      is named after none. */
  lemma SecondRunExactly(schema: seq<Entry>, busy: set<nat>, capacity: int)
    requires Sized(schema)
    ensures var again := Present(Disk(Layout(schema), busy, capacity), schema);
      && (again.calls == [] && !again.raised <==>
          schema == [] || exists k :: 1 <= k <= |schema| && PartName(k) == Suffix(schema[0].name)
                                      && Bytes(schema[k - 1].size) == Bytes(schema[0].size))
      && (again.calls == [] ==> again.disk == Disk(Layout(schema), busy, capacity))
      && (again.calls == [] && again.raised <==>
          schema != [] && forall k :: 1 <= k <= |schema| ==> PartName(k) != Suffix(schema[0].name))
  {
    var disk := Disk(Layout(schema), busy, capacity);
    if schema != [] {
      assert Layout(schema)[..|schema|] == Layout(schema);
      var suffix := Suffix(schema[0].name);
      FindInLayout(schema, |schema|, suffix);
      var found := Find(disk.partitions, suffix);
      if found.Some? {
        var k :| 1 <= k <= |schema| && PartName(k) == suffix;
        assert found == Some(Layout(schema)[k - 1]);
        if Bytes(schema[0].size) != Some(found.value.bytes) {
          FirstCall(disk, schema);
          forall j | 1 <= j <= |schema| && PartName(j) == suffix
            ensures Bytes(schema[j - 1].size) != Bytes(schema[0].size)
          {
            assert found == Some(Layout(schema)[j - 1]);
          }
        }
      }
    }
  }

  lemma FirstCall(disk: Disk, schema: seq<Entry>)
    requires Sized(schema) && disk.partitions != []
    ensures Recreate(disk, schema).calls != []
  {
    CallsOnlyGrow(ServeDelete(Outcome(false, disk, []), disk.partitions[0].number), disk.partitions[1..], schema);
  }

  lemma {:induction false} CallsOnlyGrow(o: Outcome, listed: seq<Partition>, schema: seq<Entry>)
    requires Sized(schema)
    ensures |CreateAll(DeleteAll(o, listed), schema).calls| >= |o.calls|
    decreases |listed| + |schema|
  {
    if !o.raised {
      if listed != [] {
        CallsOnlyGrow(ServeDelete(o, listed[0].number), listed[1..], schema);
      } else if schema != [] {
        var next := ServeCreate(o, Bytes(schema[0].size).value, schema[0].fs, schema[0].mount);
        CallsOnlyGrow(next, [], schema[1..]);
        assert DeleteAll(next, []) == next;
      }
    }
  }

  /** A schema whose first entry is called `part1` is stable after one recreation. */
  lemma InOrderIsStable(disk: Disk, schema: seq<Entry>)
    requires Sized(schema) && schema != [] && Suffix(schema[0].name) == "part1"
    requires !Recreate(disk, schema).raised
    ensures var r := Recreate(disk, schema).disk; Present(r, schema) == Outcome(false, r, [])
  {
    RecreateExactly(disk, schema);
    assert PartName(1) == "part1" by { assert Decimal(1) == "1"; }
    SecondRunExactly(schema, disk.busy, disk.capacity);
    assert Bytes(schema[1 - 1].size) == Bytes(schema[0].size);
  }

  /** What the loop of the comparison returns early on: as many partitions as entries, and the
      first entry names a partition of its own size. */
  predicate Skips(disk: Disk, schema: seq<Entry>) {
    && |disk.partitions| == |schema| && schema != []
    && var found := Find(disk.partitions, Suffix(schema[0].name));
      found.Some? && Bytes(schema[0].size) == Some(found.value.bytes)
  }

  /** The lookup of the first entry, made when the numbers agree, succeeds. */
  predicate FirstIsListed(disk: Disk, schema: seq<Entry>) {
    |disk.partitions| == |schema| && schema != [] ==> Find(disk.partitions, Suffix(schema[0].name)).Some?
  }

  /** From any disk, the state ends with the layout asked for exactly when it either skips over a
      disk that has it already, or can look up, delete and create. */
  lemma ReachesLayoutExactly(disk: Disk, schema: seq<Entry>)
    requires Sized(schema)
    ensures var r := Present(disk, schema);
      !r.raised && r.disk.partitions == Layout(schema) <==>
      if Skips(disk, schema) then disk.partitions == Layout(schema)
      else FirstIsListed(disk, schema) && Idle(disk) && Fits(schema, disk.capacity)
  {
    RecreateExactly(disk, schema);
  }

  /** The state reports success over a wrong layout exactly when it skips over one, whatever is
      wrong with the other partitions; the disk is then as it was. */
  lemma UnnoticedExactly(disk: Disk, schema: seq<Entry>)
    requires Sized(schema)
    ensures var r := Present(disk, schema);
      && (!r.raised && r.disk.partitions != Layout(schema) <==>
          Skips(disk, schema) && disk.partitions != Layout(schema))
      && (!r.raised && r.disk.partitions != Layout(schema) ==> r == Outcome(false, disk, []))
  {
    RecreateExactly(disk, schema);
  }

  /** Such a disk: the comparison of the first entry hides a wrong size of the second. */
  lemma UnnoticedMismatch()
    ensures var schema := [Entry("part1", Size(10, 'G'), None, None), Entry("part2", Size(2, 'G'), None, None)];
      var disk := Disk([Partition(1, 10000000000, None, None), Partition(2, 3000000000, None, None)], {}, 20000000000);
      && Skips(disk, schema) && disk.partitions != Layout(schema)
      && Present(disk, schema) == Outcome(false, disk, [])
  {
    var schema := [Entry("part1", Size(10, 'G'), None, None), Entry("part2", Size(2, 'G'), None, None)];
    var p1, p2 := Partition(1, 10000000000, None, None), Partition(2, 3000000000, None, None);
    SplitWithoutSeparator("part1", '-');
    assert Decimal(1) == "1" && Decimal(2) == "2";
    assert PartName(2)[4] == '2' && PartName(1) == "part1";
    assert [p1, p2][..1] == [p1];
    assert Find([p1], "part1") == Some(p1);
    assert Find([p1, p2], "part1") == Some(p1);
    assert Layout(schema)[1].bytes == 2000000000;
  }

  // ----- sizes and names -----

  /** The units are powers of a thousand bytes, and there are three of them. */
  lemma UnitsOfAThousand(value: int, unit: char)
    ensures Bytes(Size(value, 'M')) == Some(1000 * 1000 * value)
    ensures Bytes(Size(value, 'G')) == Bytes(Size(1000 * value, 'M'))
    ensures Bytes(Size(value, 'T')) == Bytes(Size(1000 * value, 'G'))
    ensures unit !in {'M', 'G', 'T'} ==> Bytes(Size(value, unit)) == None
  {
  }

  /** What counts of the name of an entry is what follows its last dash. */
  lemma SuffixExactly(words: seq<string>)
    requires words != [] && Free(words, '-')
    ensures Suffix(Join(words, '-')) == words[|words| - 1]
  {
    SplitJoin(words, '-');
    SuffixIsLast(Join(words, '-'), words);
  }

  lemma SuffixIsLast(name: string, words: seq<string>)
    requires words != [] && Split(name, '-') == words
    ensures Suffix(name) == words[|words| - 1]
  {
  }

  /** A partition is found under its number, written in decimal; of several, the last one listed. */
  lemma {:induction false} FindIsLast(partitions: seq<Partition>, suffix: string)
    ensures Find(partitions, suffix) == None <==> forall x <- partitions :: suffix != "part" + Decimal(x.number)
    ensures forall i | 0 <= i < |partitions| && suffix == "part" + Decimal(partitions[i].number) ::
              (forall j | i < j < |partitions| :: suffix != "part" + Decimal(partitions[j].number)) ==>
                Find(partitions, suffix) == Some(partitions[i])
  {
    if partitions != [] {
      var n := |partitions| - 1;
      var front := partitions[..n];
      assert partitions == front + [partitions[n]];
      FindIsLast(front, suffix);
      forall i | 0 <= i < n && suffix == "part" + Decimal(partitions[i].number)
                 && forall j | i < j < |partitions| :: suffix != "part" + Decimal(partitions[j].number)
        ensures Find(partitions, suffix) == Some(partitions[i])
      {
        assert front[i] == partitions[i] && suffix != "part" + Decimal(partitions[n].number);
        forall j | i < j < n ensures suffix != "part" + Decimal(front[j].number) { assert front[j] == partitions[j]; }
      }
    }
  }

  /** The outcome on a device whose log already holds the calls `before`. */
  function WithCalls(before: seq<Call>, o: Outcome): Outcome {
    o.(calls := before + o.calls)
  }

  lemma {:induction false} DeleteAllLogs(before: seq<Call>, o: Outcome, listed: seq<Partition>)
    ensures DeleteAll(WithCalls(before, o), listed) == WithCalls(before, DeleteAll(o, listed))
    decreases |listed|
  {
    if listed != [] && !o.raised {
      var next := ServeDelete(o, listed[0].number);
      assert ServeDelete(WithCalls(before, o), listed[0].number) == WithCalls(before, next) by {
        Associative(before, o.calls, [Delete(listed[0].number)]);
      }
      DeleteAllLogs(before, next, listed[1..]);
    }
  }

  lemma {:induction false} CreateAllLogs(before: seq<Call>, o: Outcome, schema: seq<Entry>)
    requires Sized(schema)
    ensures CreateAll(WithCalls(before, o), schema) == WithCalls(before, CreateAll(o, schema))
    decreases |schema|
  {
    if schema != [] && !o.raised {
      var e := schema[0];
      var next := ServeCreate(o, Bytes(e.size).value, e.fs, e.mount);
      assert ServeCreate(WithCalls(before, o), Bytes(e.size).value, e.fs, e.mount) == WithCalls(before, next) by {
        Associative(before, o.calls, [Create(Bytes(e.size).value, e.fs, e.mount)]);
      }
      CreateAllLogs(before, next, schema[1..]);
    }
  }

  lemma RecreateLogs(before: seq<Call>, disk: Disk, schema: seq<Entry>)
    requires Sized(schema)
    ensures CreateAll(DeleteAll(Outcome(false, disk, before), disk.partitions), schema)
            == WithCalls(before, Recreate(disk, schema))
  {
    var start := Outcome(false, disk, []);
    assert WithCalls(before, start) == Outcome(false, disk, before);
    DeleteAllLogs(before, start, disk.partitions);
    CreateAllLogs(before, DeleteAll(start, disk.partitions), schema);
  }

  // ----- what a run does call by call -----

  /** The requests to delete partitions, up to the first one that is in use. */
  ghost function Deletions(ps: seq<Partition>, busy: set<nat>): seq<Call> {
    if ps == [] then []
    else [Delete(ps[0].number)] + if ps[0].number in busy then [] else Deletions(ps[1..], busy)
  }

  /** The partitions from the first one on that is in use. */
  ghost function FromBusy(ps: seq<Partition>, busy: set<nat>): seq<Partition> {
    if ps == [] || ps[0].number in busy then ps else FromBusy(ps[1..], busy)
  }

  ghost function Creations(schema: seq<Entry>): seq<Call>
    requires Sized(schema)
  {
    seq(|schema|, k requires 0 <= k < |schema| => Create(Bytes(schema[k].size).value, schema[k].fs, schema[k].mount))
  }

  /** The first entry from the n-th on that is empty or does not fit with those before it. */
  ghost function FirstUnfit(schema: seq<Entry>, n: nat, capacity: int): (m: nat)
    requires Sized(schema) && n <= |schema|
    ensures n <= m <= |schema|
    ensures forall k | n <= k < m :: Acceptable(schema, k, capacity)
    ensures m < |schema| ==> !Acceptable(schema, m, capacity)
    decreases |schema| - n
  {
    if n == |schema| || !Acceptable(schema, n, capacity) then n else FirstUnfit(schema, n + 1, capacity)
  }

  ghost function Upto(m: nat, n: nat): nat {
    if m < n then m + 1 else n
  }

  lemma {:induction false} DeleteAllCalls(disk: Disk)
    ensures DeleteAll(Outcome(false, disk, []), disk.partitions)
            == Outcome(!Idle(disk), disk.(partitions := FromBusy(disk.partitions, disk.busy)),
                       Deletions(disk.partitions, disk.busy))
    decreases |disk.partitions|
  {
    var ps := disk.partitions;
    if ps != [] {
      assert ps == [ps[0]] + ps[1..];
      var start := Outcome(false, disk, []);
      var next := ServeDelete(start, ps[0].number);
      assert [] + [Delete(ps[0].number)] == [Delete(ps[0].number)];
      if next.raised {
        assert DeleteAll(next, ps[1..]) == next;
      } else {
        var rest := disk.(partitions := ps[1..]);
        assert next == WithCalls([Delete(ps[0].number)], Outcome(false, rest, []));
        DeleteAllLogs([Delete(ps[0].number)], Outcome(false, rest, []), ps[1..]);
        DeleteAllCalls(rest);
        assert Idle(disk) <==> Idle(rest);
      }
    }
  }

  lemma {:induction false} CreateCalls(disk: Disk, schema: seq<Entry>, n: nat)
    requires Sized(schema) && n <= |schema| && disk.partitions == Layout(schema)[..n]
    ensures var m := FirstUnfit(schema, n, disk.capacity);
      CreateAll(Outcome(false, disk, []), schema[n..])
      == Outcome(m < |schema|, disk.(partitions := Layout(schema)[..m]), Creations(schema)[n..Upto(m, |schema|)])
    decreases |schema| - n
  {
    if n < |schema| {
      var e, start := schema[n], Outcome(false, disk, []);
      var c := Create(Bytes(e.size).value, e.fs, e.mount);
      CreateOne(disk, schema, n);
      assert schema[n..][0] == e && schema[n..][1..] == schema[n + 1..];
      var next := ServeCreate(start, Bytes(e.size).value, e.fs, e.mount);
      if next.raised {
        assert CreateAll(next, schema[n + 1..]) == next;
        assert Creations(schema)[n..n + 1] == [c];
      } else {
        UnfitLater(schema, n, disk.capacity);
        var grown := disk.(partitions := Layout(schema)[..n + 1]);
        assert next == WithCalls([c], Outcome(false, grown, []));
        CreateAllLogs([c], Outcome(false, grown, []), schema[n + 1..]);
        CreateCalls(grown, schema, n + 1);
        var m := FirstUnfit(schema, n + 1, disk.capacity);
        CreationsFrom(schema, n, Upto(m, |schema|));
      }
    }
  }

  lemma UnfitLater(schema: seq<Entry>, n: nat, capacity: int)
    requires Sized(schema) && n < |schema| && Acceptable(schema, n, capacity)
    ensures FirstUnfit(schema, n, capacity) == FirstUnfit(schema, n + 1, capacity)
  {
  }

  lemma CreateOne(disk: Disk, schema: seq<Entry>, n: nat)
    requires Sized(schema) && n < |schema| && disk.partitions == Layout(schema)[..n]
    ensures var e := schema[n];
      var c := Create(Bytes(e.size).value, e.fs, e.mount);
      ServeCreate(Outcome(false, disk, []), Bytes(e.size).value, e.fs, e.mount)
      == if Acceptable(schema, n, disk.capacity) then Outcome(false, disk.(partitions := Layout(schema)[..n + 1]), [c])
         else Outcome(true, disk, [c])
  {
    TotalUsed(schema, n);
    assert schema[..n + 1][..n] == schema[..n];
    assert Layout(schema)[..n + 1] == Layout(schema)[..n] + [Layout(schema)[n]];
  }

  lemma CreationsFrom(schema: seq<Entry>, n: nat, end: nat)
    requires Sized(schema) && n < end <= |schema|
    ensures Creations(schema)[n..end]
            == [Create(Bytes(schema[n].size).value, schema[n].fs, schema[n].mount)] + Creations(schema)[n + 1..end]
  {
  }

  lemma {:induction false} IdleDeletes(ps: seq<Partition>, busy: set<nat>)
    requires forall x <- ps :: x.number !in busy
    ensures FromBusy(ps, busy) == []
  {
    if ps != [] {
      assert ps == [ps[0]] + ps[1..];
      IdleDeletes(ps[1..], busy);
    }
  }

  /** A recreation call by call: the partitions are deleted in order up to the first one in use, and
      with none in use the entries are created in order up to the first unfit one. What was not
      reached is as it was, and nothing is undone. */
  lemma RecreateCalls(disk: Disk, schema: seq<Entry>)
    requires Sized(schema)
    ensures var ps, m := disk.partitions, FirstUnfit(schema, 0, disk.capacity);
      Recreate(disk, schema)
      == if !Idle(disk) then Outcome(true, disk.(partitions := FromBusy(ps, disk.busy)), Deletions(ps, disk.busy))
         else Outcome(m < |schema|, disk.(partitions := Layout(schema)[..m]),
                      Deletions(ps, disk.busy) + Creations(schema)[..Upto(m, |schema|)])
  {
    DeleteAllCalls(disk);
    if Idle(disk) {
      IdleDeletes(disk.partitions, disk.busy);
      var cleared, deletions := disk.(partitions := []), Deletions(disk.partitions, disk.busy);
      assert Outcome(false, cleared, deletions) == WithCalls(deletions, Outcome(false, cleared, []));
      CreateAllLogs(deletions, Outcome(false, cleared, []), schema);
      assert schema[0..] == schema && Layout(schema)[..0] == [];
      CreateCalls(cleared, schema, 0);
    }
  }

  /** Before anything is deleted, an unknown unit or an entry that names no partition of a disk with
      the right number of them ends the state without a call. */
  lemma EndsBeforeCalls(disk: Disk, schema: seq<Entry>)
    requires (exists e <- schema :: e.size.unit !in {'M', 'G', 'T'}) || !FirstIsListed(disk, schema)
    ensures Present(disk, schema) == Outcome(true, disk, [])
  {
    if e :| e in schema && e.size.unit !in {'M', 'G', 'T'} { UnitsOfAThousand(e.size.value, e.size.unit); }
  }

  // ----- the code as written -----

  class BlockDevice {
    var disk: Disk
    var calls: seq<Call>

    constructor (disk: Disk)
      ensures this.disk == disk && calls == []
    {
      this.disk, calls := disk, [];
    }

    method DeletePartition(number: nat) returns (ok: bool)
      modifies this
      ensures Outcome(!ok, disk, calls) == ServeDelete(Outcome(false, old(disk), old(calls)), number)
    {
      var o := ServeDelete(Outcome(false, disk, calls), number);
      disk, calls, ok := o.disk, o.calls, !o.raised;
    }

    /** A size without a known unit fails before any call; otherwise the call is made, and the
        partition added as the last one if it is not empty and fits into what is left. */
    method CreatePartition(size: Size, fs: Option<string>, mount: Option<string>) returns (ok: bool)
      modifies this
      ensures ok <==> Bytes(size).Some? && 0 < Bytes(size).value <= disk.capacity - Used(old(disk.partitions))
      ensures calls == old(calls) + if Bytes(size).None? then [] else [Create(Bytes(size).value, fs, mount)]
      ensures disk == old(disk).(partitions := disk.partitions)
      ensures disk.partitions
              == old(disk.partitions)
              + if ok then [Partition(|old(disk.partitions)| + 1, Bytes(size).value, fs, mount)] else []
    {
      var bytes := Bytes(size);
      if bytes.None? { return false; }
      var o := ServeCreate(Outcome(false, disk, calls), bytes.value, fs, mount);
      disk, calls, ok := o.disk, o.calls, !o.raised;
    }

    method ListPartitions() returns (byName: map<string, Partition>)
      ensures forall s :: (if s in byName then Some(byName[s]) else None) == Find(disk.partitions, s)
    {
      byName := map[];
      var ps := disk.partitions;
      for i := 0 to |ps|
        invariant forall s :: (if s in byName then Some(byName[s]) else None) == Find(ps[..i], s)
      {
        assert ps[..i + 1][..i] == ps[..i];
        byName := byName[PartName(ps[i].number) := ps[i]];
      }
      assert ps[..|ps|] == ps;
    }

    method DiskPartitionPresent(schema: seq<Entry>) returns (ok: bool)
      modifies this
      ensures Outcome(!ok, disk, calls) == WithCalls(old(calls), Present(old(disk), schema))
    {
      var partitions := ListPartitions();
      var calcSize: seq<int> := [];
      for i := 0 to |schema|
        invariant |calcSize| == i
        invariant forall k :: 0 <= k < i ==> Bytes(schema[k].size) == Some(calcSize[k])
      {
        var bytes := Bytes(schema[i].size);
        if bytes.None? {
          assert schema[i] in schema;
          return false;
        }
        calcSize := calcSize + [bytes.value];
      }
      if |disk.partitions| == |schema| && schema != [] {
        var key := Suffix(schema[0].name);
        assert (if key in partitions then Some(partitions[key]) else None) == Find(disk.partitions, key);
        if key !in partitions { return false; }
        if calcSize[0] == partitions[key].bytes { return true; }
      }
      ok := DeleteThenCreate(schema);
    }

    method DeleteThenCreate(schema: seq<Entry>) returns (ok: bool)
      requires Sized(schema)
      modifies this
      ensures Outcome(!ok, disk, calls) == WithCalls(old(calls), Recreate(old(disk), schema))
    {
      RecreateLogs(calls, disk, schema);
      var listed := disk.partitions;
      ok := true;
      var i := 0;
      while i < |listed| && ok
        invariant i <= |listed|
        invariant DeleteAll(Outcome(false, old(disk), old(calls)), listed)
                  == DeleteAll(Outcome(!ok, disk, calls), listed[i..])
      {
        assert listed[i..][1..] == listed[i + 1..];
        ok := DeletePartition(listed[i].number);
        i := i + 1;
      }
      ghost var cleared := Outcome(!ok, disk, calls);
      assert cleared == DeleteAll(Outcome(false, old(disk), old(calls)), listed);
      i := 0;
      while i < |schema| && ok
        invariant i <= |schema|
        invariant CreateAll(cleared, schema) == CreateAll(Outcome(!ok, disk, calls), schema[i..])
      {
        assert schema[i..][1..] == schema[i + 1..];
        assert schema[i] in schema;
        ghost var o := Outcome(false, disk, calls);
        ok := CreatePartition(schema[i].size, schema[i].fs, schema[i].mount);
        assert Outcome(!ok, disk, calls)
               == ServeCreate(o, Bytes(schema[i].size).value, schema[i].fs, schema[i].mount);
        i := i + 1;
      }
      assert Outcome(!ok, disk, calls) == CreateAll(cleared, schema);
    }
  }
}
