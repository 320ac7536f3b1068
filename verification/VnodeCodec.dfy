/** Virtual nodes travel from the deployment description to the jump host as one string:
    `serialize_vnodes` of mcp/scripts/xdf_data.sh.j2 writes it, `create_vms` of
    mcp/scripts/lib_jump_deploy.sh takes it apart. */
module VnodeCodec {
  import opened Common
  import opened BashText

  datatype Cell = Cell(name: string, memory: string, cpus: string)

  datatype Topology = Topology(sockets: string, cores: string, threads: string)

  /** A node of `conf.virtual`; empty values fall back to the defaults of the architecture. */
  datatype Vnode = Vnode(
    name: string, disks: string, ram: string, vcpus: string, topology: Option<Topology>, numa: seq<Cell>)

  datatype Defaults = Defaults(disks: string, ram: string, vcpus: string)

  // ----- serialize_vnodes -----

  function PackCell(c: Cell): string {
    Pack([c.name, c.memory, c.cpus], ',')
  }

  /** The text collected so far under `s_numa`; each cell goes in front of the ones before it. */
  function Collect(acc: Option<string>, cells: seq<Cell>): Option<string> {
    if cells == [] then acc
    else
      var before := Collect(acc, cells[..|cells| - 1]);
      var c := PackCell(cells[|cells| - 1]);
      Some(if before.None? then c else Pack([c, before.value], ','))
  }

  function Or(value: string, default: string): string {
    if value != "" then value else default
  }

  function HasTopology(v: Vnode, plain: bool): bool {
    v.topology.Some? && !plain
  }

  function Lookup(sNuma: map<string, string>, name: string): Option<string> {
    if name in sNuma then Some(sNuma[name]) else None
  }

  /** `plain` is the switch for deployments without CPU topology. */
  function Collected(v: Vnode, plain: bool, sNuma: map<string, string>): map<string, string> {
    if !HasTopology(v, plain) then sNuma
    else
      var s := Collect(Lookup(sNuma, v.name), v.numa);
      if s.None? then sNuma else sNuma[v.name := s.value]
  }

  function TopologyField(v: Vnode, plain: bool, sNuma: map<string, string>): string {
    if !HasTopology(v, plain) then ""
    else
      var t := v.topology.value;
      Pack([t.sockets, t.cores, t.threads, if v.name in sNuma then sNuma[v.name] else ""], ',')
  }

  function Line(v: Vnode, d: Defaults, plain: bool, sNuma: map<string, string>): string {
    Pack([v.name, Or(v.disks, d.disks), Or(v.ram, d.ram), Or(v.vcpus, d.vcpus), TopologyField(v, plain, sNuma)], ',')
  }

  datatype Acc = Acc(lines: seq<string>, sNuma: map<string, string>)

  function Lines(nodes: seq<Vnode>, d: Defaults, plain: bool): Acc {
    if nodes == [] then Acc([], map[])
    else
      var before := Lines(nodes[..|nodes| - 1], d, plain);
      var v := nodes[|nodes| - 1];
      var sNuma := Collected(v, plain, before.sNuma);
      Acc(before.lines + [Line(v, d, plain, sNuma)], sNuma)
  }

  function Serialize(nodes: seq<Vnode>, d: Defaults, plain: bool): string {
    Pack(Lines(nodes, d, plain).lines, '|')
  }

  // ----- create_vms -----

  datatype Vm = Vm(name: string, disks: seq<string>, ram: string, vcpus: string,
                   topology: Option<Topology>, numa: seq<Cell>)

  /** The loop over the fields from index 7 on, three at a time. */
  function ReadCells(data: seq<string>, idx: nat): seq<Cell>
    decreases |data| - idx
  {
    if At(data, idx) == "" then []
    else [Cell(At(data, idx), At(data, idx + 1), At(data, idx + 2))] + ReadCells(data, idx + 3)
  }

  function ReadVm(line: string): Vm {
    var data := ReadArray(line, ',');
    Vm(At(data, 0), ReadArray(At(data, 1), ';'), At(data, 2), At(data, 3),
       if At(data, 6) == "" then None else Some(Topology(At(data, 4), At(data, 5), At(data, 6))),
       ReadCells(data, 7))
  }

  function ReadLines(lines: seq<string>): seq<Vm> {
    if lines == [] then []
    else ReadLines(lines[..|lines| - 1]) + if lines[|lines| - 1] == "" then [] else [ReadVm(lines[|lines| - 1])]
  }

  function Deserialize(text: string): seq<Vm> {
    ReadLines(ReadArray(text, '|'))
  }

  // ----- what must arrive -----

  /** Non-empty and free of every separator in use. */
  ghost predicate Atom(s: string) {
    s != "" && ',' !in s && '|' !in s && ' ' !in s
  }

  /** Every value given is an atom, and so is the default of every value that is not given. */
  ghost predicate Plain(v: Vnode, d: Defaults) {
    && Atom(v.name)
    && Atom(if v.disks == "" then d.disks else v.disks)
    && Atom(if v.ram == "" then d.ram else v.ram)
    && Atom(if v.vcpus == "" then d.vcpus else v.vcpus)
    && (v.topology.Some? ==>
          Atom(v.topology.value.sockets) && Atom(v.topology.value.cores) && Atom(v.topology.value.threads))
    && forall c <- v.numa :: Atom(c.name) && Atom(c.memory) && Atom(c.cpus)
  }

  ghost function Reversed<T>(s: seq<T>): seq<T> {
    if s == [] then [] else [s[|s| - 1]] + Reversed(s[..|s| - 1])
  }

  /** Missing values arrive as the defaults; topology and NUMA cells only where both are in use,
      and the cells last first. */
  ghost function Expected(v: Vnode, d: Defaults, plain: bool): Vm {
    Vm(v.name, ReadArray(if v.disks == "" then d.disks else v.disks, ';'),
       if v.ram == "" then d.ram else v.ram,
       if v.vcpus == "" then d.vcpus else v.vcpus,
       if plain then None else v.topology,
       if plain || v.topology == None then [] else Reversed(v.numa))
  }

  // ----- proofs -----

  ghost function CellFields(cells: seq<Cell>): seq<string> {
    if cells == [] then [] else [cells[0].name, cells[0].memory, cells[0].cpus] + CellFields(cells[1..])
  }

  lemma {:induction false} ReversedMembers<T>(s: seq<T>)
    ensures forall x :: x in Reversed(s) <==> x in s
  {
    if s != [] {
      ReversedMembers(s[..|s| - 1]);
      assert s == s[..|s| - 1] + [s[|s| - 1]];
    }
  }

  ghost predicate Atoms(list: seq<string>) {
    forall s <- list :: Atom(s)
  }

  lemma {:induction false} CellFieldsAtoms(cells: seq<Cell>)
    requires forall c <- cells :: Atom(c.name) && Atom(c.memory) && Atom(c.cpus)
    ensures Atoms(CellFields(cells))
    ensures cells != [] ==> CellFields(cells) != []
  {
    if cells != [] {
      assert cells[0] in cells;
      CellFieldsAtoms(cells[1..]);
    }
  }

  /** The collected text is the fields of all cells in line, last cell first. */
  lemma {:induction false} CollectJoins(cells: seq<Cell>)
    requires forall c <- cells :: Atom(c.name) && Atom(c.memory) && Atom(c.cpus)
    ensures Collect(None, cells) == if cells == [] then None else Some(Join(CellFields(Reversed(cells)), ','))
  {
    if cells != [] {
      var before, c := cells[..|cells| - 1], cells[|cells| - 1];
      var fields := [c.name, c.memory, c.cpus];
      assert c in cells;
      CollectJoins(before);
      PackWithoutBlanks(fields, ',');
      assert Reversed(cells)[1..] == Reversed(before);
      if before == [] {
        assert CellFields(Reversed(cells)) == fields;
      } else {
        ReversedMembers(before);
        assert Reversed(before) != [];
        var rest := CellFields(Reversed(before));
        CellFieldsAtoms(Reversed(before));
        var both := [Join(fields, ','), Join(rest, ',')];
        JoinFreeOf(fields, ',', ' ');
        JoinFreeOf(rest, ',', ' ');
        PackWithoutBlanks(both, ',');
        assert both == [Join(fields, ',')] + [Join(rest, ',')];
        JoinFirst(fields, [Join(rest, ',')], ',');
        JoinLast(fields, rest, ',');
      }
    }
  }

  /** All fields of a line, in the order written. */
  ghost function Fields(v: Vnode, d: Defaults, plain: bool): seq<string> {
    [v.name, Or(v.disks, d.disks), Or(v.ram, d.ram), Or(v.vcpus, d.vcpus)]
    + if !HasTopology(v, plain) then [""]
      else [v.topology.value.sockets, v.topology.value.cores, v.topology.value.threads]
           + if v.numa == [] then [""] else CellFields(Reversed(v.numa))
  }

  lemma FieldsFree(v: Vnode, d: Defaults, plain: bool)
    requires Plain(v, d)
    ensures Free(Fields(v, d, plain), ',') && Free(Fields(v, d, plain), ' ') && Free(Fields(v, d, plain), '|')
  {
    FieldsAtoms(v, d, plain);
    forall f <- Fields(v, d, plain) ensures ',' !in f && ' ' !in f && '|' !in f {
      assert f == "" || Atom(f);
    }
  }

  lemma FieldsAtoms(v: Vnode, d: Defaults, plain: bool)
    requires Plain(v, d)
    ensures forall f <- Fields(v, d, plain) :: f == "" || Atom(f)
  {
    ReversedMembers(v.numa);
    CellFieldsAtoms(Reversed(v.numa));
  }

  lemma TopologyFieldJoins(v: Vnode, d: Defaults, plain: bool, sNuma: map<string, string>)
    requires Plain(v, d) && HasTopology(v, plain)
    requires Lookup(sNuma, v.name) == Collect(None, v.numa)
    ensures TopologyField(v, plain, sNuma) == Join(Fields(v, d, plain)[4..], ',')
    ensures ' ' !in TopologyField(v, plain, sNuma)
  {
    var t := v.topology.value;
    var head := [t.sockets, t.cores, t.threads];
    var tail := if v.numa == [] then [""] else CellFields(Reversed(v.numa));
    CollectJoins(v.numa);
    ReversedMembers(v.numa);
    CellFieldsAtoms(Reversed(v.numa));
    assert v.numa != [] ==> Reversed(v.numa) != [];
    assert Join([""], ',') == "";
    var last := Join(tail, ',');
    assert [t.sockets, t.cores, t.threads, last] == head + [last];
    JoinFreeOf(tail, ',', ' ');
    PackWithoutBlanks(head + [last], ',');
    JoinLast(head, tail, ',');
    assert Fields(v, d, plain)[4..] == head + tail;
    JoinFreeOf(head + tail, ',', ' ');
  }

  lemma LineJoins(v: Vnode, d: Defaults, plain: bool, sNuma: map<string, string>)
    requires Plain(v, d) && (HasTopology(v, plain) ==> Lookup(sNuma, v.name) == Collect(None, v.numa))
    ensures Line(v, d, plain, sNuma) == Join(Fields(v, d, plain), ',')
  {
    var head := [v.name, Or(v.disks, d.disks), Or(v.ram, d.ram), Or(v.vcpus, d.vcpus)];
    var fields := Fields(v, d, plain);
    FieldsFree(v, d, plain);
    if HasTopology(v, plain) {
      TopologyFieldJoins(v, d, plain, sNuma);
      var topo := Join(fields[4..], ',');
      assert [v.name, Or(v.disks, d.disks), Or(v.ram, d.ram), Or(v.vcpus, d.vcpus), topo] == head + [topo];
      PackWithoutBlanks(head + [topo], ',');
      JoinLast(head, fields[4..], ',');
      assert head + fields[4..] == fields;
    } else {
      assert fields == [v.name, Or(v.disks, d.disks), Or(v.ram, d.ram), Or(v.vcpus, d.vcpus), ""];
      PackWithoutBlanks(fields, ',');
    }
  }

  lemma {:induction false} CellsRead(data: seq<string>, idx: nat, cells: seq<Cell>)
    requires idx <= |data| && data[idx..] == CellFields(cells)
    requires forall c <- cells :: Atom(c.name)
    ensures ReadCells(data, idx) == cells
    decreases |cells|
  {
    if cells != [] {
      var c := cells[0];
      assert c in cells;
      assert data[idx..][0] == c.name && data[idx..][1] == c.memory && data[idx..][2] == c.cpus;
      assert data[idx..][3..] == data[idx + 3..] == CellFields(cells[1..]);
      CellsRead(data, idx + 3, cells[1..]);
    }
  }

  /** What the decoder makes of the fields of a node. */
  lemma FieldsRead(v: Vnode, d: Defaults, plain: bool, data: seq<string>)
    requires Plain(v, d) && data == Trimmed(Fields(v, d, plain))
    ensures [At(data, 0), At(data, 1), At(data, 2), At(data, 3)]
            == [v.name, Or(v.disks, d.disks), Or(v.ram, d.ram), Or(v.vcpus, d.vcpus)]
    ensures HasTopology(v, plain) ==>
              Topology(At(data, 4), At(data, 5), At(data, 6)) == v.topology.value && At(data, 6) != ""
    ensures !HasTopology(v, plain) ==> At(data, 6) == "" && |data| == 4
  {
    var fields := Fields(v, d, plain);
    if HasTopology(v, plain) { LastField(v, d, plain); }
  }

  lemma LastField(v: Vnode, d: Defaults, plain: bool)
    requires Plain(v, d) && HasTopology(v, plain)
    ensures Trimmed(Fields(v, d, plain))
            == Fields(v, d, plain)[..7] + if v.numa == [] then [] else CellFields(Reversed(v.numa))
  {
    var seven := Fields(v.(numa := []), d, plain)[..7];
    SevenFields(v, d, plain);
    if v.numa != [] {
      ReversedMembers(v.numa);
      CellFieldsAtoms(Reversed(v.numa));
      assert v.numa[0] in Reversed(v.numa);
      var tail := CellFields(Reversed(v.numa));
      assert tail[|tail| - 1] in tail;
      TrimmedFull(seven, tail);
    } else {
      assert Trimmed(seven + [""]) == seven + [];
    }
  }

  lemma SevenFields(v: Vnode, d: Defaults, plain: bool)
    requires HasTopology(v, plain)
    ensures var seven := Fields(v.(numa := []), d, plain)[..7];
      && Fields(v, d, plain) == seven + (if v.numa == [] then [""] else CellFields(Reversed(v.numa)))
      && Fields(v, d, plain)[..7] == seven
  {
  }

  lemma TrimmedFull(a: seq<string>, b: seq<string>)
    requires b != [] && b[|b| - 1] != ""
    ensures Trimmed(a + b) == a + b
  {
  }

  lemma FieldsCells(v: Vnode, d: Defaults, plain: bool, data: seq<string>)
    requires Plain(v, d) && data == Trimmed(Fields(v, d, plain))
    ensures ReadCells(data, 7) == if HasTopology(v, plain) then Reversed(v.numa) else []
  {
    if HasTopology(v, plain) {
      LastField(v, d, plain);
      ReversedMembers(v.numa);
      assert |Fields(v, d, plain)| >= 7;
      assert data[7..] == CellFields(Reversed(v.numa));
      CellsRead(data, 7, Reversed(v.numa));
    } else {
      FieldsRead(v, d, plain, data);
    }
  }

  lemma LineRoundTrip(v: Vnode, d: Defaults, plain: bool)
    requires Plain(v, d)
    ensures ReadVm(Join(Fields(v, d, plain), ',')) == Expected(v, d, plain)
  {
    var fields := Fields(v, d, plain);
    FieldsFree(v, d, plain);
    ReadJoin(fields, ',');
    var data := Trimmed(fields);
    FieldsRead(v, d, plain, data);
    FieldsCells(v, d, plain, data);
    FirstFour(v, d, plain, data);
    VmRead(Join(fields, ','), data);
  }

  lemma FirstFour(v: Vnode, d: Defaults, plain: bool, data: seq<string>)
    requires Plain(v, d) && data == Trimmed(Fields(v, d, plain))
    ensures At(data, 0) == v.name
    ensures At(data, 1) == if v.disks == "" then d.disks else v.disks
    ensures At(data, 2) == if v.ram == "" then d.ram else v.ram
    ensures At(data, 3) == if v.vcpus == "" then d.vcpus else v.vcpus
  {
    FieldsRead(v, d, plain, data);
    var quad := [At(data, 0), At(data, 1), At(data, 2), At(data, 3)];
    assert quad[0] == v.name && quad[1] == Or(v.disks, d.disks) && quad[2] == Or(v.ram, d.ram);
    assert quad[3] == Or(v.vcpus, d.vcpus);
  }

  lemma VmRead(line: string, data: seq<string>)
    requires data == ReadArray(line, ',')
    ensures var vm := ReadVm(line);
      && vm.name == At(data, 0) && vm.disks == ReadArray(At(data, 1), ';')
      && vm.ram == At(data, 2) && vm.vcpus == At(data, 3) && vm.numa == ReadCells(data, 7)
      && vm.topology == if At(data, 6) == "" then None else Some(Topology(At(data, 4), At(data, 5), At(data, 6)))
  {
  }

  ghost predicate UniqueNames(nodes: seq<Vnode>) {
    forall i, j :: 0 <= i < j < |nodes| ==> nodes[i].name != nodes[j].name
  }

  ghost predicate Mentions(nodes: seq<Vnode>, name: string) {
    exists i :: 0 <= i < |nodes| && nodes[i].name == name
  }

  lemma {:induction false} NumaTexts(nodes: seq<Vnode>, d: Defaults, plain: bool, name: string)
    requires name in Lines(nodes, d, plain).sNuma
    ensures Mentions(nodes, name)
  {
    var before, v := nodes[..|nodes| - 1], nodes[|nodes| - 1];
    if name in Lines(before, d, plain).sNuma {
      NumaTexts(before, d, plain, name);
      var i :| 0 <= i < |before| && before[i].name == name;
      assert nodes[i].name == name;
    } else {
      assert nodes[|nodes| - 1].name == name;
    }
  }

  lemma LastLine(nodes: seq<Vnode>, d: Defaults, plain: bool)
    requires nodes != [] && UniqueNames(nodes) && Plain(nodes[|nodes| - 1], d)
    ensures Lines(nodes, d, plain).lines
            == Lines(nodes[..|nodes| - 1], d, plain).lines + [Join(Fields(nodes[|nodes| - 1], d, plain), ',')]
  {
    var before, v := nodes[..|nodes| - 1], nodes[|nodes| - 1];
    var sNuma := Lines(before, d, plain).sNuma;
    if v.name in sNuma { NumaTexts(before, d, plain, v.name); }
    assert v.name !in sNuma;
    LineJoins(v, d, plain, Collected(v, plain, sNuma));
  }

  lemma {:induction false} LinesJoin(nodes: seq<Vnode>, d: Defaults, plain: bool)
    requires UniqueNames(nodes) && forall v <- nodes :: Plain(v, d)
    ensures |Lines(nodes, d, plain).lines| == |nodes|
    ensures forall i | 0 <= i < |nodes| :: Lines(nodes, d, plain).lines[i] == Join(Fields(nodes[i], d, plain), ',')
  {
    if nodes != [] {
      assert nodes[|nodes| - 1] in nodes;
      LinesJoin(nodes[..|nodes| - 1], d, plain);
      LastLine(nodes, d, plain);
    }
  }

  ghost function ReadEach(lines: seq<string>): seq<Vm> {
    seq(|lines|, i requires 0 <= i < |lines| => ReadVm(lines[i]))
  }

  lemma ReadLinesLast(front: seq<string>, last: string)
    requires last != ""
    ensures ReadLines(front + [last]) == ReadLines(front) + [ReadVm(last)]
    ensures ReadEach(front + [last]) == ReadEach(front) + [ReadVm(last)]
  {
    assert (front + [last])[..|front|] == front;
  }

  lemma {:induction false} LinesRead(lines: seq<string>)
    requires forall line <- lines :: line != ""
    ensures ReadLines(lines) == ReadEach(lines)
  {
    if lines != [] {
      var front, last := lines[..|lines| - 1], lines[|lines| - 1];
      assert lines == front + [last] && last in lines && forall line <- front :: line in lines;
      LinesRead(front);
      ReadLinesLast(front, last);
    }
  }

  lemma LinesArrive(lines: seq<string>)
    requires forall i | 0 <= i < |lines| :: lines[i] != "" && '|' !in lines[i] && ' ' !in lines[i]
    ensures ReadArray(Pack(lines, '|'), '|') == lines
  {
    assert Free(lines, '|') && Free(lines, ' ');
    PackWithoutBlanks(lines, '|');
    ReadJoin(lines, '|');
  }

  lemma AllLines(nodes: seq<Vnode>, d: Defaults, plain: bool)
    requires UniqueNames(nodes) && forall v <- nodes :: Plain(v, d)
    ensures var lines := Lines(nodes, d, plain).lines;
      && |lines| == |nodes|
      && forall i | 0 <= i < |nodes| ::
           lines[i] != "" && '|' !in lines[i] && ' ' !in lines[i] && ReadVm(lines[i]) == Expected(nodes[i], d, plain)
  {
    LinesJoin(nodes, d, plain);
    forall i | 0 <= i < |nodes|
      ensures var line := Lines(nodes, d, plain).lines[i];
        line != "" && '|' !in line && ' ' !in line && ReadVm(line) == Expected(nodes[i], d, plain)
    {
      assert nodes[i] in nodes;
      LineArrives(nodes[i], d, plain);
    }
  }

  /** Every virtual node arrives with its fields, topology and (reversed) NUMA cells. */
  lemma RoundTrip(nodes: seq<Vnode>, d: Defaults, plain: bool)
    requires UniqueNames(nodes) && forall v <- nodes :: Plain(v, d)
    ensures |Deserialize(Serialize(nodes, d, plain))| == |nodes|
    ensures forall i | 0 <= i < |nodes| :: Deserialize(Serialize(nodes, d, plain))[i] == Expected(nodes[i], d, plain)
  {
    var lines := Lines(nodes, d, plain).lines;
    AllLines(nodes, d, plain);
    LinesArrive(lines);
    LinesRead(lines);
  }

  /** The disks of a machine are those listed for the node, or else those of the defaults. */
  lemma DisksArrive(v: Vnode, d: Defaults, plain: bool, disks: seq<string>)
    requires disks != [] && Free(disks, ';') && disks[|disks| - 1] != ""
    requires v.disks == Join(disks, ';') || (v.disks == "" && d.disks == Join(disks, ';'))
    requires Plain(v, d)
    ensures exists vm :: Deserialize(Serialize([v], d, plain)) == [vm] && vm.disks == disks
  {
    OneArrives(v, d, plain);
    ReadJoin(disks, ';');
    JoinNotEmpty(disks, ';');
    assert Expected(v, d, plain).disks == disks;
  }

  lemma OneArrives(v: Vnode, d: Defaults, plain: bool)
    requires Plain(v, d)
    ensures Deserialize(Serialize([v], d, plain)) == [Expected(v, d, plain)]
  {
    RoundTrip([v], d, plain);
    assert Deserialize(Serialize([v], d, plain))[0] == Expected([v][0], d, plain);
  }

  lemma {:induction false} JoinNotEmpty(list: seq<string>, sep: char)
    requires list != [] && list[|list| - 1] != ""
    ensures Join(list, sep) != ""
  {
    if |list| > 1 { JoinNotEmpty(list[1..], sep); }
  }

  ghost function WithCell(acc: Option<string>, c: Cell): Option<string> {
    Some(if acc.None? then PackCell(c) else Pack([PackCell(c), acc.value], ','))
  }

  lemma CollectLast(acc: Option<string>, cells: seq<Cell>, c: Cell)
    ensures Collect(acc, cells + [c]) == WithCell(Collect(acc, cells), c)
  {
    assert (cells + [c])[..|cells|] == cells;
  }

  /** Collecting goes on where the text of the first cells ended. */
  ghost predicate GoesOn(acc: Option<string>, a: seq<Cell>, b: seq<Cell>) {
    Collect(acc, b) == Collect(None, a + b)
  }

  lemma GoesOnNext(acc: Option<string>, a: seq<Cell>, front: seq<Cell>, c: Cell, b: seq<Cell>)
    requires GoesOn(acc, a, front) && b == front + [c]
    ensures GoesOn(acc, a, b)
  {
    CollectLast(acc, front, c);
    CollectLast(None, a + front, c);
    assert (a + front) + [c] == a + b;
  }

  lemma GoesOnStart(acc: Option<string>, a: seq<Cell>)
    requires acc == Collect(None, a)
    ensures GoesOn(acc, a, [])
  {
    assert a + [] == a;
  }

  lemma {:induction false} CollectMore(acc: Option<string>, a: seq<Cell>, b: seq<Cell>)
    requires acc == Collect(None, a)
    ensures GoesOn(acc, a, b)
    decreases |b|
  {
    if |b| == 0 {
      GoesOnStart(acc, a);
      assert b == [];
    } else {
      var front, c := b[..|b| - 1], b[|b| - 1];
      assert b == front + [c];
      CollectMore(acc, a, front);
      GoesOnNext(acc, a, front, c, b);
    }
  }

  function FirstText(v: Vnode): map<string, string> {
    Collected(v, false, map[])
  }

  function SecondText(v: Vnode): map<string, string> {
    Collected(v, false, FirstText(v))
  }

  lemma LinesOfTwo(v: Vnode, d: Defaults)
    ensures Lines([v, v], d, false).lines == [Line(v, d, false, FirstText(v)), Line(v, d, false, SecondText(v))]
  {
    assert [v, v][..1] == [v] && [v][..0] == [];
    assert Lines([v], d, false) == Acc([Line(v, d, false, FirstText(v))], FirstText(v));
  }

  lemma TextsOfTwo(v: Vnode)
    requires v.topology.Some?
    ensures Lookup(FirstText(v), v.name) == Collect(None, v.numa)
    ensures Lookup(SecondText(v), v.name) == Collect(None, v.numa + v.numa)
  {
    CollectMore(Collect(None, v.numa), v.numa, v.numa);
  }

  lemma LineReads(v: Vnode, d: Defaults, sNuma: map<string, string>)
    requires Plain(v, d) && v.topology.Some? && Lookup(sNuma, v.name) == Collect(None, v.numa)
    ensures var line := Line(v, d, false, sNuma);
      line != "" && '|' !in line && ' ' !in line && ReadVm(line) == Expected(v, d, false)
  {
    LineJoins(v, d, false, sNuma);
    LineArrives(v, d, false);
  }

  /** The text of the cells is kept per name, so a node listed twice gets its cells twice the second
      time. */
  lemma ListedTwice(v: Vnode, d: Defaults)
    requires Plain(v, d) && v.topology.Some?
    ensures Deserialize(Serialize([v, v], d, false))
            == [Expected(v, d, false), Expected(v.(numa := v.numa + v.numa), d, false)]
  {
    var twice := v.(numa := v.numa + v.numa);
    var lines := [Line(v, d, false, FirstText(v)), Line(twice, d, false, SecondText(v))];
    LinesOfTwo(v, d);
    TextsOfTwo(v);
    LineReads(v, d, FirstText(v));
    LineReads(twice, d, SecondText(v));
    LinesArrive(lines);
    TwoLinesRead(lines[0], lines[1]);
  }

  lemma TwoLinesRead(a: string, b: string)
    requires a != "" && b != ""
    ensures ReadLines([a, b]) == [ReadVm(a), ReadVm(b)]
  {
    assert [a, b][..1] == [a] && [a][..0] == [];
    assert ReadLines([a]) == [ReadVm(a)];
  }

  lemma LineArrives(v: Vnode, d: Defaults, plain: bool)
    requires Plain(v, d)
    ensures var line := Join(Fields(v, d, plain), ',');
      line != "" && '|' !in line && ' ' !in line && ReadVm(line) == Expected(v, d, plain)
  {
    FieldsFree(v, d, plain);
    JoinFreeOf(Fields(v, d, plain), ',', '|');
    JoinFreeOf(Fields(v, d, plain), ',', ' ');
    LineRoundTrip(v, d, plain);
  }

  // ----- the code as written -----

  method SerializeVnodes(nodes: seq<Vnode>, d: Defaults, plain: bool) returns (text: string)
    ensures text == Serialize(nodes, d, plain)
  {
    var arr: seq<string> := [];
    var sNuma: map<string, string> := map[];
    for i := 0 to |nodes|
      invariant Lines(nodes[..i], d, plain) == Acc(arr, sNuma)
    {
      assert nodes[..i + 1][..i] == nodes[..i];
      var v := nodes[i];
      if HasTopology(v, plain) {
        sNuma := CollectCells(v, sNuma);
      }
      arr := arr + [Line(v, d, plain, sNuma)];
    }
    assert nodes[..|nodes|] == nodes;
    text := Pack(arr, '|');
  }

  /** The loop over the NUMA cells of a node, which updates the node in place. */
  method CollectCells(v: Vnode, start: map<string, string>) returns (sNuma: map<string, string>)
    requires v.topology.Some?
    ensures sNuma == Collected(v, false, start)
  {
    sNuma := start;
    for k := 0 to |v.numa|
      invariant Lookup(sNuma, v.name) == Collect(Lookup(start, v.name), v.numa[..k])
      invariant sNuma == if Lookup(sNuma, v.name).None? then start else start[v.name := sNuma[v.name]]
    {
      assert v.numa[..k + 1][..k] == v.numa[..k];
      var c := PackCell(v.numa[k]);
      sNuma := sNuma[v.name := if v.name !in sNuma then c else Pack([c, sNuma[v.name]], ',')];
    }
    assert v.numa[..|v.numa|] == v.numa;
  }

  method CreateVms(text: string) returns (vms: seq<Vm>)
    ensures vms == Deserialize(text)
  {
    var vnodes := ReadArray(text, '|');
    vms := [];
    for i := 0 to |vnodes|
      invariant vms == ReadLines(vnodes[..i])
    {
      assert vnodes[..i + 1][..i] == vnodes[..i];
      if vnodes[i] != "" {
        var vm := CreateVm(vnodes[i]);
        vms := vms + [vm];
      }
    }
    assert vnodes[..|vnodes|] == vnodes;
  }

  method CreateVm(line: string) returns (vm: Vm)
    ensures vm == ReadVm(line)
  {
    var data := ReadArray(line, ',');
    var disks := ReadArray(At(data, 1), ';');
    var cells: seq<Cell> := [];
    var idx := 7;
    while At(data, idx) != ""
      invariant cells + ReadCells(data, idx) == ReadCells(data, 7)
      decreases |data| - idx
    {
      var c := Cell(At(data, idx), At(data, idx + 1), At(data, idx + 2));
      Associative(cells, [c], ReadCells(data, idx + 3));
      cells := cells + [c];
      idx := idx + 3;
    }
    var topology := None;
    if At(data, 6) != "" {
      topology := Some(Topology(At(data, 4), At(data, 5), At(data, 6)));
    }
    vm := Vm(At(data, 0), disks, At(data, 2), At(data, 3), topology, cells);
  }
}
