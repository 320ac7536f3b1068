/** The compute nodes of mcp/config/scenario/os-nosdn-nofeature-noha.yaml.j2: CPU topology and NUMA
    cells derived from the hardware description, and their way to the jump host. */
module NumaScenario {
  import opened Common
  import opened BashText
  import opened VnodeCodec

  /** `'%.0f' | format(n / d)`: nearest integer, ties to even. */
  function Rounded(n: nat, d: nat): nat
    requires d > 0
  {
    var q, r := n / d, n % d;
    if 2 * r < d || (2 * r == d && q % 2 == 0) then q else q + 1
  }

  function Max(a: nat, b: nat): nat {
    if a < b then b else a
  }

  const THREADS := 2

  /** Socket and core counts and the memory in bytes. */
  datatype Hardware = Hardware(cpus: nat, cores: nat, memory: nat)

  function Ram(h: Hardware): nat {
    Max(16384, Rounded(h.memory * 1024, 1000000000))
  }

  function Sockets(h: Hardware): nat {
    Max(2, h.cpus)
  }

  function Cores(h: Hardware): nat {
    Max(2, Rounded(h.cores, THREADS))
  }

  function Width(h: Hardware): nat {
    Cores(h) * THREADS
  }

  function Vcpus(h: Hardware): nat {
    Sockets(h) * Cores(h) * THREADS
  }

  /** First and last CPU of a cell. */
  function First(h: Hardware, cell: nat): nat {
    Cores(h) * THREADS * cell
  }

  function Last(h: Hardware, cell: nat): int {
    Cores(h) * THREADS * (cell + 1) - 1
  }

  function CellMemory(h: Hardware): nat {
    Rounded(Ram(h) * 1024, Sockets(h))
  }

  ghost predicate InCell(h: Hardware, cell: nat, cpu: int) {
    First(h, cell) <= cpu <= Last(h, cell)
  }

  ghost predicate InBlock(w: nat, cell: nat, cpu: int) {
    w * cell <= cpu < w * cell + w
  }

  lemma {:induction false} BlocksBelow(w: nat, a: nat, b: nat)
    requires a <= b
    ensures w * a <= w * b && (a < b ==> w * a + w <= w * b)
    decreases b - a
  {
    if a < b {
      BlocksBelow(w, a, b - 1);
      assert w * b == w * (b - 1) + w;
    }
  }

  lemma BlocksCover(w: nat, blocks: nat, cpu: int)
    requires w > 0
    ensures (0 <= cpu < w * blocks) <==> exists cell: nat :: cell < blocks && InBlock(w, cell, cpu)
  {
    if 0 <= cpu < w * blocks {
      var cell := cpu / w;
      assert InBlock(w, cell, cpu);
      if cell >= blocks { BlocksBelow(w, blocks, cell); }
    }
    forall cell: nat | cell < blocks && InBlock(w, cell, cpu) ensures 0 <= cpu < w * blocks {
      BlocksBelow(w, cell, blocks);
      BlocksBelow(w, 0, cell);
    }
  }

  lemma VcpusAreBlocks(h: Hardware)
    ensures Vcpus(h) == Width(h) * Sockets(h) && Width(h) > 0
  {
  }

  lemma CellBounds(h: Hardware, cell: nat)
    ensures First(h, cell) == Width(h) * cell && Last(h, cell) == Width(h) * cell + Width(h) - 1
  {
  }

  /** The cells cover exactly the CPUs of the node. */
  lemma CellsCover(h: Hardware, cpu: int)
    ensures (0 <= cpu < Vcpus(h)) <==> exists cell: nat :: cell < Sockets(h) && InCell(h, cell, cpu)
  {
    VcpusAreBlocks(h);
    BlocksCover(Width(h), Sockets(h), cpu);
    forall cell: nat ensures InCell(h, cell, cpu) <==> InBlock(Width(h), cell, cpu) { CellBounds(h, cell); }
  }

  /** No CPU is in two cells, and all cells have the width of a socket. */
  lemma CellsDisjoint(h: Hardware, a: nat, b: nat, cpu: int)
    ensures InCell(h, a, cpu) && InCell(h, b, cpu) ==> a == b
    ensures Last(h, a) - First(h, a) + 1 == Cores(h) * THREADS
  {
    CellBounds(h, a);
    CellBounds(h, b);
    if a < b { BlocksBelow(Width(h), a, b); }
    if b < a { BlocksBelow(Width(h), b, a); }
  }

  /** Rounding gives the nearest number, and of two equally near the even one. */
  lemma RoundedExactly(n: nat, d: nat, q: nat)
    requires d > 0
    ensures Rounded(n, d) == q
            <==> -(d as int) < 2 * (d * q - n) < d || (2 * (d * q - n) in {-(d as int), d as int} && q % 2 == 0)
  {
    var low, r := n / d, n % d;
    assert n == d * low + r;
    assert d * (low + 1) == d * low + d;
    if q < low {
      BlocksBelow(d, q, low);
    } else if q > low + 1 {
      BlocksBelow(d, low + 1, q);
    }
  }

  /** The hardware of a compute node: sockets as described but two at least, as many cores as there
      are pairs of threads but two at least, and 1024 for every gigabyte of memory but 16384 at
      least; vCPUs are two for each core of each socket. */
  lemma HardwareAsDescribed(h: Hardware)
    ensures Sockets(h) == if h.cpus > 2 then h.cpus else 2
    ensures exists cores: nat :: IsNearest(h.cores, 2, cores) && Cores(h) == if cores > 2 then cores else 2
    ensures exists ram: nat ::
              IsNearest(h.memory * 1024, 1000000000, ram) && Ram(h) == if ram > 16384 then ram else 16384
    ensures IsNearest(Ram(h) * 1024, Sockets(h), CellMemory(h))
    ensures Vcpus(h) == Sockets(h) * Cores(h) * 2
  {
    RoundedExactly(h.cores, 2, Rounded(h.cores, 2));
    RoundedExactly(h.memory * 1024, 1000000000, Rounded(h.memory * 1024, 1000000000));
    RoundedExactly(Ram(h) * 1024, Sockets(h), CellMemory(h));
    assert IsNearest(h.cores, 2, Rounded(h.cores, 2));
    assert IsNearest(h.memory * 1024, 1000000000, Rounded(h.memory * 1024, 1000000000));
  }

  /** `q` is the number nearest to n / d, even in case of a tie. */
  ghost predicate IsNearest(n: nat, d: nat, q: nat) {
    -(d as int) < 2 * (d * q - n) < d || (2 * (d * q - n) in {-(d as int), d as int} && q % 2 == 0)
  }

  lemma RoundedIsNearest(n: nat, d: nat)
    requires d > 0
    ensures -(d as int) <= 2 * (d * Rounded(n, d) - n) <= d
  {
    var q, r := n / d, n % d;
    assert n == d * q + r;
    assert d * (q + 1) == d * q + d;
  }

  /** Rounding the memory of the cells loses or adds at most half a unit for each. */
  lemma CellMemoriesAddUp(h: Hardware)
    ensures -(Sockets(h) as int) <= 2 * (Sockets(h) * CellMemory(h) - Ram(h) * 1024) <= Sockets(h)
  {
    RoundedIsNearest(Ram(h) * 1024, Sockets(h));
  }

  // ----- the node on its way to the jump host -----

  function CellOf(h: Hardware, cell: nat): Cell {
    CellBounds(h, cell);
    Cell("cell" + Decimal(cell), Decimal(CellMemory(h)), Decimal(First(h, cell)) + "-" + Decimal(Last(h, cell)))
  }

  function Cells(h: Hardware): seq<Cell> {
    seq(Sockets(h), i requires 0 <= i < Sockets(h) => CellOf(h, i))
  }

  /** `disks` is the list of disk capacities joined with semicolons, `cells` the cells in the order
      in which the dictionary of the node is iterated. */
  function ComputeNode(h: Hardware, name: string, disks: string, cells: seq<Cell>): Vnode {
    Vnode(name, disks, Decimal(Ram(h)), Decimal(Vcpus(h)),
          Some(Topology(Decimal(Sockets(h)), Decimal(Cores(h)), Decimal(THREADS))), cells)
  }

  /** The cells of the scenario, each once, in any order. */
  ghost predicate CellOrder(h: Hardware, cells: seq<Cell>) {
    multiset(cells) == multiset(Cells(h))
  }

  lemma {:induction false} DecimalDigits(n: nat)
    ensures forall c <- Decimal(n) :: '0' <= c <= '9'
  {
    if n >= 10 { DecimalDigits(n / 10); }
  }

  lemma DecimalAtom(n: nat)
    ensures Atom(Decimal(n))
  {
    DecimalDigits(n);
  }

  lemma CellAtoms(h: Hardware, cell: nat)
    ensures var c := CellOf(h, cell); Atom(c.name) && Atom(c.memory) && Atom(c.cpus)
  {
    CellBounds(h, cell);
    DecimalDigits(cell);
    DecimalDigits(CellMemory(h));
    DecimalDigits(First(h, cell));
    DecimalDigits(Last(h, cell));
  }

  lemma ComputeNodePlain(h: Hardware, name: string, disks: string, cells: seq<Cell>, d: Defaults)
    requires Atom(name) && Atom(disks) && CellOrder(h, cells)
    ensures Plain(ComputeNode(h, name, disks, cells), d)
  {
    DecimalAtom(Ram(h));
    DecimalAtom(Vcpus(h));
    DecimalAtom(Sockets(h));
    DecimalAtom(Cores(h));
    DecimalAtom(THREADS);
    forall c <- cells ensures Atom(c.name) && Atom(c.memory) && Atom(c.cpus) {
      assert c in multiset(cells) && c in multiset(Cells(h));
      var i :| 0 <= i < Sockets(h) && Cells(h)[i] == c;
      CellAtoms(h, i);
    }
  }

  lemma {:induction false} ReversedAt(cells: seq<Cell>, k: nat)
    requires k < |cells|
    ensures |Reversed(cells)| == |cells| && Reversed(cells)[k] == cells[|cells| - 1 - k]
  {
    var front := cells[..|cells| - 1];
    if front == [] {
      assert Reversed(front) == [];
    } else {
      ReversedAt(front, if k == 0 then 0 else k - 1);
    }
  }

  lemma {:induction false} ReversedKeeps(cells: seq<Cell>)
    ensures multiset(Reversed(cells)) == multiset(cells)
  {
    if cells != [] {
      var front, last := cells[..|cells| - 1], cells[|cells| - 1];
      assert cells == front + [last];
      ReversedKeeps(front);
    }
  }

  /** What the cells of the scenario say: a name by number, an equal share of the memory, and the
      first and the last CPU of a block of two CPUs for each core, block after block. */
  lemma CellTexts(h: Hardware, k: nat)
    requires k < Sockets(h)
    ensures var c := Cells(h)[k];
      && c.name == "cell" + Decimal(k) && c.memory == Decimal(CellMemory(h))
      && exists first: nat, last: nat ::
           && c.cpus == Decimal(first) + "-" + Decimal(last)
           && first == 2 * (Cores(h) * k) && last == first + 2 * Cores(h) - 1
  {
    CellBounds(h, k);
    assert First(h, k) == 2 * (Cores(h) * k) && Last(h, k) == First(h, k) + 2 * Cores(h) - 1;
  }

  /** What the virtual machine of a compute node is created with, for one order of its cells. */
  ghost predicate Arrived(h: Hardware, name: string, disks: string, cells: seq<Cell>, vm: Vm) {
    && vm.name == name && vm.disks == ReadArray(disks, ';') && vm.ram == Decimal(Ram(h))
    && vm.vcpus == Decimal(Vcpus(h))
    && vm.topology == Some(Topology(Decimal(Sockets(h)), Decimal(Cores(h)), Decimal(THREADS)))
    && multiset(vm.numa) == multiset(Cells(h))
    && |vm.numa| == |cells| && forall k | 0 <= k < |cells| :: vm.numa[k] == cells[|cells| - 1 - k]
  }

  /** End to end: in whatever order the cells are iterated, the virtual machine of a compute node is
      created with the vCPUs, the topology and all the cells of the scenario, each once, the last
      one iterated first. */
  lemma ComputeNodeArrives(h: Hardware, name: string, disks: string, cells: seq<Cell>, d: Defaults)
    requires Atom(name) && Atom(disks) && CellOrder(h, cells)
    ensures var vms := Deserialize(Serialize([ComputeNode(h, name, disks, cells)], d, false));
      |vms| == 1 && Arrived(h, name, disks, cells, vms[0])
  {
    var v := ComputeNode(h, name, disks, cells);
    ComputeNodePlain(h, name, disks, cells, d);
    OneArrives(v, d, false);
    ExpectedCompute(h, name, disks, cells, d);
  }

  lemma CellsAreMany(h: Hardware, cells: seq<Cell>)
    requires CellOrder(h, cells)
    ensures |cells| == Sockets(h)
  {
    assert |multiset(cells)| == |cells| && |multiset(Cells(h))| == |Cells(h)|;
  }

  lemma ExpectedCompute(h: Hardware, name: string, disks: string, cells: seq<Cell>, d: Defaults)
    requires CellOrder(h, cells) && Atom(name) && Atom(disks)
    ensures Arrived(h, name, disks, cells, Expected(ComputeNode(h, name, disks, cells), d, false))
  {
    DecimalAtom(Ram(h));
    DecimalAtom(Vcpus(h));
    CellsAreMany(h, cells);
    ReversedAt(cells, 0);
    ReversedKeeps(cells);
    forall k | 0 <= k < |cells| ensures Reversed(cells)[k] == cells[|cells| - 1 - k] {
      ReversedAt(cells, k);
    }
  }
}
