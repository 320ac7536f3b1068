/** The IPv4 filters of mcp/scripts/pharos/config/utils/gen_config_lib.py, on addresses as numbers
    below 2^32 (section 3.1 of RFC 4632). */
module IpFilters {
  import opened Common

  function Pow2(n: nat): (p: nat)
    ensures p > 0
  {
    if n == 0 then 1 else 2 * Pow2(n - 1)
  }

  const SPACE := 0x1_0000_0000

  /** A network in strict form: no host bits are set in its address. */
  datatype Net = Net(address: nat, prefix: nat)

  function Size(prefix: nat): nat
    requires prefix <= 32
  {
    Pow2(32 - prefix)
  }

  predicate Valid(net: Net) {
    net.prefix <= 32 && net.address < SPACE && net.address % Size(net.prefix) == 0
  }

  /** `IPv4Network(text)`: `None` for the value error on a bad prefix or on host bits. */
  function Network(address: nat, prefix: nat): Option<Net> {
    if prefix <= 32 && address < SPACE && address % Size(prefix) == 0 then Some(Net(address, prefix)) else None
  }

  function Broadcast(net: Net): int
    requires Valid(net)
  {
    net.address + Size(net.prefix) - 1
  }

  /** The mask as a number. */
  function Netmask(net: Net): int
    requires Valid(net)
  {
    SPACE - Size(net.prefix)
  }

  /** `network[index]`, counting from the end for negative indices; `None` for the index error. */
  function HostAddr(net: Net, index: int): Option<int>
    requires Valid(net)
  {
    if index >= 0 then
      if net.address + index > Broadcast(net) then None else Some(net.address + index)
    else
      if Broadcast(net) + index + 1 < net.address then None else Some(Broadcast(net) + index + 1)
  }

  /** Masking the address gives the network address. */
  predicate Contains(net: Net, ip: nat)
    requires Valid(net)
  {
    ip - ip % Size(net.prefix) == net.address
  }

  predicate ContainsRange(net: Net, first: nat, last: nat)
    requires Valid(net)
  {
    Contains(net, first) && Contains(net, last)
  }

  /** `network.hosts()` for prefixes up to 30: all but the first and the last address. */
  function Hosts(net: Net): seq<nat>
    requires Valid(net) && net.prefix <= 30
  {
    Pow2AtLeast(32 - net.prefix);
    seq(Size(net.prefix) - 2, i requires 0 <= i < Size(net.prefix) - 2 => net.address + 1 + i)
  }

  function RangeSize(net: Net, first: nat, last: nat): Option<int>
    requires Valid(net) && net.prefix <= 30
  {
    if !Contains(net, first) || !Contains(net, last) then None
    else
      var index1, index2 := IndexOf(Hosts(net), first), IndexOf(Hosts(net), last);
      if index1 == |Hosts(net)| || index2 == |Hosts(net)| then None else Some(index2 - index1 + 1)
  }

  /** `IPv4Address(base) + int(index)`, which knows nothing of the network. */
  function AddrIndex(base: nat, index: int): Option<int> {
    if 0 <= base + index < SPACE then Some(base + index) else None
  }

  /** The mask of `1.0.0.0/prefix`. */
  function NetmaskOf(prefix: nat): Option<int> {
    var net := Network(0x0100_0000, prefix);
    if net.None? then None else Some(Netmask(net.value))
  }

  // ----- laws -----

  lemma {:induction false} Pow2AtLeast(n: nat)
    ensures n >= 2 ==> Pow2(n) >= 4
    ensures n >= 1 ==> Pow2(n) >= 2
  {
    if n > 0 { Pow2AtLeast(n - 1); }
  }

  lemma {:induction false} Pow2Splits(a: nat, b: nat)
    ensures Pow2(a + b) == Pow2(a) * Pow2(b)
  {
    if a > 0 {
      Pow2Splits(a - 1, b);
      assert Pow2(a + b) == 2 * Pow2(a - 1 + b);
      Doubled(Pow2(a - 1), Pow2(b));
    }
  }

  lemma Doubled(x: nat, y: nat)
    ensures (2 * x) * y == 2 * (x * y)
  {
  }

  /** Masking decides membership exactly as the interval from network to broadcast address. */
  lemma MaskIsInterval(net: Net, ip: nat)
    requires Valid(net)
    ensures Contains(net, ip) <==> net.address <= ip <= Broadcast(net)
  {
    var size := Size(net.prefix);
    if net.address <= ip <= Broadcast(net) {
      var off := ip - net.address;
      SameBlock(net.address, off, size);
    }
  }

  lemma SameBlock(start: nat, off: nat, size: nat)
    requires size > 0 && start % size == 0 && off < size
    ensures (start + off) % size == off
  {
    var q := start / size;
    assert start == q * size;
    assert (start + off) - off == q * size;
    Remainder(start + off, q, off, size);
  }

  lemma {:induction false} MulGap(a: nat, b: nat, d: nat)
    requires a > b
    ensures a * d >= b * d + d
  {
    assert a * d == (a - 1) * d + d;
    if a - 1 > b { MulGap(a - 1, b, d); }
  }

  lemma Remainder(n: nat, q: nat, r: nat, d: nat)
    requires d > 0 && n == q * d + r && r < d
    ensures n % d == r
  {
    var q' := n / d;
    assert n == q' * d + n % d;
    if q' > q {
      MulGap(q', q, d);
    } else if q' < q {
      MulGap(q, q', d);
    }
  }

  /** A range accepted by its ends lies inside the network with everything in between. */
  lemma RangeIsInside(net: Net, first: nat, last: nat, ip: nat)
    requires Valid(net) && ContainsRange(net, first, last) && first <= ip <= last
    ensures Contains(net, ip)
  {
    MaskIsInterval(net, first);
    MaskIsInterval(net, last);
    MaskIsInterval(net, ip);
  }

  lemma HostPosition(net: Net, ip: nat)
    requires Valid(net) && net.prefix <= 30
    ensures if net.address < ip < Broadcast(net) then IndexOf(Hosts(net), ip) == ip - net.address - 1
            else IndexOf(Hosts(net), ip) == |Hosts(net)|
  {
    Pow2AtLeast(32 - net.prefix);
    var hosts, i := Hosts(net), IndexOf(Hosts(net), ip);
    if net.address < ip < Broadcast(net) {
      assert hosts[ip - net.address - 1] == ip;
    }
  }

  /** The range size is defined exactly for two host addresses, and counts both ends; it is not
      positive when the ends are the wrong way round. */
  lemma RangeSizeExactly(net: Net, first: nat, last: nat)
    requires Valid(net) && net.prefix <= 30
    ensures RangeSize(net, first, last) ==
            if net.address < first < Broadcast(net) && net.address < last < Broadcast(net)
            then Some(last - first + 1) else None
  {
    MaskIsInterval(net, first);
    MaskIsInterval(net, last);
    HostPosition(net, first);
    HostPosition(net, last);
  }

  /** A network is accepted exactly when its prefix is at most 32 and its address is a multiple of
      the size of the network, which halves with every bit of the prefix. */
  lemma NetworkExactly(address: nat, prefix: nat)
    ensures Network(address, prefix).Some?
            <==> prefix <= 32 && address < 0x1_0000_0000 && exists k: nat :: address == k * Size(prefix)
    ensures Network(address, prefix).Some? ==> Network(address, prefix).value == Net(address, prefix)
    ensures Size(32) == 1 && (prefix < 32 ==> Size(prefix) == 2 * Size(prefix + 1))
  {
    if prefix <= 32 {
      var size := Size(prefix);
      assert address == (address / size) * size + address % size;
      if k: nat :| address == k * size { Remainder(address, k, 0, size); }
    }
  }

  /** The hosts are all addresses strictly between the network and the broadcast address, which is
      the last one of the network, in order. */
  lemma HostsExactly(net: Net)
    requires Valid(net) && net.prefix <= 30
    ensures Broadcast(net) == net.address + Size(net.prefix) - 1
    ensures forall h: nat :: h in Hosts(net) <==> net.address < h < Broadcast(net)
    ensures forall i, j | 0 <= i < j < |Hosts(net)| :: Hosts(net)[i] < Hosts(net)[j]
  {
    Pow2AtLeast(32 - net.prefix);
    forall h: nat | net.address < h < Broadcast(net) ensures h in Hosts(net) {
      assert Hosts(net)[h - net.address - 1] == h;
    }
  }

  /** Indices 1 and -2 are the first and the last host. */
  lemma HostEnds(net: Net)
    requires Valid(net) && net.prefix <= 30
    ensures |Hosts(net)| >= 2
    ensures HostAddr(net, 1) == Some(Hosts(net)[0]) && HostAddr(net, -2) == Some(Hosts(net)[|Hosts(net)| - 1])
    ensures forall h <- Hosts(net) :: Hosts(net)[0] <= h <= Hosts(net)[|Hosts(net)| - 1]
  {
    Pow2AtLeast(32 - net.prefix);
  }

  /** A strict network ends inside the address space. */
  lemma EndsInSpace(net: Net)
    requires Valid(net)
    ensures Broadcast(net) < SPACE
  {
    Pow2Is32();
    Pow2Splits(net.prefix, 32 - net.prefix);
    BlockEnd(net.address, Pow2(net.prefix), Size(net.prefix));
  }

  lemma BlockEnd(start: nat, k: nat, size: nat)
    requires size > 0 && start % size == 0 && start < k * size
    ensures start + size <= k * size
  {
    var q := start / size;
    assert start == q * size;
    BlockBelow(q, k, size);
  }

  lemma BlockBelow(q: nat, k: nat, size: nat)
    requires size > 0 && q * size < k * size
    ensures q * size + size <= k * size
  {
    if q < k { MulGap(k, q, size); }
    if q > k { MulGap(q, k, size); }
  }

  lemma Pow2Is32()
    ensures Pow2(8) == 0x100 && Pow2(24) == 0x100_0000 && Pow2(32) == 0x1_0000_0000
  {
    assert Pow2(4) == 16 by { assert Pow2(2) == 4; }
    Pow2Splits(4, 4);
    Pow2Splits(8, 8);
    Pow2Splits(8, 16);
    Pow2Splits(8, 24);
  }

  /** The network filter has the indices of its addresses, and as many counted from the end. Where
      it has one, the deprecated filter agrees with it exactly on the indices from the start. */
  lemma AddrIndexAgrees(net: Net, index: int)
    requires Valid(net)
    ensures HostAddr(net, index).Some? <==> -(Size(net.prefix) as int) <= index < Size(net.prefix)
    ensures HostAddr(net, index).Some? ==> (AddrIndex(net.address, index) == HostAddr(net, index) <==> index >= 0)
  {
    EndsInSpace(net);
  }

  /** From the end it is another address, or none, in every network: index -1 is the broadcast
      address in one filter and the address before the network in the other. */
  lemma LastAddressDiffers(net: Net)
    requires Valid(net)
    ensures HostAddr(net, -1) == Some(Broadcast(net))
    ensures AddrIndex(net.address, -1) == if net.address == 0 then None else Some(net.address - 1)
    ensures AddrIndex(net.address, -1) != HostAddr(net, -1)
  {
  }

  lemma {:induction false} Pow2Monotone(a: nat, b: nat)
    requires a < b
    ensures Pow2(a) < Pow2(b)
  {
    if a + 1 < b { Pow2Monotone(a, b - 1); }
  }

  /** The netmask filter is defined exactly for prefixes 8 to 32, and its mask leaves out the
      host part only. */
  lemma NetmaskExactly(prefix: nat)
    ensures NetmaskOf(prefix).Some? <==> 8 <= prefix <= 32
    ensures 8 <= prefix <= 32 ==> NetmaskOf(prefix) == Some(SPACE - Pow2(32 - prefix))
  {
    if prefix <= 32 { ClassAHostBits(prefix); }
  }

  lemma ClassAHostBits(prefix: nat)
    requires prefix <= 32
    ensures 0x0100_0000 % Size(prefix) == 0 <==> 8 <= prefix
  {
    if 8 <= prefix { NoHostBits(prefix); } else { SomeHostBits(prefix); }
  }

  lemma NoHostBits(prefix: nat)
    requires 8 <= prefix <= 32
    ensures 0x0100_0000 % Size(prefix) == 0
  {
    Pow2Is32();
    Pow2Splits(prefix - 8, 32 - prefix);
    Remainder(0x0100_0000, Pow2(prefix - 8), 0, Size(prefix));
  }

  lemma SomeHostBits(prefix: nat)
    requires prefix < 8
    ensures 0x0100_0000 % Size(prefix) == 0x0100_0000
  {
    Pow2Is32();
    Pow2Monotone(24, 32 - prefix);
    Remainder(0x0100_0000, 0, 0x0100_0000, Size(prefix));
  }
}
