/** A run of `AssignMachinesIP` of mcp/salt-formulas/salt-formula-maas/_modules/maas.py over several
    machines in status Ready, on a server that serves all requests: every machine is disconnected
    just before it is linked, so an address is refused as long as another machine holds it. */
module AssignRun {
  import opened Common
  import opened AssignMachinesIp

  datatype Host = Host(nics: seq<Nic>, configs: seq<NicConfig>)

  const SERVING: Faults := n => Served

  /** The static addresses linked to the interfaces. */
  function Held(nics: seq<Nic>): set<string> {
    set nic, l | nic in nics && l in nic.links && l.mode == Static :: l.ip
  }

  /** The addresses held by the other machines. */
  function HeldElsewhere(nets: seq<seq<Nic>>, i: nat): set<string> {
    set j, ip | 0 <= j < |nets| && j != i && ip in Held(nets[j]) :: ip
  }

  /** The interfaces of all machines, and whether none was refused so far. */
  datatype State = State(ok: bool, nets: seq<seq<Nic>>)

  /** The first `n` machines are processed in order; one without interfaces in its configuration is
      not touched, and a failure does not stop the run. `reserved` are the addresses in use outside
      the run. */
  function Process(hosts: seq<Host>, reserved: set<string>, n: nat): (r: State)
    requires n <= |hosts|
    ensures |r.nets| == |hosts|
  {
    if n == 0 then State(true, seq(|hosts|, i requires 0 <= i < |hosts| => hosts[i].nics))
    else ProcessOne(Process(hosts, reserved, n - 1), hosts, reserved, n - 1)
  }

  function ProcessOne(before: State, hosts: seq<Host>, reserved: set<string>, i: nat): (r: State)
    requires i < |hosts| == |before.nets|
    ensures |r.nets| == |hosts|
  {
    if hosts[i].configs == [] then before
    else
      var taken := reserved + HeldElsewhere(before.nets, i);
      var o := Assign(Outcome(true, before.nets[i], 0), taken, hosts[i].configs, SERVING);
      State(before.ok && o.ok, before.nets[i := o.nics])
  }

  /** The static addresses a configuration asks for. */
  ghost function Asked(configs: seq<NicConfig>): set<string> {
    set c | c in configs && LinkData(c).Some? && LinkData(c).value.mode == Static :: LinkData(c).value.ip
  }

  /** The addresses a machine has after its turn, if it was accepted. */
  ghost function Left(h: Host): set<string> {
    if h.configs == [] then Held(h.nics) else Asked(h.configs)
  }

  /** The machine is accepted in a run where those before it are. */
  ghost predicate Welcome(hosts: seq<Host>, reserved: set<string>, i: nat)
    requires i < |hosts|
  {
    hosts[i].configs != [] ==>
      && Consistent(hosts[i].nics, reserved, hosts[i].configs)
      && (forall j | 0 <= j < i :: Asked(hosts[i].configs) !! Left(hosts[j]))
      && (forall j | i < j < |hosts| :: Asked(hosts[i].configs) !! Held(hosts[j].nics))
  }

  ghost function Final(h: Host): seq<Nic> {
    if h.configs == [] then h.nics else Target(h.nics, h.configs)
  }

  lemma TargetHolds(nics: seq<Nic>, taken: set<string>, configs: seq<NicConfig>)
    requires forall c <- configs :: Sound(nics, taken, c)
    ensures Held(Target(nics, configs)) == Asked(configs)
  {
    var t := Target(nics, configs);
    forall ip | ip in Held(t) ensures ip in Asked(configs) {
      var nic, l :| nic in t && l in nic.links && l.mode == Static && l.ip == ip;
      var i :| 0 <= i < |t| && t[i] == nic;
      RequestedLinks(nics, configs, nics[i].id);
    }
    forall ip | ip in Asked(configs) ensures ip in Held(t) {
      var c :| c in configs && LinkData(c).Some? && LinkData(c).value.mode == Static && LinkData(c).value.ip == ip;
      NicIdFound(nics, c.mac);
      var i :| 0 <= i < |nics| && nics[i].id == NicId(nics, c.mac).value;
      RequestedLinks(nics, configs, nics[i].id);
      assert LinkData(c).value in t[i].links && t[i] in t;
    }
  }

  lemma TakenSplits(nics: seq<Nic>, reserved: set<string>, elsewhere: set<string>, configs: seq<NicConfig>)
    ensures Consistent(nics, reserved + elsewhere, configs)
            <==> Consistent(nics, reserved, configs) && Asked(configs) !! elsewhere
  {
    if Consistent(nics, reserved + elsewhere, configs) {
      forall c <- configs ensures Sound(nics, reserved, c) { assert Sound(nics, reserved + elsewhere, c); }
      forall ip | ip in Asked(configs) ensures ip !in elsewhere {
        var c :| c in configs && LinkData(c).Some? && LinkData(c).value.mode == Static && LinkData(c).value.ip == ip;
        assert Sound(nics, reserved + elsewhere, c);
      }
    }
    if Consistent(nics, reserved, configs) && Asked(configs) !! elsewhere {
      forall c <- configs ensures Sound(nics, reserved + elsewhere, c) {
        assert Sound(nics, reserved, c);
        assert LinkData(c).value.mode == Static ==> LinkData(c).value.ip in Asked(configs);
      }
    }
  }

  /** The first `n` machines are as configured, the others as they were. */
  ghost predicate Reached(hosts: seq<Host>, n: nat, nets: seq<seq<Nic>>) {
    && n <= |hosts| == |nets|
    && forall i | 0 <= i < |hosts| :: nets[i] == if i < n then Final(hosts[i]) else hosts[i].nics
  }

  lemma ElsewhereSplits(hosts: seq<Host>, i: nat, nets: seq<seq<Nic>>, asked: set<string>)
    requires i < |hosts| && Reached(hosts, i, nets)
    requires forall j | 0 <= j < i :: Held(Final(hosts[j])) == Left(hosts[j])
    ensures asked !! HeldElsewhere(nets, i)
            <==> && (forall j | 0 <= j < i :: asked !! Left(hosts[j]))
                 && (forall j | i < j < |hosts| :: asked !! Held(hosts[j].nics))
  {
    forall j | 0 <= j < |hosts| && j != i ensures asked !! HeldElsewhere(nets, i) ==> asked !! Held(nets[j]) {
      assert forall ip <- Held(nets[j]) :: ip in HeldElsewhere(nets, i);
    }
    if && (forall j | 0 <= j < i :: asked !! Left(hosts[j]))
       && (forall j | i < j < |hosts| :: asked !! Held(hosts[j].nics)) {
      forall ip <- asked ensures ip !in HeldElsewhere(nets, i) {
        forall j | 0 <= j < |nets| && j != i ensures ip !in Held(nets[j]) {}
      }
    }
  }

  /** One machine of the run, after machines that were all accepted. */
  lemma NextWelcome(hosts: seq<Host>, reserved: set<string>, i: nat, nets: seq<seq<Nic>>)
    requires i < |hosts| && Reached(hosts, i, nets) && hosts[i].configs != []
    requires forall j | 0 <= j < i :: Welcome(hosts, reserved, j)
    ensures var o := Assign(Outcome(true, nets[i], 0), reserved + HeldElsewhere(nets, i), hosts[i].configs, SERVING);
      (o.ok <==> Welcome(hosts, reserved, i)) && (o.ok ==> o.nics == Final(hosts[i]))
  {
    var h := hosts[i];
    var elsewhere := HeldElsewhere(nets, i);
    forall j | 0 <= j < i ensures Held(Final(hosts[j])) == Left(hosts[j]) {
      assert Welcome(hosts, reserved, j);
      if hosts[j].configs != [] { TargetHolds(hosts[j].nics, reserved, hosts[j].configs); }
    }
    AssignExactly(Outcome(true, h.nics, 0), reserved + elsewhere, h.configs, SERVING);
    TakenSplits(h.nics, reserved, elsewhere, h.configs);
    ElsewhereSplits(hosts, i, nets, Asked(h.configs));
  }

  ghost predicate AllWelcome(hosts: seq<Host>, reserved: set<string>, n: nat)
    requires n <= |hosts|
  {
    forall i | 0 <= i < n :: Welcome(hosts, reserved, i)
  }

  /** The state after the first `n` machines: all well exactly when all are welcome. */
  ghost predicate Decided(hosts: seq<Host>, reserved: set<string>, n: nat, r: State)
    requires n <= |hosts|
  {
    (r.ok <==> AllWelcome(hosts, reserved, n)) && (r.ok ==> Reached(hosts, n, r.nets))
  }

  lemma DecidedNext(before: State, hosts: seq<Host>, reserved: set<string>, i: nat, after: State)
    requires i < |hosts| == |before.nets| && Decided(hosts, reserved, i, before)
    requires after == ProcessOne(before, hosts, reserved, i)
    ensures Decided(hosts, reserved, i + 1, after)
  {
    if before.ok && hosts[i].configs != [] {
      NextWelcome(hosts, reserved, i, before.nets);
      ReachedNext(hosts, i, before.nets);
    }
  }

  lemma DecidedStart(hosts: seq<Host>, reserved: set<string>)
    ensures Decided(hosts, reserved, 0, Process(hosts, reserved, 0))
  {
  }

  lemma {:induction false} RunDecides(hosts: seq<Host>, reserved: set<string>, n: nat)
    requires n <= |hosts|
    ensures Decided(hosts, reserved, n, Process(hosts, reserved, n))
  {
    if n == 0 {
      DecidedStart(hosts, reserved);
    } else {
      RunDecides(hosts, reserved, n - 1);
      DecidedNext(Process(hosts, reserved, n - 1), hosts, reserved, n - 1, Process(hosts, reserved, n));
    }
  }

  /** A whole run goes through exactly when every configuration is consistent on its machine, no
      address is asked for that an earlier machine has got or kept, and none that a later machine
      still holds; every machine then ends as configured. */
  lemma RunExactly(hosts: seq<Host>, reserved: set<string>)
    ensures var r := Process(hosts, reserved, |hosts|);
      && (r.ok <==> forall i | 0 <= i < |hosts| :: Welcome(hosts, reserved, i))
      && (r.ok ==> forall i | 0 <= i < |hosts| :: r.nets[i] == Final(hosts[i]))
  {
    RunDecides(hosts, reserved, |hosts|);
  }

  lemma ReachedNext(hosts: seq<Host>, i: nat, nets: seq<seq<Nic>>)
    requires i < |hosts| && Reached(hosts, i, nets)
    ensures Reached(hosts, i + 1, nets[i := Final(hosts[i])])
  {
  }

  /** Whatever became of the machines before it, every machine has its turn, as it was at the start
      and with the addresses the others hold then; later turns do not touch it. */
  lemma EveryTurn(hosts: seq<Host>, reserved: set<string>, i: nat, n: nat)
    requires i < n <= |hosts|
    ensures Process(hosts, reserved, i).nets[i] == hosts[i].nics
    ensures var nets := Process(hosts, reserved, i).nets;
      Process(hosts, reserved, n).nets[i]
      == if hosts[i].configs == [] then hosts[i].nics
         else Assign(Outcome(true, hosts[i].nics, 0), reserved + HeldElsewhere(nets, i), hosts[i].configs, SERVING).nics
  {
    Waiting(hosts, reserved, i, i);
    KeptAfter(hosts, reserved, i, n);
    assert Process(hosts, reserved, i + 1) == ProcessOne(Process(hosts, reserved, i), hosts, reserved, i);
  }

  lemma {:induction false} KeptAfter(hosts: seq<Host>, reserved: set<string>, i: nat, n: nat)
    requires i < n <= |hosts|
    ensures Process(hosts, reserved, n).nets[i] == Process(hosts, reserved, i + 1).nets[i]
  {
    if n > i + 1 { KeptAfter(hosts, reserved, i, n - 1); }
  }

  lemma {:induction false} Waiting(hosts: seq<Host>, reserved: set<string>, i: nat, n: nat)
    requires n <= i < |hosts|
    ensures Process(hosts, reserved, n).nets[i] == hosts[i].nics
  {
    if n > 0 { Waiting(hosts, reserved, i, n - 1); }
  }

  /** An address is held elsewhere when another machine has a static link with it. */
  lemma HeldElsewhereExactly(nets: seq<seq<Nic>>, i: nat, ip: string)
    ensures ip in HeldElsewhere(nets, i)
            <==> exists j, k, l | 0 <= j < |nets| && j != i && 0 <= k < |nets[j]| && l in nets[j][k].links ::
                   l.mode == Static && l.ip == ip
  {
    if ip in HeldElsewhere(nets, i) {
      var j :| 0 <= j < |nets| && j != i && ip in Held(nets[j]);
      var nic, l :| nic in nets[j] && l in nic.links && l.mode == Static && l.ip == ip;
      var k :| 0 <= k < |nets[j]| && nets[j][k] == nic;
      assert l in nets[j][k].links;
    }
    if j, k, l :| 0 <= j < |nets| && j != i && 0 <= k < |nets[j]| && l in nets[j][k].links
                  && l.mode == Static && l.ip == ip {
      assert nets[j][k] in nets[j] && ip in Held(nets[j]);
    }
  }

  /** Disconnecting machine by machine does not help with an exchange between two machines: it is
      refused in either order. */
  lemma ExchangeIsRefused(a: Host, b: Host, reserved: set<string>)
    requires !(Asked(a.configs) !! Held(b.nics)) && !(Asked(b.configs) !! Held(a.nics))
    ensures !Process([a, b], reserved, 2).ok && !Process([b, a], reserved, 2).ok
  {
    RunExactly([a, b], reserved);
    RunExactly([b, a], reserved);
    assert !Welcome([a, b], reserved, 0) && !Welcome([b, a], reserved, 0);
  }
}
