/** `AssignMachinesIP` of mcp/salt-formulas/salt-formula-maas/_modules/maas.py: every interface of
    a machine is disconnected, then the configured ones are updated and linked, because the server
    refuses an address that another interface still holds. Any request can also fail for other
    reasons, before or after it took effect. */
module AssignMachinesIp {
  import opened Common

  datatype Mode = Static | Dhcp | Auto | LinkUp

  /** The body of one `link_subnet` request; empty strings stand for absent keys. */
  datatype Link = Link(mode: Mode, subnet: string, ip: string, gateway: string)

  datatype Physical = Physical(name: string, tags: string, vlan: string)

  datatype Nic = Nic(id: nat, mac: string, physical: Physical, links: seq<Link>)

  /** One entry of the `interfaces` dictionary. */
  datatype NicConfig = NicConfig(
    mac: string, mode: Option<string>, subnet: Option<string>, ip: Option<string>,
    gateway: Option<string>, physical: Physical)

  // ----- request data -----

  /** `str(None)` is the text `None`. */
  function Str(o: Option<string>): string {
    if o.Some? then o.value else "None"
  }

  function OrEmpty(o: Option<string>): string {
    if o.Some? then o.value else ""
  }

  /** `None` stands for the exception on an unknown mode. */
  function LinkData(c: NicConfig): Option<Link> {
    var mode := Upper(if c.mode.Some? then c.mode.value else "AUTO");
    if mode == "STATIC" then Some(Link(Static, Str(c.subnet), Str(c.ip), OrEmpty(c.gateway)))
    else if mode == "DHCP" then Some(Link(Dhcp, Str(c.subnet), "", ""))
    else if mode == "AUTO" then Some(Link(Auto, "", "", OrEmpty(c.gateway)))
    else if mode == "LINK_UP" || mode == "UNCONFIGURED" then Some(Link(LinkUp, "", "", ""))
    else None
  }

  // ----- the server's view of the interfaces of one machine -----

  predicate Holds(nic: Nic, ip: string) {
    exists l <- nic.links :: l.mode == Static && l.ip == ip
  }

  function Disconnected(nics: seq<Nic>, id: nat): seq<Nic> {
    seq(|nics|, i requires 0 <= i < |nics| => if nics[i].id == id then nics[i].(links := []) else nics[i])
  }

  function WithPhysical(nics: seq<Nic>, id: nat, physical: Physical): seq<Nic> {
    seq(|nics|, i requires 0 <= i < |nics| => if nics[i].id == id then nics[i].(physical := physical) else nics[i])
  }

  function Linked(nics: seq<Nic>, id: nat, link: Link): seq<Nic> {
    seq(|nics|, i requires 0 <= i < |nics| =>
      if nics[i].id == id then nics[i].(links := nics[i].links + [link]) else nics[i])
  }

  /** A static address in use elsewhere (`taken`) or on another interface is refused. */
  predicate AcceptsLink(nics: seq<Nic>, taken: set<string>, id: nat, link: Link) {
    link.mode == Static ==> link.ip !in taken && forall nic <- nics :: nic.id != id ==> !Holds(nic, link.ip)
  }

  // ----- the run over the configured interfaces -----

  /** The dictionary built from the interface set keeps the last interface of a MAC. */
  function NicId(snapshot: seq<Nic>, mac: string): Option<nat> {
    if snapshot == [] then None
    else if snapshot[|snapshot| - 1].mac == mac then Some(snapshot[|snapshot| - 1].id)
    else NicId(snapshot[..|snapshot| - 1], mac)
  }

  type Faults = nat -> Fault

  /** The interfaces after `sent` requests, none of which failed if `ok`. */
  datatype Outcome = Outcome(ok: bool, nics: seq<Nic>, sent: nat)

  /** One request, which the server may refuse by its rules or fail otherwise. */
  function Request(o: Outcome, accepted: bool, updated: seq<Nic>, faults: Faults): Outcome {
    Outcome(accepted && faults(o.sent) == Served,
            if accepted && faults(o.sent) != Refused then updated else o.nics,
            o.sent + 1)
  }

  function DisconnectAll(o: Outcome, snapshot: seq<Nic>, faults: Faults): Outcome {
    if snapshot == [] then o
    else
      var before := DisconnectAll(o, snapshot[..|snapshot| - 1], faults);
      if !before.ok then before
      else Request(before, true, Disconnected(before.nics, snapshot[|snapshot| - 1].id), faults)
  }

  function ProcessInterface(o: Outcome, snapshot: seq<Nic>, taken: set<string>, c: NicConfig, faults: Faults): Outcome {
    var id, link := NicId(snapshot, c.mac), LinkData(c);
    if !o.ok || id.None? || link.None? then o.(ok := false)
    else
      var put := Request(o, true, WithPhysical(o.nics, id.value, c.physical), faults);
      if !put.ok then put
      else
        Request(put, AcceptsLink(put.nics, taken, id.value, link.value), Linked(put.nics, id.value, link.value), faults)
  }

  /** An exception for one interface ends the processing of the machine. */
  function LinkAll(o: Outcome, snapshot: seq<Nic>, taken: set<string>, configs: seq<NicConfig>, faults: Faults)
    : Outcome
  {
    if configs == [] then o
    else
      var before := LinkAll(o, snapshot, taken, configs[..|configs| - 1], faults);
      ProcessInterface(before, snapshot, taken, configs[|configs| - 1], faults)
  }

  function Assign(o: Outcome, taken: set<string>, configs: seq<NicConfig>, faults: Faults): Outcome {
    LinkAll(DisconnectAll(o, o.nics, faults), o.nics, taken, configs, faults)
  }

  // ----- what the configuration asks for -----

  ghost predicate Aims(snapshot: seq<Nic>, c: NicConfig, id: nat) {
    NicId(snapshot, c.mac) == Some(id)
  }

  /** The links requested for one interface, in processing order. */
  ghost function Requested(snapshot: seq<Nic>, configs: seq<NicConfig>, id: nat): seq<Link> {
    if configs == [] then []
    else
      var c := configs[|configs| - 1];
      Requested(snapshot, configs[..|configs| - 1], id)
      + if Aims(snapshot, c, id) && LinkData(c).Some? then [LinkData(c).value] else []
  }

  ghost function RequestedPhysical(snapshot: seq<Nic>, configs: seq<NicConfig>, nic: Nic): Physical {
    if configs == [] then nic.physical
    else
      var c := configs[|configs| - 1];
      if Aims(snapshot, c, nic.id) then c.physical
      else RequestedPhysical(snapshot, configs[..|configs| - 1], nic)
  }

  /** Each entry is meaningful: its interface exists, its mode is known, its static address is
      free on the other machines. */
  ghost predicate Sound(snapshot: seq<Nic>, taken: set<string>, c: NicConfig) {
    && NicId(snapshot, c.mac).Some?
    && LinkData(c).Some?
    && (LinkData(c).value.mode == Static ==> LinkData(c).value.ip !in taken)
  }

  /** Two entries ask for one static address on two interfaces. */
  ghost predicate Clash(snapshot: seq<Nic>, a: NicConfig, b: NicConfig) {
    && NicId(snapshot, a.mac) != NicId(snapshot, b.mac)
    && LinkData(a).Some? && LinkData(b).Some?
    && LinkData(a).value.mode == Static && LinkData(b).value.mode == Static
    && LinkData(a).value.ip == LinkData(b).value.ip
  }

  ghost predicate Consistent(snapshot: seq<Nic>, taken: set<string>, configs: seq<NicConfig>) {
    && (forall c <- configs :: Sound(snapshot, taken, c))
    && (forall a <- configs, b <- configs :: !Clash(snapshot, a, b))
  }

  /** The interfaces `held` with the links asked for added to those they have. */
  ghost function Added(snapshot: seq<Nic>, held: seq<Nic>, configs: seq<NicConfig>): seq<Nic> {
    seq(|held|, i requires 0 <= i < |held| =>
      held[i].(links := held[i].links + Requested(snapshot, configs, held[i].id),
               physical := RequestedPhysical(snapshot, configs, held[i])))
  }

  ghost function Target(nics: seq<Nic>, configs: seq<NicConfig>): seq<Nic> {
    seq(|nics|, i requires 0 <= i < |nics| =>
      nics[i].(links := Requested(nics, configs, nics[i].id), physical := RequestedPhysical(nics, configs, nics[i])))
  }

  /** No interface but the one aimed at holds the address the entry asks for. */
  ghost predicate Unheld(snapshot: seq<Nic>, held: seq<Nic>, c: NicConfig) {
    NicId(snapshot, c.mac).Some? && LinkData(c).Some? && LinkData(c).value.mode == Static ==>
      forall nic <- held :: nic.id != NicId(snapshot, c.mac).value ==> !Holds(nic, LinkData(c).value.ip)
  }

  ghost predicate AllServed(faults: Faults, from: nat, to: nat) {
    forall n: nat | from <= n < to :: faults(n) == Served
  }

  /** The same interfaces, whatever their links and attributes. */
  ghost predicate SameDevices(a: seq<Nic>, b: seq<Nic>) {
    |a| == |b| && forall i | 0 <= i < |a| :: a[i].id == b[i].id && a[i].mac == b[i].mac
  }

  // ----- proofs -----

  lemma {:induction false} NicIdFound(snapshot: seq<Nic>, mac: string)
    ensures var id := NicId(snapshot, mac); id.Some? ==> exists nic <- snapshot :: nic.id == id.value && nic.mac == mac
    ensures NicId(snapshot, mac).None? ==> forall nic <- snapshot :: nic.mac != mac
  {
    if snapshot != [] && snapshot[|snapshot| - 1].mac != mac {
      NicIdFound(snapshot[..|snapshot| - 1], mac);
    }
  }

  /** Only links differ, and if all went well the first `n` interfaces have none. */
  ghost predicate Unlinked(nics: seq<Nic>, d: Outcome, n: nat) {
    && |d.nics| == |nics|
    && (forall i | 0 <= i < |nics| :: d.nics[i] == nics[i].(links := d.nics[i].links))
    && (d.ok ==> forall i | 0 <= i < |nics| && i < n :: d.nics[i].links == [])
  }

  lemma DisconnectStep(nics: seq<Nic>, t: Outcome, n: nat, faults: Faults)
    requires n < |nics| && t.ok && Unlinked(nics, t, n)
    ensures var r := Request(t, true, Disconnected(t.nics, nics[n].id), faults);
      && Unlinked(nics, r, n + 1)
      && (r.ok <==> AllServed(faults, t.sent, t.sent + 1)) && r.sent == t.sent + 1
  {
    assert AllServed(faults, t.sent, t.sent + 1) <==> faults(t.sent) == Served;
    assert t.nics[n].id == nics[n].id;
  }

  lemma {:induction false} DisconnectedUpTo(o: Outcome, n: nat, faults: Faults)
    requires o.ok && n <= |o.nics|
    ensures var d := DisconnectAll(o, o.nics[..n], faults);
      && Unlinked(o.nics, d, n)
      && (d.ok <==> AllServed(faults, o.sent, o.sent + n))
      && (d.ok ==> d.sent == o.sent + n)
  {
    if n > 0 {
      assert o.nics[..n][..n - 1] == o.nics[..n - 1];
      DisconnectedUpTo(o, n - 1, faults);
      ServedNext(faults, o.sent, o.sent + n - 1, 1);
      var before := DisconnectAll(o, o.nics[..n - 1], faults);
      if before.ok { DisconnectStep(o.nics, before, n - 1, faults); }
    }
  }

  /** Disconnecting leaves the machine as if nothing had been configured yet. */
  lemma DisconnectAllTarget(o: Outcome, faults: Faults)
    requires o.ok
    ensures var d := DisconnectAll(o, o.nics, faults);
      && SameDevices(o.nics, d.nics)
      && (d.ok <==> AllServed(faults, o.sent, o.sent + |o.nics|))
      && (d.ok ==> d.nics == Target(o.nics, []) && d.sent == o.sent + |o.nics|)
  {
    assert o.nics[..|o.nics|] == o.nics;
    DisconnectedUpTo(o, |o.nics|, faults);
  }

  lemma {:induction false} RequestedLinks(snapshot: seq<Nic>, configs: seq<NicConfig>, id: nat)
    ensures forall l <- Requested(snapshot, configs, id) ::
              exists c <- configs :: Aims(snapshot, c, id) && LinkData(c) == Some(l)
    ensures forall c <- configs :: Aims(snapshot, c, id) && LinkData(c).Some? ==>
              LinkData(c).value in Requested(snapshot, configs, id)
  {
    if configs != [] {
      var before, c := configs[..|configs| - 1], configs[|configs| - 1];
      RequestedLinks(snapshot, before, id);
      assert configs == before + [c];
    }
  }

  lemma HoldsAdded(nic: Nic, links: seq<Link>, physical: Physical, ip: string)
    ensures Holds(nic.(links := nic.links + links, physical := physical), ip)
            <==> Holds(nic, ip) || exists l <- links :: l.mode == Static && l.ip == ip
  {
    var more := nic.(links := nic.links + links, physical := physical);
    forall l ensures l in more.links <==> l in nic.links || l in links {}
  }

  /** An interface holds an address once it held it before, or an entry asked for it. */
  lemma HoldsAfter(snapshot: seq<Nic>, held: seq<Nic>, before: seq<NicConfig>, i: nat, ip: string)
    requires i < |held|
    ensures Holds(Added(snapshot, held, before)[i], ip)
            <==> Holds(held[i], ip) || exists b <- before :: Aims(snapshot, b, held[i].id) && LinkData(b).Some?
                                                            && LinkData(b).value.mode == Static
                                                            && LinkData(b).value.ip == ip
  {
    var nic := held[i];
    RequestedLinks(snapshot, before, nic.id);
    HoldsAdded(nic, Requested(snapshot, before, nic.id), RequestedPhysical(snapshot, before, nic), ip);
  }

  /** The next link is accepted on the interfaces linked so far exactly when its entry is sound,
      clashes with none before it, and its address was not held elsewhere at the start. */
  lemma NextAccepted(snapshot: seq<Nic>, held: seq<Nic>, taken: set<string>, before: seq<NicConfig>, c: NicConfig)
    requires SameDevices(snapshot, held) && NicId(snapshot, c.mac).Some? && LinkData(c).Some?
    requires forall b <- before :: Sound(snapshot, taken, b)
    ensures AcceptsLink(WithPhysical(Added(snapshot, held, before), NicId(snapshot, c.mac).value, c.physical), taken,
                        NicId(snapshot, c.mac).value, LinkData(c).value)
            <==> Sound(snapshot, taken, c) && Unheld(snapshot, held, c) && forall b <- before :: !Clash(snapshot, b, c)
  {
    var id, link := NicId(snapshot, c.mac).value, LinkData(c).value;
    var t := Added(snapshot, held, before);
    var u := WithPhysical(t, id, c.physical);
    if link.mode == Static {
      forall i | 0 <= i < |u|
        ensures u[i].id == held[i].id
        ensures Holds(u[i], link.ip)
                <==> Holds(held[i], link.ip) || exists b <- before :: Gives(snapshot, b, held[i].id, link.ip)
      {
        HoldsAfter(snapshot, held, before, i, link.ip);
        assert Holds(u[i], link.ip) <==> Holds(t[i], link.ip) by { assert u[i].links == t[i].links; }
      }
      AcceptsByIndex(u, taken, id, link);
      UnheldByIndex(snapshot, held, c);
      forall b <- before | Clash(snapshot, b, c)
        ensures exists i :: 0 <= i < |u| && u[i].id != id && Holds(u[i], link.ip)
      {
        NicIdFound(snapshot, b.mac);
        var i :| 0 <= i < |snapshot| && snapshot[i].id == NicId(snapshot, b.mac).value;
        assert Gives(snapshot, b, held[i].id, link.ip);
      }
    }
  }

  ghost predicate Gives(snapshot: seq<Nic>, b: NicConfig, id: nat, ip: string) {
    Aims(snapshot, b, id) && LinkData(b).Some? && LinkData(b).value.mode == Static && LinkData(b).value.ip == ip
  }

  lemma AcceptsByIndex(nics: seq<Nic>, taken: set<string>, id: nat, link: Link)
    requires link.mode == Static
    ensures AcceptsLink(nics, taken, id, link)
            <==> link.ip !in taken && forall i :: 0 <= i < |nics| && nics[i].id != id ==> !Holds(nics[i], link.ip)
  {
  }

  lemma UnheldByIndex(snapshot: seq<Nic>, held: seq<Nic>, c: NicConfig)
    requires NicId(snapshot, c.mac).Some? && LinkData(c).Some? && LinkData(c).value.mode == Static
    ensures Unheld(snapshot, held, c)
            <==> forall i :: 0 <= i < |held| && held[i].id != NicId(snapshot, c.mac).value ==>
                               !Holds(held[i], LinkData(c).value.ip)
  {
  }

  lemma NextAdded(snapshot: seq<Nic>, held: seq<Nic>, configs: seq<NicConfig>)
    requires configs != []
    ensures var c := configs[|configs| - 1];
      var t := Added(snapshot, held, configs[..|configs| - 1]);
      NicId(snapshot, c.mac).Some? && LinkData(c).Some? ==>
        var id := NicId(snapshot, c.mac).value;
        Linked(WithPhysical(t, id, c.physical), id, LinkData(c).value) == Added(snapshot, held, configs)
  {
    var before, c := configs[..|configs| - 1], configs[|configs| - 1];
    var t, t' := Added(snapshot, held, before), Added(snapshot, held, configs);
    if NicId(snapshot, c.mac).Some? && LinkData(c).Some? {
      var id, link := NicId(snapshot, c.mac).value, LinkData(c).value;
      forall i | 0 <= i < |held| ensures Linked(WithPhysical(t, id, c.physical), id, link)[i] == t'[i] {
        var nic := held[i];
        assert Aims(snapshot, c, nic.id) <==> nic.id == id;
        Associative(nic.links, Requested(snapshot, before, nic.id), [link]);
      }
    }
  }

  /** The entries can all be linked on interfaces in the state `held`. */
  ghost predicate Linkable(snapshot: seq<Nic>, held: seq<Nic>, taken: set<string>, configs: seq<NicConfig>) {
    Consistent(snapshot, taken, configs) && forall c <- configs :: Unheld(snapshot, held, c)
  }

  lemma LinkableNext(snapshot: seq<Nic>, held: seq<Nic>, taken: set<string>, configs: seq<NicConfig>)
    requires configs != []
    ensures var before, c := configs[..|configs| - 1], configs[|configs| - 1];
      Linkable(snapshot, held, taken, configs)
      <==> Linkable(snapshot, held, taken, before)
           && Sound(snapshot, taken, c) && Unheld(snapshot, held, c) && forall b <- before :: !Clash(snapshot, b, c)
  {
    var before, c := configs[..|configs| - 1], configs[|configs| - 1];
    assert configs == before + [c];
  }

  /** Linking, from any links: the server accepts it throughout exactly when the configuration is
      consistent and asks for no address that another interface held at the start. */
  lemma {:induction false} LinkAllExactly(
    o: Outcome, snapshot: seq<Nic>, taken: set<string>, configs: seq<NicConfig>, faults: Faults)
    requires o.ok && SameDevices(snapshot, o.nics)
    ensures var r := LinkAll(o, snapshot, taken, configs, faults);
      && (r.ok <==> Linkable(snapshot, o.nics, taken, configs) && AllServed(faults, o.sent, o.sent + 2 * |configs|))
      && (r.ok ==> r.nics == Added(snapshot, o.nics, configs) && r.sent == o.sent + 2 * |configs|)
  {
    if configs == [] {
      AddedNone(snapshot, o.nics);
    } else {
      var before := configs[..|configs| - 1];
      LinkAllExactly(o, snapshot, taken, before, faults);
      LinkableNext(snapshot, o.nics, taken, configs);
      ServedNext(faults, o.sent, o.sent + 2 * |before|, 2);
      var t := LinkAll(o, snapshot, taken, before, faults);
      if t.ok { LinkStep(t, snapshot, o.nics, taken, configs, faults); }
    }
  }

  lemma LinkStep(
    t: Outcome, snapshot: seq<Nic>, held: seq<Nic>, taken: set<string>, configs: seq<NicConfig>, faults: Faults)
    requires configs != [] && t.ok && SameDevices(snapshot, held)
    requires Linkable(snapshot, held, taken, configs[..|configs| - 1])
    requires t.nics == Added(snapshot, held, configs[..|configs| - 1])
    ensures var before, c := configs[..|configs| - 1], configs[|configs| - 1];
      var r := ProcessInterface(t, snapshot, taken, c, faults);
      && (r.ok <==> Sound(snapshot, taken, c) && Unheld(snapshot, held, c)
                    && (forall b <- before :: !Clash(snapshot, b, c))
                    && AllServed(faults, t.sent, t.sent + 2))
      && (r.ok ==> r.nics == Added(snapshot, held, configs) && r.sent == t.sent + 2)
  {
    var before, c := configs[..|configs| - 1], configs[|configs| - 1];
    if NicId(snapshot, c.mac).Some? && LinkData(c).Some? {
      NextAccepted(snapshot, held, taken, before, c);
      NextAdded(snapshot, held, configs);
      assert AllServed(faults, t.sent, t.sent + 2) <==> faults(t.sent) == Served && faults(t.sent + 1) == Served;
    }
  }

  lemma ServedNext(faults: Faults, from: nat, middle: nat, more: nat)
    requires from <= middle
    ensures AllServed(faults, from, middle + more)
            <==> AllServed(faults, from, middle) && AllServed(faults, middle, middle + more)
  {
  }

  lemma AddedNone(snapshot: seq<Nic>, held: seq<Nic>)
    ensures Added(snapshot, held, []) == held
  {
    forall i | 0 <= i < |held| ensures Added(snapshot, held, [])[i] == held[i] {
      assert held[i].links + [] == held[i].links;
    }
  }

  lemma UnlinkedHoldsNothing(nics: seq<Nic>, configs: seq<NicConfig>)
    ensures forall c <- configs :: Unheld(nics, Target(nics, []), c)
    ensures Added(nics, Target(nics, []), configs) == Target(nics, configs)
  {
    var bare := Target(nics, []);
    forall i | 0 <= i < |nics|
      ensures bare[i].links == [] && Added(nics, bare, configs)[i] == Target(nics, configs)[i]
    {
      PhysicalIgnoresLinks(nics, configs, nics[i], []);
      assert bare[i] == nics[i].(links := []);
      assert [] + Requested(nics, configs, nics[i].id) == Requested(nics, configs, nics[i].id);
    }
  }

  lemma {:induction false} PhysicalIgnoresLinks(snapshot: seq<Nic>, configs: seq<NicConfig>, nic: Nic, links: seq<Link>)
    ensures RequestedPhysical(snapshot, configs, nic.(links := links)) == RequestedPhysical(snapshot, configs, nic)
  {
    if configs != [] { PhysicalIgnoresLinks(snapshot, configs[..|configs| - 1], nic, links); }
  }

  /** From any links, the assignment goes through exactly when the configuration is consistent and
      no request fails by itself; the interfaces then carry the links asked for, and nothing else,
      whatever they had. */
  lemma AssignExactly(o: Outcome, taken: set<string>, configs: seq<NicConfig>, faults: Faults)
    requires o.ok
    ensures var r := Assign(o, taken, configs, faults);
      && (r.ok <==> Consistent(o.nics, taken, configs)
                    && AllServed(faults, o.sent, o.sent + |o.nics| + 2 * |configs|))
      && (r.ok ==> r.nics == Target(o.nics, configs))
  {
    DisconnectAllTarget(o, faults);
    var d := DisconnectAll(o, o.nics, faults);
    if d.ok {
      LinkAllExactly(d, o.nics, taken, configs, faults);
      UnlinkedHoldsNothing(o.nics, configs);
    } else {
      FailureStays(d, o.nics, taken, configs, 0, faults);
    }
  }

  /** Why everything is disconnected first: when requests are served, linking alone is refused and
      the assignment accepted exactly for a consistent configuration that asks for an address
      another interface of the machine holds at the start, as when two are exchanged. */
  lemma DisconnectNeededExactly(nics: seq<Nic>, taken: set<string>, configs: seq<NicConfig>, faults: Faults)
    requires AllServed(faults, 0, |nics| + 2 * |configs|)
    ensures var start := Outcome(true, nics, 0);
      Assign(start, taken, configs, faults).ok && !LinkAll(start, nics, taken, configs, faults).ok
      <==> Consistent(nics, taken, configs) && exists c <- configs :: !Unheld(nics, nics, c)
  {
    var start := Outcome(true, nics, 0);
    AssignExactly(start, taken, configs, faults);
    LinkAllExactly(start, nics, taken, configs, faults);
  }

  lemma SameLookups(a: seq<Nic>, b: seq<Nic>, mac: string)
    requires SameDevices(a, b)
    ensures NicId(a, mac) == NicId(b, mac)
  {
    if a != [] { SameLookups(a[..|a| - 1], b[..|b| - 1], mac); }
  }

  lemma {:induction false} LinkAllKeepsDevices(
    o: Outcome, snapshot: seq<Nic>, taken: set<string>, configs: seq<NicConfig>, faults: Faults)
    ensures SameDevices(o.nics, LinkAll(o, snapshot, taken, configs, faults).nics)
  {
    if configs != [] {
      LinkAllKeepsDevices(o, snapshot, taken, configs[..|configs| - 1], faults);
      var before := LinkAll(o, snapshot, taken, configs[..|configs| - 1], faults);
      InterfaceKeepsDevices(before, snapshot, taken, configs[|configs| - 1], faults);
    }
  }

  lemma InterfaceKeepsDevices(o: Outcome, snapshot: seq<Nic>, taken: set<string>, c: NicConfig, faults: Faults)
    ensures SameDevices(o.nics, ProcessInterface(o, snapshot, taken, c, faults).nics)
  {
  }

  lemma {:induction false} SameRequests(a: seq<Nic>, b: seq<Nic>, configs: seq<NicConfig>, id: nat)
    requires SameDevices(a, b)
    ensures Requested(a, configs, id) == Requested(b, configs, id)
  {
    if configs != [] {
      SameRequests(a, b, configs[..|configs| - 1], id);
      SameLookups(a, b, configs[|configs| - 1].mac);
    }
  }

  /** An interface that no entry aims at keeps its attributes, however requests fail. */
  lemma {:induction false} UnaimedKeepsPhysical(
    o: Outcome, snapshot: seq<Nic>, taken: set<string>, configs: seq<NicConfig>, faults: Faults, i: nat)
    requires i < |o.nics| && forall c <- configs :: !Aims(snapshot, c, o.nics[i].id)
    ensures var r := LinkAll(o, snapshot, taken, configs, faults);
      |r.nics| == |o.nics| && r.nics[i].id == o.nics[i].id && r.nics[i].physical == o.nics[i].physical
  {
    if configs != [] {
      var front, c := configs[..|configs| - 1], configs[|configs| - 1];
      assert configs == front + [c];
      UnaimedKeepsPhysical(o, snapshot, taken, front, faults, i);
      UnaimedStep(LinkAll(o, snapshot, taken, front, faults), snapshot, taken, c, faults, i);
    }
  }

  lemma UnaimedStep(o: Outcome, snapshot: seq<Nic>, taken: set<string>, c: NicConfig, faults: Faults, i: nat)
    requires i < |o.nics| && !Aims(snapshot, c, o.nics[i].id)
    ensures var r := ProcessInterface(o, snapshot, taken, c, faults);
      |r.nics| == |o.nics| && r.nics[i].id == o.nics[i].id && r.nics[i].physical == o.nics[i].physical
  {
  }

  lemma {:induction false} SamePhysical(a: seq<Nic>, b: seq<Nic>, configs: seq<NicConfig>, x: Nic, y: Nic)
    requires SameDevices(a, b) && x.id == y.id
    requires x.physical == y.physical || exists c <- configs :: Aims(a, c, x.id)
    ensures RequestedPhysical(a, configs, x) == RequestedPhysical(b, configs, y)
  {
    if configs != [] {
      var front, c := configs[..|configs| - 1], configs[|configs| - 1];
      assert configs == front + [c];
      SameLookups(a, b, c.mac);
      if !Aims(a, c, x.id) { SamePhysical(a, b, front, x, y); }
    }
  }

  lemma FirstKeeps(nics: seq<Nic>, taken: set<string>, configs: seq<NicConfig>, faults: Faults)
    ensures var first := Assign(Outcome(true, nics, 0), taken, configs, faults).nics;
      && SameDevices(nics, first)
      && forall i | 0 <= i < |nics| && (forall c <- configs :: !Aims(nics, c, nics[i].id)) ::
           first[i].physical == nics[i].physical
  {
    var start := Outcome(true, nics, 0);
    var d := DisconnectAll(start, nics, faults);
    assert nics[..|nics|] == nics;
    DisconnectedUpTo(start, |nics|, faults);
    LinkAllKeepsDevices(d, nics, taken, configs, faults);
    var first := Assign(start, taken, configs, faults).nics;
    forall i | 0 <= i < |nics| && (forall c <- configs :: !Aims(nics, c, nics[i].id))
      ensures first[i].physical == nics[i].physical
    {
      assert d.nics[i] == nics[i].(links := d.nics[i].links);
      UnaimedKeepsPhysical(d, nics, taken, configs, faults, i);
    }
  }

  /** The interfaces asked for do not depend on what a first assignment left behind. */
  lemma SameTarget(nics: seq<Nic>, first: seq<Nic>, configs: seq<NicConfig>)
    requires SameDevices(nics, first)
    requires forall i | 0 <= i < |nics| && (forall c <- configs :: !Aims(nics, c, nics[i].id)) ::
               first[i].physical == nics[i].physical
    ensures Target(first, configs) == Target(nics, configs)
  {
    forall i | 0 <= i < |nics| ensures Target(first, configs)[i] == Target(nics, configs)[i] {
      SameRequests(nics, first, configs, nics[i].id);
      SamePhysical(nics, first, configs, nics[i], first[i]);
    }
  }

  lemma SameConsistency(nics: seq<Nic>, first: seq<Nic>, taken: set<string>, configs: seq<NicConfig>)
    requires SameDevices(nics, first)
    ensures Consistent(nics, taken, configs) <==> Consistent(first, taken, configs)
  {
    forall c <- configs ensures NicId(nics, c.mac) == NicId(first, c.mac) { SameLookups(nics, first, c.mac); }
  }

  /** However an assignment failed half-way, repeating it with its requests served leads to the
      interfaces that the first one would have led to, links and attributes. */
  lemma RetryRepairs(nics: seq<Nic>, taken: set<string>, configs: seq<NicConfig>, faults: Faults, later: Faults)
    requires Consistent(nics, taken, configs)
    requires var first := Assign(Outcome(true, nics, 0), taken, configs, faults);
      AllServed(later, 0, |first.nics| + 2 * |configs|)
    ensures var first := Assign(Outcome(true, nics, 0), taken, configs, faults);
      var second := Assign(Outcome(true, first.nics, 0), taken, configs, later);
      second.ok && second.nics == Target(nics, configs)
  {
    var first := Assign(Outcome(true, nics, 0), taken, configs, faults).nics;
    FirstKeeps(nics, taken, configs, faults);
    SameConsistency(nics, first, taken, configs);
    SameTarget(nics, first, configs);
    AssignExactly(Outcome(true, first, 0), taken, configs, later);
  }

  /** No interface is configured by two entries. */
  ghost predicate OneEntryEach(nics: seq<Nic>, configs: seq<NicConfig>) {
    forall a, b :: 0 <= a < b < |configs| ==> NicId(nics, configs[a].mac) != NicId(nics, configs[b].mac)
  }

  /** With every MAC configured once, a configured interface ends with just its own link and
      its own attributes, and the others end unlinked. */
  lemma {:induction false} OneLinkEach(nics: seq<Nic>, configs: seq<NicConfig>, i: nat)
    requires i < |nics|
    requires OneEntryEach(nics, configs)
    requires forall c <- configs :: LinkData(c).Some?
    ensures var nic := Target(nics, configs)[i];
      && (forall c <- configs :: Aims(nics, c, nics[i].id) ==>
            nic.links == [LinkData(c).value] && nic.physical == c.physical)
      && ((forall c <- configs :: !Aims(nics, c, nics[i].id)) ==>
            nic.links == [] && nic.physical == nics[i].physical)
  {
    if configs != [] {
      var before, c := configs[..|configs| - 1], configs[|configs| - 1];
      assert configs == before + [c];
      OneLinkEach(nics, before, i);
    }
  }

  // ----- what an entry of the configuration means -----

  const MODES := {"STATIC", "DHCP", "AUTO", "LINK_UP", "UNCONFIGURED"}

  /** The entry has this mode, in any letter case; a missing mode counts as AUTO. */
  ghost predicate Asks(c: NicConfig, mode: string) {
    SameUpToCase(if c.mode.Some? then c.mode.value else "AUTO", mode)
  }

  /** What an interface is linked with for an entry: a static address with subnet and gateway, a
      subnet only, a gateway only, or nothing at all. */
  ghost predicate LinkedAs(c: NicConfig, l: Link) {
    && (Asks(c, "STATIC") ==>
          && l.mode == Static
          && l.ip == (if c.ip.Some? then c.ip.value else "None")
          && l.subnet == (if c.subnet.Some? then c.subnet.value else "None")
          && l.gateway == (if c.gateway.Some? then c.gateway.value else ""))
    && (Asks(c, "DHCP") ==>
          && l.mode == Dhcp && l.ip == "" && l.gateway == ""
          && l.subnet == (if c.subnet.Some? then c.subnet.value else "None"))
    && (Asks(c, "AUTO") ==>
          && l.mode == Auto && l.ip == "" && l.subnet == ""
          && l.gateway == (if c.gateway.Some? then c.gateway.value else ""))
    && (Asks(c, "LINK_UP") || Asks(c, "UNCONFIGURED") ==> l == Link(LinkUp, "", "", ""))
  }

  /** A mode is accepted exactly when it is one of the five, and then decides what is linked. */
  lemma ModesExactly(c: NicConfig)
    ensures LinkData(c).Some? <==> exists mode <- MODES :: Asks(c, mode)
    ensures LinkData(c).Some? ==> LinkedAs(c, LinkData(c).value)
  {
    var given := if c.mode.Some? then c.mode.value else "AUTO";
    forall mode <- MODES ensures Asks(c, mode) <==> Upper(given) == mode {
      CaseExactly(given, mode);
      CapitalsStay(mode);
    }
  }

  lemma CapitalsStay(mode: string)
    requires mode in MODES
    ensures Upper(mode) == mode
  {
  }

  /** The last interface listed with a MAC is the one meant. */
  lemma {:induction false} NicIdIsLast(snapshot: seq<Nic>, mac: string)
    ensures NicId(snapshot, mac) == None <==> forall nic <- snapshot :: nic.mac != mac
    ensures forall i | 0 <= i < |snapshot| && snapshot[i].mac == mac ::
              (forall j | i < j < |snapshot| :: snapshot[j].mac != mac) ==> NicId(snapshot, mac) == Some(snapshot[i].id)
  {
    if snapshot != [] {
      var front, last := snapshot[..|snapshot| - 1], snapshot[|snapshot| - 1];
      assert snapshot == front + [last];
      NicIdIsLast(front, mac);
      forall i | 0 <= i < |snapshot| && snapshot[i].mac == mac
                 && forall j | i < j < |snapshot| :: snapshot[j].mac != mac
        ensures NicId(snapshot, mac) == Some(snapshot[i].id)
      {
        if i < |front| { assert front[i] == snapshot[i] && snapshot[|front|] == last; }
      }
    }
  }

  /** After an assignment that went through, a configured interface holds exactly what its entry
      means, and has the attributes of the entry. */
  lemma EntryArrives(o: Outcome, taken: set<string>, configs: seq<NicConfig>, faults: Faults, k: nat, i: nat)
    requires o.ok && Assign(o, taken, configs, faults).ok && OneEntryEach(o.nics, configs)
    requires k < |configs| && i < |o.nics| && NicId(o.nics, configs[k].mac) == Some(o.nics[i].id)
    ensures var nics := Assign(o, taken, configs, faults).nics;
      && |nics| == |o.nics| && |nics[i].links| == 1
      && (exists mode <- MODES :: Asks(configs[k], mode)) && LinkedAs(configs[k], nics[i].links[0])
      && nics[i].physical == configs[k].physical
  {
    AssignExactly(o, taken, configs, faults);
    assert configs[k] in configs && forall c <- configs :: Sound(o.nics, taken, c);
    OneLinkEach(o.nics, configs, i);
    ModesExactly(configs[k]);
  }

  // ----- what a failed assignment leaves -----

  /** The interfaces after disconnecting the first `n`. */
  ghost function Cleared(nics: seq<Nic>, n: nat): seq<Nic>
    requires n <= |nics|
  {
    if n == 0 then nics else Disconnected(Cleared(nics, n - 1), nics[n - 1].id)
  }

  ghost predicate AmongFirst(nics: seq<Nic>, n: nat, id: nat)
    requires n <= |nics|
  {
    exists j | 0 <= j < n :: nics[j].id == id
  }

  lemma AmongNext(nics: seq<Nic>, n: nat, id: nat)
    requires n < |nics|
    ensures AmongFirst(nics, n + 1, id) <==> AmongFirst(nics, n, id) || nics[n].id == id
  {
  }

  /** Those have no links then, and the others are as they were. */
  lemma {:induction false} ClearedAt(nics: seq<Nic>, n: nat, i: nat)
    requires n <= |nics| && i < |nics|
    ensures |Cleared(nics, n)| == |nics|
    ensures Cleared(nics, n)[i] == if AmongFirst(nics, n, nics[i].id) then nics[i].(links := []) else nics[i]
  {
    if n > 0 {
      ClearedAt(nics, n - 1, i);
      AmongNext(nics, n - 1, nics[i].id);
    }
  }

  /** Of `m` interfaces to be disconnected, the first `n` were; the request for the next one, if
      any, failed, and may still have taken effect. */
  ghost predicate ClearedUpTo(o: Outcome, m: nat, faults: Faults, n: nat, d: Outcome)
    requires m <= |o.nics|
  {
    && n <= m && AllServed(faults, o.sent, o.sent + n)
    && if n == m then d == Outcome(true, Cleared(o.nics, n), o.sent + n)
       else
         && faults(o.sent + n) != Served
         && d == Outcome(false, Cleared(o.nics, if faults(o.sent + n) == Dropped then n + 1 else n), o.sent + n + 1)
  }

  lemma ClearedMore(o: Outcome, m: nat, faults: Faults, d: Outcome)
    requires m < |o.nics| && ClearedUpTo(o, m, faults, m, d)
    ensures ClearedUpTo(o, m + 1, faults, if faults(o.sent + m) == Served then m + 1 else m,
                        Request(d, true, Disconnected(d.nics, o.nics[m].id), faults))
  {
    var next := Request(d, true, Disconnected(d.nics, o.nics[m].id), faults);
    assert Cleared(o.nics, m + 1) == Disconnected(d.nics, o.nics[m].id);
    if faults(o.sent + m) == Served {
      ServedNext(faults, o.sent, o.sent + m, 1);
      assert AllServed(faults, o.sent + m, o.sent + m + 1);
      assert next == Outcome(true, Cleared(o.nics, m + 1), o.sent + (m + 1));
    }
  }

  /** Disconnecting stops at the first request that fails; the interfaces before it, and those only,
      have lost their links, that one if its request took effect. */
  lemma {:induction false} DisconnectStops(o: Outcome, m: nat, faults: Faults) returns (n: nat)
    requires o.ok && m <= |o.nics|
    ensures ClearedUpTo(o, m, faults, n, DisconnectAll(o, o.nics[..m], faults))
  {
    if m == 0 {
      n := 0;
    } else {
      assert o.nics[..m][..m - 1] == o.nics[..m - 1];
      var before := DisconnectAll(o, o.nics[..m - 1], faults);
      n := DisconnectStops(o, m - 1, faults);
      if n == m - 1 {
        ClearedMore(o, m - 1, faults, before);
        if faults(o.sent + m - 1) == Served { n := m; }
      }
    }
  }

  /** The entries before the k-th are linked, and the k-th is not accepted. */
  ghost predicate StopsAt(
    o: Outcome, snapshot: seq<Nic>, taken: set<string>, configs: seq<NicConfig>, faults: Faults, k: nat, r: Outcome)
  {
    && k < |configs| && Linkable(snapshot, o.nics, taken, configs[..k])
    && var before := Outcome(true, Added(snapshot, o.nics, configs[..k]), o.sent + 2 * k);
      r == ProcessInterface(before, snapshot, taken, configs[k], faults) && !r.ok
  }

  lemma StopsEarlier(o: Outcome, snapshot: seq<Nic>, taken: set<string>, configs: seq<NicConfig>, faults: Faults,
                     k: nat, r: Outcome)
    requires configs != [] && StopsAt(o, snapshot, taken, configs[..|configs| - 1], faults, k, r)
    ensures StopsAt(o, snapshot, taken, configs, faults, k, r)
    ensures ProcessInterface(r, snapshot, taken, configs[|configs| - 1], faults) == r
  {
    assert configs[..|configs| - 1][..k] == configs[..k];
  }

  lemma FrontLinked(o: Outcome, snapshot: seq<Nic>, taken: set<string>, front: seq<NicConfig>, faults: Faults)
    requires o.ok && SameDevices(snapshot, o.nics) && LinkAll(o, snapshot, taken, front, faults).ok
    ensures Linkable(snapshot, o.nics, taken, front)
    ensures LinkAll(o, snapshot, taken, front, faults)
            == Outcome(true, Added(snapshot, o.nics, front), o.sent + 2 * |front|)
  {
    LinkAllExactly(o, snapshot, taken, front, faults);
  }

  lemma StopsLast(o: Outcome, snapshot: seq<Nic>, taken: set<string>, configs: seq<NicConfig>, faults: Faults,
                  before: Outcome)
    requires configs != [] && o.ok && SameDevices(snapshot, o.nics) && before.ok
    requires before == LinkAll(o, snapshot, taken, configs[..|configs| - 1], faults)
    requires !ProcessInterface(before, snapshot, taken, configs[|configs| - 1], faults).ok
    ensures StopsAt(o, snapshot, taken, configs, faults, |configs| - 1,
                    ProcessInterface(before, snapshot, taken, configs[|configs| - 1], faults))
  {
    FrontLinked(o, snapshot, taken, configs[..|configs| - 1], faults);
  }

  /** Linking stops at the first entry that is not accepted; what it leaves is that of the entries
      before it, and of the requests made for it. */
  lemma {:induction false} LinkStops(
    o: Outcome, snapshot: seq<Nic>, taken: set<string>, configs: seq<NicConfig>, faults: Faults) returns (k: nat)
    requires o.ok && SameDevices(snapshot, o.nics) && !LinkAll(o, snapshot, taken, configs, faults).ok
    ensures StopsAt(o, snapshot, taken, configs, faults, k, LinkAll(o, snapshot, taken, configs, faults))
  {
    var front := configs[..|configs| - 1];
    var before := LinkAll(o, snapshot, taken, front, faults);
    if before.ok {
      k := |configs| - 1;
      StopsLast(o, snapshot, taken, configs, faults, before);
    } else {
      k := LinkStops(o, snapshot, taken, front, faults);
      StopsEarlier(o, snapshot, taken, configs, faults, k, before);
    }
  }

  /** What an entry that is not accepted leaves: interfaces of other entries as they were, its own
      one possibly with the new attributes, and with a new link only if that request lost its
      reply. */
  ghost predicate OnlyOwn(o: Outcome, id: Option<nat>, physical: Physical, lost: bool, r: Outcome) {
    && |r.nics| == |o.nics|
    && forall i | 0 <= i < |o.nics| ::
         if id != Some(o.nics[i].id) then r.nics[i] == o.nics[i]
         else
           && r.nics[i] == o.nics[i].(links := r.nics[i].links, physical := r.nics[i].physical)
           && r.nics[i].physical in {o.nics[i].physical, physical}
           && (r.nics[i].links == o.nics[i].links || (lost && |r.nics[i].links| == |o.nics[i].links| + 1))
  }

  lemma InterfaceStops(o: Outcome, snapshot: seq<Nic>, taken: set<string>, c: NicConfig, faults: Faults)
    requires o.ok && !ProcessInterface(o, snapshot, taken, c, faults).ok
    ensures var r := ProcessInterface(o, snapshot, taken, c, faults);
      && o.sent <= r.sent <= o.sent + 2
      && OnlyOwn(o, NicId(snapshot, c.mac), c.physical, r.sent == o.sent + 2 && faults(o.sent + 1) == Dropped, r)
  {
    var id, link := NicId(snapshot, c.mac), LinkData(c);
    if id.Some? && link.Some? {
      var put := Request(o, true, WithPhysical(o.nics, id.value, c.physical), faults);
      PutOnlyOwn(o, id.value, c.physical, faults);
      if put.ok {
        var accepted := AcceptsLink(put.nics, taken, id.value, link.value);
        LinkOnlyOwn(o, put, id.value, c.physical, accepted, link.value, faults);
      }
    } else {
      NoRequest(o, snapshot, taken, c, faults);
    }
  }

  /** An entry without interface or with an unknown mode makes no request. */
  lemma NoRequest(o: Outcome, snapshot: seq<Nic>, taken: set<string>, c: NicConfig, faults: Faults)
    requires o.ok && (NicId(snapshot, c.mac).None? || (forall mode <- MODES :: !Asks(c, mode)) || LinkData(c).None?)
    ensures ProcessInterface(o, snapshot, taken, c, faults) == Outcome(false, o.nics, o.sent)
    ensures OnlyOwn(o, NicId(snapshot, c.mac), c.physical, false, Outcome(false, o.nics, o.sent))
  {
    ModesExactly(c);
  }

  lemma PutOnlyOwn(o: Outcome, id: nat, physical: Physical, faults: Faults)
    ensures OnlyOwn(o, Some(id), physical, false, Request(o, true, WithPhysical(o.nics, id, physical), faults))
  {
  }

  lemma LinkOnlyOwn(o: Outcome, put: Outcome, id: nat, physical: Physical, accepted: bool, link: Link, faults: Faults)
    requires OnlyOwn(o, Some(id), physical, false, put)
    requires !Request(put, accepted, Linked(put.nics, id, link), faults).ok
    ensures OnlyOwn(o, Some(id), physical, faults(put.sent) == Dropped,
                    Request(put, accepted, Linked(put.nics, id, link), faults))
  {
  }

  /** A failed assignment, when the disconnect requests were served: the entries before the first
      one not accepted are as configured, and interfaces of later entries are unlinked, just as if
      only the entries before had been given. */
  lemma FailedAssignLeaves(o: Outcome, taken: set<string>, configs: seq<NicConfig>, faults: Faults) returns (k: nat)
    requires o.ok && !Assign(o, taken, configs, faults).ok
    requires AllServed(faults, o.sent, o.sent + |o.nics|)
    ensures k < |configs| && Consistent(o.nics, taken, configs[..k])
    ensures var nics, target := Assign(o, taken, configs, faults).nics, Target(o.nics, configs[..k]);
      && |nics| == |o.nics|
      && forall i | 0 <= i < |nics| && NicId(o.nics, configs[k].mac) != Some(o.nics[i].id) :: nics[i] == target[i]
  {
    DisconnectAllTarget(o, faults);
    var d := DisconnectAll(o, o.nics, faults);
    k := LinkStops(d, o.nics, taken, configs, faults);
    UnlinkedHoldsNothing(o.nics, configs[..k]);
    InterfaceStops(Outcome(true, Target(o.nics, configs[..k]), d.sent + 2 * k), o.nics, taken, configs[k], faults);
  }

  /** The order in which the interfaces are processed does not matter: the verdict depends on the
      set of entries only, and so do the interfaces when each is configured at most once. */
  lemma OrderDoesNotMatter(
    o: Outcome, taken: set<string>, configs: seq<NicConfig>, reordered: seq<NicConfig>, faults: Faults)
    requires o.ok && forall c :: c in configs <==> c in reordered
    requires AllServed(faults, o.sent, o.sent + |o.nics| + 2 * |configs|)
    requires AllServed(faults, o.sent, o.sent + |o.nics| + 2 * |reordered|)
    ensures Assign(o, taken, configs, faults).ok == Assign(o, taken, reordered, faults).ok
    ensures Assign(o, taken, configs, faults).ok && SameListing(configs, reordered) && OneEntryEach(o.nics, configs) ==>
              Assign(o, taken, configs, faults).nics == Assign(o, taken, reordered, faults).nics
  {
    AssignExactly(o, taken, configs, faults);
    AssignExactly(o, taken, reordered, faults);
    if Consistent(o.nics, taken, configs) && SameListing(configs, reordered) && OneEntryEach(o.nics, configs) {
      ReorderedTarget(o.nics, configs, reordered);
    }
  }

  lemma ReorderedTarget(nics: seq<Nic>, configs: seq<NicConfig>, reordered: seq<NicConfig>)
    requires SameListing(configs, reordered) && OneEntryEach(nics, configs)
    requires forall c <- configs :: LinkData(c).Some?
    ensures Target(nics, configs) == Target(nics, reordered)
  {
    forall a, b | 0 <= a < b < |reordered| ensures NicId(nics, reordered[a].mac) != NicId(nics, reordered[b].mac) {
      assert reordered[a] in configs && reordered[b] in configs;
      var j :| 0 <= j < |configs| && configs[j] == reordered[a];
      var k :| 0 <= k < |configs| && configs[k] == reordered[b];
      assert j != k;
    }
    forall i | 0 <= i < |nics| ensures Target(nics, configs)[i] == Target(nics, reordered)[i] {
      OneLinkEach(nics, configs, i);
      OneLinkEach(nics, reordered, i);
    }
  }

  // ----- the code as written -----

  class Node {
    var nics: seq<Nic>
    var sent: nat
    const taken: set<string>
    const faults: Faults

    constructor (nics: seq<Nic>, taken: set<string>, faults: Faults)
      ensures Outcome(true, this.nics, sent) == Outcome(true, nics, 0) && this.taken == taken && this.faults == faults
    {
      this.nics, sent, this.taken, this.faults := nics, 0, taken, faults;
    }

    method Send(accepted: bool, updated: seq<Nic>) returns (ok: bool)
      modifies this
      ensures Outcome(ok, nics, sent) == Request(Outcome(true, old(nics), old(sent)), accepted, updated, faults)
    {
      ok := accepted && faults(sent) == Served;
      if accepted && faults(sent) != Refused { nics := updated; }
      sent := sent + 1;
    }

    method Disconnect(id: nat) returns (ok: bool)
      modifies this
      ensures Outcome(ok, nics, sent)
              == Request(Outcome(true, old(nics), old(sent)), true, Disconnected(old(nics), id), faults)
    {
      ok := Send(true, Disconnected(nics, id));
    }

    method PutInterface(id: nat, physical: Physical) returns (ok: bool)
      modifies this
      ensures Outcome(ok, nics, sent)
              == Request(Outcome(true, old(nics), old(sent)), true, WithPhysical(old(nics), id, physical), faults)
    {
      ok := Send(true, WithPhysical(nics, id, physical));
    }

    method LinkSubnet(id: nat, link: Link) returns (ok: bool)
      modifies this
      ensures Outcome(ok, nics, sent)
              == Request(Outcome(true, old(nics), old(sent)), AcceptsLink(old(nics), taken, id, link),
                         Linked(old(nics), id, link), faults)
    {
      ok := Send(AcceptsLink(nics, taken, id, link), Linked(nics, id, link));
    }
  }

  method GetNicIdByMac(snapshot: seq<Nic>, mac: string) returns (id: Option<nat>)
    ensures id == NicId(snapshot, mac)
  {
    var data: map<string, nat> := map[];
    for i := 0 to |snapshot|
      invariant forall m :: (if m in data then Some(data[m]) else None) == NicId(snapshot[..i], m)
    {
      assert snapshot[..i + 1][..i] == snapshot[..i];
      data := data[snapshot[i].mac := snapshot[i].id];
    }
    assert snapshot[..|snapshot|] == snapshot;
    id := if mac in data then Some(data[mac]) else None;
  }

  method ProcessOneInterface(node: Node, c: NicConfig, snapshot: seq<Nic>) returns (ok: bool)
    modifies node
    ensures Outcome(ok, node.nics, node.sent)
            == ProcessInterface(Outcome(true, old(node.nics), old(node.sent)), snapshot, node.taken, c, node.faults)
  {
    var id := GetNicIdByMac(snapshot, c.mac);
    if id.None? { return false; }
    var link := LinkData(c);
    if link.None? { return false; }
    ok := node.PutInterface(id.value, c.physical);
    if ok {
      ok := node.LinkSubnet(id.value, link.value);
    }
  }

  /** Stops at the first interface that cannot be disconnected. */
  method DisconnectAllNic(node: Node, machine: seq<Nic>) returns (ok: bool)
    modifies node
    ensures Outcome(ok, node.nics, node.sent)
            == DisconnectAll(Outcome(true, old(node.nics), old(node.sent)), machine, node.faults)
  {
    ghost var start := Outcome(true, node.nics, node.sent);
    ok := true;
    for i := 0 to |machine|
      invariant Outcome(ok, node.nics, node.sent) == DisconnectAll(start, machine[..i], node.faults)
    {
      assert machine[..i + 1][..i] == machine[..i];
      if ok { ok := node.Disconnect(machine[i].id); }
    }
    assert machine[..|machine|] == machine;
  }

  /** The part of `fill_data` for the current configuration schema, on a machine in status Ready. */
  method AssignInterfaces(node: Node, sortedConfigs: seq<NicConfig>) returns (ok: bool)
    modifies node
    ensures Outcome(ok, node.nics, node.sent)
            == Assign(Outcome(true, old(node.nics), old(node.sent)), node.taken, sortedConfigs, node.faults)
  {
    var machine := node.nics;
    ok := DisconnectAllNic(node, machine);
    ghost var start := Outcome(ok, node.nics, node.sent);
    var i := 0;
    while i < |sortedConfigs| && ok
      invariant i <= |sortedConfigs|
      invariant Outcome(ok, node.nics, node.sent)
                == LinkAll(start, machine, node.taken, sortedConfigs[..i], node.faults)
    {
      assert sortedConfigs[..i + 1][..i] == sortedConfigs[..i];
      ok := ProcessOneInterface(node, sortedConfigs[i], machine);
      i := i + 1;
    }
    assert sortedConfigs[..|sortedConfigs|] == sortedConfigs;
    if !ok { FailureStays(start, machine, node.taken, sortedConfigs, i, node.faults); }
  }

  // ----- which machines are touched at all -----

  const READY := 4
  const DEPLOYED := 6

  /** The single interface of a machine description in the old schema. */
  datatype LegacyNic = LegacyNic(subnet: Option<string>, ip: Option<string>, gateway: Option<string>)

  function OldLink(nic: LegacyNic): Link {
    Link(Static, Str(nic.subnet), Str(nic.ip), OrEmpty(nic.gateway))
  }

  datatype Verdict = Skipped | Configured | Failed

  /** One machine of the run. Only a machine in status Ready is touched; the old schema links its
      first interface without disconnecting anything. */
  method AssignMachine(node: Node, status: int, interface: Option<LegacyNic>, sortedConfigs: seq<NicConfig>)
    returns (verdict: Verdict)
    modifies node
    ensures status != 4 ==> node.nics == old(node.nics) && verdict == if status == 6 then Skipped else Failed
    ensures status == 4 && interface.None? && sortedConfigs == [] ==>
              node.nics == old(node.nics) && verdict == Skipped
    ensures status == 4 && interface.None? && sortedConfigs != [] ==>
              Outcome(verdict == Configured, node.nics, node.sent)
              == Assign(Outcome(true, old(node.nics), old(node.sent)), node.taken, sortedConfigs, node.faults)
              && verdict != Skipped
    ensures status == 4 && interface.Some? ==>
              var nics := old(node.nics);
              if interface.value.ip.None? then node.nics == nics && verdict == Skipped
              else if nics == [] then node.nics == nics && verdict == Failed
              else
                var subnet, gateway := interface.value.subnet, interface.value.gateway;
                var link := Link(Static, if subnet.Some? then subnet.value else "None", interface.value.ip.value,
                                 if gateway.Some? then gateway.value else "");
                Outcome(verdict == Configured, node.nics, node.sent)
                == Request(Outcome(true, nics, old(node.sent)), AcceptsLink(nics, node.taken, nics[0].id, link),
                           Linked(nics, nics[0].id, link), node.faults)
                && verdict != Skipped
  {
    if status == DEPLOYED { return Skipped; }
    if status != READY { return Failed; }
    if interface.Some? {
      var nic := interface.value;
      if nic.ip.None? { return Skipped; }
      if node.nics == [] { return Failed; }
      var ok := node.LinkSubnet(node.nics[0].id, OldLink(nic));
      return if ok then Configured else Failed;
    }
    if sortedConfigs == [] { return Skipped; }
    var ok := AssignInterfaces(node, sortedConfigs);
    verdict := if ok then Configured else Failed;
  }

  lemma {:induction false} FailureStays(
    o: Outcome, snapshot: seq<Nic>, taken: set<string>, configs: seq<NicConfig>, i: nat, faults: Faults)
    requires i <= |configs| && !LinkAll(o, snapshot, taken, configs[..i], faults).ok
    ensures LinkAll(o, snapshot, taken, configs, faults) == LinkAll(o, snapshot, taken, configs[..i], faults)
  {
    if i == |configs| {
      assert configs[..i] == configs;
    } else {
      var before := configs[..|configs| - 1];
      assert before[..i] == configs[..i];
      FailureStays(o, snapshot, taken, before, i, faults);
    }
  }
}
