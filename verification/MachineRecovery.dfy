/** What the recovery of a machine that failed its commissioning does to the server, in
    mcp/salt-formulas/salt-formula-maas/_modules/maas.py: `wait_for_machine_status` deletes it and
    then runs `Machine().process()`. This joins the plans of WaitForStatus to the runs of
    MachineSync. */
module MachineRecovery {
  import opened MachineSync
  import Waiting = WaitForStatus

  /** The server after the calls of a plan; calls on the status of a machine leave the entities
      modelled here as they are. */
  function Carry(s: Server, plan: seq<Waiting.Call>, items: Items, faults: Faults): Server
    decreases |plan|
  {
    if plan == [] then s
    else
      var s1 := match plan[0] {
        case DeleteMachine(sid) => Serve(s, Delete(sid), faults)
        case ProcessMachines => Run(s, s.machines, items, faults).0
        case _ => s
      };
      Carry(s1, plan[1..], items, faults)
  }

  lemma CarryDeleteProcess(s: Server, r: Waiting.Recovery, items: Items, faults: Faults)
    requires r.status.FailedCommissioning? || r.status.New?
    ensures var s1 := Serve(s, Delete(r.sid), faults);
      Carry(s, Waiting.Plan(r), items, faults) == Run(s1, s1.machines, items, faults).0
  {
    var plan := Waiting.Plan(r);
    var s1 := Serve(s, Delete(r.sid), faults);
    assert plan[1..] == [Waiting.ProcessMachines] && plan[1..][1..] == [];
    assert Carry(s1, plan[1..], items, faults) == Run(s1, s1.machines, items, faults).0;
  }

  lemma DeleteMachine(s: Server, x: Machine, items: Items, faults: Faults)
    requires WellFormed(s) && Compatible(s.machines, items) && Clean(faults) && x in s.machines
    ensures var s1 := Serve(s, Delete(x.sid), faults);
      && WellFormed(s1) && Compatible(s1.machines, items)
      && Named(s1.machines, x.hostname) == []
      && forall other :: other != x.hostname ==> Named(s1.machines, other) == Named(s.machines, other)
  {
    var c := Delete(x.sid);
    var logged := s.(calls := s.calls + [c]);
    var s1 := Serve(s, c, faults);
    assert Accepts(s.machines, c);
    ServeFrame(s, c, faults, x.hostname);
    assert |Named(s.machines, x.hostname)| <= 1;
    EffectOnNames(logged, c, x.hostname, x.hostname);
    forall name ensures |Named(s1.machines, name)| <= 1 {
      assert |Named(s.machines, name)| <= 1;
      assert name != x.hostname ==> Named(s1.machines, name) == Named(s.machines, name);
    }
    assert forall y <- s1.machines :: y in s.machines;
  }

  /** After the recovery on a server that works: a configured machine is back, alone under its
      name, with the configured MACs and settings and nothing of the old machine; a machine without
      configuration is gone for good; every other configured name is settled, and the rest of the
      server is untouched. */
  lemma RecoveryRecreates(s: Server, x: Machine, r: Waiting.Recovery, items: Items, faults: Faults)
    requires WellFormed(s) && DistinctNames(items) && AllFilled(items) && Clean(faults)
    requires Compatible(s.machines, items) && DisjointConfigs(items)
    requires r.status.FailedCommissioning? || r.status.New?
    requires x in s.machines && r.sid == x.sid && r.host == x.hostname
    ensures var after := Carry(s, Waiting.Plan(r), items, faults).machines;
      && (forall k | 0 <= k < |items| && items[k].0 == r.host ::
            var data := FillData(r.host, items[k].1).value;
            && |Named(after, r.host)| == 1
            && Named(after, r.host)[0].macs == data.macs && Named(after, r.host)[0].settings == data.settings)
      && (!Mentions(items, r.host) ==> Named(after, r.host) == [])
      && (forall k | 0 <= k < |items| && items[k].0 != r.host ::
            Settled(FillData(items[k].0, items[k].1).value, Named(s.machines, items[k].0), Named(after, items[k].0)))
      && (forall other :: other != r.host && !Mentions(items, other) ==>
            Named(after, other) == Named(s.machines, other))
  {
    var s1 := Serve(s, Delete(r.sid), faults);
    CarryDeleteProcess(s, r, items, faults);
    DeleteMachine(s, x, items, faults);
    assert items[..|items|] == items;
    CleanRunSettles(s1, items, |items|, faults);
    SnapshotSuffices(s1, items, faults);
  }
}
