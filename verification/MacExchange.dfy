/** `Machine().process()` of mcp/salt-formulas/salt-formula-maas/_modules/maas.py when configured MACs
    are on machines of other configured names, as after two machines exchanged their interfaces:
    what the first run loses, and that a second run brings it back. */
module MacExchange {
  import opened Common
  import opened MachineSync

  /** The machine shares no MAC with its own configuration, whose turn is at `from` or later. */
  ghost predicate Displaced(x: Machine, items: Items, from: nat) {
    exists j | from <= j < |items| :: items[j].0 == x.hostname && !ShareMac(x.macs, ConfigMacs(items[j]))
  }

  /** Host names are unique, and a configured MAC on a machine of another name is on one that is
      itself due to be created again. */
  ghost predicate Exchangeable(ms: seq<Machine>, items: Items, from: nat) {
    && UniqueHosts(ms)
    && forall x <- ms, k | 0 <= k < |items| && x.hostname != items[k].0 ::
         ShareMac(x.macs, ConfigMacs(items[k])) ==> Displaced(x, items, from)
  }

  lemma ServeKeepsUnique(s: Server, c: Call, name: string, faults: Faults)
    requires WellFormed(s) && UniqueHosts(s.machines) && Concerns(s.machines, c, name)
    ensures UniqueHosts(Serve(s, c, faults).machines)
  {
    var logged := s.(calls := s.calls + [c]);
    if Serve(s, c, faults) != logged {
      forall other ensures |Named(Serve(s, c, faults).machines, other)| <= 1 {
        EffectOnNames(logged, c, name, other);
        assert |Named(s.machines, other)| <= 1;
        if c.Post? { NoneNamed(s.machines, name); }
      }
    }
  }

  lemma NamedOnly(ms: seq<Machine>, x: Machine)
    requires x in ms && |Named(ms, x.hostname)| <= 1
    ensures Named(ms, x.hostname) == [x]
  {
    NamedMembers(ms, x.hostname);
    assert x in Named(ms, x.hostname);
  }

  /** What the machines are like after one name: those of other names as before, and for the name
      itself a new machine, or the old one if it shared a MAC. */
  ghost predicate Renewed(t: Server, name: string, data: Payload, t': Server) {
    forall y <- t'.machines ::
      || (y in t.machines && y.hostname != name)
      || (y.hostname == name && y.macs == data.macs)
      || exists x <- t.machines :: x.hostname == y.hostname == name && x.macs == y.macs && ShareMac(x.macs, data.macs)
  }

  lemma PostRenews(t: Server, data: Payload, faults: Faults)
    requires forall x <- t.machines :: x.hostname != data.hostname
    ensures Renewed(t, data.hostname, data, Serve(t, Post(data), faults))
  {
  }

  lemma PutRenews(t: Server, x: Machine, data: Payload, put: Payload, faults: Faults)
    requires WellFormed(t) && x in t.machines && x.hostname == data.hostname == put.hostname
    requires |Named(t.machines, x.hostname)| <= 1 && ShareMac(data.macs, x.macs)
    ensures Renewed(t, data.hostname, data, Serve(t, Put(x.sid, put), faults))
  {
    var ms, i := t.machines, SidIndex(t.machines, x.sid);
    NamedOnly(ms, x);
    assert ms[i] == x;
    forall y <- ms ensures y.hostname != data.hostname || y == x {
      if y.hostname == data.hostname { NamedOnly(ms, y); }
    }
  }

  lemma RemovedMembers(ms: seq<Machine>, i: nat)
    requires i < |ms| && forall j | 0 <= j < |ms| && j != i :: ms[j] != ms[i]
    ensures forall y :: y in ms[..i] + ms[i + 1..] <==> y in ms && y != ms[i]
  {
    var ms' := ms[..i] + ms[i + 1..];
    forall y | y in ms && y != ms[i] ensures y in ms' {
      var j :| 0 <= j < |ms| && ms[j] == y;
      assert ms'[if j < i then j else j - 1] == y;
    }
  }

  lemma DeleteClears(t: Server, x: Machine, faults: Faults)
    requires WellFormed(t) && x in t.machines && |Named(t.machines, x.hostname)| <= 1 && Clean(faults)
    ensures var t' := Serve(t, Delete(x.sid), faults);
      && Replies(t, Delete(x.sid), faults) && WellFormed(t')
      && forall y :: y in t'.machines <==> y in t.machines && y.hostname != x.hostname
  {
    var ms, i := t.machines, SidIndex(t.machines, x.sid);
    assert ms[i] == x;
    ServeFrame(t, Delete(x.sid), faults, x.hostname);
    RemovedMembers(ms, i);
    NamedOnly(ms, x);
    forall y <- ms ensures y.hostname == x.hostname <==> y == x {
      if y.hostname == x.hostname { NamedOnly(ms, y); }
    }
  }

  /** One name on a server that serves all calls. */
  lemma OneRenews(t: Server, name: string, cfg: MachineConfig, faults: Faults)
    requires WellFormed(t) && UniqueHosts(t.machines) && Clean(faults) && FillData(name, cfg).Some?
    ensures var t' := ProcessOne(t, Known(t.machines, name), name, cfg, faults).0;
      && WellFormed(t') && UniqueHosts(t'.machines)
      && Renewed(t, name, FillData(name, cfg).value, t')
  {
    var data, known := FillData(name, cfg).value, Known(t.machines, name);
    OneFrame(t, name, cfg, faults);
    KnownConcerns(t, name);
    assert |Named(t.machines, name)| <= 1;
    NamedMembers(t.machines, name);
    if known.None? {
      ServeKeepsUnique(t, Post(data), name, faults);
      PostRenews(t, data, faults);
    } else {
      var x := known.value;
      var shared := Lowered(data.macs) * Lowered(x.macs);
      if shared != {} {
        ServeKeepsUnique(t, Put(x.sid, data.(macs := shared)), name, faults);
        PutRenews(t, x, data, data.(macs := shared), faults);
      } else {
        var t1 := Serve(t, Delete(x.sid), faults);
        DeleteClears(t, x, faults);
        ServeKeepsUnique(t, Delete(x.sid), name, faults);
        ServeKeepsUnique(t1, Post(data), name, faults);
        PostRenews(t1, data, faults);
      }
    }
  }

  lemma NotDisplaced(x: Machine, items: Items, n: nat)
    requires DistinctNames(items) && n < |items| && x.hostname == items[n].0
    requires ShareMac(x.macs, ConfigMacs(items[n]))
    ensures !Displaced(x, items, n)
  {
  }

  lemma StillExchangeable(t: Server, items: Items, n: nat, t': Server)
    requires n < |items| && DistinctNames(items) && DisjointConfigs(items) && AllFilled(items)
    requires Exchangeable(t.machines, items, n) && UniqueHosts(t'.machines)
    requires Renewed(t, items[n].0, FillData(items[n].0, items[n].1).value, t')
    ensures Exchangeable(t'.machines, items, n + 1)
  {
    forall y <- t'.machines, k | 0 <= k < |items| && y.hostname != items[k].0
      ensures ShareMac(y.macs, ConfigMacs(items[k])) ==> Displaced(y, items, n + 1)
    {
      if y in t.machines && y.hostname != items[n].0 {
        assert Displaced(y, items, n) ==> Displaced(y, items, n + 1);
      } else if y.macs != ConfigMacs(items[n]) {
        var x :| x in t.machines && x.hostname == y.hostname == items[n].0 && x.macs == y.macs
                 && ShareMac(x.macs, ConfigMacs(items[n]));
        NotDisplaced(x, items, n);
      }
    }
  }

  /** A machine of a name whose turn is later holds a MAC of the k-th configuration. */
  ghost predicate HeldByLater(ms: seq<Machine>, items: Items, k: nat)
    requires k < |items|
  {
    exists x <- ms, j | k < j < |items| :: items[j].0 == x.hostname && ShareMac(x.macs, ConfigMacs(items[k]))
  }

  /** The name had to be created, or created again, while one of its MACs was on a machine of a
      name that came later. */
  ghost predicate Lost(ms: seq<Machine>, items: Items, k: nat)
    requires k < |items| && AllFilled(items)
  {
    var data, known := FillData(items[k].0, items[k].1).value, Known(ms, items[k].0);
    !(known.Some? && ShareMac(data.macs, known.value.macs)) && HeldByLater(ms, items, k)
  }

  /** At its turn, a name ends without a machine exactly when it is lost. */
  lemma LostAtTurn(t: Server, items: Items, k: nat, faults: Faults)
    requires WellFormed(t) && DistinctNames(items) && AllFilled(items) && Clean(faults) && k < |items|
    requires Exchangeable(t.machines, items, k)
    ensures var (name, cfg) := items[k];
      Named(ProcessOne(t, Known(t.machines, name), name, cfg, faults).0.machines, name) == []
      <==> Lost(t.machines, items, k)
  {
    var (name, cfg) := items[k];
    var data, known := FillData(name, cfg).value, Known(t.machines, name);
    KnownConcerns(t, name);
    assert |Named(t.machines, name)| <= 1;
    NamedMembers(t.machines, name);
    if known.None? {
      PostedOrNot(t, items, k, faults);
    } else if ShareMac(data.macs, known.value.macs) {
      var put := data.(macs := Lowered(data.macs) * Lowered(known.value.macs));
      PutEffect(t, known.value, put, faults);
    } else {
      var t1 := Serve(t, Delete(known.value.sid), faults);
      DeleteClears(t, known.value, faults);
      ServeKeepsUnique(t, Delete(known.value.sid), name, faults);
      assert HeldByLater(t1.machines, items, k) <==> HeldByLater(t.machines, items, k);
      PostedOrNot(t1, items, k, faults);
    }
  }

  lemma PostedOrNot(t: Server, items: Items, k: nat, faults: Faults)
    requires DistinctNames(items) && AllFilled(items) && Clean(faults) && k < |items|
    requires Exchangeable(t.machines, items, k) && forall x <- t.machines :: x.hostname != items[k].0
    ensures var data := FillData(items[k].0, items[k].1).value;
      Named(Serve(t, Post(data), faults).machines, items[k].0) == [] <==> HeldByLater(t.machines, items, k)
  {
    var name, data := items[k].0, FillData(items[k].0, items[k].1).value;
    NoneNamed(t.machines, name);
    if HeldByLater(t.machines, items, k) {
      assert !Accepts(t.machines, Post(data));
    } else {
      forall x <- t.machines ensures !ShareMac(x.macs, data.macs) {
        if j :| k <= j < |items| && items[j].0 == x.hostname && !ShareMac(x.macs, ConfigMacs(items[j])) {
          assert k < j;
        }
      }
      EffectOnNames(t.(calls := t.calls + [Post(data)]), Post(data), name, name);
    }
  }

  lemma LaterUntouched(before: seq<Machine>, after: seq<Machine>, items: Items, k: nat)
    requires k < |items|
    requires forall j | k <= j < |items| :: Named(after, items[j].0) == Named(before, items[j].0)
    ensures HeldByLater(after, items, k) <==> HeldByLater(before, items, k)
  {
    forall j | k < j < |items| ensures forall x: Machine :: x.hostname == items[j].0 ==> (x in after <==> x in before) {
      NamedMembers(before, items[j].0);
      NamedMembers(after, items[j].0);
      assert forall x: Machine :: x in Named(before, items[j].0) <==> x in before && x.hostname == items[j].0;
    }
  }

  ghost function LostNames(ms: seq<Machine>, items: Items): set<string>
    requires AllFilled(items)
  {
    set k | 0 <= k < |items| && Lost(ms, items, k) :: items[k].0
  }

  lemma LostNamesAt(ms: seq<Machine>, items: Items, k: nat)
    requires AllFilled(items) && DistinctNames(items) && k < |items|
    ensures items[k].0 in LostNames(ms, items) <==> Lost(ms, items, k)
  {
  }

  /** Of the names processed, those in `gone` have no machine; the other names are as at the
      start. */
  ghost predicate Progress(ms: seq<Machine>, items: Items, n: nat, gone: set<string>, now: seq<Machine>)
    requires n <= |items|
  {
    && (forall k | 0 <= k < n :: Named(now, items[k].0) == [] <==> items[k].0 in gone)
    && (forall k | n <= k < |items| :: Named(now, items[k].0) == Named(ms, items[k].0))
  }

  /** The state of the run after the first `n` names. */
  ghost predicate Midway(s: Server, items: Items, n: nat, t: Server)
    requires n <= |items| && AllFilled(items)
  {
    && WellFormed(t) && Exchangeable(t.machines, items, n)
    && Progress(s.machines, items, n, LostNames(s.machines, items), t.machines)
  }

  /** What the turn of the k-th name does. */
  ghost predicate Turn(items: Items, k: nat, gone: set<string>, t: Server, t': Server)
    requires k < |items|
  {
    && WellFormed(t') && Exchangeable(t'.machines, items, k + 1)
    && OthersKept(t.machines, t'.machines, items[k].0)
    && (Named(t'.machines, items[k].0) == [] <==> items[k].0 in gone)
  }

  lemma MidwayTurn(s: Server, items: Items, k: nat, t: Server, t': Server, faults: Faults)
    requires DistinctNames(items) && AllFilled(items) && Clean(faults) && DisjointConfigs(items)
    requires k < |items| && Midway(s, items, k, t)
    requires t' == ProcessOne(t, Known(t.machines, items[k].0), items[k].0, items[k].1, faults).0
    ensures Turn(items, k, LostNames(s.machines, items), t, t')
  {
    StepExchanges(items, k, t, t', faults);
    StepLoses(s.machines, items, k, t, t', faults);
  }

  lemma MidwayNext(s: Server, items: Items, k: nat, t: Server, t': Server)
    requires DistinctNames(items) && AllFilled(items) && k < |items| && Midway(s, items, k, t)
    requires Turn(items, k, LostNames(s.machines, items), t, t')
    ensures Midway(s, items, k + 1, t')
  {
    ProgressNext(s.machines, items, k + 1, LostNames(s.machines, items), t.machines, t'.machines);
  }

  lemma NextIsKnown(ms: seq<Machine>, items: Items, k: nat, gone: set<string>, now: seq<Machine>)
    requires k < |items| && Progress(ms, items, k, gone, now)
    ensures Known(now, items[k].0) == Known(ms, items[k].0)
  {
  }

  ghost predicate OthersKept(before: seq<Machine>, after: seq<Machine>, name: string) {
    forall other :: other != name ==> Named(after, other) == Named(before, other)
  }

  lemma StepExchanges(items: Items, k: nat, t: Server, t': Server, faults: Faults)
    requires DistinctNames(items) && AllFilled(items) && Clean(faults) && DisjointConfigs(items) && k < |items|
    requires WellFormed(t) && Exchangeable(t.machines, items, k)
    requires t' == ProcessOne(t, Known(t.machines, items[k].0), items[k].0, items[k].1, faults).0
    ensures WellFormed(t') && Exchangeable(t'.machines, items, k + 1)
    ensures OthersKept(t.machines, t'.machines, items[k].0)
  {
    OneRenews(t, items[k].0, items[k].1, faults);
    OneFrame(t, items[k].0, items[k].1, faults);
    StillExchangeable(t, items, k, t');
  }

  lemma StepLoses(ms: seq<Machine>, items: Items, k: nat, t: Server, t': Server, faults: Faults)
    requires DistinctNames(items) && AllFilled(items) && Clean(faults) && k < |items|
    requires WellFormed(t) && Exchangeable(t.machines, items, k)
    requires Progress(ms, items, k, LostNames(ms, items), t.machines)
    requires t' == ProcessOne(t, Known(t.machines, items[k].0), items[k].0, items[k].1, faults).0
    ensures Named(t'.machines, items[k].0) == [] <==> items[k].0 in LostNames(ms, items)
  {
    LostAtTurn(t, items, k, faults);
    NextIsKnown(ms, items, k, LostNames(ms, items), t.machines);
    LaterUntouched(ms, t.machines, items, k);
    LostNamesAt(ms, items, k);
  }

  lemma ProgressNext(
    ms: seq<Machine>, items: Items, n: nat, gone: set<string>, before: seq<Machine>, after: seq<Machine>)
    requires DistinctNames(items) && 0 < n <= |items| && Progress(ms, items, n - 1, gone, before)
    requires OthersKept(before, after, items[n - 1].0)
    requires Named(after, items[n - 1].0) == [] <==> items[n - 1].0 in gone
    ensures Progress(ms, items, n, gone, after)
  {
    forall k | 0 <= k < n ensures Named(after, items[k].0) == [] <==> items[k].0 in gone {
      if k != n - 1 { KeptApart(items, k, n - 1, before, after); }
    }
    forall k | n <= k < |items| ensures Named(after, items[k].0) == Named(ms, items[k].0) {
      KeptApart(items, k, n - 1, before, after);
    }
  }

  lemma KeptApart(items: Items, k: nat, j: nat, before: seq<Machine>, after: seq<Machine>)
    requires DistinctNames(items) && k < |items| && j < |items| && k != j && OthersKept(before, after, items[j].0)
    ensures Named(after, items[k].0) == Named(before, items[k].0)
  {
    assert items[k].0 != items[j].0;
  }

  lemma {:induction false} RunExchanges(s: Server, items: Items, n: nat, faults: Faults)
    requires WellFormed(s) && DistinctNames(items) && AllFilled(items) && Clean(faults) && n <= |items|
    requires Exchangeable(s.machines, items, 0) && DisjointConfigs(items)
    ensures Midway(s, items, n, Run(s, s.machines, items[..n], faults).0)
  {
    if n > 0 {
      RunExchanges(s, items, n - 1, faults);
      RunLast(s, items, n, faults);
      var t, t' := Run(s, s.machines, items[..n - 1], faults).0, Run(s, s.machines, items[..n], faults).0;
      NextIsKnown(s.machines, items, n - 1, LostNames(s.machines, items), t.machines);
      MidwayTurn(s, items, n - 1, t, t', faults);
      MidwayNext(s, items, n - 1, t, t');
    }
  }

  lemma NoneDisplaced(ms: seq<Machine>, items: Items)
    requires Exchangeable(ms, items, |items|)
    ensures Compatible(ms, items)
  {
  }

  /** Two runs are enough: after the first, every configured MAC is on a machine of its own name or
      on none, and the second settles every name. */
  lemma TwoRunsSettle(s: Server, items: Items, faults: Faults, again: Faults)
    requires WellFormed(s) && DistinctNames(items) && AllFilled(items) && Clean(faults) && Clean(again)
    requires Exchangeable(s.machines, items, 0) && DisjointConfigs(items)
    ensures var s1 := Run(s, s.machines, items, faults).0;
      && Compatible(s1.machines, items)
      && AllSettled(items, |items|, s1.machines, Run(s1, s1.machines, items, again).0.machines)
  {
    assert items[..|items|] == items;
    RunExchanges(s, items, |items|, faults);
    var s1 := Run(s, s.machines, items, faults).0;
    NoneDisplaced(s1.machines, items);
    CleanRunSettles(s1, items, |items|, again);
  }

  /** What the first run loses: exactly the names that had to be created, or created again, while a
      MAC of theirs was on a machine of a name that came later in the run. */
  lemma FirstRunLosesExactly(s: Server, items: Items, k: nat, faults: Faults)
    requires WellFormed(s) && DistinctNames(items) && AllFilled(items) && Clean(faults) && k < |items|
    requires Exchangeable(s.machines, items, 0) && DisjointConfigs(items)
    ensures Named(Run(s, s.machines, items, faults).0.machines, items[k].0) == [] <==> Lost(s.machines, items, k)
  {
    assert items[..|items|] == items;
    RunExchanges(s, items, |items|, faults);
    LostNamesAt(s.machines, items, k);
  }
}
