/** `Machine().process(names)` of mcp/salt-formulas/salt-formula-maas/_modules/maas.py with names
    that are listed more than once: when the run over a single snapshot still equals one that reads
    the server again before every name, and what it otherwise gets wrong. */
module RepeatedNames {
  import opened Common
  import opened MachineSync

  /** All entries of one name carry its one configuration. */
  ghost predicate OneConfigEach(items: Items) {
    forall i, j | 0 <= i < j < |items| && items[i].0 == items[j].0 :: items[i] == items[j]
  }

  /** The name has a machine, and that machine shares a MAC with the configuration. */
  ghost predicate Sharing(ms: seq<Machine>, name: string, data: Payload) {
    Known(ms, name).Some? && ShareMac(data.macs, Known(ms, name).value.macs)
  }

  /** The machine of a name that was processed: it shares a MAC and has the settings, and it is
      the machine of the snapshot if that shared one, and a new machine otherwise. */
  ghost predicate StillRight(s: Server, after: seq<Machine>, name: string, data: Payload) {
    && Sharing(after, name, data)
    && var y := Known(after, name).value;
      && y.settings + data.settings == y.settings
      && if Sharing(s.machines, name, data)
         then y.sid == Known(s.machines, name).value.sid && y.macs == Known(s.machines, name).value.macs
         else y.sid >= s.nextSid
  }

  /** Machines with an identifier of the snapshot are the ones of the snapshot, by name. */
  ghost predicate Inherited(s: Server, t: Server) {
    && t.nextSid >= s.nextSid
    && forall y <- t.machines | y.sid < s.nextSid ::
         exists x <- s.machines :: x.sid == y.sid && x.hostname == y.hostname
  }

  ghost predicate Repeated(items: Items, k: nat)
    requires k < |items|
  {
    Mentions(items[..k], items[k].0) && FillData(items[k].0, items[k].1).Some?
  }

  /** A repeated name is fine in the snapshot `ms`. */
  ghost predicate Harmless(ms: seq<Machine>, items: Items, k: nat)
    requires k < |items|
  {
    Repeated(items, k) ==> Sharing(ms, items[k].0, FillData(items[k].0, items[k].1).value)
  }

  /** The state between two names of a run that reads the server again. */
  ghost predicate Tracks(s: Server, items: Items, n: nat, t: Server)
    requires n <= |items|
  {
    && WellFormed(t) && Compatible(t.machines, items) && Inherited(s, t)
    && (forall name :: !Mentions(items[..n], name) ==> Named(t.machines, name) == Named(s.machines, name))
    && (forall k | 0 <= k < n && FillData(items[k].0, items[k].1).Some? ::
          StillRight(s, t.machines, items[k].0, FillData(items[k].0, items[k].1).value))
  }

  lemma StepIsRight(s: Server, t: Server, items: Items, k: nat, faults: Faults)
    requires WellFormed(t) && Compatible(t.machines, items) && DisjointConfigs(items) && Clean(faults)
    requires k < |items| && FillData(items[k].0, items[k].1).Some? && t.nextSid >= s.nextSid
    requires var (name, data) := (items[k].0, FillData(items[k].0, items[k].1).value);
      Named(t.machines, name) == Named(s.machines, name) || StillRight(s, t.machines, name, data)
    ensures var (name, cfg) := items[k];
      StillRight(s, ProcessOne(t, Known(t.machines, name), name, cfg, faults).0.machines, name,
                 FillData(name, cfg).value)
  {
    OneSettles(t, items, k, faults);
    var (name, cfg) := items[k];
    assert |Named(t.machines, name)| <= 1;
    RightAfter(s, t.machines, ProcessOne(t, Known(t.machines, name), name, cfg, faults).0.machines, name,
               FillData(name, cfg).value);
  }

  lemma RightAfter(s: Server, before: seq<Machine>, after: seq<Machine>, name: string, data: Payload)
    requires |Named(before, name)| <= 1 && Settled(data, Named(before, name), Named(after, name))
    requires Sharing(before, name, data) || Named(after, name)[0].sid >= s.nextSid
    requires Named(before, name) == Named(s.machines, name) || StillRight(s, before, name, data)
    ensures StillRight(s, after, name, data)
  {
    SettingsAbsorbed(data, Named(before, name), Named(after, name)[0]);
  }

  lemma SettingsAbsorbed(data: Payload, before: seq<Machine>, x: Machine)
    requires x.settings == data.settings || (before != [] && x.settings == before[0].settings + data.settings)
    ensures x.settings + data.settings == x.settings
  {
  }

  lemma {:induction false} RereadingTracks(s: Server, items: Items, n: nat, faults: Faults)
    requires WellFormed(s) && Compatible(s.machines, items) && DisjointConfigs(items) && Clean(faults)
    requires OneConfigEach(items) && n <= |items|
    ensures Tracks(s, items, n, RunRereading(s, items[..n], faults).0)
  {
    if n > 0 {
      assert items[..n][..n - 1] == items[..n - 1];
      RereadingTracks(s, items, n - 1, faults);
      var t := RunRereading(s, items[..n - 1], faults).0;
      StepMoves(s, items, n - 1, t, faults);
      StillTracked(s, items, n, t, RunRereading(s, items[..n], faults).0);
    }
  }

  lemma MentionsIndex(items: Items, n: nat, name: string)
    requires n <= |items|
    ensures Mentions(items[..n], name) <==> exists i :: 0 <= i < n && items[i].0 == name
  {
    if i :| 0 <= i < n && items[i].0 == name { assert items[..n][i].0 == name; }
  }

  /** What processing the k-th name of the items does, in terms of the snapshot. */
  ghost predicate Moved(s: Server, items: Items, k: nat, t: Server, t': Server)
    requires k < |items|
  {
    var (name, cfg) := items[k];
    && WellFormed(t') && Compatible(t'.machines, items) && Inherited(s, t')
    && (forall other :: other != name ==> Named(t'.machines, other) == Named(t.machines, other))
    && (FillData(name, cfg).Some? ==> StillRight(s, t'.machines, name, FillData(name, cfg).value))
  }

  lemma ServeInherits(s: Server, t: Server, c: Call, name: string, faults: Faults)
    requires Inherited(s, t) && Concerns(t.machines, c, name)
    ensures Inherited(s, Serve(t, c, faults))
  {
    var t' := Serve(t, c, faults);
    forall y <- t'.machines | y.sid < s.nextSid
      ensures exists x <- s.machines :: x.sid == y.sid && x.hostname == y.hostname
    {
      if y !in t.machines {
        assert c.Put?;
        var z := t.machines[SidIndex(t.machines, c.sid)];
        assert z in t.machines && z.sid == y.sid && z.hostname == y.hostname;
      }
    }
  }

  lemma OneInherits(s: Server, t: Server, name: string, cfg: MachineConfig, faults: Faults)
    requires WellFormed(t) && Inherited(s, t)
    ensures Inherited(s, ProcessOne(t, Known(t.machines, name), name, cfg, faults).0)
  {
    KnownConcerns(t, name);
    var known := Known(t.machines, name);
    if FillData(name, cfg).Some? {
      var data := FillData(name, cfg).value;
      if known.None? {
        ServeInherits(s, t, Post(data), name, faults);
      } else {
        var shared := Lowered(data.macs) * Lowered(known.value.macs);
        if shared != {} {
          ServeInherits(s, t, Put(known.value.sid, data.(macs := shared)), name, faults);
        } else {
          ServeInherits(s, t, Delete(known.value.sid), name, faults);
          ServeInherits(s, Serve(t, Delete(known.value.sid), faults), Post(data), name, faults);
        }
      }
    }
  }

  lemma StepMoves(s: Server, items: Items, k: nat, t: Server, faults: Faults)
    requires k < |items| && Tracks(s, items, k, t) && OneConfigEach(items) && DisjointConfigs(items) && Clean(faults)
    ensures var (name, cfg) := items[k];
      Moved(s, items, k, t, ProcessOne(t, Known(t.machines, name), name, cfg, faults).0)
  {
    OneInherits(s, t, items[k].0, items[k].1, faults);
    OneFrame(t, items[k].0, items[k].1, faults);
    OneKeepsCompatible(t, items, k, faults);
    if FillData(items[k].0, items[k].1).Some? {
      TrackedBefore(s, items, k, t);
      StepIsRight(s, t, items, k, faults);
    }
  }

  /** A name is as in the snapshot when it comes for the first time, and right when it comes again. */
  lemma TrackedBefore(s: Server, items: Items, k: nat, t: Server)
    requires k < |items| && Tracks(s, items, k, t) && OneConfigEach(items)
    requires FillData(items[k].0, items[k].1).Some?
    ensures if Mentions(items[..k], items[k].0)
            then StillRight(s, t.machines, items[k].0, FillData(items[k].0, items[k].1).value)
            else Named(t.machines, items[k].0) == Named(s.machines, items[k].0)
  {
    MentionsIndex(items, k, items[k].0);
    if i: nat :| i < k && items[i].0 == items[k].0 {
      assert items[i] == items[k];
    }
  }

  lemma StillTracked(s: Server, items: Items, n: nat, t: Server, t': Server)
    requires 0 < n <= |items| && OneConfigEach(items) && Tracks(s, items, n - 1, t)
    requires Moved(s, items, n - 1, t, t')
    ensures Tracks(s, items, n, t')
  {
    OthersUntouched(s, items, n, t, t');
    forall k | 0 <= k < n && FillData(items[k].0, items[k].1).Some?
      ensures StillRight(s, t'.machines, items[k].0, FillData(items[k].0, items[k].1).value)
    {
      if items[k].0 == items[n - 1].0 {
        assert items[k] == items[n - 1];
      } else {
        RightStays(s, t.machines, t'.machines, items[k].0, FillData(items[k].0, items[k].1).value);
      }
    }
  }

  lemma OthersUntouched(s: Server, items: Items, n: nat, t: Server, t': Server)
    requires 0 < n <= |items|
    requires forall name :: !Mentions(items[..n - 1], name) ==> Named(t.machines, name) == Named(s.machines, name)
    requires forall other :: other != items[n - 1].0 ==> Named(t'.machines, other) == Named(t.machines, other)
    ensures forall name :: !Mentions(items[..n], name) ==> Named(t'.machines, name) == Named(s.machines, name)
  {
    forall name | !Mentions(items[..n], name) ensures Named(t'.machines, name) == Named(s.machines, name) {
      MentionsIndex(items, n - 1, name);
      MentionsIndex(items, n, name);
      assert items[n - 1].0 != name;
    }
  }

  lemma RightStays(s: Server, before: seq<Machine>, after: seq<Machine>, name: string, data: Payload)
    requires StillRight(s, before, name, data) && Named(after, name) == Named(before, name)
    ensures StillRight(s, after, name, data)
  {
  }

  /** Processing a name looks at the identifier and the MACs of the known machine only. */
  lemma LooksAtMacs(s: Server, a: Machine, b: Machine, name: string, cfg: MachineConfig, faults: Faults)
    requires a.sid == b.sid && a.macs == b.macs
    ensures ProcessOne(s, Some(a), name, cfg, faults) == ProcessOne(s, Some(b), name, cfg, faults)
  {
  }

  /** Both listings show the name with the same identifier and MACs. */
  ghost predicate SameLook(before: seq<Machine>, after: seq<Machine>, name: string) {
    && Known(before, name).Some? && Known(after, name).Some?
    && Known(before, name).value.sid == Known(after, name).value.sid
    && Known(before, name).value.macs == Known(after, name).value.macs
  }

  /** However calls fail, between two names of a run that reads again: names not processed yet are
      as in the snapshot, and those that shared a MAC in it still look the same. */
  ghost predicate Steady(s: Server, items: Items, n: nat, t: Server)
    requires n <= |items|
  {
    && WellFormed(t)
    && (forall name :: !Mentions(items[..n], name) ==> Named(t.machines, name) == Named(s.machines, name))
    && (forall k | 0 <= k < n && FillData(items[k].0, items[k].1).Some? ::
          Sharing(s.machines, items[k].0, FillData(items[k].0, items[k].1).value) ==>
            SameLook(s.machines, t.machines, items[k].0))
  }

  lemma PutKeepsLook(t: Server, x: Machine, d: Payload, faults: Faults)
    requires WellFormed(t) && Known(t.machines, d.hostname) == Some(x)
    ensures SameLook(t.machines, Serve(t, Put(x.sid, d), faults).machines, d.hostname)
  {
    var ms, name, t' := t.machines, d.hostname, Serve(t, Put(x.sid, d), faults);
    if t'.machines != ms {
      KnownConcerns(t, name);
      var i := SidIndex(ms, x.sid);
      assert ms[i] == x;
      LastNamedReplaced(ms, i, x.(hostname := name, settings := x.settings + d.settings));
    }
  }

  lemma LastNamedReplaced(ms: seq<Machine>, i: nat, x: Machine)
    requires i < |ms| && x.hostname == ms[i].hostname && x.sid == ms[i].sid && x.macs == ms[i].macs
    ensures SameLook(ms, ms[..i] + [x] + ms[i + 1..], x.hostname)
  {
    var ms', name := ms[..i] + [x] + ms[i + 1..], x.hostname;
    NamedAround(ms, i, name);
    assert ms'[..i] == ms[..i] && ms'[i] == x && ms'[i + 1..] == ms[i + 1..];
    NamedAround(ms', i, name);
    NamedOne(ms[i], name);
    NamedOne(x, name);
  }

  /** In a steady state a harmless name looks as the snapshot says. */
  lemma SteadyBefore(s: Server, items: Items, k: nat, t: Server)
    requires k < |items| && Steady(s, items, k, t) && OneConfigEach(items) && Harmless(s.machines, items, k)
    requires FillData(items[k].0, items[k].1).Some?
    ensures || Known(t.machines, items[k].0) == Known(s.machines, items[k].0)
            || SameLook(s.machines, t.machines, items[k].0)
  {
    MentionsIndex(items, k, items[k].0);
    if i: nat :| i < k && items[i].0 == items[k].0 {
      assert items[i] == items[k];
    }
  }

  lemma HarmlessStep(s: Server, items: Items, k: nat, t: Server, faults: Faults)
    requires k < |items| && Steady(s, items, k, t) && Harmless(s.machines, items, k) && OneConfigEach(items)
    ensures var (name, cfg) := items[k];
      ProcessOne(t, Known(s.machines, name), name, cfg, faults)
      == ProcessOne(t, Known(t.machines, name), name, cfg, faults)
  {
    var (name, cfg) := items[k];
    if FillData(name, cfg).Some? {
      SteadyBefore(s, items, k, t);
      if SameLook(s.machines, t.machines, name) {
        LooksAtMacs(t, Known(s.machines, name).value, Known(t.machines, name).value, name, cfg, faults);
      }
    }
  }

  lemma SharingStays(s: Server, items: Items, k: nat, t: Server, faults: Faults)
    requires k < |items| && Steady(s, items, k, t) && Harmless(s.machines, items, k) && OneConfigEach(items)
    requires FillData(items[k].0, items[k].1).Some?
    requires Sharing(s.machines, items[k].0, FillData(items[k].0, items[k].1).value)
    ensures var (name, cfg) := items[k];
      SameLook(s.machines, ProcessOne(t, Known(t.machines, name), name, cfg, faults).0.machines, name)
  {
    var (name, cfg) := items[k];
    var data := FillData(name, cfg).value;
    SteadyBefore(s, items, k, t);
    var y := Known(t.machines, name).value;
    PutKeepsLook(t, y, data.(macs := Lowered(data.macs) * Lowered(y.macs)), faults);
  }

  lemma StillSteady(s: Server, items: Items, n: nat, t: Server, t': Server)
    requires 0 < n <= |items| && OneConfigEach(items) && Steady(s, items, n - 1, t) && WellFormed(t')
    requires forall other :: other != items[n - 1].0 ==> Named(t'.machines, other) == Named(t.machines, other)
    requires FillData(items[n - 1].0, items[n - 1].1).Some?
             && Sharing(s.machines, items[n - 1].0, FillData(items[n - 1].0, items[n - 1].1).value) ==>
               SameLook(s.machines, t'.machines, items[n - 1].0)
    ensures Steady(s, items, n, t')
  {
    var name := items[n - 1].0;
    OthersUntouched(s, items, n, t, t');
    forall k | 0 <= k < n && FillData(items[k].0, items[k].1).Some?
               && Sharing(s.machines, items[k].0, FillData(items[k].0, items[k].1).value)
      ensures SameLook(s.machines, t'.machines, items[k].0)
    {
      if items[k].0 == name { assert items[k] == items[n - 1]; }
    }
  }

  lemma {:induction false} HarmlessAgree(s: Server, items: Items, n: nat, faults: Faults)
    requires WellFormed(s) && OneConfigEach(items) && n <= |items|
    requires forall k | 0 <= k < n :: Harmless(s.machines, items, k)
    ensures Run(s, s.machines, items[..n], faults) == RunRereading(s, items[..n], faults)
    ensures Steady(s, items, n, RunRereading(s, items[..n], faults).0)
  {
    if n > 0 {
      HarmlessAgree(s, items, n - 1, faults);
      var (name, cfg) := items[n - 1];
      var t := RunRereading(s, items[..n - 1], faults).0;
      RereadingLast(s, items, n, faults);
      RunLast(s, items, n, faults);
      HarmlessStep(s, items, n - 1, t, faults);
      OneFrame(t, name, cfg, faults);
      if FillData(name, cfg).Some? && Sharing(s.machines, name, FillData(name, cfg).value) {
        SharingStays(s, items, n - 1, t, faults);
      }
      StillSteady(s, items, n, t, ProcessOne(t, Known(t.machines, name), name, cfg, faults).0);
    }
  }

  lemma RereadingLast(s: Server, items: Items, n: nat, faults: Faults)
    requires 0 < n <= |items|
    ensures var (name, cfg) := items[n - 1];
      var (t, report) := RunRereading(s, items[..n - 1], faults);
      var (t', v) := ProcessOne(t, Known(t.machines, name), name, cfg, faults);
      RunRereading(s, items[..n], faults) == (t', report.Add(name, v))
  {
    assert items[..n][..n - 1] == items[..n - 1] && items[..n][n - 1] == items[n - 1];
  }

  /** Whatever calls fail: as long as every repeated name is, in the snapshot, on a machine sharing
      a MAC with its configuration, the single snapshot is as good as reading again. */
  lemma HarmlessSnapshotSuffices(s: Server, items: Items, faults: Faults)
    requires WellFormed(s) && OneConfigEach(items)
    requires forall k | 0 <= k < |items| :: Harmless(s.machines, items, k)
    ensures Run(s, s.machines, items, faults) == RunRereading(s, items, faults)
  {
    assert items[..|items|] == items;
    HarmlessAgree(s, items, |items|, faults);
  }

  lemma ProcessOneLogs(s: Server, known: Option<Machine>, name: string, cfg: MachineConfig, faults: Faults)
    ensures s.calls <= ProcessOne(s, known, name, cfg, faults).0.calls
  {
  }

  lemma {:induction false} RunsLog(s: Server, items: Items, n: nat, faults: Faults)
    requires n <= |items|
    ensures Run(s, s.machines, items[..n], faults).0.calls <= Run(s, s.machines, items, faults).0.calls
    ensures RunRereading(s, items[..n], faults).0.calls <= RunRereading(s, items, faults).0.calls
    decreases |items|
  {
    if n == |items| {
      assert items[..n] == items;
    } else {
      var before := items[..|items| - 1];
      var (name, cfg) := items[|items| - 1];
      assert before[..n] == items[..n];
      RunsLog(s, before, n, faults);
      var s1, s2 := Run(s, s.machines, before, faults).0, RunRereading(s, before, faults).0;
      ProcessOneLogs(s1, Known(s.machines, name), name, cfg, faults);
      ProcessOneLogs(s2, Known(s2.machines, name), name, cfg, faults);
    }
  }

  /** The first harmful repetition: the run over the snapshot does not update here, the run that
      reads again does. */
  lemma HarmfulStep(s: Server, items: Items, k: nat, t: Server, faults: Faults)
    requires k < |items| && Tracks(s, items, k, t) && !Harmless(s.machines, items, k) && OneConfigEach(items)
    ensures var (name, cfg) := items[k];
      var stale := ProcessOne(t, Known(s.machines, name), name, cfg, faults).0.calls;
      var reread := ProcessOne(t, Known(t.machines, name), name, cfg, faults).0.calls;
      |stale| > |t.calls| && |reread| > |t.calls| && !stale[|t.calls|].Put? && reread[|t.calls|].Put?
  {
    TrackedBefore(s, items, k, t);
  }

  lemma HarmfulDiffers(s: Server, items: Items, k: nat, faults: Faults)
    requires WellFormed(s) && Compatible(s.machines, items) && DisjointConfigs(items) && Clean(faults)
    requires OneConfigEach(items) && k < |items| && !Harmless(s.machines, items, k)
    requires forall j | 0 <= j < k :: Harmless(s.machines, items, j)
    ensures Run(s, s.machines, items, faults).0.calls != RunRereading(s, items, faults).0.calls
  {
    HarmlessAgree(s, items, k, faults);
    RereadingTracks(s, items, k, faults);
    var t := RunRereading(s, items[..k], faults).0;
    HarmfulStep(s, items, k, t, faults);
    assert items[..k + 1][..k] == items[..k];
    RunsLog(s, items, k + 1, faults);
    var stale := Run(s, s.machines, items[..k + 1], faults).0.calls;
    var reread := RunRereading(s, items[..k + 1], faults).0.calls;
    assert stale[|t.calls|] != reread[|t.calls|];
  }

  lemma {:induction false} FirstHarmful(ms: seq<Machine>, items: Items, n: nat) returns (k: nat)
    requires n <= |items| && exists j :: 0 <= j < n && !Harmless(ms, items, j)
    ensures k < n && !Harmless(ms, items, k) && forall j | 0 <= j < k :: Harmless(ms, items, j)
  {
    if exists j :: 0 <= j < n - 1 && !Harmless(ms, items, j) {
      k := FirstHarmful(ms, items, n - 1);
    } else {
      k := n - 1;
    }
  }

  /** With names listed any number of times, the single snapshot is as good as reading again
      exactly when every repeated name is on a machine that shares a MAC with its configuration:
      a name to be created, and one to be deleted and created again, go wrong the second time. */
  lemma SnapshotSufficesExactly(s: Server, items: Items, faults: Faults)
    requires WellFormed(s) && OneConfigEach(items) && Clean(faults)
    requires Compatible(s.machines, items) && DisjointConfigs(items)
    ensures Run(s, s.machines, items, faults) == RunRereading(s, items, faults)
            <==> forall k | 0 <= k < |items| :: Harmless(s.machines, items, k)
  {
    if forall k | 0 <= k < |items| :: Harmless(s.machines, items, k) {
      HarmlessSnapshotSuffices(s, items, faults);
    } else {
      var k := FirstHarmful(s.machines, items, |items|);
      HarmfulDiffers(s, items, k, faults);
    }
  }

  // ----- what is reached, and what is reported -----

  /** Two servers with the same machines, whatever calls they have seen. */
  predicate SameMachines(a: Server, b: Server) {
    a.machines == b.machines && a.nextSid == b.nextSid
  }

  lemma SameServe(a: Server, b: Server, c: Call, faults: Faults)
    requires SameMachines(a, b) && Clean(faults)
    ensures SameMachines(Serve(a, c, faults), Serve(b, c, faults))
    ensures Replies(a, c, faults) == Replies(b, c, faults)
  {
  }

  lemma SameOutcome(a: Server, b: Server, known: Option<Machine>, name: string, cfg: MachineConfig, faults: Faults)
    requires SameMachines(a, b) && Clean(faults)
    ensures var one, other := ProcessOne(a, known, name, cfg, faults), ProcessOne(b, known, name, cfg, faults);
      SameMachines(one.0, other.0) && one.1 == other.1
  {
    if FillData(name, cfg).Some? {
      var data := FillData(name, cfg).value;
      SameServe(a, b, Post(data), faults);
      if known.Some? {
        var seen := known.value;
        var drop := Delete(seen.sid);
        SameServe(a, b, Put(seen.sid, data.(macs := Lowered(data.macs) * Lowered(seen.macs))), faults);
        SameServe(a, b, drop, faults);
        SameServe(Serve(a, drop, faults), Serve(b, drop, faults), Post(data), faults);
      }
    }
  }

  /** A second update with the same settings changes nothing. */
  lemma PutAgain(t: Server, y: Machine, data: Payload, faults: Faults)
    requires WellFormed(t) && y in t.machines && y.hostname == data.hostname
    requires y.settings + data.settings == y.settings
    ensures SameMachines(t, Serve(t, Put(y.sid, data), faults))
  {
    var ms, i := t.machines, SidIndex(t.machines, y.sid);
    assert ms[i] == y;
    assert ms[..i] + [ms[i]] + ms[i + 1..] == ms;
  }

  /** The machine of the snapshot was replaced, so its identifier is in use no more. */
  lemma Replaced(s: Server, t: Server, x: Machine, name: string, data: Payload)
    requires WellFormed(s) && x in s.machines && x.hostname == name
    requires Inherited(s, t) && |Named(t.machines, name)| <= 1
    requires StillRight(s, t.machines, name, data) && !Sharing(s.machines, name, data)
    ensures forall y <- t.machines :: y.sid != x.sid
  {
    forall y <- t.machines ensures y.sid != x.sid {
      if y.hostname == name {
        OnlyNamed(t.machines, y);
        assert y.sid >= s.nextSid > x.sid;
      } else if y.sid < s.nextSid {
        var z :| z in s.machines && z.sid == y.sid && z.hostname == y.hostname;
        OtherSid(s, x, z);
      }
    }
  }

  lemma OnlyNamed(ms: seq<Machine>, y: Machine)
    requires y in ms && |Named(ms, y.hostname)| <= 1
    ensures Known(ms, y.hostname) == Some(y)
  {
    NamedMembers(ms, y.hostname);
    assert y in Named(ms, y.hostname);
  }

  lemma OtherSid(s: Server, x: Machine, z: Machine)
    requires WellFormed(s) && x in s.machines && z in s.machines && x != z
    ensures x.sid != z.sid
  {
  }

  /** At a harmful repetition the stale run is refused, the other one updates; neither changes any
      machine. */
  lemma HarmfulOutcome(s: Server, items: Items, k: nat, t: Server, faults: Faults)
    requires WellFormed(s) && Clean(faults) && OneConfigEach(items)
    requires k < |items| && Tracks(s, items, k, t) && !Harmless(s.machines, items, k)
    ensures var (name, cfg) := items[k];
      var (stale, v) := ProcessOne(t, Known(s.machines, name), name, cfg, faults);
      var (reread, v') := ProcessOne(t, Known(t.machines, name), name, cfg, faults);
      && SameMachines(t, stale) && v == Failed
      && SameMachines(t, reread) && v' == Updated
  {
    var (name, cfg) := items[k];
    var data := FillData(name, cfg).value;
    TrackedBefore(s, items, k, t);
    assert |Named(t.machines, name)| <= 1;
    KnownConcerns(t, name);
    KnownConcerns(s, name);
    var y := Known(t.machines, name).value;
    var put := data.(macs := Lowered(data.macs) * Lowered(y.macs));
    assert Named(t.machines, name) == [y];
    OwnPutAccepted(t, y, put);
    PutAgain(t, y, put, faults);
    if Known(s.machines, name).Some? {
      Replaced(s, t, Known(s.machines, name).value, name, data);
    }
  }

  ghost predicate FailsAt(ms: seq<Machine>, items: Items, k: nat, name: string)
    requires k < |items|
  {
    items[k].0 == name && (FillData(name, items[k].1).None? || !Harmless(ms, items, k))
  }

  /** The names reported as failed: those without usable data, and those repeated to no good. */
  ghost predicate FailsInRun(ms: seq<Machine>, items: Items, n: nat, name: string)
    requires n <= |items|
  {
    exists k | 0 <= k < n :: FailsAt(ms, items, k, name)
  }

  ghost predicate Unfilled(items: Items, n: nat, name: string)
    requires n <= |items|
  {
    exists k | 0 <= k < n :: items[k].0 == name && FillData(name, items[k].1).None?
  }

  lemma FailsNext(ms: seq<Machine>, items: Items, n: nat, name: string)
    requires 0 < n <= |items|
    ensures FailsInRun(ms, items, n, name) <==> FailsInRun(ms, items, n - 1, name) || FailsAt(ms, items, n - 1, name)
    ensures Unfilled(items, n, name)
            <==> Unfilled(items, n - 1, name) || (items[n - 1].0 == name && FillData(name, items[n - 1].1).None?)
  {
  }

  lemma HarmlessTracked(s: Server, items: Items, k: nat, t: Server, faults: Faults)
    requires k < |items| && Tracks(s, items, k, t) && Harmless(s.machines, items, k) && OneConfigEach(items)
    ensures var (name, cfg) := items[k];
      ProcessOne(t, Known(s.machines, name), name, cfg, faults)
      == ProcessOne(t, Known(t.machines, name), name, cfg, faults)
  {
    var (name, cfg) := items[k];
    if FillData(name, cfg).Some? { TrackedBefore(s, items, k, t); }
    if Repeated(items, k) {
      LooksAtMacs(t, Known(s.machines, name).value, Known(t.machines, name).value, name, cfg, faults);
    }
  }

  lemma StepOutcome(s: Server, items: Items, k: nat, t: Server, u: Server, faults: Faults)
    requires WellFormed(s) && OneConfigEach(items) && Clean(faults) && DisjointConfigs(items)
    requires k < |items| && Tracks(s, items, k, t) && SameMachines(t, u)
    ensures var (name, cfg) := items[k];
      var (u', v) := ProcessOne(u, Known(s.machines, name), name, cfg, faults);
      var (t', v') := ProcessOne(t, Known(t.machines, name), name, cfg, faults);
      && SameMachines(t', u')
      && (v' == Failed <==> FillData(name, cfg).None?)
      && v == if Harmless(s.machines, items, k) then v' else Failed
  {
    var (name, cfg) := items[k];
    SameOutcome(t, u, Known(s.machines, name), name, cfg, faults);
    if FillData(name, cfg).Some? { OneSettles(t, items, k, faults); }
    if Harmless(s.machines, items, k) {
      HarmlessTracked(s, items, k, t, faults);
    } else {
      HarmfulOutcome(s, items, k, t, faults);
    }
  }

  /** The two runs over the first `n` items. */
  ghost predicate InStep(s: Server, items: Items, n: nat, run: (Server, Report), rereading: (Server, Report))
    requires n <= |items|
  {
    && SameMachines(run.0, rereading.0)
    && (forall name :: name in run.1.errors <==> FailsInRun(s.machines, items, n, name))
    && (forall name :: name in rereading.1.errors <==> Unfilled(items, n, name))
  }

  lemma InStepNext(s: Server, items: Items, n: nat, run: (Server, Report), rereading: (Server, Report),
                   one: (Server, Verdict), other: (Server, Verdict),
                   run': (Server, Report), rereading': (Server, Report))
    requires 0 < n <= |items| && InStep(s, items, n - 1, run, rereading) && SameMachines(one.0, other.0)
    requires other.1 == Failed <==> FillData(items[n - 1].0, items[n - 1].1).None?
    requires one.1 == if Harmless(s.machines, items, n - 1) then other.1 else Failed
    requires run' == (one.0, run.1.Add(items[n - 1].0, one.1))
    requires rereading' == (other.0, rereading.1.Add(items[n - 1].0, other.1))
    ensures InStep(s, items, n, run', rereading')
  {
    forall name
      ensures name in run'.1.errors <==> FailsInRun(s.machines, items, n, name)
      ensures name in rereading'.1.errors <==> Unfilled(items, n, name)
    {
      FailsNext(s.machines, items, n, name);
    }
  }

  lemma {:induction false} RunsInStep(s: Server, items: Items, n: nat, faults: Faults)
    requires WellFormed(s) && OneConfigEach(items) && Clean(faults) && n <= |items|
    requires Compatible(s.machines, items) && DisjointConfigs(items)
    ensures InStep(s, items, n, Run(s, s.machines, items[..n], faults), RunRereading(s, items[..n], faults))
  {
    if n > 0 {
      RunsInStep(s, items, n - 1, faults);
      RereadingTracks(s, items, n - 1, faults);
      var run, rereading := Run(s, s.machines, items[..n - 1], faults), RunRereading(s, items[..n - 1], faults);
      StepOutcome(s, items, n - 1, rereading.0, run.0, faults);
      RunLast(s, items, n, faults);
      RereadingLast(s, items, n, faults);
      var (name, cfg) := items[n - 1];
      InStepNext(s, items, n, run, rereading, ProcessOne(run.0, Known(s.machines, name), name, cfg, faults),
                 ProcessOne(rereading.0, Known(rereading.0.machines, name), name, cfg, faults),
                 Run(s, s.machines, items[..n], faults), RunRereading(s, items[..n], faults));
    }
  }

  /** Whatever names are repeated, the run over the single snapshot reaches the same machines as
      the one that reads again; what it gets wrong is the report, which has an error for exactly
      those repeated names whose machine had to be created or created again. */
  lemma RepeatsOnlyMisreport(s: Server, items: Items, faults: Faults)
    requires WellFormed(s) && OneConfigEach(items) && Clean(faults)
    requires Compatible(s.machines, items) && DisjointConfigs(items)
    ensures SameMachines(Run(s, s.machines, items, faults).0, RunRereading(s, items, faults).0)
    ensures forall name :: name in Run(s, s.machines, items, faults).1.errors
                           <==> FailsInRun(s.machines, items, |items|, name)
    ensures forall name :: name in RunRereading(s, items, faults).1.errors <==> Unfilled(items, |items|, name)
  {
    assert items[..|items|] == items;
    RunsInStep(s, items, |items|, faults);
  }
}
