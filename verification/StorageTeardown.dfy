/** `drop_storage_schema` of mcp/salt-formulas/salt-formula-maas/_modules/maasng.py: volume groups
    with their logical volumes, then RAIDs, then partitions are deleted, every object being looked
    up by name again before it is deleted. The server refuses to delete an object that another
    one is built on. */
module StorageTeardown {
  import opened Common

  /** What a volume group or a RAID can be built on. */
  datatype Base =
    | OnDisk(disk: string)
    | OnPartition(disk: string, part: nat)
    | OnRaid(raid: string)
    | OnRaidPartition(raid: string, part: nat)
    | OnVolume(group: string, volume: string)

  datatype Group = Group(name: string, on: set<Base>, volumes: seq<string>)

  datatype Raid = Raid(name: string, on: set<Base>, parts: seq<nat>)

  datatype Disk = Disk(name: string, parts: seq<nat>)

  /** Each kind of object in the order in which the server lists it. */
  datatype Storage = Storage(groups: seq<Group>, raids: seq<Raid>, disks: seq<Disk>)

  datatype Device = DiskDevice(disk: string) | RaidDevice(raid: string) | VolumeDevice(group: string, volume: string)

  datatype Answer = Done | LookupFailed | InUse

  datatype Step = Step(answer: Answer, s: Storage)

  // ----- the server -----

  predicate Used(s: Storage, b: Base) {
    (exists g <- s.groups :: b in g.on) || (exists r <- s.raids :: b in r.on)
  }

  function GroupNames(groups: seq<Group>): seq<string> {
    seq(|groups|, i requires 0 <= i < |groups| => groups[i].name)
  }

  function RaidNames(raids: seq<Raid>): seq<string> {
    seq(|raids|, i requires 0 <= i < |raids| => raids[i].name)
  }

  function DiskNames(disks: seq<Disk>): seq<string> {
    seq(|disks|, i requires 0 <= i < |disks| => disks[i].name)
  }

  function DeleteVolume(s: Storage, group: string, volume: string): Step {
    var i := IndexOf(GroupNames(s.groups), group);
    if i == |s.groups| || volume !in s.groups[i].volumes then Step(LookupFailed, s)
    else if Used(s, OnVolume(group, volume)) then Step(InUse, s)
    else
      var g := s.groups[i];
      Step(Done, s.(groups := s.groups[i := g.(volumes := Without(g.volumes, volume))]))
  }

  function DeleteEmptyGroup(s: Storage, group: string): Step {
    var i := IndexOf(GroupNames(s.groups), group);
    if i == |s.groups| then Step(LookupFailed, s)
    else if s.groups[i].volumes != [] then Step(InUse, s)
    else Step(Done, s.(groups := s.groups[..i] + s.groups[i + 1..]))
  }

  /** The partitions of a RAID go with it. */
  function DeleteRaid(s: Storage, raid: string): Step {
    var i := IndexOf(RaidNames(s.raids), raid);
    if i == |s.raids| then Step(LookupFailed, s)
    else if Used(s, OnRaid(raid)) || exists p <- s.raids[i].parts :: Used(s, OnRaidPartition(raid, p)) then
      Step(InUse, s)
    else Step(Done, s.(raids := s.raids[..i] + s.raids[i + 1..]))
  }

  /** Partitions of disks; those of a RAID are addressed through its own device. */
  function DeletePartition(s: Storage, d: Device, part: nat): Step {
    match d
    case DiskDevice(disk) =>
      var i := IndexOf(DiskNames(s.disks), disk);
      if i == |s.disks| || part !in s.disks[i].parts then Step(LookupFailed, s)
      else if Used(s, OnPartition(disk, part)) then Step(InUse, s)
      else Step(Done, s.(disks := s.disks[i := Disk(disk, Without(s.disks[i].parts, part))]))
    case RaidDevice(raid) =>
      var i := IndexOf(RaidNames(s.raids), raid);
      if i == |s.raids| || part !in s.raids[i].parts then Step(LookupFailed, s)
      else if Used(s, OnRaidPartition(raid, part)) then Step(InUse, s)
      else Step(Done, s.(raids := s.raids[i := s.raids[i].(parts := Without(s.raids[i].parts, part))]))
    case VolumeDevice(_, _) => Step(LookupFailed, s)
  }

  function VolumeDevices(groups: seq<Group>): seq<Device> {
    if groups == [] then []
    else
      var g := groups[0];
      seq(|g.volumes|, i requires 0 <= i < |g.volumes| => VolumeDevice(g.name, g.volumes[i]))
      + VolumeDevices(groups[1..])
  }

  /** RAIDs and logical volumes are listed as block devices next to the disks. */
  function Devices(s: Storage): seq<Device> {
    seq(|s.disks|, i requires 0 <= i < |s.disks| => DiskDevice(s.disks[i].name))
    + seq(|s.raids|, i requires 0 <= i < |s.raids| => RaidDevice(s.raids[i].name))
    + VolumeDevices(s.groups)
  }

  /** `None` when the device is not listed any more. */
  function PartitionsOf(s: Storage, d: Device): Option<seq<nat>> {
    match d
    case DiskDevice(disk) =>
      var i := IndexOf(DiskNames(s.disks), disk);
      if i == |s.disks| then None else Some(s.disks[i].parts)
    case RaidDevice(raid) =>
      var i := IndexOf(RaidNames(s.raids), raid);
      if i == |s.raids| then None else Some(s.raids[i].parts)
    case VolumeDevice(group, volume) =>
      var i := IndexOf(GroupNames(s.groups), group);
      if i == |s.groups| || volume !in s.groups[i].volumes then None else Some([])
  }

  // ----- the teardown -----

  function DropVolumes(s: Storage, group: string, volumes: seq<string>): Step
    decreases |volumes|
  {
    if volumes == [] then Step(Done, s)
    else
      var step := DeleteVolume(s, group, volumes[0]);
      if step.answer != Done then step else DropVolumes(step.s, group, volumes[1..])
  }

  function DropGroup(s: Storage, group: string): Step {
    var i := IndexOf(GroupNames(s.groups), group);
    if i == |s.groups| then Step(LookupFailed, s)
    else
      var step := DropVolumes(s, group, s.groups[i].volumes);
      if step.answer != Done then step else DeleteEmptyGroup(step.s, group)
  }

  function DropGroups(s: Storage, names: seq<string>): Step
    decreases |names|
  {
    if names == [] then Step(Done, s)
    else
      var step := DropGroup(s, names[0]);
      if step.answer != Done then step else DropGroups(step.s, names[1..])
  }

  function DropRaids(s: Storage, names: seq<string>): Step
    decreases |names|
  {
    if names == [] then Step(Done, s)
    else
      var step := DeleteRaid(s, names[0]);
      if step.answer != Done then step else DropRaids(step.s, names[1..])
  }

  function DropPartitions(s: Storage, d: Device, parts: seq<nat>): Step
    decreases |parts|
  {
    if parts == [] then Step(Done, s)
    else
      var step := DeletePartition(s, d, parts[0]);
      if step.answer != Done then step else DropPartitions(step.s, d, parts[1..])
  }

  function DropAllPartitions(s: Storage, devices: seq<Device>): Step
    decreases |devices|
  {
    if devices == [] then Step(Done, s)
    else
      var parts := PartitionsOf(s, devices[0]);
      if parts.None? then Step(LookupFailed, s)
      else
        var step := DropPartitions(s, devices[0], parts.value);
        if step.answer != Done then step else DropAllPartitions(step.s, devices[1..])
  }

  function Teardown(s: Storage): Step {
    var groups := DropGroups(s, GroupNames(s.groups));
    if groups.answer != Done then groups
    else
      var raids := DropRaids(groups.s, RaidNames(groups.s.raids));
      if raids.answer != Done then raids
      else DropAllPartitions(raids.s, Devices(raids.s))
  }

  // ----- when it works -----

  /** What the server guarantees about its own listings. */
  ghost predicate WellNamed(s: Storage) {
    && (forall i, j :: 0 <= i < j < |s.groups| ==> s.groups[i].name != s.groups[j].name)
    && (forall g <- s.groups :: Distinct(g.volumes))
    && (forall i, j :: 0 <= i < j < |s.raids| ==> s.raids[i].name != s.raids[j].name)
    && (forall i, j :: 0 <= i < j < |s.disks| ==> s.disks[i].name != s.disks[j].name)
    && (forall d <- s.disks :: Distinct(d.parts))
  }

  ghost predicate VolumeInTheWay(s: Storage, i: nat)
    requires i < |s.groups|
  {
    exists v <- s.groups[i].volumes ::
      || (exists r <- s.raids :: OnVolume(s.groups[i].name, v) in r.on)
      || (exists j :: i <= j < |s.groups| && OnVolume(s.groups[i].name, v) in s.groups[j].on)
  }

  ghost predicate RaidInTheWay(raids: seq<Raid>, i: nat)
    requires i < |raids|
  {
    exists j :: i <= j < |raids| && (OnRaid(raids[i].name) in raids[j].on
                                     || exists p <- raids[i].parts :: OnRaidPartition(raids[i].name, p) in raids[j].on)
  }

  ghost predicate GroupsClear(s: Storage) {
    forall i | 0 <= i < |s.groups| :: !VolumeInTheWay(s, i)
  }

  ghost predicate RaidsClear(raids: seq<Raid>) {
    forall i | 0 <= i < |raids| :: !RaidInTheWay(raids, i)
  }

  /** No RAID, and no volume group listed later, is built on a logical volume; no RAID listed
      later is built on a RAID. */
  ghost predicate Layered(s: Storage) {
    GroupsClear(s) && RaidsClear(s.raids)
  }

  function Emptied(disks: seq<Disk>): seq<Disk> {
    seq(|disks|, i requires 0 <= i < |disks| => Disk(disks[i].name, []))
  }

  lemma HeadGroup(s: Storage)
    requires s.groups != []
    ensures IndexOf(GroupNames(s.groups), s.groups[0].name) == 0
  {
  }

  lemma {:induction false} DropHeadVolumes(s: Storage, volumes: seq<string>)
    requires s.groups != [] && s.groups[0].volumes == volumes && Distinct(volumes)
    ensures var g := s.groups[0];
      var step := DropVolumes(s, g.name, volumes);
      && step.answer != LookupFailed
      && (step.answer == Done <==> forall v <- volumes :: !Used(s, OnVolume(g.name, v)))
      && (step.answer == Done ==> step.s == s.(groups := [g.(volumes := [])] + s.groups[1..]))
    decreases |volumes|
  {
    var g := s.groups[0];
    if volumes == [] {
      assert s.groups == [g.(volumes := [])] + s.groups[1..];
    } else {
      DeleteHeadVolume(s);
      assert volumes[0] in volumes;
      if !Used(s, OnVolume(g.name, volumes[0])) {
        var s' := s.(groups := [g.(volumes := volumes[1..])] + s.groups[1..]);
        SameUses(s, s');
        DropHeadVolumes(s', volumes[1..]);
        assert DropVolumes(s, g.name, volumes) == DropVolumes(s', g.name, volumes[1..]);
        NoneUsed(s, g.name, volumes);
      }
    }
  }

  lemma NoneUsed(s: Storage, group: string, volumes: seq<string>)
    requires volumes != [] && !Used(s, OnVolume(group, volumes[0]))
    ensures (forall v <- volumes :: !Used(s, OnVolume(group, v)))
            <==> forall v <- volumes[1..] :: !Used(s, OnVolume(group, v))
  {
    assert volumes == [volumes[0]] + volumes[1..];
  }

  lemma DeleteHeadVolume(s: Storage)
    requires s.groups != [] && s.groups[0].volumes != []
    ensures var g := s.groups[0];
      DeleteVolume(s, g.name, g.volumes[0])
      == if Used(s, OnVolume(g.name, g.volumes[0])) then Step(InUse, s)
         else Step(Done, s.(groups := [g.(volumes := g.volumes[1..])] + s.groups[1..]))
  {
    var g := s.groups[0];
    HeadGroup(s);
    assert g.volumes[0] in g.volumes;
    assert s.groups[0 := g.(volumes := g.volumes[1..])] == [g.(volumes := g.volumes[1..])] + s.groups[1..];
  }

  lemma SameUses(s: Storage, s': Storage)
    requires |s.groups| == |s'.groups| && s.raids == s'.raids
    requires forall i :: 0 <= i < |s.groups| ==> s.groups[i].on == s'.groups[i].on
    ensures forall b :: Used(s, b) <==> Used(s', b)
  {
    forall b ensures Used(s, b) <==> Used(s', b) {
      if g :| g in s.groups && b in g.on {
        var i :| 0 <= i < |s.groups| && s.groups[i] == g;
        assert s'.groups[i] in s'.groups;
      }
      if g :| g in s'.groups && b in g.on {
        var i :| 0 <= i < |s'.groups| && s'.groups[i] == g;
        assert s.groups[i] in s.groups;
      }
    }
  }

  lemma HeadVolumesFree(s: Storage)
    requires s.groups != []
    ensures VolumeInTheWay(s, 0) <==> exists v <- s.groups[0].volumes :: Used(s, OnVolume(s.groups[0].name, v))
  {
    var g := s.groups[0];
    if VolumeInTheWay(s, 0) {
      var v :| v in g.volumes
        && ((exists r <- s.raids :: OnVolume(g.name, v) in r.on)
            || (exists j :: 0 <= j < |s.groups| && OnVolume(g.name, v) in s.groups[j].on));
      assert Used(s, OnVolume(g.name, v));
    }
  }

  lemma DropHeadGroup(s: Storage)
    requires WellNamed(s) && s.groups != []
    ensures var step := DropGroup(s, s.groups[0].name);
      && step.answer != LookupFailed
      && (step.answer == Done <==> !VolumeInTheWay(s, 0))
      && (step.answer == Done ==> step.s == s.(groups := s.groups[1..]))
  {
    var g := s.groups[0];
    HeadGroup(s);
    assert g in s.groups;
    DropHeadVolumes(s, g.volumes);
    HeadVolumesFree(s);
    if !VolumeInTheWay(s, 0) {
      var cleared := s.(groups := [g.(volumes := [])] + s.groups[1..]);
      HeadGroup(cleared);
      assert cleared.groups[..0] + cleared.groups[1..] == s.groups[1..];
    }
  }

  lemma GroupsInTheWay(s: Storage)
    requires s.groups != []
    ensures GroupsClear(s) <==> !VolumeInTheWay(s, 0) && GroupsClear(s.(groups := s.groups[1..]))
  {
    var rest := s.(groups := s.groups[1..]);
    forall i | 0 <= i < |rest.groups| ensures VolumeInTheWay(rest, i) <==> VolumeInTheWay(s, i + 1) {
      TailInTheWay(s, i);
    }
    if GroupsClear(rest) {
      forall i | 0 < i < |s.groups| ensures !VolumeInTheWay(s, i) {
        assert !VolumeInTheWay(rest, i - 1);
      }
    }
  }

  lemma {:induction false} DropGroupsExactly(s: Storage)
    requires WellNamed(s)
    ensures var step := DropGroups(s, GroupNames(s.groups));
      && step.answer != LookupFailed
      && (step.answer == Done <==> GroupsClear(s))
      && (step.answer == Done ==> step.s == s.(groups := []))
    decreases |s.groups|
  {
    if s.groups != [] {
      DropGroupsStep(s);
      GroupsInTheWay(s);
      if !VolumeInTheWay(s, 0) { DropGroupsExactly(s.(groups := s.groups[1..])); }
    }
  }

  lemma DropGroupsStep(s: Storage)
    requires WellNamed(s) && s.groups != []
    ensures var rest, step := s.(groups := s.groups[1..]), DropGroups(s, GroupNames(s.groups));
      && WellNamed(rest)
      && if VolumeInTheWay(s, 0) then step.answer == InUse else step == DropGroups(rest, GroupNames(rest.groups))
  {
    var rest := s.(groups := s.groups[1..]);
    DropHeadGroup(s);
    assert GroupNames(s.groups)[1..] == GroupNames(rest.groups);
    forall x <- rest.groups ensures x in s.groups {}
  }

  lemma TailInTheWay(s: Storage, i: nat)
    requires i + 1 < |s.groups|
    ensures VolumeInTheWay(s.(groups := s.groups[1..]), i) <==> VolumeInTheWay(s, i + 1)
  {
    var rest := s.(groups := s.groups[1..]);
    var g := s.groups[i + 1];
    forall v ensures (exists j :: i <= j < |rest.groups| && OnVolume(g.name, v) in rest.groups[j].on)
                     <==> (exists j :: i + 1 <= j < |s.groups| && OnVolume(g.name, v) in s.groups[j].on)
    {
      if j :| i + 1 <= j < |s.groups| && OnVolume(g.name, v) in s.groups[j].on {
        assert rest.groups[j - 1] == s.groups[j];
      }
    }
  }

  lemma RaidHeadUsed(s: Storage)
    requires s.groups == [] && s.raids != []
    ensures RaidInTheWay(s.raids, 0) <==>
            || Used(s, OnRaid(s.raids[0].name))
            || exists p <- s.raids[0].parts :: Used(s, OnRaidPartition(s.raids[0].name, p))
  {
    var r := s.raids[0];
    if RaidInTheWay(s.raids, 0) {
      var j :| 0 <= j < |s.raids| && (OnRaid(r.name) in s.raids[j].on
                                      || exists p <- r.parts :: OnRaidPartition(r.name, p) in s.raids[j].on);
      assert s.raids[j] in s.raids;
      if OnRaid(r.name) !in s.raids[j].on {
        var p :| p in r.parts && OnRaidPartition(r.name, p) in s.raids[j].on;
        assert Used(s, OnRaidPartition(r.name, p));
      }
    }
    if Used(s, OnRaid(r.name)) {
      var x :| x in s.raids && OnRaid(r.name) in x.on;
      var j :| 0 <= j < |s.raids| && s.raids[j] == x;
    }
    if p :| p in r.parts && Used(s, OnRaidPartition(r.name, p)) {
      var x :| x in s.raids && OnRaidPartition(r.name, p) in x.on;
      var j :| 0 <= j < |s.raids| && s.raids[j] == x;
    }
  }

  lemma RaidTail(raids: seq<Raid>, i: nat)
    requires i + 1 < |raids|
    ensures RaidInTheWay(raids[1..], i) <==> RaidInTheWay(raids, i + 1)
  {
    var rest, r := raids[1..], raids[i + 1];
    if RaidInTheWay(raids, i + 1) {
      var j :| i + 1 <= j < |raids| && (OnRaid(r.name) in raids[j].on
                                        || exists p <- r.parts :: OnRaidPartition(r.name, p) in raids[j].on);
      assert rest[j - 1] == raids[j];
    }
  }

  lemma DropHeadRaid(s: Storage)
    requires s.groups == [] && s.raids != []
    ensures var step := DeleteRaid(s, s.raids[0].name);
      && step.answer != LookupFailed
      && (step.answer == Done <==> !RaidInTheWay(s.raids, 0))
      && (step.answer == Done ==> step.s == s.(raids := s.raids[1..]))
  {
    RaidHeadUsed(s);
    assert IndexOf(RaidNames(s.raids), s.raids[0].name) == 0;
    assert s.raids[..0] + s.raids[1..] == s.raids[1..];
  }

  lemma RaidsInTheWay(raids: seq<Raid>)
    requires raids != []
    ensures RaidsClear(raids) <==> !RaidInTheWay(raids, 0) && RaidsClear(raids[1..])
  {
    var rest := raids[1..];
    forall i | 0 <= i < |rest| ensures RaidInTheWay(rest, i) <==> RaidInTheWay(raids, i + 1) {
      RaidTail(raids, i);
    }
    if RaidsClear(rest) {
      forall i | 0 < i < |raids| ensures !RaidInTheWay(raids, i) {
        assert !RaidInTheWay(rest, i - 1);
      }
    }
  }

  lemma {:induction false} DropRaidsExactly(s: Storage)
    requires s.groups == []
    ensures var step := DropRaids(s, RaidNames(s.raids));
      && step.answer != LookupFailed
      && (step.answer == Done <==> RaidsClear(s.raids))
      && (step.answer == Done ==> step.s == s.(raids := []))
    decreases |s.raids|
  {
    if s.raids != [] {
      DropRaidsStep(s);
      RaidsInTheWay(s.raids);
      if !RaidInTheWay(s.raids, 0) { DropRaidsExactly(s.(raids := s.raids[1..])); }
    }
  }

  lemma DropRaidsStep(s: Storage)
    requires s.groups == [] && s.raids != []
    ensures var rest, step := s.(raids := s.raids[1..]), DropRaids(s, RaidNames(s.raids));
      if RaidInTheWay(s.raids, 0) then step.answer == InUse else step == DropRaids(rest, RaidNames(rest.raids))
  {
    var names := RaidNames(s.raids);
    DropHeadRaid(s);
    assert names[0] == s.raids[0].name && names[1..] == RaidNames(s.raids[1..]);
  }

  lemma DiskAt(disks: seq<Disk>, k: nat)
    requires k < |disks| && forall i, j :: 0 <= i < j < |disks| ==> disks[i].name != disks[j].name
    ensures IndexOf(DiskNames(disks), disks[k].name) == k
  {
    assert DiskNames(disks)[k] == disks[k].name;
  }

  lemma {:induction false} DropDiskPartitions(s: Storage, k: nat, parts: seq<nat>)
    requires s.groups == [] && s.raids == [] && k < |s.disks| && s.disks[k].parts == parts
    requires forall i, j :: 0 <= i < j < |s.disks| ==> s.disks[i].name != s.disks[j].name
    ensures DropPartitions(s, DiskDevice(s.disks[k].name), parts)
            == Step(Done, s.(disks := s.disks[k := Disk(s.disks[k].name, [])]))
    decreases |parts|
  {
    var disk := s.disks[k];
    if parts == [] {
      assert s.disks[k := Disk(disk.name, [])] == s.disks;
    } else {
      DiskAt(s.disks, k);
      assert parts[0] in parts;
      var s' := s.(disks := s.disks[k := Disk(disk.name, parts[1..])]);
      assert DeletePartition(s, DiskDevice(disk.name), parts[0]) == Step(Done, s');
      DropDiskPartitions(s', k, parts[1..]);
    }
  }

  function DiskDevices(disks: seq<Disk>): seq<Device> {
    seq(|disks|, i requires 0 <= i < |disks| => DiskDevice(disks[i].name))
  }

  lemma {:induction false} DropAllDisks(s: Storage, k: nat)
    requires s.groups == [] && s.raids == [] && k <= |s.disks|
    requires forall i, j :: 0 <= i < j < |s.disks| ==> s.disks[i].name != s.disks[j].name
    ensures DropAllPartitions(s, DiskDevices(s.disks)[k..])
            == Step(Done, s.(disks := s.disks[..k] + Emptied(s.disks)[k..]))
    decreases |s.disks| - k
  {
    if k == |s.disks| {
      assert s.disks[..k] + Emptied(s.disks)[k..] == s.disks;
    } else {
      var s' := s.(disks := s.disks[k := Disk(s.disks[k].name, [])]);
      DropOneDisk(s, k);
      DropAllDisks(s', k + 1);
      EmptiedNext(s.disks, k);
    }
  }

  lemma DropOneDisk(s: Storage, k: nat)
    requires s.groups == [] && s.raids == [] && k < |s.disks|
    requires forall i, j :: 0 <= i < j < |s.disks| ==> s.disks[i].name != s.disks[j].name
    ensures var s' := s.(disks := s.disks[k := Disk(s.disks[k].name, [])]);
      DropAllPartitions(s, DiskDevices(s.disks)[k..]) == DropAllPartitions(s', DiskDevices(s'.disks)[k + 1..])
  {
    var s' := s.(disks := s.disks[k := Disk(s.disks[k].name, [])]);
    DiskAt(s.disks, k);
    DropDiskPartitions(s, k, s.disks[k].parts);
    assert DiskDevices(s'.disks) == DiskDevices(s.disks);
    assert DiskDevices(s.disks)[k..][1..] == DiskDevices(s.disks)[k + 1..];
  }

  lemma EmptiedNext(disks: seq<Disk>, k: nat)
    requires k < |disks|
    ensures var disks' := disks[k := Disk(disks[k].name, [])];
      disks'[..k + 1] + Emptied(disks')[k + 1..] == disks[..k] + Emptied(disks)[k..]
  {
  }

  /** The teardown goes through exactly for layered storage; it then leaves the disks, in place
      and without partitions, and nothing else. No lookup by name fails in either case. */
  lemma TeardownExactly(s: Storage)
    requires WellNamed(s)
    ensures Teardown(s).answer != LookupFailed
    ensures Teardown(s).answer == Done <==> Layered(s)
    ensures Layered(s) ==> Teardown(s).s == Storage([], [], Emptied(s.disks))
  {
    DropGroupsExactly(s);
    if GroupsClear(s) {
      var s1 := s.(groups := []);
      DropRaidsExactly(s1);
      if RaidsClear(s.raids) {
        DisksOnly(s.disks);
      }
    }
  }

  lemma DisksOnly(disks: seq<Disk>)
    requires forall i, j :: 0 <= i < j < |disks| ==> disks[i].name != disks[j].name
    ensures var s := Storage([], [], disks);
      DropAllPartitions(s, Devices(s)) == Step(Done, Storage([], [], Emptied(disks)))
  {
    var s := Storage([], [], disks);
    assert Devices(s) == DiskDevices(disks)[0..];
    DropAllDisks(s, 0);
    assert disks[..0] + Emptied(disks)[0..] == Emptied(disks);
  }

  // ----- what a refused teardown leaves -----

  /** The k-th of the volumes is the first that something is built on. */
  ghost predicate FirstUsed(s: Storage, group: string, volumes: seq<string>, k: nat) {
    && k < |volumes| && Used(s, OnVolume(group, volumes[k]))
    && forall j | 0 <= j < k :: !Used(s, OnVolume(group, volumes[j]))
  }

  lemma {:induction false} DropVolumesLeaves(s: Storage, volumes: seq<string>) returns (k: nat)
    requires s.groups != [] && s.groups[0].volumes == volumes && Distinct(volumes)
    requires DropVolumes(s, s.groups[0].name, volumes).answer != Done
    ensures var g := s.groups[0];
      && FirstUsed(s, g.name, volumes, k)
      && DropVolumes(s, g.name, volumes) == Step(InUse, s.(groups := [g.(volumes := volumes[k..])] + s.groups[1..]))
    decreases |volumes|
  {
    var g := s.groups[0];
    DeleteHeadVolume(s);
    if Used(s, OnVolume(g.name, volumes[0])) {
      k := 0;
      assert s.groups == [g.(volumes := volumes[0..])] + s.groups[1..];
    } else {
      var s' := s.(groups := [g.(volumes := volumes[1..])] + s.groups[1..]);
      SameUses(s, s');
      var rest := DropVolumesLeaves(s', volumes[1..]);
      k := rest + 1;
      forall j | 0 <= j < k ensures !Used(s, OnVolume(g.name, volumes[j])) {
        if j > 0 { assert volumes[j] == volumes[1..][j - 1]; }
      }
      assert volumes[1..][rest..] == volumes[k..];
    }
  }

  /** The i-th group is the first with a volume in the way, and the k-th of its volumes the first
      that something still there is built on. */
  ghost predicate FirstBlocked(s: Storage, i: nat, k: nat) {
    && i < |s.groups| && VolumeInTheWay(s, i) && (forall j | 0 <= j < i :: !VolumeInTheWay(s, j))
    && FirstUsed(s.(groups := s.groups[i..]), s.groups[i].name, s.groups[i].volumes, k)
  }

  lemma BlockedTail(s: Storage, i: nat, k: nat)
    requires s.groups != [] && !VolumeInTheWay(s, 0) && FirstBlocked(s.(groups := s.groups[1..]), i, k)
    ensures FirstBlocked(s, i + 1, k)
  {
    var rest := s.(groups := s.groups[1..]);
    TailInTheWay(s, i);
    forall j | 0 <= j < i + 1 ensures !VolumeInTheWay(s, j) {
      if j > 0 { TailInTheWay(s, j - 1); }
    }
    assert rest.groups[i..] == s.groups[i + 1..];
  }

  /** What is left when the i-th group is blocked at its k-th volume. */
  ghost function LeftFrom(s: Storage, i: nat, k: nat): Storage
    requires i < |s.groups| && k <= |s.groups[i].volumes|
  {
    s.(groups := [s.groups[i].(volumes := s.groups[i].volumes[k..])] + s.groups[i + 1..])
  }

  lemma DropHeadLeaves(s: Storage) returns (k: nat)
    requires WellNamed(s) && s.groups != [] && VolumeInTheWay(s, 0)
    ensures FirstBlocked(s, 0, k)
    ensures DropGroups(s, GroupNames(s.groups)) == Step(InUse, LeftFrom(s, 0, k))
  {
    var g := s.groups[0];
    HeadGroup(s);
    assert g in s.groups && GroupNames(s.groups)[0] == g.name;
    DropHeadVolumes(s, g.volumes);
    HeadVolumesFree(s);
    k := DropVolumesLeaves(s, g.volumes);
    assert s.groups[0..] == s.groups;
  }

  lemma {:induction false} DropGroupsLeaves(s: Storage) returns (i: nat, k: nat)
    requires WellNamed(s) && !GroupsClear(s)
    ensures FirstBlocked(s, i, k)
    ensures DropGroups(s, GroupNames(s.groups)) == Step(InUse, LeftFrom(s, i, k))
    decreases |s.groups|
  {
    if VolumeInTheWay(s, 0) {
      i := 0;
      k := DropHeadLeaves(s);
    } else {
      var rest := s.(groups := s.groups[1..]);
      DropGroupsStep(s);
      GroupsInTheWay(s);
      i, k := DropGroupsLeaves(rest);
      BlockedTail(s, i, k);
      LeftFromTail(s, i, k);
      i := i + 1;
    }
  }

  lemma LeftFromTail(s: Storage, i: nat, k: nat)
    requires i + 1 < |s.groups| && k <= |s.groups[i + 1].volumes|
    ensures LeftFrom(s.(groups := s.groups[1..]), i, k) == LeftFrom(s, i + 1, k)
  {
    assert s.groups[1..][i + 1..] == s.groups[i + 2..];
  }

  /** The i-th RAID is the first that a later one is built on. */
  ghost predicate FirstRaidBlocked(raids: seq<Raid>, i: nat) {
    i < |raids| && RaidInTheWay(raids, i) && forall j | 0 <= j < i :: !RaidInTheWay(raids, j)
  }

  lemma RaidBlockedTail(raids: seq<Raid>, i: nat)
    requires raids != [] && !RaidInTheWay(raids, 0) && FirstRaidBlocked(raids[1..], i)
    ensures FirstRaidBlocked(raids, i + 1)
  {
    RaidTail(raids, i);
    forall j | 0 <= j < i + 1 ensures !RaidInTheWay(raids, j) {
      if j > 0 { RaidTail(raids, j - 1); }
    }
  }

  lemma {:induction false} DropRaidsLeaves(s: Storage) returns (i: nat)
    requires s.groups == [] && !RaidsClear(s.raids)
    ensures FirstRaidBlocked(s.raids, i)
    ensures DropRaids(s, RaidNames(s.raids)) == Step(InUse, s.(raids := s.raids[i..]))
    decreases |s.raids|
  {
    if RaidInTheWay(s.raids, 0) {
      i := 0;
      HeadRaidRefused(s);
    } else {
      DropRaidsStep(s);
      RaidsInTheWay(s.raids);
      var k := DropRaidsLeaves(s.(raids := s.raids[1..]));
      i := k + 1;
      RaidBlockedTail(s.raids, k);
      assert s.raids[1..][k..] == s.raids[i..];
    }
  }

  lemma HeadRaidRefused(s: Storage)
    requires s.groups == [] && s.raids != [] && RaidInTheWay(s.raids, 0)
    ensures DropRaids(s, RaidNames(s.raids)) == Step(InUse, s.(raids := s.raids[0..]))
  {
    RaidHeadUsed(s);
    assert IndexOf(RaidNames(s.raids), s.raids[0].name) == 0 && RaidNames(s.raids)[0] == s.raids[0].name;
    assert s.raids[0..] == s.raids;
  }

  /** What a teardown refused on a volume leaves, exactly: the groups before the first blocked one
      are gone, that one keeps its volumes from the first used one on, and later groups, all RAIDs
      and all partitions are as they were. */
  lemma RefusedOnVolume(s: Storage) returns (i: nat, k: nat)
    requires WellNamed(s) && !GroupsClear(s)
    ensures FirstBlocked(s, i, k) && Teardown(s) == Step(InUse, LeftFrom(s, i, k))
  {
    i, k := DropGroupsLeaves(s);
  }

  /** What a teardown refused on a RAID leaves, exactly: no groups, the RAIDs from the first blocked
      one on, and all partitions of disks. */
  lemma RefusedOnRaid(s: Storage) returns (i: nat)
    requires WellNamed(s) && GroupsClear(s) && !RaidsClear(s.raids)
    ensures FirstRaidBlocked(s.raids, i) && Teardown(s) == Step(InUse, Storage([], s.raids[i..], s.disks))
  {
    DropGroupsExactly(s);
    i := DropRaidsLeaves(s.(groups := []));
    TeardownOfRaids(s);
  }

  lemma TeardownOfRaids(s: Storage)
    requires DropGroups(s, GroupNames(s.groups)) == Step(Done, s.(groups := []))
    requires DropRaids(s.(groups := []), RaidNames(s.raids)).answer != Done
    ensures Teardown(s) == DropRaids(s.(groups := []), RaidNames(s.raids))
  {
  }

  // ----- devices other than disks -----

  /** The devices listed are the disks, the RAIDs and the logical volumes. */
  lemma {:induction false} VolumesListed(groups: seq<Group>, d: Device)
    ensures d in VolumeDevices(groups) <==> exists g <- groups, v | v in g.volumes :: d == VolumeDevice(g.name, v)
  {
    if groups != [] {
      assert groups == [groups[0]] + groups[1..];
      VolumesListed(groups[1..], d);
      var g := groups[0];
      var own := seq(|g.volumes|, i requires 0 <= i < |g.volumes| => VolumeDevice(g.name, g.volumes[i]));
      assert d in own <==> exists v <- g.volumes :: d == VolumeDevice(g.name, v) by {
        if v :| v in g.volumes && d == VolumeDevice(g.name, v) {
          var i :| 0 <= i < |g.volumes| && g.volumes[i] == v;
          assert own[i] == d;
        }
      }
    }
  }

  lemma RaidAt(s: Storage, k: nat)
    requires WellNamed(s) && k < |s.raids|
    ensures IndexOf(RaidNames(s.raids), s.raids[k].name) == k
  {
    assert RaidNames(s.raids)[k] == s.raids[k].name;
  }

  /** The partitions of a RAID are looked up and deleted on the RAID itself. */
  lemma RaidPartitions(s: Storage, k: nat, part: nat)
    requires WellNamed(s) && k < |s.raids|
    ensures var r := s.raids[k];
      && PartitionsOf(s, RaidDevice(r.name)) == Some(r.parts)
      && DeletePartition(s, RaidDevice(r.name), part)
         == if part !in r.parts then Step(LookupFailed, s)
            else if Used(s, OnRaidPartition(r.name, part)) then Step(InUse, s)
            else Step(Done, s.(raids := s.raids[k := Raid(r.name, r.on, Without(r.parts, part))]))
  {
    RaidAt(s, k);
  }

  /** Listing order is part of the condition: the same two groups, one on a volume of the other. */
  lemma OrderDecides()
    ensures var under := Group("a", {OnDisk("sda")}, ["v"]);
      var over := Group("b", {OnVolume("a", "v")}, []);
      Layered(Storage([over, under], [], [])) && !Layered(Storage([under, over], [], []))
  {
    var under, over := Group("a", {OnDisk("sda")}, ["v"]), Group("b", {OnVolume("a", "v")}, []);
    assert "v" in under.volumes;
    var blocked := Storage([under, over], [], []);
    assert blocked.groups[0] == under && "v" in blocked.groups[0].volumes;
    assert OnVolume("a", "v") in blocked.groups[1].on;
    assert VolumeInTheWay(blocked, 0);
    forall i | 0 <= i < 2 ensures !VolumeInTheWay(Storage([over, under], [], []), i) {}
  }

  // ----- the code as written -----

  class StorageServer {
    var s: Storage

    constructor (s: Storage)
      ensures this.s == s
    {
      this.s := s;
    }

    method DeleteVolumeGroup(name: string) returns (answer: Answer)
      modifies this
      ensures Step(answer, s) == DropGroup(old(s), name)
    {
      var i := IndexOf(GroupNames(s.groups), name);
      if i == |s.groups| { return LookupFailed; }
      var volumes := s.groups[i].volumes;
      var k := 0;
      while k < |volumes|
        invariant k <= |volumes|
        invariant DropVolumes(old(s), name, volumes) == DropVolumes(s, name, volumes[k..])
      {
        var step := DeleteVolume(s, name, volumes[k]);
        s := step.s;
        if step.answer != Done { return step.answer; }
        assert volumes[k..][1..] == volumes[k + 1..];
        k := k + 1;
      }
      var step := DeleteEmptyGroup(s, name);
      s, answer := step.s, step.answer;
    }

    method DropStorageSchema() returns (answer: Answer)
      modifies this
      ensures Step(answer, s) == Teardown(old(s))
    {
      answer := DeleteVolumeGroups(GroupNames(s.groups));
      if answer != Done { return; }
      answer := DeleteRaids(RaidNames(s.raids));
      if answer != Done { return; }
      answer := DeleteAllPartitions(Devices(s));
    }

    method DeleteVolumeGroups(vgs: seq<string>) returns (answer: Answer)
      modifies this
      ensures Step(answer, s) == DropGroups(old(s), vgs)
    {
      var k := 0;
      while k < |vgs|
        invariant k <= |vgs|
        invariant DropGroups(old(s), vgs) == DropGroups(s, vgs[k..])
      {
        answer := DeleteVolumeGroup(vgs[k]);
        if answer != Done { return; }
        assert vgs[k..][1..] == vgs[k + 1..];
        k := k + 1;
      }
      answer := Done;
    }

    method DeleteRaids(raids: seq<string>) returns (answer: Answer)
      modifies this
      ensures Step(answer, s) == DropRaids(old(s), raids)
    {
      var k := 0;
      while k < |raids|
        invariant k <= |raids|
        invariant DropRaids(old(s), raids) == DropRaids(s, raids[k..])
      {
        var step := DeleteRaid(s, raids[k]);
        s := step.s;
        if step.answer != Done { return step.answer; }
        assert raids[k..][1..] == raids[k + 1..];
        k := k + 1;
      }
      answer := Done;
    }

    method DeleteAllPartitions(blocks: seq<Device>) returns (answer: Answer)
      modifies this
      ensures Step(answer, s) == DropAllPartitions(old(s), blocks)
    {
      var k := 0;
      while k < |blocks|
        invariant k <= |blocks|
        invariant DropAllPartitions(old(s), blocks) == DropAllPartitions(s, blocks[k..])
      {
        var partitions := PartitionsOf(s, blocks[k]);
        if partitions.None? { return LookupFailed; }
        answer := DeletePartitions(blocks[k], partitions.value);
        if answer != Done { return; }
        assert blocks[k..][1..] == blocks[k + 1..];
        k := k + 1;
      }
      answer := Done;
    }

    method DeletePartitions(block: Device, partitions: seq<nat>) returns (answer: Answer)
      modifies this
      ensures Step(answer, s) == DropPartitions(old(s), block, partitions)
    {
      var k := 0;
      while k < |partitions|
        invariant k <= |partitions|
        invariant DropPartitions(old(s), block, partitions) == DropPartitions(s, block, partitions[k..])
      {
        var step := DeletePartition(s, block, partitions[k]);
        s := step.s;
        if step.answer != Done { return step.answer; }
        assert partitions[k..][1..] == partitions[k + 1..];
        k := k + 1;
      }
      answer := Done;
    }
  }
}
