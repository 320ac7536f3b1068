/** `Machine().process()` of mcp/salt-formulas/salt-formula-maas/_modules/maas.py.

    The server is read once; every configured name is then created, updated, or deleted and
    created again from that one snapshot. Any remote call can be refused, or take effect and
    lose its reply. */
module MachineSync {
  import opened Common

  type Mac = string

  datatype MacArg = One(mac: Mac) | Many(list: seq<Mac>)

  /** `interface` is the pre-migration form of a machine description, with its own MAC. */
  datatype MachineConfig = MachineConfig(
    power: Option<seq<(string, string)>>,
    architecture: Option<string>,
    pxeMac: Option<MacArg>,
    interface: Option<Option<MacArg>>)

  datatype Payload = Payload(hostname: string, macs: set<Mac>, settings: map<string, string>)

  datatype Machine = Machine(sid: nat, hostname: string, macs: set<Mac>, settings: map<string, string>)

  datatype Call = Delete(sid: nat) | Put(sid: nat, data: Payload) | Post(data: Payload)

  datatype Server = Server(machines: seq<Machine>, nextSid: nat, calls: seq<Call>)

  type Faults = nat -> Fault

  // ----- MAC addresses -----

  function Lowered(macs: set<Mac>): set<Mac> {
    set m | m in macs :: Lower(m)
  }

  predicate ShareMac(a: set<Mac>, b: set<Mac>) {
    Lowered(a) * Lowered(b) != {}
  }

  // ----- fill_data -----

  function RenamedKey(k: string): string {
    "power_parameters_" +
    if k == "power_password" then "power_pass"
    else if k == "power_nova_id" then "nova_id"
    else if k == "power_os_tenantname" then "os_tenantname"
    else if k == "power_os_username" then "os_username"
    else if k == "power_os_password" then "os_password"
    else if k == "power_os_authurl" then "os_authurl"
    else k
  }

  function Lookup(items: seq<(string, string)>, key: string, default: string): string {
    if items == [] then default
    else if items[0].0 == key then items[0].1
    else Lookup(items[1..], key, default)
  }

  function PowerSettings(base: map<string, string>, items: seq<(string, string)>): map<string, string> {
    if items == [] then base
    else
      var n := |items| - 1;
      var m := PowerSettings(base, items[..n]);
      if items[n].0 == "power_type" then m else m[RenamedKey(items[n].0) := items[n].1]
  }

  function PxeMac(cfg: MachineConfig): Option<MacArg> {
    if cfg.interface.Some? then cfg.interface.value else cfg.pxeMac
  }

  /** Python truth of the MAC argument. */
  predicate Defined(arg: Option<MacArg>) {
    match arg
    case None => false
    case Some(One(m)) => m != ""
    case Some(Many(l)) => l != []
  }

  function MacsOf(arg: MacArg): set<Mac> {
    match arg
    case One(m) => {m}
    case Many(l) => set m | m in l
  }

  function BaseSettings(cfg: MachineConfig, power: seq<(string, string)>): map<string, string> {
    map["architecture" := if cfg.architecture.Some? then cfg.architecture.value else "amd64/generic",
        "power_type" := Lookup(power, "power_type", "manual")]
  }

  /** `None` stands for the exceptions raised on a missing power section or PXE MAC. */
  function FillData(name: string, cfg: MachineConfig): Option<Payload> {
    if cfg.power.None? || !Defined(PxeMac(cfg)) then None
    else
      var power := cfg.power.value;
      Some(Payload(name, MacsOf(PxeMac(cfg).value), PowerSettings(BaseSettings(cfg, power), power)))
  }

  /** Deprecated and current spellings share a target; the one iterated last decides. */
  lemma {:induction false} LastSpellingWins(base: map<string, string>, items: seq<(string, string)>, i: nat)
    requires i < |items| && items[i].0 != "power_type"
    requires forall j :: i < j < |items| ==> RenamedKey(items[j].0) != RenamedKey(items[i].0)
    ensures RenamedKey(items[i].0) in PowerSettings(base, items)
    ensures PowerSettings(base, items)[RenamedKey(items[i].0)] == items[i].1
  {
    var n := |items| - 1;
    if i < n {
      LastSpellingWins(base, items[..n], i);
    }
  }

  lemma {:induction false} OtherSettingsKept(base: map<string, string>, items: seq<(string, string)>, key: string)
    requires key in base && |key| > 6 && key[6] != 'p'
    ensures key in PowerSettings(base, items) && PowerSettings(base, items)[key] == base[key]
  {
    if items != [] {
      var n := |items| - 1;
      OtherSettingsKept(base, items[..n], key);
      assert RenamedKey(items[n].0)[6] == "power_parameters_"[6] == 'p';
    }
  }

  /** No power parameter can displace the architecture or the power type of the machine. */
  lemma BaseSettingsSurvive(name: string, cfg: MachineConfig)
    requires FillData(name, cfg).Some?
    ensures var data := FillData(name, cfg).value;
      && data.hostname == name
      && "architecture" in data.settings
      && data.settings["architecture"] == (if cfg.architecture.Some? then cfg.architecture.value else "amd64/generic")
      && "power_type" in data.settings
      && data.settings["power_type"] == Lookup(cfg.power.value, "power_type", "manual")
  {
    var base := BaseSettings(cfg, cfg.power.value);
    OtherSettingsKept(base, cfg.power.value, "architecture");
    OtherSettingsKept(base, cfg.power.value, "power_type");
  }

  /** MACs are shared when they are equal up to the case of letters. */
  lemma ShareMacExactly(a: set<Mac>, b: set<Mac>)
    ensures ShareMac(a, b) <==> exists m <- a, n <- b :: SameUpToCase(m, n)
  {
    if ShareMac(a, b) {
      var l :| l in Lowered(a) * Lowered(b);
      var m :| m in a && Lower(m) == l;
      var n :| n in b && Lower(n) == l;
      CaseExactly(m, n);
    }
    if m, n :| m in a && n in b && SameUpToCase(m, n) {
      CaseExactly(m, n);
      assert Lower(m) in Lowered(a) * Lowered(b);
    }
  }

  /** The old form of a description decides on the MACs even if it has none. */
  ghost predicate Configures(cfg: MachineConfig, arg: Option<MacArg>) {
    cfg.interface == Some(arg) || (cfg.interface == None && cfg.pxeMac == arg)
  }

  /** Which MACs a description gives to a machine: one text, or the members of a list; without a
      power section or any MAC there is no data. */
  lemma MacsAsConfigured(name: string, cfg: MachineConfig)
    ensures Configures(cfg, None) || cfg.power == None ==> FillData(name, cfg) == None
    ensures forall mac :: Configures(cfg, Some(One(mac))) && cfg.power.Some? ==>
              if mac == "" then FillData(name, cfg) == None
              else FillData(name, cfg).Some? && FillData(name, cfg).value.macs == {mac}
    ensures forall list :: Configures(cfg, Some(Many(list))) && cfg.power.Some? ==>
              if list == [] then FillData(name, cfg) == None
              else FillData(name, cfg).Some? && forall m :: m in FillData(name, cfg).value.macs <==> m in list
  {
  }

  /** Deprecated power parameters and what they are called now. */
  ghost const DEPRECATED := map[
    "power_password" := "power_pass", "power_nova_id" := "nova_id", "power_os_tenantname" := "os_tenantname",
    "power_os_username" := "os_username", "power_os_password" := "os_password", "power_os_authurl" := "os_authurl"]

  /** What a power parameter is called in a request. */
  ghost predicate Denotes(key: string, target: string) {
    target == "power_parameters_" + if key in DEPRECATED then DEPRECATED[key] else key
  }

  lemma RenamedDenotes(key: string)
    ensures Denotes(key, RenamedKey(key))
  {
  }

  /** Some power parameter is sent under this key. */
  ghost predicate Sends(items: seq<(string, string)>, target: string) {
    exists i :: 0 <= i < |items| && items[i].0 != "power_type" && Denotes(items[i].0, target)
  }

  lemma SendsLast(items: seq<(string, string)>, target: string)
    requires items != []
    ensures var n := |items| - 1;
      Sends(items, target) <==> Sends(items[..n], target) || (items[n].0 != "power_type" && Denotes(items[n].0, target))
  {
    var n := |items| - 1;
    if i :| 0 <= i < n && items[..n][i].0 != "power_type" && Denotes(items[..n][i].0, target) {
      assert items[i].0 != "power_type" && Denotes(items[i].0, target);
    }
    if i :| 0 <= i < n && items[i].0 != "power_type" && Denotes(items[i].0, target) {
      assert items[..n][i].0 != "power_type" && Denotes(items[..n][i].0, target);
    }
  }

  lemma {:induction false} SettingsKeys(base: map<string, string>, items: seq<(string, string)>, target: string)
    ensures target in PowerSettings(base, items) <==> target in base || Sends(items, target)
  {
    if items != [] {
      SettingsKeys(base, items[..|items| - 1], target);
      SendsLast(items, target);
      RenamedDenotes(items[|items| - 1].0);
    }
  }

  ghost predicate DistinctKeys(items: seq<(string, string)>) {
    forall i, j :: 0 <= i < j < |items| ==> items[i].0 != items[j].0
  }

  lemma {:induction false} LookupAt(items: seq<(string, string)>, key: string, default: string)
    requires DistinctKeys(items)
    ensures forall v :: (key, v) in items ==> Lookup(items, key, default) == v
    ensures (forall v :: (key, v) !in items) ==> Lookup(items, key, default) == default
  {
    if items != [] {
      assert items == [items[0]] + items[1..];
      LookupAt(items[1..], key, default);
      if items[0].0 == key { assert items[0] == (key, items[0].1); }
    }
  }

  ghost function Setting(settings: map<string, string>, key: string): Option<string> {
    if key in settings then Some(settings[key]) else None
  }

  /** The i-th power parameter is the last one sent under this key. */
  ghost predicate LastFor(items: seq<(string, string)>, i: nat, key: string) {
    && i < |items| && items[i].0 != "power_type" && Denotes(items[i].0, key)
    && forall j | i < j < |items| :: !Denotes(items[j].0, key)
  }

  /** The settings a machine is sent: architecture, power type, and one for every power parameter
      under its current name, with the value given last under any of its spellings. */
  lemma SettingsAsConfigured(name: string, cfg: MachineConfig)
    requires FillData(name, cfg).Some? && DistinctKeys(cfg.power.value)
    ensures var items, settings := cfg.power.value, FillData(name, cfg).value.settings;
      && (forall key :: key in settings <==> key == "architecture" || key == "power_type" || Sends(items, key))
      && (forall i: nat, key | LastFor(items, i, key) :: Setting(settings, key) == Some(items[i].1))
      && Setting(settings, "architecture")
         == Some(if cfg.architecture.Some? then cfg.architecture.value else "amd64/generic")
      && (forall v :: ("power_type", v) in items ==> Setting(settings, "power_type") == Some(v))
      && ((forall v :: ("power_type", v) !in items) ==> Setting(settings, "power_type") == Some("manual"))
  {
    var items := cfg.power.value;
    var base := BaseSettings(cfg, items);
    BaseSettingsSurvive(name, cfg);
    LookupAt(items, "power_type", "manual");
    forall key ensures key in PowerSettings(base, items) <==> key in base || Sends(items, key) {
      SettingsKeys(base, items, key);
    }
    forall i: nat, key | LastFor(items, i, key) ensures Setting(PowerSettings(base, items), key) == Some(items[i].1) {
      LastForDecides(base, items, i, key);
    }
  }

  lemma LastForDecides(base: map<string, string>, items: seq<(string, string)>, i: nat, key: string)
    requires LastFor(items, i, key)
    ensures Setting(PowerSettings(base, items), key) == Some(items[i].1)
  {
    forall j | i <= j < |items| ensures Denotes(items[j].0, RenamedKey(items[j].0)) { RenamedDenotes(items[j].0); }
    LastSpellingWins(base, items, i);
  }

  // ----- the server -----

  function SidIndex(ms: seq<Machine>, sid: nat): (i: nat)
    ensures i <= |ms|
    ensures i < |ms| ==> ms[i].sid == sid
    ensures forall j :: 0 <= j < i ==> ms[j].sid != sid
  {
    if ms == [] || ms[0].sid == sid then 0 else 1 + SidIndex(ms[1..], sid)
  }

  predicate Accepts(ms: seq<Machine>, c: Call) {
    match c
    case Delete(sid) => SidIndex(ms, sid) < |ms|
    case Put(sid, d) => SidIndex(ms, sid) < |ms| && forall x <- ms :: x.hostname == d.hostname ==> x.sid == sid
    case Post(d) => forall x <- ms :: x.hostname != d.hostname && !ShareMac(x.macs, d.macs)
  }

  /** A PUT keeps the interfaces, hence the MACs, of the machine. */
  function Effect(s: Server, c: Call): Server
    requires Accepts(s.machines, c)
  {
    var ms := s.machines;
    match c
    case Delete(sid) =>
      var i := SidIndex(ms, sid);
      s.(machines := ms[..i] + ms[i + 1..])
    case Put(sid, d) =>
      var i := SidIndex(ms, sid);
      s.(machines := ms[..i] + [ms[i].(hostname := d.hostname, settings := ms[i].settings + d.settings)] + ms[i + 1..])
    case Post(d) =>
      s.(machines := ms + [Machine(s.nextSid, d.hostname, d.macs, d.settings)], nextSid := s.nextSid + 1)
  }

  function Serve(s: Server, c: Call, faults: Faults): Server {
    var logged := s.(calls := s.calls + [c]);
    if faults(|s.calls|) != Refused && Accepts(s.machines, c) then Effect(logged, c) else logged
  }

  /** The caller sees no error. */
  predicate Replies(s: Server, c: Call, faults: Faults) {
    faults(|s.calls|) == Served && Accepts(s.machines, c)
  }

  // ----- one configured name -----

  datatype Verdict = Created | Updated | Failed

  datatype Report = Report(success: seq<string>, updated: seq<string>, errors: set<string>) {
    function Add(name: string, v: Verdict): Report {
      match v
      case Created => this.(success := success + [name])
      case Updated => this.(updated := updated + [name])
      case Failed => this.(errors := errors + {name})
    }
  }

  const EMPTY_REPORT := Report([], [], {})

  function Named(ms: seq<Machine>, name: string): seq<Machine> {
    if ms == [] then []
    else (if ms[0].hostname == name then [ms[0]] else []) + Named(ms[1..], name)
  }

  /** What the dictionary of all elements holds under a name: the last one listed. */
  function Known(ms: seq<Machine>, name: string): Option<Machine> {
    var l := Named(ms, name);
    if l == [] then None else Some(l[|l| - 1])
  }

  function Sent(s: Server, c: Call, faults: Faults, v: Verdict): (Server, Verdict) {
    (Serve(s, c, faults), if Replies(s, c, faults) then v else Failed)
  }

  function ProcessOne(s: Server, known: Option<Machine>, name: string, cfg: MachineConfig, faults: Faults)
    : (Server, Verdict)
  {
    var filled := FillData(name, cfg);
    if filled.None? then (s, Failed)
    else
      var data := filled.value;
      if known.None? then Sent(s, Post(data), faults, Created)
      else
        var seen := known.value;
        var shared := Lowered(data.macs) * Lowered(seen.macs);
        if shared != {} then Sent(s, Put(seen.sid, data.(macs := shared)), faults, Updated)
        else if Replies(s, Delete(seen.sid), faults) then
          Sent(Serve(s, Delete(seen.sid), faults), Post(data), faults, Updated)
        else (Serve(s, Delete(seen.sid), faults), Failed)
  }

  type Items = seq<(string, MachineConfig)>

  /** The whole run over one snapshot, in the iteration order of the configuration. */
  function Run(s: Server, snapshot: seq<Machine>, items: Items, faults: Faults): (Server, Report) {
    if items == [] then (s, EMPTY_REPORT)
    else
      var (name, cfg) := items[|items| - 1];
      var (s1, r1) := Run(s, snapshot, items[..|items| - 1], faults);
      var (s2, v) := ProcessOne(s1, Known(snapshot, name), name, cfg, faults);
      (s2, r1.Add(name, v))
  }

  /** The reference: the server is read again before every name. */
  function RunRereading(s: Server, items: Items, faults: Faults): (Server, Report) {
    if items == [] then (s, EMPTY_REPORT)
    else
      var (name, cfg) := items[|items| - 1];
      var (s1, r1) := RunRereading(s, items[..|items| - 1], faults);
      var (s2, v) := ProcessOne(s1, Known(s1.machines, name), name, cfg, faults);
      (s2, r1.Add(name, v))
  }

  // ----- the requests of one name -----

  /** The dictionary of all elements holds the last machine listed under a name. */
  lemma {:induction false} KnownIsLast(ms: seq<Machine>, name: string)
    ensures Known(ms, name) == None <==> forall x <- ms :: x.hostname != name
    ensures forall x :: Known(ms, name) == Some(x) ==> exists i :: LastNamed(ms, i, name, x)
  {
    if ms != [] {
      assert ms == [ms[0]] + ms[1..];
      KnownIsLast(ms[1..], name);
      var known, later := Known(ms, name), Known(ms[1..], name);
      if later.Some? {
        assert known == later;
        var i :| LastNamed(ms[1..], i, name, later.value);
        assert LastNamed(ms, i + 1, name, later.value);
      } else if ms[0].hostname == name {
        assert Named(ms[1..], name) == [] && known == Some(ms[0]);
        assert LastNamed(ms, 0, name, ms[0]);
      }
    }
  }

  ghost predicate LastNamed(ms: seq<Machine>, i: int, name: string, x: Machine) {
    && 0 <= i < |ms| && ms[i] == x && x.hostname == name
    && forall j | i < j < |ms| :: ms[j].hostname != name
  }

  /** Some configured MAC and some MAC of the machine are equal up to case. */
  ghost predicate Overlaps(configured: set<Mac>, present: set<Mac>) {
    exists m <- configured, n <- present :: SameUpToCase(m, n)
  }

  /** The request that updates a machine: addressed to it, with the configured name and settings
      and, in small letters, the MACs both sides have. */
  ghost predicate Updates(c: Call, x: Machine, data: Payload) {
    && c.Put? && c.sid == x.sid && c.data.hostname == data.hostname && c.data.settings == data.settings
    && forall m :: m in c.data.macs
         <==> && NoCapitals(m)
              && (exists a <- data.macs :: SameUpToCase(a, m)) && (exists b <- x.macs :: SameUpToCase(b, m))
  }

  lemma CommonMacs(a: set<Mac>, b: set<Mac>, m: Mac)
    ensures m in Lowered(a) * Lowered(b)
            <==> && NoCapitals(m)
                 && (exists x <- a :: SameUpToCase(x, m)) && (exists y <- b :: SameUpToCase(y, m))
  {
    forall x ensures m == Lower(x) <==> SameUpToCase(x, m) && NoCapitals(m) { LowerIs(x, m); }
  }

  /** What is requested for a name with usable data, and what is reported. An unknown machine is
      created. A known one is updated if a MAC overlaps, and else deleted and, if the server has
      confirmed that, created. An error of the last request makes the name fail. */
  lemma RequestsForName(s: Server, known: Option<Machine>, name: string, cfg: MachineConfig, faults: Faults)
    requires FillData(name, cfg).Some?
    ensures var data, n := FillData(name, cfg).value, |s.calls|;
      var (s', v) := ProcessOne(s, known, name, cfg, faults);
      && s.calls <= s'.calls && |s'.calls| > n && data.hostname == name
      && (known.None? ==> |s'.calls| == n + 1 && s'.calls[n] == Post(data))
      && (known.Some? && Overlaps(data.macs, known.value.macs) ==>
            |s'.calls| == n + 1 && Updates(s'.calls[n], known.value, data))
      && (known.Some? && !Overlaps(data.macs, known.value.macs) ==>
            && s'.calls[n] == Delete(known.value.sid)
            && if faults(n) == Served && (exists x <- s.machines :: x.sid == known.value.sid)
               then |s'.calls| == n + 2 && s'.calls[n + 1] == Post(data) else |s'.calls| == n + 1)
      && (v != Failed ==>
            v == (if known.None? then Created else Updated) && forall k | n <= k < |s'.calls| :: faults(k) == Served)
  {
    var data := FillData(name, cfg).value;
    if known.Some? {
      ShareMacExactly(data.macs, known.value.macs);
      forall m ensures m in Lowered(data.macs) * Lowered(known.value.macs)
                       <==> && NoCapitals(m)
                            && (exists a <- data.macs :: SameUpToCase(a, m))
                            && (exists b <- known.value.macs :: SameUpToCase(b, m))
      {
        CommonMacs(data.macs, known.value.macs, m);
      }
    }
  }

  /** When every request is served and the server has nothing against the last one, the name does
      not fail. */
  lemma AcceptedNameSucceeds(s: Server, known: Option<Machine>, name: string, cfg: MachineConfig, faults: Faults)
    requires FillData(name, cfg).Some? && forall k | |s.calls| <= k < |s.calls| + 2 :: faults(k) == Served
    requires var data := FillData(name, cfg).value;
      match known
      case None => Accepts(s.machines, Post(data))
      case Some(x) =>
        if Overlaps(data.macs, x.macs) then forall y <- s.machines :: y.hostname == name <==> y.sid == x.sid
        else Accepts(s.machines, Delete(x.sid)) && Accepts(Serve(s, Delete(x.sid), faults).machines, Post(data))
    requires known.Some? ==> known.value in s.machines
    ensures ProcessOne(s, known, name, cfg, faults).1 == if known.None? then Created else Updated
  {
    if known.Some? { ShareMacExactly(FillData(name, cfg).value.macs, known.value.macs); }
  }

  // ----- frames -----

  ghost predicate OwnSids(ms: seq<Machine>, next: nat) {
    && (forall i, j :: 0 <= i < j < |ms| ==> ms[i].sid != ms[j].sid)
    && (forall x <- ms :: x.sid < next)
  }

  ghost predicate WellFormed(s: Server) {
    OwnSids(s.machines, s.nextSid)
  }

  ghost predicate DistinctNames(items: Items) {
    forall i, j :: 0 <= i < j < |items| ==> items[i].0 != items[j].0
  }

  ghost predicate Mentions(items: Items, name: string) {
    exists i :: 0 <= i < |items| && items[i].0 == name
  }

  lemma {:induction false} NamedConcat(a: seq<Machine>, b: seq<Machine>, name: string)
    ensures Named(a + b, name) == Named(a, name) + Named(b, name)
  {
    if a == [] {
      assert a + b == b;
    } else {
      NamedConcat(a[1..], b, name);
      assert (a + b)[1..] == a[1..] + b;
      Associative(if a[0].hostname == name then [a[0]] else [], Named(a[1..], name), Named(b, name));
    }
  }

  lemma {:induction false} NamedMembers(ms: seq<Machine>, name: string)
    ensures forall x :: x in Named(ms, name) <==> x in ms && x.hostname == name
  {
    if ms != [] {
      NamedMembers(ms[1..], name);
      assert ms == [ms[0]] + ms[1..];
    }
  }

  lemma NamedAround(ms: seq<Machine>, i: nat, name: string)
    requires i < |ms|
    ensures Named(ms, name) == Named(ms[..i], name) + Named([ms[i]], name) + Named(ms[i + 1..], name)
  {
    assert ms == (ms[..i] + [ms[i]]) + ms[i + 1..];
    NamedConcat(ms[..i] + [ms[i]], ms[i + 1..], name);
    NamedConcat(ms[..i], [ms[i]], name);
  }

  /** The call concerns the machine of this name only. */
  ghost predicate Concerns(ms: seq<Machine>, c: Call, name: string) {
    match c
    case Delete(sid) => forall x <- ms :: x.sid == sid ==> x.hostname == name
    case Put(sid, d) => d.hostname == name && forall x <- ms :: x.sid == sid ==> x.hostname == name
    case Post(d) => d.hostname == name
  }

  lemma EffectOnNames(s: Server, c: Call, name: string, other: string)
    requires Accepts(s.machines, c) && Concerns(s.machines, c, name)
    ensures other != name ==> Named(Effect(s, c).machines, other) == Named(s.machines, other)
    ensures c.Delete? ==> |Named(Effect(s, c).machines, name)| == |Named(s.machines, name)| - 1
    ensures c.Put? ==> |Named(Effect(s, c).machines, name)| == |Named(s.machines, name)|
    ensures c.Post? ==> Named(Effect(s, c).machines, name)
                        == Named(s.machines, name) + [Machine(s.nextSid, name, c.data.macs, c.data.settings)]
  {
    var ms := s.machines;
    if c.Post? {
      var x := Machine(s.nextSid, c.data.hostname, c.data.macs, c.data.settings);
      NamedConcat(ms, [x], other);
      NamedConcat(ms, [x], name);
    } else {
      var i := SidIndex(ms, c.sid);
      if c.Delete? {
        NamedRemoved(ms, i, other);
        NamedRemoved(ms, i, name);
      } else {
        var x := ms[i].(hostname := c.data.hostname, settings := ms[i].settings + c.data.settings);
        NamedReplaced(ms, i, x, other);
        NamedReplaced(ms, i, x, name);
      }
    }
  }

  lemma NamedRemoved(ms: seq<Machine>, i: nat, name: string)
    requires i < |ms|
    ensures ms[i].hostname != name ==> Named(ms[..i] + ms[i + 1..], name) == Named(ms, name)
    ensures ms[i].hostname == name ==> |Named(ms[..i] + ms[i + 1..], name)| == |Named(ms, name)| - 1
  {
    var a, z := ms[..i], ms[i + 1..];
    NamedAround(ms, i, name);
    NamedConcat(a, z, name);
    NamedOne(ms[i], name);
    AroundOne(Named(a, name), Named([ms[i]], name), Named(z, name));
  }

  lemma AroundOne(a: seq<Machine>, x: seq<Machine>, z: seq<Machine>)
    ensures |a + x + z| == |a + z| + |x|
    ensures x == [] ==> a + x + z == a + z
  {
  }

  lemma NamedOne(x: Machine, name: string)
    ensures Named([x], name) == if x.hostname == name then [x] else []
  {
    assert [x][1..] == [];
  }

  lemma NamedReplaced(ms: seq<Machine>, i: nat, x: Machine, name: string)
    requires i < |ms| && x.hostname == ms[i].hostname
    ensures var ms' := ms[..i] + [x] + ms[i + 1..];
      && |Named(ms', name)| == |Named(ms, name)|
      && (x.hostname != name ==> Named(ms', name) == Named(ms, name))
  {
    var ms' := ms[..i] + [x] + ms[i + 1..];
    NamedAround(ms, i, name);
    assert ms'[..i] == ms[..i] && ms'[i] == x && ms'[i + 1..] == ms[i + 1..];
    NamedAround(ms', i, name);
  }

  lemma ServeFrame(s: Server, c: Call, faults: Faults, name: string)
    requires WellFormed(s) && Concerns(s.machines, c, name)
    ensures WellFormed(Serve(s, c, faults))
    ensures forall other :: other != name ==> Named(Serve(s, c, faults).machines, other) == Named(s.machines, other)
  {
    var logged := s.(calls := s.calls + [c]);
    if faults(|s.calls|) != Refused && Accepts(s.machines, c) {
      EffectWellFormed(logged, c);
      forall other | other != name
        ensures Named(Effect(logged, c).machines, other) == Named(s.machines, other)
      {
        EffectOnNames(logged, c, name, other);
      }
    }
  }

  lemma EffectWellFormed(s: Server, c: Call)
    requires WellFormed(s) && Accepts(s.machines, c)
    ensures WellFormed(Effect(s, c))
  {
    var ms := s.machines;
    match c
    case Delete(sid) =>
      var i := SidIndex(ms, sid);
      KeepsSids(ms, i, [], s.nextSid);
      assert ms[..i] + [] + ms[i + 1..] == ms[..i] + ms[i + 1..];
    case Put(sid, d) =>
      var i := SidIndex(ms, sid);
      KeepsSids(ms, i, [ms[i].(hostname := d.hostname, settings := ms[i].settings + d.settings)], s.nextSid);
    case Post(d) =>
      NewSid(ms, Machine(s.nextSid, d.hostname, d.macs, d.settings), s.nextSid);
  }

  lemma NewSid(ms: seq<Machine>, x: Machine, next: nat)
    requires OwnSids(ms, next) && x.sid == next
    ensures OwnSids(ms + [x], next + 1)
  {
  }

  lemma KeepsSids(ms: seq<Machine>, i: nat, x: seq<Machine>, next: nat)
    requires OwnSids(ms, next) && i < |ms|
    requires x == [] || (|x| == 1 && x[0].sid == ms[i].sid)
    ensures OwnSids(ms[..i] + x + ms[i + 1..], next)
  {
    var ms' := ms[..i] + x + ms[i + 1..];
    forall j | 0 <= j < |ms'|
      ensures j < i ==> ms'[j] == ms[j]
      ensures i + |x| <= j ==> ms'[j] == ms[j + 1 - |x|]
    {}
    if x != [] { assert ms'[i] == x[0]; }
    forall j, k | 0 <= j < k < |ms'| ensures ms'[j].sid != ms'[k].sid {}
  }

  lemma KnownConcerns(s: Server, name: string)
    requires WellFormed(s)
    ensures Known(s.machines, name).Some? ==>
              forall x <- s.machines :: x.sid == Known(s.machines, name).value.sid ==>
                x == Known(s.machines, name).value
    ensures Known(s.machines, name).Some? ==>
              Known(s.machines, name).value in s.machines && Known(s.machines, name).value.hostname == name
  {
    NamedMembers(s.machines, name);
    var l := Named(s.machines, name);
    if l != [] {
      assert l[|l| - 1] in l;
    }
  }

  lemma {:induction false} OneFrame(s: Server, name: string, cfg: MachineConfig, faults: Faults)
    requires WellFormed(s)
    ensures var s' := ProcessOne(s, Known(s.machines, name), name, cfg, faults).0;
      && WellFormed(s')
      && forall other :: other != name ==> Named(s'.machines, other) == Named(s.machines, other)
  {
    KnownConcerns(s, name);
    var known := Known(s.machines, name);
    if FillData(name, cfg).Some? {
      var data := FillData(name, cfg).value;
      if known.None? {
        ServeFrame(s, Post(data), faults, name);
      } else {
        var seen := known.value;
        var shared := Lowered(data.macs) * Lowered(seen.macs);
        if shared != {} {
          ServeFrame(s, Put(seen.sid, data.(macs := shared)), faults, name);
        } else {
          ServeFrame(s, Delete(seen.sid), faults, name);
          ServeFrame(Serve(s, Delete(seen.sid), faults), Post(data), faults, name);
        }
      }
    }
  }

  /** The single snapshot is as good as reading the server again before every name, for every
      pattern of refused calls and lost replies; names outside the run are not touched. */
  lemma {:induction false} SnapshotSuffices(s: Server, items: Items, faults: Faults)
    requires WellFormed(s) && DistinctNames(items)
    ensures Run(s, s.machines, items, faults) == RunRereading(s, items, faults)
    ensures WellFormed(Run(s, s.machines, items, faults).0)
    ensures forall other :: !Mentions(items, other) ==>
              Named(Run(s, s.machines, items, faults).0.machines, other) == Named(s.machines, other)
  {
    if items != [] {
      var before := items[..|items| - 1];
      var (name, cfg) := items[|items| - 1];
      SnapshotSuffices(s, before, faults);
      var s1 := Run(s, s.machines, before, faults).0;
      assert !Mentions(before, name);
      assert Named(s1.machines, name) == Named(s.machines, name);
      OneFrame(s1, name, cfg, faults);
      var step := ProcessOne(s1, Known(s1.machines, name), name, cfg, faults);
      assert Run(s, s.machines, items, faults).0 == step.0 == RunRereading(s, items, faults).0;
      forall other { MentionsLast(items, other); }
    }
  }

  lemma MentionsLast(items: Items, name: string)
    requires items != []
    ensures Mentions(items, name) <==> Mentions(items[..|items| - 1], name) || items[|items| - 1].0 == name
  {
    var before := items[..|items| - 1];
    if Mentions(before, name) {
      var i :| 0 <= i < |before| && before[i].0 == name;
      assert items[i].0 == name;
    }
    if Mentions(items, name) && items[|items| - 1].0 != name {
      var i :| 0 <= i < |items| && items[i].0 == name;
      assert before[i].0 == name;
    }
  }

  /** Naming a machine twice in one request is where the single snapshot goes wrong: the second
      pass does not see what the first one created. */
  lemma RepeatedNameDiverges(s: Server, name: string, cfg: MachineConfig, faults: Faults)
    requires Clean(faults) && FillData(name, cfg).Some? && Named(s.machines, name) == []
    requires Accepts(s.machines, Post(FillData(name, cfg).value))
    ensures var twice := [(name, cfg), (name, cfg)];
      && name in Run(s, s.machines, twice, faults).1.errors
      && RunRereading(s, twice, faults).1 == Report([name], [name], {})
  {
    SecondPass(s, name, cfg, faults);
    RunOfTwo(s, s.machines, (name, cfg), faults);
  }

  lemma SecondPass(s: Server, name: string, cfg: MachineConfig, faults: Faults)
    requires Clean(faults) && FillData(name, cfg).Some? && Named(s.machines, name) == []
    requires Accepts(s.machines, Post(FillData(name, cfg).value))
    ensures Known(s.machines, name) == None
    ensures var (s1, v1) := ProcessOne(s, None, name, cfg, faults);
      && v1 == Created
      && ProcessOne(s1, None, name, cfg, faults).1 == Failed
      && ProcessOne(s1, Known(s1.machines, name), name, cfg, faults).1 == Updated
  {
    var data := FillData(name, cfg).value;
    var s1 := Serve(s, Post(data), faults);
    assert ProcessOne(s, None, name, cfg, faults) == (s1, Created);
    EffectOnNames(s.(calls := s.calls + [Post(data)]), Post(data), name, name);
    PassOver(s1, name, cfg, Machine(s.nextSid, name, data.macs, data.settings), faults);
  }

  lemma PassOver(s: Server, name: string, cfg: MachineConfig, x: Machine, faults: Faults)
    requires Clean(faults) && FillData(name, cfg).Some? && Named(s.machines, name) == [x]
    requires x.hostname == name && x.macs == FillData(name, cfg).value.macs
    ensures ProcessOne(s, None, name, cfg, faults).1 == Failed
    ensures ProcessOne(s, Known(s.machines, name), name, cfg, faults).1 == Updated
  {
    var data := FillData(name, cfg).value;
    NamedMembers(s.machines, name);
    assert x in Named(s.machines, name);
    assert !Accepts(s.machines, Post(data));
    ConfiguredMacs(name, cfg);
    OwnPutAccepted(s, x, data.(macs := Lowered(data.macs) * Lowered(x.macs)));
  }

  lemma RunOfTwo(s: Server, snapshot: seq<Machine>, item: (string, MachineConfig), faults: Faults)
    ensures var (name, cfg) := item;
      && var (s1, v1) := ProcessOne(s, Known(snapshot, name), name, cfg, faults);
      && var (s2, v2) := ProcessOne(s1, Known(snapshot, name), name, cfg, faults);
      && Run(s, snapshot, [item, item], faults) == (s2, EMPTY_REPORT.Add(name, v1).Add(name, v2))
    ensures var (name, cfg) := item;
      && var (s1, v1) := ProcessOne(s, Known(s.machines, name), name, cfg, faults);
      && var (s2, v2) := ProcessOne(s1, Known(s1.machines, name), name, cfg, faults);
      && RunRereading(s, [item, item], faults) == (s2, EMPTY_REPORT.Add(name, v1).Add(name, v2))
  {
    assert [item, item][..1] == [item] && [item][..0] == [];
    assert Run(s, snapshot, [], faults) == (s, EMPTY_REPORT);
    assert RunRereading(s, [], faults) == (s, EMPTY_REPORT);
    var (name, cfg) := item;
    var (s1, v1) := ProcessOne(s, Known(snapshot, name), name, cfg, faults);
    assert Run(s, snapshot, [item], faults) == (s1, EMPTY_REPORT.Add(name, v1));
  }

  // ----- what a run leaves behind -----

  ghost predicate Clean(faults: Faults) {
    forall n: nat :: faults(n) == Served
  }

  ghost predicate UniqueHosts(ms: seq<Machine>) {
    forall name :: |Named(ms, name)| <= 1
  }

  function ConfigMacs(item: (string, MachineConfig)): set<Mac> {
    if FillData(item.0, item.1).None? then {} else FillData(item.0, item.1).value.macs
  }

  /** Host names are unique and no configured MAC belongs to a machine of another name. */
  ghost predicate Compatible(ms: seq<Machine>, items: Items) {
    && UniqueHosts(ms)
    && forall x <- ms, k | 0 <= k < |items| && x.hostname != items[k].0 :: !ShareMac(x.macs, ConfigMacs(items[k]))
  }

  ghost predicate DisjointConfigs(items: Items) {
    forall i, j | 0 <= i < |items| && 0 <= j < |items| && items[i].0 != items[j].0 ::
      !ShareMac(ConfigMacs(items[i]), ConfigMacs(items[j]))
  }

  lemma ConfiguredMacs(name: string, cfg: MachineConfig)
    requires FillData(name, cfg).Some?
    ensures ShareMac(FillData(name, cfg).value.macs, FillData(name, cfg).value.macs)
  {
    var macs := FillData(name, cfg).value.macs;
    var arg := PxeMac(cfg).value;
    var m := if arg.One? then arg.mac else arg.list[0];
    assert m in macs;
    assert Lower(m) in Lowered(macs) * Lowered(macs);
  }

  lemma OwnPutAccepted(s: Server, x: Machine, data: Payload)
    requires Named(s.machines, data.hostname) == [x]
    ensures Accepts(s.machines, Put(x.sid, data))
  {
    NamedMembers(s.machines, data.hostname);
    assert x in Named(s.machines, data.hostname);
    assert SidIndex(s.machines, x.sid) < |s.machines|;
    forall y <- s.machines | y.hostname == data.hostname ensures y.sid == x.sid {
      assert y in Named(s.machines, data.hostname);
    }
  }

  lemma {:induction false} NoneNamed(ms: seq<Machine>, name: string)
    requires forall x <- ms :: x.hostname != name
    ensures Named(ms, name) == []
  {
    if ms != [] {
      assert ms == [ms[0]] + ms[1..];
      NoneNamed(ms[1..], name);
    }
  }

  lemma ServeKeepsCompatible(s: Server, c: Call, faults: Faults, items: Items, k: nat)
    requires WellFormed(s) && Compatible(s.machines, items) && DisjointConfigs(items) && k < |items|
    requires Concerns(s.machines, c, items[k].0)
    requires c.Post? ==> FillData(items[k].0, items[k].1) == Some(c.data)
    ensures Compatible(Serve(s, c, faults).machines, items)
  {
    var logged := s.(calls := s.calls + [c]);
    var ms, ms' := s.machines, Serve(s, c, faults).machines;
    if Serve(s, c, faults) != logged {
      var name := items[k].0;
      NamedMembers(ms, name);
      forall other ensures |Named(ms', other)| <= 1 {
        EffectOnNames(logged, c, name, other);
        assert |Named(ms, other)| <= 1;
        if c.Post? { NoneNamed(ms, name); }
      }
      forall y <- ms', j | 0 <= j < |items| && y.hostname != items[j].0
        ensures !ShareMac(y.macs, ConfigMacs(items[j]))
      {
        if c.Put? && y !in ms {
          var x := ms[SidIndex(ms, c.sid)];
          assert y.macs == x.macs && y.hostname == x.hostname && x in ms;
        } else if y !in ms {
          assert y.macs == ConfigMacs(items[k]) && y.hostname == items[k].0;
        }
      }
    }
  }

  lemma {:induction false} OneKeepsCompatible(s: Server, items: Items, k: nat, faults: Faults)
    requires WellFormed(s) && Compatible(s.machines, items) && DisjointConfigs(items) && k < |items|
    ensures var (name, cfg) := items[k];
      Compatible(ProcessOne(s, Known(s.machines, name), name, cfg, faults).0.machines, items)
  {
    var (name, cfg) := items[k];
    KnownConcerns(s, name);
    var known := Known(s.machines, name);
    if FillData(name, cfg).Some? {
      var data := FillData(name, cfg).value;
      if known.None? {
        ServeKeepsCompatible(s, Post(data), faults, items, k);
      } else {
        var seen := known.value;
        var shared := Lowered(data.macs) * Lowered(seen.macs);
        if shared != {} {
          ServeKeepsCompatible(s, Put(seen.sid, data.(macs := shared)), faults, items, k);
        } else {
          ServeKeepsCompatible(s, Delete(seen.sid), faults, items, k);
          ServeFrame(s, Delete(seen.sid), faults, name);
          ServeKeepsCompatible(Serve(s, Delete(seen.sid), faults), Post(data), faults, items, k);
        }
      }
    }
  }

  /** Whatever calls fail, a run never makes two machines share a name nor gives a configured
      MAC to another name, so the situation a later run needs is kept. */
  lemma {:induction false} RunKeepsCompatible(s: Server, items: Items, n: nat, faults: Faults)
    requires WellFormed(s) && DistinctNames(items) && n <= |items|
    requires Compatible(s.machines, items) && DisjointConfigs(items)
    ensures Compatible(Run(s, s.machines, items[..n], faults).0.machines, items)
    ensures WellFormed(Run(s, s.machines, items[..n], faults).0)
  {
    SnapshotSuffices(s, items[..n], faults);
    if n > 0 {
      assert items[..n][..n - 1] == items[..n - 1];
      RunKeepsCompatible(s, items, n - 1, faults);
      SnapshotSuffices(s, items[..n - 1], faults);
      assert !Mentions(items[..n - 1], items[n - 1].0);
      OneKeepsCompatible(Run(s, s.machines, items[..n - 1], faults).0, items, n - 1, faults);
    }
  }

  /** One machine carries the name, it shares a MAC with its configuration, and it is the old
      machine with its settings updated exactly when the old machine already shared one. */
  ghost predicate Settled(data: Payload, before: seq<Machine>, after: seq<Machine>) {
    && |after| == 1
    && after[0].hostname == data.hostname
    && ShareMac(data.macs, after[0].macs)
    && if before != [] && ShareMac(data.macs, before[0].macs)
       then after[0] == before[0].(settings := before[0].settings + data.settings)
       else after[0].macs == data.macs && after[0].settings == data.settings
  }

  lemma PutEffect(s: Server, x: Machine, d: Payload, faults: Faults)
    requires WellFormed(s) && Named(s.machines, d.hostname) == [x] && Clean(faults)
    ensures Replies(s, Put(x.sid, d), faults)
    ensures Named(Serve(s, Put(x.sid, d), faults).machines, d.hostname) == [x.(settings := x.settings + d.settings)]
  {
    OwnPutAccepted(s, x, d);
    var ms, i, name := s.machines, SidIndex(s.machines, x.sid), d.hostname;
    NamedMembers(ms, name);
    assert x in Named(ms, name);
    assert ms[i] == x;
    OnlyOneReplaced(ms, i, x.(hostname := name, settings := x.settings + d.settings), name);
  }

  lemma OnlyOneReplaced(ms: seq<Machine>, i: nat, x: Machine, name: string)
    requires i < |ms| && Named(ms, name) == [ms[i]] && ms[i].hostname == name == x.hostname
    ensures Named(ms[..i] + [x] + ms[i + 1..], name) == [x]
  {
    var a, z := ms[..i], ms[i + 1..];
    NamedAround(ms, i, name);
    NamedOne(ms[i], name);
    AroundOne(Named(a, name), [ms[i]], Named(z, name));
    assert Named(a, name) == [] && Named(z, name) == [];
    NamedConcat(a + [x], z, name);
    NamedConcat(a, [x], name);
    NamedOne(x, name);
  }

  lemma PostEffect(s: Server, items: Items, k: nat, data: Payload, faults: Faults)
    requires Compatible(s.machines, items) && Clean(faults) && k < |items|
    requires FillData(items[k].0, items[k].1) == Some(data) && Named(s.machines, data.hostname) == []
    ensures Replies(s, Post(data), faults)
    ensures Named(Serve(s, Post(data), faults).machines, data.hostname)
              == [Machine(s.nextSid, data.hostname, data.macs, data.settings)]
  {
    NamedMembers(s.machines, data.hostname);
    forall x <- s.machines ensures x.hostname != data.hostname && !ShareMac(x.macs, data.macs) {
      assert x.hostname == data.hostname ==> x in Named(s.machines, data.hostname);
      assert !ShareMac(x.macs, ConfigMacs(items[k]));
    }
    EffectOnNames(s.(calls := s.calls + [Post(data)]), Post(data), data.hostname, data.hostname);
  }

  lemma {:induction false} OneSettles(s: Server, items: Items, k: nat, faults: Faults)
    requires WellFormed(s) && Compatible(s.machines, items) && DisjointConfigs(items) && Clean(faults)
    requires k < |items| && FillData(items[k].0, items[k].1).Some?
    ensures var (name, cfg) := items[k];
      var known := Known(s.machines, name);
      var (s', v) := ProcessOne(s, known, name, cfg, faults);
      && Settled(FillData(name, cfg).value, Named(s.machines, name), Named(s'.machines, name))
      && v == (if known.None? then Created else Updated)
      && (if known.Some? && ShareMac(FillData(name, cfg).value.macs, known.value.macs)
          then Named(s'.machines, name)[0].sid == known.value.sid
          else Named(s'.machines, name)[0].sid == s.nextSid)
  {
    var (name, cfg) := items[k];
    var data := FillData(name, cfg).value;
    var l := Named(s.machines, name);
    assert |l| <= 1;
    ConfiguredMacs(name, cfg);
    if l == [] {
      PostEffect(s, items, k, data, faults);
    } else {
      var seen := l[0];
      KnownConcerns(s, name);
      var shared := Lowered(data.macs) * Lowered(seen.macs);
      if shared != {} {
        PutEffect(s, seen, data.(macs := shared), faults);
      } else {
        var drop := Delete(seen.sid);
        assert Replies(s, drop, faults);
        EffectOnNames(s.(calls := s.calls + [drop]), drop, name, name);
        ServeKeepsCompatible(s, drop, faults, items, k);
        PostEffect(Serve(s, drop, faults), items, k, data, faults);
      }
    }
  }

  /** The configured names with (without) a machine on the server, in configuration order. */
  function NamesKnown(ms: seq<Machine>, items: Items, known: bool): seq<string> {
    if items == [] then []
    else
      var name := items[|items| - 1].0;
      NamesKnown(ms, items[..|items| - 1], known) + if Known(ms, name).Some? == known then [name] else []
  }

  ghost predicate AllFilled(items: Items) {
    forall k | 0 <= k < |items| :: FillData(items[k].0, items[k].1).Some?
  }

  lemma {:induction false} CleanRunReport(s: Server, items: Items, n: nat, faults: Faults)
    requires WellFormed(s) && DistinctNames(items) && AllFilled(items) && n <= |items|
    requires Compatible(s.machines, items) && DisjointConfigs(items) && Clean(faults)
    ensures Run(s, s.machines, items[..n], faults).1 == ExpectedReport(s.machines, items[..n])
  {
    if n > 0 {
      CleanRunReport(s, items, n - 1, faults);
      LastReport(s, items, n, faults);
      ReportNext(s.machines, items, n);
    }
  }

  lemma LastReport(s: Server, items: Items, n: nat, faults: Faults)
    requires WellFormed(s) && DistinctNames(items) && AllFilled(items) && 0 < n <= |items|
    requires Compatible(s.machines, items) && DisjointConfigs(items) && Clean(faults)
    ensures Run(s, s.machines, items[..n], faults).1
            == Run(s, s.machines, items[..n - 1], faults).1.Add(
                 items[n - 1].0, if Known(s.machines, items[n - 1].0).None? then Created else Updated)
  {
    LastOfRun(s, items, n, faults);
  }

  function ExpectedReport(ms: seq<Machine>, items: Items): Report {
    Report(NamesKnown(ms, items, false), NamesKnown(ms, items, true), {})
  }

  lemma ReportNext(ms: seq<Machine>, items: Items, n: nat)
    requires 0 < n <= |items|
    ensures ExpectedReport(ms, items[..n])
            == ExpectedReport(ms, items[..n - 1]).Add(
                 items[n - 1].0, if Known(ms, items[n - 1].0).None? then Created else Updated)
  {
    NamesKnownNext(ms, items, n, false);
    NamesKnownNext(ms, items, n, true);
  }

  lemma NamesKnownNext(ms: seq<Machine>, items: Items, n: nat, known: bool)
    requires 0 < n <= |items|
    ensures NamesKnown(ms, items[..n], known) == NamesKnown(ms, items[..n - 1], known)
              + if Known(ms, items[n - 1].0).Some? == known then [items[n - 1].0] else []
  {
    assert items[..n][..n - 1] == items[..n - 1] && items[..n][n - 1] == items[n - 1];
  }

  lemma LastOfRun(s: Server, items: Items, n: nat, faults: Faults)
    requires WellFormed(s) && DistinctNames(items) && AllFilled(items) && 0 < n <= |items|
    requires Compatible(s.machines, items) && DisjointConfigs(items) && Clean(faults)
    ensures var (s1, report1) := Run(s, s.machines, items[..n - 1], faults);
      var (s', report) := Run(s, s.machines, items[..n], faults);
      && LastSettled(items, n, s.machines, s1.machines, s'.machines)
      && report == report1.Add(items[n - 1].0, if Known(s.machines, items[n - 1].0).None? then Created else Updated)
  {
    var (name, cfg) := items[n - 1];
    RunLast(s, items, n, faults);
    BeforeLast(s, items, n, faults);
    var s1 := Run(s, s.machines, items[..n - 1], faults).0;
    OneSettles(s1, items, n - 1, faults);
    OneFrame(s1, name, cfg, faults);
  }

  lemma RunLast(s: Server, items: Items, n: nat, faults: Faults)
    requires 0 < n <= |items|
    ensures var (name, cfg) := items[n - 1];
      var (s1, report1) := Run(s, s.machines, items[..n - 1], faults);
      var (s2, v) := ProcessOne(s1, Known(s.machines, name), name, cfg, faults);
      Run(s, s.machines, items[..n], faults) == (s2, report1.Add(name, v))
  {
    assert items[..n][..n - 1] == items[..n - 1] && items[..n][n - 1] == items[n - 1];
  }

  lemma BeforeLast(s: Server, items: Items, n: nat, faults: Faults)
    requires WellFormed(s) && DistinctNames(items) && 0 < n <= |items|
    requires Compatible(s.machines, items) && DisjointConfigs(items)
    ensures var s1 := Run(s, s.machines, items[..n - 1], faults).0;
      && WellFormed(s1) && Compatible(s1.machines, items)
      && Named(s1.machines, items[n - 1].0) == Named(s.machines, items[n - 1].0)
  {
    RunKeepsCompatible(s, items, n - 1, faults);
    SnapshotSuffices(s, items[..n - 1], faults);
    assert !Mentions(items[..n - 1], items[n - 1].0);
  }

  /** The first `n` configured names are settled in `after`, which followed `before`. */
  ghost predicate AllSettled(items: Items, n: nat, before: seq<Machine>, after: seq<Machine>)
    requires AllFilled(items) && n <= |items|
  {
    forall k | 0 <= k < n ::
      Settled(FillData(items[k].0, items[k].1).value, Named(before, items[k].0), Named(after, items[k].0))
  }

  /** A run without failures settles every configured name. */
  lemma {:induction false} CleanRunSettles(s: Server, items: Items, n: nat, faults: Faults)
    requires WellFormed(s) && DistinctNames(items) && AllFilled(items) && n <= |items|
    requires Compatible(s.machines, items) && DisjointConfigs(items) && Clean(faults)
    ensures AllSettled(items, n, s.machines, Run(s, s.machines, items[..n], faults).0.machines)
  {
    if n > 0 {
      CleanRunSettles(s, items, n - 1, faults);
      LastOfRun(s, items, n, faults);
      SettledStay(items, n, s.machines, Run(s, s.machines, items[..n - 1], faults).0.machines,
                  Run(s, s.machines, items[..n], faults).0.machines);
    }
  }

  /** The last of the first `n` names is settled; the others are as they were. */
  ghost predicate LastSettled(items: Items, n: nat, ms: seq<Machine>, before: seq<Machine>, after: seq<Machine>)
    requires AllFilled(items) && 0 < n <= |items|
  {
    var (name, cfg) := items[n - 1];
    && Settled(FillData(name, cfg).value, Named(ms, name), Named(after, name))
    && forall other :: other != name ==> Named(after, other) == Named(before, other)
  }

  lemma SettledStay(items: Items, n: nat, ms: seq<Machine>, before: seq<Machine>, after: seq<Machine>)
    requires DistinctNames(items) && AllFilled(items) && 0 < n <= |items|
    requires AllSettled(items, n - 1, ms, before) && LastSettled(items, n, ms, before, after)
    ensures AllSettled(items, n, ms, after)
  {
  }

  /** Whatever was lost in a run full of failures, one run without failures afterwards settles
      every configured name. */
  lemma RecoversFromFailures(s: Server, items: Items, faults: Faults, clean: Faults)
    requires WellFormed(s) && DistinctNames(items) && AllFilled(items) && Clean(clean)
    requires Compatible(s.machines, items) && DisjointConfigs(items)
    ensures var s1 := Run(s, s.machines, items, faults).0;
      AllSettled(items, |items|, s1.machines, Run(s1, s1.machines, items, clean).0.machines)
  {
    assert items[..|items|] == items;
    RunKeepsCompatible(s, items, |items|, faults);
    CleanRunSettles(Run(s, s.machines, items, faults).0, items, |items|, clean);
  }

  /** With every name already on a machine that shares a MAC, a run is one PUT per name. */
  lemma {:induction false} KnownNamesArePut(s: Server, items: Items, n: nat, faults: Faults)
    requires WellFormed(s) && DistinctNames(items) && AllFilled(items) && n <= |items|
    requires forall k | 0 <= k < |items| ::
               && Known(s.machines, items[k].0).Some?
               && ShareMac(FillData(items[k].0, items[k].1).value.macs, Known(s.machines, items[k].0).value.macs)
    ensures var calls := Run(s, s.machines, items[..n], faults).0.calls;
      && |calls| == |s.calls| + n
      && s.calls <= calls
      && forall i | |s.calls| <= i < |calls| :: calls[i].Put?
  {
    if n > 0 {
      KnownNamesArePut(s, items, n - 1, faults);
      RunLast(s, items, n, faults);
      KnownNameIsPut(Run(s, s.machines, items[..n - 1], faults).0, s.machines, items[n - 1].0, items[n - 1].1, faults);
    }
  }

  lemma KnownNameIsPut(s1: Server, snapshot: seq<Machine>, name: string, cfg: MachineConfig, faults: Faults)
    requires FillData(name, cfg).Some? && Known(snapshot, name).Some?
    requires ShareMac(FillData(name, cfg).value.macs, Known(snapshot, name).value.macs)
    ensures var calls := ProcessOne(s1, Known(snapshot, name), name, cfg, faults).0.calls;
      |calls| == |s1.calls| + 1 && s1.calls <= calls && calls[|s1.calls|].Put?
  {
  }

  /** A second run only updates, even if its own calls fail. */
  lemma SecondRunOnlyPuts(s: Server, items: Items, clean: Faults, faults: Faults)
    requires WellFormed(s) && DistinctNames(items) && AllFilled(items) && Clean(clean)
    requires Compatible(s.machines, items) && DisjointConfigs(items)
    ensures var s1 := Run(s, s.machines, items, clean).0;
      var calls := Run(s1, s1.machines, items, faults).0.calls;
      && |calls| == |s1.calls| + |items|
      && s1.calls <= calls
      && forall i | |s1.calls| <= i < |calls| :: calls[i].Put?
  {
    assert items[..|items|] == items;
    CleanRunSettles(s, items, |items|, clean);
    SnapshotSuffices(s, items, clean);
    var s1 := Run(s, s.machines, items, clean).0;
    forall k | 0 <= k < |items|
      ensures Known(s1.machines, items[k].0).Some?
      ensures ShareMac(FillData(items[k].0, items[k].1).value.macs, Known(s1.machines, items[k].0).value.macs)
    {
      SettledIsKnown(FillData(items[k].0, items[k].1).value, Named(s.machines, items[k].0), s1.machines);
    }
    KnownNamesArePut(s1, items, |items|, faults);
  }

  lemma SettledIsKnown(data: Payload, before: seq<Machine>, ms: seq<Machine>)
    requires Settled(data, before, Named(ms, data.hostname))
    ensures Known(ms, data.hostname).Some? && ShareMac(data.macs, Known(ms, data.hostname).value.macs)
  {
  }

  // ----- the code as written -----

  class MaasServer {
    var state: Server
    const faults: Faults

    constructor (machines: seq<Machine>, nextSid: nat, faults: Faults)
      ensures state == Server(machines, nextSid, []) && this.faults == faults
    {
      state, this.faults := Server(machines, nextSid, []), faults;
    }

    method Request(c: Call) returns (ok: bool)
      modifies this
      ensures state == Serve(old(state), c, faults)
      ensures ok == Replies(old(state), c, faults)
    {
      ok := Replies(state, c, faults);
      state := Serve(state, c, faults);
    }
  }

  /** The requested names up to the first one missing from the configuration. */
  function Present(items: seq<(string, Option<MachineConfig>)>): Items {
    if items == [] || items[0].1.None? then []
    else [(items[0].0, items[0].1.value)] + Present(items[1..])
  }

  function Entry(all: map<string, Machine>, name: string): Option<Machine> {
    if name in all then Some(all[name]) else None
  }

  /** Exactly the names before the first one without configuration are processed. */
  lemma {:induction false} PresentExactly(items: seq<(string, Option<MachineConfig>)>)
    ensures var n := |Present(items)|;
      && n <= |items|
      && (forall k | 0 <= k < n :: items[k] == (Present(items)[k].0, Some(Present(items)[k].1)))
      && (n < |items| ==> items[n].1 == None)
  {
    if items != [] && items[0].1.Some? {
      PresentExactly(items[1..]);
      var rest := Present(items[1..]);
      forall k | 0 <= k < |Present(items)| ensures items[k] == (Present(items)[k].0, Some(Present(items)[k].1)) {
        if k > 0 { assert items[k] == items[1..][k - 1]; }
      }
    }
  }

  lemma {:induction false} PresentExtended(items: seq<(string, Option<MachineConfig>)>, i: nat)
    requires i < |items| && |Present(items[..i])| == i && items[i].1.Some?
    ensures Present(items[..i + 1]) == Present(items[..i]) + [(items[i].0, items[i].1.value)]
  {
    assert items[..i + 1][0] == items[0];
    if i > 0 {
      assert items[..i][1..] == items[1..][..i - 1] && items[..i + 1][1..] == items[1..][..i];
      PresentExtended(items[1..], i - 1);
    } else {
      assert items[..1][1..] == [];
    }
  }

  lemma {:induction false} PresentStops(items: seq<(string, Option<MachineConfig>)>, i: nat)
    requires i <= |items| && |Present(items[..i])| == i
    requires i < |items| ==> items[i].1.None?
    ensures Present(items) == Present(items[..i])
  {
    if i > 0 {
      assert items[..i][1..] == items[1..][..i - 1];
      PresentStops(items[1..], i - 1);
    }
  }

  lemma RunExtended(s: Server, snapshot: seq<Machine>, items: Items, name: string, cfg: MachineConfig, faults: Faults)
    ensures var (s1, r1) := Run(s, snapshot, items, faults);
      var (s2, v) := ProcessOne(s1, Known(snapshot, name), name, cfg, faults);
      Run(s, snapshot, items + [(name, cfg)], faults) == (s2, r1.Add(name, v))
  {
    var longer := items + [(name, cfg)];
    assert longer[..|longer| - 1] == items;
  }

  class MachineObject {
    const server: MaasServer
    var update: bool

    constructor (server: MaasServer)
      ensures this.server == server && !update
    {
      this.server, update := server, false;
    }

    method ComputeData(name: string, cfg: MachineConfig) returns (data: Option<Payload>)
      ensures data == FillData(name, cfg)
    {
      if cfg.power.None? { return None; }
      var power := cfg.power.value;
      var pxeMac := cfg.pxeMac;
      if cfg.interface.Some? {
        pxeMac := cfg.interface.value;
      }
      if !Defined(pxeMac) { return None; }
      var settings := BaseSettings(cfg, power);
      for i := 0 to |power|
        invariant settings == PowerSettings(BaseSettings(cfg, power), power[..i])
      {
        assert power[..i + 1][..i] == power[..i];
        if power[i].0 != "power_type" {
          settings := settings[RenamedKey(power[i].0) := power[i].1];
        }
      }
      assert power[..|power|] == power;
      data := Some(Payload(name, MacsOf(pxeMac.value), settings));
    }

    /** Decides between updating and re-creating; `sid` is the update key put into the data. */
    method Update(payload: Payload, seen: Machine) returns (ok: bool, data: Payload, sid: Option<nat>)
      requires update
      modifies server, `update
      ensures var shared := Lowered(payload.macs) * Lowered(seen.macs);
        if shared != {} then
          ok && update && data == payload.(macs := shared) && sid == Some(seen.sid) && server.state == old(server.state)
        else
          && server.state == Serve(old(server.state), Delete(seen.sid), server.faults)
          && ok == Replies(old(server.state), Delete(seen.sid), server.faults)
          && !update && data == payload && sid == None
    {
      data, sid, ok := payload, None, true;
      var intersect := Lowered(payload.macs) * Lowered(seen.macs);
      if intersect == {} {
        update := false;
        ok := server.Request(Delete(seen.sid));
      } else {
        data := data.(macs := intersect);
        sid := Some(seen.sid);
      }
    }

    method Send(data: Payload, sid: Option<nat>) returns (ok: bool)
      requires update ==> sid.Some?
      modifies server
      ensures var c := if update then Put(sid.value, data) else Post(data);
        && server.state == Serve(old(server.state), c, server.faults)
        && ok == Replies(old(server.state), c, server.faults)
    {
      if update {
        ok := server.Request(Put(sid.value, data));
      } else {
        ok := server.Request(Post(data));
      }
    }

    method ProcessSingle(name: string, cfg: MachineConfig, allElements: map<string, Machine>) returns (v: Verdict)
      modifies server, `update
      ensures (server.state, v)
              == ProcessOne(old(server.state), Entry(allElements, name), name, cfg, server.faults)
    {
      update := false;
      var filled := ComputeData(name, cfg);
      if filled.None? { return Failed; }
      if name in allElements {
        update := true;
        var ok, data, sid := Update(filled.value, allElements[name]);
        if ok {
          ok := Send(data, sid);
        }
        v := if ok then Updated else Failed;
      } else {
        var ok := Send(filled.value, None);
        v := if ok then Created else Failed;
      }
    }

    /** The state left behind and the report do not depend on `update` as found, nor on what
        earlier names made of it. `None` is the lookup error for a name without configuration,
        which stops the run after the names before it. */
    method Process(items: seq<(string, Option<MachineConfig>)>) returns (report: Option<Report>)
      modifies server, `update
      ensures server.state == Run(old(server.state), old(server.state.machines), Present(items), server.faults).0
      ensures report == if |Present(items)| < |items| then None
                        else Some(Run(old(server.state), old(server.state.machines), Present(items), server.faults).1)
    {
      var allElements := Gather(server.state.machines);
      var ret := EMPTY_REPORT;
      var i := 0;
      while i < |items| && items[i].1.Some?
        invariant i <= |items| && |Present(items[..i])| == i
        invariant (server.state, ret)
                  == Run(old(server.state), old(server.state.machines), Present(items[..i]), server.faults)
      {
        PresentExtended(items, i);
        RunExtended(old(server.state), old(server.state.machines), Present(items[..i]),
                    items[i].0, items[i].1.value, server.faults);
        var v := ProcessSingle(items[i].0, items[i].1.value, allElements);
        ret := ret.Add(items[i].0, v);
        i := i + 1;
      }
      PresentStops(items, i);
      report := if i < |items| then None else Some(ret);
    }

    method Gather(elements: seq<Machine>) returns (all: map<string, Machine>)
      ensures forall name :: Entry(all, name) == Known(elements, name)
    {
      all := map[];
      for i := 0 to |elements|
        invariant forall name :: Entry(all, name) == Known(elements[..i], name)
      {
        assert elements[..i + 1] == elements[..i] + [elements[i]];
        ghost var before := all;
        all := all[elements[i].hostname := elements[i]];
        forall name ensures Entry(all, name) == Known(elements[..i + 1], name) {
          assert Entry(before, name) == Known(elements[..i], name);
          NamedConcat(elements[..i], [elements[i]], name);
        }
      }
      assert elements[..|elements|] == elements;
    }
  }
}
