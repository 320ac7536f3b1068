/** `MachinesStatus.wait_for_machine_status` of mcp/salt-formulas/salt-formula-maas/_modules/maas.py:
    poll the server until every monitored machine was seen in a required status, recovering
    failed machines on the way, each a limited number of times.

    The server is free to report anything at every poll, and any call to it may fail. */
module WaitForStatus {
  import opened Common
  import opened BashText

  datatype Status =
    | New | Commissioning | FailedCommissioning | Missing | Ready | Reserved | Allocated | Deploying
    | Deployed | Retired | Broken | FailedDeployment | Releasing | ReleasingFailed | DiskErasing
    | FailedDiskErasing | RescueMode | EnteringRescueMode | FailedToEnterRescueMode
    | ExitingRescueMode | FailedToExitRescueMode | Testing | FailedTesting

  function StatusName(s: Status): string {
    match s
    case New => "New"
    case Commissioning => "Commissioning"
    case FailedCommissioning => "Failed commissioning"
    case Missing => "Missing"
    case Ready => "Ready"
    case Reserved => "Reserved"
    case Allocated => "Allocated"
    case Deploying => "Deploying"
    case Deployed => "Deployed"
    case Retired => "Retired"
    case Broken => "Broken"
    case FailedDeployment => "Failed deployment"
    case Releasing => "Releasing"
    case ReleasingFailed => "Releasing failed"
    case DiskErasing => "Disk erasing"
    case FailedDiskErasing => "Failed disk erasing"
    case RescueMode => "Rescue mode"
    case EnteringRescueMode => "Entering rescue mode"
    case FailedToEnterRescueMode => "Failed to enter rescue mode"
    case ExitingRescueMode => "Exiting rescue mode"
    case FailedToExitRescueMode => "Failed to exit rescue mode"
    case Testing => "Testing"
    case FailedTesting => "Failed testing"
  }

  /** The statuses a request text such as `Ready|Deployed` names, in any letter case. */
  function RequestedStatuses(text: string): set<Status> {
    set s: Status | Lower(StatusName(s)) in Split(Lower(text), '|')
  }

  /** The names that the server's numbers are translated to. */
  lemma NamesAsTranslated()
    ensures StatusName(New) == "New"
    ensures StatusName(Commissioning) == "Commissioning"
    ensures StatusName(FailedCommissioning) == "Failed commissioning"
    ensures StatusName(Missing) == "Missing"
    ensures StatusName(Ready) == "Ready"
    ensures StatusName(Reserved) == "Reserved"
    ensures StatusName(Allocated) == "Allocated"
    ensures StatusName(Deploying) == "Deploying"
    ensures StatusName(Deployed) == "Deployed"
    ensures StatusName(Retired) == "Retired"
    ensures StatusName(Broken) == "Broken"
    ensures StatusName(FailedDeployment) == "Failed deployment"
    ensures StatusName(Releasing) == "Releasing"
    ensures StatusName(ReleasingFailed) == "Releasing failed"
    ensures StatusName(DiskErasing) == "Disk erasing"
    ensures StatusName(FailedDiskErasing) == "Failed disk erasing"
    ensures StatusName(RescueMode) == "Rescue mode"
    ensures StatusName(EnteringRescueMode) == "Entering rescue mode"
    ensures StatusName(FailedToEnterRescueMode) == "Failed to enter rescue mode"
    ensures StatusName(ExitingRescueMode) == "Exiting rescue mode"
    ensures StatusName(FailedToExitRescueMode) == "Failed to exit rescue mode"
    ensures StatusName(Testing) == "Testing"
    ensures StatusName(FailedTesting) == "Failed testing"
  {
  }

  /** A request names statuses between bars, in any letter case. */
  lemma RequestedExactly(words: seq<string>, s: Status)
    requires words != [] && Free(words, '|')
    ensures s in RequestedStatuses(Join(words, '|')) <==> exists w <- words :: SameUpToCase(w, StatusName(s))
  {
    var lowered := Lowers(words);
    LowerJoin(words, '|');
    LowersFree(words);
    SplitJoin(lowered, '|');
    assert RequestedStatuses(Join(words, '|')) == set t: Status | Lower(StatusName(t)) in lowered;
    LoweredMember(words, StatusName(s));
  }

  lemma LowersFree(words: seq<string>)
    requires Free(words, '|')
    ensures Free(Lowers(words), '|')
  {
    forall i, k | 0 <= i < |words| && 0 <= k < |words[i]| ensures Lowers(words)[i][k] != '|' {
      assert words[i] in words && words[i][k] in words[i];
    }
  }

  lemma LoweredMember(words: seq<string>, name: string)
    ensures Lower(name) in Lowers(words) <==> exists w <- words :: SameUpToCase(w, name)
  {
    forall i | 0 <= i < |words| ensures Lower(name) == Lowers(words)[i] <==> SameUpToCase(words[i], name) {
      CaseExactly(words[i], name);
    }
    if Lower(name) in Lowers(words) {
      var i :| 0 <= i < |words| && Lowers(words)[i] == Lower(name);
      assert words[i] in words;
    }
    if w :| w in words && SameUpToCase(w, name) {
      var i :| 0 <= i < |words| && words[i] == w;
      assert Lowers(words)[i] in Lowers(words);
    }
  }

  datatype Seen = Seen(hostname: string, sid: nat, status: Status)

  /** `PollError` also covers a status code outside the table of names. */
  datatype Poll = Listing(machines: seq<Seen>) | PollError

  datatype Call =
    | DeleteMachine(sid: nat) | ProcessMachines
    | OverrideFailedTesting(sid: nat)
    | MarkBroken(sid: nat) | Sleep | MarkFixed(sid: nat) | CommissionFio(sid: nat) | DeployMachines

  /** The k-th listing, whether the call with index n succeeds, and the time since the start as
      read at the end of the r-th round. */
  datatype World = World(poll: nat -> Poll, succeeds: nat -> bool, elapsed: nat -> int)

  datatype Params = Params(
    timeout: int, pollTime: int, required: set<Status>, toDiscover: seq<string>, ignored: seq<string>, attempts: int)

  /** One recovery of a machine: the report it answers, the number of the listing that report is
      in, and whether the machine was recovered before. */
  datatype Recovery = Recovery(host: string, sid: nat, status: Status, poll: nat, again: bool)

  /** `recovered` and `pending` are history: the completed recoveries and the interrupted one. */
  datatype State = State(
    total: seq<string>, failedAttempts: map<string, int>, polls: nat, calls: seq<Call>,
    recovered: seq<Recovery>, pending: Option<Recovery>, raised: bool)

  predicate Required(p: Params, status: Status) {
    status in p.required
  }

  predicate Recoverable(status: Status) {
    || status.FailedCommissioning? || status.New? || status.FailedTesting?
    || status.FailedDeployment? || status.Allocated?
  }

  /** The calls that make up one recovery, in order. */
  function Plan(r: Recovery): seq<Call> {
    match r.status
    case FailedCommissioning | New => [DeleteMachine(r.sid), ProcessMachines]
    case FailedTesting => [OverrideFailedTesting(r.sid)]
    case FailedDeployment | Allocated =>
      [MarkBroken(r.sid), Sleep, MarkFixed(r.sid)] + (if r.again then [CommissionFio(r.sid)] else []) + [DeployMachines]
    case _ => []
  }

  function Kept(names: seq<string>, ignored: seq<string>): seq<string> {
    if names == [] then []
    else (if names[0] in ignored then [] else [names[0]]) + Kept(names[1..], ignored)
  }

  function Initial(p: Params): State {
    State(Kept(p.toDiscover, p.ignored), map[], 0, [], [], None, false)
  }

  function Attempted(st: State, m: string): int {
    if m in st.failedAttempts then st.failedAttempts[m] else 0
  }

  // ----- steps -----

  function Issue(st: State, c: Call, w: World): State
    requires !st.raised
  {
    st.(calls := st.calls + [c], raised := c != Sleep && !w.succeeds(|st.calls|))
  }

  function Perform(st: State, plan: seq<Call>, w: World): State
    decreases |plan|
  {
    if plan == [] || st.raised then st else Perform(Issue(st, plan[0], w), plan[1..], w)
  }

  function Recover(st: State, r: Recovery, w: World): State {
    var st' := Perform(st.(pending := Some(r)), Plan(r), w);
    if st'.raised then st'
    else st'.(failedAttempts := st'.failedAttempts[r.host := Attempted(st', r.host) + 1],
              recovered := st'.recovered + [r], pending := None)
  }

  predicate AttemptsLeft(st: State, m: string, p: Params) {
    p.attempts > 0 && (m !in st.failedAttempts || st.failedAttempts[m] < p.attempts)
  }

  /** The recovery of a machine seen in the listing fetched last. */
  function Answer(st: State, m: string, d: Seen): Recovery {
    Recovery(m, d.sid, d.status, if st.polls == 0 then 0 else st.polls - 1, Attempted(st, m) != 0)
  }

  function OnSeen(st: State, m: string, d: Seen, p: Params, w: World): State {
    if st.raised || m != d.hostname || m !in st.total then st
    else if Required(p, d.status) then st.(total := Without(st.total, m))
    else if AttemptsLeft(st, m, p) && Recoverable(d.status) then Recover(st, Answer(st, m, d), w)
    else st
  }

  function OnListing(st: State, m: string, ds: seq<Seen>, p: Params, w: World): State {
    if ds == [] then st else OnSeen(OnListing(st, m, ds[..|ds| - 1], p, w), m, ds[|ds| - 1], p, w)
  }

  function OnName(st: State, m: string, p: Params, w: World): State {
    if st.raised then st
    else
      var st' := st.(polls := st.polls + 1);
      match w.poll(st.polls)
      case PollError => st'.(raised := true)
      case Listing(ds) => OnListing(st', m, ds, p, w)
  }

  function OnNames(st: State, names: seq<string>, p: Params, w: World): State {
    if names == [] then st else OnName(OnNames(st, names[..|names| - 1], p, w), names[|names| - 1], p, w)
  }

  function After(p: Params, w: World, rounds: nat): State {
    if rounds == 0 then Initial(p) else OnNames(After(p, w, rounds - 1), p.toDiscover, p, w)
  }

  datatype Result = ReturnsTrue | Raises | FallsThrough

  /** What is decided at the end of a round, if anything. */
  function Decision(p: Params, w: World, round: nat): Option<Result> {
    var st := After(p, w, round);
    if st.raised then Some(Raises)
    else if |st.total| <= 0 then Some(ReturnsTrue)
    else if p.timeout - w.elapsed(round) <= 0 then Some(Raises)
    else None
  }

  // ----- the invariant of every reachable state -----

  function Flatten(rs: seq<Recovery>): seq<Call> {
    if rs == [] then [] else Flatten(rs[..|rs| - 1]) + Plan(rs[|rs| - 1])
  }

  function Times(rs: seq<Recovery>, host: string): nat {
    if rs == [] then 0 else Times(rs[..|rs| - 1], host) + if rs[|rs| - 1].host == host then 1 else 0
  }

  ghost predicate Reported(w: World, polls: nat, d: Seen) {
    exists k: nat :: k < polls && InListing(w, k, d)
  }

  ghost predicate SeenRequired(p: Params, w: World, polls: nat, m: string) {
    exists d: Seen :: Reported(w, polls, d) && d.hostname == m && Required(p, d.status)
  }

  ghost predicate InListing(w: World, poll: nat, d: Seen) {
    w.poll(poll).Listing? && d in w.poll(poll).machines
  }

  /** The recovery answers a report, in the listing it says, of a monitored machine in a status
      that is not required. */
  ghost predicate Justified(p: Params, w: World, polls: nat, r: Recovery) {
    && r.host in Kept(p.toDiscover, p.ignored)
    && r.poll < polls
    && InListing(w, r.poll, Seen(r.host, r.sid, r.status))
    && !Required(p, r.status) && Recoverable(r.status)
  }

  /** The report is in the listing fetched last. */
  ghost predicate Current(w: World, st: State, d: Seen) {
    st.polls > 0 && InListing(w, st.polls - 1, d)
  }

  function Begun(st: State): seq<Recovery> {
    st.recovered + if st.pending.Some? then [st.pending.value] else []
  }

  ghost predicate Waiting(p: Params, w: World, st: State) {
    && multiset(st.total) <= multiset(Kept(p.toDiscover, p.ignored))
    && forall m <- Kept(p.toDiscover, p.ignored) :: m in st.total || SeenRequired(p, w, st.polls, m)
  }

  ghost predicate Budgeted(p: Params, st: State) {
    && (forall m :: Attempted(st, m) == Times(st.recovered, m))
    && (forall m :: Attempted(st, m) <= if p.attempts > 0 then p.attempts else 0)
    && (forall m :: m in st.failedAttempts ==> st.failedAttempts[m] > 0)
  }

  ghost predicate Answering(p: Params, w: World, st: State) {
    forall i :: 0 <= i < |Begun(st)| ==> Justified(p, w, st.polls, Begun(st)[i])
  }

  ghost predicate Numbered(rs: seq<Recovery>) {
    forall i :: 0 <= i < |rs| ==> rs[i].again == (Times(rs[..i], rs[i].host) > 0)
  }

  ghost predicate Traced(st: State) {
    && Numbered(Begun(st))
    && Flatten(st.recovered) <= st.calls <= Flatten(Begun(st))
    && (!st.raised ==> st.pending.None?)
  }

  ghost predicate Invariant(p: Params, w: World, st: State) {
    Waiting(p, w, st) && Budgeted(p, st) && Answering(p, w, st) && Traced(st)
  }

  lemma {:induction false} KeptIsPart(names: seq<string>, ignored: seq<string>)
    ensures multiset(Kept(names, ignored)) <= multiset(names)
    ensures forall m :: multiset(Kept(names, ignored))[m] == if m in ignored then 0 else multiset(names)[m]
    ensures forall m :: m in Kept(names, ignored) <==> m in names && m !in ignored
  {
    if names != [] {
      assert names == [names[0]] + names[1..];
      KeptIsPart(names[1..], ignored);
    }
  }

  lemma {:induction false} PerformIssues(st: State, plan: seq<Call>, w: World)
    requires !st.raised
    decreases |plan|
    ensures var st' := Perform(st, plan, w);
      && st' == st.(calls := st'.calls, raised := st'.raised)
      && st.calls <= st'.calls <= st.calls + plan
      && (!st'.raised ==> st'.calls == st.calls + plan)
  {
    if plan != [] {
      var next := Issue(st, plan[0], w);
      assert st.calls + plan == next.calls + plan[1..];
      if !next.raised { PerformIssues(next, plan[1..], w); }
    }
  }

  lemma ReportedLater(w: World, polls: nat, d: Seen)
    ensures Reported(w, polls, d) ==> Reported(w, polls + 1, d)
  {
    if Reported(w, polls, d) {
      var k: nat :| k < polls && InListing(w, k, d);
      assert k < polls + 1;
    }
  }

  lemma MorePolls(p: Params, w: World, st: State, raised: bool)
    requires Invariant(p, w, st) && !st.raised
    ensures Invariant(p, w, st.(polls := st.polls + 1, raised := raised))
  {
    var st1 := st.(polls := st.polls + 1, raised := raised);
    LaterWaiting(p, w, st, st1);
    LaterAnswering(p, w, st, st1);
    assert Begun(st1) == Begun(st);
    assert Budgeted(p, st1) by {
      assert forall m :: Attempted(st1, m) == Attempted(st, m);
    }
  }

  lemma LaterWaiting(p: Params, w: World, st: State, st1: State)
    requires Waiting(p, w, st) && st1.total == st.total && st1.polls == st.polls + 1
    ensures Waiting(p, w, st1)
  {
    forall m <- Kept(p.toDiscover, p.ignored) | m !in st.total
      ensures SeenRequired(p, w, st1.polls, m)
    {
      var d: Seen :| Reported(w, st.polls, d) && d.hostname == m && Required(p, d.status);
      ReportedLater(w, st.polls, d);
    }
  }

  lemma LaterAnswering(p: Params, w: World, st: State, st1: State)
    requires Answering(p, w, st) && st1.polls == st.polls + 1
    requires st1.recovered == st.recovered && st1.pending == st.pending
    ensures Answering(p, w, st1)
  {
    forall i | 0 <= i < |Begun(st1)| ensures Justified(p, w, st1.polls, Begun(st1)[i]) {
      assert Justified(p, w, st.polls, Begun(st)[i]);
    }
  }

  lemma FlattenLast(rs: seq<Recovery>, r: Recovery)
    ensures Flatten(rs + [r]) == Flatten(rs) + Plan(r)
    ensures forall m :: Times(rs + [r], m) == Times(rs, m) + if r.host == m then 1 else 0
  {
    assert (rs + [r])[..|rs|] == rs;
  }

  lemma RecoverShape(st: State, r: Recovery, w: World)
    requires !st.raised && st.pending.None?
    ensures var st' := Recover(st, r, w);
      && st'.total == st.total && st'.polls == st.polls
      && st.calls <= st'.calls <= st.calls + Plan(r)
      && Begun(st') == st.recovered + [r]
      && st'.recovered == (if st'.raised then st.recovered else st.recovered + [r])
      && (st'.raised ==> st'.failedAttempts == st.failedAttempts)
      && (!st'.raised ==> st'.pending.None? && st'.calls == st.calls + Plan(r))
      && (!st'.raised ==> st'.failedAttempts == st.failedAttempts[r.host := Attempted(st, r.host) + 1])
  {
    PerformIssues(st.(pending := Some(r)), Plan(r), w);
  }

  lemma RecoverKeepsBudget(p: Params, st: State, r: Recovery, w: World)
    requires Budgeted(p, st) && !st.raised && st.pending.None?
    requires p.attempts > 0 && Attempted(st, r.host) < p.attempts
    ensures Budgeted(p, Recover(st, r, w))
  {
    RecoverShape(st, r, w);
    var st' := Recover(st, r, w);
    if st'.raised {
      BudgetUnchanged(p, st, st');
    } else {
      BudgetSpent(p, st, st', r);
    }
  }

  lemma BudgetUnchanged(p: Params, st: State, st': State)
    requires Budgeted(p, st) && st'.failedAttempts == st.failedAttempts && st'.recovered == st.recovered
    ensures Budgeted(p, st')
  {
    assert forall m :: Attempted(st', m) == Attempted(st, m);
  }

  lemma BudgetSpent(p: Params, st: State, st': State, r: Recovery)
    requires Budgeted(p, st) && p.attempts > 0 && Attempted(st, r.host) < p.attempts
    requires st'.failedAttempts == st.failedAttempts[r.host := Attempted(st, r.host) + 1]
    requires st'.recovered == st.recovered + [r]
    ensures Budgeted(p, st')
  {
    FlattenLast(st.recovered, r);
    forall m ensures Attempted(st', m) == Attempted(st, m) + if m == r.host then 1 else 0 {}
    forall m
      ensures Attempted(st', m) == Times(st'.recovered, m)
      ensures Attempted(st', m) <= p.attempts
    {
      assert Attempted(st, m) == Times(st.recovered, m) && Attempted(st, m) <= p.attempts;
    }
    assert Attempted(st, r.host) == Times(st.recovered, r.host);
  }

  lemma NumberedExtended(rs: seq<Recovery>, r: Recovery)
    requires Numbered(rs) && r.again == (Times(rs, r.host) > 0)
    ensures Numbered(rs + [r])
  {
    var rs' := rs + [r];
    forall i | 0 <= i < |rs'| ensures rs'[i].again == (Times(rs'[..i], rs'[i].host) > 0) {
      if i == |rs| {
        assert rs'[..i] == rs;
      } else {
        assert rs'[..i] == rs[..i];
      }
    }
  }

  lemma RecoverKeepsTrace(st: State, r: Recovery, w: World)
    requires Traced(st) && !st.raised && r.again == (Times(st.recovered, r.host) > 0)
    ensures Traced(Recover(st, r, w))
  {
    assert Begun(st) == st.recovered;
    ghost var done := Flatten(st.recovered);
    assert st.calls == done;
    RecoverShape(st, r, w);
    FlattenLast(st.recovered, r);
    NumberedExtended(st.recovered, r);
    var st' := Recover(st, r, w);
    assert done <= st'.calls <= done + Plan(r);
    assert Flatten(Begun(st')) == done + Plan(r);
    if st'.raised {
      assert Flatten(st'.recovered) == done;
    } else {
      assert st'.calls == done + Plan(r) == Flatten(st'.recovered);
    }
  }

  lemma RecoverKeepsAnswering(p: Params, st: State, r: Recovery, w: World)
    requires Answering(p, w, st) && !st.raised && st.pending.None? && Justified(p, w, st.polls, r)
    ensures Answering(p, w, Recover(st, r, w))
  {
    RecoverShape(st, r, w);
    var rs := st.recovered + [r];
    forall i | 0 <= i < |rs| ensures Justified(p, w, st.polls, rs[i]) {
      if i < |st.recovered| { assert Justified(p, w, st.polls, Begun(st)[i]); }
    }
  }

  lemma RemovalKeepsWaiting(p: Params, w: World, st: State, m: string, d: Seen)
    requires Waiting(p, w, st) && m in st.total
    requires d.hostname == m && Required(p, d.status) && Current(w, st, d)
    ensures Waiting(p, w, st.(total := Without(st.total, m)))
  {
    assert Reported(w, st.polls, d);
    WithoutIsDifference(st.total, m);
    var left := Without(st.total, m);
    forall x <- Kept(p.toDiscover, p.ignored) ensures x in left || SeenRequired(p, w, st.polls, x) {
      if x != m && x in st.total {
        assert multiset(left)[x] == multiset(st.total)[x] > 0;
        assert x in left;
      }
    }
  }

  lemma SeenKeepsInvariant(p: Params, w: World, st: State, m: string, d: Seen)
    requires Invariant(p, w, st) && Current(w, st, d)
    ensures Invariant(p, w, OnSeen(st, m, d, p, w))
  {
    if !st.raised && m == d.hostname && m in st.total {
      if Required(p, d.status) {
        RemovalKeepsWaiting(p, w, st, m, d);
        SameHistory(p, w, st, st.(total := Without(st.total, m)));
      } else if AttemptsLeft(st, m, p) && Recoverable(d.status) {
        var r := Answer(st, m, d);
        MonitoredOnly(p, w, st, m);
        assert Seen(r.host, r.sid, r.status) == d;
        assert Attempted(st, m) == Times(st.recovered, m);
        RecoverShape(st, r, w);
        RecoverKeepsBudget(p, st, r, w);
        RecoverKeepsTrace(st, r, w);
        RecoverKeepsAnswering(p, st, r, w);
        SameTotal(p, w, st, Recover(st, r, w));
      }
    }
  }

  lemma MonitoredOnly(p: Params, w: World, st: State, m: string)
    requires Waiting(p, w, st) && m in st.total
    ensures m in Kept(p.toDiscover, p.ignored)
  {
    assert m in multiset(st.total);
    assert m in multiset(Kept(p.toDiscover, p.ignored));
  }

  lemma SameTotal(p: Params, w: World, st: State, st': State)
    requires Waiting(p, w, st) && st'.total == st.total && st'.polls == st.polls
    ensures Waiting(p, w, st')
  {
  }

  lemma SameHistory(p: Params, w: World, st: State, st': State)
    requires Budgeted(p, st) && Answering(p, w, st) && Traced(st)
    requires st' == st.(total := st'.total)
    ensures Budgeted(p, st') && Answering(p, w, st') && Traced(st')
  {
    assert Begun(st') == Begun(st);
    assert forall x :: Attempted(st', x) == Attempted(st, x);
  }

  lemma {:induction false} ListingKeepsInvariant(p: Params, w: World, st: State, m: string, ds: seq<Seen>)
    requires Invariant(p, w, st) && forall d <- ds :: Current(w, st, d)
    ensures Invariant(p, w, OnListing(st, m, ds, p, w)) && OnListing(st, m, ds, p, w).polls == st.polls
  {
    if ds != [] {
      var front, last := ds[..|ds| - 1], ds[|ds| - 1];
      var st1 := OnListing(st, m, front, p, w);
      assert last in ds && forall d <- front :: d in ds;
      ListingKeepsInvariant(p, w, st, m, front);
      assert Current(w, st1, last);
      SeenKeepsInvariant(p, w, st1, m, last);
      SeenKeepsPolls(p, w, st1, m, last);
      ListingLast(p, w, st, m, ds);
    }
  }

  lemma ListingLast(p: Params, w: World, st: State, m: string, ds: seq<Seen>)
    requires ds != []
    ensures OnListing(st, m, ds, p, w) == OnSeen(OnListing(st, m, ds[..|ds| - 1], p, w), m, ds[|ds| - 1], p, w)
  {
  }

  lemma SeenKeepsPolls(p: Params, w: World, st: State, m: string, d: Seen)
    ensures OnSeen(st, m, d, p, w).polls == st.polls
  {
    if !st.raised {
      var r := Answer(st, m, d);
      PerformIssues(st.(pending := Some(r)), Plan(r), w);
    }
  }

  lemma NameKeepsInvariant(p: Params, w: World, st: State, m: string)
    requires Invariant(p, w, st)
    ensures Invariant(p, w, OnName(st, m, p, w))
  {
    if !st.raised {
      var poll := w.poll(st.polls);
      MorePolls(p, w, st, poll.PollError?);
      if poll.Listing? {
        var st1 := st.(polls := st.polls + 1);
        assert st1 == st.(polls := st.polls + 1, raised := false);
        ListingKeepsInvariant(p, w, st1, m, poll.machines);
        NameListing(p, w, st, m);
      }
    }
  }

  lemma NameListing(p: Params, w: World, st: State, m: string)
    requires !st.raised && w.poll(st.polls).Listing?
    ensures OnName(st, m, p, w) == OnListing(st.(polls := st.polls + 1), m, w.poll(st.polls).machines, p, w)
  {
  }

  lemma {:induction false} NamesKeepInvariant(p: Params, w: World, st: State, names: seq<string>)
    requires Invariant(p, w, st)
    ensures Invariant(p, w, OnNames(st, names, p, w))
  {
    if names != [] {
      NamesKeepInvariant(p, w, st, names[..|names| - 1]);
      NameKeepsInvariant(p, w, OnNames(st, names[..|names| - 1], p, w), names[|names| - 1]);
    }
  }

  lemma RoundKeepsInvariant(p: Params, w: World, st: State, st': State)
    requires Invariant(p, w, st) && st' == OnNames(st, p.toDiscover, p, w)
    ensures Invariant(p, w, st')
  {
    NamesKeepInvariant(p, w, st, p.toDiscover);
  }

  lemma NextKeepsInvariant(p: Params, w: World, rounds: nat)
    requires rounds > 0 && Invariant(p, w, After(p, w, rounds - 1))
    ensures Invariant(p, w, After(p, w, rounds))
  {
    AfterNext(p, w, rounds - 1);
    RoundKeepsInvariant(p, w, After(p, w, rounds - 1), After(p, w, rounds));
  }

  lemma InitialInvariant(p: Params, w: World)
    ensures Invariant(p, w, After(p, w, 0))
  {
    assert Begun(Initial(p)) == [];
  }

  /** Holds after every round, and, by the lemmas above, within every round. */
  lemma {:induction false} Reachable(p: Params, w: World, rounds: nat)
    ensures Invariant(p, w, After(p, w, rounds))
  {
    if rounds == 0 {
      InitialInvariant(p, w);
    } else {
      assert Invariant(p, w, After(p, w, rounds - 1)) by { Reachable(p, w, rounds - 1); }
      NextKeepsInvariant(p, w, rounds);
    }
  }

  // ----- what every run guarantees -----

  /** The loop guard never fails: the machines still waited for are among those given. */
  lemma GuardHolds(p: Params, w: World, rounds: nat)
    ensures multiset(After(p, w, rounds).total) <= multiset(p.toDiscover)
    ensures |After(p, w, rounds).total| <= |p.toDiscover|
  {
    Reachable(p, w, rounds);
    KeptIsPart(p.toDiscover, p.ignored);
    PartIsNoLonger(After(p, w, rounds).total, p.toDiscover);
  }

  lemma {:induction false} PartIsNoLonger(part: seq<string>, whole: seq<string>)
    requires multiset(part) <= multiset(whole)
    ensures |part| <= |whole|
  {
    if part != [] {
      assert part == [part[0]] + part[1..];
      assert part[0] in multiset(whole);
      WithoutIsDifference(whole, part[0]);
      PartIsNoLonger(part[1..], Without(whole, part[0]));
    }
  }

  /** Success means every monitored machine was reported in a required status at some poll. */
  lemma SuccessWasSeen(p: Params, w: World, round: nat)
    requires Decision(p, w, round) == Some(ReturnsTrue)
    ensures forall m <- p.toDiscover :: m !in p.ignored ==>
              SeenRequired(p, w, After(p, w, round).polls, m)
  {
    Reachable(p, w, round);
    KeptIsPart(p.toDiscover, p.ignored);
  }

  function Others(rs: seq<Recovery>, host: string): seq<Recovery> {
    if rs == [] then []
    else Others(rs[..|rs| - 1], host) + if rs[|rs| - 1].host == host then [] else [rs[|rs| - 1]]
  }

  lemma {:induction false} OthersCount(rs: seq<Recovery>, host: string)
    ensures |rs| == |Others(rs, host)| + Times(rs, host)
    ensures forall r <- Others(rs, host) :: r in rs && r.host != host
  {
    if rs != [] {
      OthersCount(rs[..|rs| - 1], host);
    }
  }

  lemma {:induction false} OthersTimes(rs: seq<Recovery>, host: string, m: string)
    ensures Times(Others(rs, host), m) == if m == host then 0 else Times(rs, m)
  {
    if rs != [] {
      var before, r := rs[..|rs| - 1], rs[|rs| - 1];
      OthersTimes(before, host, m);
      if r.host != host {
        FlattenLast(Others(before, host), r);
      } else {
        assert Others(rs, host) == Others(before, host);
      }
    }
  }

  lemma {:induction false} TimesTotal(rs: seq<Recovery>, hosts: set<string>, most: nat)
    requires forall r <- rs :: r.host in hosts
    requires forall m :: Times(rs, m) <= most
    ensures |rs| <= most * |hosts|
    decreases hosts
  {
    assert rs != [] ==> rs[0] in rs;
    if hosts == {} {
      assert rs == [];
    } else {
      var h :| h in hosts;
      var fewer, rest := hosts - {h}, Others(rs, h);
      OthersCount(rs, h);
      forall m ensures Times(rest, m) <= most { OthersTimes(rs, h, m); }
      TimesTotal(rest, fewer, most);
      assert Times(rs, h) <= most;
      OneMore(most, |fewer|);
    }
  }

  lemma OneMore(a: nat, b: nat)
    ensures a * (b + 1) == a * b + a
  {
  }

  function Monitored(p: Params): set<string> {
    set m | m in p.toDiscover && m !in p.ignored
  }

  /** Completed recoveries stay within the budget, for each machine and in all. */
  lemma RecoveryBudget(p: Params, w: World, rounds: nat)
    ensures var st := After(p, w, rounds);
      && (forall m :: Attempted(st, m) == Times(st.recovered, m) <= if p.attempts > 0 then p.attempts else 0)
      && |st.recovered| <= (if p.attempts > 0 then p.attempts else 0) * |Monitored(p)|
  {
    Reachable(p, w, rounds);
    var st := After(p, w, rounds);
    var most := if p.attempts > 0 then p.attempts else 0;
    KeptIsPart(p.toDiscover, p.ignored);
    forall r <- st.recovered ensures r.host in Monitored(p) {
      var i :| 0 <= i < |st.recovered| && st.recovered[i] == r;
      assert Begun(st)[i] == r;
      assert Justified(p, w, st.polls, r);
    }
    forall m ensures Times(st.recovered, m) <= most { assert Attempted(st, m) <= most; }
    TimesTotal(st.recovered, Monitored(p), most);
  }

  /** Which recovery a call belongs to: all calls of those before it come earlier, and those of
      its own plan follow them. */
  lemma {:induction false} LocateCall(rs: seq<Recovery>, j: nat) returns (i: nat)
    requires j < |Flatten(rs)|
    ensures i < |rs|
    ensures |Flatten(rs[..i])| <= j < |Flatten(rs[..i])| + |Plan(rs[i])|
    ensures Flatten(rs[..i]) + Plan(rs[i]) <= Flatten(rs)
  {
    var before, r := rs[..|rs| - 1], rs[|rs| - 1];
    assert Flatten(rs) == Flatten(before) + Plan(r);
    if j < |Flatten(before)| {
      i := LocateCall(before, j);
      assert before[..i] == rs[..i];
      PrefixExtended(Flatten(rs[..i]) + Plan(rs[i]), Flatten(before), Plan(r));
    } else {
      i := |rs| - 1;
    }
  }

  lemma PrefixExtended<T>(a: seq<T>, b: seq<T>, c: seq<T>)
    requires a <= b
    ensures a <= b + c
  {
  }

  lemma {:induction false} TimesWitness(rs: seq<Recovery>, host: string) returns (i: nat)
    requires Times(rs, host) > 0
    ensures i < |rs| && rs[i].host == host
  {
    if rs[|rs| - 1].host == host {
      i := |rs| - 1;
    } else {
      i := TimesWitness(rs[..|rs| - 1], host);
    }
  }

  lemma PlanNeighbours(r: Recovery, o: nat)
    requires o < |Plan(r)| && Plan(r)[o].CommissionFio?
    ensures r.again && Plan(r)[o].sid == r.sid && |Plan(r)| == 5
    ensures o == 3 && Plan(r)[2] == MarkFixed(r.sid) && Plan(r)[4] == DeployMachines
  {
  }

  lemma EarlierRecovery(rs: seq<Recovery>, i: nat) returns (e: nat)
    requires Numbered(rs) && i < |rs| && rs[i].again
    ensures e < i && rs[e].host == rs[i].host
  {
    assert Times(rs[..i], rs[i].host) > 0;
    e := TimesWitness(rs[..i], rs[i].host);
  }

  lemma {:induction false} FlattenGrows(rs: seq<Recovery>, a: nat)
    requires a <= |rs|
    ensures |Flatten(rs[..a])| <= |Flatten(rs)|
  {
    if a == |rs| {
      assert rs[..a] == rs;
    } else {
      var before, r := rs[..|rs| - 1], rs[|rs| - 1];
      assert before[..a] == rs[..a];
      FlattenGrows(before, a);
      assert Flatten(rs) == Flatten(before) + Plan(r);
    }
  }

  lemma FlattenNext(rs: seq<Recovery>, i: nat)
    requires i < |rs|
    ensures Flatten(rs[..i + 1]) == Flatten(rs[..i]) + Plan(rs[i])
  {
    assert rs[..i + 1][..i] == rs[..i];
  }

  /** The j-th call is a commissioning with the disk test, made in recovery `i`; recovery `e` of
      the same machine is complete, with all its calls, before the calls of `i` begin. */
  ghost predicate CommissionedAgain(st: State, j: nat, i: nat, e: nat)
    requires j < |st.calls| && st.calls[j].CommissionFio?
  {
    && j > 0 && st.calls[j - 1] == MarkFixed(st.calls[j].sid)
    && (j + 1 < |st.calls| ==> st.calls[j + 1] == DeployMachines)
    && e < i < |Begun(st)| && Begun(st)[i].sid == st.calls[j].sid
    && e < |st.recovered| && st.recovered[e].host == Begun(st)[i].host
    && |Flatten(Begun(st)[..e + 1])| <= |Flatten(Begun(st)[..i])| <= j < |Flatten(Begun(st)[..i + 1])|
  }

  lemma CommissionLocated(calls: seq<Call>, all: seq<Recovery>, j: nat) returns (i: nat)
    requires calls <= Flatten(all) && j < |calls| && calls[j].CommissionFio?
    ensures i < |all| && all[i].again && all[i].sid == calls[j].sid
    ensures |Flatten(all[..i])| <= j < |Flatten(all[..i + 1])|
    ensures j > 0 && calls[j - 1] == MarkFixed(calls[j].sid)
    ensures j + 1 < |calls| ==> calls[j + 1] == DeployMachines
  {
    i := LocateCall(all, j);
    FlattenNext(all, i);
    var start, plan := Flatten(all[..i]), Plan(all[i]);
    CallsPrefix(calls, Flatten(all), start, plan, j);
    PlanNeighbours(all[i], j - |start|);
  }

  lemma RecoveredBefore(all: seq<Recovery>, i: nat) returns (e: nat)
    requires Numbered(all) && i < |all| && all[i].again
    ensures e < i && all[e].host == all[i].host
    ensures |Flatten(all[..e + 1])| <= |Flatten(all[..i])|
  {
    e := EarlierRecovery(all, i);
    FlattenGrows(all[..i], e + 1);
    assert all[..i][..e + 1] == all[..e + 1];
  }

  /** A commissioning with the disk test comes right after the machine is marked fixed, nothing
      but the redeployment follows it, and another recovery of that machine was complete before. */
  lemma CommissionOnlyAgain(p: Params, w: World, rounds: nat, j: nat) returns (i: nat, e: nat)
    requires j < |After(p, w, rounds).calls| && After(p, w, rounds).calls[j].CommissionFio?
    ensures CommissionedAgain(After(p, w, rounds), j, i, e)
  {
    Reachable(p, w, rounds);
    var st := After(p, w, rounds);
    i := CommissionLocated(st.calls, Begun(st), j);
    e := RecoveredBefore(Begun(st), i);
  }

  lemma CallsPrefix(calls: seq<Call>, all: seq<Call>, start: seq<Call>, plan: seq<Call>, j: nat)
    requires calls <= all && start + plan <= all && j < |calls|
    ensures |start| <= j < |start + plan| ==> calls[j] == plan[j - |start|]
    ensures |start| < j < |start + plan| ==> calls[j - 1] == plan[j - 1 - |start|]
    ensures |start| <= j < |start + plan| - 1 && j + 1 < |calls| ==> calls[j + 1] == plan[j + 1 - |start|]
  {
  }

  // ----- which step of a run a call belongs to -----

  /** What can happen between two states of a run: calls and recoveries are added, names are
      removed, and no recovery begins for a name that is not waited for any more. */
  ghost predicate Later(st: State, st': State) {
    && st.calls <= st'.calls && Begun(st) <= Begun(st') && st.recovered <= st'.recovered
    && (forall m <- st'.total :: m in st.total)
    && (forall i | |Begun(st)| <= i < |Begun(st')| :: Begun(st')[i].host in st.total)
    && (st.raised ==> st' == st)
  }

  ghost predicate Quiet(st: State) {
    !st.raised ==> st.pending.None?
  }

  lemma LaterStill(a: State, b: State, c: State)
    requires Later(a, b) && Later(b, c)
    ensures Later(a, c)
  {
    forall i | |Begun(a)| <= i < |Begun(c)| ensures Begun(c)[i].host in a.total {
      if i < |Begun(b)| {
        assert Begun(c)[i] == Begun(b)[i];
      } else {
        assert Begun(c)[i].host in b.total;
      }
    }
  }

  lemma SeenIsLater(p: Params, w: World, st: State, m: string, d: Seen)
    requires Quiet(st)
    ensures Later(st, OnSeen(st, m, d, p, w)) && Quiet(OnSeen(st, m, d, p, w))
  {
    if !st.raised && m == d.hostname && m in st.total {
      if Required(p, d.status) {
        WithoutIsDifference(st.total, m);
        forall x <- Without(st.total, m) ensures x in st.total {
          assert x in multiset(Without(st.total, m)) && x in multiset(st.total);
        }
        assert Begun(st.(total := Without(st.total, m))) == Begun(st);
      } else if AttemptsLeft(st, m, p) && Recoverable(d.status) {
        RecoverShape(st, Answer(st, m, d), w);
      }
    }
  }

  lemma {:induction false} ListingIsLater(p: Params, w: World, st: State, m: string, ds: seq<Seen>)
    requires Quiet(st)
    ensures Later(st, OnListing(st, m, ds, p, w)) && Quiet(OnListing(st, m, ds, p, w))
  {
    if ds != [] {
      var front := OnListing(st, m, ds[..|ds| - 1], p, w);
      ListingIsLater(p, w, st, m, ds[..|ds| - 1]);
      SeenIsLater(p, w, front, m, ds[|ds| - 1]);
      LaterStill(st, front, OnListing(st, m, ds, p, w));
    }
  }

  lemma NameIsLater(p: Params, w: World, st: State, m: string)
    requires Quiet(st)
    ensures Later(st, OnName(st, m, p, w)) && Quiet(OnName(st, m, p, w))
  {
    if !st.raised {
      var st1 := st.(polls := st.polls + 1);
      assert Begun(st1) == Begun(st);
      if w.poll(st.polls).Listing? {
        ListingIsLater(p, w, st1, m, w.poll(st.polls).machines);
      }
    }
  }

  lemma {:induction false} NamesAreLater(p: Params, w: World, st: State, names: seq<string>)
    requires Quiet(st)
    ensures Later(st, OnNames(st, names, p, w)) && Quiet(OnNames(st, names, p, w))
  {
    if names != [] {
      var front := OnNames(st, names[..|names| - 1], p, w);
      NamesAreLater(p, w, st, names[..|names| - 1]);
      NameIsLater(p, w, front, names[|names| - 1]);
      LaterStill(st, front, OnNames(st, names, p, w));
    }
  }

  lemma {:induction false} RoundsAreLater(p: Params, w: World, a: nat, b: nat)
    requires a <= b
    ensures Later(After(p, w, a), After(p, w, b)) && Quiet(After(p, w, b))
  {
    if b == 0 {
    } else if a == b {
      RoundsAreLater(p, w, a - 1, b - 1);
      NamesAreLater(p, w, After(p, w, b - 1), p.toDiscover);
    } else {
      RoundsAreLater(p, w, a, b - 1);
      NamesAreLater(p, w, After(p, w, b - 1), p.toDiscover);
      LaterStill(After(p, w, a), After(p, w, b - 1), After(p, w, b));
    }
  }

  /** A machine seen in a required status is done with: it is never waited for again, and no
      recovery of it begins, let alone completes, in any later round. */
  lemma SeenForGood(p: Params, w: World, a: nat, b: nat, m: string)
    requires a <= b && m !in After(p, w, a).total
    ensures m !in After(p, w, b).total
    ensures Begun(After(p, w, a)) <= Begun(After(p, w, b))
    ensures forall i | |Begun(After(p, w, a))| <= i < |Begun(After(p, w, b))| :: Begun(After(p, w, b))[i].host != m
    ensures Times(After(p, w, b).recovered, m) == Times(After(p, w, a).recovered, m)
  {
    RoundsAreLater(p, w, a, a);
    RoundsAreLater(p, w, a, b);
    RecoveredAfter(After(p, w, a), After(p, w, b), m);
  }

  lemma RecoveredAfter(st: State, st': State, m: string)
    requires Quiet(st) && Later(st, st') && m !in st.total
    ensures Times(st'.recovered, m) == Times(st.recovered, m)
  {
    if !st.raised {
      forall i | |st.recovered| <= i < |st'.recovered| ensures st'.recovered[i].host != m {
        assert Begun(st')[i] == st'.recovered[i];
      }
      TimesOfRest(st.recovered, st'.recovered, m);
    }
  }

  lemma {:induction false} TimesOfRest(some: seq<Recovery>, all: seq<Recovery>, m: string)
    requires some <= all && forall i | |some| <= i < |all| :: all[i].host != m
    ensures Times(all, m) == Times(some, m)
  {
    if |some| < |all| {
      TimesOfRest(some, all[..|all| - 1], m);
    } else {
      assert some == all;
    }
  }

  /** One report handled in a run: the round, the name asked about, and the position of the
      report in the listing fetched for that name. */
  datatype Step = Step(round: nat, name: nat, report: nat)

  ghost function NameStart(p: Params, w: World, s: Step): State
    requires s.name < |p.toDiscover|
  {
    OnNames(After(p, w, s.round), p.toDiscover[..s.name], p, w)
  }

  ghost predicate Taken(p: Params, w: World, s: Step) {
    && s.name < |p.toDiscover|
    && var start := NameStart(p, w, s);
      && !start.raised
      && w.poll(start.polls).Listing?
      && s.report < |w.poll(start.polls).machines|
  }

  ghost function ReportAt(p: Params, w: World, s: Step): Seen
    requires Taken(p, w, s)
  {
    w.poll(NameStart(p, w, s).polls).machines[s.report]
  }

  /** The state in which that report is looked at. */
  ghost function StateAt(p: Params, w: World, s: Step): State
    requires Taken(p, w, s)
  {
    var start := NameStart(p, w, s);
    OnListing(start.(polls := start.polls + 1), p.toDiscover[s.name], w.poll(start.polls).machines[..s.report], p, w)
  }

  /** The j-th call is made between the two states, and stays among the calls of `end`. */
  ghost predicate Made(at: State, next: State, end: State, j: nat) {
    Quiet(at) && |at.calls| <= j < |next.calls| && Later(next, end)
  }

  lemma MadeStill(at: State, next: State, end: State, end': State, j: nat)
    requires Made(at, next, end, j) && Later(end, end')
    ensures Made(at, next, end', j)
  {
    LaterStill(next, end, end');
  }

  lemma {:induction false} LocateInListing(p: Params, w: World, st: State, m: string, ds: seq<Seen>, j: nat)
    returns (i: nat)
    requires Quiet(st) && |st.calls| <= j < |OnListing(st, m, ds, p, w).calls|
    ensures i < |ds|
    ensures var at := OnListing(st, m, ds[..i], p, w);
      Made(at, OnSeen(at, m, ds[i], p, w), OnListing(st, m, ds, p, w), j)
  {
    var n := |ds| - 1;
    var front := OnListing(st, m, ds[..n], p, w);
    ListingIsLater(p, w, st, m, ds[..n]);
    if j < |front.calls| {
      i := LocateInListing(p, w, st, m, ds[..n], j);
      assert ds[..n][..i] == ds[..i];
      SeenIsLater(p, w, front, m, ds[n]);
      var at := OnListing(st, m, ds[..i], p, w);
      MadeStill(at, OnSeen(at, m, ds[i], p, w), front, OnListing(st, m, ds, p, w), j);
    } else {
      i := n;
    }
  }

  lemma {:induction false} LocateInNames(p: Params, w: World, st: State, names: seq<string>, j: nat)
    returns (k: nat)
    requires Quiet(st) && |st.calls| <= j < |OnNames(st, names, p, w).calls|
    ensures k < |names|
    ensures var at := OnNames(st, names[..k], p, w);
      Made(at, OnName(at, names[k], p, w), OnNames(st, names, p, w), j)
  {
    var n := |names| - 1;
    var front := OnNames(st, names[..n], p, w);
    NamesAreLater(p, w, st, names[..n]);
    if j < |front.calls| {
      k := LocateInNames(p, w, st, names[..n], j);
      assert names[..n][..k] == names[..k];
      NameIsLater(p, w, front, names[n]);
      var at := OnNames(st, names[..k], p, w);
      MadeStill(at, OnName(at, names[k], p, w), front, OnNames(st, names, p, w), j);
    } else {
      k := n;
    }
  }

  lemma {:induction false} LocateInRounds(p: Params, w: World, rounds: nat, j: nat) returns (a: nat)
    requires j < |After(p, w, rounds).calls|
    ensures a < rounds && Made(After(p, w, a), After(p, w, a + 1), After(p, w, rounds), j)
  {
    if j < |After(p, w, rounds - 1).calls| {
      a := LocateInRounds(p, w, rounds - 1, j);
    } else {
      a := rounds - 1;
    }
    RoundsAreLater(p, w, a, a);
    RoundsAreLater(p, w, a + 1, rounds);
  }

  /** The report at which a call was made. */
  lemma LocateStep(p: Params, w: World, rounds: nat, j: nat) returns (s: Step)
    requires j < |After(p, w, rounds).calls|
    ensures s.round < rounds && Taken(p, w, s)
    ensures var at := StateAt(p, w, s);
      Made(at, OnSeen(at, p.toDiscover[s.name], ReportAt(p, w, s), p, w), After(p, w, rounds), j)
  {
    var a := LocateInRounds(p, w, rounds, j);
    AfterNext(p, w, a);
    var k := LocateInNames(p, w, After(p, w, a), p.toDiscover, j);
    var start, m := OnNames(After(p, w, a), p.toDiscover[..k], p, w), p.toDiscover[k];
    MadeStill(start, OnName(start, m, p, w), After(p, w, a + 1), After(p, w, rounds), j);
    s := LocateInName(p, w, a, k, After(p, w, rounds), j);
  }

  lemma LocateInName(p: Params, w: World, a: nat, k: nat, end: State, j: nat) returns (s: Step)
    requires k < |p.toDiscover|
    requires var start := OnNames(After(p, w, a), p.toDiscover[..k], p, w);
      Made(start, OnName(start, p.toDiscover[k], p, w), end, j)
    ensures s.round == a && Taken(p, w, s)
    ensures var at := StateAt(p, w, s);
      Made(at, OnSeen(at, p.toDiscover[s.name], ReportAt(p, w, s), p, w), end, j)
  {
    var start, m := OnNames(After(p, w, a), p.toDiscover[..k], p, w), p.toDiscover[k];
    NameListing(p, w, start, m);
    var st1, ds := start.(polls := start.polls + 1), w.poll(start.polls).machines;
    var i := LocateInListing(p, w, st1, m, ds, j);
    var at := OnListing(st1, m, ds[..i], p, w);
    MadeStill(at, OnSeen(at, m, ds[i], p, w), OnName(start, m, p, w), end, j);
    s := Step(a, k, i);
    StepAt(p, w, s, start);
  }

  lemma StepAt(p: Params, w: World, s: Step, start: State)
    requires s.name < |p.toDiscover| && start == OnNames(After(p, w, s.round), p.toDiscover[..s.name], p, w)
    requires !start.raised && w.poll(start.polls).Listing? && s.report < |w.poll(start.polls).machines|
    ensures Taken(p, w, s)
    ensures ReportAt(p, w, s) == w.poll(start.polls).machines[s.report]
    ensures StateAt(p, w, s) == OnListing(start.(polls := start.polls + 1), p.toDiscover[s.name],
                                          w.poll(start.polls).machines[..s.report], p, w)
  {
  }

  /** The j-th call belongs to the recovery begun when the report `d` was looked at: the machine
      was still waited for at that very moment, in a recoverable status that is not required, and
      with attempts left. */
  ghost predicate Justifies(p: Params, st: State, d: Seen, end: State, j: nat) {
    var r := Answer(st, d.hostname, d);
    && r.host in st.total && !Required(p, r.status) && Recoverable(r.status)
    && Attempted(st, r.host) < p.attempts
    && st.recovered + [r] <= Begun(end)
    && |st.calls| <= j < |st.calls| + |Plan(r)| && j < |end.calls|
    && end.calls[j] == Plan(r)[j - |st.calls|]
  }

  /** Every call is part of the plan of a recovery that began at a report, in the listing just
      fetched, of a machine the state of that moment still waits for. */
  lemma RecoveriesAreJustified(p: Params, w: World, rounds: nat, j: nat) returns (s: Step)
    requires j < |After(p, w, rounds).calls|
    ensures s.round < rounds && Taken(p, w, s)
    ensures ReportAt(p, w, s).hostname == p.toDiscover[s.name]
    ensures StateAt(p, w, s).polls > 0 && InListing(w, StateAt(p, w, s).polls - 1, ReportAt(p, w, s))
    ensures Justifies(p, StateAt(p, w, s), ReportAt(p, w, s), After(p, w, rounds), j)
  {
    s := LocateStep(p, w, rounds, j);
    PollAt(p, w, s);
    var st, m, d, end := StateAt(p, w, s), p.toDiscover[s.name], ReportAt(p, w, s), After(p, w, rounds);
    MadeFacts(st, OnSeen(st, m, d, p, w), end, j);
    GrowsByRecovery(p, w, st, m, d);
    CallOfStep(p, st, m, d, OnSeen(st, m, d, p, w), end, j);
  }

  /** What is known about the machine when handling a report makes calls. */
  ghost predicate Recovers(p: Params, st: State, m: string, d: Seen, next: State) {
    var r := Answer(st, m, d);
    && m == d.hostname && m in st.total && !Required(p, d.status) && Recoverable(d.status)
    && Attempted(st, m) < p.attempts
    && next.calls <= st.calls + Plan(r) && Begun(next) == st.recovered + [r]
  }

  lemma GrowsByRecovery(p: Params, w: World, st: State, m: string, d: Seen)
    requires Quiet(st) && |OnSeen(st, m, d, p, w).calls| > |st.calls|
    ensures Recovers(p, st, m, d, OnSeen(st, m, d, p, w))
  {
    RecoverShape(st, Answer(st, m, d), w);
  }

  lemma CallOfStep(p: Params, st: State, m: string, d: Seen, next: State, end: State, j: nat)
    requires Recovers(p, st, m, d, next) && |st.calls| <= j < |next.calls|
    requires next.calls <= end.calls && Begun(next) <= Begun(end)
    ensures m == d.hostname && Justifies(p, st, d, end, j)
  {
    CallInPlan(end.calls, next.calls, st.calls, Plan(Answer(st, m, d)), j);
  }

  lemma MadeFacts(at: State, next: State, end: State, j: nat)
    requires Made(at, next, end, j)
    ensures Quiet(at) && |at.calls| <= j < |next.calls|
    ensures next.calls <= end.calls && Begun(next) <= Begun(end)
  {
  }

  lemma PollAt(p: Params, w: World, s: Step)
    requires Taken(p, w, s)
    ensures StateAt(p, w, s).polls == NameStart(p, w, s).polls + 1
  {
    var start := NameStart(p, w, s);
    ListingKeepsPolls(p, w, start.(polls := start.polls + 1), p.toDiscover[s.name],
                      w.poll(start.polls).machines[..s.report]);
  }

  lemma CallInPlan(calls: seq<Call>, part: seq<Call>, start: seq<Call>, plan: seq<Call>, j: nat)
    requires part <= calls && part <= start + plan && |start| <= j < |part|
    ensures j < |start + plan| && calls[j] == plan[j - |start|]
  {
    assert calls[j] == part[j] == (start + plan)[j];
  }

  lemma {:induction false} ListingKeepsPolls(p: Params, w: World, st: State, m: string, ds: seq<Seen>)
    ensures OnListing(st, m, ds, p, w).polls == st.polls
  {
    if ds != [] {
      ListingKeepsPolls(p, w, st, m, ds[..|ds| - 1]);
      SeenKeepsPolls(p, w, OnListing(st, m, ds[..|ds| - 1], p, w), m, ds[|ds| - 1]);
    }
  }

  // ----- when exactly a recovery begins -----

  /** The statuses a machine is recovered from. */
  ghost const FAILED := {New, FailedCommissioning, FailedTesting, FailedDeployment, Allocated}

  /** A report of a machine still waited for, in a failed status that is not required, with fewer
      completed recoveries than allowed. */
  ghost predicate CallsForRecovery(p: Params, st: State, m: string, d: Seen) {
    && !st.raised && m == d.hostname && m in st.total
    && d.status !in p.required && d.status in FAILED
    && Times(st.recovered, m) < p.attempts
  }

  lemma AttemptsLeftExactly(p: Params, st: State, m: string)
    requires Budgeted(p, st)
    ensures AttemptsLeft(st, m, p) <==> Times(st.recovered, m) < p.attempts
  {
    assert Attempted(st, m) == Times(st.recovered, m);
  }

  /** A report makes a recovery begin exactly when it calls for one; no other report does
      anything but end the wait for a machine. */
  lemma RecoveryBeginsExactly(p: Params, w: World, st: State, m: string, d: Seen)
    requires Quiet(st) && Budgeted(p, st)
    ensures var next := OnSeen(st, m, d, p, w);
      if CallsForRecovery(p, st, m, d) then
        Begun(next) == Begun(st) + [Answer(st, m, d)] && next.total == st.total
      else
        && next == st.(total := next.total)
        && (next.total != st.total ==>
              !st.raised && m == d.hostname && m in st.total && d.status in p.required)
  {
    AttemptsLeftExactly(p, st, m);
    assert Recoverable(d.status) <==> d.status in FAILED;
    if CallsForRecovery(p, st, m, d) { RecoverShape(st, Answer(st, m, d), w); }
  }

  /** The calls of one recovery, as the server gets them. */
  ghost function Script(status: Status, sid: nat, again: bool): seq<Call> {
    if status in {New, FailedCommissioning} then [DeleteMachine(sid), ProcessMachines]
    else if status == FailedTesting then [OverrideFailedTesting(sid)]
    else if again then [MarkBroken(sid), Sleep, MarkFixed(sid), CommissionFio(sid), DeployMachines]
    else [MarkBroken(sid), Sleep, MarkFixed(sid), DeployMachines]
  }

  lemma PlanIsScript(r: Recovery)
    requires r.status in FAILED
    ensures Plan(r) == Script(r.status, r.sid, r.again)
  {
  }

  /** The first `n` calls of a list are made, and all but the last of them succeed; it fails if and
      only if something is raised. */
  ghost predicate UpToFailure(before: seq<Call>, list: seq<Call>, n: nat, after: seq<Call>, raised: bool, w: World) {
    && n <= |list| && after == before + list[..n]
    && (forall k | 0 <= k < n - 1 :: list[k] == Sleep || w.succeeds(|before| + k))
    && (if raised then n > 0 && list[n - 1] != Sleep && !w.succeeds(|before| + n - 1)
        else n == |list| && (n > 0 ==> list[n - 1] == Sleep || w.succeeds(|before| + n - 1)))
  }

  lemma {:induction false} PerformUpToFailure(st: State, plan: seq<Call>, w: World) returns (n: nat)
    requires !st.raised
    decreases |plan|
    ensures UpToFailure(st.calls, plan, n, Perform(st, plan, w).calls, Perform(st, plan, w).raised, w)
  {
    if plan == [] {
      n := 0;
    } else {
      var next := Issue(st, plan[0], w);
      if next.raised {
        n := 1;
        assert Perform(next, plan[1..], w) == next;
      } else {
        var rest := PerformUpToFailure(next, plan[1..], w);
        n := rest + 1;
        OneMoreCall(st.calls, plan, rest, Perform(st, plan, w).calls, Perform(st, plan, w).raised, w);
      }
    }
  }

  lemma OneMoreCall(before: seq<Call>, list: seq<Call>, n: nat, after: seq<Call>, raised: bool, w: World)
    requires list != [] && UpToFailure(before + [list[0]], list[1..], n, after, raised, w)
    requires list[0] == Sleep || w.succeeds(|before|)
    ensures UpToFailure(before, list, n + 1, after, raised, w)
  {
    assert before + [list[0]] + list[1..][..n] == before + list[..n + 1];
    forall k | 0 <= k < n ensures list[k] == Sleep || w.succeeds(|before| + k) {
      if k > 0 { assert list[k] == list[1..][k - 1]; }
    }
    assert n > 0 ==> list[n] == list[1..][n - 1];
  }

  /** What a recovery does: the calls of its script up to the first that fails, which then raises;
      with none failing, the recovery is complete and counted. */
  lemma RecoveryCalls(p: Params, w: World, st: State, m: string, d: Seen) returns (n: nat)
    requires Quiet(st) && Budgeted(p, st) && CallsForRecovery(p, st, m, d)
    ensures var next := OnSeen(st, m, d, p, w);
      && UpToFailure(st.calls, Script(d.status, d.sid, Times(st.recovered, m) > 0), n, next.calls, next.raised, w)
      && next.recovered == (if next.raised then st.recovered else st.recovered + [Answer(st, m, d)])
  {
    var r := Answer(st, m, d);
    AttemptsLeftExactly(p, st, m);
    PlanIsScript(r);
    assert Attempted(st, m) == Times(st.recovered, m);
    RecoverShape(st, r, w);
    n := PerformUpToFailure(st.(pending := Some(r)), Plan(r), w);
  }

  lemma StartInvariant(p: Params, w: World, s: Step)
    requires s.name < |p.toDiscover|
    ensures Invariant(p, w, NameStart(p, w, s))
  {
    Reachable(p, w, s.round);
    NamesKeepInvariant(p, w, After(p, w, s.round), p.toDiscover[..s.name]);
  }

  lemma FetchedInvariant(p: Params, w: World, st: State, m: string, n: nat, at: State)
    requires Invariant(p, w, st) && !st.raised && w.poll(st.polls).Listing? && n <= |w.poll(st.polls).machines|
    requires at == OnListing(st.(polls := st.polls + 1), m, w.poll(st.polls).machines[..n], p, w)
    ensures Invariant(p, w, at)
  {
    var st1, ds := st.(polls := st.polls + 1), w.poll(st.polls).machines;
    MorePolls(p, w, st, false);
    assert st1 == st.(polls := st.polls + 1, raised := false);
    forall d <- ds[..n] ensures Current(w, st1, d) {
      assert d in ds;
    }
    ListingKeepsInvariant(p, w, st1, m, ds[..n]);
  }

  lemma StateAtInvariant(p: Params, w: World, s: Step)
    requires Taken(p, w, s)
    ensures Invariant(p, w, StateAt(p, w, s))
  {
    var start, m, at := NameStart(p, w, s), p.toDiscover[s.name], StateAt(p, w, s);
    StepAt(p, w, s, start);
    assert Invariant(p, w, start) by { StartInvariant(p, w, s); }
    assert Invariant(p, w, at) by { FetchedInvariant(p, w, start, m, s.report, at); }
  }

  /** In every run, whatever happened before: each report looked at makes a recovery begin exactly
      when it is of a machine the state of that moment waits for, in a failed status that is not
      required, after fewer completed recoveries of it than allowed. */
  lemma StepRecoversExactly(p: Params, w: World, s: Step)
    requires Taken(p, w, s)
    ensures var st, m, d := StateAt(p, w, s), p.toDiscover[s.name], ReportAt(p, w, s);
      var next := OnSeen(st, m, d, p, w);
      && (CallsForRecovery(p, st, m, d) ==> Begun(next) == Begun(st) + [Answer(st, m, d)])
      && (!CallsForRecovery(p, st, m, d) ==> Begun(next) == Begun(st) && next.calls == st.calls)
  {
    StateAtInvariant(p, w, s);
    RecoveryBeginsExactly(p, w, StateAt(p, w, s), p.toDiscover[s.name], ReportAt(p, w, s));
  }

  // ----- when exactly something is raised -----

  /** A listing could not be fetched, or a call to the server failed. */
  ghost predicate Trouble(w: World, st: State) {
    || (exists k: nat :: k < st.polls && w.poll(k).PollError?)
    || (exists j :: 0 <= j < |st.calls| && st.calls[j] != Sleep && !w.succeeds(j))
  }

  ghost predicate Faithful(w: World, st: State) {
    st.raised <==> Trouble(w, st)
  }

  lemma SeenFaithful(p: Params, w: World, st: State, m: string, d: Seen)
    requires Quiet(st) && Faithful(w, st)
    ensures Faithful(w, OnSeen(st, m, d, p, w))
  {
    var next := OnSeen(st, m, d, p, w);
    if |next.calls| > |st.calls| {
      var r := Answer(st, m, d);
      GrowsByRecovery(p, w, st, m, d);
      RecoverShape(st, r, w);
      var n := PerformUpToFailure(st.(pending := Some(r)), Plan(r), w);
      MoreCalls(w, st, next, Plan(r), n);
    } else {
      SeenIsLater(p, w, st, m, d);
      SeenKeepsPolls(p, w, st, m, d);
      QuietSteps(p, w, st, m, d);
    }
  }

  lemma QuietSteps(p: Params, w: World, st: State, m: string, d: Seen)
    requires Quiet(st) && |OnSeen(st, m, d, p, w).calls| <= |st.calls|
    ensures OnSeen(st, m, d, p, w).calls == st.calls && OnSeen(st, m, d, p, w).raised == st.raised
  {
    if !st.raised && m == d.hostname && m in st.total && !Required(p, d.status) && AttemptsLeft(st, m, p)
       && Recoverable(d.status) {
      var r := Answer(st, m, d);
      RecoverShape(st, r, w);
      var n := PerformUpToFailure(st.(pending := Some(r)), Plan(r), w);
    }
  }

  lemma MoreCalls(w: World, st: State, next: State, list: seq<Call>, n: nat)
    requires !st.raised && Faithful(w, st) && next.polls == st.polls
    requires UpToFailure(st.calls, list, n, next.calls, next.raised, w)
    ensures Faithful(w, next)
  {
    if next.raised {
      assert next.calls[|st.calls| + n - 1] == list[n - 1];
    } else {
      assert !Trouble(w, st);
      forall j | 0 <= j < |next.calls| ensures next.calls[j] == Sleep || w.succeeds(j) {
        if j < |st.calls| {
          assert st.calls[j] == next.calls[j];
        } else {
          assert next.calls[j] == list[j - |st.calls|];
        }
      }
    }
  }

  lemma {:induction false} ListingFaithful(p: Params, w: World, st: State, m: string, ds: seq<Seen>)
    requires Quiet(st) && Faithful(w, st)
    ensures Faithful(w, OnListing(st, m, ds, p, w))
  {
    if ds != [] {
      ListingFaithful(p, w, st, m, ds[..|ds| - 1]);
      ListingIsLater(p, w, st, m, ds[..|ds| - 1]);
      SeenFaithful(p, w, OnListing(st, m, ds[..|ds| - 1], p, w), m, ds[|ds| - 1]);
      ListingLast(p, w, st, m, ds);
    }
  }

  lemma NameFaithful(p: Params, w: World, st: State, m: string)
    requires Quiet(st) && Faithful(w, st)
    ensures Faithful(w, OnName(st, m, p, w))
  {
    if !st.raised {
      var st1 := st.(polls := st.polls + 1);
      if w.poll(st.polls).Listing? {
        assert !Trouble(w, st1);
        ListingFaithful(p, w, st1, m, w.poll(st.polls).machines);
        NameListing(p, w, st, m);
      } else {
        assert st.polls < st1.polls;
      }
    }
  }

  lemma {:induction false} NamesFaithful(p: Params, w: World, st: State, names: seq<string>)
    requires Quiet(st) && Faithful(w, st)
    ensures Faithful(w, OnNames(st, names, p, w))
  {
    if names != [] {
      NamesFaithful(p, w, st, names[..|names| - 1]);
      NamesAreLater(p, w, st, names[..|names| - 1]);
      NameFaithful(p, w, OnNames(st, names[..|names| - 1], p, w), names[|names| - 1]);
    }
  }

  /** Something is raised in a run exactly when a listing could not be fetched or a call failed:
      nothing is swallowed, and nothing else ends the wait early. */
  lemma {:induction false} RaisedExactly(p: Params, w: World, rounds: nat)
    ensures After(p, w, rounds).raised <==> Trouble(w, After(p, w, rounds))
  {
    if rounds > 0 {
      RaisedExactly(p, w, rounds - 1);
      RoundsAreLater(p, w, rounds - 1, rounds - 1);
      AfterNext(p, w, rounds - 1);
      NamesFaithful(p, w, After(p, w, rounds - 1), p.toDiscover);
    }
  }

  // ----- when exactly the wait succeeds -----

  /** The listing has a report of the machine in a required status. */
  ghost predicate ShowsRequired(p: Params, ds: seq<Seen>, m: string) {
    exists d <- ds :: d.hostname == m && Required(p, d.status)
  }

  /** The listing was fetched and shows the machine in a required status. */
  ghost predicate Shown(p: Params, w: World, poll: nat, m: string) {
    w.poll(poll).Listing? && ShowsRequired(p, w.poll(poll).machines, m)
  }

  /** `m` is gone from the names waited for if `removed`, and nothing else is. */
  ghost predicate Removes(before: seq<string>, after: seq<string>, m: string, removed: bool) {
    && Distinct(after)
    && forall x :: x in after <==> x in before && !(x == m && removed)
  }

  lemma SeenRemoves(p: Params, w: World, st: State, m: string, d: Seen)
    requires Distinct(st.total) && !st.raised && Quiet(st)
    ensures Removes(st.total, OnSeen(st, m, d, p, w).total, m, d.hostname == m && Required(p, d.status))
  {
    WithoutOne(st.total, m);
    if !Required(p, d.status) && m == d.hostname && m in st.total { RecoverShape(st, Answer(st, m, d), w); }
  }

  lemma {:induction false} ListingRemoves(p: Params, w: World, st: State, m: string, ds: seq<Seen>)
    requires Distinct(st.total) && Quiet(st) && !OnListing(st, m, ds, p, w).raised
    ensures Removes(st.total, OnListing(st, m, ds, p, w).total, m, ShowsRequired(p, ds, m))
  {
    if ds != [] {
      var front, last := ds[..|ds| - 1], ds[|ds| - 1];
      assert ds == front + [last];
      ListingIsLater(p, w, st, m, front);
      ListingRemoves(p, w, st, m, front);
      SeenRemoves(p, w, OnListing(st, m, front, p, w), m, last);
      assert ShowsRequired(p, ds, m)
             <==> ShowsRequired(p, front, m) || (last.hostname == m && Required(p, last.status));
    }
  }

  lemma NameRemoves(p: Params, w: World, st: State, m: string)
    requires Distinct(st.total) && Quiet(st) && !OnName(st, m, p, w).raised
    ensures Removes(st.total, OnName(st, m, p, w).total, m, Shown(p, w, st.polls, m))
    ensures OnName(st, m, p, w).polls == st.polls + 1
  {
    NameListing(p, w, st, m);
    ListingRemoves(p, w, st.(polls := st.polls + 1), m, w.poll(st.polls).machines);
    ListingKeepsPolls(p, w, st.(polls := st.polls + 1), m, w.poll(st.polls).machines);
  }

  /** The machine was shown in a required status in a listing fetched for its name, the listings
      for `names` being numbered from `first` on. */
  ghost predicate ShownFor(p: Params, w: World, names: seq<string>, first: nat, m: string) {
    exists k: nat :: k < |names| && names[k] == m && Shown(p, w, first + k, m)
  }

  lemma ShownForLast(p: Params, w: World, names: seq<string>, first: nat, m: string)
    requires names != []
    ensures ShownFor(p, w, names, first, m)
            <==> ShownFor(p, w, names[..|names| - 1], first, m)
                 || (names[|names| - 1] == m && Shown(p, w, first + |names| - 1, m))
  {
    var front := names[..|names| - 1];
    if ShownFor(p, w, front, first, m) {
      var k: nat :| k < |front| && front[k] == m && Shown(p, w, first + k, m);
      assert names[k] == m;
    }
    if names[|names| - 1] == m && Shown(p, w, first + |names| - 1, m) {
      assert Shown(p, w, first + (|names| - 1), m);
    }
    if ShownFor(p, w, names, first, m) {
      var k: nat :| k < |names| && names[k] == m && Shown(p, w, first + k, m);
      if k < |front| { assert front[k] == m; }
    }
  }

  /** What a part of a round does to the names waited for. */
  ghost predicate RoundRemoves(p: Params, w: World, names: seq<string>, before: State, after: State) {
    && Distinct(after.total) && after.polls == before.polls + |names|
    && forall x :: x in after.total <==> x in before.total && !ShownFor(p, w, names, before.polls, x)
  }

  lemma {:induction false} NamesRemove(p: Params, w: World, st: State, names: seq<string>)
    requires Distinct(st.total) && Quiet(st) && !OnNames(st, names, p, w).raised
    ensures RoundRemoves(p, w, names, st, OnNames(st, names, p, w))
  {
    if names != [] {
      var front, last := names[..|names| - 1], names[|names| - 1];
      NamesAreLater(p, w, st, front);
      NamesRemove(p, w, st, front);
      NameRemoves(p, w, OnNames(st, front, p, w), last);
      forall x ensures ShownFor(p, w, names, st.polls, x)
                       <==> ShownFor(p, w, front, st.polls, x) || (last == x && Shown(p, w, st.polls + |names| - 1, x))
      {
        ShownForLast(p, w, names, st.polls, x);
      }
    }
  }

  /** The number of the first listing of a round. */
  function FirstPoll(p: Params, round: nat): nat {
    round * |p.toDiscover|
  }

  /** In some of the first rounds the machine was shown in a listing fetched for its name. */
  ghost predicate ShownBy(p: Params, w: World, rounds: nat, m: string) {
    exists a: nat :: a < rounds && ShownFor(p, w, p.toDiscover, FirstPoll(p, a), m)
  }

  lemma ShownByNext(p: Params, w: World, rounds: nat, m: string)
    ensures ShownBy(p, w, rounds + 1, m)
            <==> ShownBy(p, w, rounds, m) || ShownFor(p, w, p.toDiscover, FirstPoll(p, rounds), m)
  {
    if ShownBy(p, w, rounds, m) {
      var a: nat :| a < rounds && ShownFor(p, w, p.toDiscover, FirstPoll(p, a), m);
      assert a < rounds + 1;
    }
  }

  lemma {:induction false} KeptDistinct(names: seq<string>, ignored: seq<string>)
    requires Distinct(names)
    ensures Distinct(Kept(names, ignored))
  {
    if names != [] {
      KeptDistinct(names[1..], ignored);
      KeptIsPart(names[1..], ignored);
      assert forall i :: 0 < i < |names| ==> names[i] == names[1..][i - 1];
      assert names[0] !in names[1..];
    }
  }

  /** The names waited for after some rounds without a failure. */
  ghost predicate Remain(p: Params, w: World, rounds: nat, st: State) {
    && Distinct(st.total) && st.polls == FirstPoll(p, rounds)
    && forall x :: x in st.total <==> x in Kept(p.toDiscover, p.ignored) && !ShownBy(p, w, rounds, x)
  }

  lemma RemainNext(p: Params, w: World, rounds: nat, st: State, st': State)
    requires Remain(p, w, rounds, st) && RoundRemoves(p, w, p.toDiscover, st, st')
    ensures Remain(p, w, rounds + 1, st')
  {
    forall x ensures ShownBy(p, w, rounds + 1, x)
                     <==> ShownBy(p, w, rounds, x) || ShownFor(p, w, p.toDiscover, st.polls, x)
    {
      ShownByNext(p, w, rounds, x);
    }
    assert FirstPoll(p, rounds + 1) == FirstPoll(p, rounds) + |p.toDiscover|;
  }

  lemma {:induction false} RoundsRemove(p: Params, w: World, rounds: nat)
    requires Distinct(p.toDiscover) && !After(p, w, rounds).raised
    ensures Remain(p, w, rounds, After(p, w, rounds))
  {
    if rounds == 0 {
      RemainStart(p, w);
    } else {
      NotRaisedBefore(p, w, rounds - 1);
      RoundsRemove(p, w, rounds - 1);
      RoundRemains(p, w, rounds - 1, After(p, w, rounds - 1), After(p, w, rounds));
    }
  }

  lemma RemainStart(p: Params, w: World)
    requires Distinct(p.toDiscover)
    ensures Remain(p, w, 0, After(p, w, 0))
  {
    KeptDistinct(p.toDiscover, p.ignored);
  }

  lemma NotRaisedBefore(p: Params, w: World, round: nat)
    requires !After(p, w, round + 1).raised
    ensures !After(p, w, round).raised && Quiet(After(p, w, round))
    ensures After(p, w, round + 1) == OnNames(After(p, w, round), p.toDiscover, p, w)
  {
    RoundsAreLater(p, w, round, round + 1);
    RoundsAreLater(p, w, round, round);
    AfterNext(p, w, round);
  }

  lemma RoundRemains(p: Params, w: World, rounds: nat, st: State, st': State)
    requires Remain(p, w, rounds, st) && Quiet(st) && st' == OnNames(st, p.toDiscover, p, w) && !st'.raised
    ensures Remain(p, w, rounds + 1, st')
  {
    NamesRemove(p, w, st, p.toDiscover);
    RemainNext(p, w, rounds, st, st');
  }

  /** With every name given once, the wait succeeds at the end of a round exactly when no call has
      failed and every monitored machine was shown in a required status, in that round or an
      earlier one, in the very listing fetched for its own name. */
  lemma SuccessExactly(p: Params, w: World, round: nat)
    requires Distinct(p.toDiscover)
    ensures Decision(p, w, round) == Some(ReturnsTrue)
            <==> && !After(p, w, round).raised
                 && forall m <- p.toDiscover :: m !in p.ignored ==> ShownBy(p, w, round, m)
  {
    var st := After(p, w, round);
    KeptIsPart(p.toDiscover, p.ignored);
    if !st.raised {
      RoundsRemove(p, w, round);
      assert st.total != [] ==> st.total[0] in st.total;
    }
  }

  /** Every sleep lets at least `pollTime` pass. */
  ghost predicate ClockAdvances(pollTime: int, w: World) {
    && pollTime > 0
    && w.elapsed(1) >= 0
    && forall r: nat, next: nat :: r >= 1 && next == r + 1 ==> w.elapsed(next) >= w.elapsed(r) + pollTime
  }

  lemma {:induction false} ClockLowerBound(pollTime: int, w: World, round: nat)
    requires ClockAdvances(pollTime, w) && round >= 1
    ensures w.elapsed(round) >= (round - 1) * pollTime
  {
    if round > 1 {
      ClockLowerBound(pollTime, w, round - 1);
      assert (round - 1) * pollTime == (round - 2) * pollTime + pollTime;
    }
  }

  /** The time left after a round, as a bound on the rounds to come. */
  function Remaining(p: Params, w: World, round: nat): nat {
    var left := if round == 0 then p.timeout + 1 else p.timeout - w.elapsed(round);
    if left > 0 then left else 0
  }

  /** A round that decides nothing leaves time, and so bounds the number of rounds. */
  lemma UndecidedLeavesTime(p: Params, w: World, round: nat)
    requires ClockAdvances(p.pollTime, w) && round >= 1 && Decision(p, w, round) == None
    ensures w.elapsed(round) < p.timeout
    ensures (round - 1) * p.pollTime < p.timeout
    ensures Remaining(p, w, round) < Remaining(p, w, round - 1)
  {
    ClockLowerBound(p.pollTime, w, round);
  }

  lemma AfterNext(p: Params, w: World, round: nat)
    ensures After(p, w, round + 1) == OnNames(After(p, w, round), p.toDiscover, p, w)
  {
  }

  // ----- the code as written -----

  method RecoverMachine(st: State, m: string, d: Seen, w: World) returns (st': State)
    requires !st.raised && Recoverable(d.status)
    ensures st' == Recover(st, Answer(st, m, d), w)
  {
    var again := m in st.failedAttempts && st.failedAttempts[m] != 0;
    var r := Recovery(m, d.sid, d.status, if st.polls == 0 then 0 else st.polls - 1, again);
    st' := st.(pending := Some(r));
    ghost var start := st';
    if d.status.FailedCommissioning? || d.status.New? {
      st' := Issue(st', DeleteMachine(d.sid), w);
      if !st'.raised { st' := Issue(st', ProcessMachines, w); }
    } else if d.status.FailedTesting? {
      st' := Issue(st', OverrideFailedTesting(d.sid), w);
    } else {
      st' := Issue(st', MarkBroken(d.sid), w);
      if !st'.raised {
        st' := Issue(st', Sleep, w);
        st' := Issue(st', MarkFixed(d.sid), w);
        if !st'.raised && again { st' := Issue(st', CommissionFio(d.sid), w); }
        if !st'.raised { st' := Issue(st', DeployMachines, w); }
      }
    }
    PlanUnrolled(start, r, w);
    if !st'.raised {
      var count := if m in st'.failedAttempts then st'.failedAttempts[m] else 0;
      st' := st'.(failedAttempts := st'.failedAttempts[m := count + 1],
                  recovered := st'.recovered + [r], pending := None);
    }
  }

  lemma PerformStep(st: State, c: Call, rest: seq<Call>, w: World)
    requires !st.raised
    ensures Perform(st, [c] + rest, w)
            == if Issue(st, c, w).raised then Issue(st, c, w) else Perform(Issue(st, c, w), rest, w)
  {
    assert ([c] + rest)[1..] == rest;
  }

  lemma PlanUnrolled(st: State, r: Recovery, w: World)
    requires !st.raised && Recoverable(r.status)
    ensures (r.status.FailedCommissioning? || r.status.New?) ==>
              var a := Issue(st, DeleteMachine(r.sid), w);
              Perform(st, Plan(r), w) == if a.raised then a else Issue(a, ProcessMachines, w)
    ensures r.status.FailedTesting? ==> Perform(st, Plan(r), w) == Issue(st, OverrideFailedTesting(r.sid), w)
    ensures (r.status.FailedDeployment? || r.status.Allocated?) ==>
              var a := Issue(st, MarkBroken(r.sid), w);
              Perform(st, Plan(r), w) ==
                if a.raised then a
                else
                  var b := Issue(Issue(a, Sleep, w), MarkFixed(r.sid), w);
                  var c := if b.raised || !r.again then b else Issue(b, CommissionFio(r.sid), w);
                  if c.raised then c else Issue(c, DeployMachines, w)
  {
    if r.status.FailedCommissioning? || r.status.New? {
      assert Plan(r) == [DeleteMachine(r.sid)] + ([ProcessMachines] + []);
      PerformStep(st, DeleteMachine(r.sid), [ProcessMachines] + [], w);
      var a := Issue(st, DeleteMachine(r.sid), w);
      if !a.raised { PerformStep(a, ProcessMachines, [], w); }
    } else if r.status.FailedTesting? {
      assert Plan(r) == [OverrideFailedTesting(r.sid)] + [];
      PerformStep(st, OverrideFailedTesting(r.sid), [], w);
    } else {
      var tail := (if r.again then [CommissionFio(r.sid)] else []) + [DeployMachines];
      assert Plan(r) == [MarkBroken(r.sid)] + ([Sleep] + ([MarkFixed(r.sid)] + tail));
      PerformStep(st, MarkBroken(r.sid), [Sleep] + ([MarkFixed(r.sid)] + tail), w);
      var a := Issue(st, MarkBroken(r.sid), w);
      if !a.raised {
        PerformStep(a, Sleep, [MarkFixed(r.sid)] + tail, w);
        PerformStep(Issue(a, Sleep, w), MarkFixed(r.sid), tail, w);
        var b := Issue(Issue(a, Sleep, w), MarkFixed(r.sid), w);
        if !b.raised {
          RedeployTail(b, r, w);
        }
      }
    }
  }

  lemma RedeployTail(st: State, r: Recovery, w: World)
    requires !st.raised
    ensures var tail := (if r.again then [CommissionFio(r.sid)] else []) + [DeployMachines];
      var c := if !r.again then st else Issue(st, CommissionFio(r.sid), w);
      Perform(st, tail, w) == if c.raised then c else Issue(c, DeployMachines, w)
  {
    if r.again {
      PerformStep(st, CommissionFio(r.sid), [DeployMachines], w);
      assert [DeployMachines] == [DeployMachines] + [];
      var c := Issue(st, CommissionFio(r.sid), w);
      if !c.raised { PerformStep(c, DeployMachines, [], w); }
    } else {
      assert (if r.again then [CommissionFio(r.sid)] else []) + [DeployMachines] == [DeployMachines] + [];
      PerformStep(st, DeployMachines, [], w);
    }
  }

  method OneRound(st: State, p: Params, w: World) returns (st': State)
    ensures st' == OnNames(st, p.toDiscover, p, w)
  {
    st' := st;
    for i := 0 to |p.toDiscover|
      invariant st' == OnNames(st, p.toDiscover[..i], p, w)
    {
      assert p.toDiscover[..i + 1][..i] == p.toDiscover[..i];
      var m := p.toDiscover[i];
      if !st'.raised {
        var poll := w.poll(st'.polls);
        st' := st'.(polls := st'.polls + 1);
        if poll.PollError? {
          st' := st'.(raised := true);
        } else {
          st' := ScanListing(st', m, poll.machines, p, w);
        }
      }
    }
    assert p.toDiscover[..|p.toDiscover|] == p.toDiscover;
  }

  method ScanListing(st: State, m: string, machines: seq<Seen>, p: Params, w: World) returns (st': State)
    ensures st' == OnListing(st, m, machines, p, w)
  {
    st' := st;
    for i := 0 to |machines|
      invariant st' == OnListing(st, m, machines[..i], p, w)
    {
      assert machines[..i + 1][..i] == machines[..i];
      var d := machines[i];
      if !st'.raised && m == d.hostname && m in st'.total {
        if d.status in p.required {
          st' := st'.(total := Without(st'.total, m));
        } else if AttemptsLeft(st', m, p) && Recoverable(d.status) {
          st' := RecoverMachine(st', m, d, w);
        }
      }
    }
    assert machines[..|machines|] == machines;
  }

  lemma {:induction false} KeptAll(names: seq<string>)
    ensures Kept(names, []) == names
  {
    if names != [] {
      KeptAll(names[1..]);
    }
  }

  /** Decides at the first round that can be decided, within the rounds the timeout leaves room
      for; the end of the function after the loop is never reached. */
  method WaitForMachineStatus(p: Params, w: World) returns (result: Result, round: nat)
    requires ClockAdvances(p.pollTime, w)
    ensures round >= 1 && Decision(p, w, round) == Some(result) && result != FallsThrough
    ensures UndecidedUpTo(p, w, round - 1)
    ensures round == 1 || (round - 2) * p.pollTime < p.timeout
  {
    var total := p.toDiscover;
    if p.ignored != [] && total != [] {
      total := Kept(p.toDiscover, p.ignored);
    }
    KeptAll(p.toDiscover);
    var st := State(total, map[], 0, [], [], None, false);
    round := 0;
    GuardHolds(p, w, 0);
    while |st.total| <= |p.toDiscover|
      invariant st == After(p, w, round) && |st.total| <= |p.toDiscover|
      invariant UndecidedUpTo(p, w, round)
      invariant round == 0 || (round - 1) * p.pollTime < p.timeout
      decreases Remaining(p, w, round)
    {
      AfterNext(p, w, round);
      st := OneRound(st, p, w);
      round := round + 1;
      GuardHolds(p, w, round);
      DecisionFor(p, w, round, st);
      if st.raised { return Raises, round; }
      if |st.total| <= 0 { return ReturnsTrue, round; }
      if p.timeout - w.elapsed(round) <= 0 { return Raises, round; }
      UndecidedLeavesTime(p, w, round);
    }
    assert false;
  }

  ghost predicate UndecidedUpTo(p: Params, w: World, round: nat) {
    forall r :: 1 <= r <= round ==> Decision(p, w, r) == None
  }

  lemma DecisionFor(p: Params, w: World, round: nat, st: State)
    requires st == After(p, w, round)
    ensures Decision(p, w, round) ==
            if st.raised then Some(Raises)
            else if |st.total| <= 0 then Some(ReturnsTrue)
            else if p.timeout - w.elapsed(round) <= 0 then Some(Raises)
            else None
    ensures round >= 1 && UndecidedUpTo(p, w, round - 1) && Decision(p, w, round) == None ==> UndecidedUpTo(p, w, round)
  {
  }

  /** Defaults: without machines, those of the configuration; without a configuration, success. */
  method Wait(machines: Option<seq<string>>, configured: Option<seq<string>>, ignored: seq<string>,
              timeout: int, pollTime: int, reqStatus: string, attempts: int, w: World)
    returns (result: Result, round: nat)
    requires ClockAdvances(pollTime, w)
    ensures var given := machines.Some? && machines.value != [];
      if !given && configured.None? then result == ReturnsTrue
      else
        var names := if given then machines.value else configured.value;
        var p := Params(timeout, pollTime, RequestedStatuses(reqStatus), names, ignored, attempts);
        Decision(p, w, round) == Some(result)
  {
    var toDiscover: seq<string>;
    if machines.Some? && machines.value != [] {
      toDiscover := machines.value;
    } else if configured.None? {
      return ReturnsTrue, 0;
    } else {
      toDiscover := configured.value;
    }
    result, round := WaitForMachineStatus(
      Params(timeout, pollTime, RequestedStatuses(reqStatus), toDiscover, ignored, attempts), w);
  }
}
