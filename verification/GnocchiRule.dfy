/** `archive_policy_rule_present` of mcp/salt-formulas/salt-formula-gnocchi/_states/gnocchiv1.py:
    a rule that differs from the requested one is deleted and created again, and every call can
    fail, before or after it took effect. */
module GnocchiRule {
  import opened Common

  datatype Rule = Rule(policy: string, pattern: string)

  /** `EmptyReply` stands for a reply without content. */
  datatype ReadReply = Found(rule: Rule) | NotFound | EmptyReply | ReadError

  datatype Result = Created | Updated | NoChanges | CreateFailed | UpdateFailed | FindFailed | Raised

  /** What the state reports as `result`. */
  predicate Success(r: Result) {
    r.Created? || r.Updated? || r.NoChanges?
  }

  /** Behaviour of the environment during one run. */
  datatype World = World(readFails: bool, emptyReply: bool, delete: Fault, create: Fault)

  const CLEAN := World(false, false, Served, Served)

  class RuleServer {
    var stored: Option<Rule>

    constructor (stored: Option<Rule>)
      ensures this.stored == stored
    {
      this.stored := stored;
    }

    method Read(w: World) returns (reply: ReadReply)
      ensures reply == ReadOf(stored, w)
    {
      reply := ReadOf(stored, w);
    }

    method Delete(w: World) returns (ok: bool)
      modifies this
      ensures stored == (if w.delete == Refused then old(stored) else None) && ok == (w.delete == Served)
    {
      if w.delete != Refused { stored := None; }
      ok := w.delete == Served;
    }

    /** A rule name can be taken only once. */
    method Create(rule: Rule, w: World) returns (ok: bool)
      modifies this
      ensures stored == (if w.create == Refused || old(stored).Some? then old(stored) else Some(rule))
      ensures ok == (w.create == Served && old(stored).None?)
    {
      ok := w.create == Served && stored.None?;
      if w.create != Refused && stored.None? { stored := Some(rule); }
    }

    method RulePresent(wanted: Rule, w: World) returns (r: Result)
      modifies this
      ensures (stored, r) == Run(old(stored), wanted, w)
    {
      var reply := Read(w);
      if reply.ReadError? { return Raised; }
      if reply.NotFound? {
        var ok := Create(wanted, w);
        return if ok then Created else CreateFailed;
      }
      if reply.EmptyReply? { return FindFailed; }
      if reply.rule.policy != wanted.policy || reply.rule.pattern != wanted.pattern {
        var ok := Delete(w);
        if !ok { return UpdateFailed; }
        ok := Create(wanted, w);
        return if ok then Updated else UpdateFailed;
      }
      r := NoChanges;
    }
  }

  function ReadOf(stored: Option<Rule>, w: World): ReadReply {
    if w.readFails then ReadError
    else if stored.None? then NotFound
    else if w.emptyReply then EmptyReply
    else Found(stored.value)
  }

  /** One run, as a function of what is stored and of how the calls fare. */
  function Run(stored: Option<Rule>, wanted: Rule, w: World): (Option<Rule>, Result) {
    match ReadOf(stored, w)
    case ReadError => (stored, Raised)
    case EmptyReply => (stored, FindFailed)
    case NotFound =>
      (if w.create == Refused then None else Some(wanted), if w.create == Served then Created else CreateFailed)
    case Found(rule) =>
      if rule == wanted then (stored, NoChanges)
      else if w.delete != Served then (if w.delete == Refused then stored else None, UpdateFailed)
      else (if w.create == Refused then None else Some(wanted), if w.create == Served then Updated else UpdateFailed)
  }

  function RunAll(stored: Option<Rule>, wanted: Rule, worlds: seq<World>): Option<Rule> {
    if worlds == [] then stored
    else Run(RunAll(stored, wanted, worlds[..|worlds| - 1]), wanted, worlds[|worlds| - 1]).0
  }

  /** The k-th of several runs. */
  function RunAt(stored: Option<Rule>, wanted: Rule, worlds: seq<World>, k: nat): (Option<Rule>, Result)
    requires k < |worlds|
  {
    Run(RunAll(stored, wanted, worlds[..k]), wanted, worlds[k])
  }

  lemma RunAtFront(stored: Option<Rule>, wanted: Rule, worlds: seq<World>, k: nat)
    requires k < |worlds| - 1
    ensures RunAt(stored, wanted, worlds[..|worlds| - 1], k) == RunAt(stored, wanted, worlds, k)
  {
    assert worlds[..|worlds| - 1][..k] == worlds[..k];
  }

  /** A run that reports success at any point of a history settles the matter: the requested rule
      is stored then and after all later runs, whatever fails in them, and every later run that can
      read it reports no changes. A run without failures is such a run, from any state. */
  lemma {:induction false} Converges(stored: Option<Rule>, wanted: Rule, worlds: seq<World>, k: nat)
    requires k < |worlds|
    ensures var (after, r) := RunAt(stored, wanted, worlds, k);
      && (worlds[k] == CLEAN ==> Success(r))
      && (Success(r) ==> after == Some(wanted) && RunAll(stored, wanted, worlds) == Some(wanted))
      && (Success(r) ==> forall j | k < j < |worlds| && !worlds[j].readFails && !worlds[j].emptyReply ::
            RunAt(stored, wanted, worlds, j) == (Some(wanted), NoChanges))
    decreases |worlds|
  {
    var n := |worlds| - 1;
    if k < n {
      var front := worlds[..n];
      Converges(stored, wanted, front, k);
      RunAtFront(stored, wanted, worlds, k);
      forall j | k < j < n ensures RunAt(stored, wanted, front, j) == RunAt(stored, wanted, worlds, j) {
        RunAtFront(stored, wanted, worlds, j);
      }
    }
  }

  /** The run brings in the requested rule where it was not. */
  predicate Brings(stored: Option<Rule>, wanted: Rule, w: World) {
    && !w.readFails && w.create != Refused
    && (stored.None? || (stored.value != wanted && !w.emptyReply && w.delete == Served))
  }

  predicate BringsAt(stored: Option<Rule>, wanted: Rule, worlds: seq<World>, k: nat) {
    k < |worlds| && Brings(RunAll(stored, wanted, worlds[..k]), wanted, worlds[k])
  }

  lemma BringsAtFront(stored: Option<Rule>, wanted: Rule, worlds: seq<World>, k: nat)
    requires k < |worlds| - 1
    ensures BringsAt(stored, wanted, worlds[..|worlds| - 1], k) == BringsAt(stored, wanted, worlds, k)
  {
    var front := worlds[..|worlds| - 1];
    assert front[..k] == worlds[..k];
  }

  lemma LastRun(stored: Option<Rule>, wanted: Rule, worlds: seq<World>)
    requires worlds != []
    ensures RunAll(stored, wanted, worlds) == Some(wanted)
            <==> RunAll(stored, wanted, worlds[..|worlds| - 1]) == Some(wanted)
                 || BringsAt(stored, wanted, worlds, |worlds| - 1)
  {
  }

  /** The requested rule is stored in the end exactly when it was there or some run brought it in;
      no later run can lose it. */
  lemma {:induction false} StoredExactly(stored: Option<Rule>, wanted: Rule, worlds: seq<World>)
    ensures RunAll(stored, wanted, worlds) == Some(wanted)
            <==> stored == Some(wanted) || exists k: nat :: BringsAt(stored, wanted, worlds, k)
  {
    if worlds != [] {
      var n := |worlds| - 1;
      StoredExactly(stored, wanted, worlds[..n]);
      LastRun(stored, wanted, worlds);
      if k: nat :| BringsAt(stored, wanted, worlds[..n], k) { BringsAtFront(stored, wanted, worlds, k); }
      if k: nat :| BringsAt(stored, wanted, worlds, k) {
        if k < n { BringsAtFront(stored, wanted, worlds, k); }
      }
    }
  }

  /** What a run reports, for every result: each of them exactly when it should. */
  lemma ReportsExactly(stored: Option<Rule>, wanted: Rule, w: World)
    ensures var r := Run(stored, wanted, w).1;
      var differs := stored.Some? && (stored.value.policy != wanted.policy || stored.value.pattern != wanted.pattern);
      && (r == Raised <==> w.readFails)
      && (r == FindFailed <==> !w.readFails && stored.Some? && w.emptyReply)
      && (r == NoChanges <==> !w.readFails && !w.emptyReply && stored == Some(wanted))
      && (r == Created <==> !w.readFails && stored == None && w.create == Served)
      && (r == CreateFailed <==> !w.readFails && stored == None && w.create != Served)
      && (r == Updated <==> !w.readFails && !w.emptyReply && differs && w.delete == Served && w.create == Served)
      && (r == UpdateFailed <==>
            !w.readFails && !w.emptyReply && differs && !(w.delete == Served && w.create == Served))
  {
  }

  /** What a run leaves stored: a rule that could not be read, or is the wanted one, stays; else the
      wanted rule, or none if it was deleted and not created. */
  lemma LeavesExactly(stored: Option<Rule>, wanted: Rule, w: World)
    ensures var after := Run(stored, wanted, w).0;
      if w.readFails || (stored.Some? && (w.emptyReply || stored.value == wanted)) then after == stored
      else if stored.Some? && w.delete == Refused then after == stored
      else if stored.Some? && w.delete == Dropped then after == None
      else after == if w.create == Refused then None else Some(wanted)
  {
  }

  /** What a run can do to the stored rule: keep it, lose it, or bring in the requested one; and
      it loses a rule only while replacing a different one, which it then reports as failed. */
  lemma {:induction false} OnlyWantedOrOld(stored: Option<Rule>, wanted: Rule, worlds: seq<World>)
    ensures RunAll(stored, wanted, worlds) in {stored, None, Some(wanted)}
    ensures stored == Some(wanted) ==> RunAll(stored, wanted, worlds) == stored
  {
    if worlds != [] {
      OnlyWantedOrOld(stored, wanted, worlds[..|worlds| - 1]);
    }
  }

  /** The gap: exactly when a run that found a different rule ends without any. */
  lemma LosesRuleExactly(rule: Rule, wanted: Rule, w: World)
    ensures Run(Some(rule), wanted, w).0 == None <==>
            !w.readFails && !w.emptyReply && rule != wanted
            && (w.delete == Dropped || (w.delete == Served && w.create == Refused))
    ensures Run(Some(rule), wanted, w).0 == None ==> Run(Some(rule), wanted, w).1 == UpdateFailed
  {
  }
}
