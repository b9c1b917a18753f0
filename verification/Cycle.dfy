/**
 One scheduling cycle: `runCycle` takes jobs from the iterator, looks for a node, dispatches or
 records the job as blocked, and goes on until the jobs, a limit or strict ordering stop it. What
 it decides is kept as a log, and what a cycle guarantees is proved of every legal log.
 */
module Cycle {
  import opened Decimal
  import opened Placement
  import opened JobIterator
  import opened CycleHistory

  /** A job was dispatched, found no node, or found one and was refused by the server. */
  datatype Decision =
    | Place(pos: Pos, job: Job, node: nat)
    | Block(pos: Pos, job: Job)
    | Refuse(pos: Pos, job: Job, node: nat)

  predicate InBounds(queues: seq<Queue>, p: Pos) { p.0 < |queues| && p.1 < |queues[p.0].jobs| }

  function JobAt(queues: seq<Queue>, p: Pos): Job
    requires InBounds(queues, p)
  {
    queues[p.0].jobs[p.1]
  }

  function Placements(log: seq<Decision>): seq<Placed> {
    if log == [] then []
    else
      var m := |log| - 1;
      Placements(log[..m]) + if log[m].Place? then [Placed(log[m].pos, log[m].job, log[m].node)] else []
  }

  function BlockedJobs(log: seq<Decision>): seq<Job> {
    if log == [] then []
    else BlockedJobs(log[..|log| - 1]) + if log[|log| - 1].Block? then [log[|log| - 1].job] else []
  }

  function Decided(log: seq<Decision>): set<Pos> {
    if log == [] then {} else Decided(log[..|log| - 1]) + {log[|log| - 1].pos}
  }

  function BlockedSet(log: seq<Decision>): set<Pos> {
    if log == [] then {}
    else BlockedSet(log[..|log| - 1]) + if log[|log| - 1].Block? then {log[|log| - 1].pos} else {}
  }

  function NodesAfter(start: seq<Node>, log: seq<Decision>): seq<Node> { ApplyAll(start, Placements(log)) }

  /** The next decision is about an undecided job of an eligible queue and right for the nodes as they stand. */
  ghost predicate Right(cfg: Config, queues: seq<Queue>, nodes: seq<Node>, decided: set<Pos>, d: Decision) {
    && d.pos in AllJobs(queues) && d.pos !in decided && d.job == JobAt(queues, d.pos)
    && match d
       case Place(_, _, k) => Best(cfg, queues, nodes, d.job, k)
       case Refuse(_, _, k) => Best(cfg, queues, nodes, d.job, k)
       case Block(_, _) => Blocked(queues, nodes, d.job)
  }

  ghost predicate Legal(cfg: Config, queues: seq<Queue>, start: seq<Node>, log: seq<Decision>) {
    log == [] ||
    var m := |log| - 1;
    && Legal(cfg, queues, start, log[..m])
    && Right(cfg, queues, NodesAfter(start, log[..m]), Decided(log[..m]), log[m])
  }

  // ---------------------------------------------------------------- what every legal log guarantees

  lemma {:induction false} LegalAt(cfg: Config, queues: seq<Queue>, start: seq<Node>, log: seq<Decision>, i: nat)
    requires Legal(cfg, queues, start, log) && i < |log|
    ensures Right(cfg, queues, NodesAfter(start, log[..i]), Decided(log[..i]), log[i])
  {
    var before := log[..|log| - 1];
    if i < |before| {
      LegalAt(cfg, queues, start, before, i);
      assert before[..i] == log[..i] && before[i] == log[i];
    } else {
      assert before == log[..i];
    }
  }

  lemma {:induction false} DecidedHas(log: seq<Decision>, i: nat)
    requires i < |log|
    ensures log[i].pos in Decided(log)
  {
    var m := |log| - 1;
    if i < m { DecidedHas(log[..m], i); }
  }

  lemma {:induction false} DecidedOnlyLogged(log: seq<Decision>, p: Pos) returns (i: nat)
    requires p in Decided(log)
    ensures i < |log| && log[i].pos == p
  {
    var m := |log| - 1;
    if log[m].pos == p { i := m; } else { i := DecidedOnlyLogged(log[..m], p); }
  }

  lemma {:induction false} BlockedAreDecided(log: seq<Decision>)
    ensures BlockedSet(log) <= Decided(log)
  {
    if log != [] { BlockedAreDecided(log[..|log| - 1]); }
  }

  /** Every job that found a node was accepted. */
  ghost predicate NoRefusal(log: seq<Decision>) { forall i :: 0 <= i < |log| ==> !log[i].Refuse? }

  lemma Appended(log: seq<Decision>, d: Decision)
    ensures Decided(log + [d]) == Decided(log) + {d.pos}
    ensures BlockedSet(log + [d]) == BlockedSet(log) + if d.Block? then {d.pos} else {}
    ensures NoRefusal(log) && !d.Refuse? ==> NoRefusal(log + [d])
  {
    assert (log + [d])[..|log|] == log;
  }

  lemma LegalAppended(cfg: Config, queues: seq<Queue>, start: seq<Node>, log: seq<Decision>, d: Decision)
    requires Legal(cfg, queues, start, log) && Right(cfg, queues, NodesAfter(start, log), Decided(log), d)
    ensures Legal(cfg, queues, start, log + [d])
  {
    assert (log + [d])[..|log|] == log;
  }

  lemma BlockAppended(cfg: Config, queues: seq<Queue>, start: seq<Node>, log: seq<Decision>, d: Decision)
    requires Legal(cfg, queues, start, log) && Right(cfg, queues, NodesAfter(start, log), Decided(log), d) && d.Block?
    ensures Legal(cfg, queues, start, log + [d]) && Placements(log + [d]) == Placements(log)
    ensures Pending(queues, BlockedJobs(log + [d])) == AddDemand(queues, Pending(queues, BlockedJobs(log)), d.job)
  {
    LegalAppended(cfg, queues, start, log, d);
    assert (log + [d])[..|log|] == log;
    var js := BlockedJobs(log) + [d.job];
    assert js[..|js| - 1] == BlockedJobs(log);
  }

  lemma RefuseAppended(cfg: Config, queues: seq<Queue>, start: seq<Node>, log: seq<Decision>, d: Decision)
    requires Legal(cfg, queues, start, log) && Right(cfg, queues, NodesAfter(start, log), Decided(log), d) && d.Refuse?
    ensures Legal(cfg, queues, start, log + [d]) && Placements(log + [d]) == Placements(log)
    ensures BlockedJobs(log + [d]) == BlockedJobs(log)
  {
    LegalAppended(cfg, queues, start, log, d);
    assert (log + [d])[..|log|] == log;
  }

  lemma PlaceAppended(cfg: Config, queues: seq<Queue>, start: seq<Node>, log: seq<Decision>, d: Decision)
    requires Legal(cfg, queues, start, log) && Right(cfg, queues, NodesAfter(start, log), Decided(log), d) && d.Place?
    ensures Legal(cfg, queues, start, log + [d]) && BlockedJobs(log + [d]) == BlockedJobs(log)
    ensures |Placements(log + [d])| == |Placements(log)| + 1
    ensures NodesAfter(start, log + [d]) == DebitAt(NodesAfter(start, log), d.node, d.job)
  {
    LegalAppended(cfg, queues, start, log, d);
    assert (log + [d])[..|log|] == log;
    var ps := Placements(log) + [Placed(d.pos, d.job, d.node)];
    assert ps[..|ps| - 1] == Placements(log);
  }

  /** No job is decided twice. */
  lemma DecidedOnce(cfg: Config, queues: seq<Queue>, start: seq<Node>, log: seq<Decision>, a: nat, b: nat)
    requires Legal(cfg, queues, start, log) && a < b < |log|
    ensures log[a].pos != log[b].pos
  {
    LegalAt(cfg, queues, start, log, b);
    DecidedHas(log[..b], a);
  }

  /** The dispatches of a legal log each took the best node of their moment. */
  lemma {:induction false} LegalIsHistory(cfg: Config, queues: seq<Queue>, start: seq<Node>, log: seq<Decision>)
    requires Legal(cfg, queues, start, log)
    ensures History(cfg, queues, start, Placements(log))
  {
    if log != [] {
      var m := |log| - 1;
      LegalIsHistory(cfg, queues, start, log[..m]);
      if log[m].Place? {
        var ps := Placements(log);
        assert ps[..|ps| - 1] == Placements(log[..m]);
      } else {
        assert Placements(log) == Placements(log[..m]);
      }
    }
  }

  lemma {:induction false} PlacementsGrow(log: seq<Decision>, i: nat)
    requires i <= |log|
    ensures |Placements(log[..i])| <= |Placements(log)|
    ensures Placements(log)[..|Placements(log[..i])|] == Placements(log[..i])
  {
    var m := |log| - 1;
    if i == |log| {
      assert log[..i] == log;
    } else {
      PlacementsGrow(log[..m], i);
      assert log[..m][..i] == log[..i];
    }
  }

  /** A job recorded as blocked is still blocked at the end, if no dispatched job asked for fewer than zero CPUs. */
  lemma BlockedAtEnd(cfg: Config, queues: seq<Queue>, start: seq<Node>, log: seq<Decision>, i: nat)
    requires Legal(cfg, queues, start, log) && NonNegative(Placements(log))
    requires i < |log| && log[i].Block?
    ensures Blocked(queues, NodesAfter(start, log), log[i].job)
  {
    LegalAt(cfg, queues, start, log, i);
    PlacementsGrow(log, i);
    BlockedLater(queues, start, Placements(log), |Placements(log[..i])|, log[i].job);
  }

  /** Job `p` was dispatched, was refused by the server, or has no feasible node among `nodes`. */
  ghost predicate Settled(queues: seq<Queue>, nodes: seq<Node>, log: seq<Decision>, p: Pos) {
    || (exists i :: 0 <= i < |log| && log[i].pos == p && !log[i].Block?)
    || (InBounds(queues, p) && Blocked(queues, nodes, JobAt(queues, p)))
  }

  /**
   The cycle is maximal: once every job of an eligible queue has been decided, no undispatched one
   has a feasible node, jobs for several nodes and jobs of exclusive queues included, except where
   the server refused the dispatch.
   */
  lemma Maximal(cfg: Config, queues: seq<Queue>, start: seq<Node>, log: seq<Decision>, p: Pos)
    requires Legal(cfg, queues, start, log) && NonNegative(Placements(log))
    requires Decided(log) == AllJobs(queues) && p in AllJobs(queues)
    ensures Settled(queues, NodesAfter(start, log), log, p)
  {
    var i := DecidedOnlyLogged(log, p);
    if log[i].Block? {
      LegalAt(cfg, queues, start, log, i);
      BlockedAtEnd(cfg, queues, start, log, i);
    }
  }

  lemma AllSettled(cfg: Config, queues: seq<Queue>, start: seq<Node>, log: seq<Decision>)
    requires Legal(cfg, queues, start, log) && Decided(log) == AllJobs(queues)
    ensures NonNegative(Placements(log)) ==>
              forall p :: p in AllJobs(queues) ==> Settled(queues, NodesAfter(start, log), log, p)
  {
    if NonNegative(Placements(log)) {
      forall p | p in AllJobs(queues) ensures Settled(queues, NodesAfter(start, log), log, p) {
        Maximal(cfg, queues, start, log, p);
      }
    }
  }

  // ---------------------------------------------------------------- the cycle

  datatype Progress = Exhausted | Stopped | Went | Hung

  /** How a cycle ends: through all jobs, stopped by a limit or strict ordering, or not at all. */
  datatype Ending = Complete | Halted | Hangs

  class Cycle {
    const cfg: Config
    const queues: seq<Queue>
    const it: JobIterator
    var nodes: seq<Node>
    var pendingCap: map<string, CapacityEvent>
    var dispatched: nat
    ghost const start: seq<Node>
    ghost var log: seq<Decision>

    constructor (cfg: Config, queues: seq<Queue>, nodes: seq<Node>)
      ensures Valid() && fresh(it) && this.cfg == cfg && this.queues == queues && this.nodes == nodes && start == nodes
      ensures log == [] && dispatched == 0
    {
      this.cfg := cfg;
      this.queues := queues;
      this.it := new JobIterator(queues, cfg.roundRobin);
      this.nodes := nodes;
      this.start := nodes;
      this.log := [];
      this.pendingCap := map[];
      this.dispatched := 0;
    }

    /** The fields are what the log says, and the log has decided what the iterator has returned. */
    ghost predicate Valid()
      reads this, it
    {
      Logged() && InStep(Decided(log))
    }

    /** The iterator runs over this cycle's queues and `gone` is what it has returned. */
    ghost predicate InStep(gone: set<Pos>)
      reads this, it
    {
      && it.Valid() && it.queues == queues && it.roundRobin == cfg.roundRobin
      && it.cannotRun == BlockedSet(log)
      && gone == AllJobs(queues) - it.Remaining()
    }

    ghost predicate Logged()
      reads this
    {
      && Legal(cfg, queues, start, log)
      && nodes == NodesAfter(start, log)
      && pendingCap == Pending(queues, BlockedJobs(log))
      && dispatched == |Placements(log)|
    }

    /** No node: in a cloud-backed queue, add the job's demand. Tells whether strict ordering ends the cycle. */
    method NoNode(p: Pos) returns (stop: bool)
      requires Logged() && p in AllJobs(queues) && p !in Decided(log)
      requires Blocked(queues, nodes, JobAt(queues, p))
      modifies this
      ensures Logged() && log == old(log) + [Block(p, JobAt(queues, p))] && dispatched == old(dispatched)
      ensures stop <==> !CloudQueue(queues, JobAt(queues, p).queue) && cfg.strictFIFO && !cfg.backfill
    {
      var j := JobAt(queues, p);
      BlockAppended(cfg, queues, start, log, Block(p, j));
      log := log + [Block(p, j)];
      pendingCap := AddDemand(queues, pendingCap, j);
      stop := !CloudQueue(queues, j.queue) && cfg.strictFIFO && !cfg.backfill;
    }

    /** A node was found: if the server takes the job, debit the node. */
    method Dispatch(p: Pos, k: nat, accepted: bool)
      requires Logged() && p in AllJobs(queues) && p !in Decided(log)
      requires Best(cfg, queues, nodes, JobAt(queues, p), k)
      modifies this
      ensures Logged() && dispatched <= old(dispatched) + 1
      ensures log == old(log) + [if accepted then Place(p, JobAt(queues, p), k) else Refuse(p, JobAt(queues, p), k)]
    {
      var j := JobAt(queues, p);
      if accepted {
        PlaceAppended(cfg, queues, start, log, Place(p, j, k));
        log := log + [Place(p, j, k)];
        nodes := nodes[k := Debit(nodes[k], j)];
        dispatched := dispatched + 1;
      } else {
        RefuseAppended(cfg, queues, start, log, Refuse(p, j, k));
        log := log + [Refuse(p, j, k)];
      }
    }

    /** What the loop does with one job: look for a node, then dispatch it or set it aside. */
    method Decide(p: Pos, accepted: bool) returns (blocked: bool, stop: bool)
      requires Logged() && p in AllJobs(queues) && p !in Decided(log)
      modifies this
      ensures Logged() && dispatched <= old(dispatched) + 1
      ensures Decided(log) == old(Decided(log)) + {p}
      ensures BlockedSet(log) == old(BlockedSet(log)) + if blocked then {p} else {}
      ensures stop ==> cfg.strictFIFO && !cfg.backfill
      ensures accepted && old(NoRefusal(log)) ==> NoRefusal(log)
    {
      var node := FindNodeForJob(cfg, queues, nodes, JobAt(queues, p));
      ghost var j := JobAt(queues, p);
      if node.Some? {
        Appended(log, if accepted then Place(p, j, node.value) else Refuse(p, j, node.value));
        Dispatch(p, node.value, accepted);
        blocked, stop := false, false;
      } else {
        Appended(log, Block(p, j));
        stop := NoNode(p);
        blocked := true;
      }
    }

    /** Takes the next job from the iterator. */
    method Take() returns (next: Option<Pos>)
      requires Valid() && !(cfg.roundRobin && it.Stuck())
      modifies it
      ensures next.None? ==> InStep(Decided(log)) && it.Remaining() == {}
      ensures next.Some? ==> next.value in AllJobs(queues) && next.value !in Decided(log)
      ensures next.Some? ==> InStep(Decided(log) + {next.value}) && it.Remaining() < old(it.Remaining())
    {
      BlockedAreDecided(log);
      assert it.Remaining() !! it.cannotRun;
      next := it.Next();
    }

    /** Decides the job just taken and sets `CanNotRun` on it if it found no node. */
    method Settle(p: Pos, accepted: bool) returns (stop: bool)
      requires Logged() && p in AllJobs(queues) && p !in Decided(log) && InStep(Decided(log) + {p})
      modifies this, it`cannotRun
      ensures Valid() && it.Remaining() == old(it.Remaining())
      ensures stop ==> cfg.strictFIFO && !cfg.backfill
      ensures accepted && old(NoRefusal(log)) ==> NoRefusal(log)
      ensures dispatched <= old(dispatched) + 1
    {
      var blocked;
      blocked, stop := Decide(p, accepted);
      if blocked { it.Flag(p); }
    }

    /** One turn of the loop of `runCycle`. */
    method Step(accepted: bool) returns (r: Progress)
      requires Valid()
      modifies this, it
      ensures Valid()
      ensures r.Hung? ==> cfg.roundRobin && !OnlyEligibleHold(queues)
      ensures r.Exhausted? ==> !(cfg.roundRobin && !OnlyEligibleHold(queues))
      ensures r.Exhausted? || r.Hung? ==> it.Remaining() == {}
      ensures r.Stopped? ==> cfg.strictFIFO && !cfg.backfill
      ensures r.Went? ==> it.Remaining() < old(it.Remaining())
      ensures accepted && old(NoRefusal(log)) ==> NoRefusal(log)
      ensures dispatched <= old(dispatched) + 1
    {
      var hung := it.Hangs();
      Unflagged();
      if hung { return Hung; }
      var next := Take();
      if next.None? { return Exhausted; }
      var stop := Settle(next.value, accepted);
      return if stop then Stopped else Went;
    }

    /** No job that remains is flagged. */
    lemma Unflagged()
      requires Valid()
      ensures it.Remaining() !! it.cannotRun
      ensures it.Stuck() <==> it.Remaining() == {} && !OnlyEligibleHold(queues)
    {
      BlockedAreDecided(log);
    }

    /**
     `runCycle` from the first job on. `accepts` and `timeUp` stand for the server's answers and the
     clock, by attempt. In round-robin mode with jobs in an ineligible queue the cycle makes all its
     decisions and then does not return.
     */
    method Run(limited: bool, maxAttempt: int, maxStarts: int, accepts: nat -> bool, timeUp: nat -> bool)
      returns (end: Ending)
      requires Valid() && log == [] && dispatched == 0
      modifies this, it
      ensures Valid()
      ensures !end.Halted? ==> Decided(log) == AllJobs(queues)
      ensures !end.Halted? && NonNegative(Placements(log)) ==>
                forall p :: p in AllJobs(queues) ==> Settled(queues, nodes, log, p)
      ensures !end.Halted? ==> (end.Hangs? <==> cfg.roundRobin && !OnlyEligibleHold(queues))
      ensures !limited && (!cfg.strictFIFO || cfg.backfill) ==> !end.Halted?
      ensures (forall n :: accepts(n)) ==> NoRefusal(log)
      ensures limited && maxStarts > 0 ==> dispatched <= maxStarts
    {
      end := Halted;
      var attempt, go := 0, true;
      while go
        invariant Valid()
        invariant (forall n :: accepts(n)) ==> NoRefusal(log)
        invariant limited && maxStarts > 0 ==> dispatched <= maxStarts && (go ==> dispatched < maxStarts)
        invariant !end.Halted? ==> it.Remaining() == {} && (end.Hangs? <==> cfg.roundRobin && !OnlyEligibleHold(queues))
        invariant go || !end.Halted? || limited || (cfg.strictFIFO && !cfg.backfill)
        decreases if go then 1 else 0, it.Remaining()
      {
        if limited && ((maxAttempt > 0 && attempt >= maxAttempt) || timeUp(attempt)) {
          go := false;
        } else {
          var r := Step(accepts(attempt));
          end := if r.Exhausted? then Complete else if r.Hung? then Hangs else Halted;
          go := r.Went? && !(limited && maxStarts > 0 && dispatched >= maxStarts);
          attempt := attempt + 1;
        }
      }
      if !end.Halted? { AllSettled(cfg, queues, start, log); }
    }
  }
}
