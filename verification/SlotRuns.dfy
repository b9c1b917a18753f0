/** Runs of the server: every request it takes, and what every state of a run keeps. */
module SlotRuns {
  import opened Listing
  import opened SlotLedger
  import opened SlotSteps
  import R = Recovery
  import NS = NodeState

  datatype Request =
    | Submit(id: string, job: Job)
    | RunJob(id: string, hosts: seq<string>, slots: nat)
    | JobObit(raw: string, id: string)
    | DeleteJob(raw: string, id: string)
    | RerunJob(id: string)
    | Down(nm: string)
    | Undo(id: string, slots: nat, nm: string)
    | Reclaim(id: string)
    | RewriteJob(id: string, job: Job)
    | SetSlots(nm: string, procs: int, np: int)
    | SetFlags(nm: string, flags: set<NS.Flag>)
    | Report(nm: string, recognised: bool, flags: set<NS.Flag>)
    | AddNode(nm: string, np: int)
    | RemoveNode(nm: string)

  /** What the server has established when it makes the change. */
  ghost predicate Possible(w: World, r: Request) {
    match r
    case Submit(id, j) => id !in w.jobs && j.state != Running
    case RunJob(id, hosts, slots) =>
      && id in w.jobs && (w.jobs[id].state == Queued || w.jobs[id].state == Provisioning)
      && hosts != [] && NoDup(hosts) && (forall h :: h in hosts ==> h in w.nodes)
    case JobObit(raw, id) => id in w.jobs && (raw == id || raw !in w.jobs)
    case DeleteJob(raw, id) => id in w.jobs && (raw == id || raw !in w.jobs)
    case RerunJob(id) => id in w.jobs
    case Down(nm) => true
    case Undo(id, slots, nm) => nm in w.nodes && slots >= 1 && (id in w.jobs ==> slots == w.jobs[id].cpus)
    case Reclaim(id) => R.Recovered(w.jobs, id) && w.jobs[id].hosts[0] in w.nodes
    case RewriteJob(id, j) => id in w.jobs && (j.state == Running ==> w.jobs[id].state == Running)
    case SetSlots(nm, _, _) => nm in w.nodes
    case SetFlags(nm, _) => nm in w.nodes
    case Report(nm, _, _) => nm in w.nodes
    case AddNode(_, _) => true
    case RemoveNode(_) => true
  }

  function Apply(w: World, r: Request): World
    requires Possible(w, r)
  {
    match r
    case Submit(id, j) => w.(jobs := w.jobs[id := j])
    case RunJob(id, hosts, slots) => Start(w, id, hosts, slots)
    case JobObit(raw, id) => Obit(w, raw, id)
    case DeleteJob(raw, id) => Delete(w, raw, id)
    case RerunJob(id) => Rerun(w, id)
    case Down(nm) => NodeDown(w, nm)
    case Undo(id, slots, nm) => Requeue(w, id, slots, nm)
    case Reclaim(id) => R.Requeue(w, id)
    case RewriteJob(id, j) => Rewrite(w, id, j)
    case SetSlots(nm, procs, np) => PutNode(w, nm, w.nodes[nm].(numProcs := procs, slotsTotal := np))
    case SetFlags(nm, flags) => PutNode(w, nm, w.nodes[nm].(flags := flags))
    case Report(nm, recognised, flags) => PutNode(w, nm, Reported(w.nodes[nm], recognised, flags))
    case AddNode(nm, np) => Enrol(w, nm, np)
    case RemoveNode(nm) => w.(nodes := w.nodes - {nm})
  }

  /** The requests the ledger survives. */
  ghost predicate Proper(w: World, r: Request) {
    match r
    case Submit(id, j) => JobOk(j)
    case RunJob(id, hosts, slots) => id in w.jobs && slots == w.jobs[id].cpus
    case JobObit(raw, id) =>
      forall h :: KnownHost(w, id, h) ==> if w.jobs[id].state == Running then raw == id else w.nodes[h].listed == []
    case DeleteJob(raw, id) => forall h :: KnownHost(w, id, h) && w.jobs[id].state == Running ==> raw == id
    case RerunJob(id) =>
      id in w.jobs && w.jobs[id].state == Running ==>
        forall i :: 1 <= i < |w.jobs[id].hosts| ==> w.jobs[id].hosts[i] !in w.nodes
    case Down(nm) => nm in w.nodes ==> forall id :: id in w.nodes[nm].listed ==> RunsAtMostOn(w, id, nm)
    case Undo(id, slots, nm) =>
      nm in w.nodes && RunsAtMostOn(w, id, nm) && (RunsOn(w.jobs, id, nm) || w.nodes[nm].listed == [])
    case Reclaim(id) => id in w.jobs && R.GivesBackRight(w, id)
    case RewriteJob(id, j) => id in w.jobs && JobOk(j) && SameOnNodes(w, id, j)
    case AddNode(nm, np) => nm in w.nodes || forall id :: !RunsOn(w.jobs, id, nm)
    case _ => true
  }

  /** A new job keeps the ledger if and only if it asks for a CPU and its attributes name no host twice. */
  lemma SubmitKeepsLedgerIff(w: World, id: string, j: Job)
    requires Ledger(w) && Possible(w, Submit(id, j))
    ensures Ledger(Apply(w, Submit(id, j))) <==> JobOk(j)
  {
    var v := Apply(w, Submit(id, j));
    assert v.jobs[id] == j;
    forall nm | nm in w.nodes ensures NodeOk(v.jobs, nm, v.nodes[nm]) {
      NodeUntouched(w.jobs, v.jobs, id, nm, w.nodes[nm]);
    }
  }

  /** A request keeps the ledger if and only if it is proper. */
  lemma KeptIffProper(w: World, r: Request)
    requires Ledger(w) && Possible(w, r)
    ensures Ledger(Apply(w, r)) <==> Proper(w, r)
  {
    match r
    case Submit(id, j) => SubmitKeepsLedgerIff(w, id, j);
    case RunJob(id, hosts, slots) => StartKeepsLedgerIff(w, id, hosts, slots);
    case JobObit(raw, id) => ObitKeepsLedgerIff(w, raw, id);
    case DeleteJob(raw, id) => DeleteKeepsLedgerIff(w, raw, id);
    case RerunJob(id) => RerunKeepsLedgerIff(w, id);
    case Down(nm) => if nm in w.nodes { NodeDownKeepsLedgerIff(w, nm); }
    case Undo(id, slots, nm) => RequeueKeepsLedgerIff(w, id, slots, nm);
    case Reclaim(id) => R.RequeueKeepsLedgerIff(w, id);
    case RewriteJob(id, j) => RewriteKeepsLedgerIff(w, id, j);
    case SetSlots(nm, procs, np) => PutNodeKeepsLedger(w, nm, w.nodes[nm].(numProcs := procs, slotsTotal := np));
    case SetFlags(nm, flags) => PutNodeKeepsLedger(w, nm, w.nodes[nm].(flags := flags));
    case Report(nm, recognised, flags) => PutNodeKeepsLedger(w, nm, Reported(w.nodes[nm], recognised, flags));
    case AddNode(nm, np) => EnrolKeepsLedgerIff(w, nm, np);
    case RemoveNode(nm) =>
  }

  /** `ws` are the states a server goes through on `rs`. */
  ghost predicate IsRun(ws: seq<World>, rs: seq<Request>) {
    |ws| == |rs| + 1 && forall i :: 0 <= i < |rs| ==> Possible(ws[i], rs[i]) && ws[i + 1] == Apply(ws[i], rs[i])
  }

  lemma RunGoesOn(ws: seq<World>, rs: seq<Request>, r: Request)
    requires IsRun(ws, rs) && Possible(ws[|rs|], r)
    ensures IsRun(ws + [Apply(ws[|rs|], r)], rs + [r])
  {
  }

  /** Every run of proper requests keeps the ledger in every state. */
  lemma {:induction false} LedgerAlways(ws: seq<World>, rs: seq<Request>, k: nat)
    requires IsRun(ws, rs) && Ledger(ws[0]) && k < |ws|
    requires forall i :: 0 <= i < |rs| ==> Proper(ws[i], rs[i])
    ensures Ledger(ws[k])
  {
    if k > 0 {
      LedgerAlways(ws, rs, k - 1);
      KeptIffProper(ws[k - 1], rs[k - 1]);
    }
  }

  lemma {:induction false} RequeueEachKeepsFlags(w: World, nm: string, ids: seq<string>)
    requires nm in w.nodes && FlagsOk(w.nodes)
    ensures FlagsOk(RequeueEach(w, nm, ids).nodes)
  {
    if ids != [] { RequeueEachKeepsFlags(w, nm, ids[..|ids| - 1]); }
  }

  /**
   The requests the job-exclusive flag survives: setting the slots of a node sets no flag, so the node must
   be empty, have a slot left at the new number, or be job-exclusive already.
   */
  predicate FlagSafe(w: World, r: Request) {
    r.SetSlots? && r.nm in w.nodes ==>
      var n := w.nodes[r.nm]; n.listed == [] || n.slotsUsed < r.np || n.jobExclusive
  }

  /** A request keeps the flags if and only if it is flag-safe. */
  lemma FlagsKeptIff(w: World, r: Request)
    requires Possible(w, r) && FlagsOk(w.nodes)
    ensures FlagsOk(Apply(w, r).nodes) <==> FlagSafe(w, r)
  {
    match r
    case RunJob(id, hosts, slots) => AssignEachKeepsFlags(w.nodes, hosts, id, slots);
    case JobObit(raw, id) => ReleaseEachKeepsFlags(w.nodes, w.jobs[id].hosts, raw, w.jobs[id].cpus);
    case DeleteJob(raw, id) => ReleaseEachKeepsFlags(w.nodes, w.jobs[id].hosts, raw, w.jobs[id].cpus);
    case Reclaim(id) => ReleaseEachKeepsFlags(w.nodes, w.jobs[id].hosts, id, R.Slots(w.jobs[id]));
    case Down(nm) => if nm in w.nodes { RequeueEachKeepsFlags(w, nm, w.nodes[nm].listed); }
    case SetSlots(nm, procs, np) =>
      var v := Apply(w, r);
      assert FlagOk(w.nodes[nm]);
      assert v.nodes[nm] == w.nodes[nm].(numProcs := procs, slotsTotal := np);
    case _ =>
  }

  /**
   In every state of a run whose slot settings are flag-safe, proper or not, an empty node is not
   job-exclusive and a full one is.
   */
  lemma {:induction false} FlagsAlways(ws: seq<World>, rs: seq<Request>, k: nat)
    requires IsRun(ws, rs) && FlagsOk(ws[0].nodes) && k < |ws|
    requires forall i :: 0 <= i < |rs| ==> FlagSafe(ws[i], rs[i])
    ensures FlagsOk(ws[k].nodes)
  {
    if k > 0 {
      FlagsAlways(ws, rs, k - 1);
      FlagsKeptIff(ws[k - 1], rs[k - 1]);
    }
  }

  // ---------------------------------------------------------------- run limits

  /** Whose running jobs a limit counts. */
  datatype Who = Everyone | Owner(name: string) | Group(name: string)

  datatype Limits = Limits(maxRunning: int, maxUserRun: int, maxGroupRun: int)

  predicate Counts(who: Who, j: Job) {
    && j.state == Running
    && (who.Owner? ==> j.owner == who.name)
    && (who.Group? ==> j.group == who.name)
  }

  function RunningFor(jobs: map<string, Job>, who: Who): set<string> { set id | id in jobs && Counts(who, jobs[id]) }

  function LimitFor(l: Limits, who: Who): int {
    match who
    case Everyone => l.maxRunning
    case Owner(_) => l.maxUserRun
    case Group(g) => if g == "" then 0 else l.maxGroupRun
  }

  /** Zero or less means no limit. */
  predicate RoomFor(jobs: map<string, Job>, l: Limits, who: Who) {
    LimitFor(l, who) > 0 ==> |RunningFor(jobs, who)| < LimitFor(l, who)
  }

  ghost predicate WithinLimits(jobs: map<string, Job>, l: Limits) {
    forall who :: LimitFor(l, who) > 0 ==> |RunningFor(jobs, who)| <= LimitFor(l, who)
  }

  /** `enforceRunLimits`. */
  predicate MayRun(jobs: map<string, Job>, l: Limits, id: string)
    requires id in jobs
  {
    RoomFor(jobs, l, Everyone) && RoomFor(jobs, l, Owner(jobs[id].owner)) && RoomFor(jobs, l, Group(jobs[id].group))
  }

  /** A request that neither starts nor rewrites a job makes nobody's job run. */
  lemma OthersStartNothing(w: World, r: Request, who: Who)
    requires Possible(w, r) && !r.RunJob? && !r.RewriteJob?
    ensures RunningFor(Apply(w, r).jobs, who) <= RunningFor(w.jobs, who)
  {
    if r.Down? && r.nm in w.nodes { RequeueEachRunsFewer(w, r.nm, w.nodes[r.nm].listed, who); }
  }

  lemma {:induction false} RequeueEachRunsFewer(w: World, nm: string, ids: seq<string>, who: Who)
    requires nm in w.nodes
    ensures RunningFor(RequeueEach(w, nm, ids).jobs, who) <= RunningFor(w.jobs, who)
  {
    if ids != [] { RequeueEachRunsFewer(w, nm, ids[..|ids| - 1], who); }
  }

  /** Replacing one job adds one to a count that takes in the new record and not the old, and to no other. */
  lemma RunningAfter(jobs: map<string, Job>, id: string, j: Job, who: Who)
    requires id in jobs
    ensures if Counts(who, j) && !Counts(who, jobs[id])
            then |RunningFor(jobs[id := j], who)| == |RunningFor(jobs, who)| + 1
            else |RunningFor(jobs[id := j], who)| <= |RunningFor(jobs, who)|
  {
    var before, after := RunningFor(jobs, who), RunningFor(jobs[id := j], who);
    if Counts(who, j) && !Counts(who, jobs[id]) {
      assert after == before + {id} && id !in before;
    } else {
      assert after <= before;
      SubsetSize(after, before);
    }
  }

  /** There is room wherever the new record of a job counts and the old one does not. */
  ghost predicate RoomForChange(jobs: map<string, Job>, l: Limits, id: string, j: Job)
    requires id in jobs
  {
    forall who :: Counts(who, j) && !Counts(who, jobs[id]) ==> RoomFor(jobs, l, who)
  }

  lemma ReplaceWithinLimitsIff(jobs: map<string, Job>, l: Limits, id: string, j: Job)
    requires id in jobs && WithinLimits(jobs, l)
    ensures WithinLimits(jobs[id := j], l) <==> RoomForChange(jobs, l, id, j)
  {
    forall who | LimitFor(l, who) > 0
      ensures |RunningFor(jobs[id := j], who)| <= LimitFor(l, who) <==>
              (Counts(who, j) && !Counts(who, jobs[id]) ==> RoomFor(jobs, l, who))
    {
      RunningAfter(jobs, id, j, who);
    }
  }

  /** The requests the run limits survive: a start that passes them, and a rewrite that moves no running job to
      an owner or group without room. */
  predicate Roomy(w: World, r: Request, l: Limits)
    requires Possible(w, r)
  {
    match r
    case RunJob(id, _, _) => MayRun(w.jobs, l, id)
    case RewriteJob(id, j) =>
      j.state == Running ==>
        && (j.owner == w.jobs[id].owner || RoomFor(w.jobs, l, Owner(j.owner)))
        && (j.group == w.jobs[id].group || RoomFor(w.jobs, l, Group(j.group)))
    case _ => true
  }

  lemma StartRoomIff(w: World, id: string, hosts: seq<string>, l: Limits)
    requires id in w.jobs && w.jobs[id].state != Running
    ensures RoomForChange(w.jobs, l, id, w.jobs[id].(state := Running, hosts := hosts)) <==> MayRun(w.jobs, l, id)
  {
    var j := w.jobs[id].(state := Running, hosts := hosts);
    forall who ensures Counts(who, j) <==> who == Everyone || who == Owner(j.owner) || who == Group(j.group) {}
    assert Counts(Everyone, j) && Counts(Owner(j.owner), j) && Counts(Group(j.group), j);
  }

  lemma RewriteRoomIff(w: World, id: string, j: Job, l: Limits)
    requires id in w.jobs && (j.state == Running ==> w.jobs[id].state == Running)
    ensures RoomForChange(w.jobs, l, id, j) <==>
            (j.state == Running ==>
               && (j.owner == w.jobs[id].owner || RoomFor(w.jobs, l, Owner(j.owner)))
               && (j.group == w.jobs[id].group || RoomFor(w.jobs, l, Group(j.group))))
  {
    if j.state == Running {
      forall who ensures Counts(who, j) <==> who == Everyone || who == Owner(j.owner) || who == Group(j.group) {}
      assert Counts(Owner(j.owner), j) && Counts(Group(j.group), j) && Counts(Everyone, w.jobs[id]);
    }
  }

  /** Whatever ran before, a RunJob that is let through ends within every limit that counts its job. */
  lemma RunJobUnderItsLimits(w: World, r: Request, l: Limits, who: Who)
    requires Possible(w, r) && r.RunJob? && MayRun(w.jobs, l, r.id)
    ensures var v := Apply(w, r);
            if Counts(who, v.jobs[r.id]) then LimitFor(l, who) > 0 ==> |RunningFor(v.jobs, who)| <= LimitFor(l, who)
            else RunningFor(v.jobs, who) == RunningFor(w.jobs, who)
  {
    var j := w.jobs[r.id].(state := Running, hosts := r.hosts);
    StartRoomIff(w, r.id, r.hosts, l);
    RunningAfter(w.jobs, r.id, j, who);
    assert Apply(w, r).jobs == w.jobs[r.id := j];
  }

  /** A request keeps every run limit if and only if it is roomy. */
  lemma LimitsKeptIff(w: World, r: Request, l: Limits)
    requires Possible(w, r) && WithinLimits(w.jobs, l)
    ensures WithinLimits(Apply(w, r).jobs, l) <==> Roomy(w, r, l)
  {
    match r
    case RunJob(id, hosts, slots) =>
      StartRoomIff(w, id, hosts, l);
      ReplaceWithinLimitsIff(w.jobs, l, id, w.jobs[id].(state := Running, hosts := hosts));
    case RewriteJob(id, j) =>
      RewriteRoomIff(w, id, j, l);
      ReplaceWithinLimitsIff(w.jobs, l, id, j);
    case _ =>
      forall who | LimitFor(l, who) > 0 ensures |RunningFor(Apply(w, r).jobs, who)| <= LimitFor(l, who) {
        OthersStartNothing(w, r, who);
        SubsetSize(RunningFor(Apply(w, r).jobs, who), RunningFor(w.jobs, who));
      }
  }

  /** No state of a run of roomy requests has more running jobs than any limit allows. */
  lemma {:induction false} LimitsAlways(ws: seq<World>, rs: seq<Request>, l: Limits, k: nat)
    requires IsRun(ws, rs) && WithinLimits(ws[0].jobs, l) && k < |ws|
    requires forall i :: 0 <= i < |rs| ==> Roomy(ws[i], rs[i], l)
    ensures WithinLimits(ws[k].jobs, l)
  {
    if k > 0 {
      LimitsAlways(ws, rs, l, k - 1);
      LimitsKeptIff(ws[k - 1], rs[k - 1], l);
    }
  }
}
