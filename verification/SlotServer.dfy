/** The server's job handlers, as they update its job and node managers. */
module SlotServer {
  import opened Decimal
  import opened Strings
  import opened Listing
  import opened SlotLedger
  import opened SlotSteps
  import opened SlotRuns
  import Recovery
  import JA = JobAttrs
  import NA = NodeAttrs
  import NR = NodeRequest

  datatype Reply = Accepted | UnknownJob | BadState | LimitReached | Blocked | UnknownNode

  /** `GetJob` finds the job stored under `id` when asked for `raw`. */
  predicate Finds(jobs: map<string, Job>, server: string, raw: string, id: string) {
    var short := TrimSpace(raw);
    id in jobs &&
    if short in jobs then id == short
    else if '.' in short then false
    else if short + "." + server in jobs then id == short + "." + server
    else ShortFor(server, short, id)
  }

  /** The id is `short`, a dot, and the server name up to case. */
  predicate ShortFor(server: string, short: string, id: string) {
    var dot := IndexOf(id, '.');
    dot >= 0 && id[..dot] == short && EqualFold(id[dot + 1..], server)
  }

  /** What qhold makes of a job: a queued or waiting one is held. */
  function HeldBy(j: Job): Job { if j.state == Queued || j.state == Waiting then j.(state := Held) else j }

  /** What qrls makes of a job: a held one is queued. */
  function ReleasedBy(j: Job): Job { if j.state == Held then j.(state := Queued) else j }

  /** The states RunJob starts a job from. */
  predicate Startable(j: Job) { j.state == Queued || j.state == Provisioning }

  /** `IsFree`. */
  predicate IsFree(n: Node) { !n.jobExclusive && n.flags == {} && n.slotsUsed < n.slotsTotal }

  /** A node a multi-node job may spread to. */
  predicate CanTake(n: Node, ppn: nat) {
    IsFree(n) && (if n.slotsTotal - n.slotsUsed < 0 then 0 else n.slotsTotal - n.slotsUsed) >= ppn
  }

  /** After a report with a state a node with jobs is not free, however many slots it has left. */
  lemma ReportedNodeIsNotFree(n: Node, items: seq<string>)
    requires n.listed != [] && NA.HasState(items)
    ensures !IsFree(NA.Updated(n, items))
  {
    NA.ReportExcludes(n, items);
  }

  /** The nodes a job that starts on `anchor` may use. */
  ghost function Usable(nodes: map<string, Node>, anchor: string, ppn: nat): set<string> {
    {anchor} + set h | h in nodes && CanTake(nodes[h], ppn)
  }

  /** A job for several nodes that the cluster has too few of now. */
  ghost predicate Short(nodes: map<string, Node>, anchor: string, j: Job) {
    j.nodeCount > 1 && |Usable(nodes, anchor, j.ppn)| < j.nodeCount
  }

  /** A selection falls short exactly when the usable nodes do. */
  lemma SelectedOfUsable(nodes: map<string, Node>, anchor: string, ppn: nat, nodeCount: nat, hosts: seq<string>)
    requires hosts != [] && hosts[0] == anchor && NoDup(hosts)
    requires forall h :: h in hosts ==> h in nodes && (h == anchor || CanTake(nodes[h], ppn))
    requires |hosts| < nodeCount ==> forall h :: h in nodes && CanTake(nodes[h], ppn) ==> h in hosts
    ensures |hosts| < nodeCount <==> |Usable(nodes, anchor, ppn)| < nodeCount
  {
    var chosen := set h | h in hosts;
    NoDupSize(hosts, chosen);
    SubsetSize(chosen, Usable(nodes, anchor, ppn));
    if |hosts| < nodeCount { assert chosen == Usable(nodes, anchor, ppn); }
  }

  class Server {
    const name: string
    var jobs: map<string, Job>
    var nodes: map<string, Node>
    var limits: Limits

    constructor (name: string, nodes: map<string, Node>, limits: Limits)
      ensures this.name == name && Now() == World(map[], nodes) && this.limits == limits
    {
      this.name := name;
      this.jobs, this.nodes, this.limits := map[], nodes, limits;
    }

    ghost function Now(): World
      reads this
    {
      World(jobs, nodes)
    }

    /** `GetJob`, which scans the jobs in some order if all else fails. */
    method GetJob(raw: string) returns (id: Option<string>)
      ensures id.Some? ==> Finds(jobs, name, raw, id.value)
      ensures id.None? ==> forall k :: !Finds(jobs, name, raw, k)
    {
      var short := TrimSpace(raw);
      if short in jobs { return Some(short); }
      if '.' in short { return None; }
      if short + "." + name in jobs { return Some(short + "." + name); }
      var rest := jobs.Keys;
      while rest != {}
        invariant rest <= jobs.Keys
        invariant forall k :: k in jobs.Keys - rest ==> !ShortFor(name, short, k)
      {
        var k :| k in rest;
        if ShortFor(name, short, k) { return Some(k); }
        rest := rest - {k};
      }
      return None;
    }

    /** The running jobs a limit counts. */
    method CountRunning(who: Who) returns (count: nat)
      ensures count == |RunningFor(jobs, who)|
    {
      count := 0;
      var rest := jobs.Keys;
      ghost var seen: set<string> := {};
      while rest != {}
        invariant rest <= jobs.Keys && count == |seen|
        invariant forall k :: k in seen <==> k in jobs.Keys - rest && Counts(who, jobs[k])
      {
        var k :| k in rest;
        rest := rest - {k};
        if Counts(who, jobs[k]) {
          count := count + 1;
          seen := seen + {k};
        }
      }
      assert seen == RunningFor(jobs, who);
    }

    method HasRoom(who: Who) returns (ok: bool)
      ensures ok == RoomFor(jobs, limits, who)
    {
      if LimitFor(limits, who) <= 0 { return true; }
      var count := CountRunning(who);
      return count < LimitFor(limits, who);
    }

    /** `enforceRunLimits`. */
    method EnforceRunLimits(id: string) returns (ok: bool)
      requires id in jobs
      ensures ok == MayRun(jobs, limits, id)
    {
      ok := HasRoom(Everyone);
      if ok { ok := HasRoom(Owner(jobs[id].owner)); }
      if ok { ok := HasRoom(Group(jobs[id].group)); }
    }

    // ------------------------------------------------------------ starting a job

    /** The anchor and as many other free nodes as it takes, in some order; None if there are too few. */
    method SelectNodes(anchor: string, nodeCount: nat, ppn: nat) returns (hosts: seq<string>)
      requires anchor in nodes
      ensures hosts != [] && hosts[0] == anchor && NoDup(hosts) && |hosts| <= Max(nodeCount, 1)
      ensures forall h :: h in hosts ==> h in nodes && (h == anchor || CanTake(nodes[h], ppn))
      ensures |hosts| < nodeCount ==> forall h :: h in nodes && CanTake(nodes[h], ppn) ==> h in hosts
      ensures |hosts| < nodeCount <==> |Usable(nodes, anchor, ppn)| < nodeCount
    {
      hosts := [anchor];
      var rest := nodes.Keys;
      while rest != {} && |hosts| < nodeCount
        invariant rest <= nodes.Keys
        invariant hosts != [] && hosts[0] == anchor && NoDup(hosts) && |hosts| <= Max(nodeCount, 1)
        invariant forall h :: h in hosts ==> h in nodes && (h == anchor || (CanTake(nodes[h], ppn) && h !in rest))
        invariant forall h :: h in nodes.Keys - rest && CanTake(nodes[h], ppn) ==> h in hosts
        decreases rest
      {
        var h :| h in rest;
        rest := rest - {h};
        if h != anchor && CanTake(nodes[h], ppn) {
          NoDupAppend(hosts, h);
          hosts := hosts + [h];
        }
      }
      SelectedOfUsable(nodes, anchor, ppn, nodeCount, hosts);
    }

    method StartOn(id: string, hosts: seq<string>, slots: nat)
      requires id in jobs
      modifies this
      ensures Now() == Start(old(Now()), id, hosts, slots) && limits == old(limits)
    {
      ghost var was := nodes;
      for i := 0 to |hosts|
        invariant nodes == AssignEach(was, hosts[..i], id, slots) && jobs == old(jobs) && limits == old(limits)
      {
        assert hosts[..i + 1][..i] == hosts[..i];
        if hosts[i] in nodes { nodes := nodes[hosts[i] := Assign(nodes[hosts[i]], id, slots)]; }
      }
      assert hosts[..|hosts|] == hosts;
      jobs := jobs[id := jobs[id].(state := Running, hosts := hosts)];
    }

    /**
     `handleRunJob` on the active server; `dest` is the node name before any "/", and `ready` is the
     answer of the dependency check. `did` is the change made, if any.
     */
    method HandleRunJob(raw: string, dest: string, ready: bool) returns (reply: Reply, ghost did: Option<Request>)
      modifies this
      ensures did.None? ==> Now() == old(Now())
      ensures did.Some? ==>
                && did.value.RunJob? && Possible(old(Now()), did.value) && Now() == Apply(old(Now()), did.value)
                && ready && MayRun(old(jobs), limits, did.value.id) && Finds(old(jobs), name, raw, did.value.id)
                && did.value.hosts[0] == dest && Charged(old(jobs)[did.value.id], did.value)
      ensures did.Some? ==> reply == Accepted
      ensures reply == UnknownJob <==> forall k :: !Finds(old(jobs), name, raw, k)
      ensures reply == BadState ==>
                exists id :: Finds(old(jobs), name, raw, id) && !Startable(old(jobs)[id])
      ensures reply == LimitReached ==>
                exists id :: Finds(old(jobs), name, raw, id) && Startable(old(jobs)[id])
                    && !MayRun(old(jobs), limits, id)
      ensures reply == Blocked ==>
                !ready && exists id :: Finds(old(jobs), name, raw, id) && Startable(old(jobs)[id])
                                       && MayRun(old(jobs), limits, id)
      ensures reply == UnknownNode ==> dest != "" && dest !in old(nodes)
      ensures reply == Accepted && did.None? && dest != "" ==>
                exists id :: Finds(old(jobs), name, raw, id) && Short(old(nodes), dest, old(jobs)[id])
      ensures did.Some? ==> !Short(old(nodes), dest, old(jobs)[did.value.id])
      ensures limits == old(limits)
    {
      did := None;
      var found := GetJob(raw);
      if found.None? { return UnknownJob, None; }
      var id := found.value;
      if !Startable(jobs[id]) { return BadState, None; }
      var ok := EnforceRunLimits(id);
      if !ok { return LimitReached, None; }
      if !ready { return Blocked, None; }
      if dest == "" { return Accepted, None; }
      if dest !in nodes { return UnknownNode, None; }
      var hosts, slots := [dest], jobs[id].cpus;
      if jobs[id].nodeCount > 1 {
        hosts := SelectNodes(dest, jobs[id].nodeCount, jobs[id].ppn);
        if |hosts| < jobs[id].nodeCount {
          assert Short(nodes, dest, jobs[id]);
          return Accepted, None;
        }
        slots := jobs[id].ppn;
      }
      StartOn(id, hosts, slots);
      return Accepted, Some(RunJob(id, hosts, slots));
    }

    // ------------------------------------------------------------ ending, deleting and requeueing a job

    /** `releaseNodeResources`. */
    method ReleaseNodeResources(hosts: seq<string>, raw: string, slots: nat)
      modifies this`nodes
      ensures nodes == ReleaseEach(old(nodes), hosts, raw, slots)
    {
      for i := 0 to |hosts|
        invariant nodes == ReleaseEach(old(nodes), hosts[..i], raw, slots)
      {
        assert hosts[..i + 1][..i] == hosts[..i];
        if hosts[i] in nodes { nodes := nodes[hosts[i] := Release(nodes[hosts[i]], raw, slots)]; }
      }
      assert hosts[..|hosts|] == hosts;
    }

    /** `handleJobObit` from a trusted MOM. */
    method HandleJobObit(raw: string) returns (ghost did: Option<Request>)
      requires TrimmedIds(jobs)
      modifies this`jobs, this`nodes
      ensures Made(old(Now()), did, Now()) && TrimmedIds(jobs)
      ensures did.Some? ==> did.value.JobObit? && did.value.raw == raw && Finds(old(jobs), name, raw, did.value.id)
      ensures did.None? ==> forall k :: !Finds(old(jobs), name, raw, k)
    {
      var found := GetJob(raw);
      if found.None? { return None; }
      var id := found.value;
      FoundByName(jobs, name, raw, id);
      var j := jobs[id];
      did := Some(JobObit(raw, id));
      ObitMade(Now(), raw, id);
      jobs := jobs[id := j.(state := Complete)];
      ReleaseNodeResources(j.hosts, raw, j.cpus);
    }

    /** `handleDeleteJob`. */
    method HandleDeleteJob(raw: string) returns (ghost did: Option<Request>)
      requires TrimmedIds(jobs)
      modifies this`jobs, this`nodes
      ensures Made(old(Now()), did, Now()) && TrimmedIds(jobs)
      ensures did.Some? ==> did.value.DeleteJob? && did.value.raw == raw && Finds(old(jobs), name, raw, did.value.id)
      ensures did.None? ==> forall k :: !Finds(old(jobs), name, raw, k)
    {
      var found := GetJob(raw);
      if found.None? { return None; }
      var id := found.value;
      FoundByName(jobs, name, raw, id);
      var j := jobs[id];
      did := Some(DeleteJob(raw, id));
      DeleteMade(Now(), raw, id);
      if j.state == Running { ReleaseNodeResources(j.hosts, raw, j.cpus); }
      jobs := jobs - {raw};
    }

    /** One node gives up a job, which is queued again. */
    method ReleaseAndQueue(id: string, slots: nat, nm: string)
      requires nm in nodes
      modifies this`jobs, this`nodes
      ensures Now() == Requeue(old(Now()), id, slots, nm)
    {
      nodes := nodes[nm := Release(nodes[nm], id, slots)];
      if id in jobs { jobs := jobs[id := jobs[id].(state := Queued, hosts := [])]; }
    }

    /** `undoJobDispatch`, for a job that asked for `slots`. */
    method UndoJobDispatch(id: string, slots: nat, nm: string)
      requires nm in nodes && slots >= 1 && (id in jobs ==> slots == jobs[id].cpus)
      modifies this`jobs, this`nodes
      ensures Made(old(Now()), Some(Undo(id, slots, nm)), Now())
    {
      ReleaseAndQueue(id, slots, nm);
    }

    /** `handleRerunJob`. */
    method HandleRerunJob(raw: string) returns (reply: Reply, ghost did: Option<Request>)
      modifies this`jobs, this`nodes
      ensures Made(old(Now()), did, Now())
      ensures did.Some? ==> did.value.RerunJob? && Finds(old(jobs), name, raw, did.value.id)
      ensures did.None? ==> forall k :: !Finds(old(jobs), name, raw, k)
      ensures reply == Accepted ==> did.Some? && did.value.id in jobs && jobs[did.value.id].state == Queued
                                    && jobs[did.value.id].hosts == []
    {
      var found := GetJob(raw);
      if found.None? { return UnknownJob, None; }
      var id := found.value;
      var j := jobs[id];
      did := Some(RerunJob(id));
      if j.state != Running && j.state != Queued { return BadState, did; }
      if j.state == Running && j.hosts != [] && j.hosts[0] in nodes {
        ReleaseAndQueue(id, j.cpus, j.hosts[0]);
      } else {
        jobs := jobs[id := j.(state := Queued, hosts := [])];
      }
      reply := Accepted;
    }

    /** `requeueNodeJobs`, unless automatic requeueing is disabled. */
    method RequeueNodeJobs(nm: string)
      modifies this`jobs, this`nodes
      ensures Made(old(Now()), Some(Down(nm)), Now())
    {
      if nm in nodes {
        var ids := nodes[nm].listed;
        ghost var start := Now();
        DownMade(start, nm);
        for i := 0 to |ids|
          invariant nm in nodes && Now() == RequeueEach(start, nm, ids[..i])
        {
          RequeueNext(start, nm, ids, i);
          if ids[i] in jobs && jobs[ids[i]].state == Running { ReleaseAndQueue(ids[i], jobs[ids[i]].cpus, nm); }
        }
        assert ids[..|ids|] == ids;
      }
    }

    // ------------------------------------------------------------ records written without telling the nodes

    /** `handleModifyJob`; `request` is what each job asks for, and `future` tells which times are to come. */
    method HandleModifyJob(raw: string, attrs: seq<JA.Attr>, request: string -> NR.Request, future: int -> bool)
      returns (reply: Reply, asked: Option<NR.Request>, ghost did: Option<Request>)
      modifies this`jobs
      ensures Made(old(Now()), did, Now())
      ensures did.Some? ==>
                && did.value.RewriteJob? && Finds(old(jobs), name, raw, did.value.id)
                && asked.Some? && JA.Asking(did.value.job, asked.value) ==
                   JA.AlterAll(JA.Asking(old(jobs)[did.value.id], request(did.value.id)), attrs, future)
      ensures reply == if did.Some? then Accepted else UnknownJob
      ensures did.None? ==> forall k :: !Finds(old(jobs), name, raw, k)
    {
      var found := GetJob(raw);
      if found.None? { return UnknownJob, None, None; }
      var id := found.value;
      var after := JA.ApplyJobAttrs(JA.Asking(jobs[id], request(id)), attrs, future);
      RewriteMade(Now(), id, after.job);
      did := Some(RewriteJob(id, after.job));
      jobs := jobs[id := after.job];
      reply, asked := Accepted, Some(after.request);
    }

    /** `handleHoldJob`: holds a queued or waiting job and leaves any other alone. */
    method HandleHoldJob(raw: string) returns (reply: Reply, ghost did: Option<Request>)
      modifies this`jobs
      ensures Made(old(Now()), did, Now()) && (Ledger(old(Now())) ==> Ledger(Now()))
      ensures did.Some? ==>
                && did.value.RewriteJob? && Finds(old(jobs), name, raw, did.value.id)
                && did.value.job == HeldBy(old(jobs)[did.value.id])
      ensures reply == if did.Some? then Accepted else UnknownJob
      ensures did.None? ==> forall k :: !Finds(old(jobs), name, raw, k)
    {
      var found := GetJob(raw);
      if found.None? { return UnknownJob, None; }
      var j := jobs[found.value];
      did := Some(RewriteJob(found.value, j));
      if j.state == Queued || j.state == Waiting {
        if Ledger(Now()) { IdleStateKeepsLedger(Now(), found.value, Held); }
        did := Some(RewriteJob(found.value, j.(state := Held)));
        jobs := jobs[found.value := j.(state := Held)];
      }
      reply := Accepted;
    }

    /** `handleReleaseJob`: queues a held job and leaves any other alone. */
    method HandleReleaseJob(raw: string) returns (reply: Reply, ghost did: Option<Request>)
      modifies this`jobs
      ensures Made(old(Now()), did, Now()) && (Ledger(old(Now())) ==> Ledger(Now()))
      ensures did.Some? ==>
                && did.value.RewriteJob? && Finds(old(jobs), name, raw, did.value.id)
                && did.value.job == ReleasedBy(old(jobs)[did.value.id])
      ensures reply == if did.Some? then Accepted else UnknownJob
      ensures did.None? ==> forall k :: !Finds(old(jobs), name, raw, k)
    {
      var found := GetJob(raw);
      if found.None? { return UnknownJob, None; }
      var j := jobs[found.value];
      did := Some(RewriteJob(found.value, j));
      if j.state == Held {
        if Ledger(Now()) { IdleStateKeepsLedger(Now(), found.value, Queued); }
        did := Some(RewriteJob(found.value, j.(state := Queued)));
        jobs := jobs[found.value := j.(state := Queued)];
      }
      reply := Accepted;
    }

    /** Writes the record of a node, which is at most one request. */
    method WriteNode(nm: string, n: Node, ghost states: seq<World>, ghost rs: seq<Request>)
      returns (ghost longer: seq<World>, ghost more: seq<Request>)
      requires nm in nodes && OneWrite(nodes[nm], n) && IsRun(states, rs) && states[|rs|] == Now()
      modifies this`nodes
      ensures nodes == old(nodes)[nm := n] && IsRun(longer, more) && longer[0] == states[0] && longer[|more|] == Now()
      ensures FlagsOnly(rs, nm) ==> FlagsOnly(more, nm)
    {
      longer, more := WriteIsRequest(Now(), nm, n, states, rs);
      nodes := nodes[nm := n];
    }

    /** `applyNodeAttrs` on a known node: a run of requests that write its slots and flags. */
    method ApplyNodeAttrs(nm: string, attrs: seq<NA.Attr>) returns (ghost states: seq<World>, ghost rs: seq<Request>)
      requires nm in nodes
      modifies this`nodes
      ensures nodes == old(nodes)[nm := NA.QmgrAll(old(nodes)[nm], attrs)]
      ensures IsRun(states, rs) && states[0] == old(Now()) && states[|rs|] == Now() && FlagsOnly(rs, nm)
    {
      states, rs := [Now()], [];
      ghost var was := nodes;
      for i := 0 to |attrs|
        invariant nm in nodes && nodes == was[nm := NA.QmgrAll(was[nm], attrs[..i])] && jobs == old(jobs)
        invariant IsRun(states, rs) && states[0] == old(Now()) && states[|rs|] == Now() && FlagsOnly(rs, nm)
      {
        assert attrs[..i + 1][..i] == attrs[..i];
        QmgrWritesOnce(nodes[nm], attrs[i]);
        states, rs := WriteNode(nm, NA.QmgrOne(nodes[nm], attrs[i]), states, rs);
      }
      assert attrs[..|attrs|] == attrs;
    }

    /** `UpdateFromStatus` on a known node: a run of such requests. */
    method UpdateFromStatus(nm: string, items: seq<string>) returns (ghost states: seq<World>, ghost rs: seq<Request>)
      requires nm in nodes
      modifies this`nodes
      ensures nodes == old(nodes)[nm := NA.Updated(old(nodes)[nm], items)]
      ensures IsRun(states, rs) && states[0] == old(Now()) && states[|rs|] == Now() && FlagsOnly(rs, nm)
    {
      states, rs := [Now()], [];
      ghost var was := nodes;
      for i := 0 to |items|
        invariant nm in nodes && nodes == was[nm := NA.StatusAll(was[nm], items[..i])] && jobs == old(jobs)
        invariant IsRun(states, rs) && states[0] == old(Now()) && states[|rs|] == Now() && FlagsOnly(rs, nm)
      {
        assert items[..i + 1][..i] == items[..i];
        StatusWritesOnce(nodes[nm], items[i]);
        states, rs := WriteNode(nm, NA.StatusOne(nodes[nm], items[i]), states, rs);
      }
      assert items[..|items|] == items;
      states, rs := WriteNode(nm, NA.Heard(nodes[nm]), states, rs);
    }

    // ------------------------------------------------------------ recovery after a restart

    /** Puts one recovered job on its nodes. */
    method RestoreJob(hosts: seq<string>, id: string, slots: nat)
      modifies this`nodes
      ensures nodes == Recovery.RestoreEach(old(nodes), hosts, id, slots)
    {
      for i := 0 to |hosts|
        invariant nodes == Recovery.RestoreEach(old(nodes), hosts[..i], id, slots)
      {
        assert hosts[..i + 1][..i] == hosts[..i];
        if hosts[i] in nodes && id !in nodes[hosts[i]].listed {
          nodes := nodes[hosts[i] := Assign(nodes[hosts[i]], id, slots)];
        }
      }
      assert hosts[..|hosts|] == hosts;
    }

    /** `restoreRecoveredRunningJobs`, in some order of the jobs. */
    method RestoreRecoveredRunningJobs() returns (ghost order: seq<string>)
      modifies this`nodes
      ensures Enumerates(order, jobs.Keys) && Now() == Recovery.Restore(old(Now()), order)
    {
      var ids := Enumerate(jobs.Keys);
      order := ids;
      for i := 0 to |ids|
        invariant Now() == Recovery.Restore(old(Now()), ids[..i])
      {
        assert ids[..i + 1][..i] == ids[..i];
        assert ids[i] in jobs;
        var j := jobs[ids[i]];
        if j.state == Running && j.hosts != [] { RestoreJob(j.hosts, ids[i], if j.ppn < 1 then 1 else j.ppn); }
      }
      assert ids[..|ids|] == ids;
    }

    /** `requeueRecoveredJob`. */
    method RequeueRecoveredJob(id: string)
      requires id in jobs
      modifies this`jobs, this`nodes
      ensures Now() == Recovery.Requeue(old(Now()), id)
    {
      var j := jobs[id];
      ReleaseNodeResources(j.hosts, id, if j.ppn < 1 then 1 else j.ppn);
      jobs := jobs[id := j.(state := Queued, hosts := [])];
    }

    /** One job: requeued if its MOM refutes it, pending if the MOM is silent. */
    method ReconcileJob(id: string, answers: string -> Option<set<string>>) returns (silent: bool)
      requires id in jobs
      modifies this`jobs, this`nodes
      ensures Now() ==
              if Recovery.Refuted(old(Now()), answers, id) then Recovery.Requeue(old(Now()), id) else old(Now())
      ensures silent <==> Recovery.IsSilent(old(Now()), answers, id)
    {
      silent := false;
      var j := jobs[id];
      if j.state == Running && j.hosts != [] && j.hosts[0] in nodes {
        var answer := answers(j.hosts[0]);
        if answer.None? {
          silent := true;
        } else if id !in answer.value {
          RequeueRecoveredJob(id);
        }
      }
    }

    /**
     `reconcileRunningJobsWithMOMs`, in some order of the jobs; `answers` is what each node's MOM replies.
     The result counts the jobs to ask about again.
     */
    method ReconcileRunningJobsWithMOMs(answers: string -> Option<set<string>>)
      returns (pending: nat, ghost order: seq<string>)
      modifies this`jobs, this`nodes
      ensures Enumerates(order, old(jobs).Keys) && Now() == Recovery.Reconcile(old(Now()), answers, order)
      ensures pending == Recovery.Silent(old(Now()), answers, order)
    {
      pending := 0;
      var ids := Enumerate(jobs.Keys);
      order := ids;
      ghost var start := Now();
      for i := 0 to |ids|
        invariant Now() == Recovery.Reconcile(start, answers, ids[..i])
        invariant pending == Recovery.Silent(start, answers, ids[..i])
      {
        assert ids[i] in start.jobs.Keys;
        Recovery.ReconcileNext(start, answers, ids, i);
        var silent := ReconcileJob(ids[i], answers);
        if silent { pending := pending + 1; }
      }
      assert ids[..|ids|] == ids;
    }
  }

  /** Job ids carry no white space around them. */
  ghost predicate TrimmedIds(jobs: map<string, Job>) { forall id :: id in jobs ==> TrimSpace(id) == id }

  /** The state after the request, or the same state without one. */
  ghost predicate Made(w: World, r: Option<Request>, v: World) {
    match r
    case None => v == w
    case Some(q) => Possible(w, q) && v == Apply(w, q)
  }

  lemma ObitMade(w: World, raw: string, id: string)
    requires id in w.jobs && (raw == id || raw !in w.jobs)
    ensures Made(w, Some(JobObit(raw, id)), Obit(w, raw, id))
  {
  }

  lemma RewriteMade(w: World, id: string, j: Job)
    requires id in w.jobs && (j.state == Running ==> w.jobs[id].state == Running)
    ensures Made(w, Some(RewriteJob(id, j)), Rewrite(w, id, j))
  {
  }

  lemma DownMade(w: World, nm: string)
    requires nm in w.nodes
    ensures Made(w, Some(Down(nm)), RequeueEach(w, nm, w.nodes[nm].listed))
  {
  }

  lemma RequeueNext(w: World, nm: string, ids: seq<string>, i: nat)
    requires nm in w.nodes && i < |ids|
    ensures var v, id := RequeueEach(w, nm, ids[..i]), ids[i];
            RequeueEach(w, nm, ids[..i + 1]) ==
            if id in v.jobs && v.jobs[id].state == Running then Requeue(v, id, v.jobs[id].cpus, nm) else v
  {
    assert ids[..i + 1][..i] == ids[..i];
  }

  /** Reconciling is a run of requests, one for each job that is refuted when it is visited. */
  lemma {:induction false} ReconcileIsRun(w: World, answers: string -> Option<set<string>>, order: seq<string>)
    returns (states: seq<World>, rs: seq<Request>)
    ensures IsRun(states, rs) && states[0] == w && states[|rs|] == Recovery.Reconcile(w, answers, order)
    ensures forall i :: 0 <= i < |rs| ==> rs[i].Reclaim? && Recovery.Refuted(states[i], answers, rs[i].id)
  {
    if order == [] {
      states, rs := [w], [];
    } else {
      states, rs := ReconcileIsRun(w, answers, order[..|order| - 1]);
      var v, id := states[|rs|], order[|order| - 1];
      if Recovery.Refuted(v, answers, id) {
        RunGoesOn(states, rs, Reclaim(id));
        states, rs := states + [Apply(v, Reclaim(id))], rs + [Reclaim(id)];
      }
    }
  }

  lemma DeleteMade(w: World, raw: string, id: string)
    requires id in w.jobs && (raw == id || raw !in w.jobs)
    ensures Made(w, Some(DeleteJob(raw, id)), Delete(w, raw, id))
  {
  }

  /** The two records differ as one request makes them: in the flags, in the slots, or as a state report does. */
  predicate OneWrite(n: Node, m: Node) {
    || m == n.(flags := m.flags)
    || m == n.(numProcs := m.numProcs, slotsTotal := m.slotsTotal)
    || m == Reported(n, true, m.flags)
    || m == Reported(n, false, m.flags)
  }

  lemma QmgrWritesOnce(n: Node, a: NA.Attr)
    ensures OneWrite(n, NA.QmgrOne(n, a))
  {
  }

  lemma StatusWritesOnce(n: Node, item: string)
    ensures OneWrite(n, NA.StatusOne(n, item))
  {
  }

  /** The requests write slots and flags of the one node. */
  predicate FlagsOnly(rs: seq<Request>, nm: string) {
    forall i :: 0 <= i < |rs| ==> (rs[i].SetSlots? || rs[i].SetFlags? || rs[i].Report?) && rs[i].nm == nm
  }

  lemma WriteIsRequest(w: World, nm: string, n: Node, states: seq<World>, rs: seq<Request>)
    returns (longer: seq<World>, more: seq<Request>)
    requires nm in w.nodes && OneWrite(w.nodes[nm], n) && IsRun(states, rs) && states[|rs|] == w
    ensures IsRun(longer, more) && longer[0] == states[0] && longer[|more|] == PutNode(w, nm, n)
    ensures FlagsOnly(rs, nm) ==> FlagsOnly(more, nm)
  {
    var was, procs, np := w.nodes[nm], n.numProcs, n.slotsTotal;
    var r := if n == was.(flags := n.flags) then SetFlags(nm, n.flags)
             else if n == was.(numProcs := procs, slotsTotal := np) then SetSlots(nm, procs, np)
             else Report(nm, n == Reported(was, true, n.flags), n.flags);
    RunGoesOn(states, rs, r);
    longer, more := states + [Apply(w, r)], rs + [r];
  }

  /** A name that finds another job than itself is no job's id: only a full id is. */
  lemma FoundByName(jobs: map<string, Job>, server: string, raw: string, id: string)
    requires TrimmedIds(jobs) && Finds(jobs, server, raw, id)
    ensures raw == id || raw !in jobs
  {
  }

  function Max(a: int, b: int): int { if a > b then a else b }

  /** A single-node job is charged its CPUs on one node, a multi-node job its ppn on each of nodeCount nodes. */
  predicate Charged(j: Job, r: Request) {
    r.RunJob? &&
    if j.nodeCount > 1 then r.slots == j.ppn && |r.hosts| == j.nodeCount else r.slots == j.cpus && |r.hosts| == 1
  }
}
