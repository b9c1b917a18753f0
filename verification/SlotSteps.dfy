/** What each server handler does to the ledger, and exactly when the ledger survives it. */
module SlotSteps {
  import opened Listing
  import opened SlotLedger
  import NS = NodeState

  /** The job becomes Running on `hosts`, each charged `slots`. */
  function Start(w: World, id: string, hosts: seq<string>, slots: nat): World
    requires id in w.jobs
  {
    World(w.jobs[id := w.jobs[id].(state := Running, hosts := hosts)], AssignEach(w.nodes, hosts, id, slots))
  }

  /** `handleJobObit` for the job `id` found under the name `raw`; the nodes are asked to release `raw`. */
  function Obit(w: World, raw: string, id: string): World
    requires id in w.jobs
  {
    var j := w.jobs[id];
    World(w.jobs[id := j.(state := Complete)], ReleaseEach(w.nodes, j.hosts, raw, j.cpus))
  }

  /** `handleDeleteJob`; the job manager is asked to remove `raw`. */
  function Delete(w: World, raw: string, id: string): World
    requires id in w.jobs
  {
    var j := w.jobs[id];
    World(w.jobs - {raw}, if j.state == Running then ReleaseEach(w.nodes, j.hosts, raw, j.cpus) else w.nodes)
  }

  /** One node releases the job and the job is queued again, if it still exists. */
  function Requeue(w: World, id: string, slots: nat, nm: string): World
    requires nm in w.nodes
  {
    World(if id in w.jobs then w.jobs[id := w.jobs[id].(state := Queued, hosts := [])] else w.jobs,
          w.nodes[nm := Release(w.nodes[nm], id, slots)])
  }

  /** `handleRerunJob`. */
  function Rerun(w: World, id: string): World
    requires id in w.jobs
  {
    var j := w.jobs[id];
    if j.state != Running && j.state != Queued then w
    else if j.state == Running && j.hosts != [] && j.hosts[0] in w.nodes then Requeue(w, id, j.cpus, j.hosts[0])
    else w.(jobs := w.jobs[id := j.(state := Queued, hosts := [])])
  }

  /** The loop of `requeueNodeJobs` over the jobs the node listed. */
  function RequeueEach(w: World, nm: string, ids: seq<string>): World
    requires nm in w.nodes
    ensures nm in RequeueEach(w, nm, ids).nodes
  {
    if ids == [] then w
    else
      var v := RequeueEach(w, nm, ids[..|ids| - 1]);
      var id := ids[|ids| - 1];
      if id in v.jobs && v.jobs[id].state == Running then Requeue(v, id, v.jobs[id].cpus, nm) else v
  }

  function NodeDown(w: World, nm: string): World {
    if nm in w.nodes then RequeueEach(w, nm, w.nodes[nm].listed) else w
  }

  /** The job record is replaced and no node is told: qalter, qhold, qrls, a second commit, the waiting-job tick. */
  function Rewrite(w: World, id: string, j: Job): World { w.(jobs := w.jobs[id := j]) }

  /** The node record is replaced. */
  function PutNode(w: World, nm: string, n: Node): World { w.(nodes := w.nodes[nm := n]) }

  /**
   `applyStateString`: a state it recognises clears every flag but the administrator's, and a node with
   jobs is then job-exclusive whatever the string was.
   */
  function Reported(n: Node, recognised: bool, flags: set<NS.Flag>): Node {
    n.(jobExclusive := (!recognised && n.jobExclusive) || n.listed != [], flags := flags)
  }

  /** `AddNode`, which leaves a known node alone; a new node is down. */
  function Enrol(w: World, nm: string, np: int): World {
    if nm in w.nodes then w else PutNode(w, nm, Node([], 0, np, np, false, {NS.Down}))
  }

  // ---------------------------------------------------------------- exactly when the ledger is kept

  /** The known nodes of the job. */
  ghost predicate KnownHost(w: World, id: string, h: string) { id in w.jobs && h in w.jobs[id].hosts && h in w.nodes }

  lemma LedgerAt(w: World, nm: string)
    requires Ledger(w) && nm in w.nodes
    ensures NodeOk(w.jobs, nm, w.nodes[nm])
  {
  }

  /** A job that is not running is started: the ledger is kept if and only if it is charged what it asks for. */
  lemma StartKeepsLedgerIff(w: World, id: string, hosts: seq<string>, slots: nat)
    requires Ledger(w) && id in w.jobs && w.jobs[id].state != Running
    requires hosts != [] && NoDup(hosts) && forall h :: h in hosts ==> h in w.nodes
    ensures Ledger(Start(w, id, hosts, slots)) <==> slots == w.jobs[id].cpus
  {
    var v := Start(w, id, hosts, slots);
    AssignEachAt(w.nodes, hosts, id, slots, hosts[0]);
    NodeAssigned(w.jobs, v.jobs, id, hosts[0], w.nodes[hosts[0]], slots);
    assert Ledger(v) ==> NodeOk(v.jobs, hosts[0], v.nodes[hosts[0]]);
    if slots == w.jobs[id].cpus {
      forall nm | nm in v.nodes ensures NodeOk(v.jobs, nm, v.nodes[nm]) {
        AssignEachAt(w.nodes, hosts, id, slots, nm);
        if nm in hosts {
          NodeAssigned(w.jobs, v.jobs, id, nm, w.nodes[nm], slots);
        } else {
          NodeUntouched(w.jobs, v.jobs, id, nm, w.nodes[nm]);
        }
      }
    }
  }

  /** What an obituary leaves of one node. */
  lemma ObitAt(w: World, raw: string, id: string, nm: string)
    requires Ledger(w) && id in w.jobs && (raw == id || raw !in w.jobs) && nm in w.nodes
    ensures nm in Obit(w, raw, id).nodes
    ensures NodeOk(Obit(w, raw, id).jobs, nm, Obit(w, raw, id).nodes[nm]) <==>
            (KnownHost(w, id, nm) ==> if w.jobs[id].state == Running then raw == id else w.nodes[nm].listed == [])
  {
    var j, v := w.jobs[id], Obit(w, raw, id);
    assert JobOk(j);
    ReleaseEachAt(w.nodes, j.hosts, raw, j.cpus, nm);
    if nm !in j.hosts {
      NodeUntouched(w.jobs, v.jobs, id, nm, w.nodes[nm]);
    } else if j.state != Running {
      NodeOverReleased(w.jobs, v.jobs, id, raw, nm, w.nodes[nm], j.cpus);
    } else if raw == id {
      NodeReleased(w.jobs, v.jobs, id, nm, w.nodes[nm], j.cpus);
    } else {
      assert RunsOn(w.jobs, id, nm) && !RunsOn(v.jobs, id, nm) && !RunsOn(w.jobs, raw, nm);
      RemoveFirstExact(w.nodes[nm].listed, raw);
    }
  }

  /**
   An obituary keeps the ledger if and only if, for a running job, it names the job in full, and, for
   any other job, every node the job last ran on has no jobs at all. Unknown nodes do not matter.
   */
  lemma ObitKeepsLedgerIff(w: World, raw: string, id: string)
    requires Ledger(w) && id in w.jobs && (raw == id || raw !in w.jobs)
    ensures Ledger(Obit(w, raw, id)) <==>
            forall h :: KnownHost(w, id, h) ==>
                if w.jobs[id].state == Running then raw == id else w.nodes[h].listed == []
  {
    var v := Obit(w, raw, id);
    assert JobOk(w.jobs[id]);
    forall nm | nm in v.nodes
      ensures nm in w.nodes
      ensures NodeOk(v.jobs, nm, v.nodes[nm]) <==>
              (KnownHost(w, id, nm) ==> if w.jobs[id].state == Running then raw == id else w.nodes[nm].listed == [])
    {
      ReleaseEachAt(w.nodes, w.jobs[id].hosts, raw, w.jobs[id].cpus, nm);
      ObitAt(w, raw, id, nm);
    }
    forall nm | KnownHost(w, id, nm) ensures nm in v.nodes { ObitAt(w, raw, id, nm); }
  }

  lemma DeleteAt(w: World, raw: string, id: string, nm: string)
    requires Ledger(w) && id in w.jobs && (raw == id || raw !in w.jobs) && nm in w.nodes
    ensures nm in Delete(w, raw, id).nodes
    ensures NodeOk(Delete(w, raw, id).jobs, nm, Delete(w, raw, id).nodes[nm]) <==>
            (KnownHost(w, id, nm) && w.jobs[id].state == Running ==> raw == id)
  {
    var j, v := w.jobs[id], Delete(w, raw, id);
    assert JobOk(j);
    ReleaseEachAt(w.nodes, j.hosts, raw, j.cpus, nm);
    if raw != id { assert v.jobs == w.jobs; }
    if j.state == Running && nm in j.hosts {
      if raw == id {
        NodeReleased(w.jobs, v.jobs, id, nm, w.nodes[nm], j.cpus);
      } else {
        RemoveFirstExact(w.nodes[nm].listed, raw);
        assert id in w.nodes[nm].listed;
        UsedPositive(w.jobs, w.nodes[nm].listed);
      }
    } else {
      NodeUntouched(w.jobs, v.jobs, id, nm, w.nodes[nm]);
    }
  }

  /** Deleting keeps the ledger unless a running job with a known node is named in short. */
  lemma DeleteKeepsLedgerIff(w: World, raw: string, id: string)
    requires Ledger(w) && id in w.jobs && (raw == id || raw !in w.jobs)
    ensures Ledger(Delete(w, raw, id)) <==>
            forall h :: KnownHost(w, id, h) && w.jobs[id].state == Running ==> raw == id
  {
    var v := Delete(w, raw, id);
    assert JobOk(w.jobs[id]);
    forall nm | nm in v.nodes
      ensures nm in w.nodes
      ensures NodeOk(v.jobs, nm, v.nodes[nm]) <==> (KnownHost(w, id, nm) && w.jobs[id].state == Running ==> raw == id)
    {
      ReleaseEachAt(w.nodes, w.jobs[id].hosts, raw, w.jobs[id].cpus, nm);
      DeleteAt(w, raw, id, nm);
    }
    forall nm | KnownHost(w, id, nm) ensures nm in v.nodes { DeleteAt(w, raw, id, nm); }
  }

  /** No node but `nm` runs the job. */
  ghost predicate RunsAtMostOn(w: World, id: string, nm: string) {
    forall h :: h in w.nodes && RunsOn(w.jobs, id, h) ==> h == nm
  }

  lemma RequeueAt(w: World, id: string, slots: nat, nm: string, h: string)
    requires Ledger(w) && nm in w.nodes && h in w.nodes && slots >= 1 && (id in w.jobs ==> slots == w.jobs[id].cpus)
    ensures var v := Requeue(w, id, slots, nm);
            NodeOk(v.jobs, h, v.nodes[h]) <==>
            if h == nm then RunsOn(w.jobs, id, nm) || w.nodes[nm].listed == [] else !RunsOn(w.jobs, id, h)
  {
    var v := Requeue(w, id, slots, nm);
    if h != nm {
      if RunsOn(w.jobs, id, h) {
        assert id in w.nodes[h].listed && !RunsOn(v.jobs, id, h);
      } else {
        NodeUntouched(w.jobs, v.jobs, id, h, w.nodes[h]);
      }
    } else if RunsOn(w.jobs, id, nm) {
      NodeReleased(w.jobs, v.jobs, id, nm, w.nodes[nm], slots);
    } else {
      NodeOverReleased(w.jobs, v.jobs, id, id, nm, w.nodes[nm], slots);
    }
  }

  /**
   `undoJobDispatch`, and one turn of the node-down loop: releasing one node keeps the ledger if and
   only if no other node runs the job and this one does, or lists no job at all.
   */
  lemma RequeueKeepsLedgerIff(w: World, id: string, slots: nat, nm: string)
    requires Ledger(w) && nm in w.nodes && slots >= 1 && (id in w.jobs ==> slots == w.jobs[id].cpus)
    ensures Ledger(Requeue(w, id, slots, nm)) <==>
            RunsAtMostOn(w, id, nm) && (RunsOn(w.jobs, id, nm) || w.nodes[nm].listed == [])
  {
    var v := Requeue(w, id, slots, nm);
    forall h | h in w.nodes
      ensures h in v.nodes
      ensures NodeOk(v.jobs, h, v.nodes[h]) <==>
              if h == nm then RunsOn(w.jobs, id, nm) || w.nodes[nm].listed == [] else !RunsOn(w.jobs, id, h)
    {
      RequeueAt(w, id, slots, nm, h);
    }
    assert v.nodes.Keys == w.nodes.Keys;
  }

  /** A rerun releases the first node only: it keeps the ledger unless the job runs on a further one. */
  lemma RerunKeepsLedgerIff(w: World, id: string)
    requires Ledger(w) && id in w.jobs
    ensures Ledger(Rerun(w, id)) <==>
            (w.jobs[id].state == Running ==> forall i :: 1 <= i < |w.jobs[id].hosts| ==>
                w.jobs[id].hosts[i] !in w.nodes)
  {
    var j, v := w.jobs[id], Rerun(w, id);
    assert JobOk(j);
    if j.state == Running && j.hosts != [] && j.hosts[0] in w.nodes {
      RequeueKeepsLedgerIff(w, id, j.cpus, j.hosts[0]);
      assert RunsOn(w.jobs, id, j.hosts[0]);
      forall i | 1 <= i < |j.hosts|
        ensures j.hosts[i] != j.hosts[0] && (j.hosts[i] in w.nodes ==> RunsOn(w.jobs, id, j.hosts[i]))
      {
      }
    } else if j.state == Running || j.state == Queued {
      forall nm | nm in w.nodes ensures NodeOk(v.jobs, nm, w.nodes[nm]) <==> !RunsOn(w.jobs, id, nm) {
        if RunsOn(w.jobs, id, nm) {
          assert id in w.nodes[nm].listed && !RunsOn(v.jobs, id, nm);
        } else {
          NodeUntouched(w.jobs, v.jobs, id, nm, w.nodes[nm]);
        }
      }
      forall i | 1 <= i < |j.hosts| && j.state == Running && j.hosts[i] in w.nodes
        ensures RunsOn(w.jobs, id, j.hosts[i])
      {
      }
    }
  }

  lemma {:induction false} RequeueEachFrame(w: World, nm: string, ids: seq<string>)
    requires nm in w.nodes
    ensures var v := RequeueEach(w, nm, ids);
            && v.nodes.Keys == w.nodes.Keys && v.jobs.Keys == w.jobs.Keys
            && (forall h :: h in w.nodes && h != nm ==> v.nodes[h] == w.nodes[h])
            && (forall id :: id in w.jobs && id !in ids ==> v.jobs[id] == w.jobs[id])
            && (forall id :: id in w.jobs && id in ids ==> v.jobs[id].state != Running)
  {
    if ids != [] {
      var m := |ids| - 1;
      assert ids == ids[..m] + [ids[m]];
      RequeueEachFrame(w, nm, ids[..m]);
      assert RequeueEach(w, nm, ids).jobs.Keys == RequeueEach(w, nm, ids[..m]).jobs.Keys;
      assert RequeueEach(w, nm, ids).nodes.Keys == RequeueEach(w, nm, ids[..m]).nodes.Keys;
    }
  }

  lemma {:induction false} RequeueEachKeeps(w: World, nm: string, ids: seq<string>)
    requires Ledger(w) && nm in w.nodes && NoDup(ids)
    requires forall id :: id in ids ==> RunsOn(w.jobs, id, nm) && RunsAtMostOn(w, id, nm)
    ensures Ledger(RequeueEach(w, nm, ids))
  {
    if ids != [] {
      NoDupPrefix(ids);
      var before, id := ids[..|ids| - 1], ids[|ids| - 1];
      RequeueEachKeeps(w, nm, before);
      RequeueEachFrame(w, nm, before);
      var v := RequeueEach(w, nm, before);
      assert id in ids && id in w.jobs && JobOk(w.jobs[id]);
      assert RunsAtMostOn(w, id, nm) && v.jobs[id] == w.jobs[id];
      assert RunsAtMostOn(v, id, nm);
      RequeueKeepsLedgerIff(v, id, v.jobs[id].cpus, nm);
    }
  }

  /** Requeueing the jobs of a dead node keeps the ledger if and only if none of them runs on another node as well. */
  lemma NodeDownKeepsLedgerIff(w: World, nm: string)
    requires Ledger(w) && nm in w.nodes
    ensures Ledger(NodeDown(w, nm)) <==> forall id :: id in w.nodes[nm].listed ==> RunsAtMostOn(w, id, nm)
  {
    var ids, v := w.nodes[nm].listed, NodeDown(w, nm);
    LedgerAt(w, nm);
    RequeueEachFrame(w, nm, ids);
    if forall id :: id in ids ==> RunsAtMostOn(w, id, nm) {
      RequeueEachKeeps(w, nm, ids);
    } else {
      var id :| id in ids && !RunsAtMostOn(w, id, nm);
      var h :| h in w.nodes && RunsOn(w.jobs, id, h) && h != nm;
      LedgerAt(w, h);
      assert id in v.nodes[h].listed && !RunsOn(v.jobs, id, h);
      assert !NodeOk(v.jobs, h, v.nodes[h]);
    }
  }

  /** The dead node is then empty and its jobs are no longer running. */
  lemma NodeDownEmpties(w: World, nm: string)
    requires Ledger(w) && nm in w.nodes && forall id :: id in w.nodes[nm].listed ==> RunsAtMostOn(w, id, nm)
    ensures var v := NodeDown(w, nm); nm in v.nodes && v.nodes[nm].listed == [] && v.nodes[nm].slotsUsed == 0
    ensures forall id :: id in w.nodes[nm].listed ==>
              id in NodeDown(w, nm).jobs && NodeDown(w, nm).jobs[id].state != Running
  {
    var ids, v := w.nodes[nm].listed, NodeDown(w, nm);
    NodeDownKeepsLedgerIff(w, nm);
    RequeueEachFrame(w, nm, ids);
    LedgerAt(w, nm);
    LedgerAt(v, nm);
    forall id ensures !RunsOn(v.jobs, id, nm) {
      assert id in ids <==> RunsOn(w.jobs, id, nm);
    }
    FirstIsMember(v.nodes[nm].listed);
  }

  /** What rewriting a job leaves of one node. */
  lemma RewriteAt(w: World, id: string, j: Job, nm: string)
    requires Ledger(w) && id in w.jobs && nm in w.nodes
    ensures NodeOk(Rewrite(w, id, j).jobs, nm, w.nodes[nm]) <==>
            if RunsOn(w.jobs, id, nm) then j.state == Running && nm in j.hosts && j.cpus == w.jobs[id].cpus
            else !(j.state == Running && nm in j.hosts)
  {
    var v, n := Rewrite(w, id, j), w.nodes[nm];
    LedgerAt(w, nm);
    if !RunsOn(w.jobs, id, nm) {
      NodeUntouched(w.jobs, v.jobs, id, nm, n);
    } else if RunsOn(v.jobs, id, nm) {
      UsedRemove(w.jobs, n.listed, id);
      UsedRemove(v.jobs, n.listed, id);
      RemoveFirstExact(n.listed, id);
      UsedFrame(w.jobs, v.jobs, RemoveFirst(n.listed, id));
      forall x ensures x in n.listed <==> RunsOn(v.jobs, x, nm) { assert x in n.listed <==> RunsOn(w.jobs, x, nm); }
    } else {
      assert id in n.listed;
    }
  }

  /** The two records are alike on every node of the cluster. */
  ghost predicate SameOnNodes(w: World, id: string, j: Job)
    requires id in w.jobs
  {
    forall h :: h in w.nodes ==>
      (RunsOn(w.jobs, id, h) <==> j.state == Running && h in j.hosts)
          && (RunsOn(w.jobs, id, h) ==> j.cpus == w.jobs[id].cpus)
  }

  /**
   Rewriting a job keeps the ledger if and only if the new record asks for a CPU, its hosts are distinct
   and, on every known node, the job runs there after as before, with the CPUs it had.
   */
  lemma RewriteKeepsLedgerIff(w: World, id: string, j: Job)
    requires Ledger(w) && id in w.jobs
    ensures Ledger(Rewrite(w, id, j)) <==> JobOk(j) && SameOnNodes(w, id, j)
  {
    var v := Rewrite(w, id, j);
    assert v.jobs[id] == j;
    forall h | h in w.nodes
      ensures NodeOk(v.jobs, h, v.nodes[h]) <==>
              if RunsOn(w.jobs, id, h) then j.state == Running && h in j.hosts && j.cpus == w.jobs[id].cpus
              else !(j.state == Running && h in j.hosts)
    {
      RewriteAt(w, id, j, h);
    }
  }

  /** Holding a running job, or making it wait, keeps the ledger if and only if no node of the cluster runs it. */
  lemma HoldKeepsLedgerIff(w: World, id: string, state: JobState)
    requires Ledger(w) && id in w.jobs && w.jobs[id].state == Running && state != Running
    ensures Ledger(Rewrite(w, id, w.jobs[id].(state := state))) <==> forall h :: !KnownHost(w, id, h)
  {
    var j := w.jobs[id].(state := state);
    assert JobOk(w.jobs[id]);
    RewriteKeepsLedgerIff(w, id, j);
    forall h | h in w.nodes ensures RunsOn(w.jobs, id, h) <==> KnownHost(w, id, h) {}
  }

  /** A job that is not running moves between other states freely. */
  lemma IdleStateKeepsLedger(w: World, id: string, state: JobState)
    requires Ledger(w) && id in w.jobs && w.jobs[id].state != Running && state != Running
    ensures Ledger(Rewrite(w, id, w.jobs[id].(state := state)))
  {
    assert JobOk(w.jobs[id]);
    RewriteKeepsLedgerIff(w, id, w.jobs[id].(state := state));
  }

  /** Changing the CPUs of a job keeps the ledger if and only if they stay the same or no node runs it. */
  lemma ResizeJobKeepsLedgerIff(w: World, id: string, cpus: nat)
    requires Ledger(w) && id in w.jobs && cpus >= 1
    ensures Ledger(Rewrite(w, id, w.jobs[id].(cpus := cpus))) <==>
            cpus == w.jobs[id].cpus || forall h :: h in w.nodes ==> !RunsOn(w.jobs, id, h)
  {
    assert JobOk(w.jobs[id]);
    RewriteKeepsLedgerIff(w, id, w.jobs[id].(cpus := cpus));
  }

  /** Writing anything about a node but its jobs and their slots keeps the ledger. */
  lemma PutNodeKeepsLedger(w: World, nm: string, n: Node)
    requires Ledger(w) && nm in w.nodes && n.listed == w.nodes[nm].listed && n.slotsUsed == w.nodes[nm].slotsUsed
    ensures Ledger(PutNode(w, nm, n))
  {
    LedgerAt(w, nm);
  }

  /** A new node keeps the ledger if and only if no running job names it already. */
  lemma EnrolKeepsLedgerIff(w: World, nm: string, np: int)
    requires Ledger(w)
    ensures Ledger(Enrol(w, nm, np)) <==> nm in w.nodes || forall id :: !RunsOn(w.jobs, id, nm)
  {
    var v := Enrol(w, nm, np);
    if nm !in w.nodes {
      assert NodeOk(w.jobs, nm, v.nodes[nm]) <==> forall id :: !RunsOn(w.jobs, id, nm);
      forall h | h in w.nodes ensures NodeOk(v.jobs, h, v.nodes[h]) { LedgerAt(w, h); }
    }
  }
}
