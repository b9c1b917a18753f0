/**
 The server's slot ledger: which jobs each node lists and how many slots it counts as used, across
 RunJob, obituary, delete, rerun, node-down requeue and dispatch undo. Each handler is one step.
 */
module SlotLedger {
  import opened Listing
  import NS = NodeState

  datatype JobState = Transit | Queued | Held | Waiting | Running | Exiting | Complete | Provisioning

  /**
   A job: the nodes of its exec_host, and its request as the server reads it: `cpus` by
   jobRequestedCPUs, `nodeCount` and `ppn` by jobNodeRequest.
   */
  datatype Job = Job(state: JobState, hosts: seq<string>, cpus: nat, nodeCount: nat, ppn: nat,
                     owner: string, group: string, queue: string)

  /** `jobExclusive` is the StateJob flag and `flags` are the other state flags that are set. */
  datatype Node = Node(listed: seq<string>, slotsUsed: nat, slotsTotal: int, numProcs: int, jobExclusive: bool,
                       flags: set<NS.Flag>)

  datatype World = World(jobs: map<string, Job>, nodes: map<string, Node>)

  // ---------------------------------------------------------------- nodes

  function RemoveFirst(ids: seq<string>, id: string): seq<string> {
    if ids == [] then []
    else if ids[0] == id then ids[1..]
    else [ids[0]] + RemoveFirst(ids[1..], id)
  }

  /** `AssignJob`. */
  function Assign(n: Node, id: string, slots: nat): Node {
    var used := n.slotsUsed + slots;
    n.(listed := n.listed + [id], slotsUsed := used, jobExclusive := n.jobExclusive || used >= n.slotsTotal)
  }

  /** `ReleaseJob`: the slots go even if the job is not listed. */
  function Release(n: Node, id: string, slots: nat): Node {
    var left := RemoveFirst(n.listed, id);
    n.(listed := left, slotsUsed := if slots <= n.slotsUsed then n.slotsUsed - slots else 0,
       jobExclusive := n.jobExclusive && left != [])
  }

  function AssignEach(nodes: map<string, Node>, hosts: seq<string>, id: string, slots: nat): map<string, Node> {
    if hosts == [] then nodes
    else
      var m := AssignEach(nodes, hosts[..|hosts| - 1], id, slots);
      var h := hosts[|hosts| - 1];
      if h in m then m[h := Assign(m[h], id, slots)] else m
  }

  function ReleaseEach(nodes: map<string, Node>, hosts: seq<string>, id: string, slots: nat): map<string, Node> {
    if hosts == [] then nodes
    else
      var m := ReleaseEach(nodes, hosts[..|hosts| - 1], id, slots);
      var h := hosts[|hosts| - 1];
      if h in m then m[h := Release(m[h], id, slots)] else m
  }

  /** Distinct hosts: each known one is assigned once and no other node changes. */
  lemma {:induction false} AssignEachAt(nodes: map<string, Node>, hosts: seq<string>, id: string, slots: nat,
                                        nm: string)
    requires NoDup(hosts)
    ensures nm in AssignEach(nodes, hosts, id, slots) <==> nm in nodes
    ensures nm in nodes ==> AssignEach(nodes, hosts, id, slots)[nm] ==
                            if nm in hosts then Assign(nodes[nm], id, slots) else nodes[nm]
  {
    if hosts != [] {
      NoDupPrefix(hosts);
      AssignEachAt(nodes, hosts[..|hosts| - 1], id, slots, nm);
    }
  }

  lemma {:induction false} ReleaseEachAt(nodes: map<string, Node>, hosts: seq<string>, id: string, slots: nat,
                                         nm: string)
    requires NoDup(hosts)
    ensures nm in ReleaseEach(nodes, hosts, id, slots) <==> nm in nodes
    ensures nm in nodes ==> ReleaseEach(nodes, hosts, id, slots)[nm] ==
                            if nm in hosts then Release(nodes[nm], id, slots) else nodes[nm]
  {
    if hosts != [] {
      NoDupPrefix(hosts);
      ReleaseEachAt(nodes, hosts[..|hosts| - 1], id, slots, nm);
    }
  }

  // ---------------------------------------------------------------- the job-exclusive flag

  /** A node without jobs is not job-exclusive, and one with jobs and no slot left is. */
  predicate FlagOk(n: Node) {
    (n.listed == [] ==> !n.jobExclusive) && (n.listed != [] && n.slotsUsed >= n.slotsTotal ==> n.jobExclusive)
  }

  ghost predicate FlagsOk(nodes: map<string, Node>) { forall nm :: nm in nodes ==> FlagOk(nodes[nm]) }

  lemma {:induction false} AssignEachKeepsFlags(nodes: map<string, Node>, hosts: seq<string>, id: string, slots: nat)
    requires FlagsOk(nodes)
    ensures FlagsOk(AssignEach(nodes, hosts, id, slots))
  {
    if hosts != [] { AssignEachKeepsFlags(nodes, hosts[..|hosts| - 1], id, slots); }
  }

  lemma {:induction false} ReleaseEachKeepsFlags(nodes: map<string, Node>, hosts: seq<string>, id: string, slots: nat)
    requires FlagsOk(nodes)
    ensures FlagsOk(ReleaseEach(nodes, hosts, id, slots))
  {
    if hosts != [] { ReleaseEachKeepsFlags(nodes, hosts[..|hosts| - 1], id, slots); }
  }

  // ---------------------------------------------------------------- the ledger

  /** The slots `used_cpus` reports: what each listed job asks for, one for a job that is gone. */
  function UsedCpus(jobs: map<string, Job>, ids: seq<string>): nat {
    if ids == [] then 0
    else UsedCpus(jobs, ids[1..]) + if ids[0] in jobs then jobs[ids[0]].cpus else 1
  }

  predicate RunsOn(jobs: map<string, Job>, id: string, nm: string) {
    id in jobs && jobs[id].state == Running && nm in jobs[id].hosts
  }

  /** The node lists exactly the jobs running on it, each once, and counts the slots they ask for. */
  ghost predicate NodeOk(jobs: map<string, Job>, nm: string, n: Node) {
    && NoDup(n.listed) && n.slotsUsed == UsedCpus(jobs, n.listed)
    && forall id :: id in n.listed <==> RunsOn(jobs, id, nm)
  }

  ghost predicate JobOk(j: Job) { j.cpus >= 1 && NoDup(j.hosts) }

  ghost predicate Ledger(w: World) {
    && (forall nm :: nm in w.nodes ==> NodeOk(w.jobs, nm, w.nodes[nm]))
    && (forall id :: id in w.jobs ==> JobOk(w.jobs[id]))
  }

  lemma {:induction false} UsedAppend(jobs: map<string, Job>, ids: seq<string>, id: string)
    requires id in jobs
    ensures UsedCpus(jobs, ids + [id]) == UsedCpus(jobs, ids) + jobs[id].cpus
  {
    if ids == [] {
      assert (ids + [id])[1..] == [];
    } else {
      assert (ids + [id])[1..] == ids[1..] + [id];
      UsedAppend(jobs, ids[1..], id);
    }
  }

  lemma {:induction false} UsedRemove(jobs: map<string, Job>, ids: seq<string>, id: string)
    requires id in jobs && id in ids
    ensures UsedCpus(jobs, ids) == UsedCpus(jobs, RemoveFirst(ids, id)) + jobs[id].cpus
  {
    if ids[0] != id {
      UsedRemove(jobs, ids[1..], id);
      var rest := RemoveFirst(ids[1..], id);
      assert ([ids[0]] + rest)[1..] == rest;
    }
  }

  /** Only the requests of the listed jobs matter. */
  lemma {:induction false} UsedFrame(jobs: map<string, Job>, jobs': map<string, Job>, ids: seq<string>)
    requires forall id :: id in ids ==> id in jobs && id in jobs' && jobs[id].cpus == jobs'[id].cpus
    ensures UsedCpus(jobs, ids) == UsedCpus(jobs', ids)
  {
    if ids != [] { UsedFrame(jobs, jobs', ids[1..]); }
  }

  lemma {:induction false} UsedPositive(jobs: map<string, Job>, ids: seq<string>)
    requires forall id :: id in ids && id in jobs ==> jobs[id].cpus >= 1
    ensures UsedCpus(jobs, ids) >= |ids|
  {
    if ids != [] { UsedPositive(jobs, ids[1..]); }
  }

  lemma {:induction false} RemoveFirstExact(ids: seq<string>, id: string)
    requires NoDup(ids)
    ensures NoDup(RemoveFirst(ids, id))
    ensures forall x :: x in RemoveFirst(ids, id) <==> x in ids && x != id
    ensures id !in ids ==> RemoveFirst(ids, id) == ids
  {
    if ids != [] {
      assert ids == [ids[0]] + ids[1..];
      NoDupTail(ids);
      if ids[0] != id {
        RemoveFirstExact(ids[1..], id);
        NoDupCons(ids[0], RemoveFirst(ids[1..], id));
      }
    }
  }

  // ---------------------------------------------------------------- one node through one change of one job

  /** `jobs'` differs from `jobs` at most in `id`. */
  ghost predicate OnlyChanges(jobs: map<string, Job>, jobs': map<string, Job>, id: string) {
    forall x :: x != id ==> (x in jobs' <==> x in jobs) && (x in jobs ==> jobs'[x] == jobs[x])
  }

  lemma NodeUntouched(jobs: map<string, Job>, jobs': map<string, Job>, id: string, nm: string, n: Node)
    requires NodeOk(jobs, nm, n) && OnlyChanges(jobs, jobs', id)
    requires !RunsOn(jobs, id, nm)
    ensures NodeOk(jobs', nm, n) <==> !RunsOn(jobs', id, nm)
  {
    UsedFrame(jobs, jobs', n.listed);
    if !RunsOn(jobs', id, nm) {
      forall x ensures x in n.listed <==> RunsOn(jobs', x, nm) { assert x in n.listed <==> RunsOn(jobs, x, nm); }
    }
  }

  lemma NodeAssigned(jobs: map<string, Job>, jobs': map<string, Job>, id: string, nm: string, n: Node, slots: nat)
    requires NodeOk(jobs, nm, n) && OnlyChanges(jobs, jobs', id)
    requires !RunsOn(jobs, id, nm) && RunsOn(jobs', id, nm)
    ensures NodeOk(jobs', nm, Assign(n, id, slots)) <==> slots == jobs'[id].cpus
  {
    UsedFrame(jobs, jobs', n.listed);
    UsedAppend(jobs', n.listed, id);
    forall x ensures x in n.listed + [id] <==> RunsOn(jobs', x, nm) { assert x in n.listed <==> RunsOn(jobs, x, nm); }
  }

  lemma NodeReleased(jobs: map<string, Job>, jobs': map<string, Job>, id: string, nm: string, n: Node, slots: nat)
    requires NodeOk(jobs, nm, n) && OnlyChanges(jobs, jobs', id)
    requires RunsOn(jobs, id, nm) && !RunsOn(jobs', id, nm) && slots == jobs[id].cpus
    ensures NodeOk(jobs', nm, Release(n, id, slots))
  {
    assert id in n.listed;
    UsedRemove(jobs, n.listed, id);
    RemoveFirstExact(n.listed, id);
    UsedFrame(jobs, jobs', RemoveFirst(n.listed, id));
    forall x ensures x in RemoveFirst(n.listed, id) <==> RunsOn(jobs', x, nm) {
      assert x in n.listed <==> RunsOn(jobs, x, nm);
    }
  }

  /**
   Giving back another number of slots than the job asks for does no harm only where nothing else is left to
   count.
   */
  lemma NodeReleasedIff(jobs: map<string, Job>, jobs': map<string, Job>, id: string, nm: string, n: Node, slots: nat)
    requires NodeOk(jobs, nm, n) && OnlyChanges(jobs, jobs', id) && (forall x :: x in jobs ==> JobOk(jobs[x]))
    requires RunsOn(jobs, id, nm) && !RunsOn(jobs', id, nm)
    ensures NodeOk(jobs', nm, Release(n, id, slots)) <==>
            slots == jobs[id].cpus || (slots > jobs[id].cpus && n.listed == [id])
  {
    NodeReleased(jobs, jobs', id, nm, n, jobs[id].cpus);
    var left := RemoveFirst(n.listed, id);
    UsedRemove(jobs, n.listed, id);
    RemoveFirstExact(n.listed, id);
    UsedFrame(jobs, jobs', left);
    UsedPositive(jobs, left);
    OnlyOneListed(n.listed, id);
  }

  lemma OnlyOneListed(ids: seq<string>, id: string)
    requires id in ids
    ensures RemoveFirst(ids, id) == [] <==> ids == [id]
  {
    if ids[0] == id { assert ids == [ids[0]] + ids[1..]; }
  }

  /** Releasing a name that is not listed takes slots from other jobs, unless the node has none. */
  lemma NodeOverReleased(jobs: map<string, Job>, jobs': map<string, Job>, id: string, raw: string, nm: string, n: Node,
                         slots: nat)
    requires NodeOk(jobs, nm, n) && OnlyChanges(jobs, jobs', id) && (forall x :: x in jobs ==> JobOk(jobs[x]))
    requires !RunsOn(jobs, id, nm) && !RunsOn(jobs', id, nm) && !RunsOn(jobs, raw, nm) && slots >= 1
    ensures NodeOk(jobs', nm, Release(n, raw, slots)) <==> n.listed == []
  {
    RemoveFirstExact(n.listed, raw);
    UsedFrame(jobs, jobs', n.listed);
    UsedPositive(jobs, n.listed);
    forall x ensures x in n.listed <==> RunsOn(jobs', x, nm) { assert x in n.listed <==> RunsOn(jobs, x, nm); }
  }
}
