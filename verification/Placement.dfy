/**
 Which nodes may take a job, which one the scheduler picks, and what a dispatch does to the node:
 `findNodeForJob`, `countSchedulableForJob` and their predicates.
 */
module Placement {
  import opened Decimal
  import opened Strings
  import opened Sorting

  datatype Job = Job(
    id: string, owner: string, queue: string, priority: int, queueTime: int, walltime: int, memReq: int,
    cpuReq: int, host: string, hostGroup: string, features: seq<string>, nodes: int, ppn: int, gres: map<string, nat>)

  /** What a cycle never changes about a node. */
  datatype NodeSpec = NodeSpec(
    name: string, state: string, loadAvg: real, properties: seq<string>, groups: seq<string>, dynamic: bool,
    gresTotal: map<string, int>)

  datatype Node = Node(spec: NodeSpec, freeCPUs: int, jobs: seq<string>, gresUsed: map<string, int>)

  datatype Queue = Queue(
    name: string, kind: string, enabled: bool, started: bool, jobs: seq<Job>, naccessPolicy: string,
    hostList: seq<string>, cloudBacked: bool, cloudSKU: string, cloudMinNodes: int, cloudMaxNodes: int)

  datatype Config = Config(loadBalancing: bool, strictFIFO: bool, backfill: bool, roundRobin: bool)

  /** A Go map read: absent keys count as zero. */
  function At(m: map<string, int>, k: string): int { if k in m then m[k] else 0 }

  /** The CPUs a job takes on its node: a request of zero stands for one. */
  function Cpus(j: Job): (c: int)
    ensures c != 0
  {
    if j.cpuReq == 0 then 1 else j.cpuReq
  }

  // ---------------------------------------------------------------- feasibility

  predicate BlockedToken(t: string) {
    t == "drain" || t == "excl" || t == "exclusive" || t == "offline" || t == "down" || t == "busy"
  }

  /** Scans the tokens of a state text up to the first one that decides. */
  predicate TokensSchedulable(tokens: seq<string>) {
    if tokens == [] then false
    else
      var t := TrimSpace(tokens[0]);
      if BlockedToken(t) then false
      else t == "job-exclusive" || TokensSchedulable(tokens[1..])
  }

  predicate NodeSchedulable(state: string) { state == "free" || TokensSchedulable(Split(state, ',')) }

  predicate HasGroup(n: NodeSpec, g: string) {
    exists i :: 0 <= i < |n.groups| && EqualFold(TrimSpace(n.groups[i]), g)
  }

  predicate HasAllFeatures(n: NodeSpec, want: seq<string>) {
    forall f :: f in want ==> exists i :: 0 <= i < |n.properties| && EqualFold(n.properties[i], f)
  }

  predicate HasGRes(n: Node, want: map<string, nat>) {
    forall name :: name in want ==> At(n.spec.gresTotal, name) - At(n.gresUsed, name) >= want[name]
  }

  /** One entry of a queue's host list: a group after `@`, otherwise a node name; blanks admit nobody. */
  predicate HostEntryAdmits(entry: string, n: NodeSpec) {
    var h := TrimSpace(entry);
    h != "" && if HasPrefix(h, "@") then HasGroup(n, TrimPrefix(h, "@")) else EqualFold(n.name, h)
  }

  predicate HostListAdmits(q: Queue, n: NodeSpec) {
    q.hostList == [] || exists i :: 0 <= i < |q.hostList| && HostEntryAdmits(q.hostList[i], n)
  }

  predicate Exclusive(q: Queue) {
    q.naccessPolicy == "exclusive" || q.naccessPolicy == "singleuser" || q.naccessPolicy == "exclhost"
    || q.naccessPolicy == "exec_host_exclusive"
  }

  predicate QueueNodeOK(q: Option<Queue>, n: Node) {
    q.None? || (HostListAdmits(q.value, n.spec) && (Exclusive(q.value) ==> n.jobs == []))
  }

  function QueueForJob(queues: seq<Queue>, name: string): (r: Option<Queue>)
    ensures r.Some? ==> r.value in queues && r.value.name == name
    ensures r.None? ==> forall q :: q in queues ==> q.name != name
  {
    if queues == [] then None
    else if queues[0].name == name then Some(queues[0])
    else QueueForJob(queues[1..], name)
  }

  /** The queue found is the first of its name. */
  lemma {:induction false} QueueFoundIsFirst(queues: seq<Queue>, name: string) returns (i: nat)
    requires QueueForJob(queues, name).Some?
    ensures i < |queues| && queues[i] == QueueForJob(queues, name).value && queues[i].name == name
    ensures forall k :: 0 <= k < i ==> queues[k].name != name
  {
    if queues[0].name == name {
      i := 0;
    } else {
      i := QueueFoundIsFirst(queues[1..], name);
      assert forall k :: 0 <= k < i ==> queues[k + 1] == queues[1..][k];
      i := i + 1;
    }
  }

  /** The constraints of a job that no dispatch can change. */
  predicate Allowed(n: NodeSpec, j: Job) {
    && NodeSchedulable(n.state)
    && (j.host != "" ==> EqualFold(n.name, j.host))
    && (j.features != [] ==> HasAllFeatures(n, j.features))
    && (j.hostGroup != "" ==> HasGroup(n, j.hostGroup))
  }

  /** Node `n` satisfies every constraint of `j` and has `cpus` free. */
  predicate Fits(queues: seq<Queue>, n: Node, j: Job, cpus: int) {
    && Allowed(n.spec, j)
    && QueueNodeOK(QueueForJob(queues, j.queue), n)
    && HasGRes(n, j.gres)
    && n.freeCPUs >= cpus
  }

  predicate Candidate(queues: seq<Queue>, n: Node, j: Job) { Fits(queues, n, j, Cpus(j)) }

  /** How many nodes satisfy the constraints of `j` with `cpus` free. */
  function Count(queues: seq<Queue>, nodes: seq<Node>, j: Job, cpus: int): nat {
    if nodes == [] then 0
    else Count(queues, nodes[..|nodes| - 1], j, cpus) + if Fits(queues, nodes[|nodes| - 1], j, cpus) then 1 else 0
  }

  function PerNode(j: Job): int { if j.ppn == 0 then Cpus(j) else j.ppn }

  /** A job for several nodes needs that many at once, each with its processors per node free. */
  predicate EnoughNodes(queues: seq<Queue>, nodes: seq<Node>, j: Job) {
    j.nodes > 1 ==> Count(queues, nodes, j, PerNode(j)) >= j.nodes
  }

  /** No node can be chosen for `j` now. */
  ghost predicate Blocked(queues: seq<Queue>, nodes: seq<Node>, j: Job) {
    !EnoughNodes(queues, nodes, j) || forall i :: 0 <= i < |nodes| ==> !Candidate(queues, nodes[i], j)
  }

  // ---------------------------------------------------------------- choice

  /** The comparison of the candidate sort: static before dynamic, then load or free CPUs. */
  predicate Before(cfg: Config, a: Node, b: Node) {
    if a.spec.dynamic != b.spec.dynamic then !a.spec.dynamic
    else if cfg.loadBalancing then a.spec.loadAvg < b.spec.loadAvg
    else a.freeCPUs < b.freeCPUs
  }

  function ByPreference(cfg: Config): ((nat, Node), (nat, Node)) -> bool {
    (a: (nat, Node), b: (nat, Node)) => Before(cfg, a.1, b.1)
  }

  lemma PreferenceIsOrder(cfg: Config)
    ensures StrictWeakOrder(ByPreference(cfg))
  {
  }

  /** Node `k` is the least candidate by (dynamic, load or free CPUs, node order). */
  ghost predicate Best(cfg: Config, queues: seq<Queue>, nodes: seq<Node>, j: Job, k: nat) {
    && k < |nodes| && EnoughNodes(queues, nodes, j) && Candidate(queues, nodes[k], j)
    && (forall i :: 0 <= i < |nodes| && Candidate(queues, nodes[i], j) ==> !Before(cfg, nodes[i], nodes[k]))
    && (forall i :: 0 <= i < k && Candidate(queues, nodes[i], j) ==> Before(cfg, nodes[k], nodes[i]))
  }

  /**
   What the choice means: a static node if any static one can take the job, and among the candidates of
   that kind the least loaded with load balancing, the one with the fewest free CPUs without.
   */
  lemma BestMeans(cfg: Config, queues: seq<Queue>, nodes: seq<Node>, j: Job, k: nat, i: nat)
    requires Best(cfg, queues, nodes, j, k) && i < |nodes| && Candidate(queues, nodes[i], j)
    ensures nodes[k].spec.dynamic ==> nodes[i].spec.dynamic
    ensures nodes[i].spec.dynamic == nodes[k].spec.dynamic && cfg.loadBalancing ==>
            nodes[k].spec.loadAvg <= nodes[i].spec.loadAvg
    ensures nodes[i].spec.dynamic == nodes[k].spec.dynamic && !cfg.loadBalancing ==>
            nodes[k].freeCPUs <= nodes[i].freeCPUs
  {
    assert !Before(cfg, nodes[i], nodes[k]);
  }

  method CountSchedulableForJob(queues: seq<Queue>, nodes: seq<Node>, j: Job, reqCPUs: int) returns (n: nat)
    ensures n == Count(queues, nodes, j, reqCPUs)
  {
    n := 0;
    for i := 0 to |nodes|
      invariant n == Count(queues, nodes[..i], j, reqCPUs)
    {
      assert nodes[..i + 1][..i] == nodes[..i];
      if Fits(queues, nodes[i], j, reqCPUs) { n := n + 1; }
    }
    assert nodes[..|nodes|] == nodes;
  }

  /** `found` lists the candidates among the first `n` nodes, in node order. */
  ghost predicate Collected(queues: seq<Queue>, nodes: seq<Node>, j: Job, n: nat, found: seq<(nat, Node)>)
    requires n <= |nodes|
  {
    && (forall k :: 0 <= k < |found| ==>
          found[k].0 < n && found[k].1 == nodes[found[k].0] && Candidate(queues, found[k].1, j))
    && (forall k, m :: 0 <= k < m < |found| ==> found[k].0 < found[m].0)
    && (forall i :: 0 <= i < n && Candidate(queues, nodes[i], j) ==> (i, nodes[i]) in found)
  }

  lemma CollectNext(queues: seq<Queue>, nodes: seq<Node>, j: Job, n: nat, found: seq<(nat, Node)>)
    requires n < |nodes| && Collected(queues, nodes, j, n, found)
    ensures Candidate(queues, nodes[n], j) ==> Collected(queues, nodes, j, n + 1, found + [(n, nodes[n])])
    ensures !Candidate(queues, nodes[n], j) ==> Collected(queues, nodes, j, n + 1, found)
  {
    var more := found + [(n, nodes[n])];
    assert more[|found|] == (n, nodes[n]);
    forall i | 0 <= i < n && (i, nodes[i]) in found
      ensures (i, nodes[i]) in more
    {
    }
  }

  /** Collects the candidates in node order. */
  method Candidates(queues: seq<Queue>, nodes: seq<Node>, j: Job) returns (found: seq<(nat, Node)>)
    ensures Collected(queues, nodes, j, |nodes|, found)
  {
    found := [];
    for i := 0 to |nodes|
      invariant Collected(queues, nodes, j, i, found)
    {
      CollectNext(queues, nodes, j, i, found);
      if Candidate(queues, nodes[i], j) { found := found + [(i, nodes[i])]; }
    }
  }

  /** The head of the sorted candidates is the best of all nodes. */
  lemma HeadIsBest(cfg: Config, queues: seq<Queue>, nodes: seq<Node>, j: Job, found: seq<(nat, Node)>)
    requires EnoughNodes(queues, nodes, j) && Collected(queues, nodes, j, |nodes|, found) && found != []
    ensures var sorted := Sort(found, ByPreference(cfg));
            sorted != [] && Best(cfg, queues, nodes, j, sorted[0].0)
  {
    PreferenceIsOrder(cfg);
    var k := SortHead(found, ByPreference(cfg));
    var best := found[k].0;
    forall i | 0 <= i < |nodes| && Candidate(queues, nodes[i], j)
      ensures !Before(cfg, nodes[i], nodes[best]) && (i < best ==> Before(cfg, nodes[best], nodes[i]))
    {
      var m :| 0 <= m < |found| && found[m] == (i, nodes[i]);
      assert !ByPreference(cfg)(found[m], found[k]);
    }
  }

  lemma NoneFoundIff(queues: seq<Queue>, nodes: seq<Node>, j: Job, found: seq<(nat, Node)>)
    requires EnoughNodes(queues, nodes, j) && Collected(queues, nodes, j, |nodes|, found)
    ensures found == [] <==> Blocked(queues, nodes, j)
  {
    if found != [] { assert Candidate(queues, found[0].1, j); }
  }

  /** `findNodeForJob`: nil exactly when the job is blocked, otherwise the least candidate. */
  method FindNodeForJob(cfg: Config, queues: seq<Queue>, nodes: seq<Node>, j: Job) returns (r: Option<nat>)
    ensures r.None? <==> Blocked(queues, nodes, j)
    ensures r.Some? ==> Best(cfg, queues, nodes, j, r.value)
  {
    if j.nodes > 1 {
      var n := CountSchedulableForJob(queues, nodes, j, PerNode(j));
      if n < j.nodes { return None; }
    }
    var found := Candidates(queues, nodes, j);
    NoneFoundIff(queues, nodes, j, found);
    if found == [] { return None; }
    HeadIsBest(cfg, queues, nodes, j, found);
    return Some(Sort(found, ByPreference(cfg))[0].0);
  }

  // ---------------------------------------------------------------- dispatch

  function AddUsed(used: map<string, int>, gres: map<string, nat>): (r: map<string, int>)
    ensures forall k :: At(r, k) == At(used, k) + if k in gres then gres[k] else 0
  {
    map k | k in used.Keys + gres.Keys :: At(used, k) + if k in gres then gres[k] else 0
  }

  function Debit(n: Node, j: Job): Node {
    Node(n.spec, n.freeCPUs - Cpus(j), n.jobs + [j.id], AddUsed(n.gresUsed, j.gres))
  }

  /** `after` is `before` with nothing given back. */
  ghost predicate NoRoomier(after: Node, before: Node) {
    && after.spec == before.spec
    && after.freeCPUs <= before.freeCPUs
    && |before.jobs| <= |after.jobs|
    && forall k :: At(before.gresUsed, k) <= At(after.gresUsed, k)
  }

  ghost predicate AllNoRoomier(after: seq<Node>, before: seq<Node>) {
    |after| == |before| && forall i :: 0 <= i < |after| ==> NoRoomier(after[i], before[i])
  }

  lemma FitsShrinks(queues: seq<Queue>, after: Node, before: Node, j: Job, cpus: int)
    requires NoRoomier(after, before) && Fits(queues, after, j, cpus)
    ensures Fits(queues, before, j, cpus)
  {
    forall name | name in j.gres
      ensures At(before.spec.gresTotal, name) - At(before.gresUsed, name) >= j.gres[name]
    {
      assert At(before.gresUsed, name) <= At(after.gresUsed, name);
    }
  }

  lemma {:induction false} CountShrinks(queues: seq<Queue>, after: seq<Node>, before: seq<Node>, j: Job, cpus: int)
    requires AllNoRoomier(after, before)
    ensures Count(queues, after, j, cpus) <= Count(queues, before, j, cpus)
  {
    if after != [] {
      var m := |after| - 1;
      CountShrinks(queues, after[..m], before[..m], j, cpus);
      if Fits(queues, after[m], j, cpus) { FitsShrinks(queues, after[m], before[m], j, cpus); }
    }
  }

  /** Blocked stays blocked while nodes only lose room. */
  lemma BlockedStays(queues: seq<Queue>, after: seq<Node>, before: seq<Node>, j: Job)
    requires AllNoRoomier(after, before) && Blocked(queues, before, j)
    ensures Blocked(queues, after, j)
  {
    if j.nodes > 1 { CountShrinks(queues, after, before, j, PerNode(j)); }
    forall i | 0 <= i < |after| && Candidate(queues, after[i], j)
      ensures Candidate(queues, before[i], j)
    {
      FitsShrinks(queues, after[i], before[i], j, Cpus(j));
    }
  }

  lemma DebitNoRoomier(nodes: seq<Node>, k: nat, d: Job)
    requires k < |nodes| && d.cpuReq >= 0
    ensures AllNoRoomier(nodes[k := Debit(nodes[k], d)], nodes)
  {
  }

  /** No dispatch of a job that asks for `c` CPUs ever unblocks another job, on any cluster. */
  ghost predicate KeepsBlocked(c: int) {
    forall queues: seq<Queue>, nodes: seq<Node>, k: nat, d: Job, j: Job ::
      d.cpuReq == c && k < |nodes| && Candidate(queues, nodes[k], d) && Blocked(queues, nodes, j) ==>
        Blocked(queues, nodes[k := Debit(nodes[k], d)], j)
  }

  /** Dispatching keeps blocked jobs blocked exactly when the CPU request is not negative. */
  lemma KeepsBlockedIff(c: int)
    ensures KeepsBlocked(c) <==> c >= 0
  {
    if c >= 0 {
      forall queues, nodes: seq<Node>, k: nat, d: Job, j |
        d.cpuReq == c && k < |nodes| && Candidate(queues, nodes[k], d) && Blocked(queues, nodes, j)
        ensures Blocked(queues, nodes[k := Debit(nodes[k], d)], j)
      {
        DebitNoRoomier(nodes, k, d);
        BlockedStays(queues, nodes[k := Debit(nodes[k], d)], nodes, j);
      }
    } else {
      NegativeRequestUnblocks(c);
    }
  }

  /** A job without constraints. */
  function Plain(id: string, cpuReq: int): Job {
    Job(id, "", "", 0, 0, 0, 0, cpuReq, "", "", [], 1, 1, map[])
  }

  /** A negative request gives CPUs to its node: a job that needed one more now fits. */
  lemma NegativeRequestUnblocks(c: int)
    requires c < 0
    ensures !KeepsBlocked(c)
  {
    var d, j := Plain("d", c), Plain("j", 1);
    var nodes := [Node(NodeSpec("n", "free", 0.0, [], [], false, map[]), 0, [], map[])];
    var after := nodes[0 := Debit(nodes[0], d)];
    assert Candidate([], nodes[0], d) && Blocked([], nodes, j);
    assert Candidate([], after[0], j);
    assert !Blocked([], after, j);
  }
}
