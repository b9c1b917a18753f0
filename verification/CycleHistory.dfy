/**
 What holds of every sequence of dispatches a scheduling cycle can make: resources are conserved
 and never over-committed, local nodes come first, exclusive jobs start on idle nodes, and the
 demand of blocked cloud jobs is added up exactly.
 */
module CycleHistory {
  import opened Decimal
  import opened Placement
  import opened JobIterator

  /** A job dispatched to a node. */
  datatype Placed = Placed(pos: Pos, job: Job, node: nat)

  function DebitAt(nodes: seq<Node>, k: nat, j: Job): (r: seq<Node>)
    ensures |r| == |nodes|
  {
    if k < |nodes| then nodes[k := Debit(nodes[k], j)] else nodes
  }

  /** The nodes after a list of dispatches. */
  function ApplyAll(nodes: seq<Node>, ps: seq<Placed>): (r: seq<Node>)
    ensures |r| == |nodes|
  {
    if ps == [] then nodes
    else
      var m := |ps| - 1;
      DebitAt(ApplyAll(nodes, ps[..m]), ps[m].node, ps[m].job)
  }

  /** Each dispatch went to the best node there was at its moment. */
  ghost predicate History(cfg: Config, queues: seq<Queue>, nodes: seq<Node>, ps: seq<Placed>) {
    ps == [] ||
    var m := |ps| - 1;
    && History(cfg, queues, nodes, ps[..m])
    && Best(cfg, queues, ApplyAll(nodes, ps[..m]), ps[m].job, ps[m].node)
  }

  predicate NonNegative(ps: seq<Placed>) { forall k :: 0 <= k < |ps| ==> ps[k].job.cpuReq >= 0 }

  lemma {:induction false} HistoryAt(cfg: Config, queues: seq<Queue>, nodes: seq<Node>, ps: seq<Placed>, k: nat)
    requires History(cfg, queues, nodes, ps) && k < |ps|
    ensures Best(cfg, queues, ApplyAll(nodes, ps[..k]), ps[k].job, ps[k].node)
  {
    var m := |ps| - 1;
    if k < m {
      HistoryAt(cfg, queues, nodes, ps[..m], k);
      assert ps[..m][..k] == ps[..k];
    }
  }

  // ---------------------------------------------------------------- nodes only lose room

  lemma NoRoomierTransitive(a: seq<Node>, b: seq<Node>, c: seq<Node>)
    requires AllNoRoomier(a, b) && AllNoRoomier(b, c)
    ensures AllNoRoomier(a, c)
  {
    forall i | 0 <= i < |a| ensures NoRoomier(a[i], c[i]) {
      assert NoRoomier(a[i], b[i]) && NoRoomier(b[i], c[i]);
    }
  }

  /** Between any two moments of a cycle the nodes only lose room. */
  lemma {:induction false} LaterNoRoomier(nodes: seq<Node>, ps: seq<Placed>, k: nat)
    requires k <= |ps| && NonNegative(ps)
    ensures AllNoRoomier(ApplyAll(nodes, ps), ApplyAll(nodes, ps[..k]))
  {
    var m := |ps| - 1;
    if k == |ps| {
      assert ps[..k] == ps;
    } else {
      assert NonNegative(ps[..m]) && ps[..m][..k] == ps[..k];
      LaterNoRoomier(nodes, ps[..m], k);
      var before := ApplyAll(nodes, ps[..m]);
      if ps[m].node < |nodes| { DebitNoRoomier(before, ps[m].node, ps[m].job); }
      NoRoomierTransitive(ApplyAll(nodes, ps), before, ApplyAll(nodes, ps[..k]));
    }
  }

  /** A job that was blocked after `k` dispatches is blocked after all of them. */
  lemma BlockedLater(queues: seq<Queue>, nodes: seq<Node>, ps: seq<Placed>, k: nat, j: Job)
    requires k <= |ps| && NonNegative(ps)
    requires Blocked(queues, ApplyAll(nodes, ps[..k]), j)
    ensures Blocked(queues, ApplyAll(nodes, ps), j)
  {
    LaterNoRoomier(nodes, ps, k);
    BlockedStays(queues, ApplyAll(nodes, ps), ApplyAll(nodes, ps[..k]), j);
  }

  // ---------------------------------------------------------------- local nodes first

  lemma {:induction false} SpecsKept(nodes: seq<Node>, ps: seq<Placed>, i: nat)
    requires i < |nodes|
    ensures ApplyAll(nodes, ps)[i].spec == nodes[i].spec
  {
    if ps != [] { SpecsKept(nodes, ps[..|ps| - 1], i); }
  }

  /**
   When a job goes to a dynamic node, no static node can take it: not at that moment and not at
   any later point of the cycle.
   */
  lemma LocalFirst(cfg: Config, queues: seq<Queue>, nodes: seq<Node>, ps: seq<Placed>, k: nat, i: nat)
    requires History(cfg, queues, nodes, ps) && NonNegative(ps)
    requires k < |ps| && ps[k].node < |nodes| && nodes[ps[k].node].spec.dynamic
    requires i < |nodes| && !nodes[i].spec.dynamic
    ensures !Candidate(queues, ApplyAll(nodes, ps[..k])[i], ps[k].job)
    ensures !Candidate(queues, ApplyAll(nodes, ps)[i], ps[k].job)
  {
    HistoryAt(cfg, queues, nodes, ps, k);
    var moment := ApplyAll(nodes, ps[..k]);
    SpecsKept(nodes, ps[..k], i);
    SpecsKept(nodes, ps[..k], ps[k].node);
    assert Before(cfg, moment[i], moment[ps[k].node]);
    LaterNoRoomier(nodes, ps, k);
    if Candidate(queues, ApplyAll(nodes, ps)[i], ps[k].job) {
      FitsShrinks(queues, ApplyAll(nodes, ps)[i], moment[i], ps[k].job, Cpus(ps[k].job));
    }
  }

  // ---------------------------------------------------------------- no over-commit

  /** Neither CPUs nor generic resources are over-committed. */
  ghost predicate InBudget(n: Node) {
    n.freeCPUs >= 0 && forall name :: At(n.gresUsed, name) <= At(n.spec.gresTotal, name)
  }

  lemma DebitInBudget(queues: seq<Queue>, n: Node, j: Job)
    requires InBudget(n) && Candidate(queues, n, j)
    ensures InBudget(Debit(n, j))
  {
    var d := Debit(n, j);
    forall name ensures At(d.gresUsed, name) <= At(d.spec.gresTotal, name) {
      if name in j.gres { assert At(n.spec.gresTotal, name) - At(n.gresUsed, name) >= j.gres[name]; }
    }
  }

  /** A cluster within budget stays within budget, whatever the sign of the requests. */
  lemma {:induction false} NoOverCommit(cfg: Config, queues: seq<Queue>, nodes: seq<Node>, ps: seq<Placed>)
    requires History(cfg, queues, nodes, ps)
    requires forall i :: 0 <= i < |nodes| ==> InBudget(nodes[i])
    ensures forall i :: 0 <= i < |nodes| ==> InBudget(ApplyAll(nodes, ps)[i])
  {
    if ps != [] {
      var m := |ps| - 1;
      NoOverCommit(cfg, queues, nodes, ps[..m]);
      DebitInBudget(queues, ApplyAll(nodes, ps[..m])[ps[m].node], ps[m].job);
    }
  }

  function TotalFree(nodes: seq<Node>): int {
    if nodes == [] then 0 else TotalFree(nodes[..|nodes| - 1]) + nodes[|nodes| - 1].freeCPUs
  }

  function TotalCpus(ps: seq<Placed>): int {
    if ps == [] then 0 else TotalCpus(ps[..|ps| - 1]) + Cpus(ps[|ps| - 1].job)
  }

  lemma {:induction false} TotalFreeUpdate(nodes: seq<Node>, k: nat, n: Node)
    requires k < |nodes|
    ensures TotalFree(nodes[k := n]) == TotalFree(nodes) - nodes[k].freeCPUs + n.freeCPUs
  {
    var m := |nodes| - 1;
    if k < m {
      TotalFreeUpdate(nodes[..m], k, n);
      assert nodes[k := n][..m] == nodes[..m][k := n];
    } else {
      assert nodes[k := n][..m] == nodes[..m];
    }
  }

  /** The free CPUs of the cluster fall by exactly what the dispatched jobs asked for, zero counting as one. */
  lemma {:induction false} CpusConserved(cfg: Config, queues: seq<Queue>, nodes: seq<Node>, ps: seq<Placed>)
    requires History(cfg, queues, nodes, ps)
    ensures TotalFree(ApplyAll(nodes, ps)) + TotalCpus(ps) == TotalFree(nodes)
  {
    if ps != [] {
      var m := |ps| - 1;
      CpusConserved(cfg, queues, nodes, ps[..m]);
      var before := ApplyAll(nodes, ps[..m]);
      TotalFreeUpdate(before, ps[m].node, Debit(before[ps[m].node], ps[m].job));
    }
  }

  // ---------------------------------------------------------------- exclusive queues

  /** The jobs dispatched to node `i`, in order. */
  function IdsOn(ps: seq<Placed>, i: nat): seq<string> {
    if ps == [] then []
    else IdsOn(ps[..|ps| - 1], i) + if ps[|ps| - 1].node == i then [ps[|ps| - 1].job.id] else []
  }

  lemma {:induction false} JobLists(nodes: seq<Node>, ps: seq<Placed>, i: nat)
    requires i < |nodes|
    ensures ApplyAll(nodes, ps)[i].jobs == nodes[i].jobs + IdsOn(ps, i)
  {
    if ps != [] { JobLists(nodes, ps[..|ps| - 1], i); }
  }

  lemma {:induction false} PlacedIsListed(ps: seq<Placed>, k: nat)
    requires k < |ps|
    ensures IdsOn(ps, ps[k].node) != []
  {
    var m := |ps| - 1;
    if k < m { PlacedIsListed(ps[..m], k); }
  }

  predicate FromExclusiveQueue(queues: seq<Queue>, j: Job) {
    QueueForJob(queues, j.queue).Some? && Exclusive(QueueForJob(queues, j.queue).value)
  }

  /**
   A job of an exclusive queue is the first of its node: nothing ran there and nothing was dispatched there before
   it.
   */
  lemma ExclusiveIsFirst(cfg: Config, queues: seq<Queue>, nodes: seq<Node>, ps: seq<Placed>, e: nat)
    requires History(cfg, queues, nodes, ps) && e < |ps| && FromExclusiveQueue(queues, ps[e].job)
    ensures ps[e].node < |nodes| && nodes[ps[e].node].jobs == []
    ensures forall k :: 0 <= k < e ==> ps[k].node != ps[e].node
  {
    HistoryAt(cfg, queues, nodes, ps, e);
    JobLists(nodes, ps[..e], ps[e].node);
    forall k | 0 <= k < e ensures ps[k].node != ps[e].node {
      PlacedIsListed(ps[..e], k);
    }
  }

  /** Hence two jobs of exclusive queues never share a node. */
  lemma ExclusiveJobsApart(cfg: Config, queues: seq<Queue>, nodes: seq<Node>, ps: seq<Placed>, a: nat, b: nat)
    requires History(cfg, queues, nodes, ps) && a < |ps| && b < |ps| && a != b
    requires FromExclusiveQueue(queues, ps[a].job) && FromExclusiveQueue(queues, ps[b].job)
    ensures ps[a].node != ps[b].node
  {
    ExclusiveIsFirst(cfg, queues, nodes, ps, a);
    ExclusiveIsFirst(cfg, queues, nodes, ps, b);
  }

  // ---------------------------------------------------------------- capacity events

  datatype CapacityEvent = CapacityEvent(
    queue: string, sku: string, jobs: seq<string>, cores: int, nodes: int, blocked: nat, minNodes: int, maxNodes: int)

  predicate CloudQueue(queues: seq<Queue>, name: string) {
    QueueForJob(queues, name).Some? && QueueForJob(queues, name).value.cloudBacked
  }

  function NewEvent(q: Queue): CapacityEvent {
    CapacityEvent(q.name, q.cloudSKU, [], 0, 0, 0, q.cloudMinNodes, q.cloudMaxNodes)
  }

  /** Adds the demand of one blocked job, if its queue may scale out. */
  function AddDemand(queues: seq<Queue>, pending: map<string, CapacityEvent>, j: Job): map<string, CapacityEvent> {
    if !CloudQueue(queues, j.queue) then pending
    else
      var q := QueueForJob(queues, j.queue).value;
      var ev := if q.name in pending then pending[q.name] else NewEvent(q);
      pending[q.name := ev.(cores := ev.cores + Cpus(j), blocked := ev.blocked + 1, jobs := ev.jobs + [j.id])]
  }

  function Pending(queues: seq<Queue>, js: seq<Job>): map<string, CapacityEvent> {
    if js == [] then map[] else AddDemand(queues, Pending(queues, js[..|js| - 1]), js[|js| - 1])
  }

  /** The blocked jobs of queue `name`, in the order met. */
  function Of(js: seq<Job>, name: string): seq<Job> {
    if js == [] then []
    else Of(js[..|js| - 1], name) + if js[|js| - 1].queue == name then [js[|js| - 1]] else []
  }

  function CpuSum(js: seq<Job>): int {
    if js == [] then 0 else CpuSum(js[..|js| - 1]) + Cpus(js[|js| - 1])
  }

  function Ids(js: seq<Job>): seq<string> {
    if js == [] then [] else Ids(js[..|js| - 1]) + [js[|js| - 1].id]
  }

  /**
   A queue has an event exactly when it is cloud-backed and one of its jobs blocked; the event names them all and
   adds their CPUs.
   */
  lemma {:induction false} PendingExact(queues: seq<Queue>, js: seq<Job>, name: string)
    ensures name in Pending(queues, js) <==> CloudQueue(queues, name) && Of(js, name) != []
    ensures name in Pending(queues, js) ==>
              var ev := Pending(queues, js)[name];
              && ev.queue == name && ev.cores == CpuSum(Of(js, name)) && ev.jobs == Ids(Of(js, name))
              && ev.blocked == |Of(js, name)|
              && ev == NewEvent(QueueForJob(queues, name).value).(cores := ev.cores, jobs := ev.jobs,
                 blocked := ev.blocked)
  {
    if js != [] {
      var m := |js| - 1;
      PendingExact(queues, js[..m], name);
      if js[m].queue == name {
        assert (Of(js[..m], name) + [js[m]])[..|Of(js[..m], name)|] == Of(js[..m], name);
      } else {
        assert Of(js, name) == Of(js[..m], name);
      }
    }
  }

  /** The node shortfall of an event: cores over cores per node, rounded up, capped, at least one. */
  function Finish(ev: CapacityEvent): CapacityEvent {
    var perNode := if ev.sku == "" then 1 else 2;
    var n := if ev.cores > 0 then (ev.cores + perNode - 1) / perNode else ev.nodes;
    var capped := if ev.maxNodes > 0 && n >= ev.maxNodes then ev.maxNodes else n;
    ev.(nodes := if capped < 1 then 1 else capped)
  }

  /** The shortfall is the least node count that covers the cores, cut off at the queue's maximum. */
  lemma ShortfallCoversCores(ev: CapacityEvent)
    requires ev.nodes == 0
    ensures var f := Finish(ev);
            var perNode := if ev.sku == "" then 1 else 2;
            && f.nodes >= 1 && (ev.maxNodes > 0 ==> f.nodes <= ev.maxNodes)
            && (ev.cores > 0 && (ev.maxNodes <= 0 || f.nodes < ev.maxNodes) ==>
                  (f.nodes - 1) * perNode < ev.cores <= f.nodes * perNode)
  {
  }
}
