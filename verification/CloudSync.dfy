/**
 The live job ids the scheduler hands to the elastic compute controller after a cycle, and which booting
 VMs the controller's job sync spares because of them.
 */
module CloudSync {
  import opened Listing
  import opened NodeState
  import opened CloudController

  /** A node: the jobs the server lists on it, and those dispatched to it in this cycle. */
  datatype NodeJobs = NodeJobs(listed: seq<string>, dispatched: seq<string>)

  /** The jobs of a node at the end of the cycle, as the scheduler has them. */
  function Held(n: NodeJobs): seq<string> {
    (if n.listed == [] then [] else JobsAsRead(n.listed)) + n.dispatched
  }

  predicate InSome(lists: seq<seq<string>>, id: string) { exists i :: 0 <= i < |lists| && id in lists[i] }

  predicate AliveId(queued: seq<seq<string>>, nodes: seq<NodeJobs>, id: string) {
    InSome(queued, id) || exists i :: 0 <= i < |nodes| && id in Held(nodes[i])
  }

  /** The loops that collect the live ids, and the list made of them in some order. */
  method AliveJobs(queued: seq<seq<string>>, nodes: seq<NodeJobs>) returns (alive: seq<string>)
    ensures NoDup(alive) && forall id :: id in alive <==> AliveId(queued, nodes, id)
  {
    var found: set<string> := {};
    for i := 0 to |queued|
      invariant forall id :: id in found <==> exists k :: 0 <= k < i && id in queued[k]
    {
      found := found + set id | id in queued[i];
    }
    ghost var fromQueues := found;
    for i := 0 to |nodes|
      invariant forall id :: id in found <==> id in fromQueues || exists k :: 0 <= k < i && id in Held(nodes[k])
    {
      found := found + set id | id in Held(nodes[i]);
    }
    alive := Enumerate(found);
  }

  /** An id as the server makes them: some text without a comma that does not start with a space. */
  predicate PlainId(id: string) { id != "" && ',' !in id && id[0] != ' ' }

  ghost predicate PlainIds(nodes: seq<NodeJobs>) {
    forall i, k :: 0 <= i < |nodes| && 0 <= k < |nodes[i].listed| ==> PlainId(nodes[i].listed[k])
  }

  /** Of the listed jobs the scheduler recognises the first one alone. */
  lemma HeldExact(n: NodeJobs, id: string)
    requires PlainId(id) && forall k :: 0 <= k < |n.listed| ==> PlainId(n.listed[k])
    ensures id in Held(n) <==> (n.listed != [] && id == n.listed[0]) || id in n.dispatched
  {
    if n.listed != [] {
      JobsReadWithSpace(n.listed);
      SpacedAt(n.listed[1..]);
      assert forall i :: 0 <= i < |n.listed| - 1 ==> Spaced(n.listed[1..])[i][0] == ' ';
    }
  }

  predicate RecognisedOn(n: NodeJobs, id: string) {
    (n.listed != [] && id == n.listed[0]) || id in n.dispatched
  }

  /** The job is queued, first on the list of a node, or dispatched in this cycle. */
  predicate Recognised(queued: seq<seq<string>>, nodes: seq<NodeJobs>, id: string) {
    || InSome(queued, id)
    || exists i :: 0 <= i < |nodes| && RecognisedOn(nodes[i], id)
  }

  lemma AliveIffRecognised(queued: seq<seq<string>>, nodes: seq<NodeJobs>, id: string)
    requires PlainId(id) && PlainIds(nodes)
    ensures AliveId(queued, nodes, id) <==> Recognised(queued, nodes, id)
  {
    forall i | 0 <= i < |nodes|
      ensures id in Held(nodes[i]) <==> (nodes[i].listed != [] && id == nodes[i].listed[0]) || id in nodes[i].dispatched
    {
      HeldExact(nodes[i], id);
    }
  }

  /** The job is queued, listed on a node, or dispatched in this cycle. */
  predicate Live(queued: seq<seq<string>>, nodes: seq<NodeJobs>, id: string) {
    InSome(queued, id) || exists i :: 0 <= i < |nodes| && (id in nodes[i].listed || id in nodes[i].dispatched)
  }

  /** The job sync spares the booting VM of every live job. */
  ghost predicate SparesLive(s: State, queued: seq<seq<string>>, nodes: seq<NodeJobs>, alive: seq<string>) {
    forall vm :: vm in s.provisioning && Live(queued, nodes, s.provisioning[vm]) ==> !Orphan(s, alive, vm)
  }

  /**
   The booting VM of a job outlives the job sync if and only if the job is queued, first on the list of a
   node or dispatched in this cycle, or the provider does not let the VM go.
   */
  lemma VmSparedIff(s: State, queued: seq<seq<string>>, nodes: seq<NodeJobs>, alive: seq<string>, stale: seq<string>,
                    reclaims: string -> bool, vm: string)
    requires forall id :: id in alive <==> AliveId(queued, nodes, id)
    requires NoDup(stale) && forall x :: x in stale <==> Orphan(s, alive, x)
    requires PlainIds(nodes) && vm in s.provisioning && PlainId(s.provisioning[vm])
    ensures vm in ScrapAll(s, stale, reclaims).provisioning <==>
            Recognised(queued, nodes, s.provisioning[vm]) || !reclaims(vm)
  {
    AliveIffRecognised(queued, nodes, s.provisioning[vm]);
    ScrapAllExact(s, stale, reclaims);
    ChosenMembers(stale, reclaims, vm);
  }

  /**
   Every live job keeps its booting VM if and only if each of them with one is queued, first on a node or just
   dispatched.
   */
  lemma SparesLiveIff(s: State, queued: seq<seq<string>>, nodes: seq<NodeJobs>, alive: seq<string>)
    requires forall id :: id in alive <==> AliveId(queued, nodes, id)
    requires PlainIds(nodes) && forall vm :: vm in s.provisioning && s.provisioning[vm] != "" ==>
             PlainId(s.provisioning[vm])
    ensures SparesLive(s, queued, nodes, alive) <==>
            forall vm :: vm in s.provisioning && s.provisioning[vm] != "" && Live(queued, nodes, s.provisioning[vm]) ==>
              Recognised(queued, nodes, s.provisioning[vm])
  {
    forall vm | vm in s.provisioning && s.provisioning[vm] != ""
      ensures !Orphan(s, alive, vm) <==> Recognised(queued, nodes, s.provisioning[vm])
    {
      AliveIffRecognised(queued, nodes, s.provisioning[vm]);
    }
  }

  /** The second job of a node runs, and the VM booting for it is an orphan to the controller. */
  lemma SecondJobLosesVm(s: State, alive: seq<string>)
    requires s.provisioning == map["vm" := "2.srv"]
    requires forall id :: id in alive <==> AliveId([], [NodeJobs(["1.srv", "2.srv"], [])], id)
    ensures Live([], [NodeJobs(["1.srv", "2.srv"], [])], "2.srv") && Orphan(s, alive, "vm")
  {
    var nodes := [NodeJobs(["1.srv", "2.srv"], [])];
    assert "2.srv" == nodes[0].listed[1] && "2.srv" in nodes[0].listed;
    AliveIffRecognised([], nodes, "2.srv");
  }
}
