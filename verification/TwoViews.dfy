/**
 The scheduler's free CPUs against the server's slots: while a cycle dispatches, the scheduler debits the node it
 chose by the CPUs the job asks for, and the server charges the nodes it starts the job on.
 */
module TwoViews {
  import opened Decimal
  import P = Placement
  import L = SlotLedger
  import NR = NodeRequest
  import opened SlotSteps
  import opened SlotRuns
  import opened SlotServer

  /** The scheduler lists the nodes of the server, each once. */
  ghost predicate Listed(nodes: seq<P.Node>, w: L.World) {
    && (forall i :: 0 <= i < |nodes| ==> nodes[i].spec.name in w.nodes)
    && (forall i, j :: 0 <= i < j < |nodes| ==> nodes[i].spec.name != nodes[j].spec.name)
    && (forall nm :: nm in w.nodes ==> exists i :: 0 <= i < |nodes| && nodes[i].spec.name == nm)
  }

  /** The slots left on a node; the model does not ask for them on a node the server does not know. */
  function Room(w: L.World, nm: string): int {
    if nm in w.nodes then w.nodes[nm].slotsTotal - w.nodes[nm].slotsUsed else 0
  }

  /** Every node has as many CPUs free in the scheduler as slots in the server. */
  ghost predicate SameRoom(nodes: seq<P.Node>, w: L.World) {
    forall i :: 0 <= i < |nodes| ==> nodes[i].freeCPUs == Room(w, nodes[i].spec.name)
  }

  /**
   A job the scheduler sent to the node at `place`. The server accepted it and started it on `hosts`, or did not
   start it for want of nodes.
   */
  datatype Dispatch = Dispatch(job: P.Job, place: nat, started: bool, id: string, hosts: seq<string>, slots: nat)

  function Request(d: Dispatch): SlotRuns.Request { RunJob(d.id, d.hosts, d.slots) }

  ghost predicate Together(nodes: seq<P.Node>, w: L.World, d: Dispatch) {
    && d.place < |nodes| && d.id in w.jobs
    && (d.started ==> Possible(w, Request(d)) && d.hosts[0] == nodes[d.place].spec.name && d.slots >= 1
                      && Charged(w.jobs[d.id], Request(d)))
  }

  function Debited(nodes: seq<P.Node>, d: Dispatch): seq<P.Node>
    requires d.place < |nodes|
  {
    nodes[d.place := P.Debit(nodes[d.place], d.job)]
  }

  ghost function Served(w: L.World, d: Dispatch): L.World
    requires d.started ==> Possible(w, Request(d))
  {
    if d.started then Apply(w, Request(d)) else w
  }

  /** The job was started on one node, and the scheduler takes it to ask for the CPUs the server charges. */
  predicate Matched(w: L.World, d: Dispatch)
    requires d.id in w.jobs
  {
    d.started && w.jobs[d.id].nodeCount <= 1 && P.Cpus(d.job) == w.jobs[d.id].cpus
  }

  function Debit(d: Dispatch, i: nat): int { if i == d.place then P.Cpus(d.job) else 0 }

  function Charge(d: Dispatch, nm: string): nat { if d.started && nm in d.hosts then d.slots else 0 }

  lemma RoomAfter(w: L.World, d: Dispatch, nm: string)
    requires d.started ==> Possible(w, Request(d))
    ensures nm in Served(w, d).nodes <==> nm in w.nodes
    ensures nm in w.nodes ==> Room(Served(w, d), nm) == Room(w, nm) - Charge(d, nm)
  {
    if d.started { L.AssignEachAt(w.nodes, d.hosts, d.id, d.slots, nm); }
  }

  lemma StillListed(nodes: seq<P.Node>, w: L.World, d: Dispatch)
    requires Listed(nodes, w) && Together(nodes, w, d)
    ensures Listed(Debited(nodes, d), Served(w, d))
  {
    var after, v := Debited(nodes, d), Served(w, d);
    forall nm ensures nm in v.nodes <==> nm in w.nodes { RoomAfter(w, d, nm); }
    forall nm | nm in w.nodes ensures exists i :: 0 <= i < |after| && after[i].spec.name == nm {
      var i :| 0 <= i < |nodes| && nodes[i].spec.name == nm;
      assert after[i].spec.name == nm;
    }
  }

  /** On a node on which the views agreed they agree if and only if it is debited what it is charged. */
  lemma NodeAgreesIff(nodes: seq<P.Node>, w: L.World, d: Dispatch, i: nat)
    requires Listed(nodes, w) && Together(nodes, w, d) && i < |nodes|
    requires nodes[i].freeCPUs == Room(w, nodes[i].spec.name)
    ensures var n := Debited(nodes, d)[i];
            && n.spec.name == nodes[i].spec.name
            && (n.freeCPUs == Room(Served(w, d), n.spec.name) <==> Debit(d, i) == Charge(d, n.spec.name))
  {
    RoomAfter(w, d, nodes[i].spec.name);
  }

  lemma DebitsAreChargesIff(nodes: seq<P.Node>, w: L.World, d: Dispatch)
    requires Listed(nodes, w) && Together(nodes, w, d)
    ensures (forall i :: 0 <= i < |nodes| ==> Debit(d, i) == Charge(d, nodes[i].spec.name)) <==> Matched(w, d)
  {
    var k := d.place;
    if d.started && |d.hosts| > 1 {
      assert d.hosts[1] in d.hosts;
      var i :| 0 <= i < |nodes| && nodes[i].spec.name == d.hosts[1];
      assert i != k && Debit(d, i) != Charge(d, nodes[i].spec.name);
    } else {
      assert Debit(d, k) == Charge(d, nodes[k].spec.name) <==> d.started && P.Cpus(d.job) == d.slots;
      forall i | 0 <= i < |nodes| && i != k ensures Charge(d, nodes[i].spec.name) == 0 {
        assert nodes[i].spec.name != nodes[k].spec.name;
      }
    }
  }

  /** Views that agreed agree after a dispatch if and only if it is matched. */
  lemma DispatchAgreesIff(nodes: seq<P.Node>, w: L.World, d: Dispatch)
    requires Listed(nodes, w) && Together(nodes, w, d) && SameRoom(nodes, w)
    ensures SameRoom(Debited(nodes, d), Served(w, d)) <==> Matched(w, d)
  {
    DebitsAreChargesIff(nodes, w, d);
    var after, v := Debited(nodes, d), Served(w, d);
    forall i | 0 <= i < |nodes|
      ensures after[i].freeCPUs == Room(v, after[i].spec.name) <==> Debit(d, i) == Charge(d, nodes[i].spec.name)
    {
      NodeAgreesIff(nodes, w, d, i);
    }
  }

  /** Both views through the dispatches of a cycle. */
  ghost predicate Lockstep(views: seq<seq<P.Node>>, worlds: seq<L.World>, ds: seq<Dispatch>) {
    && |views| == |worlds| == |ds| + 1 && Listed(views[0], worlds[0])
    && forall i :: 0 <= i < |ds| ==> Turn(views, worlds, ds, i)
  }

  ghost predicate Turn(views: seq<seq<P.Node>>, worlds: seq<L.World>, ds: seq<Dispatch>, i: nat)
    requires |views| == |worlds| == |ds| + 1 && i < |ds|
  {
    && Together(views[i], worlds[i], ds[i])
    && views[i + 1] == Debited(views[i], ds[i]) && worlds[i + 1] == Served(worlds[i], ds[i])
  }

  lemma {:induction false} AlwaysListed(views: seq<seq<P.Node>>, worlds: seq<L.World>, ds: seq<Dispatch>, n: nat)
    requires Lockstep(views, worlds, ds) && n <= |ds|
    ensures Listed(views[n], worlds[n])
  {
    if n > 0 {
      AlwaysListed(views, worlds, ds, n - 1);
      assert Turn(views, worlds, ds, n - 1);
      StillListed(views[n - 1], worlds[n - 1], ds[n - 1]);
    }
  }

  /** The views agree after each of the first `n` dispatches, and before the first. */
  ghost predicate AgreeTo(views: seq<seq<P.Node>>, worlds: seq<L.World>, n: nat)
    requires n < |views| == |worlds|
  {
    SameRoom(views[n], worlds[n]) && (n > 0 ==> AgreeTo(views, worlds, n - 1))
  }

  /** The first `n` dispatches are matched. */
  ghost predicate MatchedTo(worlds: seq<L.World>, ds: seq<Dispatch>, n: nat)
    requires n <= |ds| < |worlds|
  {
    n > 0 ==> ds[n - 1].id in worlds[n - 1].jobs && Matched(worlds[n - 1], ds[n - 1]) && MatchedTo(worlds, ds, n - 1)
  }

  /** Up to any point of a cycle the views agree if and only if they did before it and every dispatch is matched. */
  lemma {:induction false} ViewsAgreeIff(views: seq<seq<P.Node>>, worlds: seq<L.World>, ds: seq<Dispatch>, n: nat)
    requires Lockstep(views, worlds, ds) && n <= |ds|
    ensures AgreeTo(views, worlds, n) <==> SameRoom(views[0], worlds[0]) && MatchedTo(worlds, ds, n)
  {
    if n > 0 {
      ViewsAgreeIff(views, worlds, ds, n - 1);
      AlwaysListed(views, worlds, ds, n - 1);
      assert Turn(views, worlds, ds, n - 1);
      if AgreeTo(views, worlds, n - 1) { DispatchAgreesIff(views[n - 1], worlds[n - 1], ds[n - 1]); }
    }
  }

  /** A job with nodes=1:ppn=4 and no ncpus: the scheduler debits one CPU and the server charges four. */
  lemma PpnIsNotDebited(w: L.World, d: Dispatch)
    requires d.id in w.jobs && w.jobs[d.id].cpus == NR.RequestedCpus(NR.Request("1:ppn=4", "", ""))
    requires d.job == P.Plain(d.id, 1)
    ensures w.jobs[d.id].cpus == 4 && P.Cpus(d.job) == 1 && !Matched(w, d)
  {
    assert FormatInt(1) == "1" && FormatInt(4) == "4";
    assert FormatInt(1) + ":" + ("ppn=" + FormatInt(4)) == "1:ppn=4";
    NR.SpecRoundTrip(1, 4);
  }
}
