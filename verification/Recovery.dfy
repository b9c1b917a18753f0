/**
 Restart recovery: running jobs read back from disk are put on their nodes again, and those whose MOM
 says they are gone are requeued. Jobs are visited in any order.
 */
module Recovery {
  import opened Decimal
  import opened Listing
  import opened SlotLedger

  /** A running job with an exec host. */
  predicate Recovered(jobs: map<string, Job>, id: string) {
    id in jobs && jobs[id].state == Running && jobs[id].hosts != []
  }

  function Slots(j: Job): nat { if j.ppn < 1 then 1 else j.ppn }

  /** The hosts of one job, each assigned unless it lists the job already. */
  function RestoreEach(nodes: map<string, Node>, hosts: seq<string>, id: string, slots: nat): map<string, Node> {
    if hosts == [] then nodes
    else
      var m := RestoreEach(nodes, hosts[..|hosts| - 1], id, slots);
      var h := hosts[|hosts| - 1];
      if h in m && id !in m[h].listed then m[h := Assign(m[h], id, slots)] else m
  }

  /** `restoreRecoveredRunningJobs`, visiting the jobs in `order`. */
  function Restore(w: World, order: seq<string>): World {
    if order == [] then w
    else
      var v := Restore(w, order[..|order| - 1]);
      var id := order[|order| - 1];
      if Recovered(v.jobs, id) then v.(nodes := RestoreEach(v.nodes, v.jobs[id].hosts, id, Slots(v.jobs[id]))) else v
  }

  /** `requeueRecoveredJob`. */
  function Requeue(w: World, id: string): World
    requires id in w.jobs
  {
    var j := w.jobs[id];
    World(w.jobs[id := j.(state := Queued, hosts := [])], ReleaseEach(w.nodes, j.hosts, id, Slots(j)))
  }

  function RequeueAll(w: World, order: seq<string>): World {
    if order == [] then w
    else
      var v := RequeueAll(w, order[..|order| - 1]);
      var id := order[|order| - 1];
      if Recovered(v.jobs, id) then Requeue(v, id) else v
  }

  // ---------------------------------------------------------------- one node at a time

  function Mult(hosts: seq<string>, nm: string): (k: nat)
    ensures k > 0 <==> nm in hosts
  {
    if hosts == [] then 0
    else
      assert hosts == hosts[..|hosts| - 1] + [hosts[|hosts| - 1]];
      Mult(hosts[..|hosts| - 1], nm) + if hosts[|hosts| - 1] == nm then 1 else 0
  }

  function ReleaseTimes(n: Node, id: string, slots: nat, k: nat): Node {
    if k == 0 then n else Release(ReleaseTimes(n, id, slots, k - 1), id, slots)
  }

  /** The node as the restored jobs fill it. */
  function Fill(n: Node, jobs: map<string, Job>, order: seq<string>, nm: string): Node {
    if order == [] then n
    else
      var m := Fill(n, jobs, order[..|order| - 1], nm);
      var id := order[|order| - 1];
      if Recovered(jobs, id) && nm in jobs[id].hosts && id !in m.listed then Assign(m, id, Slots(jobs[id])) else m
  }

  /** The node as the requeued jobs leave it. */
  function Drain(n: Node, jobs: map<string, Job>, order: seq<string>, nm: string): Node {
    if order == [] then n
    else
      var m := Drain(n, jobs, order[..|order| - 1], nm);
      var id := order[|order| - 1];
      if Recovered(jobs, id) then ReleaseTimes(m, id, Slots(jobs[id]), Mult(jobs[id].hosts, nm)) else m
  }

  lemma {:induction false} RestoreEachAt(nodes: map<string, Node>, hosts: seq<string>, id: string, slots: nat,
                                         nm: string)
    ensures nm in RestoreEach(nodes, hosts, id, slots) <==> nm in nodes
    ensures nm in nodes ==> RestoreEach(nodes, hosts, id, slots)[nm] ==
                            if nm in hosts && id !in nodes[nm].listed then Assign(nodes[nm], id, slots) else nodes[nm]
  {
    if hosts != [] {
      assert hosts == hosts[..|hosts| - 1] + [hosts[|hosts| - 1]];
      RestoreEachAt(nodes, hosts[..|hosts| - 1], id, slots, nm);
    }
  }

  lemma {:induction false} RestoreAt(w: World, order: seq<string>, nm: string)
    ensures Restore(w, order).jobs == w.jobs
    ensures nm in Restore(w, order).nodes <==> nm in w.nodes
    ensures nm in w.nodes ==> Restore(w, order).nodes[nm] == Fill(w.nodes[nm], w.jobs, order, nm)
  {
    if order != [] {
      var v, id := Restore(w, order[..|order| - 1]), order[|order| - 1];
      RestoreAt(w, order[..|order| - 1], nm);
      if Recovered(v.jobs, id) { RestoreEachAt(v.nodes, v.jobs[id].hosts, id, Slots(v.jobs[id]), nm); }
    }
  }

  lemma {:induction false} ReleaseEachTimes(nodes: map<string, Node>, hosts: seq<string>, id: string, slots: nat,
                                            nm: string)
    ensures nm in ReleaseEach(nodes, hosts, id, slots) <==> nm in nodes
    ensures nm in nodes ==>
            ReleaseEach(nodes, hosts, id, slots)[nm] == ReleaseTimes(nodes[nm], id, slots, Mult(hosts, nm))
  {
    if hosts != [] { ReleaseEachTimes(nodes, hosts[..|hosts| - 1], id, slots, nm); }
  }

  lemma {:induction false} RequeueAllAt(w: World, order: seq<string>, nm: string)
    requires NoDup(order)
    ensures var v := RequeueAll(w, order);
            && v.jobs.Keys == w.jobs.Keys
            && (forall id :: id in w.jobs && id !in order ==> v.jobs[id] == w.jobs[id])
            && (nm in v.nodes <==> nm in w.nodes)
            && (nm in w.nodes ==> v.nodes[nm] == Drain(w.nodes[nm], w.jobs, order, nm))
  {
    if order != [] {
      NoDupPrefix(order);
      RequeueAllAt(w, order[..|order| - 1], nm);
      var v, id := RequeueAll(w, order[..|order| - 1]), order[|order| - 1];
      if Recovered(v.jobs, id) {
        ReleaseEachTimes(v.nodes, v.jobs[id].hosts, id, Slots(v.jobs[id]), nm);
        assert Requeue(v, id).jobs.Keys == v.jobs.Keys;
      }
    }
  }

  // ---------------------------------------------------------------- restoring is idempotent

  lemma {:induction false} FillLists(n: Node, jobs: map<string, Job>, order: seq<string>, nm: string, id: string)
    ensures id in n.listed ==> id in Fill(n, jobs, order, nm).listed
    ensures id in order && Recovered(jobs, id) && nm in jobs[id].hosts ==> id in Fill(n, jobs, order, nm).listed
  {
    if order != [] {
      assert order == order[..|order| - 1] + [order[|order| - 1]];
      FillLists(n, jobs, order[..|order| - 1], nm, id);
    }
  }

  lemma {:induction false} FillAgain(n: Node, jobs: map<string, Job>, order: seq<string>, nm: string)
    requires forall id :: Recovered(jobs, id) && nm in jobs[id].hosts ==> id in n.listed
    ensures Fill(n, jobs, order, nm) == n
  {
    if order != [] { FillAgain(n, jobs, order[..|order| - 1], nm); }
  }

  /** Restoring a second time, in whatever order, changes nothing. */
  lemma RestoreIdempotent(w: World, order: seq<string>, again: seq<string>)
    requires forall id :: id in w.jobs ==> id in order
    ensures Restore(Restore(w, order), again) == Restore(w, order)
  {
    var v := Restore(w, order);
    var u := Restore(v, again);
    RestoreAt(w, order, "");
    RestoreAt(v, again, "");
    forall nm ensures nm in u.nodes <==> nm in v.nodes { RestoreAt(v, again, nm); }
    forall nm | nm in v.nodes ensures u.nodes[nm] == v.nodes[nm] {
      RestoreAt(w, order, nm);
      RestoreAt(v, again, nm);
      forall id | Recovered(w.jobs, id) && nm in w.jobs[id].hosts ensures id in v.nodes[nm].listed {
        FillLists(w.nodes[nm], w.jobs, order, nm, id);
      }
      FillAgain(v.nodes[nm], v.jobs, again, nm);
    }
    assert u.nodes == v.nodes;
  }

  // ---------------------------------------------------------------- restoring, then requeueing

  function Sum(ids: seq<string>, f: string -> nat): nat {
    if ids == [] then 0 else f(ids[0]) + Sum(ids[1..], f)
  }

  lemma {:induction false} SumAppend(ids: seq<string>, f: string -> nat, id: string)
    ensures Sum(ids + [id], f) == Sum(ids, f) + f(id)
  {
    if ids == [] {
      assert (ids + [id])[1..] == [];
    } else {
      assert (ids + [id])[1..] == ids[1..] + [id];
      SumAppend(ids[1..], f, id);
    }
  }

  lemma {:induction false} SumRemove(ids: seq<string>, f: string -> nat, id: string)
    requires id in ids
    ensures Sum(ids, f) == Sum(RemoveFirst(ids, id), f) + f(id)
  {
    if ids[0] != id {
      SumRemove(ids[1..], f, id);
      var rest := RemoveFirst(ids[1..], id);
      assert ([ids[0]] + rest)[1..] == rest;
    }
  }

  /** A sum over distinct ids does not depend on their order. */
  lemma {:induction false} SumAnyOrder(a: seq<string>, b: seq<string>, f: string -> nat)
    requires NoDup(a) && NoDup(b) && forall x :: x in a <==> x in b
    ensures Sum(a, f) == Sum(b, f)
  {
    if a == [] {
      FirstIsMember(b);
    } else {
      NoDupTail(a);
      assert a == [a[0]] + a[1..];
      RemoveFirstExact(b, a[0]);
      SumRemove(b, f, a[0]);
      SumAnyOrder(a[1..], RemoveFirst(b, a[0]), f);
    }
  }

  lemma {:induction false} SumBetween(ids: seq<string>, f: string -> nat, g: string -> nat)
    requires forall x :: x in ids ==> f(x) <= g(x)
    ensures Sum(ids, f) <= Sum(ids, g)
    ensures Sum(ids, f) == Sum(ids, g) <==> forall x :: x in ids ==> f(x) == g(x)
  {
    if ids != [] {
      assert ids == [ids[0]] + ids[1..];
      SumBetween(ids[1..], f, g);
    }
  }

  function Times(k: nat, slots: nat): nat { if k == 0 then 0 else slots + Times(k - 1, slots) }

  lemma {:induction false} TimesOnce(k: nat, slots: nat)
    requires slots >= 1
    ensures k >= 1 ==> Times(k, slots) >= slots
    ensures k >= 2 ==> Times(k, slots) > slots
  {
    if k > 1 { TimesOnce(k - 1, slots); }
  }

  /** The slots a job takes on the node when it is restored, and gives back when it is requeued. */
  function Taken(jobs: map<string, Job>, nm: string): string -> nat {
    id => if Recovered(jobs, id) && nm in jobs[id].hosts then Slots(jobs[id]) else 0
  }

  function GivenBack(jobs: map<string, Job>, nm: string): string -> nat {
    id => if Recovered(jobs, id) then Times(Mult(jobs[id].hosts, nm), Slots(jobs[id])) else 0
  }

  /** The jobs of `order` that are put on the node. */
  function Added(jobs: map<string, Job>, order: seq<string>, nm: string): seq<string> {
    if order == [] then []
    else
      var id := order[|order| - 1];
      Added(jobs, order[..|order| - 1], nm) + if Recovered(jobs, id) && nm in jobs[id].hosts then [id] else []
  }

  lemma {:induction false} AddedMembers(jobs: map<string, Job>, order: seq<string>, nm: string)
    ensures forall id :: id in Added(jobs, order, nm) <==> id in order && Recovered(jobs, id) && nm in jobs[id].hosts
    ensures NoDup(order) ==> NoDup(Added(jobs, order, nm))
  {
    if order != [] {
      assert order == order[..|order| - 1] + [order[|order| - 1]];
      AddedMembers(jobs, order[..|order| - 1], nm);
    }
  }

  lemma {:induction false} FillExact(n: Node, jobs: map<string, Job>, order: seq<string>, nm: string)
    requires NoDup(order) && forall id :: id in n.listed ==> !Recovered(jobs, id)
    ensures Fill(n, jobs, order, nm).listed == n.listed + Added(jobs, order, nm)
    ensures Fill(n, jobs, order, nm).slotsUsed == n.slotsUsed + Sum(order, Taken(jobs, nm))
  {
    if order != [] {
      NoDupPrefix(order);
      var before, id := order[..|order| - 1], order[|order| - 1];
      FillExact(n, jobs, before, nm);
      AddedMembers(jobs, before, nm);
      SumAppend(before, Taken(jobs, nm), id);
    }
  }

  lemma {:induction false} ReleaseTimesExact(n: Node, id: string, slots: nat, k: nat)
    requires id !in RemoveFirst(n.listed, id)
    ensures ReleaseTimes(n, id, slots, k).listed == if k == 0 then n.listed else RemoveFirst(n.listed, id)
    ensures ReleaseTimes(n, id, slots, k).slotsUsed == Minus(n.slotsUsed, Times(k, slots))
  {
    if k > 0 {
      ReleaseTimesExact(n, id, slots, k - 1);
      if k > 1 { RemoveAbsent(RemoveFirst(n.listed, id), id); }
    }
  }

  lemma {:induction false} RemoveAbsent(ids: seq<string>, id: string)
    requires id !in ids
    ensures RemoveFirst(ids, id) == ids
  {
    if ids != [] {
      assert ids == [ids[0]] + ids[1..];
      RemoveAbsent(ids[1..], id);
    }
  }

  /** `ids` without those in `gone`. */
  function Keep(ids: seq<string>, gone: seq<string>): seq<string> {
    if ids == [] then []
    else if ids[0] in gone then Keep(ids[1..], gone)
    else [ids[0]] + Keep(ids[1..], gone)
  }

  lemma {:induction false} KeepMembers(ids: seq<string>, gone: seq<string>)
    ensures forall x :: x in Keep(ids, gone) <==> x in ids && x !in gone
  {
    if ids != [] {
      assert ids == [ids[0]] + ids[1..];
      KeepMembers(ids[1..], gone);
    }
  }

  lemma {:induction false} KeepMore(ids: seq<string>, gone: seq<string>, id: string)
    requires NoDup(ids) && id !in gone
    ensures Keep(ids, gone + [id]) == RemoveFirst(Keep(ids, gone), id)
  {
    if ids != [] {
      NoDupTail(ids);
      KeepMore(ids[1..], gone, id);
      if ids[0] == id {
        KeepMembers(ids[1..], gone);
        RemoveAbsent(Keep(ids[1..], gone), id);
      }
    }
  }

  lemma {:induction false} RemoveFromTail(a: seq<string>, b: seq<string>, id: string)
    requires id !in a
    ensures RemoveFirst(a + b, id) == a + RemoveFirst(b, id)
  {
    if a == [] {
      assert a + b == b;
    } else {
      assert (a + b)[1..] == a[1..] + b;
      RemoveFromTail(a[1..], b, id);
    }
  }

  lemma {:induction false} DrainExact(n: Node, jobs: map<string, Job>, order: seq<string>, nm: string, own: seq<string>,
                                      added: seq<string>)
    requires NoDup(order) && NoDup(added) && n.listed == own + added
    requires forall id :: id in own ==> !Recovered(jobs, id)
    requires forall id :: id in added <==> id in jobs && Recovered(jobs, id) && nm in jobs[id].hosts
    ensures Drain(n, jobs, order, nm).listed == own + Keep(added, order)
    ensures Drain(n, jobs, order, nm).slotsUsed == Minus(n.slotsUsed, Sum(order, GivenBack(jobs, nm)))
  {
    if order == [] {
      KeepAll(added);
    } else {
      NoDupPrefix(order);
      var before, id := order[..|order| - 1], order[|order| - 1];
      DrainExact(n, jobs, before, nm, own, added);
      SumAppend(before, GivenBack(jobs, nm), id);
      KeepMore(added, before, id);
      KeepMembers(added, before);
      KeepMembers(added, order);
      if Recovered(jobs, id) {
        RemoveFromTail(own, Keep(added, before), id);
        ReleaseTimesExact(Drain(n, jobs, before, nm), id, Slots(jobs[id]), Mult(jobs[id].hosts, nm));
        if nm !in jobs[id].hosts { RemoveAbsent(Keep(added, before), id); }
      } else {
        RemoveAbsent(Keep(added, before), id);
      }
    }
  }

  lemma {:induction false} KeepAll(ids: seq<string>)
    ensures Keep(ids, []) == ids
  {
    if ids != [] { KeepAll(ids[1..]); }
  }

  /**
   Restoring the recovered jobs and requeueing them, each in any order, gives every node its job list
   back, and gives a node its used slots back if and only if it had none or no job names it twice.
   */
  lemma RestoreThenRequeue(w: World, order: seq<string>, later: seq<string>, nm: string)
    requires Enumerates(order, w.jobs.Keys) && Enumerates(later, w.jobs.Keys) && nm in w.nodes
    requires forall id :: id in w.nodes[nm].listed ==> !Recovered(w.jobs, id)
    ensures var v := RequeueAll(Restore(w, order), later);
            && nm in v.nodes && v.nodes[nm].listed == w.nodes[nm].listed
            && (v.nodes[nm].slotsUsed == w.nodes[nm].slotsUsed <==>
                w.nodes[nm].slotsUsed == 0 || forall id :: Recovered(w.jobs, id) ==> Mult(w.jobs[id].hosts, nm) <= 1)
  {
    var u, n := Restore(w, order), w.nodes[nm];
    RestoreAt(w, order, nm);
    RequeueAllAt(u, later, nm);
    FillExact(n, w.jobs, order, nm);
    AddedMembers(w.jobs, order, nm);
    var added := Added(w.jobs, order, nm);
    DrainExact(u.nodes[nm], w.jobs, later, nm, n.listed, added);
    KeepMembers(added, later);
    FirstIsMember(Keep(added, later));
    SumAnyOrder(order, later, Taken(w.jobs, nm));
    TakenVersusGiven(w.jobs, later, nm);
  }

  lemma TakenVersusGiven(jobs: map<string, Job>, order: seq<string>, nm: string)
    requires Enumerates(order, jobs.Keys)
    ensures Sum(order, Taken(jobs, nm)) <= Sum(order, GivenBack(jobs, nm))
    ensures Sum(order, Taken(jobs, nm)) == Sum(order, GivenBack(jobs, nm)) <==>
            forall id :: Recovered(jobs, id) ==> Mult(jobs[id].hosts, nm) <= 1
  {
    forall id | id in order
      ensures Taken(jobs, nm)(id) <= GivenBack(jobs, nm)(id)
      ensures Taken(jobs, nm)(id) == GivenBack(jobs, nm)(id) <==> !Recovered(jobs, id) || Mult(jobs[id].hosts, nm) <= 1
    {
      if Recovered(jobs, id) { TimesOnce(Mult(jobs[id].hosts, nm), Slots(jobs[id])); }
    }
    SumBetween(order, Taken(jobs, nm), GivenBack(jobs, nm));
  }

  /**
   A job that names its node twice takes two slots there once and gives them back twice, at the cost of another
   job.
   */
  lemma TwiceNamedNode()
    ensures var w := World(map["a" := Job(Running, ["n", "n"], 2, 1, 2, "u", "", "batch")],
                           map["n" := Node(["b"], 2, 8, 8, false, {})]);
            var v := RequeueAll(Restore(w, ["a"]), ["a"]);
            "n" in v.nodes && v.nodes["n"].listed == ["b"] && v.nodes["n"].slotsUsed != 2
  {
    var jobs := map["a" := Job(Running, ["n", "n"], 2, 1, 2, "u", "", "batch")];
    var w := World(jobs, map["n" := Node(["b"], 2, 8, 8, false, {})]);
    assert ["n", "n"][..1] == ["n"];
    assert Mult(["n", "n"], "n") == Mult(["n"], "n") + 1;
    assert Recovered(jobs, "a") && Mult(jobs["a"].hosts, "n") > 1;
    RestoreThenRequeue(w, ["a"], ["a"], "n");
  }

  // ---------------------------------------------------------------- the ledger after a restart

  /** The CPUs a job asks for on a node it is put on. */
  function Asked(jobs: map<string, Job>, nm: string): string -> nat {
    id => if Recovered(jobs, id) && nm in jobs[id].hosts then jobs[id].cpus else 0
  }

  lemma {:induction false} AskedIsUsed(jobs: map<string, Job>, order: seq<string>, nm: string)
    ensures Sum(order, Asked(jobs, nm)) == UsedCpus(jobs, Added(jobs, order, nm))
  {
    if order != [] {
      var before, id := order[..|order| - 1], order[|order| - 1];
      assert order == before + [id];
      AskedIsUsed(jobs, before, nm);
      SumAppend(before, Asked(jobs, nm), id);
      if Recovered(jobs, id) && nm in jobs[id].hosts {
        UsedAppend(jobs, Added(jobs, before, nm), id);
      } else {
        assert Added(jobs, order, nm) == Added(jobs, before, nm);
      }
    }
  }

  /** What restoring makes of a node that lists nothing. */
  lemma RestoredNodeOkIff(w: World, order: seq<string>, nm: string)
    requires Enumerates(order, w.jobs.Keys) && nm in w.nodes && w.nodes[nm].listed == [] && w.nodes[nm].slotsUsed == 0
    ensures nm in Restore(w, order).nodes
    ensures NodeOk(w.jobs, nm, Restore(w, order).nodes[nm]) <==>
            Sum(order, Taken(w.jobs, nm)) == Sum(order, Asked(w.jobs, nm))
  {
    var v, added := Restore(w, order), Added(w.jobs, order, nm);
    RestoreAt(w, order, nm);
    FillExact(w.nodes[nm], w.jobs, order, nm);
    AddedMembers(w.jobs, order, nm);
    AskedIsUsed(w.jobs, order, nm);
    assert v.nodes[nm].listed == [] + added == added;
  }

  /**
   A server that starts with empty nodes and restores its running jobs, in any order, has the slot ledger
   again if and only if every job asks for a CPU and names no node twice and, on each node, the slots the
   restored jobs take add up to the CPUs they ask for.
   */
  lemma RestoreGivesLedgerIff(w: World, order: seq<string>)
    requires Enumerates(order, w.jobs.Keys)
    requires forall nm :: nm in w.nodes ==> w.nodes[nm].listed == [] && w.nodes[nm].slotsUsed == 0
    ensures Ledger(Restore(w, order)) <==>
            && (forall id :: id in w.jobs ==> JobOk(w.jobs[id]))
            && forall nm :: nm in w.nodes ==> Sum(order, Taken(w.jobs, nm)) == Sum(order, Asked(w.jobs, nm))
  {
    var v := Restore(w, order);
    RestoreAt(w, order, "");
    forall nm ensures nm in v.nodes <==> nm in w.nodes { RestoreAt(w, order, nm); }
    forall nm | nm in w.nodes
      ensures NodeOk(v.jobs, nm, v.nodes[nm]) <==> Sum(order, Taken(w.jobs, nm)) == Sum(order, Asked(w.jobs, nm))
    {
      RestoredNodeOkIff(w, order, nm);
    }
  }

  /** In particular it has when every restored job is charged what it asks for. */
  lemma RestoreGivesLedger(w: World, order: seq<string>)
    requires Enumerates(order, w.jobs.Keys) && forall id :: id in w.jobs ==> JobOk(w.jobs[id])
    requires forall nm :: nm in w.nodes ==> w.nodes[nm].listed == [] && w.nodes[nm].slotsUsed == 0
    requires forall id :: Recovered(w.jobs, id) ==> Slots(w.jobs[id]) == w.jobs[id].cpus
    ensures Ledger(Restore(w, order))
  {
    forall nm ensures Sum(order, Taken(w.jobs, nm)) == Sum(order, Asked(w.jobs, nm)) {
      SumBetween(order, Taken(w.jobs, nm), Asked(w.jobs, nm));
    }
    RestoreGivesLedgerIff(w, order);
  }

  // ---------------------------------------------------------------- requeueing a job on a live server

  /** What requeueing one recovered job leaves of one node. */
  lemma RequeueAt(w: World, id: string, nm: string)
    requires Ledger(w) && Recovered(w.jobs, id) && nm in w.nodes
    ensures nm in Requeue(w, id).nodes
    ensures NodeOk(Requeue(w, id).jobs, nm, Requeue(w, id).nodes[nm]) <==>
            (RunsOn(w.jobs, id, nm) ==>
               Slots(w.jobs[id]) == w.jobs[id].cpus
               || (Slots(w.jobs[id]) > w.jobs[id].cpus && w.nodes[nm].listed == [id]))
  {
    var j, v := w.jobs[id], Requeue(w, id);
    assert JobOk(j) && NodeOk(w.jobs, nm, w.nodes[nm]);
    ReleaseEachAt(w.nodes, j.hosts, id, Slots(j), nm);
    if nm in j.hosts {
      NodeReleasedIff(w.jobs, v.jobs, id, nm, w.nodes[nm], Slots(j));
    } else {
      NodeUntouched(w.jobs, v.jobs, id, nm, w.nodes[nm]);
    }
  }

  /** On each node that runs it the job gives back what it asks for, or gives back more and is the only one there. */
  ghost predicate GivesBackRight(w: World, id: string)
    requires id in w.jobs
  {
    forall h :: h in w.nodes && RunsOn(w.jobs, id, h) ==>
      Slots(w.jobs[id]) == w.jobs[id].cpus || (Slots(w.jobs[id]) > w.jobs[id].cpus && w.nodes[h].listed == [id])
  }

  /** Requeueing a recovered job releases its ppn: it keeps the ledger if and only if that gives back right. */
  lemma RequeueKeepsLedgerIff(w: World, id: string)
    requires Ledger(w) && Recovered(w.jobs, id)
    ensures Ledger(Requeue(w, id)) <==> GivesBackRight(w, id)
  {
    var v := Requeue(w, id);
    assert JobOk(w.jobs[id]);
    forall nm ensures nm in v.nodes <==> nm in w.nodes {
      ReleaseEachAt(w.nodes, w.jobs[id].hosts, id, Slots(w.jobs[id]), nm);
    }
    forall nm | nm in w.nodes
      ensures NodeOk(v.jobs, nm, v.nodes[nm]) <==>
              (RunsOn(w.jobs, id, nm) ==>
                 Slots(w.jobs[id]) == w.jobs[id].cpus
                 || (Slots(w.jobs[id]) > w.jobs[id].cpus && w.nodes[nm].listed == [id]))
    {
      RequeueAt(w, id, nm);
    }
  }

  // ---------------------------------------------------------------- reconciling with the MOMs

  /** The first host's MOM is known, answered, and does not list the job. None is a MOM that did not answer. */
  predicate Refuted(w: World, answers: string -> Option<set<string>>, id: string) {
    && Recovered(w.jobs, id) && w.jobs[id].hosts[0] in w.nodes
    && answers(w.jobs[id].hosts[0]).Some? && id !in answers(w.jobs[id].hosts[0]).value
  }

  /** `reconcileRunningJobsWithMOMs`, visiting the jobs in `order`. */
  function Reconcile(w: World, answers: string -> Option<set<string>>, order: seq<string>): World {
    if order == [] then w
    else
      var v := Reconcile(w, answers, order[..|order| - 1]);
      var id := order[|order| - 1];
      if Refuted(v, answers, id) then Requeue(v, id) else v
  }

  predicate IsSilent(w: World, answers: string -> Option<set<string>>, id: string) {
    Recovered(w.jobs, id) && w.jobs[id].hosts[0] in w.nodes && answers(w.jobs[id].hosts[0]).None?
  }

  /** How many of the visited jobs have a known first host whose MOM did not answer. */
  function Silent(w: World, answers: string -> Option<set<string>>, order: seq<string>): nat {
    if order == [] then 0
    else
      Silent(w, answers, order[..|order| - 1]) + if IsSilent(w, answers, order[|order| - 1]) then 1 else 0
  }

  lemma {:induction false} ReconcileKeepsNodes(w: World, answers: string -> Option<set<string>>, order: seq<string>)
    ensures Reconcile(w, answers, order).nodes.Keys == w.nodes.Keys
    ensures Reconcile(w, answers, order).jobs.Keys == w.jobs.Keys
  {
    if order != [] {
      ReconcileKeepsNodes(w, answers, order[..|order| - 1]);
      var v, id := Reconcile(w, answers, order[..|order| - 1]), order[|order| - 1];
      if Refuted(v, answers, id) {
        forall nm ensures nm in Requeue(v, id).nodes <==> nm in v.nodes {
          ReleaseEachTimes(v.nodes, v.jobs[id].hosts, id, Slots(v.jobs[id]), nm);
        }
        assert Requeue(v, id).jobs.Keys == v.jobs.Keys;
      }
    }
  }

  /**
   A visited job is requeued if and only if its first host's MOM answered and did not list it; no other job
   changes.
   */
  lemma {:induction false} ReconcileExact(w: World, answers: string -> Option<set<string>>, order: seq<string>,
                                          id: string)
    requires NoDup(order) && id in w.jobs
    ensures id in Reconcile(w, answers, order).jobs
    ensures Reconcile(w, answers, order).jobs[id] ==
            if id in order && Refuted(w, answers, id) then w.jobs[id].(state := Queued, hosts := []) else w.jobs[id]
  {
    if order != [] {
      NoDupPrefix(order);
      ReconcileExact(w, answers, order[..|order| - 1], id);
      ReconcileKeepsNodes(w, answers, order[..|order| - 1]);
    }
  }

  /** One more visit: the job is as it was at the start. */
  lemma ReconcileNext(w: World, answers: string -> Option<set<string>>, ids: seq<string>, i: nat)
    requires NoDup(ids) && i < |ids| && ids[i] in w.jobs
    ensures var v, id := Reconcile(w, answers, ids[..i]), ids[i];
            && id in v.jobs && v.jobs[id] == w.jobs[id] && v.nodes.Keys == w.nodes.Keys
            && Reconcile(w, answers, ids[..i + 1]) == (if Refuted(v, answers, id) then Requeue(v, id) else v)
            && Silent(w, answers, ids[..i + 1]) == Silent(w, answers, ids[..i]) +
               if IsSilent(w, answers, id) then 1 else 0
  {
    assert ids[..i + 1][..i] == ids[..i];
    ReconcileKeepsNodes(w, answers, ids[..i]);
    ReconcileExact(w, answers, ids[..i], ids[i]);
  }

  /** A job whose MOM is silent or says it runs stays running where it is. */
  lemma {:induction false} LiveJobStays(w: World, answers: string -> Option<set<string>>, order: seq<string>,
                                        id: string)
    requires NoDup(order) && Recovered(w.jobs, id)
    requires answers(w.jobs[id].hosts[0]).None? || id in answers(w.jobs[id].hosts[0]).value
    ensures id in Reconcile(w, answers, order).jobs && Reconcile(w, answers, order).jobs[id] == w.jobs[id]
  {
    ReconcileExact(w, answers, order, id);
  }
}
