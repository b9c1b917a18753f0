/** Runs from an empty job table in which one request breaks the ledger, the flags or the limits. */
module SlotFailures {
  import opened Listing
  import opened SlotLedger
  import opened SlotSteps
  import opened SlotRuns

  const IDLE := Node([], 0, 4, 4, false, {})
  const ONE_NODE := World(map[], map["n" := IDLE])
  const TWO_NODES := World(map[], map["n" := IDLE, "m" := IDLE])

  /** A queued job for `nodeCount` nodes with two processors on each. */
  function Asking(nodeCount: nat, owner: string): Job { Job(Queued, [], 2, nodeCount, 2, owner, "", "batch") }

  /** A submitted job and its RunJob on `hosts`, from a state that keeps the ledger. */
  lemma SubmitAndRun(w: World, id: string, j: Job, hosts: seq<string>) returns (ws: seq<World>, rs: seq<Request>)
    requires Ledger(w) && id !in w.jobs && j.state == Queued && JobOk(j)
    requires hosts != [] && NoDup(hosts) && forall h :: h in hosts ==> h in w.nodes
    ensures rs == [Submit(id, j), RunJob(id, hosts, j.cpus)] && IsRun(ws, rs) && ws[0] == w
    ensures ws[2] == World(w.jobs[id := j.(state := Running, hosts := hosts)], AssignEach(w.nodes, hosts, id, j.cpus))
    ensures Ledger(ws[1]) && Ledger(ws[2])
  {
    rs := [Submit(id, j), RunJob(id, hosts, j.cpus)];
    var queued := w.(jobs := w.jobs[id := j]);
    var running := Start(queued, id, hosts, j.cpus);
    ws := [w, queued, running];
    assert running.jobs == w.jobs[id := j.(state := Running, hosts := hosts)];
    KeptIffProper(w, rs[0]);
    KeptIffProper(queued, rs[1]);
  }

  /** One request more. */
  lemma Then(ws: seq<World>, rs: seq<Request>, r: Request) returns (ws': seq<World>, rs': seq<Request>)
    requires IsRun(ws, rs) && Possible(ws[|rs|], r)
    ensures rs' == rs + [r] && ws' == ws + [Apply(ws[|rs|], r)] && IsRun(ws', rs')
  {
    RunGoesOn(ws, rs, r);
    ws', rs' := ws + [Apply(ws[|rs|], r)], rs + [r];
  }

  lemma Joined(ws: seq<World>, rs: seq<Request>, vs: seq<World>, qs: seq<Request>)
    requires IsRun(ws, rs) && IsRun(vs, qs) && vs[0] == ws[|rs|]
    ensures IsRun(ws + vs[1..], rs + qs)
  {
  }

  lemma AssignOne(nodes: map<string, Node>, h: string, id: string, slots: nat)
    requires h in nodes
    ensures AssignEach(nodes, [h], id, slots) == nodes[h := Assign(nodes[h], id, slots)]
  {
    assert [h][..0] == [];
    assert AssignEach(nodes, [], id, slots) == nodes;
  }

  lemma ReleaseOne(nodes: map<string, Node>, h: string, id: string, slots: nat)
    requires h in nodes
    ensures ReleaseEach(nodes, [h], id, slots) == nodes[h := Release(nodes[h], id, slots)]
  {
    assert [h][..0] == [];
    assert ReleaseEach(nodes, [], id, slots) == nodes;
  }

  /** A job alone on the one node. */
  lemma Alone(id: string, owner: string) returns (ws: seq<World>, rs: seq<Request>)
    ensures rs == [Submit(id, Asking(1, owner)), RunJob(id, ["n"], 2)] && IsRun(ws, rs) && ws[0] == ONE_NODE
    ensures ws[2].jobs == map[id := Asking(1, owner).(state := Running, hosts := ["n"])]
    ensures ws[2].nodes == map["n" := IDLE.(listed := [id], slotsUsed := 2)]
    ensures Ledger(ws[2])
  {
    assert Ledger(ONE_NODE);
    ws, rs := SubmitAndRun(ONE_NODE, id, Asking(1, owner), ["n"]);
    AssignOne(ONE_NODE.nodes, "n", id, 2);
    assert [] + [id] == [id];
  }

  /** A job that has run and ended. */
  lemma Ended() returns (ws: seq<World>, rs: seq<Request>)
    ensures IsRun(ws, rs) && ws[0] == ONE_NODE && |rs| == 3 && rs[2] == JobObit("a", "a") && Ledger(ws[3])
    ensures ws[3] == World(map["a" := Asking(1, "u").(state := Complete, hosts := ["n"])], map["n" := IDLE])
  {
    ws, rs := Alone("a", "u");
    KeptIffProper(ws[2], JobObit("a", "a"));
    ReleaseOne(ws[2].nodes, "n", "a", 2);
    ws, rs := Then(ws, rs, JobObit("a", "a"));
  }

  /** Another job has followed it on the node. */
  lemma Followed() returns (ws: seq<World>, rs: seq<Request>)
    ensures IsRun(ws, rs) && ws[0] == ONE_NODE && |rs| == 5 && rs[2] == JobObit("a", "a") && Ledger(ws[5])
    ensures ws[5].jobs == map["a" := Asking(1, "u").(state := Complete, hosts := ["n"]),
                              "b" := Asking(1, "u").(state := Running, hosts := ["n"])]
    ensures ws[5].nodes == map["n" := IDLE.(listed := ["b"], slotsUsed := 2)]
  {
    ws, rs := Ended();
    var vs, qs := SubmitAndRun(ws[3], "b", Asking(1, "u"), ["n"]);
    AssignOne(ws[3].nodes, "n", "b", 2);
    assert [] + ["b"] == ["b"];
    Joined(ws, rs, vs, qs);
    ws, rs := ws + vs[1..], rs + qs;
    assert ws[5] == vs[2];
  }

  /**
   A second obituary of a job: the node has taken another job meanwhile and loses its slots, so the
   node counts none used while it lists the job.
   */
  lemma RepeatedObituary() returns (ws: seq<World>, rs: seq<Request>)
    ensures IsRun(ws, rs) && ws[0] == ONE_NODE && |rs| == 6
    ensures rs[2] == JobObit("a", "a") && rs[5] == rs[2] && Ledger(ws[5]) && !Ledger(ws[6])
    ensures ws[6].nodes == map["n" := IDLE.(listed := ["b"])] && RunsOn(ws[6].jobs, "b", "n")
  {
    ws, rs := Followed();
    KeptIffProper(ws[5], JobObit("a", "a"));
    assert KnownHost(ws[5], "a", "n");
    ReleaseOne(ws[5].nodes, "n", "a", 2);
    assert RemoveFirst(["b"], "a") == ["b"];
    ws, rs := Then(ws, rs, JobObit("a", "a"));
  }

  /** A running job is deleted by its short id: the job stays Running and listed, and its slots are gone. */
  lemma DeleteByShortId() returns (ws: seq<World>, rs: seq<Request>)
    ensures IsRun(ws, rs) && ws[0] == ONE_NODE && |rs| == 3 && rs[2] == DeleteJob("1", "1.srv")
    ensures Ledger(ws[2]) && !Ledger(ws[3])
    ensures ws[3].nodes == map["n" := IDLE.(listed := ["1.srv"])] && RunsOn(ws[3].jobs, "1.srv", "n")
  {
    ws, rs := Alone("1.srv", "u");
    KeptIffProper(ws[2], DeleteJob("1", "1.srv"));
    assert KnownHost(ws[2], "1.srv", "n");
    ReleaseOne(ws[2].nodes, "n", "1", 2);
    assert RemoveFirst(["1.srv"], "1") == ["1.srv"];
    ws, rs := Then(ws, rs, DeleteJob("1", "1.srv"));
    assert ws[3].jobs == ws[2].jobs;
  }

  lemma BothAssigned()
    ensures var nodes := AssignEach(TWO_NODES.nodes, ["n", "m"], "a", 2);
            && "n" in nodes && nodes["n"] == IDLE.(listed := ["a"], slotsUsed := 2)
            && "m" in nodes && nodes["m"] == IDLE.(listed := ["a"], slotsUsed := 2)
  {
    AssignEachAt(TWO_NODES.nodes, ["n", "m"], "a", 2, "n");
    AssignEachAt(TWO_NODES.nodes, ["n", "m"], "a", 2, "m");
    assert [] + ["a"] == ["a"];
  }

  /** A job on two nodes. */
  lemma OnTwoNodes() returns (ws: seq<World>, rs: seq<Request>)
    ensures rs == [Submit("a", Asking(2, "u")), RunJob("a", ["n", "m"], 2)] && IsRun(ws, rs) && ws[0] == TWO_NODES
    ensures ws[2].jobs == map["a" := Asking(2, "u").(state := Running, hosts := ["n", "m"])]
    ensures "n" in ws[2].nodes && ws[2].nodes["n"] == IDLE.(listed := ["a"], slotsUsed := 2)
    ensures "m" in ws[2].nodes && ws[2].nodes["m"] == IDLE.(listed := ["a"], slotsUsed := 2)
    ensures Ledger(ws[2])
  {
    assert Ledger(TWO_NODES);
    ws, rs := SubmitAndRun(TWO_NODES, "a", Asking(2, "u"), ["n", "m"]);
    BothAssigned();
  }

  /** A rerun of a job on two nodes leaves the second one charged for a queued job. */
  lemma RerunOfTwoNodes() returns (ws: seq<World>, rs: seq<Request>)
    ensures IsRun(ws, rs) && ws[0] == TWO_NODES && |rs| == 3 && rs[2] == RerunJob("a")
    ensures Ledger(ws[2]) && !Ledger(ws[3])
    ensures "m" in ws[3].nodes && ws[3].nodes["m"].listed == ["a"] && ws[3].nodes["m"].slotsUsed == 2
    ensures "a" in ws[3].jobs && ws[3].jobs["a"].state == Queued
  {
    ws, rs := OnTwoNodes();
    KeptIffProper(ws[2], RerunJob("a"));
    assert ws[2].jobs["a"].hosts[1] in ws[2].nodes;
    ws, rs := Then(ws, rs, RerunJob("a"));
  }

  /** One of the two nodes dies: the other one stays charged for a queued job. */
  lemma NodeDownOfTwo() returns (ws: seq<World>, rs: seq<Request>)
    ensures IsRun(ws, rs) && ws[0] == TWO_NODES && |rs| == 3 && rs[2] == Down("n")
    ensures Ledger(ws[2]) && !Ledger(ws[3])
    ensures "m" in ws[3].nodes && ws[3].nodes["m"].listed == ["a"] && ws[3].nodes["m"].slotsUsed == 2
    ensures "a" in ws[3].jobs && ws[3].jobs["a"].state != Running
  {
    ws, rs := OnTwoNodes();
    KeptIffProper(ws[2], Down("n"));
    assert RunsOn(ws[2].jobs, "a", "m");
    assert "a" in ws[2].nodes["n"].listed && !RunsAtMostOn(ws[2], "a", "n");
    RequeueEachFrame(ws[2], "n", ws[2].nodes["n"].listed);
    ws, rs := Then(ws, rs, Down("n"));
  }

  /** An undone dispatch of a job on two nodes leaves the second one charged for a queued job. */
  lemma UndoOfTwoNodes() returns (ws: seq<World>, rs: seq<Request>)
    ensures IsRun(ws, rs) && ws[0] == TWO_NODES && |rs| == 3 && rs[2] == Undo("a", 2, "n")
    ensures Ledger(ws[2]) && !Ledger(ws[3])
    ensures "m" in ws[3].nodes && ws[3].nodes["m"].listed == ["a"] && ws[3].nodes["m"].slotsUsed == 2
    ensures "a" in ws[3].jobs && ws[3].jobs["a"].state == Queued
  {
    ws, rs := OnTwoNodes();
    KeptIffProper(ws[2], Undo("a", 2, "n"));
    assert RunsOn(ws[2].jobs, "a", "m");
    ws, rs := Then(ws, rs, Undo("a", 2, "n"));
  }

  /** An obituary by short id: the job is complete, its slots are gone and the node still lists it. */
  lemma ObituaryByShortId() returns (ws: seq<World>, rs: seq<Request>)
    ensures IsRun(ws, rs) && ws[0] == ONE_NODE && |rs| == 3 && rs[2] == JobObit("1", "1.srv")
    ensures Ledger(ws[2]) && !Ledger(ws[3])
    ensures ws[3].nodes == map["n" := IDLE.(listed := ["1.srv"])] && !RunsOn(ws[3].jobs, "1.srv", "n")
  {
    ws, rs := Alone("1.srv", "u");
    KeptIffProper(ws[2], JobObit("1", "1.srv"));
    assert KnownHost(ws[2], "1.srv", "n");
    ReleaseOne(ws[2].nodes, "n", "1", 2);
    assert RemoveFirst(["1.srv"], "1") == ["1.srv"];
    ws, rs := Then(ws, rs, JobObit("1", "1.srv"));
  }

  /** A job that asks for one CPU and selects one node with four processors. */
  const SELECTING := Job(Queued, [], 1, 1, 4, "u", "", "batch")

  /** The selecting job beside another one. */
  lemma Selected() returns (ws: seq<World>, rs: seq<Request>)
    ensures IsRun(ws, rs) && ws[0] == ONE_NODE && |rs| == 4 && Ledger(ws[4])
    ensures ws[4].jobs == map["b" := Asking(1, "u").(state := Running, hosts := ["n"]),
                              "a" := SELECTING.(state := Running, hosts := ["n"])]
    ensures ws[4].nodes == map["n" := IDLE.(listed := ["b", "a"], slotsUsed := 3)]
  {
    ws, rs := Alone("b", "u");
    var vs, qs := SubmitAndRun(ws[2], "a", SELECTING, ["n"]);
    AssignOne(ws[2].nodes, "n", "a", 1);
    assert ["b"] + ["a"] == ["b", "a"];
    Joined(ws, rs, vs, qs);
    ws, rs := ws + vs[1..], rs + qs;
    assert ws[4] == vs[2];
  }

  /** A reclaim releases the four: the other job keeps running on a node that counts no slot used. */
  lemma ReclaimOfSelectingJob() returns (ws: seq<World>, rs: seq<Request>)
    ensures IsRun(ws, rs) && ws[0] == ONE_NODE && |rs| == 5 && rs[4] == Reclaim("a")
    ensures Ledger(ws[4]) && !Ledger(ws[5])
    ensures ws[5].nodes == map["n" := IDLE.(listed := ["b"])] && RunsOn(ws[5].jobs, "b", "n")
  {
    ws, rs := Selected();
    KeptIffProper(ws[4], Reclaim("a"));
    assert RunsOn(ws[4].jobs, "a", "n");
    ReleaseOne(ws[4].nodes, "n", "a", 4);
    assert RemoveFirst(["b", "a"], "a") == ["b"];
    ws, rs := Then(ws, rs, Reclaim("a"));
  }

  /** A submitted job whose attributes name a host twice. */
  lemma HostSubmittedTwice() returns (ws: seq<World>, rs: seq<Request>)
    ensures IsRun(ws, rs) && ws[0] == ONE_NODE && rs == [Submit("a", Asking(1, "u").(hosts := ["n", "n"]))]
    ensures Ledger(ws[0]) && !Ledger(ws[1])
  {
    var r := Submit("a", Asking(1, "u").(hosts := ["n", "n"]));
    assert Ledger(ONE_NODE);
    KeptIffProper(ONE_NODE, r);
    assert !NoDup(["n", "n"]) by { assert ["n", "n"][0] == ["n", "n"][1]; }
    ws, rs := [ONE_NODE, Apply(ONE_NODE, r)], [r];
  }

  /** A qalter that holds a running job: its node keeps it listed and charged. */
  lemma HoldOfRunningJob() returns (ws: seq<World>, rs: seq<Request>)
    ensures IsRun(ws, rs) && ws[0] == ONE_NODE && |rs| == 3
    ensures "a" in ws[2].jobs && rs[2] == RewriteJob("a", ws[2].jobs["a"].(state := Held))
    ensures Ledger(ws[2]) && !Ledger(ws[3]) && "n" in ws[3].nodes && ws[3].nodes["n"].listed == ["a"]
  {
    ws, rs := Alone("a", "u");
    HoldKeepsLedgerIff(ws[2], "a", Held);
    assert KnownHost(ws[2], "a", "n");
    ws, rs := Then(ws, rs, RewriteJob("a", ws[2].jobs["a"].(state := Held)));
  }

  /** Setting np to the slots in use: the node is full, lists a job and is not job-exclusive. */
  lemma SlotsSetToUse() returns (ws: seq<World>, rs: seq<Request>)
    ensures IsRun(ws, rs) && ws[0] == ONE_NODE && |rs| == 3 && rs[2] == SetSlots("n", 2, 2)
    ensures FlagsOk(ws[2].nodes) && !FlagsOk(ws[3].nodes) && Ledger(ws[3])
  {
    ws, rs := Alone("a", "u");
    FlagsKeptIff(ws[2], SetSlots("n", 2, 2));
    KeptIffProper(ws[2], SetSlots("n", 2, 2));
    ws, rs := Then(ws, rs, SetSlots("n", 2, 2));
  }

  /** Two users with one running job each. */
  lemma TwoOwners() returns (ws: seq<World>, rs: seq<Request>)
    ensures IsRun(ws, rs) && ws[0] == ONE_NODE && |rs| == 4
    ensures ws[4].jobs == map["a" := Asking(1, "u").(state := Running, hosts := ["n"]),
                              "b" := Asking(1, "v").(state := Running, hosts := ["n"])]
  {
    ws, rs := Alone("a", "u");
    var vs, qs := SubmitAndRun(ws[2], "b", Asking(1, "v"), ["n"]);
    Joined(ws, rs, vs, qs);
    ws, rs := ws + vs[1..], rs + qs;
    assert ws[4] == vs[2];
  }

  lemma OneEach(jobs: map<string, Job>)
    requires jobs == map["a" := Asking(1, "u").(state := Running, hosts := ["n"]),
                         "b" := Asking(1, "v").(state := Running, hosts := ["n"])]
    ensures WithinLimits(jobs, Limits(0, 1, 0)) && !RoomFor(jobs, Limits(0, 1, 0), Owner("u"))
  {
    forall who | LimitFor(Limits(0, 1, 0), who) > 0 ensures |RunningFor(jobs, who)| <= 1 {
      var only := if who == Owner("u") then {"a"} else if who == Owner("v") then {"b"} else {};
      assert RunningFor(jobs, who) == only;
    }
    assert RunningFor(jobs, Owner("u")) == {"a"};
  }

  /** With one running job a user, altering the owner of a running job gives its new owner two. */
  lemma OwnerAltered() returns (ws: seq<World>, rs: seq<Request>)
    ensures IsRun(ws, rs) && ws[0] == ONE_NODE && |rs| == 5
    ensures "b" in ws[4].jobs && rs[4] == RewriteJob("b", ws[4].jobs["b"].(owner := "u"))
    ensures WithinLimits(ws[4].jobs, Limits(0, 1, 0)) && !WithinLimits(ws[5].jobs, Limits(0, 1, 0))
  {
    ws, rs := TwoOwners();
    var r := RewriteJob("b", ws[4].jobs["b"].(owner := "u"));
    OneEach(ws[4].jobs);
    LimitsKeptIff(ws[4], r, Limits(0, 1, 0));
    ws, rs := Then(ws, rs, r);
  }
}
