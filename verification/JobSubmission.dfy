/** Submitting jobs: the job manager as the gate, the router and the array expansion update it. */
module JobSubmission {
  import opened Decimal
  import opened JobArray
  import Strings
  import opened Listing
  import opened Admission
  import L = SlotLedger

  class JobManager {
    const queues: map<string, Queue>
    var jobs: map<string, Job>

    constructor (queues: map<string, Queue>)
      ensures this.queues == queues && jobs == map[]
    {
      this.queues, jobs := queues, map[];
    }

    /** `CountByStateInQueue`. */
    method CountByStateInQueue(name: string, states: set<L.JobState>) returns (count: nat)
      ensures count == |InStates(jobs, name, states)|
    {
      count := 0;
      var rest := jobs.Keys;
      ghost var seen: set<string> := {};
      while rest != {}
        invariant rest <= jobs.Keys && count == |seen|
        invariant forall k :: k in seen <==> k in jobs.Keys - rest && k in InStates(jobs, name, states)
      {
        var k :| k in rest;
        rest := rest - {k};
        if jobs[k].queue == name && jobs[k].state in states {
          count := count + 1;
          seen := seen + {k};
        }
      }
      assert seen == InStates(jobs, name, states);
    }

    /** `CountQueuedByOwnerInQueue` and `CountRunningByOwnerInQueue`. */
    method CountByOwnerInQueue(name: string, states: set<L.JobState>, owner: string) returns (count: nat)
      ensures count == |OwnersIn(jobs, name, states, owner)|
    {
      count := 0;
      var rest := jobs.Keys;
      ghost var seen: set<string> := {};
      while rest != {}
        invariant rest <= jobs.Keys && count == |seen|
        invariant forall k :: k in seen <==> k in jobs.Keys - rest && k in OwnersIn(jobs, name, states, owner)
      {
        var k :| k in rest;
        rest := rest - {k};
        if jobs[k].queue == name && jobs[k].state in states && jobs[k].owner == owner {
          count := count + 1;
          seen := seen + {k};
        }
      }
      assert seen == OwnersIn(jobs, name, states, owner);
    }

    /** The four counts of the gate. */
    method CheckCounts(name: string, q: Queue, user: string)
      returns (full: bool, runFull: bool, userFull: bool, userRunFull: bool)
      ensures full == !Below(|Pending(jobs, name)|, q.maxJobs)
      ensures runFull == !Below(|InStates(jobs, name, {L.Running})|, q.maxRun)
      ensures userFull == !Below(|OwnersIn(jobs, name, {L.Queued, L.Provisioning}, user)|, q.maxUserJobs)
      ensures userRunFull == !Below(|OwnersIn(jobs, name, {L.Running}, user)|, q.maxUserRun)
    {
      PendingIsSum(jobs, name);
      var queued := CountByStateInQueue(name, {L.Queued, L.Provisioning});
      var held := CountByStateInQueue(name, {L.Held});
      var waiting := CountByStateInQueue(name, {L.Waiting});
      var running := CountByStateInQueue(name, {L.Running});
      var mine := CountByOwnerInQueue(name, {L.Queued, L.Provisioning}, user);
      var mineRunning := CountByOwnerInQueue(name, {L.Running}, user);
      full := q.maxJobs > 0 && queued + held + waiting >= q.maxJobs;
      runFull := q.maxRun > 0 && running >= q.maxRun;
      userFull := q.maxUserJobs > 0 && mine >= q.maxUserJobs;
      userRunFull := q.maxUserRun > 0 && mineRunning >= q.maxUserRun;
    }

    method MakeChecks(name: string, q: Queue, j: Job, user: string, fromRoute: bool) returns (failed: seq<bool>)
      ensures failed == Failures(jobs, name, q, j, user, fromRoute)
    {
      var full, runFull, userFull, userRunFull := CheckCounts(name, q, user);
      var inRange := CheckResourceInterval(q.least, q.most, j.resources);
      failed := [!q.enabled, !q.started, q.fromRouteOnly && !fromRoute, Disallows(q.disallowed, j.types),
                 full, runFull, userFull, userRunFull, !Admits(q.users, ExtractUser(user)), !Admits(q.groups, j.group),
                 !AdmitsHost(q.hosts, j.host), !inRange];
    }

    /** `admitToQueue`: names the first check that fails. */
    method AdmitToQueue(name: string, q: Queue, j: Job, user: string, fromRoute: bool)
      returns (refused: Option<Refusal>)
      ensures IsFirst(Failures(jobs, name, q, j, user, fromRoute), refused)
      ensures refused.None? <==> Admitted(jobs, name, q, j, user, fromRoute)
    {
      var failed := MakeChecks(name, q, j, user, fromRoute);
      refused := FirstOf(failed);
      NoFailureMeansAdmitted(jobs, name, q, j, user, fromRoute);
    }

    /** `routeJob`. */
    method RouteJob(j: Job, user: string) returns (r: Routing)
      ensures RoutedTo(jobs, queues, j, user, r)
    {
      if j.queue !in queues || !queues[j.queue].isRoute { return Stays; }
      var d := queues[j.queue].destinations;
      for i := 0 to |d|
        invariant forall k :: 0 <= k < i ==> !Accepts(jobs, queues, d[k], j, user)
      {
        if d[i] in queues {
          var refused := AdmitToQueue(d[i], queues[d[i]], j, user, true);
          if refused.None? { return To(d[i]); }
        }
      }
      return NoRoute;
    }

    /** `finalizeRoute`, up to writing the queue into the job. */
    method FinalizeRoute(j: Job, user: string) returns (dest: Option<string>)
      ensures Finalized(jobs, queues, j, user, dest)
    {
      var r := RouteJob(j, user);
      match r {
        case To(q) => return Some(q);
        case NoRoute => return None;
        case Stays =>
          if j.queue !in queues { return None; }
          var refused := AdmitToQueue(j.queue, queues[j.queue], j, user, false);
          if refused.Some? { return None; }
          return Some(j.queue);
      }
    }

    /** `commitJobInstance`; `held` and `waits` tell whether it has holds or a start time to come. */
    method CommitJobInstance(id: string, held: bool, waits: bool) returns (ok: bool)
      requires id in jobs
      modifies this
      ensures Committed(old(jobs), queues, id, held, waits, ok, jobs)
    {
      jobs := jobs[id := jobs[id].(state := L.Queued)];
      var j := jobs[id];
      var dest := FinalizeRoute(j, j.owner);
      if dest.None? { return false; }
      jobs := jobs[id := j.(queue := dest.value, state := CommittedState(held, waits))];
      return true;
    }

    // ------------------------------------------------------------ job arrays

    method AddTasks(ids: seq<string>, task: Job)
      modifies this
      ensures jobs == WithTasks(old(jobs), ids, task)
    {
      for i := 0 to |ids|
        invariant jobs == WithTasks(old(jobs), ids[..i], task)
      {
        assert ids[..i + 1][..i] == ids[..i];
        jobs := jobs[ids[i] := task];
      }
      assert ids[..|ids|] == ids;
    }

    /** Commits the tasks in turn until one is rejected; `states` are the states in between. */
    method CommitTasks(ids: seq<string>, held: bool, waits: string -> bool)
      returns (ok: bool, ghost states: seq<map<string, Job>>)
      requires forall id :: id in ids ==> id in jobs
      modifies this
      ensures ok ==> CommitsAll(states, queues, ids, held, waits) && states[0] == old(jobs) && states[|ids|] == jobs
      ensures OnlyTasksChange(old(jobs), jobs, ids)
    {
      ok, states := true, [jobs];
      var i := 0;
      ghost var start := jobs;
      while i < |ids| && ok
        invariant 0 <= i <= |ids| && OnlyTasksChange(start, jobs, ids)
        invariant ok ==> CommitsAll(states, queues, ids[..i], held, waits) && states[0] == start && states[i] == jobs
        decreases |ids| - i
      {
        ghost var mid := jobs;
        ok := CommitJobInstance(ids[i], held, waits(ids[i]));
        CommitChangesOne(mid, queues, ids[i], held, waits(ids[i]), ok, jobs);
        OneMoreTask(start, mid, jobs, ids, ids[i]);
        if ok { OneMoreCommit(states, queues, ids, i, held, waits, jobs); }
        states := states + [jobs];
        i := i + 1;
      }
      assert ids[..|ids|] == ids;
    }

    method RemoveTasks(ids: seq<string>)
      modifies this
      ensures jobs == old(jobs) - Members(ids)
    {
      ghost var start := jobs;
      for i := 0 to |ids|
        invariant jobs == start - Members(ids[..i])
      {
        MembersNext(ids, i);
        jobs := jobs - {ids[i]};
      }
      assert ids[..|ids|] == ids;
    }

    /** The indices of a specification, as task ids. */
    method NameTasks(master: string, server: string, indices: seq<int>) returns (ids: seq<string>)
      requires Increasing(indices)
      ensures TasksOf(ids, master, server, indices)
    {
      ids := [];
      for i := 0 to |indices|
        invariant TasksOf(ids, master, server, indices[..i])
      {
        NewTask(ids, master, server, indices, i);
        ids := ids + [TaskId(master, server, indices[i])];
      }
      assert indices[..|indices|] == indices;
    }

    /**
     `processJobArray`. On success the master is replaced by one task per index; if any task is rejected
     none of them is left and every other job is as it was.
     */
    method ProcessJobArray(master: string, server: string, spec: string, held: bool, waits: string -> bool)
      returns (r: ArrayResult, ids: seq<string>, ghost states: seq<map<string, Job>>)
      requires master in jobs
      modifies this
      ensures r.NotAnArray? || r.BadSpec? || r.RunsOn? ==> jobs == old(jobs)
      ensures r.BadSpec? <==> Strings.TrimSpace(spec) != "" && FirstIsInvalid(Parts(spec))
      ensures r.RunsOn? <==> Strings.TrimSpace(spec) != "" && FirstIsUnending(Parts(spec))
      ensures r.NotAnArray? <==> Strings.TrimSpace(spec) == "" || GathersNothing(spec)
      ensures r.BadSpec? ==> ids == []
      ensures r.Expanded? || r.Rejected? ==> Named(ids, master, server, spec)
      ensures r.Expanded? ==> Replaced(old(jobs), queues, master, ids, held, waits, states, jobs)
      ensures r.Rejected? ==> jobs == old(jobs) - Members(ids)
    {
      ids, states := [], [];
      if Strings.TrimSpace(spec) == "" { return NotAnArray, [], []; }
      var parsed := ParseArraySpec(spec);
      OneOutcome(Parts(spec));
      if parsed.Invalid? { return BadSpec, [], []; }
      if parsed.Unending? { return RunsOn, [], []; }
      FirstIsMember(parsed.all);
      if parsed.all == [] { return NotAnArray, [], []; }
      ids := NameTasks(master, server, parsed.all);
      var task := jobs[master].(state := L.Transit);
      AddTasks(ids, task);
      ghost var added := jobs;
      WithTasksAt(old(jobs), ids, task);
      var ok;
      ok, states := CommitTasks(ids, held, waits);
      if ok {
        jobs := jobs - {master};
        r := Expanded;
      } else {
        TasksGone(old(jobs), added, jobs, ids);
        RemoveTasks(ids);
        r := Rejected;
      }
    }

    /** A job that is no array is committed, and removed under the name `raw` if it is refused. */
    method CommitSingle(raw: string, id: string, held: bool, waits: bool) returns (ok: bool)
      requires id in jobs && (raw == id || raw !in jobs)
      modifies this
      ensures ok ==> Committed(old(jobs), queues, id, held, waits, true, jobs)
      ensures !ok ==> RefusedUnder(old(jobs), raw, id, jobs)
      ensures !ok ==> Committed(old(jobs), queues, id, held, waits, false, Queued(old(jobs), id))
    {
      ok := CommitJobInstance(id, held, waits);
      if !ok {
        RefusalNamed(old(jobs), raw, id);
        jobs := jobs - {raw};
      }
    }

    /**
     `handleCommit` of the job `id` that was found under the name `raw`. An array is expanded first and any
     other job is committed as it is; what is refused is removed under the name `raw`.
     */
    method HandleCommit(raw: string, id: string, server: string, spec: string, held: bool, waits: string -> bool)
      returns (r: CommitResult, ids: seq<string>, ghost states: seq<map<string, Job>>)
      requires id in jobs && (raw == id || raw !in jobs)
      modifies this
      ensures r.Single? ==> Committed(old(jobs), queues, id, held, waits(id), true, jobs)
      ensures r.SingleRefused? ==> RefusedUnder(old(jobs), raw, id, jobs)
      ensures r.SingleRefused? ==> Committed(old(jobs), queues, id, held, waits(id), false, Queued(old(jobs), id))
      ensures r.Array? ==>
              Named(ids, id, server, spec) && Replaced(old(jobs), queues, id, ids, held, waits, states, jobs)
      ensures r.ArrayRefused? ==>
              jobs == old(jobs) - Members(ids) - {raw} && (ids == [] || Named(ids, id, server, spec))
      ensures r.NeverReturns? ==> jobs == old(jobs)
      ensures r.NeverReturns? <==> Strings.TrimSpace(spec) != "" && FirstIsUnending(Parts(spec))
      ensures r.Single? || r.SingleRefused? <==> Strings.TrimSpace(spec) == "" || GathersNothing(spec)
    {
      var expanded;
      expanded, ids, states := ProcessJobArray(id, server, spec, held, waits);
      if expanded.NotAnArray? {
        var ok := CommitSingle(raw, id, held, waits(id));
        r := if ok then Single else SingleRefused;
      } else if expanded.RunsOn? {
        r := NeverReturns;
      } else if expanded.Expanded? {
        r := Array;
      } else {
        assert jobs == old(jobs) - Members(ids);
        jobs := jobs - {raw};
        r := ArrayRefused;
      }
    }
  }

  /** The checks are made in turn and the first to fail is the answer. */
  method FirstOf(flags: seq<bool>) returns (r: Option<Refusal>)
    requires |flags| == 12
    ensures IsFirst(flags, r)
  {
    for i := 0 to 12
      invariant forall k :: 0 <= k < i ==> !flags[k]
    {
      if flags[i] { return Some(CHECKS[i]); }
    }
    return None;
  }

  function Members(ids: seq<string>): set<string> { set id | id in ids }

  lemma MembersNext(ids: seq<string>, i: nat)
    requires i < |ids|
    ensures Members(ids[..i + 1]) == Members(ids[..i]) + {ids[i]}
  {
    assert ids[..i + 1] == ids[..i] + [ids[i]];
  }

  /** `RunsOn` is an expansion that does not return: the loop of a range never ends. */
  datatype ArrayResult = NotAnArray | BadSpec | RunsOn | Rejected | Expanded

  /** What a commit comes to. */
  datatype CommitResult = Single | SingleRefused | Array | ArrayRefused | NeverReturns

  /**
   A refused job is gone, and nothing else, if and only if it was named in full; under a short name it stays
   and is queued, although the gate refused it.
   */
  ghost predicate RefusedUnder(jobs: map<string, Job>, raw: string, id: string, after: map<string, Job>)
    requires id in jobs
  {
    if raw == id then after == jobs - {id} else id in after && after == jobs[id := jobs[id].(state := L.Queued)]
  }

  lemma RefusalNamed(jobs: map<string, Job>, raw: string, id: string)
    requires id in jobs && (raw == id || raw !in jobs)
    ensures RefusedUnder(jobs, raw, id, Queued(jobs, id) - {raw})
  {
    var after := Queued(jobs, id) - {raw};
    if raw == id {
      assert after == jobs - {id};
    } else {
      assert after == Queued(jobs, id);
    }
  }

  ghost predicate GathersNothing(spec: string) {
    FineUpTo(Parts(spec), |Parts(spec)|) && forall v :: !Gathers(Parts(spec), v)
  }

  /** Job 1.srv is refused by a disabled queue: committed under the name "1" it stays there, queued. */
  lemma RefusedUnderShortName(q: Queue)
    requires !q.enabled && !q.isRoute
    ensures var jobs := map["1.srv" := Job(L.Transit, "batch", "u", "g", "h", [], Resources("", "", ""))];
            var after := Queued(jobs, "1.srv");
            && Committed(jobs, map["batch" := q], "1.srv", false, false, false, after)
            && RefusedUnder(jobs, "1", "1.srv", after - {"1"})
            && "1.srv" in after - {"1"} && (after - {"1"})["1.srv"].state == L.Queued
  {
    var jobs := map["1.srv" := Job(L.Transit, "batch", "u", "g", "h", [], Resources("", "", ""))];
    RefusalNamed(jobs, "1", "1.srv");
  }

  function WithTasks(jobs: map<string, Job>, ids: seq<string>, task: Job): map<string, Job> {
    if ids == [] then jobs else WithTasks(jobs, ids[..|ids| - 1], task)[ids[|ids| - 1] := task]
  }

  lemma {:induction false} WithTasksAt(jobs: map<string, Job>, ids: seq<string>, task: Job)
    ensures forall id :: id in WithTasks(jobs, ids, task) <==> id in jobs || id in ids
    ensures forall id :: id in WithTasks(jobs, ids, task) ==>
              WithTasks(jobs, ids, task)[id] == if id in ids then task else jobs[id]
  {
    if ids != [] {
      assert ids == ids[..|ids| - 1] + [ids[|ids| - 1]];
      WithTasksAt(jobs, ids[..|ids| - 1], task);
    }
  }

  /** The ids of the tasks with these indices, all different and none the master's. */
  ghost predicate TasksOf(ids: seq<string>, master: string, server: string, indices: seq<int>) {
    && NoDup(ids) && |ids| == |indices| && master !in ids
    && forall i :: 0 <= i < |ids| ==> ids[i] == TaskId(master, server, indices[i])
  }

  lemma NewTask(ids: seq<string>, master: string, server: string, indices: seq<int>, i: nat)
    requires Increasing(indices) && i < |indices| && TasksOf(ids, master, server, indices[..i])
    ensures TasksOf(ids + [TaskId(master, server, indices[i])], master, server, indices[..i + 1])
  {
    var id := TaskId(master, server, indices[i]);
    TaskIsNotMaster(master, server, indices[i]);
    forall k | 0 <= k < i ensures ids[k] != id {
      if ids[k] == id { TaskIdsDiffer(master, server, indices[k], indices[i]); }
    }
    NoDupAppend(ids, id);
  }

  /** The task `ids[i]` is committed between two states. */
  ghost predicate Link(states: seq<map<string, Job>>, queues: map<string, Queue>, ids: seq<string>, held: bool,
                       waits: string -> bool, i: int) {
    && 0 <= i < |ids| && i + 1 < |states| && ids[i] in states[i]
    && Committed(states[i], queues, ids[i], held, waits(ids[i]), true, states[i + 1])
  }

  /** The tasks `ids` have all been committed, one after the other. */
  ghost predicate CommitsAll(states: seq<map<string, Job>>, queues: map<string, Queue>, ids: seq<string>, held: bool,
                             waits: string -> bool) {
    |states| == |ids| + 1 && forall i :: 0 <= i < |ids| ==> Link(states, queues, ids, held, waits, i)
  }

  lemma OneMoreCommit(states: seq<map<string, Job>>, queues: map<string, Queue>, ids: seq<string>, i: nat, held: bool,
                      waits: string -> bool, after: map<string, Job>)
    requires i < |ids| && CommitsAll(states, queues, ids[..i], held, waits) && ids[i] in states[i]
    requires Committed(states[i], queues, ids[i], held, waits(ids[i]), true, after)
    ensures CommitsAll(states + [after], queues, ids[..i + 1], held, waits)
  {
    var more, next := states + [after], ids[..i + 1];
    forall k | 0 <= k < i + 1 ensures Link(more, queues, next, held, waits, k) {
      if k < i { assert Link(states, queues, ids[..i], held, waits, k); }
    }
  }

  ghost predicate OnlyTasksChange(jobs: map<string, Job>, after: map<string, Job>, ids: seq<string>) {
    after.Keys == jobs.Keys && forall k :: k in jobs && k !in ids ==> after[k] == jobs[k]
  }

  lemma CommitChangesOne(jobs: map<string, Job>, queues: map<string, Queue>, id: string, held: bool, waits: bool,
                         ok: bool,
                         after: map<string, Job>)
    requires id in jobs && Committed(jobs, queues, id, held, waits, ok, after)
    ensures after.Keys == jobs.Keys && forall k :: k in jobs && k != id ==> after[k] == jobs[k]
  {
    if ok { var dest := CommittedTo(jobs, queues, id, held, waits, after); }
  }

  lemma OneMoreTask(jobs: map<string, Job>, mid: map<string, Job>, after: map<string, Job>, ids: seq<string>,
                    id: string)
    requires OnlyTasksChange(jobs, mid, ids) && id in ids
    requires after.Keys == mid.Keys && forall k :: k in mid && k != id ==> after[k] == mid[k]
    ensures OnlyTasksChange(jobs, after, ids)
  {
  }

  lemma TasksGone(jobs: map<string, Job>, added: map<string, Job>, after: map<string, Job>, ids: seq<string>)
    requires forall id :: id in added <==> id in jobs || id in ids
    requires forall id :: id in jobs && id !in ids ==> added[id] == jobs[id]
    requires OnlyTasksChange(added, after, ids)
    ensures after - Members(ids) == jobs - Members(ids)
  {
    var gone := Members(ids);
    assert forall k :: k in after - gone <==> k in jobs - gone;
  }

  /** `ids` are the task ids of exactly the indices the loops of the specification visit. */
  ghost predicate Named(ids: seq<string>, master: string, server: string, spec: string) {
    && FineUpTo(Parts(spec), |Parts(spec)|)
    && exists indices :: Increasing(indices) && (forall v :: v in indices <==> Gathers(Parts(spec), v))
                         && TasksOf(ids, master, server, indices)
  }

  /** The master is gone and in its place the tasks have been committed, starting as copies of it. */
  ghost predicate Replaced(jobs: map<string, Job>, queues: map<string, Queue>, master: string, ids: seq<string>,
                           held: bool,
                           waits: string -> bool, states: seq<map<string, Job>>, after: map<string, Job>)
    requires master in jobs
  {
    && CommitsAll(states, queues, ids, held, waits)
    && states[0] == WithTasks(jobs, ids, jobs[master].(state := L.Transit))
    && after == states[|ids|] - {master}
  }

  // ---------------------------------------------------------------- what an expansion guarantees

  /** Between two states only the task `ids[i]` changes, and it ends up in a known queue. */
  ghost predicate ChangesOne(states: seq<map<string, Job>>, queues: map<string, Queue>, ids: seq<string>, i: int) {
    && 0 <= i < |ids| && i + 1 < |states| && ids[i] in states[i] && states[i + 1].Keys == states[i].Keys
    && (forall k :: k in states[i] && k != ids[i] ==> states[i + 1][k] == states[i][k])
    && states[i + 1][ids[i]].queue in queues
  }

  lemma LinkChangesOne(states: seq<map<string, Job>>, queues: map<string, Queue>, ids: seq<string>, held: bool,
                       waits: string -> bool, i: nat)
    requires Link(states, queues, ids, held, waits, i)
    ensures ChangesOne(states, queues, ids, i)
  {
    CommitChangesOne(states[i], queues, ids[i], held, waits(ids[i]), true, states[i + 1]);
    CommitWithinLimit(states[i], queues, ids[i], held, waits(ids[i]), states[i + 1]);
  }

  lemma {:induction false} ChangesFrame(states: seq<map<string, Job>>, queues: map<string, Queue>, ids: seq<string>,
                                        n: nat)
    requires |states| == |ids| + 1 && n <= |ids| && forall i :: 0 <= i < n ==> ChangesOne(states, queues, ids, i)
    ensures OnlyTasksChange(states[0], states[n], ids)
    ensures forall i :: 0 <= i < n ==> ids[i] in states[n] && states[n][ids[i]].queue in queues
  {
    if n > 0 {
      ChangesFrame(states, queues, ids, n - 1);
      assert ChangesOne(states, queues, ids, n - 1);
      OneMoreTask(states[0], states[n - 1], states[n], ids, ids[n - 1]);
    }
  }

  lemma CommitsAllFrame(states: seq<map<string, Job>>, queues: map<string, Queue>, ids: seq<string>, held: bool,
                        waits: string -> bool)
    requires CommitsAll(states, queues, ids, held, waits)
    ensures OnlyTasksChange(states[0], states[|ids|], ids)
    ensures forall i :: 0 <= i < |ids| ==> ids[i] in states[|ids|] && states[|ids|][ids[i]].queue in queues
  {
    forall i | 0 <= i < |ids| ensures ChangesOne(states, queues, ids, i) {
      assert Link(states, queues, ids, held, waits, i);
      LinkChangesOne(states, queues, ids, held, waits, i);
    }
    ChangesFrame(states, queues, ids, |ids|);
  }

  lemma {:induction false} CommitsAllWithin(states: seq<map<string, Job>>, queues: map<string, Queue>, ids: seq<string>,
                                            held: bool, waits: string -> bool, n: nat, name: string)
    requires CommitsAll(states, queues, ids, held, waits) && n <= |ids| && WithinLimit(states[0], queues, name)
    ensures WithinLimit(states[n], queues, name)
  {
    if n > 0 {
      CommitsAllWithin(states, queues, ids, held, waits, n - 1, name);
      assert Link(states, queues, ids, held, waits, n - 1);
      CommitKeepsOthersWithin(states[n - 1], queues, ids[n - 1], held, waits(ids[n - 1]), states[n], name);
    }
  }

  /** Expansion replaces the master by exactly the tasks, each in a known queue, and changes no other job. */
  lemma ExpansionExact(jobs: map<string, Job>, queues: map<string, Queue>, master: string, ids: seq<string>, held: bool,
                       waits: string -> bool, states: seq<map<string, Job>>, after: map<string, Job>)
    requires master in jobs && master !in ids && Replaced(jobs, queues, master, ids, held, waits, states, after)
    ensures forall k :: k in after <==> k != master && (k in jobs || k in ids)
    ensures forall k :: k in jobs && k !in ids && k != master ==> after[k] == jobs[k]
    ensures forall id :: id in ids ==> after[id].queue in queues
  {
    WithTasksAt(jobs, ids, jobs[master].(state := L.Transit));
    CommitsAllFrame(states, queues, ids, held, waits);
    assert states[|ids|].Keys == states[0].Keys;
  }

  /** No queue is taken over max_queuable. */
  lemma ExpansionWithinLimits(jobs: map<string, Job>, queues: map<string, Queue>, master: string, ids: seq<string>,
                              held: bool, waits: string -> bool, states: seq<map<string, Job>>, after: map<string, Job>,
                              name: string)
    requires master in jobs && Replaced(jobs, queues, master, ids, held, waits, states, after)
    requires WithinLimit(jobs, queues, name)
    ensures WithinLimit(after, queues, name)
  {
    WithTasksAt(jobs, ids, jobs[master].(state := L.Transit));
    SubsetSize(Pending(states[0], name), Pending(jobs, name));
    CommitsAllWithin(states, queues, ids, held, waits, |ids|, name);
    SubsetSize(Pending(after, name), Pending(states[|ids|], name));
  }
}
